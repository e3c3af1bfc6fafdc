/** The viewer's service helpers (packages/viewer/src/services/api.ts): the
    resolution of the page's query parameters into a story or manifest URL,
    and the most-recent-first list of stories read, kept in local storage. */
module ViewerApi {
  import opened Wrappers

  /** The page's query parameters; a name maps to its first value. */
  type Params = map<string, string>

  /** `params.get(name)` used as a condition: present and not empty. */
  predicate Given(params: Params, name: string)
  {
    name in params && params[name] != ""
  }

  const RawBase := "https://raw.githubusercontent.com/"

  /** The directory of a repository's published stories on its main branch. */
  function StoriesDirUrl(repo: string): string
  {
    RawBase + repo + "/main/stories/"
  }

  /** `getStoryUrlFromParams`: a non-empty `url` wins; otherwise non-empty
      `repo` and `story` name a file in the repository's stories directory;
      anything else resolves to nothing. */
  function StoryUrl(params: Params): (r: Option<string>)
    ensures Given(params, "url") ==> r == Some(params["url"])
    ensures !Given(params, "url") && Given(params, "repo") && Given(params, "story") ==>
      r == Some(StoriesDirUrl(params["repo"]) + params["story"] + ".json")
    ensures r.None? <==> !Given(params, "url") && !(Given(params, "repo") && Given(params, "story"))
  {
    if Given(params, "url") then Some(params["url"])
    else if Given(params, "repo") && Given(params, "story") then
      Some(StoriesDirUrl(params["repo"]) + params["story"] + ".json")
    else None
  }

  /** `getManifestUrlFromParams`: a non-empty `manifest` wins; otherwise a
      non-empty `repo` with no non-empty `story` names the repository's
      manifest; anything else resolves to nothing. */
  function ManifestUrl(params: Params): (r: Option<string>)
    ensures Given(params, "manifest") ==> r == Some(params["manifest"])
    ensures !Given(params, "manifest") && Given(params, "repo") && !Given(params, "story") ==>
      r == Some(StoriesDirUrl(params["repo"]) + "manifest.json")
    ensures r.None? <==> !Given(params, "manifest") && !(Given(params, "repo") && !Given(params, "story"))
  {
    if Given(params, "manifest") then Some(params["manifest"])
    else if Given(params, "repo") && !Given(params, "story") then
      Some(StoriesDirUrl(params["repo"]) + "manifest.json")
    else None
  }

  /** Without the explicit `url` and `manifest` parameters the page opens a
      story or a manifest, never both; with a `repo`, exactly one of them,
      and both live in the same stories directory. */
  lemma RepoParamsOpenOne(params: Params)
    requires !Given(params, "url") && !Given(params, "manifest")
    ensures !(StoryUrl(params).Some? && ManifestUrl(params).Some?)
    ensures Given(params, "repo") ==> (StoryUrl(params).Some? <==> ManifestUrl(params).None?)
    ensures Given(params, "repo") ==>
      var dir := StoriesDirUrl(params["repo"]);
      var url := if StoryUrl(params).Some? then StoryUrl(params).value else ManifestUrl(params).value;
      |dir| <= |url| && url[..|dir|] == dir
  {
  }

  /** One entry of the recent list. */
  datatype RecentStory = RecentStory(url: string, title: string, accessedAt: string)

  /** The storage item: absent (or empty), not parseable, or a list. */
  datatype StoredItem = NoItem | Unparsable | Saved(list: seq<RecentStory>)

  const MaxRecentStories := 10

  /** `.filter(s => s.url !== url)`. */
  function WithoutUrl(list: seq<RecentStory>, url: string): (r: seq<RecentStory>)
    ensures |r| <= |list|
    ensures forall k | 0 <= k < |r| :: r[k].url != url
    ensures forall e | e in list && e.url != url :: e in r
    ensures forall e | e in r :: e in list
  {
    if list == [] then []
    else if list[0].url == url then WithoutUrl(list[1..], url)
    else [list[0]] + WithoutUrl(list[1..], url)
  }

  /** Each entry with another url is kept as many times as the list holds
      it, duplicates included, and every entry with this url is gone. */
  lemma {:induction false} WithoutUrlCounts(list: seq<RecentStory>, url: string)
    ensures var r := WithoutUrl(list, url);
      forall e :: multiset(r)[e] == if e.url == url then 0 else multiset(list)[e]
  {
    if list != [] {
      WithoutUrlCounts(list[1..], url);
      assert list == [list[0]] + list[1..];
    }
  }

  /** `a` is `b` with some entries left out and the others in their order. */
  predicate IsSubsequence(a: seq<RecentStory>, b: seq<RecentStory>)
    decreases |b|
  {
    if a == [] then true
    else if b == [] then false
    else if a[0] == b[0] then IsSubsequence(a[1..], b[1..])
    else IsSubsequence(a, b[1..])
  }

  lemma {:induction false} WithoutUrlKeepsOrder(list: seq<RecentStory>, url: string)
    ensures IsSubsequence(WithoutUrl(list, url), list)
  {
    if list != [] {
      WithoutUrlKeepsOrder(list[1..], url);
      if list[0].url != url {
        var r := [list[0]] + WithoutUrl(list[1..], url);
        assert r[1..] == WithoutUrl(list[1..], url);
      } else {
        SubsequenceOfTail(WithoutUrl(list[1..], url), list);
      }
    }
  }

  /** A subsequence of the tail is a subsequence of the whole list. */
  lemma {:induction false} SubsequenceOfTail(a: seq<RecentStory>, b: seq<RecentStory>)
    requires b != [] && IsSubsequence(a, b[1..])
    ensures IsSubsequence(a, b)
    decreases |a| + |b|, 1
  {
    if a != [] && a[0] == b[0] {
      PrefixDrop(a, b[1..]);
    }
  }

  /** Dropping the first entry keeps a subsequence a subsequence. */
  lemma {:induction false} PrefixDrop(a: seq<RecentStory>, c: seq<RecentStory>)
    requires a != [] && IsSubsequence(a, c)
    ensures IsSubsequence(a[1..], c)
    decreases |a| + |c|, 0
  {
    if a[0] == c[0] {
      SubsequenceOfTail(a[1..], c);
    } else {
      PrefixDrop(a, c[1..]);
      SubsequenceOfTail(a[1..], c);
    }
  }

  /** A prefix of a subsequence is a subsequence. */
  lemma {:induction false} SubsequencePrefix(a: seq<RecentStory>, b: seq<RecentStory>, n: nat)
    requires n <= |a| && IsSubsequence(a, b)
    ensures IsSubsequence(a[..n], b)
    decreases |b|
  {
    if n > 0 && b != [] {
      if a[0] == b[0] {
        SubsequencePrefix(a[1..], b[1..], n - 1);
        assert a[..n][1..] == a[1..][..n - 1];
      } else {
        SubsequencePrefix(a, b[1..], n);
      }
    }
  }

  /** No url appears twice. */
  predicate DistinctUrls(list: seq<RecentStory>)
  {
    forall i, j | 0 <= i < j < |list| :: list[i].url != list[j].url
  }

  /** The list `addRecentStory` stores: the new entry first, then the old
      entries for other urls, cut to the first ten. */
  function Added(old_: seq<RecentStory>, url: string, title: string, now: string): (r: seq<RecentStory>)
    ensures 1 <= |r| <= MaxRecentStories && r[0] == RecentStory(url, title, now)
  {
    var recent := [RecentStory(url, title, now)] + WithoutUrl(old_, url);
    if |recent| <= MaxRecentStories then recent else recent[..MaxRecentStories]
  }

  /** What adding promises: the entry is first, no other entry carries its
      url, the list has at most ten entries, the others keep their relative
      order, and distinct urls stay distinct. */
  lemma AddedProperties(old_: seq<RecentStory>, url: string, title: string, now: string)
    ensures var r := Added(old_, url, title, now);
      && 1 <= |r| <= MaxRecentStories
      && r[0] == RecentStory(url, title, now)
      && (forall k | 1 <= k < |r| :: r[k].url != url)
      && IsSubsequence(r[1..], old_)
      && r[1..] == WithoutUrl(old_, url)[..|r| - 1]
      && |r| == (if 1 + |WithoutUrl(old_, url)| <= MaxRecentStories then 1 + |WithoutUrl(old_, url)| else MaxRecentStories)
      && (DistinctUrls(old_) ==> DistinctUrls(r))
  {
    var rest := WithoutUrl(old_, url);
    var recent := [RecentStory(url, title, now)] + rest;
    var r := Added(old_, url, title, now);
    assert r[1..] == rest[..|r| - 1];
    WithoutUrlKeepsOrder(old_, url);
    SubsequencePrefix(rest, old_, |r| - 1);
    if DistinctUrls(old_) {
      DistinctSubsequence(rest, old_);
      forall i, j | 0 <= i < j < |r| ensures r[i].url != r[j].url {
        if i > 0 {
          assert r[i] == rest[i - 1] && r[j] == rest[j - 1];
        }
      }
    }
  }

  /** A subsequence of a list with distinct urls has distinct urls. */
  lemma {:induction false} DistinctSubsequence(a: seq<RecentStory>, b: seq<RecentStory>)
    requires IsSubsequence(a, b) && DistinctUrls(b)
    ensures DistinctUrls(a)
    decreases |b|
  {
    if a != [] && b != [] {
      assert DistinctUrls(b[1..]) by {
        forall i, j | 0 <= i < j < |b| - 1 ensures b[1..][i].url != b[1..][j].url {
          assert b[1..][i] == b[i + 1] && b[1..][j] == b[j + 1];
        }
      }
      if a[0] == b[0] {
        DistinctSubsequence(a[1..], b[1..]);
        SubsequenceMembers(a[1..], b[1..]);
        forall i, j | 0 <= i < j < |a| ensures a[i].url != a[j].url {
          if i == 0 {
            assert a[j] == a[1..][j - 1];
            var m :| 0 <= m < |b| - 1 && b[1..][m] == a[j];
            assert b[m + 1] == a[j];
          } else {
            assert a[i] == a[1..][i - 1] && a[j] == a[1..][j - 1];
          }
        }
      } else {
        DistinctSubsequence(a, b[1..]);
      }
    }
  }

  /** Every entry of a subsequence is an entry of the list. */
  lemma {:induction false} SubsequenceMembers(a: seq<RecentStory>, b: seq<RecentStory>)
    requires IsSubsequence(a, b)
    ensures forall k | 0 <= k < |a| :: exists m | 0 <= m < |b| :: b[m] == a[k]
    decreases |b|
  {
    if a != [] && b != [] {
      if a[0] == b[0] {
        SubsequenceMembers(a[1..], b[1..]);
        forall k | 0 <= k < |a| ensures exists m | 0 <= m < |b| :: b[m] == a[k] {
          if k == 0 {
            assert b[0] == a[0];
          } else {
            assert a[k] == a[1..][k - 1];
            var m :| 0 <= m < |b| - 1 && b[1..][m] == a[k];
            assert b[m + 1] == a[k];
          }
        }
      } else {
        SubsequenceMembers(a, b[1..]);
        forall k | 0 <= k < |a| ensures exists m | 0 <= m < |b| :: b[m] == a[k] {
          var m :| 0 <= m < |b| - 1 && b[1..][m] == a[k];
          assert b[m + 1] == a[k];
        }
      }
    }
  }

  /** The recent list in local storage. */
  class RecentStore {
    var item: StoredItem

    constructor ()
      ensures item == NoItem
    {
      item := NoItem;
    }

    /** `getRecentStories`: the stored list, or nothing when there is no
        item or it does not parse. */
    function Recent(): (r: seq<RecentStory>)
      reads this
      ensures item.Saved? ==> r == item.list
      ensures !item.Saved? ==> r == []
    {
      if item.Saved? then item.list else []
    }

    /** `addRecentStory(url, title)`; `now` is the access time. The new list
        replaces whatever was stored, even an unparseable item. */
    method Add(url: string, title: string, now: string)
      modifies this
      ensures item == Saved(Added(old(Recent()), url, title, now))
      ensures |Recent()| <= MaxRecentStories
      ensures Recent()[0] == RecentStory(url, title, now)
      ensures forall k | 1 <= k < |Recent()| :: Recent()[k].url != url
      ensures old(DistinctUrls(Recent())) ==> DistinctUrls(Recent())
    {
      var recent := WithoutUrl(Recent(), url);
      recent := [RecentStory(url, title, now)] + recent;
      AddedProperties(Recent(), url, title, now);
      item := Saved(if |recent| <= MaxRecentStories then recent else recent[..MaxRecentStories]);
    }

    /** `clearRecentStories`. */
    method Clear()
      modifies this
      ensures item == NoItem && Recent() == []
    {
      item := NoItem;
    }
  }
}

/** The landing page's normalisation of what the user types into a story
    URL (`handleSubmit` in packages/viewer/src/components/LandingPage.tsx):
    a GitHub blob URL becomes its raw-content URL, an `owner/repo/id` or
    `owner/repo:id` shorthand becomes the story file in the repository's
    stories directory, and anything else is loaded as typed, trimmed. */
module Landing {
  import opened Wrappers
  import opened Text
  import ViewerApi

  /** `[a-f0-9-]` under the case-insensitive flag. */
  predicate IsIdChar(c: char)
  {
    IsHexDigit(c) || c == '-'
  }

  predicate NoSlash(s: string)
  {
    forall k | 0 <= k < |s| :: s[k] != '/'
  }

  predicate NoLineTerminator(s: string)
  {
    forall k | 0 <= k < |s| :: !IsLineTerminator(s[k])
  }

  predicate AllIdChars(s: string)
  {
    forall k | 0 <= k < |s| :: IsIdChar(s[k])
  }

  // ---------------------------------------------------------------------
  // /^https?:\/\/github\.com\/([^/]+\/[^/]+)\/blob\/(.+)$/
  // ---------------------------------------------------------------------

  const HttpsGitHub := "https://github.com/"
  const HttpGitHub := "http://github.com/"

  /** Where the owner starts, or -1 when the scheme and host do not match. */
  function HostEnd(t: string): (p: int)
    ensures p == -1 || p == |HttpsGitHub| || p == |HttpGitHub|
    ensures p == |HttpsGitHub| <==> StartsWith(t, HttpsGitHub)
    ensures p == |HttpGitHub| <==> !StartsWith(t, HttpsGitHub) && StartsWith(t, HttpGitHub)
  {
    if StartsWith(t, HttpsGitHub) then |HttpsGitHub|
    else if StartsWith(t, HttpGitHub) then |HttpGitHub|
    else -1
  }

  /** The two capture groups of the blob pattern matched against what
      follows the host, or `None`. The owner runs to the first `/` and the
      repository to the next one, as neither may contain `/`; `/blob/` must
      follow, then a non-empty rest that reaches the end of the input
      without a line terminator. */
  function BlobPath(u: string): (r: Option<(string, string)>)
    ensures r.Some? ==> r.value.1 != [] && NoLineTerminator(r.value.1)
    ensures r.Some? ==> u == r.value.0 + "/blob/" + r.value.1
  {
    var s1 := IndexOf(u, '/');
    if s1 <= 0 then None
    else
      var s2 := IndexFrom(u, '/', s1 + 1);
      if s2 <= s1 + 1 then None
      else if StartsWith(u[s2..], "/blob/") && |u| > s2 + 6 && NoLineTerminator(u[s2 + 6..]) then
        assert u[s2..s2 + 6] == u[s2..][..6];
        assert u == u[..s2] + u[s2..s2 + 6] + u[s2 + 6..];
        Some((u[..s2], u[s2 + 6..]))
      else None
  }

  /** The two capture groups of the blob pattern, or `None`. */
  function BlobMatch(t: string): (r: Option<(string, string)>)
    ensures r.Some? ==> HostEnd(t) >= 0 && t == t[..HostEnd(t)] + (r.value.0 + "/blob/" + r.value.1)
    ensures r.Some? ==> r.value.1 != [] && NoLineTerminator(r.value.1)
  {
    var p := HostEnd(t);
    if p < 0 then None
    else
      var u := t[p..];
      assert t == t[..p] + u;
      BlobPath(u)
  }

  /** A blob link, read declaratively. */
  predicate IsBlobLink(t: string, scheme: string, owner: string, repo: string, rest: string)
  {
    && (scheme == "https://" || scheme == "http://")
    && t == scheme + "github.com/" + owner + "/" + repo + "/blob/" + rest
    && owner != [] && NoSlash(owner)
    && repo != [] && NoSlash(repo)
    && rest != [] && NoLineTerminator(rest)
  }

  /** The scheme and host of a blob link end where its owner begins. */
  lemma BlobHost(t: string, scheme: string, tail: string)
    requires (scheme == "https://" || scheme == "http://") && t == scheme + "github.com/" + tail
    ensures HostEnd(t) == |scheme| + 11
    ensures t[|scheme| + 11..] == tail
  {
    var host := scheme + "github.com/";
    assert t == host + tail;
    assert t[..|host|] == host;
    if scheme == "http://" && |t| >= |HttpsGitHub| {
      assert t[..|HttpsGitHub|][4] == t[4] == ':';
    }
  }

  /** Every blob link is recognised, with its repository and path. */
  lemma BlobMatchComplete(t: string, scheme: string, owner: string, repo: string, rest: string)
    requires IsBlobLink(t, scheme, owner, repo, rest)
    ensures BlobMatch(t) == Some((owner + "/" + repo, rest))
  {
    var u := owner + "/" + repo + "/blob/" + rest;
    assert t == scheme + "github.com/" + u;
    BlobHost(t, scheme, u);
    BlobPathComplete(u, owner, repo, rest);
  }

  lemma BlobPathComplete(u: string, owner: string, repo: string, rest: string)
    requires u == owner + "/" + repo + "/blob/" + rest
    requires owner != [] && NoSlash(owner) && repo != [] && NoSlash(repo)
    requires rest != [] && NoLineTerminator(rest)
    ensures BlobPath(u) == Some((owner + "/" + repo, rest))
  {
    var s1 := |owner|;
    var s2 := s1 + 1 + |repo|;
    assert u[..s1] == owner && u[s1] == '/' && u[s1 + 1..s2] == repo;
    assert u[..s2] == owner + "/" + repo;
    assert u[s2..] == "/blob/" + rest;
    forall j | 0 <= j < s1 ensures u[j] != '/' {
      assert u[j] == u[..s1][j];
    }
    IndexFromUnique(u, '/', 0, s1);
    forall j | s1 + 1 <= j < s2 ensures u[j] != '/' {
      assert u[j] == u[s1 + 1..s2][j - s1 - 1];
    }
    IndexFromUnique(u, '/', s1 + 1, s2);
    assert u[s2 + 6..] == rest;
    BlobPathAt(u, s1, s2);
  }

  /** `BlobPath` once the two separators are known. */
  lemma BlobPathAt(u: string, s1: nat, s2: nat)
    requires 0 < s1 && s1 + 1 < s2 && s2 + 6 < |u|
    requires IndexOf(u, '/') == s1 && IndexFrom(u, '/', s1 + 1) == s2
    requires u[s2..] == "/blob/" + u[s2 + 6..] && NoLineTerminator(u[s2 + 6..])
    ensures BlobPath(u) == Some((u[..s2], u[s2 + 6..]))
  {
  }

  /** Whatever the blob matcher recognises is a blob link, and its two
      groups are that link's repository and path. */
  lemma BlobMatchSound(t: string) returns (scheme: string, owner: string, repo: string)
    requires BlobMatch(t).Some?
    ensures IsBlobLink(t, scheme, owner, repo, BlobMatch(t).value.1)
    ensures BlobMatch(t).value.0 == owner + "/" + repo
  {
    var p := HostEnd(t);
    scheme := if p == |HttpsGitHub| then "https://" else "http://";
    HostPrefix(t, scheme);
    var u := t[p..];
    assert BlobMatch(t) == BlobPath(u);
    var rest;
    owner, repo, rest := BlobPathSound(u);
    assert t == scheme + "github.com/" + (owner + "/" + repo + "/blob/" + rest);
    Reassociate(scheme, owner, repo, rest);
  }

  /** A matched host is the scheme followed by `github.com/`. */
  lemma HostPrefix(t: string, scheme: string)
    requires HostEnd(t) >= 0
    requires scheme == if HostEnd(t) == |HttpsGitHub| then "https://" else "http://"
    ensures |scheme + "github.com/"| == HostEnd(t)
    ensures t == scheme + "github.com/" + t[HostEnd(t)..]
  {
    var p := HostEnd(t);
    assert HttpsGitHub == "https://" + "github.com/" && HttpGitHub == "http://" + "github.com/";
    assert t[..p] == scheme + "github.com/";
    assert t == t[..p] + t[p..];
  }

  lemma Reassociate(scheme: string, owner: string, repo: string, rest: string)
    ensures scheme + "github.com/" + (owner + "/" + repo + "/blob/" + rest)
         == scheme + "github.com/" + owner + "/" + repo + "/blob/" + rest
  {
  }

  /** The blob path recognised after the host splits into an owner, a
      repository and a path, as the pattern reads it. */
  lemma BlobPathSound(u: string) returns (owner: string, repo: string, rest: string)
    requires BlobPath(u).Some?
    ensures u == owner + "/" + repo + "/blob/" + rest
    ensures owner != [] && NoSlash(owner) && repo != [] && NoSlash(repo)
    ensures rest != [] && NoLineTerminator(rest)
    ensures BlobPath(u) == Some((owner + "/" + repo, rest))
  {
    var s1 := IndexOf(u, '/');
    var s2 := IndexFrom(u, '/', s1 + 1);
    assert 0 < s1 && s1 + 1 < s2 && s2 + 6 < |u|;
    assert u[s2..][..6] == "/blob/" && NoLineTerminator(u[s2 + 6..]);
    owner, repo, rest := u[..s1], u[s1 + 1..s2], u[s2 + 6..];
    forall k | 0 <= k < s1 ensures owner[k] != '/' {
      assert owner[k] == u[..s1][k];
    }
    forall k | 0 <= k < |repo| ensures repo[k] != '/' {
      assert repo[k] == u[s1 + 1 + k];
    }
    PiecesOf(u, s1, s2);
    assert BlobPath(u) == Some((u[..s2], rest));
  }

  /** `u` cut at its first two separators and after `/blob/`. */
  lemma PiecesOf(u: string, s1: nat, s2: nat)
    requires s1 < s2 && s2 + 6 <= |u| && u[s1] == '/' && u[s2..][..6] == "/blob/"
    ensures u == u[..s1] + "/" + u[s1 + 1..s2] + "/blob/" + u[s2 + 6..]
    ensures u[..s2] == u[..s1] + "/" + u[s1 + 1..s2]
  {
    assert u[s2..s2 + 6] == u[s2..][..6];
    assert u[..s2] == u[..s1] + [u[s1]] + u[s1 + 1..s2];
    assert u == u[..s2] + u[s2..s2 + 6] + u[s2 + 6..];
  }

  // ---------------------------------------------------------------------
  // /^([^\/]+\/[^\/]+)[\/:]([a-f0-9-]+)$/i
  // ---------------------------------------------------------------------

  function Max(a: int, b: int): int
  {
    if a >= b then a else b
  }

  /** The two capture groups of the shorthand pattern, or `None`. The id
      cannot hold `/` or `:`, so the separator is the last `/` or `:` of the
      input; before it there must be exactly one `/`, with text on both
      sides. */
  function ShorthandMatch(t: string): (r: Option<(string, string)>)
    ensures r.Some? ==> |r.value.0| < |t| && t == r.value.0 + [t[|r.value.0|]] + r.value.1
    ensures r.Some? ==> t[|r.value.0|] == '/' || t[|r.value.0|] == ':'
    ensures r.Some? ==> '/' in r.value.0 && r.value.1 != [] && AllIdChars(r.value.1)
  {
    var s1 := IndexOf(t, '/');
    if s1 <= 0 then None
    else
      var sep := Max(LastIndexOf(t, '/'), LastIndexOf(t, ':'));
      if sep <= s1 + 1 then None
      else
        var next := IndexFrom(t, '/', s1 + 1);
        if (next == -1 || next == sep) && |t| > sep + 1 && AllIdChars(t[sep + 1..]) then
          assert t[..sep][s1] == '/';
          assert t == t[..sep] + [t[sep]] + t[sep + 1..];
          Some((t[..sep], t[sep + 1..]))
        else None
  }

  /** A shorthand, read declaratively. */
  predicate IsShorthand(t: string, owner: string, repo: string, sep: char, id: string)
  {
    && t == owner + "/" + repo + [sep] + id
    && owner != [] && NoSlash(owner)
    && repo != [] && NoSlash(repo)
    && (sep == '/' || sep == ':')
    && id != [] && AllIdChars(id)
  }

  /** Every shorthand is recognised, with its repository and story id. */
  lemma ShorthandMatchComplete(t: string, owner: string, repo: string, sep: char, id: string)
    requires IsShorthand(t, owner, repo, sep, id)
    ensures ShorthandMatch(t) == Some((owner + "/" + repo, id))
  {
    var s1 := |owner|;
    var q := s1 + 1 + |repo|;
    assert t[..s1] == owner && t[s1] == '/' && t[s1 + 1..q] == repo && t[q] == sep;
    assert t[..q] == owner + "/" + repo;
    assert t[q + 1..] == id;
    forall j | 0 <= j < s1 ensures t[j] != '/' {
      assert t[j] == t[..s1][j];
    }
    IndexFromUnique(t, '/', 0, s1);
    forall j | s1 < j < q ensures t[j] != '/' {
      assert t[j] == t[s1 + 1..q][j - s1 - 1];
    }
    forall j | q < j < |t| ensures t[j] != '/' && t[j] != ':' {
      assert t[j] == t[q + 1..][j - q - 1];
    }
    if sep == '/' {
      LastIndexOfUnique(t, '/', q);
      assert LastIndexOf(t, ':') < q;
      IndexFromUnique(t, '/', s1 + 1, q);
    } else {
      LastIndexOfUnique(t, ':', q);
      LastIndexOfUnique(t, '/', s1);
      IndexFromUnique(t, '/', s1 + 1, -1);
    }
    ShorthandAt(t, s1, q);
  }

  /** `ShorthandMatch` once the first `/` and the separator are known. */
  lemma ShorthandAt(t: string, s1: nat, q: nat)
    requires 0 < s1 && s1 + 1 < q && q + 1 < |t|
    requires IndexOf(t, '/') == s1 && Max(LastIndexOf(t, '/'), LastIndexOf(t, ':')) == q
    requires IndexFrom(t, '/', s1 + 1) == -1 || IndexFrom(t, '/', s1 + 1) == q
    requires AllIdChars(t[q + 1..])
    ensures ShorthandMatch(t) == Some((t[..q], t[q + 1..]))
  {
  }

  /** Whatever the shorthand matcher recognises is a shorthand, and its two
      groups are that shorthand's repository and story id. */
  lemma ShorthandMatchSound(t: string)
    requires ShorthandMatch(t).Some?
    ensures exists owner, repo, sep, id ::
      IsShorthand(t, owner, repo, sep, id) && ShorthandMatch(t) == Some((owner + "/" + repo, id))
  {
    var s1 := IndexOf(t, '/');
    var q := Max(LastIndexOf(t, '/'), LastIndexOf(t, ':'));
    var owner, repo, sep, id := t[..s1], t[s1 + 1..q], t[q], t[q + 1..];
    forall k | 0 <= k < s1 ensures owner[k] != '/' {
      assert owner[k] == t[..s1][k];
    }
    forall k | 0 <= k < |repo| ensures repo[k] != '/' {
      assert repo[k] == t[s1 + 1 + k];
    }
    assert ShorthandMatch(t) == Some((t[..q], id));
    assert t[..q] == owner + "/" + repo by {
      assert t[..q] == t[..s1] + [t[s1]] + t[s1 + 1..q];
    }
    assert t == t[..q] + [t[q]] + id;
    assert IsShorthand(t, owner, repo, sep, id);
  }

  // ---------------------------------------------------------------------
  // handleSubmit
  // ---------------------------------------------------------------------

  const RawBase := "https://raw.githubusercontent.com/"

  /** The URL a non-blank trimmed input `t` is loaded from: the blob rule
      first, the shorthand only when it fails, otherwise `t` itself. */
  function Resolve(t: string): (url: string)
    ensures BlobMatch(t).Some? ==> url == RawBase + BlobMatch(t).value.0 + "/" + BlobMatch(t).value.1
    ensures BlobMatch(t).None? && ShorthandMatch(t).Some? ==>
      url == ViewerApi.StoriesDirUrl(ShorthandMatch(t).value.0) + ShorthandMatch(t).value.1 + ".json"
    ensures BlobMatch(t).None? && ShorthandMatch(t).None? ==> url == t
  {
    match BlobMatch(t)
    case Some((path, rest)) => RawBase + path + "/" + rest
    case None =>
      match ShorthandMatch(t)
      case Some((repo, storyId)) => ViewerApi.StoriesDirUrl(repo) + storyId + ".json"
      case None => t
  }

  /** Any other input is loaded as it is: a trimmed input that is neither a
      blob link nor a shorthand resolves to itself. */
  lemma PassThrough(t: string)
    requires forall scheme, owner, repo, rest :: !IsBlobLink(t, scheme, owner, repo, rest)
    requires forall owner, repo, sep, id :: !IsShorthand(t, owner, repo, sep, id)
    ensures Resolve(t) == t
  {
    if BlobMatch(t).Some? {
      var scheme, owner, repo := BlobMatchSound(t);
      assert false;
    }
    if ShorthandMatch(t).Some? {
      ShorthandMatchSound(t);
      assert false;
    }
  }

  /** `handleSubmit`: the URL passed to `onLoadStory`, or `None` when the
      input is blank and nothing is loaded. Every other submit loads exactly
      once, from the resolution of the trimmed input. */
  function Normalize(input: string): (r: Option<string>)
    ensures r.None? <==> forall k | 0 <= k < |input| :: IsSpace(input[k])
    ensures r.Some? ==> r.value == Resolve(Trim(input))
  {
    var trimmed := Trim(input);
    if trimmed == "" then None else Some(Resolve(trimmed))
  }

  /** A blob link opens the raw file at the same path. */
  lemma BlobLinkOpensRaw(t: string, scheme: string, owner: string, repo: string, rest: string)
    requires IsBlobLink(t, scheme, owner, repo, rest)
    ensures Resolve(t) == RawBase + (owner + "/" + repo) + "/" + rest
  {
    BlobMatchComplete(t, scheme, owner, repo, rest);
    var m := BlobMatch(t);
    assert m.value.0 == owner + "/" + repo && m.value.1 == rest;
  }

  /** A shorthand opens the same story file as the page parameters
      `?repo=<owner>/<repo>&story=<id>` do. */
  lemma ShorthandMatchesParams(t: string, owner: string, repo: string, sep: char, id: string)
    requires IsShorthand(t, owner, repo, sep, id)
    ensures Some(Resolve(t)) == ViewerApi.StoryUrl(map["repo" := owner + "/" + repo, "story" := id])
  {
    ShorthandMatchComplete(t, owner, repo, sep, id);
    ShorthandIsNoBlob(t, owner, repo, sep, id);
  }

  /** A shorthand is never a blob link: a blob link holds three `/` among
      its first nineteen characters, a shorthand only two in all. */
  lemma ShorthandIsNoBlob(t: string, owner: string, repo: string, sep: char, id: string)
    requires IsShorthand(t, owner, repo, sep, id)
    ensures BlobMatch(t).None?
  {
    var o := |owner|;
    var q := o + 1 + |repo|;
    forall j | 0 <= j < o ensures t[j] != '/' {
      assert t[j] == owner[j];
    }
    forall j | o < j < q ensures t[j] != '/' {
      assert t[j] == repo[j - o - 1];
    }
    forall j | q < j < |t| ensures t[j] != '/' {
      assert t[j] == id[j - q - 1];
    }
    assert forall j | 0 <= j < |t| && t[j] == '/' :: j == o || j == q;
    if |t| >= |HttpsGitHub| {
      var k := if t[6] != '/' then 6 else if t[7] != '/' then 7 else 18;
      assert t[..|HttpsGitHub|][k] == t[k] != HttpsGitHub[k];
    }
    if |t| >= |HttpGitHub| {
      var k := if t[5] != '/' then 5 else if t[6] != '/' then 6 else 17;
      assert t[..|HttpGitHub|][k] == t[k] != HttpGitHub[k];
    }
    assert HostEnd(t) == -1;
  }
}

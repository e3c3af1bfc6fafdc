/** The command-line generator's view of a running generation
    (packages/cli/index.js): the stage registry, the progress prober that
    reads the agent's checkpoint files back, the progress display refreshed
    by the polling timer, and the parser of `--repo` arguments. */
module CliStages {
  import opened Wrappers
  import opened Text

  /** One entry of the stage registry: the file the agent writes, the token
      it appends when the stage is done (none for the final artifact), and
      the label shown to the user. */
  datatype Stage = Stage(file: string, checkpoint: Option<string>, labelText: string)

  /** The working directory of a generation, as the prober sees it: file
      name to contents. A directory that does not exist has no files. */
  type WorkDir = map<string, string>

  const ExplorationNotes := "exploration_notes.md"
  const NarrativeOutline := "narrative_outline.md"
  const SnippetsMapping := "snippets_mapping.md"
  const StoryFile := "story.json"

  /** The registry, in order. Stages 2 and 3 share the outline file and are
      told apart by their tokens. */
  const Stages: seq<Stage> := [
    Stage(ExplorationNotes, Some("STAGE_1_COMPLETE"), "Exploring codebase"),
    Stage(NarrativeOutline, Some("STAGE_2_COMPLETE"), "Creating narrative outline"),
    Stage(NarrativeOutline, Some("STAGE_3_COMPLETE"), "Reviewing flow"),
    Stage(SnippetsMapping, Some("STAGE_4_COMPLETE"), "Identifying code snippets"),
    Stage(StoryFile, None, "Crafting explanations")
  ]

  /** Stage `i` counts as reached: its file exists and, when the stage has a
      checkpoint, the file's contents contain the token. */
  predicate Satisfied(dir: WorkDir, i: nat)
    requires i < |Stages|
  {
    var st := Stages[i];
    st.file in dir && (st.checkpoint.Some? ==> Contains(dir[st.file], st.checkpoint.value))
  }

  /** The prefix scan from stage `i` on, given that every stage before `i`
      is reached. */
  function ProbeFrom(dir: WorkDir, i: nat): (r: nat)
    requires i <= |Stages|
    requires forall k | 0 <= k < i :: Satisfied(dir, k)
    ensures i <= r <= |Stages|
    ensures forall k | 0 <= k < r :: Satisfied(dir, k)
    ensures r < |Stages| ==> !Satisfied(dir, r)
    decreases |Stages| - i
  {
    if i < |Stages| && Satisfied(dir, i) then ProbeFrom(dir, i + 1) else i
  }

  /** The stage the prober reports: the number of leading registry entries
      that are reached. A result of r means stages 0..r-1 are reached and,
      when r < 5, stage r is not. */
  function StageOf(dir: WorkDir): (r: nat)
    ensures r <= |Stages|
    ensures forall k | 0 <= k < r :: Satisfied(dir, k)
    ensures r < |Stages| ==> !Satisfied(dir, r)
  {
    ProbeFrom(dir, 0)
  }

  /** `getCurrentStage`: the loop over the registry that stops at the first
      missing file or missing token. */
  method GetCurrentStage(dir: WorkDir) returns (stage: nat)
    ensures stage <= |Stages|
    ensures forall k | 0 <= k < stage :: Satisfied(dir, k)
    ensures stage < |Stages| ==> !Satisfied(dir, stage)
    ensures stage == StageOf(dir)
  {
    stage := 0;
    var i := 0;
    while i < |Stages|
      invariant 0 <= i <= |Stages|
      invariant stage == i
      invariant forall k | 0 <= k < i :: Satisfied(dir, k)
    {
      var st := Stages[i];
      if st.file !in dir {
        break;
      }
      if st.checkpoint.Some? {
        var content := dir[st.file];
        if !Contains(content, st.checkpoint.value) {
          break;
        }
      }
      stage := i + 1;
      i := i + 1;
    }
  }

  /** The characterisation determines the reported stage: any r with the
      prefix property is the stage the prober reports. */
  lemma StageOfUnique(dir: WorkDir, r: nat)
    requires r <= |Stages|
    requires forall k | 0 <= k < r :: Satisfied(dir, k)
    requires r < |Stages| ==> !Satisfied(dir, r)
    ensures StageOf(dir) == r
  {
    var s := StageOf(dir);
  }

  /** An agent that skips ahead is not reported past its earliest gap: when
      the file of stage k is missing, the stage is at most k, whatever files
      of later stages exist. */
  lemma MissingFileBounds(dir: WorkDir, k: nat)
    requires k < |Stages| && Stages[k].file !in dir
    ensures StageOf(dir) <= k
  {
  }

  /** A checkpoint token is necessary and sufficient: once the earlier
      stages are reached and the file of stage k (< 4) exists, the prober
      passes k exactly when the file contains k's token. */
  lemma CheckpointDecides(dir: WorkDir, k: nat)
    requires k < |Stages| - 1
    requires forall j | 0 <= j < k :: Satisfied(dir, j)
    requires Stages[k].file in dir
    ensures Stages[k].checkpoint.Some?
    ensures StageOf(dir) > k <==> Contains(dir[Stages[k].file], Stages[k].checkpoint.value)
  {
    var s := StageOf(dir);
  }

  /** The final artifact needs no token: with stages 1 to 4 reached, the
      prober reports 5 exactly when `story.json` exists, whatever it holds. */
  lemma StoryFileExistenceSuffices(dir: WorkDir)
    requires forall j | 0 <= j < 4 :: Satisfied(dir, j)
    ensures StageOf(dir) == 5 <==> StoryFile in dir
  {
    var s := StageOf(dir);
  }

  /** Stages 2 and 3 share one file, so reporting 3 or more requires the
      outline to contain both tokens. */
  lemma OutlineCarriesBothTokens(dir: WorkDir)
    requires StageOf(dir) >= 3
    ensures NarrativeOutline in dir
    ensures Contains(dir[NarrativeOutline], "STAGE_2_COMPLETE")
    ensures Contains(dir[NarrativeOutline], "STAGE_3_COMPLETE")
  {
    assert Satisfied(dir, 1) && Satisfied(dir, 2);
  }

  /** A substring stays a substring when text is appended. */
  lemma ContainsExtends(s: string, t: string, u: string)
    requires Contains(s, t)
    ensures Contains(s + u, t)
  {
    var i :| 0 <= i <= |s| - |t| && OccursAt(s, t, i);
    assert (s + u)[i..i + |t|] == s[i..i + |t|];
    assert OccursAt(s + u, t, i);
  }

  /** `later` is `earlier` after an agent that only creates files and
      appends to them. */
  ghost predicate GrowsFrom(earlier: WorkDir, later: WorkDir)
  {
    forall f | f in earlier :: f in later && StartsWith(later[f], earlier[f])
  }

  /** For a well-behaved agent the reported stage never goes backwards. */
  lemma {:induction false} ProbeMonotone(earlier: WorkDir, later: WorkDir)
    requires GrowsFrom(earlier, later)
    ensures StageOf(earlier) <= StageOf(later)
  {
    var a := StageOf(earlier);
    forall k | 0 <= k < a ensures Satisfied(later, k) {
      assert Satisfied(earlier, k);
      var st := Stages[k];
      var before := earlier[st.file];
      var after := later[st.file];
      if st.checkpoint.Some? {
        assert after == before + after[|before|..];
        ContainsExtends(before, st.checkpoint.value, after[|before|..]);
      }
    }
  }

  // ---------------------------------------------------------------------
  // Progress display refreshed by the polling timer

  /** `Math.round((stage / STAGES.length) * 100)`, written as floor(x + 1/2)
      on exact rationals. */
  function Percent(stage: nat): (p: nat)
    ensures p == stage * 100 / |Stages|
  {
    (2 * 100 * stage + |Stages|) / (2 * |Stages|)
  }

  /** The spinner of the generate command: the last stage shown, its label
      and its percentage. */
  class ProgressDisplay {
    var currentStage: nat
    var labelText: string
    var percent: nat

    /** What is shown is always a registry entry, and its percentage is
        within 0..80. */
    ghost predicate Valid()
      reads this
    {
      && currentStage < |Stages|
      && labelText == Stages[currentStage].labelText
      && percent == currentStage * 20
      && percent <= 80
    }

    constructor ()
      ensures Valid() && currentStage == 0 && labelText == "Exploring codebase" && percent == 0
    {
      currentStage := 0;
      labelText := Stages[0].labelText;
      percent := 0;
    }

    /** One tick of the interval: the display changes only when the probed
        stage differs from the one shown and is below 5. */
    method Poll(dir: WorkDir)
      requires Valid()
      modifies this
      ensures Valid()
      ensures var s := StageOf(dir);
              if s != old(currentStage) && s < |Stages|
              then currentStage == s
              else currentStage == old(currentStage) && labelText == old(labelText) && percent == old(percent)
    {
      var stage := GetCurrentStage(dir);
      if stage != currentStage && stage < |Stages| {
        currentStage := stage;
        percent := Percent(stage);
        labelText := Stages[stage].labelText;
      }
    }
  }

  // ---------------------------------------------------------------------
  // `parseGitHubRepo`: the first match of  github\.com[/:]([^/]+\/[^/.]+)

  /** First position at or after `from` holding `/` or `.`, or the length. */
  function NameEnd(s: string, from: nat): (e: nat)
    requires from <= |s|
    ensures from <= e <= |s|
    ensures e < |s| ==> s[e] == '/' || s[e] == '.'
    ensures forall k | from <= k < e :: s[k] != '/' && s[k] != '.'
    decreases |s| - from
  {
    if from == |s| || s[from] == '/' || s[from] == '.' then from else NameEnd(s, from + 1)
  }

  /** The capture of the pattern when its match starts at position `i`.
      `[^/]+` must be followed by `/`, so the owner runs to the first `/`;
      `[^/.]+` is greedy and ends the pattern, so the name is the longest
      run free of `/` and `.`. */
  function MatchAt(s: string, i: nat): Option<string>
  {
    if i + 11 <= |s| && s[i..i + 10] == "github.com" && (s[i + 10] == '/' || s[i + 10] == ':') then
      var o := i + 11;
      var slash := IndexFrom(s, '/', o);
      if slash <= o then None
      else
        var e := NameEnd(s, slash + 1);
        if e == slash + 1 then None else Some(s[o..e])
    else None
  }

  /** The leftmost match at or after position `i`. */
  function FirstMatch(s: string, i: nat): Option<string>
    decreases |s| + 1 - i
  {
    if i > |s| then None
    else if MatchAt(s, i).Some? then MatchAt(s, i)
    else FirstMatch(s, i + 1)
  }

  /** Where the leftmost match at or after `i` starts. */
  function MatchIndex(s: string, i: nat): (k: nat)
    requires FirstMatch(s, i).Some?
    ensures i <= k && MatchAt(s, k) == FirstMatch(s, i)
    decreases |s| + 1 - i
  {
    if MatchAt(s, i).Some? then i else MatchIndex(s, i + 1)
  }

  /** `parseGitHubRepo`: the captured `owner/name` of the first match, or the
      input unchanged. Whatever else it returns is the `owner/name` of some
      match, so an input holding no match comes back as it is. */
  function ParseGitHubRepo(repo: string): (r: string)
    ensures r == repo || exists i: nat, owner, name :: IsRepoMatch(repo, i, owner, name) && r == owner + "/" + name
  {
    match FirstMatch(repo, 0)
    case Some(id) =>
      MatchAtSound(repo, MatchIndex(repo, 0));
      id
    case None => repo
  }

  predicate NoSlash(s: string) { forall k | 0 <= k < |s| :: s[k] != '/' }
  predicate NoSlashOrDot(s: string) { forall k | 0 <= k < |s| :: s[k] != '/' && s[k] != '.' }

  /** Declarative reading of the pattern: at position i the text reads
      `github.com`, then `/` or `:`, then owner `/` name, where the owner is
      non-empty and free of `/`, the name is non-empty, free of `/` and `.`,
      and is followed by the end, a `/` or a `.`. */
  predicate IsRepoMatch(s: string, i: nat, owner: string, name: string)
  {
    var o := i + 11;
    var e := o + |owner| + 1 + |name|;
    && e <= |s|
    && s[i..i + 10] == "github.com"
    && (s[i + 10] == '/' || s[i + 10] == ':')
    && s[o..o + |owner|] == owner
    && s[o + |owner|] == '/'
    && s[o + |owner| + 1..e] == name
    && owner != [] && NoSlash(owner)
    && name != [] && NoSlashOrDot(name)
    && (e == |s| || s[e] == '/' || s[e] == '.')
  }

  /** What the matcher finds is a match in the declarative sense. */
  lemma MatchAtSound(s: string, i: nat)
    requires MatchAt(s, i).Some?
    ensures exists owner, name :: IsRepoMatch(s, i, owner, name) && MatchAt(s, i).value == owner + "/" + name
  {
    var o := i + 11;
    var slash := IndexFrom(s, '/', o);
    var e := NameEnd(s, slash + 1);
    var owner := s[o..slash];
    var name := s[slash + 1..e];
    assert s[o..e] == owner + "/" + name;
    assert s[o..o + |owner|] == owner && s[o + |owner|] == '/' && s[o + |owner| + 1..e] == name;
    forall k | 0 <= k < |owner| ensures owner[k] != '/' {
      assert owner[k] == s[o + k];
    }
    forall k | 0 <= k < |name| ensures name[k] != '/' && name[k] != '.' {
      assert name[k] == s[slash + 1 + k];
    }
    assert IsRepoMatch(s, i, owner, name);
  }

  /** Every declarative match is found by the matcher. */
  lemma MatchAtComplete(s: string, i: nat, owner: string, name: string)
    requires IsRepoMatch(s, i, owner, name)
    ensures MatchAt(s, i) == Some(owner + "/" + name)
  {
    var o := i + 11;
    var slash := o + |owner|;
    forall k | o <= k < slash ensures s[k] != '/' {
      assert s[k] == owner[k - o];
    }
    assert IndexFrom(s, '/', o) == slash;
    var e := slash + 1 + |name|;
    forall k | slash + 1 <= k < e ensures s[k] != '/' && s[k] != '.' {
      assert s[k] == name[k - slash - 1];
    }
    NameEndUnique(s, slash + 1, e);
    assert s[o..e] == owner + "/" + name;
  }

  lemma {:induction false} NameEndUnique(s: string, from: nat, e: nat)
    requires from <= e <= |s|
    requires forall k | from <= k < e :: s[k] != '/' && s[k] != '.'
    requires e == |s| || s[e] == '/' || s[e] == '.'
    ensures NameEnd(s, from) == e
    decreases |s| - from
  {
    if from < e {
      NameEndUnique(s, from + 1, e);
    }
  }

  /** The leftmost declarative match decides the result. */
  lemma {:induction false} ParseRepoLeftmost(s: string, i: nat, owner: string, name: string)
    requires IsRepoMatch(s, i, owner, name)
    requires forall j | 0 <= j < i :: MatchAt(s, j).None?
    ensures ParseGitHubRepo(s) == owner + "/" + name
  {
    MatchAtComplete(s, i, owner, name);
    FirstMatchSkips(s, 0, i);
  }

  lemma {:induction false} FirstMatchSkips(s: string, j: nat, i: nat)
    requires j <= i <= |s| && MatchAt(s, i).Some?
    requires forall k | j <= k < i :: MatchAt(s, k).None?
    ensures FirstMatch(s, j) == MatchAt(s, i)
    decreases i - j
  {
    if j < i {
      FirstMatchSkips(s, j + 1, i);
    }
  }

  /** Without any match the input comes back unchanged (a bare `owner/name`). */
  lemma ParseRepoIdentity(s: string)
    requires forall i: nat, owner, name :: !IsRepoMatch(s, i, owner, name)
    ensures ParseGitHubRepo(s) == s
  {
    FirstMatchNone(s, 0);
  }

  lemma {:induction false} FirstMatchNone(s: string, j: nat)
    requires forall i: nat, owner, name :: !IsRepoMatch(s, i, owner, name)
    ensures FirstMatch(s, j) == None
    decreases |s| + 1 - j
  {
    if j <= |s| {
      if MatchAt(s, j).Some? {
        MatchAtSound(s, j);
      }
      FirstMatchNone(s, j + 1);
    }
  }

  /** A full HTTPS URL such as `https://github.com/owner/name.git` gives
      `owner/name`: the name is cut at the first `.` or `/`. */
  lemma ParseRepoHttpsUrl(owner: string, name: string, rest: string)
    requires owner != [] && NoSlash(owner)
    requires name != [] && NoSlashOrDot(name)
    requires rest == [] || rest[0] == '/' || rest[0] == '.'
    ensures ParseGitHubRepo("https://github.com/" + owner + "/" + name + rest) == owner + "/" + name
  {
    var prefix := "https://github.com/";
    var s := prefix + owner + "/" + name + rest;
    var o := 19;
    assert s[..19] == prefix;
    assert s[8..18] == prefix[8..18];
    assert s[18] == prefix[18] == '/';
    assert s[o..o + |owner|] == owner;
    assert s[o + |owner|] == '/';
    assert s[o + |owner| + 1..o + |owner| + 1 + |name|] == name;
    assert rest != [] ==> s[o + |owner| + 1 + |name|] == rest[0];
    assert IsRepoMatch(s, 8, owner, name);
    forall j | 0 <= j < 8 ensures MatchAt(s, j).None? {
      assert s[j] == s[..19][j] != 'g';
      assert s[j..j + 10][0] == s[j];
    }
    ParseRepoLeftmost(s, 8, owner, name);
  }
}

/** The server's progress endpoint (`GET /api/generate/:generationId/progress`
    in server/index.js): a status record per checked file, then a stage set by
    a chain of `if`s in which the last rule that fires wins. Unlike the
    command-line prober it does not scan a prefix of the registry. */
module ServerProgress {
  import opened Wrappers
  import opened Text
  import opened CliStages

  /** `{exists, hasCheckpoint}` for one file. */
  datatype FileStatus = FileStatus(present: bool, hasCheckpoint: bool)

  /** The endpoint's answer. */
  datatype Progress = Progress(stage: nat, files: map<string, FileStatus>)

  /** `checkFile`: an absent file has neither flag; a present one has its
      checkpoint when it has none to look for or its contents contain it. */
  function CheckFile(dir: WorkDir, file: string, checkpoint: Option<string>): (st: FileStatus)
    ensures st.hasCheckpoint ==> st.present
    ensures st.present <==> file in dir
    ensures st.hasCheckpoint <==> file in dir && (checkpoint.None? || Contains(dir[file], checkpoint.value))
  {
    if file in dir then
      FileStatus(true, if checkpoint.Some? then Contains(dir[file], checkpoint.value) else true)
    else
      FileStatus(false, false)
  }

  /** The stage read from the bottom of the chain up: the first rule, from
      the last one written, whose condition holds decides. */
  function ServerStage(dir: WorkDir): (s: nat)
    ensures s <= 5
  {
    if StoryFile in dir then 5
    else if SnippetsMapping in dir && Contains(dir[SnippetsMapping], "STAGE_4_COMPLETE") then 4
    else if NarrativeOutline in dir && Contains(dir[NarrativeOutline], "STAGE_3_COMPLETE") then 3
    else if NarrativeOutline in dir then 2
    else if ExplorationNotes in dir && Contains(dir[ExplorationNotes], "STAGE_1_COMPLETE") then 1
    else 0
  }

  /** The handler. `dir` is `None` when the generation's working directory
      does not exist. */
  method GetProgress(dir: Option<WorkDir>) returns (p: Progress)
    ensures dir.None? ==> p == Progress(0, map[])
    ensures dir.Some? ==> p.stage == ServerStage(dir.value)
    ensures p.stage <= 5
    ensures dir.Some? ==> p.files.Keys == {ExplorationNotes, NarrativeOutline, SnippetsMapping, StoryFile}
    ensures dir.Some? ==>
      && p.files[ExplorationNotes] == CheckFile(dir.value, ExplorationNotes, Some("STAGE_1_COMPLETE"))
      && p.files[NarrativeOutline] == CheckFile(dir.value, NarrativeOutline, Some("STAGE_3_COMPLETE"))
      && p.files[SnippetsMapping] == CheckFile(dir.value, SnippetsMapping, Some("STAGE_4_COMPLETE"))
      && p.files[StoryFile] == CheckFile(dir.value, StoryFile, None)
    ensures forall f | f in p.files :: p.files[f].hasCheckpoint ==> p.files[f].present
  {
    if dir.None? {
      return Progress(0, map[]);
    }
    var d := dir.value;
    var files: map<string, FileStatus> := map[];
    files := files[ExplorationNotes := CheckFile(d, ExplorationNotes, Some("STAGE_1_COMPLETE"))];
    files := files[NarrativeOutline := CheckFile(d, NarrativeOutline, Some("STAGE_3_COMPLETE"))];
    files := files[SnippetsMapping := CheckFile(d, SnippetsMapping, Some("STAGE_4_COMPLETE"))];
    files := files[StoryFile := CheckFile(d, StoryFile, None)];

    var stage := 0;
    if files[ExplorationNotes].hasCheckpoint {
      stage := 1;
    }
    if files[NarrativeOutline].present && !files[NarrativeOutline].hasCheckpoint {
      stage := 2;
    }
    if files[NarrativeOutline].hasCheckpoint {
      stage := 3;
    }
    if files[SnippetsMapping].hasCheckpoint {
      stage := 4;
    }
    if files[StoryFile].present {
      stage := 5;
    }
    p := Progress(stage, files);
  }

  /** Whenever the story file exists the answer is 5, whatever the other
      files hold. */
  lemma StoryOverrides(dir: WorkDir)
    requires StoryFile in dir
    ensures ServerStage(dir) == 5
  {
  }

  /** An outline without the review token gives 2, even when the exploration
      notes lack their token, unless a later rule fires. */
  lemma OutlineWithoutReviewToken(dir: WorkDir)
    requires NarrativeOutline in dir && !Contains(dir[NarrativeOutline], "STAGE_3_COMPLETE")
    requires StoryFile !in dir
    requires SnippetsMapping !in dir || !Contains(dir[SnippetsMapping], "STAGE_4_COMPLETE")
    ensures ServerStage(dir) == 2
  {
  }

  /** The server never reports less than the command-line prober does. */
  lemma ServerDominatesCli(dir: WorkDir)
    ensures ServerStage(dir) >= StageOf(dir)
  {
    var r := StageOf(dir);
    if r >= 1 {
      assert Satisfied(dir, r - 1);
    }
  }

  /** The two rules part ways: a directory holding only the story is
      finished for the server and not begun for the command-line prober. */
  lemma RulesDisagree()
    ensures ServerStage(map[StoryFile := "{}"]) == 5
    ensures StageOf(map[StoryFile := "{}"]) == 0
  {
    MissingFileBounds(map[StoryFile := "{}"], 0);
  }
}

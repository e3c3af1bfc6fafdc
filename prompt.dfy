/** The prompt builder (packages/cli/prompt.js), reduced to its mechanism:
    the query line, the schema block, the fixed-value lines and the table of
    checkpoint directives (write this file under the working directory and
    end it with this token). The guidance prose around them is not modelled.
    The builder is a function of its five arguments only; in particular the
    `createdAt` line is a constant instruction, not a timestamp. */
module Prompt {
  import opened Wrappers
  import opened Text
  import opened CliStages
  import ServerProgress

  /** The schema block, inserted into the prompt unchanged. */
  const JsonSchema: string := @"{
  ""id"": ""string (UUID)"",
  ""title"": ""string"",
  ""query"": ""string"",
  ""repo"": ""string or null (GitHub user/repo if from remote)"",
  ""commitHash"": ""string"",
  ""createdAt"": ""string (ISO 8601)"",
  ""chapters"": [
    {
      ""id"": ""string (e.g., chapter-0)"",
      ""label"": ""string (2-4 words for sidebar)"",
      ""snippets"": [
        {
          ""filePath"": ""string (relative path)"",
          ""startLine"": ""number (1-indexed)"",
          ""endLine"": ""number (1-indexed)"",
          ""content"": ""string (actual code)""
        }
      ],
      ""explanation"": ""string (markdown)""
    }
  ]
}"

  /** A checkpoint instruction: write `file` in the working directory and end
      it with the line `token`. */
  datatype Directive = Directive(file: string, token: string)

  /** The checkpoint directives, in the order the prompt gives them. */
  const Directives: seq<Directive> := [
    Directive("exploration_scan.md", "EXPLORATION_SCANNED"),
    Directive("exploration_read.md", "EXPLORATION_READ"),
    Directive(ExplorationNotes, "STAGE_1_COMPLETE"),
    Directive(NarrativeOutline, "STAGE_2_COMPLETE"),
    Directive("narrative_outline_reviewed.md", "STAGE_3_COMPLETE"),
    Directive(SnippetsMapping, "STAGE_4_COMPLETE"),
    Directive("explanations_draft.md", "STAGE_5_COMPLETE")
  ]

  /** A rendered checkpoint directive: a full path and a token. */
  datatype Checkpoint = Checkpoint(path: string, token: string)

  /** The mechanism-bearing parts of a rendered prompt. */
  datatype Rendered = Rendered(
    queryLine: string,
    schema: string,
    fixedValues: seq<string>,
    checkpoints: seq<Checkpoint>,
    outputPath: string)

  function Quote(s: string): (q: string)
    ensures |q| == |s| + 2 && q[0] == '"' && q[|q| - 1] == '"' && q[1..|q| - 1] == s
  {
    "\"" + s + "\""
  }

  /** A file of the working directory, as the prompt names it. */
  function PathIn(generationDir: string, file: string): string
  {
    generationDir + "/" + file
  }

  const QueryPrefix := "The user's query is: "

  /** The value on the repo line: the quoted id when `repoId` is truthy (a
      non-empty string), the bare word `null` otherwise. A quoted value can
      never be mistaken for `null`, not even for the repository id "null". */
  function RepoValue(repoId: Option<string>): (v: string)
    ensures v == "null" <==> repoId.None? || repoId.value == ""
    ensures v != "null" ==> |v| >= 2 && v[0] == '"' && v[|v| - 1] == '"' && v[1..|v| - 1] == repoId.value
  {
    if repoId.Some? && repoId.value != "" then Quote(repoId.value) else "null"
  }

  /** `buildPrompt(query, generationDir, commitHash, generationId, repoId)`.
      Every argument is embedded verbatim: the query and the ids between
      double quotes and without escaping. Each directive becomes a path under
      the working directory with its token, and the final artifact goes to
      `story.json` there. */
  function BuildPrompt(query: string, generationDir: string, commitHash: string,
                       generationId: string, repoId: Option<string>): (p: Rendered)
    ensures p.schema == JsonSchema
    ensures StartsWith(p.queryLine, QueryPrefix)
    ensures p.queryLine[|QueryPrefix|..] == Quote(query)
    ensures p.fixedValues == [
      "- id: " + Quote(generationId),
      "- commitHash: " + Quote(commitHash),
      "- repo: " + RepoValue(repoId),
      "- createdAt: current ISO 8601 timestamp",
      "- query: " + Quote(query)]
    ensures |p.checkpoints| == |Directives|
    ensures forall i | 0 <= i < |Directives| ::
      p.checkpoints[i] == Checkpoint(PathIn(generationDir, Directives[i].file), Directives[i].token)
    ensures p.outputPath == PathIn(generationDir, StoryFile)
  {
    Rendered(
      QueryPrefix + Quote(query),
      JsonSchema,
      ["- id: " + Quote(generationId),
       "- commitHash: " + Quote(commitHash),
       "- repo: " + RepoValue(repoId),
       "- createdAt: current ISO 8601 timestamp",
       "- query: " + Quote(query)],
      seq(|Directives|, i requires 0 <= i < |Directives| =>
        Checkpoint(PathIn(generationDir, Directives[i].file), Directives[i].token)),
      PathIn(generationDir, StoryFile))
  }

  /** The query is quoted without escaping, so a `"` inside it closes the
      quoted value early for anyone reading the line: the first `"` after
      the opening one lies inside the query, and what it encloses is a
      proper prefix of the query. */
  lemma QuoteInQueryEndsValueEarly(query: string, generationDir: string, commitHash: string,
                                   generationId: string, repoId: Option<string>)
    requires '"' in query
    ensures var line := BuildPrompt(query, generationDir, commitHash, generationId, repoId).queryLine;
      var close := IndexFrom(line, '"', |QueryPrefix| + 1);
      && |QueryPrefix| + 1 <= close < |line| - 1
      && line[|QueryPrefix| + 1..close] == query[..close - |QueryPrefix| - 1]
      && close - |QueryPrefix| - 1 < |query|
  {
    FirstQuoteInside(QueryPrefix, query);
  }

  /** The first `"` after an opening quote that is followed by `query`
      lies within `query` when `query` holds one. */
  lemma FirstQuoteInside(prefix: string, query: string)
    requires '"' in query
    ensures var line := prefix + Quote(query);
      var close := IndexFrom(line, '"', |prefix| + 1);
      && |prefix| + 1 <= close < |line| - 1
      && line[|prefix| + 1..close] == query[..close - |prefix| - 1]
  {
    var line := prefix + Quote(query);
    var open := |prefix|;
    var i :| 0 <= i < |query| && query[i] == '"';
    assert line[open + 1..|line| - 1] == query;
    assert line[open + 1 + i] == query[i];
    var close := IndexFrom(line, '"', open + 1);
    assert line[open + 1..close] == line[open + 1..|line| - 1][..close - open - 1];
  }

  /** Every token the prober checks is the token of some directive. */
  lemma ProberTokensDirected()
    ensures forall k | 0 <= k < |Stages| && Stages[k].checkpoint.Some? ::
      exists i | 0 <= i < |Directives| :: Directives[i].token == Stages[k].checkpoint.value
  {
    assert Directives[2].token == Stages[0].checkpoint.value;
    assert Directives[3].token == Stages[1].checkpoint.value;
    assert Directives[4].token == Stages[2].checkpoint.value;
    assert Directives[5].token == Stages[3].checkpoint.value;
  }

  /** The prompt's final artifact is the file the prober's last stage waits
      for and the ingestion reads. */
  lemma OutputIsProbed(query: string, generationDir: string, commitHash: string,
                       generationId: string, repoId: Option<string>)
    ensures BuildPrompt(query, generationDir, commitHash, generationId, repoId).outputPath
         == PathIn(generationDir, Stages[|Stages| - 1].file)
    ensures Stages[|Stages| - 1].checkpoint.None?
  {
  }

  /** For stages 1, 2 and 4 the prompt asks for the token in the very file
      the prober reads. For stage 3 it does not: the STAGE_3_COMPLETE token
      is directed only to `narrative_outline_reviewed.md`, while the prober
      looks for it in `narrative_outline.md`. */
  lemma RegistryAgreement()
    ensures forall k | k in {0, 1, 3} ::
      Directive(Stages[k].file, Stages[k].checkpoint.value) in Directives
    ensures forall i | 0 <= i < |Directives| && Directives[i].token == Stages[2].checkpoint.value ::
      Directives[i].file != Stages[2].file
  {
    assert Directives[2] == Directive(Stages[0].file, Stages[0].checkpoint.value);
    assert Directives[3] == Directive(Stages[1].file, Stages[1].checkpoint.value);
    assert Directives[5] == Directive(Stages[3].file, Stages[3].checkpoint.value);
  }

  /** A working directory left by an agent that followed a directive table:
      every file the table names exists and holds its token. */
  predicate Obeys(dir: WorkDir, table: seq<Directive>)
  {
    forall i | 0 <= i < |table| :: table[i].file in dir && Contains(dir[table[i].file], table[i].token)
  }

  lemma ContainsSelf(s: string)
    ensures Contains(s, s)
  {
    assert OccursAt(s, s, 0);
  }

  /** Under the prompt as written, the prober's verdict past stage 2 hangs on
      a token the prompt never asks to put in `narrative_outline.md`: an
      obedient agent gets the prober to 2, and further only if it happens to
      write STAGE_3_COMPLETE into the outline too. */
  lemma ObedientAgentStage(dir: WorkDir)
    requires Obeys(dir, Directives)
    ensures StageOf(dir) >= 2
    ensures StageOf(dir) >= 3 <==> Contains(dir[NarrativeOutline], "STAGE_3_COMPLETE")
  {
    assert Directives[2].file == Stages[0].file;
    assert Directives[3].file == Stages[1].file;
    assert Satisfied(dir, 0) && Satisfied(dir, 1);
    CheckpointDecides(dir, 2);
  }

  /** One working directory an agent following the prompt to the letter can
      leave behind: each file holds exactly its token, and the story exists. */
  const ObedientDir: WorkDir := map[
    "exploration_scan.md" := "EXPLORATION_SCANNED",
    "exploration_read.md" := "EXPLORATION_READ",
    ExplorationNotes := "STAGE_1_COMPLETE",
    NarrativeOutline := "STAGE_2_COMPLETE",
    "narrative_outline_reviewed.md" := "STAGE_3_COMPLETE",
    SnippetsMapping := "STAGE_4_COMPLETE",
    "explanations_draft.md" := "STAGE_5_COMPLETE",
    StoryFile := "{}"
  ]

  /** The stage-3 mismatch is reachable: with the story finished and every
      directive obeyed, the prober still reports stage 2 ("Reviewing flow",
      40%) and the progress display never moves past it. */
  lemma PromptStallsProber()
    ensures Obeys(ObedientDir, Directives)
    ensures StoryFile in ObedientDir
    ensures StageOf(ObedientDir) == 2
  {
    forall i | 0 <= i < |Directives|
      ensures Directives[i].file in ObedientDir && Contains(ObedientDir[Directives[i].file], Directives[i].token)
    {
      ContainsSelf(Directives[i].token);
    }
    var outline := ObedientDir[NarrativeOutline];
    assert outline[6] != "STAGE_3_COMPLETE"[6];
    assert !OccursAt(outline, "STAGE_3_COMPLETE", 0);
    ObedientAgentStage(ObedientDir);
  }

  /** The directive table the stage registry calls for: the review's token
      goes to the outline file itself, after the outline's own token, so the
      reviewed outline holds both STAGE_2_COMPLETE and STAGE_3_COMPLETE. */
  const CorrectedDirectives: seq<Directive> := Directives[4 := Directive(NarrativeOutline, "STAGE_3_COMPLETE")]

  /** With the corrected table every registry stage with a checkpoint has a
      directive naming its very file and token. */
  lemma CorrectedTableMatchesRegistry()
    ensures forall k | 0 <= k < |Stages| && Stages[k].checkpoint.Some? ::
      Directive(Stages[k].file, Stages[k].checkpoint.value) in CorrectedDirectives
  {
    assert CorrectedDirectives[2] == Directive(Stages[0].file, Stages[0].checkpoint.value);
    assert CorrectedDirectives[3] == Directive(Stages[1].file, Stages[1].checkpoint.value);
    assert CorrectedDirectives[4] == Directive(Stages[2].file, Stages[2].checkpoint.value);
    assert CorrectedDirectives[5] == Directive(Stages[3].file, Stages[3].checkpoint.value);
  }

  /** Under the corrected table an obedient agent drives the prober through
      every checkpointed stage, and to the end once the story exists. */
  lemma CorrectedPromptReachesEnd(dir: WorkDir)
    requires Obeys(dir, CorrectedDirectives)
    ensures StageOf(dir) >= 4
    ensures StageOf(dir) == 5 <==> StoryFile in dir
  {
    CorrectedTableMatchesRegistry();
    forall k | 0 <= k < 4 ensures Satisfied(dir, k) {
      var i :| 0 <= i < |CorrectedDirectives| && CorrectedDirectives[i] == Directive(Stages[k].file, Stages[k].checkpoint.value);
    }
    StoryFileExistenceSuffices(dir);
  }

  /** Replacing the outline's token instead of adding to it does not help
      the command-line prober: an outline that no longer holds
      STAGE_2_COMPLETE keeps it at stage 1 once the notes are done, whatever
      else the directory holds. The server's rule, which looks for
      STAGE_3_COMPLETE alone, reports at least 3 for such an outline. */
  lemma ReplacedOutlineStalls(dir: WorkDir)
    requires Satisfied(dir, 0)
    requires NarrativeOutline in dir && !Contains(dir[NarrativeOutline], "STAGE_2_COMPLETE")
    ensures StageOf(dir) == 1
    ensures Contains(dir[NarrativeOutline], "STAGE_3_COMPLETE") ==> ServerProgress.ServerStage(dir) >= 3
  {
    CheckpointDecides(dir, 0);
    CheckpointDecides(dir, 1);
  }

  /** A finished directory in which the review replaced the outline's token
      with its own, as a "replace the Stage 2 checkpoint" wording asks. */
  const ReplacedDir: WorkDir := map[
    ExplorationNotes := "STAGE_1_COMPLETE",
    NarrativeOutline := "STAGE_3_COMPLETE",
    SnippetsMapping := "STAGE_4_COMPLETE",
    StoryFile := "{}"
  ]

  /** That directory is reported at stage 1 ("Creating narrative outline")
      by the command-line prober, although the story exists; the server
      reports it finished. */
  lemma ReplaceWordingStalls()
    ensures StoryFile in ReplacedDir
    ensures StageOf(ReplacedDir) == 1
    ensures ServerProgress.ServerStage(ReplacedDir) == 5
  {
    ContainsSelf("STAGE_1_COMPLETE");
    var outline := ReplacedDir[NarrativeOutline];
    assert outline[6] != "STAGE_2_COMPLETE"[6];
    assert !OccursAt(outline, "STAGE_2_COMPLETE", 0);
    assert Satisfied(ReplacedDir, 0);
    ReplacedOutlineStalls(ReplacedDir);
  }
}

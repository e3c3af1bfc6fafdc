# code-stories in Dafny

code-stories has two parts.

- **Generation.** An external LLM agent is driven through a staged protocol that is checkpointed in files. The command-line tool (`packages/cli`) and the server (`server/index.js`) each:
  - start the agent with a prompt that tells it which files to write in a per-generation working directory, and which token each file must end with;
  - watch that directory to report progress;
  - once the agent exits, copy the finished `story.json` into the `stories/` catalog and prepend its summary to `manifest.json`.
- **Viewing.** A React viewer (`packages/viewer`) loads a story from a URL. It:
  - resolves page parameters and typed shorthands to raw GitHub URLs;
  - keeps a most-recent-first list of stories read;
  - steps through chapters;
  - highlights code by file type;
  - renders block-quote callouts.

A prompt-optimisation loop (`packages/cli/optimization/optimize.mjs`) reads test queries from a markdown file. It then gathers earlier reflections and guards each iteration.

This project models the sequential logic in all of these. A working directory is a map from file name to contents. A story is a datatype. The catalog, the progress spinner, the recent-story store, the chapter navigator and the viewer's top-level state are classes whose methods update their fields.

| file | module | models |
|---|---|---|
| wrappers.dfy | `Wrappers` | `Option`, `Result` |
| text.dfy | `Text` | the JavaScript string operations the sources use: `trim`, `includes`, `startsWith`, `indexOf`, `lastIndexOf`, `split`, `join`, and `\s`, `\w` and line terminators |
| cli_stages.dfy | `CliStages` | the stage registry, `getCurrentStage`, the progress spinner, `parseGitHubRepo` |
| story.dfy | `StoryModel` | the story, chapter, snippet and manifest-summary records; the 8-4-4-4-12 id check |
| catalog.dfy | `Catalog` | the stories directory and both ingestions; the server's query guard |
| prompt.dfy | `Prompt` | `buildPrompt`'s fixed values and checkpoint directives, and how they relate to the registry |
| server_progress.dfy | `ServerProgress` | the progress endpoint |
| optimize.dfy | `Optimizer` | `parseQueries`, the reflection window, `safeQuery`, the guards |
| api.dfy | `ViewerApi` | parameter resolution and the recent-stories store |
| landing.dfy | `Landing` | `handleSubmit`'s input-to-URL normalisation |
| code_panel.dfy | `CodePanel` | `getLanguage` and line numbering |
| story_viewer.dfy | `StoryViewer` | the chapter index and its handlers |
| callout.dfy | `Callout` | `parseCalloutTitle` |
| app.dfy | `App` | the home/loading/reading/error state machine |

Regular expressions are modelled by functions that compute their unique match. Each function comes with lemmas that relate it to a declarative reading of the pattern.

## Model

| member | source | states |
|---|---|---|
| CliStages.StageOf | packages/cli/index.js:98-116 | The probed stage r is in 0..5. Stages 0..r-1 are all satisfied: the file exists and, if the stage has a token, the file contains it. When r < 5, stage r is not satisfied. |
| CliStages.GetCurrentStage | packages/cli/index.js:98-116 | The loop with its early exits returns exactly the characterised stage: all earlier stages satisfied, the next one not. |
| CliStages.StageOfUnique | packages/cli/index.js:101-113 | That characterisation has only one solution, so it determines the result. |
| CliStages.MissingFileBounds | packages/cli/index.js:101-105 | If stage k's file is absent, the result is at most k, whatever later files exist. |
| CliStages.CheckpointDecides | packages/cli/index.js:94-110 | Suppose earlier stages are satisfied and stage k's file exists. Then stage k (k < 4) counts exactly when the file contains its token. |
| CliStages.StoryFileExistenceSuffices | packages/cli/index.js:94-112 | Once stages 0..3 are satisfied, the result is 5 exactly when `story.json` exists. Its contents are not read. |
| CliStages.OutlineCarriesBothTokens | packages/cli/index.js:91-110 | Reaching stage 3 needs `narrative_outline.md` to contain both STAGE_2_COMPLETE and STAGE_3_COMPLETE. |
| CliStages.ProbeMonotone | packages/cli/index.js:98-116 | If files are only added or appended to, the probed stage never decreases. |
| CliStages.Percent | packages/cli/index.js:151 | The shown percentage is the rounded value of stage/5·100, i.e. stage·20. |
| CliStages.ProgressDisplay.constructor | packages/cli/index.js:140-144 | The spinner starts at stage 0 with the first label and 0%. |
| CliStages.ProgressDisplay.Poll | packages/cli/index.js:147-154 | The display changes only when the probed stage differs from the shown one and is below 5. The shown stage therefore always indexes the registry, with a label from it and a percentage in 0..80. |
| CliStages.MatchAtSound | packages/cli/index.js:49 | A capture found at position i is `owner/name` read declaratively: `github.com`, then `/` or `:`, then a `/`-free owner, `/`, and a name free of `/` and `.` that ends at the end of the input, a `/` or a `.`. |
| CliStages.MatchAtComplete | packages/cli/index.js:49 | Every declarative match at position i is found, with that capture. |
| CliStages.ParseGitHubRepo | packages/cli/index.js:48-54 | The result is either the input unchanged or the `owner/name` of some declarative match, so an input with no match comes back as it is. Which match wins is stated by `CliStages.ParseRepoLeftmost`. |
| CliStages.ParseRepoLeftmost | packages/cli/index.js:48-52 | The leftmost declarative match decides the result. |
| CliStages.ParseRepoIdentity | packages/cli/index.js:48-53 | An input with no match, such as a bare `owner/name`, is returned unchanged. |
| CliStages.ParseRepoHttpsUrl | packages/cli/index.js:48-52 | `https://github.com/owner/name` followed by nothing, `/…` or `.git` gives `owner/name`. |
| StoryModel.IsUuid | packages/cli/index.js:193 | An accepted id has 36 characters, with hyphens at exactly positions 8, 13, 18 and 23. |
| StoryModel.UuidGroups | packages/cli/index.js:193 | The positional id check is equivalent to the regex's grouping: five runs of 8, 4, 4, 4 and 12 hex digits separated by hyphens. |
| StoryModel.Lower | packages/cli/index.js:193 | Lower-casing keeps the length and maps each character. |
| StoryModel.UuidCaseInsensitive | packages/cli/index.js:193 | The `i` flag: an id passes exactly when its lower-case form does. |
| StoryModel.UuidRejects | packages/cli/index.js:192-196 | `not-a-uuid`, the empty id and an id whose first hyphen is one place early are rejected. |
| Catalog.StoriesDir.constructor | packages/cli/index.js:199-204 | The directory starts empty, with no manifest. |
| Catalog.StoriesDir.Commit | packages/cli/index.js:199-217 | The story file is written first. A missing manifest counts as empty. The manifest becomes the story's four-field summary followed by the old entries, and the working directory is removed. An unreadable manifest fails after the story file is written and keeps the directory. Every manifest entry keeps naming an existing story file. |
| Catalog.StoriesDir.IngestCli | packages/cli/index.js:186-232 | No `story.json`: rejected, and nothing changes, including the working directory. Unparsable: rejected, nothing changes. An empty id or one not of the 8-4-4-4-12 form: rejected before any catalog write. Otherwise the commit happens. Every stored story keeps an id of that form. |
| Catalog.StoriesDir.IngestServer | server/index.js:362-395 | The same copy and prepend with no id check. Failures are only logged. |
| Catalog.StoriesDir.StartGeneration | server/index.js:101-111 | A missing or empty query answers 400 and creates nothing. Otherwise the generation's working directory is added and its id returned; with a fresh id the set of working directories grows by exactly one. |
| Catalog.IngestTwice | packages/cli/index.js:208-214 | Two ingestions leave the later summary first, then the earlier one, then the old entries: the manifest is newest-first. |
| Prompt.Quote | packages/cli/prompt.js:31-41 | A value is embedded verbatim between double quotes. |
| Prompt.RepoValue | packages/cli/prompt.js:39 | The repo value is the literal `null` exactly when repoId is missing or empty. Otherwise it is the quoted id, even for an id spelled `null`. |
| Prompt.BuildPrompt | packages/cli/prompt.js:2-232 | The prompt depends on its five arguments only. The schema is inserted unchanged. The query line quotes the query. The five fixed-value lines are as listed, with `createdAt` left to the agent. Each directive becomes a path under the working directory paired with its token. The output is `<dir>/story.json`. |
| Prompt.QuoteInQueryEndsValueEarly | packages/cli/prompt.js:31 | The query is quoted without escaping. When it holds a `"`, the first quote after the opening one lies inside the query, so a reader who takes the value up to that quote gets a proper prefix of the query. |
| Prompt.ProberTokensDirected | packages/cli/prompt.js:69-157 | Every token the prober checks (STAGE_1..STAGE_4_COMPLETE) is directed by the prompt to some file. |
| Prompt.OutputIsProbed | packages/cli/prompt.js:232 | The artifact path is the file the prober's last stage and the ingestion read, and that stage has no token. |
| Prompt.RegistryAgreement | packages/cli/prompt.js:69-157 | The (file, token) pairs for stages 1, 2 and 4 match the registry. STAGE_3_COMPLETE is directed to `narrative_outline_reviewed.md`, not to the registry's `narrative_outline.md`. |
| Prompt.ObedientAgentStage | packages/cli/prompt.js:121-122 | For an agent that writes every directed file with its token, the prober reports at least 2. It reports 3 or more only if `narrative_outline.md` also happens to contain STAGE_3_COMPLETE. |
| Prompt.PromptStallsProber | packages/cli/prompt.js:121-122 | Some working directory obeys every directive and holds `story.json`, yet the prober reports stage 2. |
| Prompt.CorrectedTableMatchesRegistry | packages/cli/index.js:90-92 | The corrected table directs STAGE_3_COMPLETE to `narrative_outline.md`, next to STAGE_2_COMPLETE, as the registry expects. In it, the directive for each prober token names the prober's file for that token. |
| Prompt.CorrectedPromptReachesEnd | packages/cli/index.js:90-92 | An agent obeying the corrected table leaves an outline that holds both tokens. It reaches at least stage 4, and stage 5 exactly when `story.json` exists. |
| Prompt.ReplacedOutlineStalls | packages/cli/optimization/history/prompt-iter-1.js:233-234 | Replacing the outline's STAGE_2_COMPLETE with STAGE_3_COMPLETE, as this wording asks, does not help the command-line prober. Once the notes are done, an outline without STAGE_2_COMPLETE keeps it at stage 1, whatever else the directory holds. The server's rule reports at least 3 when that outline holds STAGE_3_COMPLETE. |
| Prompt.ReplaceWordingStalls | server/index.js:258-259 | A finished directory whose outline holds only STAGE_3_COMPLETE is reported at stage 1 ("Creating narrative outline") by the command-line prober, although `story.json` exists. The server's progress rule reports the same directory as finished (stage 5). |
| ServerProgress.CheckFile | server/index.js:71-82 | An absent file has neither flag. A present file with no token to look for has its checkpoint. Otherwise the checkpoint means the contents contain the token. The checkpoint implies existence. |
| ServerProgress.ServerStage | server/index.js:89-95 | The stage chain read bottom-up gives a value in 0..5. |
| ServerProgress.GetProgress | server/index.js:62-98 | A missing working directory gives stage 0 and no files. Otherwise `files` has exactly the four checked names with their statuses, and the stage is the one the last firing rule sets. |
| ServerProgress.StoryOverrides | server/index.js:95 | If `story.json` exists, the stage is 5 whatever the other files hold. |
| ServerProgress.OutlineWithoutReviewToken | server/index.js:91-92 | An outline without STAGE_3_COMPLETE gives 2, even if the exploration notes lack their token, unless a later rule fires. |
| ServerProgress.ServerDominatesCli | server/index.js:89-95 | The server never reports less than the command-line prober. |
| ServerProgress.RulesDisagree | server/index.js:89-95 | A directory holding only `story.json` is stage 5 for the server and stage 0 for the command-line prober, so the server rule is not prefix-monotone. |
| Optimizer.RepoCapture | packages/cli/optimization/optimize.mjs:43 | A capture needs the key `repo:` in any case at the start of the line. It is non-empty and holds no line terminator. |
| Optimizer.RepoCaptureSound | packages/cli/optimization/optimize.mjs:43 | A capture of `^repo:\s*(.+)` (case-insensitive) is a declarative parse: the key, a run of spaces, and a non-empty capture with no line terminator running to the end. |
| Optimizer.RepoCaptureComplete | packages/cli/optimization/optimize.mjs:43 | Every such parse is recognised. |
| Optimizer.ParseQueries | packages/cli/optimization/optimize.mjs:32-55 | The loop over the `\n`-split lines computes the line-by-line parse from outside the query section with no pending repo. |
| Optimizer.NoHeaderNoQueries | packages/cli/optimization/optimize.mjs:37-42 | Without a `## Query` line there are no queries. |
| Optimizer.SkipToHeader | packages/cli/optimization/optimize.mjs:37-42 | Every line up to and including the first `## Query` line is ignored. |
| Optimizer.QueriesInOrder | packages/cli/optimization/optimize.mjs:48-52 | Inside the section, the queries are exactly the non-blank trimmed lines that are not `#` lines or `repo:` lines, in file order. |
| Optimizer.RepoLineStep | packages/cli/optimization/optimize.mjs:43-47 | A `repo:` line only sets the pending repo to its trimmed capture. |
| Optimizer.QueryLineStep | packages/cli/optimization/optimize.mjs:48-52 | A query line yields one entry carrying the pending repo, then clears it. |
| Optimizer.RepoAppliesOnce | packages/cli/optimization/optimize.mjs:43-52 | A repo applies to exactly one following query. The next query carries none. |
| Optimizer.Range | packages/cli/optimization/optimize.mjs:139 | The visited iterations are lo, lo+1, …, hi-1. |
| Optimizer.WindowBounds | packages/cli/optimization/optimize.mjs:138-139 | The window is ascending from max(1, iteration−max), holds at most max iterations, and never includes the current or a later one. |
| Optimizer.Decimal | packages/cli/optimization/optimize.mjs:142 | An iteration number is rendered as decimal digits that denote it, with no leading zero. |
| Optimizer.Stored | packages/cli/optimization/optimize.mjs:139-144 | The iterations that contribute are exactly the visited ones with a stored reflections file, in the order visited; an ascending visit gives an ascending result. |
| Optimizer.GatheredBlocks | packages/cli/optimization/optimize.mjs:139-144 | The gathered blocks are one per contributing iteration, in that order, each headed by the iteration's number and holding its stored reflections. |
| Optimizer.WindowBlocks | packages/cli/optimization/optimize.mjs:136-146 | For iteration `it`, the blocks are those of the stored iterations from max(1, it − maxReflections) to it − 1, one each, in ascending order. |
| Optimizer.PreviousReflections | packages/cli/optimization/optimize.mjs:136-146 | The loop returns the blocks of the window's stored reflections, in ascending order, joined by the separator. |
| Optimizer.ReflectionCount | packages/cli/optimization/optimize.mjs:136-146 | At most max(0, maxReflections) reflections are gathered. |
| Optimizer.SafeQuery | packages/cli/optimization/optimize.mjs:190 | The result has min(40, length) characters, each in [A-Za-z0-9_]. Alphanumerics are kept in place and every other character becomes `_`. |
| Optimizer.SafeQueryIdempotent | packages/cli/optimization/optimize.mjs:190 | Sanitising twice is sanitising once. |
| Optimizer.CheckQueries | packages/cli/optimization/optimize.mjs:358-363 | `main` proceeds exactly when the query list is non-empty and at least QUERIES_TO_TEST long. Otherwise it stops with the matching error. |
| Optimizer.Selected | packages/cli/optimization/optimize.mjs:173 | `slice(0, n)` is a prefix of the list. A negative n drops entries from the end. |
| Optimizer.CheckGenerations | packages/cli/optimization/optimize.mjs:183-208 | An iteration proceeds exactly when some generation exited with 0. |
| Optimizer.CheckOutput | packages/cli/optimization/optimize.mjs:267-269 | An agent output (the reflections, and likewise the improved prompt at lines 306-308) is accepted exactly when it is present and at least 50 characters long once trimmed. |
| Optimizer.AcceptedListFillsSelection | packages/cli/optimization/optimize.mjs:358-363 | Once `main`'s guards pass, the selection taken at line 173 is exactly the first QUERIES_TO_TEST queries. |
| Optimizer.ZeroSelectionAlwaysStops | packages/cli/optimization/optimize.mjs:173-208 | With QUERIES_TO_TEST = 0, the guards pass but nothing is generated, and the iteration always stops. |
| ViewerApi.StoryUrl | packages/viewer/src/services/api.ts:11-22 | A non-empty `url` wins. Otherwise non-empty `repo` and `story` give the story file in the repository's stories directory. Otherwise null. |
| ViewerApi.ManifestUrl | packages/viewer/src/services/api.ts:30-40 | `manifest` wins. Otherwise `repo` without `story` gives `manifest.json`. Otherwise, including `repo` with `story`, null. |
| ViewerApi.RepoParamsOpenOne | packages/viewer/src/services/api.ts:11-40 | Without `url` and `manifest`, the parameters never name both a story and a manifest. With a `repo` they name exactly one, inside that repository's stories directory. |
| ViewerApi.WithoutUrl | packages/viewer/src/services/api.ts:85 | The filter keeps exactly the entries with another url. |
| ViewerApi.WithoutUrlCounts | packages/viewer/src/services/api.ts:85 | Every entry with another url is kept as often as the list holds it, duplicates included; no entry with the url remains. |
| ViewerApi.WithoutUrlKeepsOrder | packages/viewer/src/services/api.ts:85 | The filter keeps the remaining entries in their order. |
| ViewerApi.Added | packages/viewer/src/services/api.ts:83-93 | The stored list has 1 to 10 entries, and the new entry comes first. |
| ViewerApi.AddedProperties | packages/viewer/src/services/api.ts:83-93 | After adding, the first entry carries the url, title and time, and no other entry carries the url. The other entries are exactly the first ones of the old list once the url is filtered out, in order, none dropped except past the tenth: the list has min(10, 1 + filtered length) entries. Distinct urls stay distinct. |
| ViewerApi.RecentStore.Recent | packages/viewer/src/services/api.ts:74-81 | The stored list, or [] when nothing is stored or it does not parse. |
| ViewerApi.RecentStore.Add | packages/viewer/src/services/api.ts:83-98 | The store holds the added list, and the properties above hold of it. |
| ViewerApi.RecentStore.Clear | packages/viewer/src/services/api.ts:100-106 | The item is removed and the list reads as []. |
| Landing.BlobMatch | packages/viewer/src/components/LandingPage.tsx:20 | A match starts with `https://github.com/` or `http://github.com/`, followed by the first group, `/blob/` and the second group, which is non-empty and free of line terminators. The exact groups are stated by `Landing.BlobMatchSound` and `Landing.BlobMatchComplete`. |
| Landing.ShorthandMatch | packages/viewer/src/components/LandingPage.tsx:26 | A match splits the input into the first group, which holds a `/`, one `/` or `:` separator, and a non-empty id of hex digits and hyphens. |
| Landing.BlobMatchComplete | packages/viewer/src/components/LandingPage.tsx:20 | Every `http(s)://github.com/<owner>/<repo>/blob/<rest>` is matched, with `<owner>/<repo>` and `<rest>`. |
| Landing.ShorthandMatchComplete | packages/viewer/src/components/LandingPage.tsx:26 | Every `<owner>/<repo>/<id>` or `<owner>/<repo>:<id>` with a hex-and-hyphen id (either case) is matched, with `<owner>/<repo>` and the id. |
| Landing.BlobMatchSound | packages/viewer/src/components/LandingPage.tsx:20 | Whatever the blob matcher accepts is a blob link, and its groups are that link's `<owner>/<repo>` and `<rest>`. |
| Landing.ShorthandMatchSound | packages/viewer/src/components/LandingPage.tsx:26 | Whatever the shorthand matcher accepts is a shorthand, and its groups are that shorthand's `<owner>/<repo>` and id. |
| Landing.Resolve | packages/viewer/src/components/LandingPage.tsx:17-31 | The blob rule comes first, the shorthand only when it fails, and otherwise the trimmed text is used as typed. |
| Landing.PassThrough | packages/viewer/src/components/LandingPage.tsx:17-33 | A trimmed input that is neither a blob link nor a shorthand is loaded as it is. |
| Landing.Normalize | packages/viewer/src/components/LandingPage.tsx:12-35 | Blank input loads nothing. Every other submit loads once, from the resolution of the trimmed input. |
| Landing.BlobLinkOpensRaw | packages/viewer/src/components/LandingPage.tsx:20-23 | A blob link opens `https://raw.githubusercontent.com/<owner>/<repo>/<rest>`. |
| Landing.ShorthandMatchesParams | packages/viewer/src/components/LandingPage.tsx:26-30 | A shorthand opens the same URL as `?repo=<owner>/<repo>&story=<id>`. |
| Landing.ShorthandIsNoBlob | packages/viewer/src/components/LandingPage.tsx:20-25 | A shorthand never matches the blob rule, so the rule order does not hide it. |
| CodePanel.GetLanguage | packages/viewer/src/components/CodePanel.tsx:40-49 | The result is a table value or one of python, makefile, bash. Which one is stated by `CodePanel.ExtensionDecides` (table hit), `CodePanel.UnknownSuffixFallsBack` (any other suffix gives python) and `CodePanel.UndottedBaseName` (no dot). |
| CodePanel.KeysAreDotExtensions | packages/viewer/src/components/CodePanel.tsx:4-38 | Every table key is `.` followed by lower-case letters. |
| CodePanel.UndottedBaseName | packages/viewer/src/components/CodePanel.tsx:42-47 | For a path with no `.`, the last `/`-piece decides: `Makefile`/`makefile` give makefile, `Dockerfile` gives bash, anything else python. |
| CodePanel.ExtensionDecides | packages/viewer/src/components/CodePanel.tsx:41-48 | A path ending in a table suffix gets that suffix's language, whatever precedes it. |
| CodePanel.DottedDirectoryFallsBack | packages/viewer/src/components/CodePanel.tsx:41-48 | If the text after the last `.` holds a `/`, as in `a.b/Makefile`, the answer is python. |
| CodePanel.UnknownSuffixFallsBack | packages/viewer/src/components/CodePanel.tsx:41-48 | A path whose last `.` starts a suffix missing from the table, such as `notes.txt`, gets python. |
| CodePanel.UpperCaseSuffixFallsBack | packages/viewer/src/components/CodePanel.tsx:4-48 | The lookup is case-sensitive: `.JS` gives python. |
| CodePanel.LineNumbers | packages/viewer/src/components/CodePanel.tsx:82-86 | The i-th rendered line is numbered startLine + i. |
| CodePanel.NumbersSpanRange | packages/viewer/src/components/CodePanel.tsx:72-85 | When the content has as many lines as the range, the numbers run from startLine to endLine. |
| StoryViewer.PrevIndex | packages/viewer/src/components/StoryViewer.tsx:14-16 | Prev gives max(0, i−1): never negative, one less whenever i ≥ 1. |
| StoryViewer.NextIndex | packages/viewer/src/components/StoryViewer.tsx:18-20 | Next gives min(n−1, i+1): never past the last chapter, one more when there is room. |
| StoryViewer.PrevNextInverse | packages/viewer/src/components/StoryViewer.tsx:14-20 | Away from the ends, Prev undoes Next and Next undoes Prev. |
| StoryViewer.DigitGuardShape | packages/viewer/src/components/StoryViewer.tsx:33 | The string comparison admits exactly the keys starting with `1`..`8`, and `9` alone. |
| StoryViewer.ParseLeadingInt | packages/viewer/src/components/StoryViewer.tsx:34 | `parseInt` of a key starting with 1..9 is at least 1, so the index is never negative. |
| StoryViewer.KeyEffect | packages/viewer/src/components/StoryViewer.tsx:24-39 | For n ≥ 1 every key keeps the index in [0, n−1]. Any key other than the handled ones leaves it unchanged. |
| StoryViewer.DigitKeyOpensChapter | packages/viewer/src/components/StoryViewer.tsx:33-37 | Digit d sets d−1 if d−1 < n and otherwise leaves the index unchanged. |
| StoryViewer.MovementKeys | packages/viewer/src/components/StoryViewer.tsx:25-32 | ArrowLeft/h/H act as Prev and ArrowRight/l/L as Next. Home gives 0 and End gives n−1. |
| StoryViewer.ChapterNavigator.constructor | packages/viewer/src/components/StoryViewer.tsx:12 | The index starts at 0. |
| StoryViewer.ChapterNavigator.Prev | packages/viewer/src/components/StoryViewer.tsx:14-16 | The index becomes PrevIndex of the old one, and it stays in range. |
| StoryViewer.ChapterNavigator.Next | packages/viewer/src/components/StoryViewer.tsx:18-20 | The index becomes NextIndex of the old one, and it stays in range. |
| StoryViewer.ChapterNavigator.KeyDown | packages/viewer/src/components/StoryViewer.tsx:24-39 | The index becomes KeyEffect of the old one, and it stays in range. |
| Callout.MarkerMatch | packages/viewer/src/components/ExplanationPanel.tsx:20 | A match of `^\[!(\w+)\]\s*` is `[!`, a non-empty word of `\w` characters, `]`, then every following space, with the match ending before the first non-space. |
| Callout.MarkerComplete | packages/viewer/src/components/ExplanationPanel.tsx:20 | Every such marker is matched, with its word and length. |
| Callout.Capitalized | packages/viewer/src/components/ExplanationPanel.tsx:22 | The title is the word with only its first character upper-cased. |
| Callout.ParseCalloutTitle | packages/viewer/src/components/ExplanationPanel.tsx:10-59 | A string or scalar child gives no title and unchanged content. With no title the content is always unchanged. With a title the content is an array. |
| Callout.MarkerTitles | packages/viewer/src/components/ExplanationPanel.tsx:18-28 | `[!word]` gives the capitalised word as the title. The content is the text after the marker and its spaces, then the other children, with an empty remainder dropped. |
| Callout.BoldTitles | packages/viewer/src/components/ExplanationPanel.tsx:32-54 | A first `p` whose first child is a `strong` ending in `:` gives that text without the `:` as the title, and the children unchanged. |
| Callout.UntitledUnchanged | packages/viewer/src/components/ExplanationPanel.tsx:58 | Otherwise there is no title and the content is unchanged. |
| App.AppModel.constructor | packages/viewer/src/components/App.tsx:15-19 | The app starts at home with no story, url or error, and an empty recent list. |
| App.AppModel.Screen | packages/viewer/src/components/App.tsx:77-107 | The viewer is shown exactly in `reading` with a story. The landing page is shown exactly at home. The error view shows the error. |
| App.AppModel.StartLoad | packages/viewer/src/components/App.tsx:35-38 | Loading starts: state `loading`, error cleared, url recorded. |
| App.AppModel.FinishLoad | packages/viewer/src/components/App.tsx:40-56 | Success sets the story, enters `reading`, adds the story to the recent store, re-reads the list and sets the `url` parameter. Failure enters `error` with the message, or `Failed to load story` when the thrown value carries none. |
| App.AppModel.LoadStory | packages/viewer/src/components/App.tsx:35-57 | A whole load with no other event meanwhile. The state invariant is kept. |
| App.AppModel.Back | packages/viewer/src/components/App.tsx:59-69 | Story, url and error are cleared, the state is `home` and the query string is emptied. |
| App.AppModel.Retry | packages/viewer/src/components/App.tsx:71-75 | Reloads the current url, and does nothing without one. |
| App.AppModel.Mount | packages/viewer/src/components/App.tsx:22-33 | The recent list is read from storage. The story the page parameters name, if any, starts loading. |

## Left out

- Process and concurrency machinery is left out: spawning the agent, stdin and stderr handling, the polling timer and the signal handlers. The agent's exit is an input: whether `story.json` exists and what it parses to.
- Git and clone I/O (`getCommitHash`, `cloneRepo`, `cleanupClone`, `ensureDirectories`) is left out. It consists of foreign commands and filesystem effects.
- JSON, the filesystem and local storage are left out. They appear only as values: a file map, a parsed-story datatype, a manifest state (missing, unreadable or stored), and a stored recent-list item.
  - A stored item that parses but is not an array makes `addRecentStory` throw, and the throw is swallowed. This case is not distinguished from a parseable list.
  - Storage write failures are not modelled.
- Express routing, HTTP and `fetch` are left out. A fetch outcome is an input to `App.AppModel.FinishLoad`.
- The prose of the prompt is not modelled. Only the query line, schema, fixed values, checkpoint directives and output path are.
- Concurrent server generations are not modelled. In particular, the read-modify-write race on `manifest.json` is left out; ingestion is sequential.
- The optimizer's orchestration is not modelled: agent calls, `node --check`, backups and writing files. Reflections on disk are a map from iteration to text.
- The historical prompt snapshots under `packages/cli/optimization/history/` are not modelled separately; they repeat the same registry and ingestion. Their stage-3 wording, which replaces the outline's stage-2 token, is covered by `Prompt.ReplacedOutlineStalls`.
- `QUERIES_TO_TEST` is an integer in the model. An environment value that does not parse makes `parseInt` return NaN. Then `queries.length < NaN` is false, so the guard passes, and `slice(0, NaN)` is empty: the case `Optimizer.ZeroSelectionAlwaysStops` states for 0.
- The legacy `src/` application is not part of this model, and neither are the Sidebar, ChapterDisplay drag-resize (floating point), ErrorBoundary, LoadingView or the build configuration.
- Overlapping loads in the viewer are not modelled. `App.AppModel.FinishLoad` can be called in any state, but interleavings of two loads in flight are not explored.
- Strings are sequences of Unicode characters, whereas JavaScript works on UTF-16 code units. Lengths and the 40-character cut of `safeQuery` differ for characters outside the Basic Multilingual Plane.
- A story id, query or title that is not a string (JSON allows any value) is not modelled. Ids and queries are strings, and truthiness is "non-empty".
- `StoryModel.UuidRejects`: only rejected examples are stated. Acceptance of a well-formed id follows from `StoryModel.UuidGroups`.
- The server accepts any story id and writes `<id>.json` with it. What such an id does to the path is not modelled.
- `CodePanel.LineNumbers`: the highlighter's tokenisation into lines is taken as given. `CodePanel.NumbersSpanRange` approximates it by splitting on `\n`.

## Findings

| source | as written | input that shows it | evidently intended | confidence | as-written member | corrected member |
|---|---|---|---|---|---|---|
| packages/cli/prompt.js:121-122 | The prompt tells the agent to end `narrative_outline_reviewed.md` with STAGE_3_COMPLETE. The command-line prober (packages/cli/index.js:92) looks for that token in `narrative_outline.md`. | An agent that follows every directive: `narrative_outline.md` ends with STAGE_2_COMPLETE only, and the reviewed outline, snippets mapping and `story.json` all exist. The prober reports stage 2 ("Reviewing flow", 40%) until the end, although the run finished. | STAGE_3_COMPLETE added to `narrative_outline.md` after STAGE_2_COMPLETE, as the stage registry (packages/cli/index.js:90-92) expects, so an obedient agent passes stages 3, 4 and 5. The older snapshot and the server prompt say to replace the stage-2 token instead; that stalls the command-line prober at stage 1 (`Prompt.ReplaceWordingStalls`). | high (not executed) | Prompt.PromptStallsProber | Prompt.CorrectedPromptReachesEnd |

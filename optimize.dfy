/** The deterministic helpers of the prompt-optimisation loop
    (packages/cli/optimization/optimize.mjs): the `queries.md` parser, the
    window of earlier reflections fed back to the model, the file-name
    sanitiser for saved stories, and the guards that stop the loop. */
module Optimizer {
  import opened Wrappers
  import opened Text

  /** `{query, repo}`: one test query and the repository it is run against. */
  datatype QueryEntry = QueryEntry(query: string, repo: Option<string>)

  // ---------------------------------------------------------------------
  // parseQueries
  // ---------------------------------------------------------------------

  const SectionHeader := "## Query"

  /** `repo:` at the start of a line, in any case. */
  predicate IsRepoKey(s: string)
  {
    && |s| == 5
    && (s[0] == 'r' || s[0] == 'R') && (s[1] == 'e' || s[1] == 'E')
    && (s[2] == 'p' || s[2] == 'P') && (s[3] == 'o' || s[3] == 'O')
    && s[4] == ':'
  }

  /** The first position at or after `i` that is not white space, or `|s|`. */
  function SkipSpace(s: string, i: nat): (r: nat)
    requires i <= |s|
    ensures i <= r <= |s|
    ensures forall k | i <= k < r :: IsSpace(s[k])
    ensures r < |s| ==> !IsSpace(s[r])
    decreases |s| - i
  {
    if i < |s| && IsSpace(s[i]) then SkipSpace(s, i + 1) else i
  }

  /** The first line terminator at or after `i`, or `|s|`: where `.+` stops. */
  function LineEnd(s: string, i: nat): (r: nat)
    requires i <= |s|
    ensures i <= r <= |s|
    ensures forall k | i <= k < r :: !IsLineTerminator(s[k])
    ensures r < |s| ==> IsLineTerminator(s[r])
    decreases |s| - i
  {
    if i < |s| && !IsLineTerminator(s[i]) then LineEnd(s, i + 1) else i
  }

  /** The last position below `n` that is not a line terminator, or -1. */
  function LastNonTerminator(s: string, n: nat): (r: int)
    requires n <= |s|
    ensures -1 <= r < n
    ensures r >= 0 ==> !IsLineTerminator(s[r])
    ensures forall k | r < k < n :: IsLineTerminator(s[k])
  {
    if n == 0 then -1
    else if !IsLineTerminator(s[n - 1]) then n - 1
    else LastNonTerminator(s, n - 1)
  }

  /** The capture group of `/^repo:\s*(.+)/i` on `line`, or `None` when the
      pattern does not match. The greedy `\s*` takes the whole white-space run
      after the colon when something other than white space follows it;
      otherwise it backs off to the last character `.` can match, so a line
      of only white space after `repo:` captures white space. The capture
      runs to the first line terminator. */
  function RepoCapture(line: string): (r: Option<string>)
    ensures r.Some? ==> |line| >= 5 && IsRepoKey(line[..5])
    ensures r.Some? ==> r.value != [] && forall k | 0 <= k < |r.value| :: !IsLineTerminator(r.value[k])
  {
    if |line| >= 5 && IsRepoKey(line[..5]) then
      var w := SkipSpace(line, 5);
      if w < |line| then Some(line[w..LineEnd(line, w)])
      else
        var k := LastNonTerminator(line, |line|);
        if k < 5 then None else Some(line[k..LineEnd(line, k)])
    else None
  }

  /** What the pattern matches: the key, a run of white space, then a
      non-empty capture free of line terminators that ends at a line
      terminator or at the end of the line. */
  predicate RepoParse(line: string, gap: nat, capture: string)
  {
    && |line| >= 5 + gap + |capture|
    && IsRepoKey(line[..5])
    && (forall k | 5 <= k < 5 + gap :: IsSpace(line[k]))
    && capture != []
    && line[5 + gap..5 + gap + |capture|] == capture
    && (forall k | 0 <= k < |capture| :: !IsLineTerminator(capture[k]))
    && (5 + gap + |capture| == |line| || IsLineTerminator(line[5 + gap + |capture|]))
  }

  /** The capture `RepoCapture` returns is a parse of the line by the pattern. */
  lemma RepoCaptureSound(line: string)
    requires RepoCapture(line).Some?
    ensures exists gap: nat :: RepoParse(line, gap, RepoCapture(line).value)
  {
    var w := SkipSpace(line, 5);
    if w < |line| {
      assert RepoParse(line, w - 5, RepoCapture(line).value);
    } else {
      var k := LastNonTerminator(line, |line|);
      assert RepoParse(line, k - 5, RepoCapture(line).value);
    }
  }

  /** Whenever the pattern can match the line, `RepoCapture` finds a capture. */
  lemma RepoCaptureComplete(line: string, gap: nat, capture: string)
    requires RepoParse(line, gap, capture)
    ensures RepoCapture(line).Some?
  {
    var w := SkipSpace(line, 5);
    if w == |line| {
      assert line[5 + gap] == capture[0];
      var k := LastNonTerminator(line, |line|);
      assert k >= 5 + gap;
    }
  }

  /** One line of the file is a query: outside the header and `repo:` rules,
      non-blank once trimmed and not a heading. */
  predicate IsQueryLine(line: string)
  {
    && !StartsWith(line, SectionHeader)
    && RepoCapture(line).None?
    && Trim(line) != ""
    && !StartsWith(Trim(line), "#")
  }

  /** The parser's state machine over the remaining lines: `inSection` says
      whether a `## Query` line has been seen, `pending` is the repository
      waiting for the next query. */
  function ParseLines(lines: seq<string>, inSection: bool, pending: Option<string>): seq<QueryEntry>
  {
    if lines == [] then []
    else
      var line := lines[0];
      if StartsWith(line, SectionHeader) then ParseLines(lines[1..], true, pending)
      else if !inSection then ParseLines(lines[1..], false, pending)
      else if RepoCapture(line).Some? then ParseLines(lines[1..], true, Some(Trim(RepoCapture(line).value)))
      else if Trim(line) != "" && !StartsWith(Trim(line), "#") then
        [QueryEntry(Trim(line), pending)] + ParseLines(lines[1..], true, None)
      else ParseLines(lines[1..], true, pending)
  }

  /** `parseQueries(queriesMd)`: the loop over the file's lines. */
  method ParseQueries(queriesMd: string) returns (queries: seq<QueryEntry>)
    ensures queries == ParseLines(Split(queriesMd, '\n'), false, None)
  {
    var lines := Split(queriesMd, '\n');
    queries := [];
    var currentRepo: Option<string> := None;
    var inQuerySection := false;
    for i := 0 to |lines|
      invariant queries + ParseLines(lines[i..], inQuerySection, currentRepo) == ParseLines(lines, false, None)
    {
      var line := lines[i];
      assert lines[i..][1..] == lines[i + 1..];
      if StartsWith(line, SectionHeader) {
        inQuerySection := true;
        continue;
      }
      if !inQuerySection {
        continue;
      }
      var repoMatch := RepoCapture(line);
      if repoMatch.Some? {
        currentRepo := Some(Trim(repoMatch.value));
        continue;
      }
      var trimmed := Trim(line);
      if trimmed != "" && !StartsWith(trimmed, "#") {
        queries := queries + [QueryEntry(trimmed, currentRepo)];
        currentRepo := None;
      }
    }
    assert lines[|lines|..] == [];
  }

  /** A file without a `## Query` line yields no query. */
  lemma {:induction false} NoHeaderNoQueries(lines: seq<string>, pending: Option<string>)
    requires forall j | 0 <= j < |lines| :: !StartsWith(lines[j], SectionHeader)
    ensures ParseLines(lines, false, pending) == []
  {
    if lines != [] {
      assert forall j | 0 <= j < |lines| - 1 :: lines[1..][j] == lines[j + 1];
      NoHeaderNoQueries(lines[1..], pending);
    }
  }

  /** Nothing up to and including the first `## Query` line produces a
      query: the parse of the file is the in-section parse of what follows. */
  lemma {:induction false} SkipToHeader(lines: seq<string>, k: nat, pending: Option<string>)
    requires k < |lines| && StartsWith(lines[k], SectionHeader)
    requires forall j | 0 <= j < k :: !StartsWith(lines[j], SectionHeader)
    ensures ParseLines(lines, false, pending) == ParseLines(lines[k + 1..], true, pending)
  {
    if k > 0 {
      var tail := lines[1..];
      assert tail[k - 1] == lines[k];
      assert forall j | 0 <= j < k - 1 :: tail[j] == lines[j + 1];
      SkipToHeader(tail, k - 1, pending);
      assert tail[k..] == lines[k + 1..];
    }
  }

  /** The trimmed text of the query lines, in order. */
  function QueryLines(lines: seq<string>): seq<string>
  {
    if lines == [] then []
    else (if IsQueryLine(lines[0]) then [Trim(lines[0])] else []) + QueryLines(lines[1..])
  }

  function Texts(entries: seq<QueryEntry>): seq<string>
  {
    if entries == [] then [] else [entries[0].query] + Texts(entries[1..])
  }

  /** Inside the query section the queries are exactly the query lines,
      trimmed, in file order. */
  lemma {:induction false} QueriesInOrder(lines: seq<string>, pending: Option<string>)
    ensures Texts(ParseLines(lines, true, pending)) == QueryLines(lines)
  {
    if lines != [] {
      var line := lines[0];
      if StartsWith(line, SectionHeader) {
        QueriesInOrder(lines[1..], pending);
      } else if RepoCapture(line).Some? {
        QueriesInOrder(lines[1..], Some(Trim(RepoCapture(line).value)));
      } else if Trim(line) != "" && !StartsWith(Trim(line), "#") {
        QueriesInOrder(lines[1..], None);
        var rest := ParseLines(lines[1..], true, None);
        var all := [QueryEntry(Trim(line), pending)] + rest;
        assert all[1..] == rest;
      } else {
        QueriesInOrder(lines[1..], pending);
      }
    }
  }

  /** Inside the section a `repo:` line only sets the pending repository. */
  lemma RepoLineStep(lines: seq<string>, pending: Option<string>)
    requires lines != [] && !StartsWith(lines[0], SectionHeader) && RepoCapture(lines[0]).Some?
    ensures ParseLines(lines, true, pending) == ParseLines(lines[1..], true, Some(Trim(RepoCapture(lines[0]).value)))
  {
  }

  /** Inside the section a query line yields one entry carrying the pending
      repository, and clears it. */
  lemma QueryLineStep(lines: seq<string>, pending: Option<string>)
    requires lines != [] && IsQueryLine(lines[0])
    ensures ParseLines(lines, true, pending) == [QueryEntry(Trim(lines[0]), pending)] + ParseLines(lines[1..], true, None)
  {
  }

  /** A `repo:` line applies to the one query after it: that query carries
      the trimmed capture and the next one carries no repository. */
  lemma RepoAppliesOnce(lines: seq<string>, pending: Option<string>)
    requires |lines| >= 3
    requires !StartsWith(lines[0], SectionHeader) && RepoCapture(lines[0]).Some?
    requires IsQueryLine(lines[1]) && IsQueryLine(lines[2])
    ensures ParseLines(lines, true, pending)
         == [QueryEntry(Trim(lines[1]), Some(Trim(RepoCapture(lines[0]).value))), QueryEntry(Trim(lines[2]), None)]
            + ParseLines(lines[3..], true, None)
  {
    var repo := Some(Trim(RepoCapture(lines[0]).value));
    var l1 := lines[1..];
    var l2 := l1[1..];
    assert l1[0] == lines[1];
    assert l2[0] == lines[2] && l2[1..] == lines[3..];
    var e1 := QueryEntry(Trim(lines[1]), repo);
    var e2 := QueryEntry(Trim(lines[2]), None);
    var tail := ParseLines(lines[3..], true, None);
    RepoLineStep(lines, pending);
    QueryLineStep(l1, repo);
    QueryLineStep(l2, None);
    assert ParseLines(l2, true, None) == [e2] + tail;
    assert ParseLines(l1, true, repo) == [e1] + ([e2] + tail);
    assert [e1] + ([e2] + tail) == [e1, e2] + tail;
  }

  // ---------------------------------------------------------------------
  // getPreviousReflections
  // ---------------------------------------------------------------------

  /** The integers lo, lo+1, ..., hi-1. */
  function Range(lo: int, hi: int): (r: seq<int>)
    ensures |r| == if hi <= lo then 0 else hi - lo
    ensures forall k | 0 <= k < |r| :: r[k] == lo + k
    decreases hi - lo
  {
    if hi <= lo then [] else Range(lo, hi - 1) + [hi - 1]
  }

  function Max(a: int, b: int): int
  {
    if a >= b then a else b
  }

  /** The iterations whose reflections iteration `iteration` looks back on. */
  function Window(iteration: int, maxReflections: int): seq<int>
  {
    Range(Max(1, iteration - maxReflections), iteration)
  }

  /** The window is ascending, holds at most `maxReflections` iterations,
      starts no earlier than 1 and never reaches the current iteration. */
  lemma WindowBounds(iteration: int, maxReflections: int)
    ensures var w := Window(iteration, maxReflections);
      && |w| <= Max(0, maxReflections)
      && (forall k | 0 <= k < |w| :: 1 <= w[k] < iteration && w[k] >= iteration - maxReflections)
      && (forall a, b | 0 <= a < b < |w| :: w[a] < w[b])
  {
  }

  predicate AllDigits(s: string)
  {
    forall k | 0 <= k < |s| :: '0' <= s[k] <= '9'
  }

  /** The number a string of decimal digits denotes. */
  function DigitsValue(s: string): nat
    requires AllDigits(s)
  {
    if s == [] then 0
    else 10 * DigitsValue(s[..|s| - 1]) + (s[|s| - 1] as int - '0' as int)
  }

  /** `String(n)`: the decimal digits denoting `n`, with no leading zero. */
  function Decimal(n: nat): (s: string)
    ensures s != [] && AllDigits(s)
    ensures DigitsValue(s) == n
    ensures s[0] == '0' ==> s == "0"
  {
    var d := ['0', '1', '2', '3', '4', '5', '6', '7', '8', '9'][n % 10];
    if n < 10 then [d]
    else
      var front := Decimal(n / 10);
      assert (front + [d])[..|front|] == front;
      front + [d]
  }

  /** One block of the joined text. */
  function Block(i: nat, content: string): string
  {
    "### Iteration " + Decimal(i) + " Reflections\n" + content
  }

  predicate Ascending(xs: seq<int>)
  {
    forall a, b | 0 <= a < b < |xs| :: xs[a] < xs[b]
  }

  /** The iterations of `visited` whose reflections file exists, in the
      order visited. */
  function Stored(visited: seq<int>, stored: map<int, string>): (ks: seq<int>)
    ensures |ks| <= |visited|
    ensures forall i :: i in ks <==> i in visited && i in stored && i >= 0
    ensures forall k | 0 <= k < |ks| :: ks[k] >= 0 && ks[k] in stored
    ensures Ascending(visited) ==> Ascending(ks)
  {
    if visited == [] then []
    else
      var front := visited[..|visited| - 1];
      var last := visited[|visited| - 1];
      assert visited == front + [last];
      var ks := Stored(front, stored);
      AscendingFront(visited);
      ks + (if last in stored && last >= 0 then [last] else [])
  }

  /** In an ascending list every entry but the last is below the last, and
      those entries are ascending too. */
  lemma AscendingFront(visited: seq<int>)
    requires visited != []
    ensures var front := visited[..|visited| - 1];
      Ascending(visited) ==>
        Ascending(front) && forall x | x in front :: x < visited[|visited| - 1]
  {
    var front := visited[..|visited| - 1];
    if Ascending(visited) {
      forall x | x in front ensures x < visited[|visited| - 1] {
        var j :| 0 <= j < |front| && front[j] == x;
        assert visited[j] == x;
      }
    }
  }

  /** The blocks of the iterations in `visited` whose reflections file
      exists: one for each stored iteration, in the order visited. */
  function Gathered(visited: seq<int>, stored: map<int, string>): (r: seq<string>)
    ensures |r| <= |visited|
  {
    if visited == [] then []
    else
      var last := visited[|visited| - 1];
      Gathered(visited[..|visited| - 1], stored)
        + (if last in stored && last >= 0 then [Block(last, stored[last])] else [])
  }

  /** The gathered blocks are one per stored iteration of `visited`, in the
      order visited, each headed by its iteration number. */
  lemma {:induction false} GatheredBlocks(visited: seq<int>, stored: map<int, string>)
    ensures var r := Gathered(visited, stored);
      var ks := Stored(visited, stored);
      && |r| == |ks|
      && forall k | 0 <= k < |r| :: r[k] == Block(ks[k], stored[ks[k]])
  {
    if visited != [] {
      GatheredBlocks(visited[..|visited| - 1], stored);
    }
  }

  /** The blocks iteration `iteration` looks back on are those of the stored
      iterations from max(1, iteration - maxReflections) up to the one before
      it, in ascending order. */
  lemma WindowBlocks(iteration: int, maxReflections: int, stored: map<int, string>)
    ensures var ks := Stored(Window(iteration, maxReflections), stored);
      var r := Gathered(Window(iteration, maxReflections), stored);
      && |r| == |ks|
      && (forall k | 0 <= k < |r| :: r[k] == Block(ks[k], stored[ks[k]]))
      && Ascending(ks)
      && (forall i :: i in ks <==> Max(1, iteration - maxReflections) <= i < iteration && i in stored)
  {
    var w := Window(iteration, maxReflections);
    GatheredBlocks(w, stored);
    WindowBounds(iteration, maxReflections);
    forall i | Max(1, iteration - maxReflections) <= i < iteration
      ensures i in w
    {
      assert w[i - Max(1, iteration - maxReflections)] == i;
    }
  }

  /** `pieces.join(sep)` for a separator of any length. */
  function JoinWith(pieces: seq<string>, sep: string): string
  {
    if |pieces| == 0 then ""
    else if |pieces| == 1 then pieces[0]
    else pieces[0] + sep + JoinWith(pieces[1..], sep)
  }

  const ReflectionSeparator := "\n\n---\n\n"

  /** Extending the visited range by `i` adds `i`'s block when it has one. */
  lemma GatheredStep(lo: int, i: int, stored: map<int, string>)
    requires 1 <= lo <= i
    ensures Gathered(Range(lo, i + 1), stored)
         == Gathered(Range(lo, i), stored) + (if i in stored then [Block(i, stored[i])] else [])
  {
    var r := Range(lo, i + 1);
    assert r[..|r| - 1] == Range(lo, i);
  }

  /** `getPreviousReflections(iteration, maxReflections)`; `stored` holds the
      `reflections.md` of each earlier iteration that wrote one. */
  method PreviousReflections(iteration: int, maxReflections: int, stored: map<int, string>)
    returns (text: string)
    ensures text == JoinWith(Gathered(Window(iteration, maxReflections), stored), ReflectionSeparator)
  {
    var reflections: seq<string> := [];
    var startFrom := Max(1, iteration - maxReflections);
    var i := startFrom;
    while i < iteration
      invariant 1 <= startFrom <= i <= Max(startFrom, iteration)
      invariant reflections == Gathered(Range(startFrom, i), stored)
      decreases iteration - i
    {
      GatheredStep(startFrom, i, stored);
      if i in stored {
        reflections := reflections + [Block(i, stored[i])];
      }
      i := i + 1;
    }
    text := JoinWith(reflections, ReflectionSeparator);
  }

  /** Only iterations of the window that wrote reflections contribute, each
      at most once, so the feedback never exceeds `maxReflections` blocks. */
  lemma ReflectionCount(iteration: int, maxReflections: int, stored: map<int, string>)
    ensures |Gathered(Window(iteration, maxReflections), stored)| <= Max(0, maxReflections)
  {
    WindowBounds(iteration, maxReflections);
  }

  // ---------------------------------------------------------------------
  // safeQuery
  // ---------------------------------------------------------------------

  predicate IsAlnum(c: char)
  {
    ('a' <= c <= 'z') || ('A' <= c <= 'Z') || ('0' <= c <= '9')
  }

  /** `query.slice(0, 40).replace(/[^a-zA-Z0-9]/g, '_')`. */
  function SafeQuery(query: string): (r: string)
    ensures |r| <= 40 && |r| == if |query| < 40 then |query| else 40
    ensures forall k | 0 <= k < |r| :: IsAlnum(r[k]) || r[k] == '_'
    ensures forall k | 0 <= k < |r| :: IsAlnum(query[k]) ==> r[k] == query[k]
    ensures forall k | 0 <= k < |r| :: !IsAlnum(query[k]) ==> r[k] == '_'
  {
    var head := if |query| < 40 then query else query[..40];
    seq(|head|, k requires 0 <= k < |head| => if IsAlnum(head[k]) then head[k] else '_')
  }

  /** Sanitising twice changes nothing more. */
  lemma SafeQueryIdempotent(query: string)
    ensures SafeQuery(SafeQuery(query)) == SafeQuery(query)
  {
  }

  // ---------------------------------------------------------------------
  // Guards
  // ---------------------------------------------------------------------

  datatype Stop = NoQueries | TooFewQueries | AllGenerationsFailed | OutputTooShort

  /** `main`'s check of the parsed query list against QUERIES_TO_TEST. */
  function CheckQueries(queries: seq<QueryEntry>, queriesToTest: int): (r: Result<seq<QueryEntry>, Stop>)
    ensures r.Ok? <==> |queries| >= 1 && |queries| >= queriesToTest
    ensures |queries| == 0 ==> r == Err(NoQueries)
    ensures 0 < |queries| < queriesToTest ==> r == Err(TooFewQueries)
    ensures r.Ok? ==> r.value == queries
  {
    if |queries| == 0 then Err(NoQueries)
    else if |queries| < queriesToTest then Err(TooFewQueries)
    else Ok(queries)
  }

  /** `queries.slice(0, n)` with JavaScript's reading of a negative end. */
  function Selected(queries: seq<QueryEntry>, n: int): (r: seq<QueryEntry>)
    ensures |r| <= |queries| && r == queries[..|r|]
    ensures n >= 0 ==> |r| == if n < |queries| then n else |queries|
    ensures n < 0 ==> |r| == Max(0, |queries| + n)
  {
    var end := if n < 0 then Max(0, |queries| + n) else if n < |queries| then n else |queries|;
    queries[..end]
  }

  /** `runIteration`'s stop when no generation exited with status 0. */
  function CheckGenerations(exitCodes: seq<int>): (r: Result<(), Stop>)
    ensures r.Ok? <==> exists k | 0 <= k < |exitCodes| :: exitCodes[k] == 0
    ensures r.Err? ==> r.error == AllGenerationsFailed
  {
    if 0 in exitCodes then Ok(()) else Err(AllGenerationsFailed)
  }

  /** `runIteration`'s stop when the model's reflections or improved
      function are missing, or shorter than 50 characters once trimmed. */
  function CheckOutput(output: Option<string>): (r: Result<string, Stop>)
    ensures r.Ok? <==> output.Some? && |Trim(output.value)| >= 50
    ensures r.Ok? ==> r.value == output.value
    ensures r.Err? ==> r.error == OutputTooShort
  {
    if output.None? || |Trim(output.value)| < 50 then Err(OutputTooShort) else Ok(output.value)
  }

  /** Once `main` accepts the list, each iteration runs exactly the first
      QUERIES_TO_TEST queries. */
  lemma AcceptedListFillsSelection(queries: seq<QueryEntry>, queriesToTest: int)
    requires queriesToTest >= 0 && CheckQueries(queries, queriesToTest).Ok?
    ensures Selected(queries, queriesToTest) == queries[..queriesToTest]
  {
  }

  /** With QUERIES_TO_TEST at 0 `main` lets any non-empty list through, yet
      every iteration selects no query and so stops as if all generations
      had failed. */
  lemma ZeroSelectionAlwaysStops(queries: seq<QueryEntry>)
    requires CheckQueries(queries, 0).Ok?
    ensures Selected(queries, 0) == []
    ensures CheckGenerations([]) == Err(AllGenerationsFailed)
  {
  }
}

/** The code panel's language detection and line numbering
    (packages/viewer/src/components/CodePanel.tsx). */
module CodePanel {
  import opened Text
  import opened StoryModel

  /** `EXT_TO_LANGUAGE`: file-name suffix, dot included, to highlighter language. */
  const ExtToLanguage: map<string, string> := map[
    ".js" := "javascript", ".jsx" := "jsx", ".ts" := "typescript", ".tsx" := "tsx",
    ".py" := "python", ".rs" := "rust", ".go" := "go",
    ".c" := "c", ".h" := "c", ".cpp" := "cpp", ".hpp" := "cpp",
    ".css" := "css", ".scss" := "scss", ".less" := "less",
    ".json" := "json", ".yaml" := "yaml", ".yml" := "yaml", ".md" := "markdown",
    ".sql" := "sql", ".sh" := "bash", ".bash" := "bash",
    ".html" := "markup", ".xml" := "markup", ".svg" := "markup",
    ".makefile" := "makefile", ".diff" := "diff", ".graphql" := "graphql", ".gql" := "graphql",
    ".coffee" := "coffeescript", ".ml" := "ocaml", ".mli" := "ocaml", ".re" := "reason",
    ".wasm" := "wasm"
  ]

  /** The languages chosen when the table has no answer. */
  predicate IsFallback(lang: string)
  {
    lang == "python" || lang == "makefile" || lang == "bash"
  }

  /** `getLanguage(filePath)`. With no `.` anywhere in the path the last
      `/`-separated piece decides: `Makefile` or `makefile` is makefile,
      `Dockerfile` is bash, anything else python. Otherwise the text from the
      last `.` on is looked up in the table, case-sensitively, python when it
      is missing. */
  function GetLanguage(filePath: string): (lang: string)
    ensures lang in ExtToLanguage.Values || IsFallback(lang)
  {
    var dot := LastIndexOf(filePath, '.');
    if dot == -1 then
      var pieces := Split(filePath, '/');
      var base := pieces[|pieces| - 1];
      if base == "Makefile" || base == "makefile" then "makefile"
      else if base == "Dockerfile" then "bash"
      else "python"
    else
      var ext := filePath[dot..];
      if ext in ExtToLanguage then ExtToLanguage[ext] else "python"
  }

  /** Every key of the table is a dot followed by letters only. */
  lemma KeysAreDotExtensions()
    ensures forall ext | ext in ExtToLanguage ::
      |ext| >= 2 && ext[0] == '.' && forall k | 1 <= k < |ext| :: 'a' <= ext[k] <= 'z'
  {
  }

  /** The shape of one key: a dot, then lower-case letters. */
  lemma KeyShape(ext: string)
    requires ext in ExtToLanguage
    ensures |ext| >= 2 && ext[0] == '.'
    ensures forall k | 1 <= k < |ext| :: 'a' <= ext[k] <= 'z'
  {
    KeysAreDotExtensions();
  }

  /** For an undotted path the base name is what follows the last `/`. */
  lemma UndottedBaseName(filePath: string)
    requires '.' !in filePath
    ensures var b := filePath[LastIndexOf(filePath, '/') + 1..];
      GetLanguage(filePath) == (if b == "Makefile" || b == "makefile" then "makefile"
                                else if b == "Dockerfile" then "bash" else "python")
  {
    SplitLast(filePath, '/');
  }

  /** A path ending in a table suffix gets that suffix's language, whatever
      precedes it, dots included. */
  lemma ExtensionDecides(stem: string, ext: string)
    requires ext in ExtToLanguage
    ensures GetLanguage(stem + ext) == ExtToLanguage[ext]
  {
    KeyShape(ext);
    var p := stem + ext;
    assert p[|stem|] == '.';
    forall j | |stem| < j < |p| ensures p[j] != '.' {
      assert p[j] == ext[j - |stem|];
    }
    LastIndexOfUnique(p, '.', |stem|);
    assert p[|stem|..] == ext;
  }

  /** A `.` in a directory name hides the base-name rules: the suffix from
      the last `.` then holds a `/`, no table key does, and the answer is
      python, even for `a.b/Makefile`. */
  lemma DottedDirectoryFallsBack(filePath: string)
    requires '.' in filePath && '/' in filePath[LastIndexOf(filePath, '.')..]
    ensures GetLanguage(filePath) == "python"
  {
    var ext := filePath[LastIndexOf(filePath, '.')..];
    if ext in ExtToLanguage {
      KeyShape(ext);
      assert false;
    }
  }

  /** Any suffix the table lacks falls back to python: `notes.txt`,
      `Main.java` and `app.rb` are all highlighted as python. */
  lemma UnknownSuffixFallsBack(stem: string, ext: string)
    requires |ext| >= 1 && ext[0] == '.' && '.' !in ext[1..] && ext !in ExtToLanguage
    ensures GetLanguage(stem + ext) == "python"
  {
    var p := stem + ext;
    assert p[|stem|] == '.';
    forall j | |stem| < j < |p| ensures p[j] != '.' {
      assert p[j] == ext[j - |stem|] == ext[1..][j - |stem| - 1];
    }
    LastIndexOfUnique(p, '.', |stem|);
    assert p[|stem|..] == ext;
  }

  /** The lookup is case-sensitive: an upper-case suffix is not in the table. */
  lemma UpperCaseSuffixFallsBack(stem: string, ext: string)
    requires |ext| >= 2 && ext[0] == '.' && '.' !in ext[1..] && 'A' <= ext[1] <= 'Z'
    ensures GetLanguage(stem + ext) == "python"
  {
    if ext in ExtToLanguage {
      KeyShape(ext);
      assert false;
    }
    UnknownSuffixFallsBack(stem, ext);
  }

  /** The line numbers shown beside a snippet's rendered lines: the i-th
      line is numbered `startLine + i`. */
  function LineNumbers(snippet: Snippet, lineCount: nat): (numbers: seq<int>)
    ensures |numbers| == lineCount
    ensures forall i | 0 <= i < lineCount :: numbers[i] == snippet.startLine + i
  {
    seq(lineCount, i requires 0 <= i < lineCount => snippet.startLine + i)
  }

  /** When a snippet's content has as many lines as its range covers, the
      numbering runs from its start line to its end line. */
  lemma NumbersSpanRange(snippet: Snippet)
    requires |Split(snippet.content, '\n')| == snippet.endLine - snippet.startLine + 1
    ensures var n := LineNumbers(snippet, |Split(snippet.content, '\n')|);
      n[0] == snippet.startLine && n[|n| - 1] == snippet.endLine
  {
  }
}

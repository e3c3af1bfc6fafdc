/** The JavaScript string operations the modelled code relies on, with the
    semantics the ECMAScript standard gives them: `trim`, `includes`,
    `startsWith`, `endsWith`, `indexOf`, `lastIndexOf` and `split` on a
    one-character separator. Strings are sequences of characters. */
module Text {

  /** The characters JavaScript's `trim` removes and `\s` matches: the
      WhiteSpace and LineTerminator code points of ECMA-262. */
  predicate IsSpace(c: char)
  {
    || c == ' ' || c == '\t' || c == '\n' || c == '\r'
    || c == '\U{000B}' || c == '\U{000C}' || c == '\U{00A0}' || c == '\U{1680}'
    || ('\U{2000}' <= c <= '\U{200A}')
    || c == '\U{2028}' || c == '\U{2029}' || c == '\U{202F}' || c == '\U{205F}'
    || c == '\U{3000}' || c == '\U{FEFF}'
  }

  /** The line terminators: the characters `.` in a regular expression does not match. */
  predicate IsLineTerminator(c: char)
  {
    c == '\n' || c == '\r' || c == '\U{2028}' || c == '\U{2029}'
  }

  /** `\w` in a regular expression. */
  predicate IsWordChar(c: char)
  {
    ('a' <= c <= 'z') || ('A' <= c <= 'Z') || ('0' <= c <= '9') || c == '_'
  }

  /** `[0-9a-f]` under the case-insensitive flag. */
  predicate IsHexDigit(c: char)
  {
    ('0' <= c <= '9') || ('a' <= c <= 'f') || ('A' <= c <= 'F')
  }

  /** `s.startsWith(p)` */
  predicate StartsWith(s: string, p: string)
  {
    |p| <= |s| && s[..|p|] == p
  }

  /** `s.endsWith(p)` */
  predicate EndsWith(s: string, p: string)
  {
    |p| <= |s| && s[|s| - |p|..] == p
  }

  /** `t` occurs in `s` starting at position `i`. */
  predicate OccursAt(s: string, t: string, i: int)
  {
    0 <= i <= |s| - |t| && s[i..i + |t|] == t
  }

  /** `s.includes(t)`: `t` occurs in `s` as a contiguous substring. */
  predicate Contains(s: string, t: string)
  {
    exists i | 0 <= i <= |s| - |t| :: OccursAt(s, t, i)
  }

  /** Leading characters removed by `trimStart`. */
  function TrimStart(s: string): (r: string)
    ensures |r| <= |s| && r == s[|s| - |r|..]
    ensures forall i | 0 <= i < |s| - |r| :: IsSpace(s[i])
    ensures r == [] || !IsSpace(r[0])
  {
    if s != [] && IsSpace(s[0]) then TrimStart(s[1..]) else s
  }

  /** Trailing characters removed by `trimEnd`. */
  function TrimEnd(s: string): (r: string)
    ensures |r| <= |s| && r == s[..|r|]
    ensures forall i | |r| <= i < |s| :: IsSpace(s[i])
    ensures r == [] || !IsSpace(r[|r| - 1])
  {
    if s != [] && IsSpace(s[|s| - 1]) then TrimEnd(s[..|s| - 1]) else s
  }

  /** `s.trim()`: the longest substring that neither starts nor ends with
      white space, obtained by dropping white space from both ends. */
  function Trim(s: string): (r: string)
    ensures |r| <= |s|
    ensures r == [] || (!IsSpace(r[0]) && !IsSpace(r[|r| - 1]))
    ensures r == [] <==> forall i | 0 <= i < |s| :: IsSpace(s[i])
    ensures (forall i | 0 <= i < |s| :: !IsSpace(s[i])) ==> r == s
  {
    var t := TrimStart(s);
    var r := TrimEnd(t);
    assert r != [] ==> r[0] == t[0];
    r
  }

  /** `s.indexOf(c, from)`: the first position at or after `from` holding `c`, or -1. */
  function IndexFrom(s: string, c: char, from: nat): (r: int)
    requires from <= |s|
    ensures r == -1 || from <= r < |s|
    ensures r >= 0 ==> s[r] == c
    ensures forall j | from <= j < |s| && (r == -1 || j < r) :: s[j] != c
    decreases |s| - from
  {
    if from == |s| then -1
    else if s[from] == c then from
    else IndexFrom(s, c, from + 1)
  }

  /** `s.indexOf(c)`: the first position of `c`, or -1. */
  function IndexOf(s: string, c: char): (r: int)
    ensures -1 <= r < |s|
    ensures r == -1 <==> c !in s
    ensures r >= 0 ==> s[r] == c && c !in s[..r]
  {
    IndexFrom(s, c, 0)
  }

  /** The last position below `n` holding `c`, or -1. */
  function LastIndexBelow(s: string, c: char, n: nat): (r: int)
    requires n <= |s|
    ensures -1 <= r < n
    ensures r >= 0 ==> s[r] == c
    ensures forall j | r < j < n :: s[j] != c
  {
    if n == 0 then -1
    else if s[n - 1] == c then n - 1
    else LastIndexBelow(s, c, n - 1)
  }

  /** `s.lastIndexOf(c)`: the last position of `c`, or -1. */
  function LastIndexOf(s: string, c: char): (r: int)
    ensures -1 <= r < |s|
    ensures r == -1 <==> c !in s
    ensures r >= 0 ==> s[r] == c
    ensures forall j | r < j < |s| :: s[j] != c
  {
    LastIndexBelow(s, c, |s|)
  }

  /** The pieces of `s[from..]` between consecutive separators. */
  function SplitFrom(s: string, sep: char, from: nat): (r: seq<string>)
    requires from <= |s|
    ensures |r| >= 1
    decreases |s| - from
  {
    var i := IndexFrom(s, sep, from);
    if i < 0 then [s[from..]] else [s[from..i]] + SplitFrom(s, sep, i + 1)
  }

  /** `s.split(sep)` for a one-character separator: the pieces between
      consecutive separators, always at least one. */
  function Split(s: string, sep: char): (r: seq<string>)
    ensures |r| >= 1
  {
    SplitFrom(s, sep, 0)
  }

  /** `pieces.join(sep)` */
  function Join(pieces: seq<string>, sep: char): string
  {
    if |pieces| == 0 then ""
    else if |pieces| == 1 then pieces[0]
    else pieces[0] + [sep] + Join(pieces[1..], sep)
  }

  lemma {:induction false} SplitFromJoin(s: string, sep: char, from: nat)
    requires from <= |s|
    ensures Join(SplitFrom(s, sep, from), sep) == s[from..]
    decreases |s| - from
  {
    var i := IndexFrom(s, sep, from);
    if i >= 0 {
      var rest := SplitFrom(s, sep, i + 1);
      SplitFromJoin(s, sep, i + 1);
      var whole := [s[from..i]] + rest;
      assert whole[1..] == rest;
      assert s[from..] == s[from..i] + [sep] + s[i + 1..];
    }
  }

  /** Splitting loses nothing: joining the pieces gives back the string. */
  lemma SplitJoin(s: string, sep: char)
    ensures Join(Split(s, sep), sep) == s
  {
    SplitFromJoin(s, sep, 0);
  }

  lemma {:induction false} SplitFromLast(s: string, sep: char, from: nat)
    requires from <= |s|
    ensures var r := SplitFrom(s, sep, from);
            var l := LastIndexOf(s, sep);
            r[|r| - 1] == s[if l + 1 >= from then l + 1 else from..]
    decreases |s| - from
  {
    var i := IndexFrom(s, sep, from);
    var l := LastIndexOf(s, sep);
    var r := SplitFrom(s, sep, from);
    if i >= 0 {
      var rest := SplitFrom(s, sep, i + 1);
      SplitFromLast(s, sep, i + 1);
      assert l >= i;
      assert r == [s[from..i]] + rest;
      assert r[|r| - 1] == rest[|rest| - 1] == s[l + 1..];
    } else {
      assert l < from;
      assert r == [s[from..]];
    }
  }

  /** The last piece of a split (`split(sep).pop()`) is what follows the last separator. */
  lemma SplitLast(s: string, sep: char)
    ensures var r := Split(s, sep); r[|r| - 1] == s[LastIndexOf(s, sep) + 1..]
  {
    SplitFromLast(s, sep, 0);
  }

  /** The first position at or after `from` holding `c` is the one
      `indexOf` finds; with no such position it finds none. */
  lemma IndexFromUnique(s: string, c: char, from: nat, p: int)
    requires from <= |s|
    requires p == -1 || (from <= p < |s| && s[p] == c)
    requires forall j | from <= j < |s| && (p == -1 || j < p) :: s[j] != c
    ensures IndexFrom(s, c, from) == p
  {
  }

  /** A position holding `c` with no `c` after it (or -1 when there is no `c`
      at all) is the one `lastIndexOf` finds. */
  lemma LastIndexOfUnique(s: string, c: char, p: int)
    requires -1 <= p < |s| && (p >= 0 ==> s[p] == c)
    requires forall j | p < j < |s| :: s[j] != c
    ensures LastIndexOf(s, c) == p
  {
  }
}

/** The story viewer's chapter navigation
    (packages/viewer/src/components/StoryViewer.tsx): the current chapter
    index, moved by the previous/next handlers and by the keyboard. */
module StoryViewer {

  function Max(a: int, b: int): int
  {
    if a >= b then a else b
  }

  function Min(a: int, b: int): int
  {
    if a <= b then a else b
  }

  /** `goToPrev`'s update. */
  function PrevIndex(i: int): (j: int)
    ensures j >= 0 && j <= Max(i, 0)
    ensures i >= 1 ==> j == i - 1
  {
    Max(0, i - 1)
  }

  /** `goToNext`'s update for `n` chapters. */
  function NextIndex(i: int, n: int): (j: int)
    ensures j <= n - 1
    ensures i + 1 <= n - 1 ==> j == i + 1
    ensures i + 1 > n - 1 ==> j == n - 1
  {
    Min(n - 1, i + 1)
  }

  /** Away from the ends, previous undoes next and next undoes previous. */
  lemma PrevNextInverse(i: int, n: int)
    requires 0 <= i < n
    ensures i < n - 1 ==> PrevIndex(NextIndex(i, n)) == i
    ensures i > 0 ==> NextIndex(PrevIndex(i), n) == i
  {
  }

  /** JavaScript's `a <= b` on strings: lexicographic, a prefix first. */
  function LexLe(a: string, b: string): bool
  {
    if a == [] then true
    else if b == [] then false
    else if a[0] != b[0] then a[0] < b[0]
    else LexLe(a[1..], b[1..])
  }

  /** The digit branch's guard `key >= '1' && key <= '9'`. */
  predicate DigitGuard(key: string)
  {
    LexLe("1", key) && LexLe(key, "9")
  }

  /** The guard compares strings, not digits: it admits every key whose
      first character lies in `1`..`8`, whatever follows, and `9` alone. */
  lemma DigitGuardShape(key: string)
    ensures DigitGuard(key) <==> key != [] && '1' <= key[0] && (key[0] < '9' || key == "9")
  {
    assert "1"[1..] == [] && "9"[1..] == [];
    if key != [] {
      assert LexLe("1", key) <==> '1' <= key[0];
      assert LexLe(key, "9") <==> key[0] < '9' || (key[0] == '9' && key[1..] == []);
    }
  }

  predicate IsDigit(c: char)
  {
    '0' <= c <= '9'
  }

  /** The value of the leading decimal digits of `s`, read right to left
      over its first `len` characters. */
  function DigitsValue(s: string, len: nat): nat
    requires len <= |s|
    requires forall k | 0 <= k < len :: IsDigit(s[k])
  {
    if len == 0 then 0
    else
      assert IsDigit(s[len - 1]);
      10 * DigitsValue(s, len - 1) + (s[len - 1] as int - '0' as int)
  }

  /** How many decimal digits `s` starts with. */
  function DigitRun(s: string): (len: nat)
    ensures len <= |s|
    ensures forall k | 0 <= k < len :: IsDigit(s[k])
    ensures len < |s| ==> !IsDigit(s[len])
  {
    if s == [] || !IsDigit(s[0]) then 0 else 1 + DigitRun(s[1..])
  }

  /** `parseInt(key)` for a key that starts with a digit. */
  function ParseLeadingInt(key: string): (v: nat)
    requires key != [] && IsDigit(key[0])
    ensures '1' <= key[0] ==> v >= 1
  {
    var len := DigitRun(key);
    DigitsAtLeastFirst(key, len);
    DigitsValue(key, len)
  }

  /** The digits' value is at least that of their first digit. */
  lemma {:induction false} DigitsAtLeastFirst(s: string, len: nat)
    requires 1 <= len <= |s|
    requires forall k | 0 <= k < len :: IsDigit(s[k])
    ensures DigitsValue(s, len) >= s[0] as int - '0' as int
  {
    if len > 1 {
      DigitsAtLeastFirst(s, len - 1);
    }
  }

  /** The index after the key `key` is pressed at index `i` with `n`
      chapters. Every key other than those handled leaves it as it was. */
  function KeyEffect(i: int, n: int, key: string): (j: int)
    ensures n >= 1 && 0 <= i < n ==> 0 <= j < n
    ensures !(key in {"ArrowLeft", "h", "H", "ArrowRight", "l", "L", "Home", "End"} || DigitGuard(key)) ==> j == i
  {
    if key == "ArrowLeft" || key == "h" || key == "H" then PrevIndex(i)
    else if key == "ArrowRight" || key == "l" || key == "L" then NextIndex(i, n)
    else if key == "Home" then 0
    else if key == "End" then n - 1
    else if DigitGuard(key) then
      DigitGuardShape(key);
      var index := ParseLeadingInt(key) - 1;
      if index < n then index else i
    else i
  }

  /** A digit key `d` opens chapter `d` when there are that many, and does
      nothing otherwise. */
  lemma DigitKeyOpensChapter(i: int, n: int, d: char)
    requires '1' <= d <= '9'
    ensures var c := d as int - '1' as int;
      KeyEffect(i, n, [d]) == if c < n then c else i
  {
    DigitGuardShape([d]);
    assert DigitRun([d]) == 1;
    assert DigitsValue([d], 1) == d as int - '0' as int;
  }

  /** The movement keys act as the buttons do. */
  lemma MovementKeys(i: int, n: int)
    ensures KeyEffect(i, n, "h") == KeyEffect(i, n, "H") == KeyEffect(i, n, "ArrowLeft") == PrevIndex(i)
    ensures KeyEffect(i, n, "l") == KeyEffect(i, n, "L") == KeyEffect(i, n, "ArrowRight") == NextIndex(i, n)
    ensures KeyEffect(i, n, "Home") == 0 && KeyEffect(i, n, "End") == n - 1
  {
    assert "Home" != "ArrowLeft" && "End" != "ArrowLeft" && "End" != "ArrowRight" && "End" != "Home";
  }

  /** The current chapter of a story with `count` chapters. */
  class ChapterNavigator {
    var index: int
    const count: int

    /** In range whenever there is a chapter to show. */
    predicate Valid()
      reads this
    {
      count >= 1 ==> 0 <= index < count
    }

    /** `useState(0)`. */
    constructor (count: nat)
      ensures this.count == count && index == 0
      ensures Valid()
    {
      this.count := count;
      index := 0;
    }

    /** `goToPrev`. */
    method Prev()
      requires Valid()
      modifies this
      ensures index == PrevIndex(old(index))
      ensures Valid()
    {
      index := Max(0, index - 1);
    }

    /** `goToNext`. */
    method Next()
      requires Valid()
      modifies this
      ensures index == NextIndex(old(index), count)
      ensures Valid()
    {
      index := Min(count - 1, index + 1);
    }

    /** `handleKeyDown` for one key press. */
    method KeyDown(key: string)
      requires Valid()
      modifies this
      ensures index == KeyEffect(old(index), count, key)
      ensures Valid()
    {
      if key == "ArrowLeft" || key == "h" || key == "H" {
        Prev();
      } else if key == "ArrowRight" || key == "l" || key == "L" {
        Next();
      } else if key == "Home" {
        index := 0;
      } else if key == "End" {
        index := count - 1;
      } else if DigitGuard(key) {
        DigitGuardShape(key);
        var chosen := ParseLeadingInt(key) - 1;
        if chosen < count {
          index := chosen;
        }
      }
    }
  }
}

/** The story document the agent writes and the viewer reads
    (packages/viewer/src/types/index.ts), its manifest summary, and the
    story-id check the command-line ingestion applies. */
module StoryModel {
  import opened Wrappers
  import opened Text

  datatype Snippet = Snippet(filePath: string, startLine: int, endLine: int, content: string)

  /** A chapter; `caption` is the short sidebar label. */
  datatype Chapter = Chapter(id: string, caption: string, snippets: seq<Snippet>, explanation: string)

  datatype Story = Story(
    id: string,
    title: string,
    query: string,
    repo: Option<string>,
    commitHash: string,
    createdAt: string,
    chapters: seq<Chapter>)

  /** One manifest entry. */
  datatype Summary = Summary(id: string, title: string, commitHash: string, createdAt: string)

  /** The four-field summary the ingestion prepends to the manifest. */
  function SummaryOf(s: Story): Summary
  {
    Summary(s.id, s.title, s.commitHash, s.createdAt)
  }

  /** Positions of the hyphens in the 8-4-4-4-12 text form. */
  predicate IsHyphenPosition(i: int)
  {
    i == 8 || i == 13 || i == 18 || i == 23
  }

  /** The anchored, case-insensitive pattern
      `^[0-9a-f]{8}-[0-9a-f]{4}-[0-9a-f]{4}-[0-9a-f]{4}-[0-9a-f]{12}$`:
      36 characters, hyphens at 8, 13, 18 and 23, hexadecimal digits of
      either case everywhere else. Version and variant bits are not checked. */
  predicate IsUuid(s: string)
    ensures IsUuid(s) ==> |s| == 36 && forall i | 0 <= i < 36 :: s[i] == '-' <==> IsHyphenPosition(i)
  {
    && |s| == 36
    && forall i | 0 <= i < 36 :: if IsHyphenPosition(i) then s[i] == '-' else IsHexDigit(s[i])
  }

  /** The positional reading agrees with the pattern's own grouping: an id is
      accepted exactly when it is five runs of 8, 4, 4, 4 and 12 hexadecimal
      digits joined by single hyphens. */
  lemma {:induction false} UuidGroups(s: string)
    ensures IsUuid(s) <==>
      && |s| == 36
      && AllHex(s[0..8]) && s[8] == '-'
      && AllHex(s[9..13]) && s[13] == '-'
      && AllHex(s[14..18]) && s[18] == '-'
      && AllHex(s[19..23]) && s[23] == '-'
      && AllHex(s[24..36])
  {
    if |s| == 36 {
      if IsUuid(s) {
        HexSlice(s, 0, 8);
        HexSlice(s, 9, 13);
        HexSlice(s, 14, 18);
        HexSlice(s, 19, 23);
        HexSlice(s, 24, 36);
      }
      if && AllHex(s[0..8]) && s[8] == '-'
         && AllHex(s[9..13]) && s[13] == '-'
         && AllHex(s[14..18]) && s[18] == '-'
         && AllHex(s[19..23]) && s[23] == '-'
         && AllHex(s[24..36])
      {
        forall i | 0 <= i < 36 ensures if IsHyphenPosition(i) then s[i] == '-' else IsHexDigit(s[i]) {
          if i < 8 { assert s[i] == s[0..8][i]; }
          else if 8 < i < 13 { assert s[i] == s[9..13][i - 9]; }
          else if 13 < i < 18 { assert s[i] == s[14..18][i - 14]; }
          else if 18 < i < 23 { assert s[i] == s[19..23][i - 19]; }
          else if 23 < i { assert s[i] == s[24..36][i - 24]; }
        }
      }
    }
  }

  predicate AllHex(s: string)
  {
    forall k | 0 <= k < |s| :: IsHexDigit(s[k])
  }

  lemma HexSlice(s: string, a: nat, b: nat)
    requires a <= b <= |s| == 36
    requires forall i | a <= i < b :: !IsHyphenPosition(i)
    requires IsUuid(s)
    ensures AllHex(s[a..b])
  {
    forall k | 0 <= k < b - a ensures IsHexDigit(s[a..b][k]) {
      assert s[a..b][k] == s[a + k];
      assert !IsHyphenPosition(a + k);
    }
  }

  /** ASCII lower-casing of one character. */
  function LowerChar(c: char): char
  {
    if 'A' <= c <= 'Z' then (c as int + 32) as char else c
  }

  function Lower(s: string): (r: string)
    ensures |r| == |s|
    ensures forall i | 0 <= i < |s| :: r[i] == LowerChar(s[i])
  {
    seq(|s|, i requires 0 <= i < |s| => LowerChar(s[i]))
  }

  /** The check is case-insensitive: an id is accepted exactly when its
      lower-case form is. */
  lemma UuidCaseInsensitive(s: string)
    ensures IsUuid(s) <==> IsUuid(Lower(s))
  {
    var l := Lower(s);
    forall i | 0 <= i < |s| ensures (s[i] == '-' <==> l[i] == '-') && (IsHexDigit(s[i]) <==> IsHexDigit(l[i])) {
      assert l[i] == LowerChar(s[i]);
    }
  }

  /** The check refuses the id "not-a-uuid", the empty id and an id whose
      first group is one digit short. */
  lemma UuidRejects()
    ensures !IsUuid("not-a-uuid")
    ensures !IsUuid("")
    ensures !IsUuid("0123456-89ab-cdef-0123-456789abcdef0")
  {
    var shifted := "0123456-89ab-cdef-0123-456789abcdef0";
    assert shifted[7] == '-';
  }
}

/** The block-quote callout title of the explanation panel
    (`parseCalloutTitle` in packages/viewer/src/components/ExplanationPanel.tsx).
    A callout is titled either by a `[!type]` marker opening its text or by
    a bold `Title:` opening its first paragraph. */
module Callout {
  import opened Wrappers
  import opened Text

  /** The children handed to a rendered block quote. */
  datatype Node =
    | Str(text: string)                    // a text child
    | Scalar                               // a number, boolean or undefined
    | Null                                 // null, whose type is also `object`
    | Elem(tag: string, props: Props)      // an element such as `p` or `strong`
    | Arr(items: seq<Node>)                // several children

  /** An element's `props.children`, when it has any. */
  datatype Props = NoChildren | Children(node: Node)

  /** The parse: a title when one was found, and the content to show. */
  datatype Parsed = Parsed(title: Option<string>, content: Node)

  /** The length of the longest prefix of `s` whose characters satisfy `p`. */
  function Run(s: string, p: char -> bool): (len: nat)
    ensures len <= |s|
    ensures forall k | 0 <= k < len :: p(s[k])
    ensures len < |s| ==> !p(s[len])
  {
    if s == [] || !p(s[0]) then 0 else 1 + Run(s[1..], p)
  }

  /** A run ends at the first character that fails `p`. */
  lemma {:induction false} RunUnique(s: string, p: char -> bool, n: nat)
    requires n <= |s|
    requires forall k | 0 <= k < n :: p(s[k])
    requires n < |s| ==> !p(s[n])
    ensures Run(s, p) == n
  {
    if n > 0 {
      RunUnique(s[1..], p, n - 1);
    }
  }

  /** The pattern `^\[!(\w+)\]\s*`: the captured word and the length of the whole
      match, or `None`. `\w` cannot match `]`, so the word is the run of
      word characters after `[!`, and `\s*` takes every space after `]`. */
  function MarkerMatch(s: string): (r: Option<(string, nat)>)
    ensures r.Some? ==>
      var (word, len) := r.value;
      && word != [] && 3 + |word| <= len <= |s|
      && s[..2] == "[!" && s[2..2 + |word|] == word && s[2 + |word|] == ']'
      && (forall k | 0 <= k < |word| :: IsWordChar(word[k]))
      && (forall k | 3 + |word| <= k < len :: IsSpace(s[k]))
      && (len < |s| ==> !IsSpace(s[len]))
  {
    if |s| >= 2 && s[0] == '[' && s[1] == '!' then
      var e := 2 + Run(s[2..], IsWordChar);
      if e > 2 && e < |s| && s[e] == ']' then
        var len := e + 1 + Run(s[e + 1..], IsSpace);
        assert forall k | 2 <= k < e :: s[k] == s[2..][k - 2];
        assert forall k | e + 1 <= k < len :: s[k] == s[e + 1..][k - e - 1];
        Some((s[2..e], len))
      else None
    else None
  }

  /** Every `[!word]` marker is recognised, with its word and the spaces
      after it. */
  lemma MarkerComplete(word: string, spaces: string, rest: string)
    requires word != [] && forall k | 0 <= k < |word| :: IsWordChar(word[k])
    requires forall k | 0 <= k < |spaces| :: IsSpace(spaces[k])
    requires rest == [] || !IsSpace(rest[0])
    ensures MarkerMatch("[!" + word + "]" + spaces + rest) == Some((word, 3 + |word| + |spaces|))
  {
    var s := "[!" + word + "]" + spaces + rest;
    var e := 2 + |word|;
    assert s[2..] == word + "]" + spaces + rest;
    RunUnique(s[2..], IsWordChar, |word|);
    assert s[e + 1..] == spaces + rest;
    RunUnique(s[e + 1..], IsSpace, |spaces|);
    assert s[2..e] == word;
  }

  /** `toUpperCase` on one word character: only `a`..`z` change. */
  function UpperWordChar(c: char): (u: char)
    requires IsWordChar(c)
    ensures IsWordChar(u)
    ensures 'a' <= c <= 'z' ==> 'A' <= u <= 'Z' && u as int - 'A' as int == c as int - 'a' as int
    ensures !('a' <= c <= 'z') ==> u == c
  {
    if 'a' <= c <= 'z' then (c as int - 'a' as int + 'A' as int) as char else c
  }

  /** `charAt(0).toUpperCase() + slice(1)` on a captured word. */
  function Capitalized(word: string): (t: string)
    requires word != [] && forall k | 0 <= k < |word| :: IsWordChar(word[k])
    ensures |t| == |word| && t[1..] == word[1..] && t[0] == UpperWordChar(word[0])
  {
    [UpperWordChar(word[0])] + word[1..]
  }

  /** `Array.isArray(children) ? children : [children]`. */
  function AsArray(children: Node): (items: seq<Node>)
    ensures children.Arr? ==> items == children.items
    ensures !children.Arr? ==> items == [children]
  {
    if children.Arr? then children.items else [children]
  }

  /** The text of a `strong` element's children ending in `:`, when
      `first` is a `p` whose first child is such a `strong`. */
  function BoldLabel(first: Node): Option<string>
  {
    if first.Elem? && first.tag == "p" && first.props.Children? && first.props.node.Arr?
       && first.props.node.items != [] then
      var inner := first.props.node.items[0];
      if inner.Elem? && inner.tag == "strong" && inner.props.Children? && inner.props.node.Str?
         && EndsWith(inner.props.node.text, ":") then
        Some(inner.props.node.text)
      else None
    else None
  }

  /** `parseCalloutTitle`. */
  function ParseCalloutTitle(children: Node): (r: Parsed)
    ensures children.Str? || children.Scalar? ==> r == Parsed(None, children)
    ensures r.title.None? ==> r.content == children
    ensures r.title.Some? ==> r.content.Arr?
  {
    if children.Str? || children.Scalar? then Parsed(None, children)
    else
      var items := AsArray(children);
      var first := if items == [] then Scalar else items[0];
      var marker := if first.Str? then MarkerMatch(first.text) else None;
      if marker.Some? then
        var (word, len) := marker.value;
        var remaining := first.text[len..];
        Parsed(Some(Capitalized(word)),
               Arr(if remaining != "" then [Str(remaining)] + items[1..] else items[1..]))
      else
        var bold := BoldLabel(first);
        if bold.Some? then
          Parsed(Some(bold.value[..|bold.value| - 1]), Arr(items))
        else
          Parsed(None, children)
  }

  /** A quote opening with `[!word]` is titled by the word with its first
      letter in upper case; the content drops the marker and the spaces
      after it, and drops the opening text altogether when nothing else is
      left of it. */
  lemma MarkerTitles(word: string, spaces: string, rest: string, tail: seq<Node>)
    requires word != [] && forall k | 0 <= k < |word| :: IsWordChar(word[k])
    requires forall k | 0 <= k < |spaces| :: IsSpace(spaces[k])
    requires rest == [] || !IsSpace(rest[0])
    ensures var r := ParseCalloutTitle(Arr([Str("[!" + word + "]" + spaces + rest)] + tail));
      && r.title == Some(Capitalized(word))
      && r.content == Arr(if rest == [] then tail else [Str(rest)] + tail)
  {
    var text := "[!" + word + "]" + spaces + rest;
    MarkerComplete(word, spaces, rest);
    assert text[3 + |word| + |spaces|..] == rest;
    assert ([Str(text)] + tail)[1..] == tail;
  }

  /** A quote whose first paragraph opens with a bold `Title:` is titled
      `Title`, and its children are kept whole. */
  lemma BoldTitles(title: string, pRest: seq<Node>, tail: seq<Node>)
    ensures var first := Elem("p", Children(Arr([Elem("strong", Children(Str(title + ":")))] + pRest)));
      ParseCalloutTitle(Arr([first] + tail)) == Parsed(Some(title), Arr([first] + tail))
  {
    assert (title + ":")[..|title|] == title;
  }

  /** Nothing else is a title: an opening text child without a marker, or
      an opening element that is not such a paragraph, leaves the quote as
      it is. */
  lemma UntitledUnchanged(children: Node)
    requires children.Arr? && children.items != []
    requires children.items[0].Str? ==> MarkerMatch(children.items[0].text).None?
    requires BoldLabel(children.items[0]).None?
    ensures ParseCalloutTitle(children) == Parsed(None, children)
  {
  }
}

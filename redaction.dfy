/**
 * Redaction of a game title inside review text.  The page builds a global,
 * case-insensitive regular expression from the title with every metacharacter
 * backslash-escaped, and replaces each match by a span that hides it (while the
 * title is still blurred) or shows it in bold.  Here the markup is replaced by
 * tagged segments: concatenating their texts gives back the review text.
 */
module Redaction {
  import opened Wrappers
  import opened Text

  datatype Segment = Plain(text: string) | Hidden(text: string) | Bold(text: string)

  function Concat(segs: seq<Segment>): string {
    if segs == [] then [] else segs[0].text + Concat(segs[1..])
  }

  /** The characters the page escapes before building the regular expression. */
  predicate IsRegExpMeta(c: char) {
    c == '.' || c == '*' || c == '+' || c == '?' || c == '^' || c == '$' || c == '{' ||
    c == '}' || c == '(' || c == ')' || c == '|' || c == '[' || c == ']' || c == '\\'
  }

  predicate NoMeta(s: string) {
    forall i :: 0 <= i < |s| ==> !IsRegExpMeta(s[i])
  }

  /** Puts a backslash before every metacharacter; a title without one is used as it is. */
  function EscapeRegExp(t: string): (p: string)
    ensures |p| >= |t|
    ensures p == t <==> NoMeta(t)
  {
    if t == [] then [] else (if IsRegExpMeta(t[0]) then ['\\', t[0]] else [t[0]]) + EscapeRegExp(t[1..])
  }

  function Prepend(c: char, o: Option<string>): Option<string> {
    match o
    case Some(s) => Some([c] + s)
    case None => None
  }

  /**
   * The one string a pattern matches when it is made of ordinary characters
   * and backslash-escaped metacharacters only; `None` for a pattern that uses
   * any other regular-expression syntax, which this model does not interpret.
   */
  function PatternLiteral(p: string): Option<string> {
    if p == [] then Some([])
    else if p[0] == '\\' then
      if |p| >= 2 && IsRegExpMeta(p[1]) then Prepend(p[1], PatternLiteral(p[2..])) else None
    else if IsRegExpMeta(p[0]) then None
    else Prepend(p[0], PatternLiteral(p[1..]))
  }

  /** The escaped title is a pattern that stands for exactly the title. */
  lemma {:induction false} EscapedPatternIsLiteral(t: string)
    ensures PatternLiteral(EscapeRegExp(t)) == Some(t)
  {
    if t != [] {
      EscapedPatternIsLiteral(t[1..]);
      var p := EscapeRegExp(t);
      if IsRegExpMeta(t[0]) {
        assert p[0] == '\\' && p[1] == t[0] && p[2..] == EscapeRegExp(t[1..]);
      } else {
        assert p[0] == t[0] && p[1..] == EscapeRegExp(t[1..]);
        assert PatternLiteral(p) == Prepend(t[0], PatternLiteral(p[1..]));
      }
      assert [t[0]] + t[1..] == t;
    }
  }

  /** A case-insensitive occurrence of `lit` starts at position `i`. */
  predicate MatchAt(text: string, lit: string, i: nat) {
    i + |lit| <= |text| && FoldEq(text[i..i + |lit|], lit)
  }

  predicate NoMatchIn(text: string, lit: string, lo: nat, hi: nat) {
    forall j: nat :: lo <= j < hi ==> !MatchAt(text, lit, j)
  }

  function Mark(s: string, blurred: bool): Segment {
    if blurred then Hidden(s) else Bold(s)
  }

  /** One segment of the replace's output is correct at position `off`. */
  predicate SegmentAt(seg: Segment, text: string, lit: string, blurred: bool, off: nat) {
    match seg
    case Plain(s) =>
      s != [] && off + |s| <= |text| && text[off..off + |s|] == s && NoMatchIn(text, lit, off, off + |s|)
    case Hidden(s) =>
      blurred && MatchAt(text, lit, off) && s == text[off..off + |lit|]
    case Bold(s) =>
      !blurred && MatchAt(text, lit, off) && s == text[off..off + |lit|]
  }

  /**
   * `segs` is the segmentation of `text[off..]` that a left-to-right global
   * replace of `lit` produces: a marked segment is an occurrence, tagged by
   * `blurred`; a plain segment is a non-empty run in which no occurrence starts,
   * and it runs up to the next marked segment or to the end of the text.
   */
  predicate Tiles(segs: seq<Segment>, text: string, lit: string, blurred: bool, off: nat)
    decreases |segs|
  {
    if segs == [] then off == |text|
    else
      SegmentAt(segs[0], text, lit, blurred, off) &&
      (segs[0].Plain? ==> |segs| == 1 || !segs[1].Plain?) &&
      Tiles(segs[1..], text, lit, blurred, off + |segs[0].text|)
  }

  lemma TilesCons(seg: Segment, rest: seq<Segment>, text: string, lit: string, blurred: bool, off: nat)
    requires SegmentAt(seg, text, lit, blurred, off)
    requires seg.Plain? ==> rest == [] || !rest[0].Plain?
    requires Tiles(rest, text, lit, blurred, off + |seg.text|)
    ensures Tiles([seg] + rest, text, lit, blurred, off)
  {
    assert ([seg] + rest)[1..] == rest;
  }

  lemma TilesEnd(segs: seq<Segment>, text: string, lit: string, blurred: bool, off: nat)
    requires Tiles(segs, text, lit, blurred, off)
    ensures off <= |text|
    decreases |segs|
  {
    if segs != [] {
      TilesEnd(segs[1..], text, lit, blurred, off + |segs[0].text|);
    }
  }

  function PlainRun(s: string): seq<Segment> {
    if s == [] then [] else [Plain(s)]
  }

  /**
   * The replace loop: `text[start..i]` has been scanned without finding an
   * occurrence; look for one at `i`, and after an occurrence resume behind it.
   */
  function Scan(text: string, lit: string, blurred: bool, start: nat, i: nat): (r: seq<Segment>)
    requires lit != [] && start <= i <= |text|
    requires NoMatchIn(text, lit, start, i)
    ensures Tiles(r, text, lit, blurred, start)
    decreases |text| - i
  {
    if MatchAt(text, lit, i) then
      var rest := Scan(text, lit, blurred, i + |lit|, i + |lit|);
      EmitTiles(text, lit, blurred, start, i, rest);
      Emit(text, lit, blurred, start, i, rest)
    else if i < |text| then
      Scan(text, lit, blurred, start, i + 1)
    else
      TilesPlainTail(text, lit, blurred, start);
      PlainRun(text[start..])
  }

  /** The segments for an occurrence at `i`: the plain run before it, if any, then the marked occurrence. */
  function Emit(text: string, lit: string, blurred: bool, start: nat, i: nat, rest: seq<Segment>): seq<Segment>
    requires start <= i && i + |lit| <= |text|
  {
    var m := Mark(text[i..i + |lit|], blurred);
    if start == i then [m] + rest else [Plain(text[start..i])] + ([m] + rest)
  }

  lemma EmitTiles(text: string, lit: string, blurred: bool, start: nat, i: nat, rest: seq<Segment>)
    requires start <= i && MatchAt(text, lit, i) && NoMatchIn(text, lit, start, i)
    requires Tiles(rest, text, lit, blurred, i + |lit|)
    ensures Tiles(Emit(text, lit, blurred, start, i, rest), text, lit, blurred, start)
  {
    var m := Mark(text[i..i + |lit|], blurred);
    assert |m.text| == |lit|;
    TilesCons(m, rest, text, lit, blurred, i);
    if start < i {
      var p := Plain(text[start..i]);
      PlainSegmentAt(text, lit, blurred, start, i);
      assert start + |p.text| == i;
      TilesCons(p, [m] + rest, text, lit, blurred, start);
      assert Emit(text, lit, blurred, start, i, rest) == [p] + ([m] + rest);
    } else {
      assert Emit(text, lit, blurred, start, i, rest) == [m] + rest;
    }
  }

  lemma PlainSegmentAt(text: string, lit: string, blurred: bool, start: nat, i: nat)
    requires start < i <= |text| && NoMatchIn(text, lit, start, i)
    ensures SegmentAt(Plain(text[start..i]), text, lit, blurred, start)
  {
    var p := text[start..i];
    assert start + |p| == i;
  }

  lemma TilesPlainTail(text: string, lit: string, blurred: bool, start: nat)
    requires start <= |text| && NoMatchIn(text, lit, start, |text|)
    ensures Tiles(PlainRun(text[start..]), text, lit, blurred, start)
  {
    if start < |text| {
      assert text[start..start + |text[start..]|] == text[start..];
      TilesCons(Plain(text[start..]), [], text, lit, blurred, start);
      assert [Plain(text[start..])] + [] == PlainRun(text[start..]);
    }
  }

  /** `blurTitleInText`: an empty title leaves the text as one plain segment. */
  function Redact(text: string, title: string, blurred: bool): (r: seq<Segment>)
    ensures Concat(r) == text
    ensures title == "" ==> r == [Plain(text)]
    ensures title != "" ==> Tiles(r, text, title, blurred, 0)
  {
    if title == "" then [Plain(text)]
    else
      EscapedPatternIsLiteral(title);
      var lit := PatternLiteral(EscapeRegExp(title)).value;
      var r := Scan(text, lit, blurred, 0, 0);
      TilesConcat(r, text, lit, blurred, 0);
      r
  }

  lemma {:induction false} TilesConcat(segs: seq<Segment>, text: string, lit: string, blurred: bool, off: nat)
    requires Tiles(segs, text, lit, blurred, off)
    ensures off <= |text| && Concat(segs) == text[off..]
    decreases |segs|
  {
    if segs != [] {
      var n := |segs[0].text|;
      TilesConcat(segs[1..], text, lit, blurred, off + n);
      assert segs[0].text == text[off..off + n];
      assert text[off..] == text[off..off + n] + text[off + n..];
    }
  }

  /** Every marked segment is an occurrence of the title, hidden exactly when blurred. */
  lemma {:induction false} TilesMarks(segs: seq<Segment>, text: string, lit: string, blurred: bool, off: nat, k: nat)
    requires Tiles(segs, text, lit, blurred, off)
    requires k < |segs| && !segs[k].Plain?
    ensures FoldEq(segs[k].text, lit)
    ensures segs[k].Hidden? <==> blurred
    decreases |segs|
  {
    if k > 0 {
      TilesMarks(segs[1..], text, lit, blurred, off + |segs[0].text|, k - 1);
    }
  }

  /** The segmentation is determined by the text, the title and the blur flag. */
  lemma {:induction false} TilesUnique(a: seq<Segment>, b: seq<Segment>, text: string, lit: string, blurred: bool, off: nat)
    requires lit != []
    requires Tiles(a, text, lit, blurred, off) && Tiles(b, text, lit, blurred, off)
    ensures a == b
    decreases |text| - off
  {
    if a != [] && b != [] && a[0].Plain? == b[0].Plain? {
      var s, t := a[0].text, b[0].text;
      if a[0].Plain? {
        PlainRunEnds(a, text, lit, blurred, off);
        PlainRunEnds(b, text, lit, blurred, off);
      }
      assert |s| == |t|;
      TilesUnique(a[1..], b[1..], text, lit, blurred, off + |s|);
      assert a == [a[0]] + a[1..] && b == [b[0]] + b[1..];
    }
  }

  /** A plain run ends at the end of the text or where an occurrence starts. */
  lemma PlainRunEnds(segs: seq<Segment>, text: string, lit: string, blurred: bool, off: nat)
    requires Tiles(segs, text, lit, blurred, off)
    requires segs != [] && segs[0].Plain?
    ensures off + |segs[0].text| == |text| || MatchAt(text, lit, off + |segs[0].text|)
  {
  }

  /** Any segmentation meeting the specification is the one the page produces. */
  lemma RedactCharacterized(text: string, title: string, blurred: bool, segs: seq<Segment>)
    requires title != "" && Tiles(segs, text, title, blurred, 0)
    ensures Redact(text, title, blurred) == segs
  {
    TilesUnique(Redact(text, title, blurred), segs, text, title, blurred, 0);
  }

  /** Each marked span is the title up to letter case, hidden exactly while the title is blurred. */
  lemma RedactMarks(text: string, title: string, blurred: bool)
    ensures forall k :: 0 <= k < |Redact(text, title, blurred)| && !Redact(text, title, blurred)[k].Plain? ==>
      FoldEq(Redact(text, title, blurred)[k].text, title) && (Redact(text, title, blurred)[k].Hidden? <==> blurred)
  {
    var r := Redact(text, title, blurred);
    forall k | 0 <= k < |r| && !r[k].Plain?
      ensures FoldEq(r[k].text, title) && (r[k].Hidden? <==> blurred)
    {
      TilesMarks(r, text, title, blurred, 0, k);
    }
  }

  /** No occurrence starts where the first letter already differs. */
  lemma FirstLetterDiffers(text: string, lit: string, j: nat)
    requires lit != [] && j < |text| && LowerChar(text[j]) != LowerChar(lit[0])
    ensures !MatchAt(text, lit, j)
  {
  }

  /** The title inside a sentence is hidden while blurred and bold once revealed. */
  lemma PortalSentence(text: string, title: string, blurred: bool)
    requires text == "I love Portal so much" && title == "Portal"
    ensures Redact(text, title, blurred) == [Plain("I love "), Mark("Portal", blurred), Plain(" so much")]
  {
    assert LowerChar(title[0]) == 'p';
    forall j: nat | j < 7 || 13 <= j < 21
      ensures !MatchAt(text, title, j)
    {
      assert text[j] != 'p' && text[j] != 'P';
      FirstLetterDiffers(text, title, j);
    }
    var one, two, three := Plain(text[0..7]), Mark(text[7..13], blurred), Plain(text[13..21]);
    assert text[0..7] == "I love " && text[7..13] == title && text[13..21] == " so much";
    TilesCons(three, [], text, title, blurred, 13);
    var tail := [two] + [three];
    TilesCons(two, [three], text, title, blurred, 7);
    PlainSegmentAt(text, title, blurred, 0, 7);
    TilesCons(one, tail, text, title, blurred, 0);
    var segs := [one] + tail;
    assert segs == [Plain("I love "), Mark("Portal", blurred), Plain(" so much")];
    RedactCharacterized(text, title, blurred, segs);
  }
}

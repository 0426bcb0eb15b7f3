/**
 * The title normalizer of the React page and the guess match built on it:
 * delete decorative marks, collapse whitespace runs to one space, trim, and
 * lower-case.  A guess matches when both sides normalize to the same string.
 */
module TitleNormalizer {
  import opened Wrappers
  import opened Text

  /**
   * The marks the normalizer deletes: trademark, registered, copyright and sound
   * recording copyright signs, degree, middle dot, bullet, daggers, section and
   * pilcrow signs, ellipsis, per-mille and per-ten-thousand, asterism and two
   * asterisks, hyphen bullet, double question and exclamation marks, the
   * superscripts (U+2070 to U+207F and the Latin-1 digits one to three) and the colon.
   */
  predicate IsMark(c: char) {
    c == ':' || c == '\U{2122}' || c == '\U{AE}' || c == '\U{A9}' || c == '\U{2117}' ||
    c == '\U{B0}' || c == '\U{B7}' || c == '\U{2022}' || c == '\U{2020}' || c == '\U{2021}' ||
    c == '\U{A7}' || c == '\U{B6}' || c == '\U{2026}' || c == '\U{2030}' || c == '\U{2031}' ||
    c == '\U{2042}' || c == '\U{2043}' || c == '\U{2047}' || c == '\U{2048}' || c == '\U{2049}' ||
    c == '\U{2051}' || c == '\U{B9}' || c == '\U{B2}' || c == '\U{B3}' ||
    ('\U{2070}' <= c <= '\U{207F}')
  }

  predicate NoMarks(s: string) {
    forall i :: 0 <= i < |s| ==> !IsMark(s[i])
  }

  /** Whitespace occurs only as single spaces. */
  predicate SingleSpaced(s: string) {
    (forall i :: 0 <= i < |s| && IsWhitespace(s[i]) ==> s[i] == ' ') &&
    (forall i, j :: 0 <= i < |s| && 0 <= j < |s| && j == i + 1 ==> !IsWhitespace(s[i]) || !IsWhitespace(s[j]))
  }

  predicate NoUpper(s: string) {
    forall i :: 0 <= i < |s| ==> !IsUpper(s[i])
  }

  /** The shape of every normalized title. */
  predicate IsNormalized(s: string) {
    NoMarks(s) && SingleSpaced(s) && NoUpper(s) && Trimmed(s)
  }

  /** Deletes every mark and keeps the other characters in order. */
  function StripMarks(s: string): (r: string)
    ensures NoMarks(r)
    ensures |r| <= |s|
  {
    if s == [] then [] else (if IsMark(s[0]) then [] else [s[0]]) + StripMarks(s[1..])
  }

  /** A string without marks is left alone. */
  lemma {:induction false} StripClean(s: string)
    requires NoMarks(s)
    ensures StripMarks(s) == s
  {
    if s != [] {
      StripClean(s[1..]);
    }
  }

  /** Replaces every maximal run of whitespace by one space. */
  function CollapseWhitespace(s: string): (r: string)
    ensures |r| <= |s| && (r == [] <==> s == [])
    ensures s != [] ==> r[0] == if IsWhitespace(s[0]) then ' ' else s[0]
    decreases |s|
  {
    if s == [] then []
    else if IsWhitespace(s[0]) then " " + CollapseWhitespace(TrimStart(s[1..]))
    else [s[0]] + CollapseWhitespace(s[1..])
  }

  /** A character in front of a single-spaced string keeps it single-spaced unless it doubles a blank. */
  lemma ConsSingleSpaced(h: char, c: string)
    requires SingleSpaced(c) && (IsWhitespace(h) ==> h == ' ')
    requires IsWhitespace(h) && c != [] ==> !IsWhitespace(c[0])
    ensures SingleSpaced([h] + c)
  {
    var r := [h] + c;
    forall k | 0 <= k < |r| && IsWhitespace(r[k]) ensures r[k] == ' ' {
      if k > 0 {
        assert r[k] == c[k - 1];
      }
    }
    forall k, l | 0 <= k < |r| && 0 <= l < |r| && l == k + 1
      ensures !IsWhitespace(r[k]) || !IsWhitespace(r[l])
    {
      if k > 0 {
        assert r[k] == c[k - 1] && r[l] == c[l - 1];
      }
    }
  }

  lemma ConsNoMarks(h: char, c: string)
    requires NoMarks(c) && !IsMark(h)
    ensures NoMarks([h] + c)
  {
    var r := [h] + c;
    forall k | 0 <= k < |r| ensures !IsMark(r[k]) {
      if k > 0 {
        assert r[k] == c[k - 1];
      }
    }
  }

  lemma SuffixNoMarks(s: string, k: nat)
    requires k <= |s| && NoMarks(s)
    ensures NoMarks(s[k..])
  {
    forall m | 0 <= m < |s| - k ensures !IsMark(s[k..][m]) {
      assert s[k..][m] == s[k + m];
    }
  }

  /** Collapsing leaves single spaces only, and brings in no mark. */
  lemma {:induction false} CollapseShape(s: string)
    ensures SingleSpaced(CollapseWhitespace(s))
    ensures NoMarks(s) ==> NoMarks(CollapseWhitespace(s))
    decreases |s|
  {
    if s != [] {
      var t := if IsWhitespace(s[0]) then TrimStart(s[1..]) else s[1..];
      var h := if IsWhitespace(s[0]) then ' ' else s[0];
      CollapseShape(t);
      var c := CollapseWhitespace(t);
      assert CollapseWhitespace(s) == [h] + c;
      ConsSingleSpaced(h, c);
      if NoMarks(s) {
        SuffixNoMarks(s, 1);
        SuffixNoMarks(s[1..], LeadingBlanks(s[1..]));
        ConsNoMarks(h, c);
      }
    }
  }

  /** `normalizeTitle`: `None` stands for a missing (undefined) argument. */
  function NormalizeTitle(s: Option<string>): (r: string)
    ensures s == None || s == Some("") ==> r == ""
  {
    if s == None || s.value == "" then ""
    else ToLower(Trim(CollapseWhitespace(StripMarks(s.value))))
  }

  /** Every result of the normalizer has the normalized shape. */
  lemma NormalizedShape(s: Option<string>)
    ensures IsNormalized(NormalizeTitle(s))
  {
    if s != None && s.value != "" {
      var c := CollapseWhitespace(StripMarks(s.value));
      CollapseShape(StripMarks(s.value));
      TrimKeepsShape(c);
      LowerKeepsShape(Trim(c));
    }
  }

  /** A guess is correct exactly when it normalizes to the title's normal form; every title matches itself. */
  function TitlesMatch(guess: string, title: string): (b: bool)
    ensures guess == title ==> b
  {
    NormalizeTitle(Some(guess)) == NormalizeTitle(Some(title))
  }

  lemma SliceKeepsShape(s: string, i: nat, j: nat)
    requires i <= j <= |s| && NoMarks(s) && SingleSpaced(s)
    ensures NoMarks(s[i..j]) && SingleSpaced(s[i..j])
  {
    var r := s[i..j];
    forall k | 0 <= k < |r|
      ensures !IsMark(r[k]) && (IsWhitespace(r[k]) ==> r[k] == ' ')
    {
      assert r[k] == s[i + k];
    }
    forall k, l | 0 <= k < |r| && 0 <= l < |r| && l == k + 1
      ensures !IsWhitespace(r[k]) || !IsWhitespace(r[l])
    {
      assert r[k] == s[i + k] && r[l] == s[i + l];
    }
  }

  lemma TrimKeepsShape(s: string)
    requires NoMarks(s) && SingleSpaced(s)
    ensures NoMarks(Trim(s)) && SingleSpaced(Trim(s)) && Trimmed(Trim(s))
  {
    TrimSlice(s);
    var i, j :| 0 <= i <= j <= |s| && Trim(s) == s[i..j];
    SliceKeepsShape(s, i, j);
  }

  lemma LowerKeepsShape(s: string)
    requires NoMarks(s) && SingleSpaced(s) && Trimmed(s)
    ensures IsNormalized(ToLower(s))
  {
    var r := ToLower(s);
    forall k | 0 <= k < |r|
      ensures !IsMark(r[k]) && IsWhitespace(r[k]) == IsWhitespace(s[k]) && (IsWhitespace(r[k]) ==> r[k] == ' ')
    {
      MarkLower(s[k]);
      WhitespaceLower(s[k]);
    }
    forall k, l | 0 <= k < |r| && 0 <= l < |r| && l == k + 1
      ensures !IsWhitespace(r[k]) || !IsWhitespace(r[l])
    {
      assert IsWhitespace(r[k]) == IsWhitespace(s[k]) && IsWhitespace(r[l]) == IsWhitespace(s[l]);
    }
  }

  lemma {:induction false} CollapseSingleSpaced(s: string)
    requires SingleSpaced(s)
    ensures CollapseWhitespace(s) == s
  {
    if s != [] {
      assert SingleSpaced(s[1..]) by {
        var t := s[1..];
        forall k | 0 <= k < |t|
          ensures IsWhitespace(t[k]) ==> t[k] == ' '
        {
          assert t[k] == s[k + 1];
        }
        forall k, l | 0 <= k < l < |t| && l == k + 1
          ensures !IsWhitespace(t[k]) || !IsWhitespace(t[l])
        {
          assert t[k] == s[k + 1] && t[l] == s[l + 1];
        }
      }
      CollapseSingleSpaced(s[1..]);
      if IsWhitespace(s[0]) {
        assert TrimStart(s[1..]) == s[1..];
      }
    }
  }

  lemma {:induction false} LowerNoUpper(s: string)
    requires NoUpper(s)
    ensures ToLower(s) == s
  {
  }

  /** The normalized titles are exactly the fixpoints of the normalizer. */
  lemma NormalizeFixpoints(t: string)
    ensures NormalizeTitle(Some(t)) == t <==> IsNormalized(t)
  {
    NormalizedShape(Some(t));
    if IsNormalized(t) && t != "" {
      StripClean(t);
      CollapseSingleSpaced(t);
      TrimNoEnds(t);
      LowerNoUpper(t);
    }
  }

  /** Normalizing twice is normalizing once. */
  lemma NormalizeIdempotent(s: Option<string>)
    ensures NormalizeTitle(Some(NormalizeTitle(s))) == NormalizeTitle(s)
  {
    NormalizedShape(s);
    NormalizeFixpoints(NormalizeTitle(s));
  }

  /** Every title is matched by its own normal form. */
  lemma NormalFormMatches(title: string)
    ensures TitlesMatch(NormalizeTitle(Some(title)), title)
  {
    NormalizeIdempotent(Some(title));
  }

  /** An empty guess matches exactly the titles made of nothing but marks and whitespace. */
  lemma EmptyGuessMatches(title: string)
    ensures TitlesMatch("", title) <==> NormalizeTitle(Some(title)) == ""
  {
  }

  /** Normalizing a title that has no marks and whose only whitespace is single inner spaces lower-cases it. */
  lemma NormalizeClean(t: string)
    requires t != "" && NoMarks(t) && SingleSpaced(t) && Trimmed(t)
    ensures NormalizeTitle(Some(t)) == ToLower(t)
  {
    StripClean(t);
    CollapseSingleSpaced(t);
    TrimNoEnds(t);
  }

  /** Two clean titles of different lengths never match. */
  lemma CleanLengthsDiffer(a: string, b: string)
    requires a != "" && NoMarks(a) && SingleSpaced(a) && Trimmed(a)
    requires b != "" && NoMarks(b) && SingleSpaced(b) && Trimmed(b)
    requires |a| != |b|
    ensures !TitlesMatch(a, b)
  {
    NormalizeClean(a);
    NormalizeClean(b);
  }

  lemma StripInsertMark(a: string, b: string, mark: char)
    requires IsMark(mark)
    ensures StripMarks(a + [mark] + b) == StripMarks(a + b)
  {
    StripAppend(a + [mark], b);
    StripAppend(a, [mark]);
    StripOneMark(mark);
    assert StripMarks(a + [mark]) == StripMarks(a);
    StripAppend(a, b);
  }

  lemma StripOneMark(mark: char)
    requires IsMark(mark)
    ensures StripMarks([mark]) == []
  {
    assert [mark][1..] == [];
  }

  /** A mark inserted anywhere in a title is deleted again: the normal form stays the same. */
  lemma MarkInsertIgnored(t: string, i: nat, mark: char)
    requires IsMark(mark) && i <= |t|
    ensures NormalizeTitle(Some(t[..i] + [mark] + t[i..])) == NormalizeTitle(Some(t))
  {
    var u := t[..i] + [mark] + t[i..];
    StripInsertMark(t[..i], t[i..], mark);
    assert t[..i] + t[i..] == t;
    NormalizeUnfold(u);
    NormalizeUnfold(t);
  }

  /** In particular a trailing mark, such as a trademark sign. */
  lemma MarkAppendIgnored(t: string, mark: char)
    requires IsMark(mark)
    ensures NormalizeTitle(Some(t + [mark])) == NormalizeTitle(Some(t))
  {
    StripInsertMark(t, [], mark);
    assert t + [mark] + [] == t + [mark] && t + [] == t;
    NormalizeUnfold(t + [mark]);
    NormalizeUnfold(t);
  }

  /**
   * Letter case of the guess and a mark anywhere in the title never change the
   * verdict: a guess matches the title exactly when any case variant of it
   * matches the title with a mark inserted.
   */
  lemma MarkAndCaseIgnored(guess: string, variant: string, title: string, i: nat, mark: char)
    requires FoldEq(guess, variant) && IsMark(mark) && i <= |title|
    ensures TitlesMatch(guess, title) <==> TitlesMatch(variant, title[..i] + [mark] + title[i..])
  {
    MarkInsertIgnored(title, i, mark);
    NormalizeLower(guess);
    NormalizeLower(variant);
  }

  predicate IsAlnum(c: char) {
    'a' <= c <= 'z' || 'A' <= c <= 'Z' || '0' <= c <= '9'
  }

  /** Words of ASCII letters and digits separated by single spaces. */
  predicate PlainWords(s: string) {
    s != [] && IsAlnum(s[0]) && IsAlnum(s[|s| - 1]) &&
    (forall i :: 0 <= i < |s| ==> IsAlnum(s[i]) || s[i] == ' ') &&
    (forall i, j :: 0 <= i < |s| && 0 <= j < |s| && j == i + 1 && s[i] == ' ' ==> IsAlnum(s[j]))
  }

  lemma PlainWordsClean(s: string)
    requires PlainWords(s)
    ensures NoMarks(s) && SingleSpaced(s) && Trimmed(s)
  {
    forall i | 0 <= i < |s| ensures !IsMark(s[i]) && (IsWhitespace(s[i]) ==> s[i] == ' ') {
      assert IsAlnum(s[i]) || s[i] == ' ';
    }
    forall i, j | 0 <= i < j < |s| && j == i + 1 ensures !IsWhitespace(s[i]) || !IsWhitespace(s[j]) {
      assert IsAlnum(s[i]) || s[i] == ' ';
    }
  }

  const TradeMark: char := '\U{2122}'

  /** The trademark sign and letter case do not matter. */
  lemma PortalMatchesTrademarked(guess: string, title: string)
    requires guess == "PORTAL" && title == "Portal"
    ensures TitlesMatch(guess, title + [TradeMark])
  {
    assert PlainWords(guess) && PlainWords(title);
    PlainWordsClean(guess);
    PlainWordsClean(title);
    assert ToLower(guess) == ToLower(title) by {
      forall i | 0 <= i < 6 ensures LowerChar(guess[i]) == LowerChar(title[i]) {
      }
    }
    NormalizeClean(guess);
    NormalizeClean(title);
    MarkAppendIgnored(title, TradeMark);
  }

  /** An extra word does. */
  lemma PortalTwoDiffers(guess: string, title: string)
    requires guess == "portal 2" && title == "Portal"
    ensures !TitlesMatch(guess, title)
  {
    assert PlainWords(guess) && PlainWords(title);
    PlainWordsClean(guess);
    PlainWordsClean(title);
    CleanLengthsDiffer(guess, title);
  }

  // ---------------------------------------------------------------------------
  // What the normalizer does not see: surrounding whitespace and letter case

  lemma NormalizeUnfold(s: string)
    ensures NormalizeTitle(Some(s)) == ToLower(Trim(CollapseWhitespace(StripMarks(s))))
  {
    if s == "" {
      assert StripMarks(s) == "" && CollapseWhitespace("") == "";
      TrimNoEnds("");
    }
  }

  lemma {:induction false} StripAppend(a: string, b: string)
    ensures StripMarks(a + b) == StripMarks(a) + StripMarks(b)
  {
    if a == [] {
      assert a + b == b;
    } else {
      var h := if IsMark(a[0]) then [] else [a[0]];
      assert (a + b)[0] == a[0] && (a + b)[1..] == a[1..] + b;
      assert StripMarks(a + b) == h + StripMarks(a[1..] + b);
      StripAppend(a[1..], b);
      assert StripMarks(a) == h + StripMarks(a[1..]);
      assert h + (StripMarks(a[1..]) + StripMarks(b)) == (h + StripMarks(a[1..])) + StripMarks(b);
    }
  }

  lemma BlankHasNoMarks(s: string)
    requires AllWhitespace(s)
    ensures StripMarks(s) == s
  {
    assert NoMarks(s) by {
      forall i | 0 <= i < |s| ensures !IsMark(s[i]) {
        assert IsWhitespace(s[i]);
      }
    }
    StripClean(s);
  }

  lemma MarkLower(c: char)
    ensures IsMark(LowerChar(c)) <==> IsMark(c)
  {
    if IsUpper(c) {
      assert !IsMark(c);
      assert !IsMark(LowerChar(c));
    }
  }

  lemma {:induction false} StripLower(s: string)
    ensures StripMarks(ToLower(s)) == ToLower(StripMarks(s))
  {
    if s != [] {
      MarkLower(s[0]);
      assert ToLower(s)[1..] == ToLower(s[1..]);
      StripLower(s[1..]);
      LowerDistributes(if IsMark(s[0]) then [] else [s[0]], StripMarks(s[1..]));
    }
  }

  lemma {:induction false} CollapseLower(s: string)
    ensures CollapseWhitespace(ToLower(s)) == ToLower(CollapseWhitespace(s))
    decreases |s|
  {
    if s != [] {
      WhitespaceLower(s[0]);
      assert ToLower(s)[1..] == ToLower(s[1..]);
      if IsWhitespace(s[0]) {
        TrimStartLower(s[1..]);
        CollapseLower(TrimStart(s[1..]));
        var space := " ";
        LowerDistributes(space, CollapseWhitespace(TrimStart(s[1..])));
      } else {
        CollapseLower(s[1..]);
        LowerDistributes([s[0]], CollapseWhitespace(s[1..]));
      }
    }
  }

  /** Case folding first changes nothing: the normalizer folds case anyway. */
  lemma NormalizeLower(s: string)
    ensures NormalizeTitle(Some(ToLower(s))) == NormalizeTitle(Some(s))
  {
    NormalizeUnfold(s);
    NormalizeUnfold(ToLower(s));
    StripLower(s);
    CollapseLower(StripMarks(s));
    TrimLower(CollapseWhitespace(StripMarks(s)));
    LowerTwice(Trim(CollapseWhitespace(StripMarks(s))));
  }

  lemma CollapseTrimStart(z: string)
    ensures Trim(CollapseWhitespace(TrimStart(z))) == Trim(CollapseWhitespace(z))
  {
    if z != [] && IsWhitespace(z[0]) {
      TrimStartSkip(z);
      var space := " ";
      assert AllWhitespace(space);
      TrimLeft(space, CollapseWhitespace(TrimStart(z[1..])));
    }
  }

  lemma CollapseLeading(a: string, z: string)
    requires AllWhitespace(a)
    ensures Trim(CollapseWhitespace(a + z)) == Trim(CollapseWhitespace(z))
  {
    if a == [] {
      assert a + z == z;
    } else {
      assert (a + z)[1..] == a[1..] + z;
      TrimStartPadded(a[1..], z);
      var space := " ";
      assert AllWhitespace(space);
      TrimLeft(space, CollapseWhitespace(TrimStart(z)));
      CollapseTrimStart(z);
    }
  }

  lemma TrimStartKeepsLast(s: string)
    requires s != [] && !IsWhitespace(s[|s| - 1])
    ensures TrimStart(s) != [] && TrimStart(s)[|TrimStart(s)| - 1] == s[|s| - 1]
  {
  }

  /** A whitespace tail behind a non-space collapses to one space. */
  lemma {:induction false} CollapseTail(u: string, w: string)
    requires u == [] || !IsWhitespace(u[|u| - 1])
    requires AllWhitespace(w)
    ensures CollapseWhitespace(u + w) == CollapseWhitespace(u) + (if w == [] then [] else " ")
    decreases |u|
  {
    var tail := if w == [] then [] else " ";
    if u == [] {
      assert u + w == w;
      if w != [] {
        TrimStartBlank(w[1..]);
        assert CollapseWhitespace(w) == " " + CollapseWhitespace([]);
      }
    } else {
      assert (u + w)[0] == u[0] && (u + w)[1..] == u[1..] + w;
      if IsWhitespace(u[0]) {
        TrimStartKeepsLast(u[1..]);
        var p := TrimStart(u[1..]);
        TrimStartAppend(u[1..], w);
        CollapseTail(p, w);
        var c := CollapseWhitespace(p);
        assert CollapseWhitespace(u + w) == " " + (c + tail);
        assert CollapseWhitespace(u) == " " + c;
        var space := " ";
        ConcatAssoc(space, c, tail);
      } else {
        CollapseTail(u[1..], w);
        var c := CollapseWhitespace(u[1..]);
        assert CollapseWhitespace(u + w) == [u[0]] + (c + tail);
        assert CollapseWhitespace(u) == [u[0]] + c;
        ConcatAssoc([u[0]], c, tail);
      }
    }
  }

  lemma TrimCollapseTail(u: string, w: string)
    requires u == [] || !IsWhitespace(u[|u| - 1])
    requires AllWhitespace(w)
    ensures Trim(CollapseWhitespace(u + w)) == Trim(CollapseWhitespace(u))
  {
    CollapseTail(u, w);
    var space := " ";
    assert AllWhitespace(space);
    TrimRight(CollapseWhitespace(u), space);
    TrimRight(CollapseWhitespace(u), []);
  }

  lemma CollapseTrailing(z: string, b: string)
    requires AllWhitespace(b)
    ensures Trim(CollapseWhitespace(z + b)) == Trim(CollapseWhitespace(z))
  {
    TrimEndSplit(z);
    var u := TrimEnd(z);
    var v := z[|u|..];
    ConcatAssoc(u, v, b);
    WhitespaceAppend(v, b);
    TrimCollapseTail(u, v + b);
    TrimCollapseTail(u, v);
  }

  lemma ThreeWay(s: string, i: nat, j: nat)
    requires i <= j <= |s|
    ensures s == s[..i] + s[i..j] + s[j..]
  {
  }

  /** Marks are deleted from the middle only when the ends are whitespace. */
  lemma StripAround(a: string, m: string, b: string)
    requires AllWhitespace(a) && AllWhitespace(b)
    ensures StripMarks(a + m + b) == a + (StripMarks(m) + b)
  {
    StripAppend(a + m, b);
    StripAppend(a, m);
    BlankHasNoMarks(a);
    BlankHasNoMarks(b);
    ConcatAssoc(a, StripMarks(m), b);
  }

  /** Trimming first changes nothing: collapsing and trimming remove that whitespace anyway. */
  lemma NormalizeTrim(s: string)
    ensures NormalizeTitle(Some(Trim(s))) == NormalizeTitle(Some(s))
  {
    TrimSlice(s);
    var i, j :| 0 <= i <= j <= |s| && Trim(s) == s[i..j] && AllWhitespace(s[..i]) && AllWhitespace(s[j..]);
    var a, m, b := s[..i], s[i..j], s[j..];
    ThreeWay(s, i, j);
    StripAround(a, m, b);
    var y := StripMarks(m);
    CollapseLeading(a, y + b);
    CollapseTrailing(y, b);
    NormalizeUnfold(s);
    NormalizeUnfold(m);
  }
}

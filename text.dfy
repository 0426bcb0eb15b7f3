/**
 * Character classes and string helpers shared by the title normalizer, the
 * legacy guess check and the redaction: the JavaScript whitespace set (used by
 * `\s`, `String.prototype.trim` and `parseInt`), an ASCII case fold standing for
 * `toLowerCase` and for the case-insensitive regex flag, and trimming.
 */
module Text {
  import opened Wrappers

  /** `String(x)` of a string that may be `undefined`. */
  function JsString(o: Option<string>): (r: string)
    ensures o.Some? ==> r == o.value
    ensures o.None? ==> r == "undefined"
  {
    o.GetOr("undefined")
  }

  /** JavaScript's WhiteSpace and LineTerminator code points. */
  predicate IsWhitespace(c: char) {
    c == '\t' || c == '\n' || c == '\U{B}' || c == '\U{C}' || c == '\r' || c == ' ' ||
    c == '\U{A0}' || c == '\U{1680}' || ('\U{2000}' <= c <= '\U{200A}') ||
    c == '\U{2028}' || c == '\U{2029}' || c == '\U{202F}' || c == '\U{205F}' || c == '\U{3000}' ||
    c == '\U{FEFF}'
  }

  predicate IsUpper(c: char) {
    'A' <= c <= 'Z'
  }

  /** Case fold of one character: maps `A`..`Z` to `a`..`z`, everything else to itself. */
  function LowerChar(c: char): (d: char)
    ensures !IsUpper(d)
    ensures IsUpper(c) ==> 'a' <= d <= 'z' && d as int == c as int + 32
    ensures !IsUpper(c) ==> d == c
  {
    if IsUpper(c) then (c as int + 32) as char else c
  }

  function ToLower(s: string): (r: string)
    ensures |r| == |s|
    ensures forall i :: 0 <= i < |s| ==> r[i] == LowerChar(s[i])
  {
    seq(|s|, i requires 0 <= i < |s| => LowerChar(s[i]))
  }

  /** Case-insensitive equality of two strings (the regex `i` flag, and equality after `toLowerCase`). */
  predicate FoldEq(a: string, b: string) {
    ToLower(a) == ToLower(b)
  }

  predicate AllWhitespace(s: string) {
    forall i :: 0 <= i < |s| ==> IsWhitespace(s[i])
  }

  /** Where the run of whitespace that starts at index `k` of `s` stops. */
  function BlankRunEnd(s: string, k: nat): (n: nat)
    requires k <= |s|
    ensures k <= n <= |s|
    ensures forall m :: k <= m < n ==> IsWhitespace(s[m])
    ensures n == |s| || !IsWhitespace(s[n])
    decreases |s| - k
  {
    if k < |s| && IsWhitespace(s[k]) then BlankRunEnd(s, k + 1) else k
  }

  /** Where the run of whitespace that ends just before index `k` of `s` starts. */
  function BlankRunStart(s: string, k: nat): (n: nat)
    requires k <= |s|
    ensures n <= k
    ensures forall m :: n <= m < k ==> IsWhitespace(s[m])
    ensures n == 0 || !IsWhitespace(s[n - 1])
  {
    if k > 0 && IsWhitespace(s[k - 1]) then BlankRunStart(s, k - 1) else k
  }

  /** How many whitespace characters `s` starts with. */
  function LeadingBlanks(s: string): (n: nat)
    ensures n <= |s|
    ensures forall k :: 0 <= k < n ==> IsWhitespace(s[k])
    ensures n == |s| || !IsWhitespace(s[n])
  {
    BlankRunEnd(s, 0)
  }

  /** How many whitespace characters `s` ends with. */
  function TrailingBlanks(s: string): (n: nat)
    ensures n <= |s|
    ensures forall k :: |s| - n <= k < |s| ==> IsWhitespace(s[k])
    ensures n == |s| || !IsWhitespace(s[|s| - 1 - n])
  {
    |s| - BlankRunStart(s, |s|)
  }

  /** The run of leading whitespace is determined by where it stops. */
  lemma LeadingUnique(s: string, n: nat)
    requires n <= |s| && (forall k :: 0 <= k < n ==> IsWhitespace(s[k]))
    requires n == |s| || !IsWhitespace(s[n])
    ensures LeadingBlanks(s) == n
  {
  }

  lemma TrailingUnique(s: string, n: nat)
    requires n <= |s| && (forall k :: |s| - n <= k < |s| ==> IsWhitespace(s[k]))
    requires n == |s| || !IsWhitespace(s[|s| - 1 - n])
    ensures TrailingBlanks(s) == n
  {
  }

  /** Removes the leading whitespace. */
  function TrimStart(s: string): string
  {
    s[LeadingBlanks(s)..]
  }

  /** Removes the trailing whitespace. */
  function TrimEnd(s: string): string
  {
    s[..|s| - TrailingBlanks(s)]
  }

  /** A string with a non-blank character keeps it between its leading and its trailing run. */
  lemma BlanksApart(s: string)
    requires LeadingBlanks(s) < |s|
    ensures LeadingBlanks(s) < |s| - TrailingBlanks(s)
  {
  }

  /** Empty, or neither starting nor ending with whitespace. */
  predicate Trimmed(s: string) {
    s == [] || (!IsWhitespace(s[0]) && !IsWhitespace(s[|s| - 1]))
  }

  /**
   * `String.prototype.trim`: the text between the leading and the trailing run
   * of whitespace, or nothing when `s` is all whitespace.
   */
  function Trim(s: string): (r: string)
    ensures Trimmed(r)
  {
    var i := LeadingBlanks(s);
    if i == |s| then [] else BlanksApart(s); s[i..|s| - TrailingBlanks(s)]
  }

  /** Where the trimmed text sits when `s` is not all whitespace. */
  lemma TrimIs(s: string, i: nat, j: nat)
    requires i == LeadingBlanks(s) && i < |s| && j == |s| - TrailingBlanks(s)
    ensures i < j && Trim(s) == s[i..j]
  {
    BlanksApart(s);
  }

  lemma AllLeading(s: string)
    requires LeadingBlanks(s) >= |s|
    ensures AllWhitespace(s)
  {
  }

  /** A string of whitespace trims to nothing. */
  lemma TrimBlank(s: string)
    requires AllWhitespace(s)
    ensures Trim(s) == []
  {
    LeadingUnique(s, |s|);
  }

  /** The trimmed text is a slice of `s` with only whitespace around it. */
  lemma TrimSlice(s: string)
    ensures exists i, j :: 0 <= i <= j <= |s| && Trim(s) == s[i..j] && AllWhitespace(s[..i]) && AllWhitespace(s[j..])
  {
    var i := LeadingBlanks(s);
    if i == |s| {
      assert Trim(s) == s[i..i] && s[..i] == s;
    } else {
      BlanksApart(s);
      var j := |s| - TrailingBlanks(s);
      assert Trim(s) == s[i..j];
    }
  }

  /** Trimming a string that has no whitespace at either end changes nothing. */
  lemma TrimNoEnds(s: string)
    requires Trimmed(s)
    ensures Trim(s) == s
  {
    if s != [] {
      assert s[0..|s|] == s;
    }
  }

  lemma ConcatAssoc(a: string, b: string, c: string)
    ensures a + (b + c) == (a + b) + c
  {
  }

  lemma SplitAt(s: string, k: nat)
    requires k <= |s|
    ensures s[..k] + s[k..] == s
  {
  }

  lemma TrimEndSplit(s: string)
    ensures s == TrimEnd(s) + s[|TrimEnd(s)|..]
    ensures AllWhitespace(s[|TrimEnd(s)|..])
  {
    SplitAt(s, |TrimEnd(s)|);
  }

  lemma WhitespaceAppend(a: string, b: string)
    requires AllWhitespace(a) && AllWhitespace(b)
    ensures AllWhitespace(a + b)
  {
  }

  /** Leading whitespace joins the run `s` starts with. */
  lemma LeadingPadded(a: string, s: string)
    requires AllWhitespace(a)
    ensures LeadingBlanks(a + s) == |a| + LeadingBlanks(s)
  {
    var n := LeadingBlanks(s);
    forall k | 0 <= k < |a| + n ensures IsWhitespace((a + s)[k]) {
      if k >= |a| {
        assert (a + s)[k] == s[k - |a|];
      }
    }
    if |a| + n < |a + s| {
      assert (a + s)[|a| + n] == s[n];
    }
    LeadingUnique(a + s, |a| + n);
  }

  /** Trailing whitespace joins the run `s` ends with. */
  lemma TrailingPadded(s: string, b: string)
    requires AllWhitespace(b)
    ensures TrailingBlanks(s + b) == TrailingBlanks(s) + |b|
  {
    var n := TrailingBlanks(s);
    var u := s + b;
    forall k | |u| - (n + |b|) <= k < |u| ensures IsWhitespace(u[k]) {
      if k < |s| {
        assert u[k] == s[k];
      } else {
        assert u[k] == b[k - |s|];
      }
    }
    if n + |b| < |u| {
      assert u[|u| - 1 - (n + |b|)] == s[|s| - 1 - n];
    }
    TrailingUnique(u, n + |b|);
  }

  /** Text in front of a string with a non-blank character leaves its trailing run alone. */
  lemma TrailingPrepend(a: string, s: string)
    requires LeadingBlanks(s) < |s|
    ensures TrailingBlanks(a + s) == TrailingBlanks(s)
  {
    BlanksApart(s);
    var n := TrailingBlanks(s);
    var u := a + s;
    forall k | |u| - n <= k < |u| ensures IsWhitespace(u[k]) {
      assert u[k] == s[k - |a|];
    }
    assert u[|u| - 1 - n] == s[|s| - 1 - n];
    TrailingUnique(u, n);
  }

  /** Text behind a string with a non-blank character leaves its leading run alone. */
  lemma LeadingAppend(s: string, b: string)
    requires LeadingBlanks(s) < |s|
    ensures LeadingBlanks(s + b) == LeadingBlanks(s)
  {
    var n := LeadingBlanks(s);
    forall k | 0 <= k < n ensures IsWhitespace((s + b)[k]) {
      assert (s + b)[k] == s[k];
    }
    assert (s + b)[n] == s[n];
    LeadingUnique(s + b, n);
  }

  lemma TrimStartPadded(a: string, s: string)
    requires AllWhitespace(a)
    ensures TrimStart(a + s) == TrimStart(s)
  {
    LeadingPadded(a, s);
  }

  lemma TrimStartAppend(s: string, b: string)
    requires TrimStart(s) != []
    ensures TrimStart(s + b) == TrimStart(s) + b
  {
    LeadingAppend(s, b);
    assert (s + b)[LeadingBlanks(s)..] == s[LeadingBlanks(s)..] + b;
  }

  /** A string that starts with another character keeps its start. */
  lemma TrimStartKeeps(s: string)
    requires s == [] || !IsWhitespace(s[0])
    ensures TrimStart(s) == s
  {
    LeadingUnique(s, 0);
  }

  /** A leading blank is dropped along with the rest of the run. */
  lemma TrimStartSkip(s: string)
    requires s != [] && IsWhitespace(s[0])
    ensures TrimStart(s) == TrimStart(s[1..])
  {
    var first := [s[0]];
    assert s == first + s[1..];
    TrimStartPadded(first, s[1..]);
  }

  lemma TrimStartBlank(s: string)
    requires AllWhitespace(s)
    ensures TrimStart(s) == []
  {
    LeadingUnique(s, |s|);
  }

  lemma SliceBehind(a: string, s: string, i: nat, j: nat, p: nat, q: nat)
    requires i <= j <= |s| && p == |a| + i && q == |a| + j
    ensures (a + s)[p..q] == s[i..j]
  {
  }

  lemma SliceInFront(s: string, b: string, i: nat, j: nat, q: nat)
    requires i <= j <= |s| && q == j
    ensures (s + b)[i..q] == s[i..j]
  {
  }

  /** Leading whitespace never changes what a string trims to. */
  lemma TrimLeft(a: string, s: string)
    requires AllWhitespace(a)
    ensures Trim(a + s) == Trim(s)
  {
    var u := a + s;
    LeadingPadded(a, s);
    var i := LeadingBlanks(s);
    if i < |s| {
      TrailingPrepend(a, s);
      var j := |s| - TrailingBlanks(s);
      TrimIs(s, i, j);
      TrimIs(u, |a| + i, |a| + j);
      SliceBehind(a, s, i, j, |a| + i, |a| + j);
    } else {
      AllLeading(s);
      WhitespaceAppend(a, s);
      TrimBlank(u);
      TrimBlank(s);
    }
  }

  /** Trailing whitespace never changes what a string trims to. */
  lemma TrimRight(s: string, b: string)
    requires AllWhitespace(b)
    ensures Trim(s + b) == Trim(s)
  {
    var u := s + b;
    var i := LeadingBlanks(s);
    if i < |s| {
      LeadingAppend(s, b);
      TrailingPadded(s, b);
      var j := |s| - TrailingBlanks(s);
      TrimIs(s, i, j);
      TrimIs(u, i, j);
      SliceInFront(s, b, i, j, j);
    } else {
      AllLeading(s);
      WhitespaceAppend(s, b);
      TrimBlank(u);
      TrimBlank(s);
    }
  }

  /** Whitespace around a string never changes what it trims to. */
  lemma TrimPadding(a: string, s: string, b: string)
    requires AllWhitespace(a) && AllWhitespace(b)
    ensures Trim(a + s + b) == Trim(s)
  {
    assert a + s + b == a + (s + b);
    TrimLeft(a, s + b);
    TrimRight(s, b);
  }

  lemma WhitespaceLower(c: char)
    ensures IsWhitespace(LowerChar(c)) <==> IsWhitespace(c)
  {
    if IsUpper(c) {
      assert !IsWhitespace(c);
      assert !IsWhitespace(LowerChar(c));
    }
  }

  lemma {:induction false} LowerDistributes(a: string, b: string)
    ensures ToLower(a + b) == ToLower(a) + ToLower(b)
  {
  }

  lemma LowerTwice(s: string)
    ensures ToLower(ToLower(s)) == ToLower(s)
  {
  }

  lemma LeadingLower(s: string)
    ensures LeadingBlanks(ToLower(s)) == LeadingBlanks(s)
  {
    var n := LeadingBlanks(s);
    var l := ToLower(s);
    forall k | 0 <= k < n ensures IsWhitespace(l[k]) {
      WhitespaceLower(s[k]);
    }
    if n < |s| {
      WhitespaceLower(s[n]);
    }
    LeadingUnique(l, n);
  }

  lemma TrimStartLower(s: string)
    ensures TrimStart(ToLower(s)) == ToLower(TrimStart(s))
  {
    LeadingLower(s);
    LowerSlice(s, LeadingBlanks(s), |s|, LeadingBlanks(ToLower(s)), |ToLower(s)|);
    assert s[LeadingBlanks(s)..|s|] == s[LeadingBlanks(s)..];
    assert ToLower(s)[LeadingBlanks(ToLower(s))..|ToLower(s)|] == ToLower(s)[LeadingBlanks(ToLower(s))..];
  }

  lemma TrailingLower(s: string)
    ensures TrailingBlanks(ToLower(s)) == TrailingBlanks(s)
  {
    var n := TrailingBlanks(s);
    var l := ToLower(s);
    forall k | |s| - n <= k < |s| ensures IsWhitespace(l[k]) {
      WhitespaceLower(s[k]);
    }
    if n < |s| {
      WhitespaceLower(s[|s| - 1 - n]);
    }
    TrailingUnique(l, n);
  }

  lemma LowerSlice(s: string, i: nat, j: nat, p: nat, q: nat)
    requires i <= j <= |s| && p == i && q == j
    ensures ToLower(s)[p..q] == ToLower(s[i..j])
  {
  }

  /** Trimming and case folding commute: the fold leaves whitespace alone. */
  lemma TrimLower(s: string)
    ensures Trim(ToLower(s)) == ToLower(Trim(s))
  {
    var l := ToLower(s);
    LeadingLower(s);
    TrailingLower(s);
    var i := LeadingBlanks(s);
    if i < |s| {
      var j := |s| - TrailingBlanks(s);
      TrimIs(s, i, j);
      TrimIs(l, i, j);
      LowerSlice(s, i, j, i, j);
    }
  }
}

/**
 * The proxy's top-500 route after SteamSpy's answer is parsed: read the lower
 * bound of each game's owners range, sort the games by it from most to fewest
 * owners (a stable sort), keep the first 500 and answer their AppIDs.
 */
module OwnersRanking {
  import opened Wrappers
  import opened JsParse
  import opened StableSorting

  /** One value of SteamSpy's answer: the game's AppID and its owners range, as in `"1,000 .. 2,000"`. */
  datatype Entry = Entry(appid: int, owners: string)

  const Separator: string := " .. "
  const TopCount: nat := 500

  predicate SeparatorAt(s: string, i: nat) {
    i + |Separator| <= |s| && s[i..i + |Separator|] == Separator
  }

  /** `s.split(" .. ")[0]`: the text before the first separator, or all of `s` when there is none. */
  function BeforeSeparator(s: string): (r: string)
    ensures |r| <= |s| && r == s[..|r|]
    ensures forall i: nat :: i < |r| ==> !SeparatorAt(s, i)
    ensures |r| < |s| ==> SeparatorAt(s, |r|)
  {
    if |s| < |Separator| then s
    else if s[..|Separator|] == Separator then ""
    else
      SeparatorShift(s);
      [s[0]] + BeforeSeparator(s[1..])
  }

  lemma SeparatorShift(s: string)
    requires s != []
    ensures forall i: nat :: 1 <= i ==> (SeparatorAt(s, i) <==> SeparatorAt(s[1..], i - 1))
  {
    forall i: nat | 1 <= i
      ensures SeparatorAt(s, i) <==> SeparatorAt(s[1..], i - 1)
    {
      if i + |Separator| <= |s| {
        SliceOfTail(s, i, i + |Separator|);
      }
    }
  }

  lemma SliceOfTail(s: string, i: nat, j: nat)
    requires 1 <= i <= j <= |s|
    ensures s[i..j] == s[1..][i - 1..j - 1]
  {
    var t := s[1..];
    forall k | 0 <= k < j - i ensures s[i..j][k] == t[i - 1..j - 1][k] {
      assert t[i - 1..j - 1][k] == t[i - 1 + k] == s[i + k];
    }
  }

  /**
   * `s.replace(/,/g, "")`: every comma goes and every other character stays.
   * A string without commas is left alone (`RemoveCommasClean`) and the removal
   * distributes over concatenation (`RemoveCommasAppend`), so the characters
   * that stay keep their order and number.
   */
  function RemoveCommas(s: string): (r: string)
    ensures forall c :: c in r <==> c in s && c != ','
  {
    if s == [] then [] else (if s[0] == ',' then [] else [s[0]]) + RemoveCommas(s[1..])
  }

  lemma {:induction false} RemoveCommasClean(s: string)
    requires ',' !in s
    ensures RemoveCommas(s) == s
  {
    if s != [] {
      assert ',' !in s[1..] by {
        forall c | c in s[1..] ensures c in s {
          var i :| 0 <= i < |s[1..]| && s[1..][i] == c;
          assert s[i + 1] == c;
        }
      }
      RemoveCommasClean(s[1..]);
      assert [s[0]] + s[1..] == s;
    }
  }

  lemma {:induction false} RemoveCommasAppend(a: string, b: string)
    ensures RemoveCommas(a + b) == RemoveCommas(a) + RemoveCommas(b)
  {
    if a == [] {
      assert a + b == b && RemoveCommas(a) == [];
    } else {
      var h := if a[0] == ',' then [] else [a[0]];
      var ra, rb := RemoveCommas(a[1..]), RemoveCommas(b);
      assert (a + b)[0] == a[0] && (a + b)[1..] == a[1..] + b;
      assert RemoveCommas(a + b) == h + RemoveCommas(a[1..] + b);
      RemoveCommasAppend(a[1..], b);
      assert RemoveCommas(a) == h + ra;
      assert h + (ra + rb) == (h + ra) + rb;
    }
  }

  /**
   * The lower bound of an owners range; `None` where `parseInt` gives `NaN`,
   * which is what a range without a digit gives.
   */
  function OwnersLowerBound(owners: string): (r: Option<int>)
    ensures (forall i :: 0 <= i < |owners| ==> !IsDigit(owners[i])) ==> r.None?
  {
    var low := RemoveCommas(BeforeSeparator(owners));
    var r := ParseInt(low);
    if r.Some? then
      var i :| 0 <= i < |low| && IsDigit(low[i]);
      assert low[i] in low;
      var j :| 0 <= j < |BeforeSeparator(owners)| && BeforeSeparator(owners)[j] == low[i];
      assert owners[j] == low[i];
      r
    else r
  }

  /** A range whose lower bound parses: the rankings below are stated for such entries. */
  predicate WellFormed(e: Entry) {
    OwnersLowerBound(e.owners).Some?
  }

  /** The sort key (0 stands in for `NaN`, a case the ranking does not cover). */
  function LowerBound(e: Entry): int {
    OwnersLowerBound(e.owners).GetOr(0)
  }

  /** Thousands-separated digits. */
  predicate DigitsAndCommas(d: string) {
    forall i :: 0 <= i < |d| ==> IsDigit(d[i]) || d[i] == ','
  }

  lemma {:induction false} RemoveCommasDigits(d: string)
    requires DigitsAndCommas(d)
    ensures AllDigits(RemoveCommas(d))
  {
    if d != [] {
      RemoveCommasDigits(d[1..]);
    }
  }

  /** The text before the separator is taken whole when it has no space in it. */
  lemma {:induction false} BeforeSeparatorOf(d: string, high: string)
    requires ' ' !in d
    ensures BeforeSeparator(d + Separator + high) == d
  {
    var s := d + Separator + high;
    if d == [] {
      assert s[..|Separator|] == Separator;
    } else {
      assert s[0] == d[0] != ' ';
      assert s[1..] == d[1..] + Separator + high;
      BeforeSeparatorOf(d[1..], high);
      assert [d[0]] + d[1..] == d;
    }
  }

  /** Thousands-separated digits, with the commas dropped, parse to their decimal value. */
  lemma ParseWithoutCommas(d: string)
    requires DigitsAndCommas(d) && exists i :: 0 <= i < |d| && IsDigit(d[i])
    ensures AllDigits(RemoveCommas(d))
    ensures ParseInt(RemoveCommas(d)) == Some(DecimalValue(RemoveCommas(d)) as int)
  {
    RemoveCommasDigits(d);
    var digits := RemoveCommas(d);
    var i :| 0 <= i < |d| && IsDigit(d[i]);
    assert d[i] in digits;
    ParseAllDigits(digits);
  }

  /** SteamSpy's range format: the lower bound is the value of the digits before the separator. */
  lemma ThousandsLowerBound(d: string, high: string)
    requires DigitsAndCommas(d) && exists i :: 0 <= i < |d| && IsDigit(d[i])
    ensures AllDigits(RemoveCommas(d))
    ensures OwnersLowerBound(d + Separator + high) == Some(DecimalValue(RemoveCommas(d)) as int)
  {
    assert ' ' !in d;
    BeforeSeparatorOf(d, high);
    ParseWithoutCommas(d);
  }

  lemma ThousandValue(s: string)
    requires s == "1000"
    ensures AllDigits(s) && DecimalValue(s) == 1000
  {
    var one, ten, hundred := s[..1], s[..2], s[..3];
    assert one[..0] == [] && DecimalValue(one) == 1;
    assert ten[..1] == one && DecimalValue(ten) == 10;
    assert hundred[..2] == ten && DecimalValue(hundred) == 100;
    assert s[..3] == hundred;
  }

  lemma ThousandCommas(s: string)
    requires s == "1,000"
    ensures RemoveCommas(s) == "1000"
  {
    assert s[1..] == ",000" && s[2..] == "000";
    assert RemoveCommas("000") == "000";
  }

  /** The example range `"1,000 .. 2,000"` has lower bound 1000. */
  lemma ThousandExample(low: string, high: string)
    requires low == "1,000" && high == "2,000"
    ensures OwnersLowerBound(low + Separator + high) == Some(1000)
  {
    assert DigitsAndCommas(low) && IsDigit(low[0]);
    ThousandsLowerBound(low, high);
    ThousandCommas(low);
    ThousandValue(RemoveCommas(low));
  }

  // ---------------------------------------------------------------------------
  // Ranking

  /** The AppIDs of the entries, in order. */
  function AppIds(s: seq<Entry>): (r: seq<int>)
    ensures |r| == |s|
    ensures forall i :: 0 <= i < |s| ==> r[i] == s[i].appid
  {
    seq(|s|, i requires 0 <= i < |s| => s[i].appid)
  }

  function Min(a: nat, b: nat): nat {
    if a < b then a else b
  }

  /** The entries from most to fewest owners, equal lower bounds in input order. */
  function Sorted(s: seq<Entry>): seq<Entry> {
    SortDesc(s, LowerBound)
  }

  /** `sorted.slice(0, 500)`: 500 games, or all of them when there are fewer, each one from the input. */
  function Ranked(s: seq<Entry>): (r: seq<Entry>)
    ensures |r| == Min(TopCount, |s|)
    ensures multiset(r) <= multiset(s)
  {
    SortedPermutes(s);
    var t := Sorted(s);
    PrefixWithin(t, Min(TopCount, |t|));
    t[..Min(TopCount, |t|)]
  }

  lemma PrefixWithin(t: seq<Entry>, n: nat)
    requires n <= |t|
    ensures multiset(t[..n]) <= multiset(t)
  {
    assert t == t[..n] + t[n..];
  }

  /** What the slice leaves out. */
  function Dropped(s: seq<Entry>): seq<Entry> {
    var t := Sorted(s);
    t[Min(TopCount, |t|)..]
  }

  /** The route's answer: the AppIDs of the top 500, one per kept game, in rank order. */
  function RankedAppIds(s: seq<Entry>): (r: seq<int>)
    ensures |r| == Min(TopCount, |s|)
    ensures forall i :: 0 <= i < |r| ==> r[i] == Ranked(s)[i].appid
  {
    AppIds(Ranked(s))
  }

  predicate Distinct(ids: seq<int>) {
    forall i, j :: 0 <= i < j < |ids| ==> ids[i] != ids[j]
  }

  lemma SortedPermutes(s: seq<Entry>)
    ensures multiset(Sorted(s)) == multiset(s) && |Sorted(s)| == |s|
    ensures SortedDesc(Sorted(s), LowerBound)
  {
    SortDescCorrect(s, LowerBound);
    assert |multiset(Sorted(s))| == |multiset(s)|;
  }

  /** The kept and the dropped entries together are exactly the input. */
  lemma RankedSplit(s: seq<Entry>)
    ensures Ranked(s) + Dropped(s) == Sorted(s)
    ensures multiset(Ranked(s)) + multiset(Dropped(s)) == multiset(s)
  {
    SortedPermutes(s);
    var t := Sorted(s);
    assert t[..Min(TopCount, |t|)] + t[Min(TopCount, |t|)..] == t;
  }

  /** No dropped game has a larger lower bound than a kept one. */
  lemma DroppedNotAbove(s: seq<Entry>)
    ensures forall e, f :: e in Dropped(s) && f in Ranked(s) ==> LowerBound(e) <= LowerBound(f)
  {
    SortedPermutes(s);
    var t := Sorted(s);
    var n := Min(TopCount, |t|);
    forall e, f | e in Dropped(s) && f in Ranked(s) ensures LowerBound(e) <= LowerBound(f) {
      CutOrdered(t, n, e, f, LowerBound);
    }
  }

  /** The kept entries run from most to fewest owners. */
  lemma RankedSorted(s: seq<Entry>)
    ensures SortedDesc(Ranked(s), LowerBound)
  {
    SortedPermutes(s);
  }

  /**
   * Stability: for each lower bound, the kept games of that bound are the first
   * ones of that bound in the input, in input order.
   */
  lemma RankedStable(s: seq<Entry>, k: int)
    ensures exists rest :: WithKey(Ranked(s), LowerBound, k) + rest == WithKey(s, LowerBound, k)
  {
    SortDescCorrect(s, LowerBound);
    RankedSplit(s);
    WithKeyAppend(Ranked(s), Dropped(s), LowerBound, k);
    assert WithKey(Ranked(s), LowerBound, k) + WithKey(Dropped(s), LowerBound, k) == WithKey(s, LowerBound, k);
  }

  lemma AppIdsAppend(a: seq<Entry>, b: seq<Entry>)
    ensures AppIds(a + b) == AppIds(a) + AppIds(b)
  {
  }

  lemma AppIdsCons(e: Entry, r: seq<Entry>)
    ensures AppIds([e] + r) == [e.appid] + AppIds(r)
  {
    AppIdsAppend([e], r);
  }

  lemma {:induction false} AppIdsInsert(t: seq<Entry>, x: Entry, key: Entry -> int)
    ensures multiset(AppIds(Insert(t, x, key))) == multiset(AppIds(t)) + multiset{x.appid}
  {
    if t != [] && key(t[0]) >= key(x) {
      var u := t[1..];
      AppIdsInsert(u, x, key);
      var r := Insert(u, x, key);
      assert Insert(t, x, key) == [t[0]] + r;
      AppIdsCons(t[0], r);
      assert t == [t[0]] + u;
      AppIdsCons(t[0], u);
    } else {
      assert Insert(t, x, key) == [x] + t;
      AppIdsCons(x, t);
    }
  }

  lemma {:induction false} SortAppIds(s: seq<Entry>, key: Entry -> int)
    ensures multiset(AppIds(SortDesc(s, key))) == multiset(AppIds(s))
    decreases |s|
  {
    if s != [] {
      var init, x := s[..|s| - 1], s[|s| - 1];
      var r := SortDesc(init, key);
      assert SortDesc(s, key) == Insert(r, x, key);
      SortAppIds(init, key);
      AppIdsInsert(r, x, key);
      assert s == init + [x];
      AppIdsAppend(init, [x]);
      assert AppIds([x]) == [x.appid];
      assert multiset(AppIds(s)) == multiset(AppIds(init)) + multiset{x.appid};
    }
  }

  /** Sorting moves AppIDs around and neither adds nor repeats one. */
  lemma SortedAppIds(s: seq<Entry>)
    ensures multiset(AppIds(Sorted(s))) == multiset(AppIds(s))
  {
    SortAppIds(s, LowerBound);
  }

  /** Each AppID appears in the answer at most as often as in SteamSpy's list. */
  lemma RankedAppIdsAtMostOnce(s: seq<Entry>, id: int)
    ensures multiset(RankedAppIds(s))[id] <= multiset(AppIds(s))[id]
  {
    SortedAppIds(s);
    RankedSplit(s);
    AppIdsAppend(Ranked(s), Dropped(s));
  }

  lemma {:induction false} DistinctCounts(ids: seq<int>)
    ensures Distinct(ids) <==> forall id :: multiset(ids)[id] <= 1
  {
    if ids != [] {
      DistinctCounts(ids[1..]);
      assert ids == [ids[0]] + ids[1..];
      assert multiset(ids) == multiset{ids[0]} + multiset(ids[1..]);
      if Distinct(ids) {
        assert ids[0] !in ids[1..];
      } else {
        var i, j :| 0 <= i < j < |ids| && ids[i] == ids[j];
        if i == 0 {
          assert ids[j] in ids[1..];
          assert multiset(ids)[ids[0]] >= 2;
        } else {
          assert !Distinct(ids[1..]) by { assert ids[1..][i - 1] == ids[1..][j - 1]; }
          var id :| multiset(ids[1..])[id] > 1;
          assert multiset(ids)[id] > 1;
        }
      }
    }
  }

  /** SteamSpy keys its list by AppID, so the answer never names a game twice. */
  lemma RankedDistinct(s: seq<Entry>)
    requires Distinct(AppIds(s))
    ensures Distinct(RankedAppIds(s))
  {
    DistinctCounts(AppIds(s));
    DistinctCounts(RankedAppIds(s));
    forall id ensures multiset(RankedAppIds(s))[id] <= 1 {
      RankedAppIdsAtMostOnce(s, id);
    }
  }

  /**
   * The route: sort SteamSpy's values in place by owners, then take the AppIDs
   * of the first 500.
   */
  method TopAppIds(entries: array<Entry>) returns (ids: seq<int>)
    requires forall i :: 0 <= i < entries.Length ==> WellFormed(entries[i])
    modifies entries
    ensures entries[..] == Sorted(old(entries[..]))
    ensures ids == RankedAppIds(old(entries[..]))
  {
    SortInPlace(entries, LowerBound);
    var n := Min(TopCount, entries.Length);
    ids := AppIds(entries[..n]);
  }
}

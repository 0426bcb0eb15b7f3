/**
 * `Array.prototype.sort` with a comparator `(a, b) => key(b) - key(a)`: a stable
 * sort from the largest key to the smallest.  The reference result is the
 * insertion of the elements one by one, in input order; an in-place insertion
 * sort on an array computes it.
 */
module StableSorting {

  predicate SortedDesc<T>(s: seq<T>, key: T -> int) {
    forall i, j :: 0 <= i < j < |s| ==> key(s[j]) <= key(s[i])
  }

  /** The elements of `s` whose key is `k`, in their order in `s`. */
  function WithKey<T>(s: seq<T>, key: T -> int, k: int): seq<T> {
    if s == [] then [] else (if key(s[0]) == k then [s[0]] else []) + WithKey(s[1..], key, k)
  }

  /** Inserts `x` into a sorted sequence behind every element with at least its key. */
  function Insert<T>(t: seq<T>, x: T, key: T -> int): seq<T> {
    if t == [] then [x]
    else if key(t[0]) >= key(x) then [t[0]] + Insert(t[1..], x, key)
    else [x] + t
  }

  /** The reference stable sort, largest key first. */
  function SortDesc<T>(s: seq<T>, key: T -> int): seq<T>
    decreases |s|
  {
    if s == [] then [] else Insert(SortDesc(s[..|s| - 1], key), s[|s| - 1], key)
  }

  lemma {:induction false} WithKeyAppend<T>(a: seq<T>, b: seq<T>, key: T -> int, k: int)
    ensures WithKey(a + b, key, k) == WithKey(a, key, k) + WithKey(b, key, k)
  {
    if a == [] {
      assert a + b == b;
    } else {
      var c := a + b;
      assert c[0] == a[0] && c[1..] == a[1..] + b;
      WithKeyAppend(a[1..], b, key, k);
      var h := if key(a[0]) == k then [a[0]] else [];
      assert WithKey(c, key, k) == h + (WithKey(a[1..], key, k) + WithKey(b, key, k));
      assert WithKey(a, key, k) == h + WithKey(a[1..], key, k);
    }
  }

  /** Inserting adds `x` to the elements and removes none. */
  lemma {:induction false} InsertPerm<T>(t: seq<T>, x: T, key: T -> int)
    ensures multiset(Insert(t, x, key)) == multiset(t) + multiset{x}
  {
    if t != [] && key(t[0]) >= key(x) {
      InsertPerm(t[1..], x, key);
      assert t == [t[0]] + t[1..];
    }
  }

  /** A bound on every key of `t` and on the key of `x` bounds every key of the insertion. */
  lemma {:induction false} InsertBounded<T>(t: seq<T>, x: T, key: T -> int, b: int)
    requires forall m :: 0 <= m < |t| ==> key(t[m]) <= b
    requires key(x) <= b
    ensures forall m :: 0 <= m < |Insert(t, x, key)| ==> key(Insert(t, x, key)[m]) <= b
  {
    if t != [] && key(t[0]) >= key(x) {
      InsertBounded(t[1..], x, key, b);
    }
  }

  lemma {:induction false} InsertSorted<T>(t: seq<T>, x: T, key: T -> int)
    requires SortedDesc(t, key)
    ensures SortedDesc(Insert(t, x, key), key)
  {
    if t != [] && key(t[0]) >= key(x) {
      var u := t[1..];
      InsertSorted(u, x, key);
      InsertBounded(u, x, key, key(t[0]));
      var r' := Insert(u, x, key);
      assert Insert(t, x, key) == [t[0]] + r';
    }
  }

  /** A sorted sequence that starts below `k` has no element with key `k`. */
  lemma {:induction false} NoneWithKey<T>(t: seq<T>, key: T -> int, k: int)
    requires SortedDesc(t, key) && t != [] && key(t[0]) < k
    ensures WithKey(t, key, k) == []
  {
    if |t| > 1 {
      SortedTail(t, key);
      NoneWithKey(t[1..], key, k);
    }
  }

  /** Inserting `x` appends it to the elements of its own key and leaves the others alone. */
  lemma {:induction false} InsertWithKey<T>(t: seq<T>, x: T, key: T -> int, k: int)
    requires SortedDesc(t, key)
    ensures WithKey(Insert(t, x, key), key, k) == WithKey(t, key, k) + (if key(x) == k then [x] else [])
  {
    if t == [] {
      WithKeySingle(x, key, k);
    } else if key(t[0]) >= key(x) {
      var u := t[1..];
      SortedTail(t, key);
      InsertWithKey(u, x, key, k);
      var r := Insert(u, x, key);
      assert Insert(t, x, key) == [t[0]] + r;
      WithKeyCons(t[0], r, key, k);
      assert t == [t[0]] + u;
      WithKeyCons(t[0], u, key, k);
    } else {
      NoneWithKey(t, key, key(x));
      WithKeyCons(x, t, key, k);
    }
  }

  /** The reference sort is sorted, a permutation of its input, and stable. */
  lemma {:induction false} SortDescCorrect<T>(s: seq<T>, key: T -> int)
    ensures SortedDesc(SortDesc(s, key), key)
    ensures multiset(SortDesc(s, key)) == multiset(s)
    ensures forall k :: WithKey(SortDesc(s, key), key, k) == WithKey(s, key, k)
    decreases |s|
  {
    if s != [] {
      var init, x := s[..|s| - 1], s[|s| - 1];
      var r := SortDesc(init, key);
      assert SortDesc(s, key) == Insert(r, x, key);
      SortDescCorrect(init, key);
      InsertSorted(r, x, key);
      InsertPerm(r, x, key);
      assert s == init + [x];
      assert multiset(s) == multiset(init) + multiset{x};
      forall k ensures WithKey(SortDesc(s, key), key, k) == WithKey(s, key, k) {
        InsertWithKey(r, x, key, k);
        WithKeyAppend(init, [x], key, k);
        WithKeySingle(x, key, k);
      }
    }
  }

  lemma WithKeyCons<T>(y: T, r: seq<T>, key: T -> int, k: int)
    ensures WithKey([y] + r, key, k) == (if key(y) == k then [y] else []) + WithKey(r, key, k)
  {
    assert ([y] + r)[0] == y && ([y] + r)[1..] == r;
  }

  lemma WithKeySingle<T>(x: T, key: T -> int, k: int)
    ensures WithKey([x], key, k) == if key(x) == k then [x] else []
  {
    assert WithKey([x], key, k) == (if key(x) == k then [x] else []) + WithKey([], key, k);
  }

  lemma {:induction false} WithKeyMember<T>(s: seq<T>, key: T -> int, k: int, x: T)
    ensures x in WithKey(s, key, k) <==> x in s && key(x) == k
  {
    if s != [] {
      WithKeyMember(s[1..], key, k, x);
      assert s == [s[0]] + s[1..];
    }
  }

  lemma FirstHasKey<T>(s: seq<T>, key: T -> int)
    ensures s != [] ==> WithKey(s, key, key(s[0])) != []
  {
  }

  /** In a sorted sequence no element has a larger key than the first. */
  lemma BelowHead<T>(s: seq<T>, key: T -> int, x: T)
    requires SortedDesc(s, key) && x in s
    ensures key(x) <= key(s[0])
  {
    var m :| 0 <= m < |s| && s[m] == x;
    if m > 0 {
      assert key(s[m]) <= key(s[0]);
    }
  }

  /** Two sorted sequences with the same elements of their first keys start with the same element. */
  lemma SameHead<T>(s: seq<T>, t: seq<T>, key: T -> int)
    requires SortedDesc(s, key) && SortedDesc(t, key) && s != [] && t != []
    requires WithKey(s, key, key(s[0])) == WithKey(t, key, key(s[0]))
    requires WithKey(s, key, key(t[0])) == WithKey(t, key, key(t[0]))
    ensures s[0] == t[0]
  {
    var ks, kt := key(s[0]), key(t[0]);
    var u, v := WithKey(s, key, ks), WithKey(t, key, kt);
    assert u == [s[0]] + WithKey(s[1..], key, ks);
    assert v == [t[0]] + WithKey(t[1..], key, kt);
    WithKeyMember(t, key, ks, s[0]);
    BelowHead(t, key, s[0]);
    WithKeyMember(s, key, kt, t[0]);
    BelowHead(s, key, t[0]);
    assert ks == kt;
    assert u == v;
    assert u[0] == s[0] && v[0] == t[0];
  }

  /** Equal heads leave the tails with the same elements of each key. */
  lemma SameTails<T>(s: seq<T>, t: seq<T>, key: T -> int)
    requires s != [] && t != [] && s[0] == t[0]
    requires forall k :: WithKey(s, key, k) == WithKey(t, key, k)
    ensures forall k :: WithKey(s[1..], key, k) == WithKey(t[1..], key, k)
  {
    forall k ensures WithKey(s[1..], key, k) == WithKey(t[1..], key, k) {
      var h := if key(s[0]) == k then [s[0]] else [];
      assert WithKey(s, key, k) == h + WithKey(s[1..], key, k);
      assert WithKey(t, key, k) == h + WithKey(t[1..], key, k);
      assert WithKey(s[1..], key, k) == WithKey(s, key, k)[|h|..];
      assert WithKey(t[1..], key, k) == WithKey(t, key, k)[|h|..];
    }
  }

  /**
   * A sorted sequence with the same elements of each key, in the same order, is
   * the reference sort: every stable descending sort gives this one result.
   */
  lemma {:induction false} SortedStableUnique<T>(s: seq<T>, t: seq<T>, key: T -> int)
    requires SortedDesc(s, key) && SortedDesc(t, key)
    requires forall k :: WithKey(s, key, k) == WithKey(t, key, k)
    ensures s == t
  {
    FirstHasKey(s, key);
    FirstHasKey(t, key);
    if s != [] && t != [] {
      SameHead(s, t, key);
      SameTails(s, t, key);
      SortedTail(s, key);
      SortedTail(t, key);
      SortedStableUnique(s[1..], t[1..], key);
      SameHeadAndTail(s, t);
    }
  }

  lemma SortedTail<T>(s: seq<T>, key: T -> int)
    requires SortedDesc(s, key) && s != []
    ensures SortedDesc(s[1..], key)
  {
    forall i, j | 0 <= i < j < |s| - 1 ensures key(s[1..][j]) <= key(s[1..][i]) {
      assert s[1..][j] == s[j + 1] && s[1..][i] == s[i + 1];
    }
  }

  /** Cutting a sorted sequence anywhere leaves no key behind the cut above a key before it. */
  lemma CutOrdered<T>(t: seq<T>, n: nat, e: T, f: T, key: T -> int)
    requires n <= |t| && SortedDesc(t, key)
    requires e in t[n..] && f in t[..n]
    ensures key(e) <= key(f)
  {
    var j :| 0 <= j < |t| - n && t[n..][j] == e;
    var i :| 0 <= i < n && t[..n][i] == f;
    assert t[n + j] == e && t[i] == f;
  }

  lemma SameHeadAndTail<T>(s: seq<T>, t: seq<T>)
    requires s != [] && t != [] && s[0] == t[0] && s[1..] == t[1..]
    ensures s == t
  {
    assert s == [s[0]] + s[1..] && t == [t[0]] + t[1..];
  }

  /** Where the insertion lands: behind the elements with at least the key of `x`, before the smaller ones. */
  lemma {:induction false} InsertAt<T>(p: seq<T>, x: T, key: T -> int, j: nat)
    requires SortedDesc(p, key) && j <= |p|
    requires j > 0 ==> key(p[j - 1]) >= key(x)
    requires forall m :: j <= m < |p| ==> key(p[m]) < key(x)
    ensures Insert(p, x, key) == p[..j] + [x] + p[j..]
  {
    if j == 0 {
      assert p[j..] == p;
    } else {
      assert key(p[0]) >= key(x);
      InsertAt(p[1..], x, key, j - 1);
      assert p[..j] == [p[0]] + p[1..][..j - 1];
      assert p[j..] == p[1..][j - 1..];
    }
  }

  /** `r` is `p` with `x` put in at index `j`, checked element by element. */
  lemma PutIn<T>(r: seq<T>, p: seq<T>, x: T, j: nat)
    requires j <= |p| && |r| == |p| + 1
    requires forall m :: 0 <= m < j ==> r[m] == p[m]
    requires r[j] == x
    requires forall m :: j < m < |r| ==> r[m] == p[m - 1]
    ensures r == p[..j] + [x] + p[j..]
  {
  }

  /**
   * Moves `a[i]` left past the elements of `a[..i]` with a smaller key and
   * returns where it lands: behind the last element with at least its key.
   */
  method InsertLast<T>(a: array<T>, i: nat, key: T -> int) returns (j: nat)
    requires i < a.Length
    modifies a
    ensures j <= i
    ensures a[..i + 1] == old(a[..i])[..j] + [old(a[i])] + old(a[..i])[j..]
    ensures forall m :: i < m < a.Length ==> a[m] == old(a[m])
    ensures j > 0 ==> key(old(a[j - 1])) >= key(old(a[i]))
    ensures forall m :: j <= m < i ==> key(old(a[m])) < key(old(a[i]))
  {
    ghost var p := a[..i];
    var x := a[i];
    j := i;
    while j > 0 && key(a[j - 1]) < key(x)
      invariant 0 <= j <= i
      invariant forall m :: 0 <= m < j ==> a[m] == p[m]
      invariant forall m :: j < m <= i ==> a[m] == p[m - 1]
      invariant forall m :: i < m < a.Length ==> a[m] == old(a[m])
      invariant forall m :: j <= m < i ==> key(p[m]) < key(x)
    {
      a[j] := a[j - 1];
      j := j - 1;
    }
    a[j] := x;
    PutIn(a[..i + 1], p, x, j);
  }

  /** One step of the insertion sort: inserting `s[i]` where it lands extends the reference sort by one element. */
  lemma InsertStep<T>(s: seq<T>, i: nat, p: seq<T>, j: nat, key: T -> int)
    requires i < |s| && p == SortDesc(s[..i], key) && |p| == i && j <= i
    requires j > 0 ==> key(p[j - 1]) >= key(s[i])
    requires forall m :: j <= m < i ==> key(p[m]) < key(s[i])
    ensures p[..j] + [s[i]] + p[j..] == SortDesc(s[..i + 1], key)
  {
    SortDescCorrect(s[..i], key);
    InsertAt(p, s[i], key, j);
    assert s[..i + 1][..i] == s[..i];
  }

  /**
   * Insertion sort in place, largest key first; it computes the reference sort,
   * which is why the result is sorted, a permutation and stable.
   */
  method SortInPlace<T>(a: array<T>, key: T -> int)
    modifies a
    ensures a[..] == SortDesc(old(a[..]), key)
    ensures SortedDesc(a[..], key) && multiset(a[..]) == multiset(old(a[..]))
    ensures forall k :: WithKey(a[..], key, k) == WithKey(old(a[..]), key, k)
  {
    ghost var s := a[..];
    var i := 0;
    while i < a.Length
      invariant 0 <= i <= a.Length
      invariant a[..i] == SortDesc(s[..i], key)
      invariant forall m :: i <= m < a.Length ==> a[m] == s[m]
    {
      ghost var p := a[..i];
      var j := InsertLast(a, i, key);
      InsertStep(s, i, p, j, key);
      i := i + 1;
    }
    assert s[..a.Length] == s;
    assert a[..a.Length] == a[..];
    SortDescCorrect(s, key);
  }
}

/** Python's `sorted(s, key=key, reverse=desc)` over a key with real values:
    a stable sort, ascending, or descending when `desc` holds. Equal keys keep
    their input order in both directions, as Python documents for `reverse`.
    It is written as an insertion sort; the lemmas below state the three
    properties that determine the result: a permutation, ordered, stable. */
module StableSort {

  /** `a` may stand before `b` in the sorted output. */
  predicate Precedes(a: real, b: real, desc: bool) {
    if desc then a >= b else a <= b
  }

  /** Inserts `x` before the first element it may precede, which puts it
      ahead of every element with an equal key. */
  function Insert<T>(x: T, s: seq<T>, key: T -> real, desc: bool): seq<T> {
    if s == [] then [x]
    else if Precedes(key(x), key(s[0]), desc) then [x] + s
    else [s[0]] + Insert(x, s[1..], key, desc)
  }

  function SortBy<T>(s: seq<T>, key: T -> real, desc: bool): seq<T> {
    if s == [] then [] else Insert(s[0], SortBy(s[1..], key, desc), key, desc)
  }

  ghost predicate Ordered<T>(s: seq<T>, key: T -> real, desc: bool) {
    forall i, j :: 0 <= i < j < |s| ==> Precedes(key(s[i]), key(s[j]), desc)
  }

  /** The elements of `s` whose key is `k`, in their order in `s`. */
  function WithKey<T>(s: seq<T>, key: T -> real, k: real): seq<T> {
    if s == [] then []
    else (if key(s[0]) == k then [s[0]] else []) + WithKey(s[1..], key, k)
  }

  /** Stability: for every key, the elements carrying it appear in `r` in the
      same order as in `s`. */
  ghost predicate Stable<T>(r: seq<T>, s: seq<T>, key: T -> real) {
    forall k :: WithKey(r, key, k) == WithKey(s, key, k)
  }

  // ---------------------------------------------------------------------

  lemma {:induction false} InsertPermutes<T>(x: T, s: seq<T>, key: T -> real, desc: bool)
    ensures multiset(Insert(x, s, key, desc)) == multiset([x] + s)
  {
    if s != [] && !Precedes(key(x), key(s[0]), desc) {
      InsertPermutes(x, s[1..], key, desc);
      assert s == [s[0]] + s[1..];
    }
  }

  /** A bound every element and `x` respect is respected after inserting
      `x`. */
  lemma {:induction false} InsertBounded<T>(x: T, s: seq<T>, key: T -> real, desc: bool, lo: real)
    requires Precedes(lo, key(x), desc)
    requires forall i :: 0 <= i < |s| ==> Precedes(lo, key(s[i]), desc)
    ensures forall i :: 0 <= i < |Insert(x, s, key, desc)| ==> Precedes(lo, key(Insert(x, s, key, desc)[i]), desc)
  {
    if s != [] && !Precedes(key(x), key(s[0]), desc) {
      var t := Insert(x, s[1..], key, desc);
      InsertBounded(x, s[1..], key, desc, lo);
      var r := [s[0]] + t;
      forall i | 0 <= i < |r| ensures Precedes(lo, key(r[i]), desc) {
        if i > 0 { assert r[i] == t[i - 1]; }
      }
    }
  }

  lemma {:induction false} InsertOrdered<T>(x: T, s: seq<T>, key: T -> real, desc: bool)
    requires Ordered(s, key, desc)
    ensures Ordered(Insert(x, s, key, desc), key, desc)
  {
    if s == [] {
    } else if Precedes(key(x), key(s[0]), desc) {
      var r := [x] + s;
      forall i, j | 0 <= i < j < |r| ensures Precedes(key(r[i]), key(r[j]), desc) {
        if i > 0 {
          assert r[i] == s[i - 1] && r[j] == s[j - 1];
        } else if j > 1 {
          assert r[j] == s[j - 1];
          assert Precedes(key(s[0]), key(s[j - 1]), desc);
        }
      }
    } else {
      var t := Insert(x, s[1..], key, desc);
      InsertOrdered(x, s[1..], key, desc);
      assert forall j :: 0 <= j < |t| ==> Precedes(key(s[0]), key(t[j]), desc) by {
        forall i | 0 <= i < |s[1..]| ensures Precedes(key(s[0]), key(s[1..][i]), desc) {
          assert s[1..][i] == s[i + 1];
        }
        InsertBounded(x, s[1..], key, desc, key(s[0]));
      }
      var r := [s[0]] + t;
      forall i, j | 0 <= i < j < |r| ensures Precedes(key(r[i]), key(r[j]), desc) {
        if i == 0 {
          assert r[j] == t[j - 1];
        } else {
          assert r[i] == t[i - 1] && r[j] == t[j - 1];
        }
      }
    }
  }

  lemma {:induction false} InsertStable<T>(x: T, s: seq<T>, key: T -> real, desc: bool, k: real)
    ensures WithKey(Insert(x, s, key, desc), key, k) == WithKey([x] + s, key, k)
  {
    if s != [] && !Precedes(key(x), key(s[0]), desc) {
      // x passes over s[0], whose key differs from x's, so at most one of
      // the two carries the key k
      var t := Insert(x, s[1..], key, desc);
      var hx := if key(x) == k then [x] else [];
      var h0 := if key(s[0]) == k then [s[0]] else [];
      InsertStable(x, s[1..], key, desc, k);
      assert WithKey([s[0]] + t, key, k) == h0 + WithKey(t, key, k) by {
        assert ([s[0]] + t)[0] == s[0] && ([s[0]] + t)[1..] == t;
      }
      assert WithKey([x] + s[1..], key, k) == hx + WithKey(s[1..], key, k) by {
        assert ([x] + s[1..])[0] == x && ([x] + s[1..])[1..] == s[1..];
      }
      assert WithKey([x] + s, key, k) == hx + WithKey(s, key, k) by {
        assert ([x] + s)[0] == x && ([x] + s)[1..] == s;
      }
      assert WithKey(s, key, k) == h0 + WithKey(s[1..], key, k);
      assert h0 + hx == hx + h0;
    }
  }

  lemma {:induction false} SortByPermutes<T>(s: seq<T>, key: T -> real, desc: bool)
    ensures multiset(SortBy(s, key, desc)) == multiset(s)
  {
    if s != [] {
      SortByPermutes(s[1..], key, desc);
      InsertPermutes(s[0], SortBy(s[1..], key, desc), key, desc);
      assert s == [s[0]] + s[1..];
    }
  }

  lemma SortByLength<T>(s: seq<T>, key: T -> real, desc: bool)
    ensures |SortBy(s, key, desc)| == |s|
  {
    SortByPermutes(s, key, desc);
    assert |multiset(SortBy(s, key, desc))| == |multiset(s)|;
  }

  lemma {:induction false} SortByOrdered<T>(s: seq<T>, key: T -> real, desc: bool)
    ensures Ordered(SortBy(s, key, desc), key, desc)
  {
    if s != [] {
      SortByOrdered(s[1..], key, desc);
      InsertOrdered(s[0], SortBy(s[1..], key, desc), key, desc);
    }
  }

  lemma {:induction false} SortByStable<T>(s: seq<T>, key: T -> real, desc: bool)
    ensures Stable(SortBy(s, key, desc), s, key)
  {
    if s != [] {
      var rest := SortBy(s[1..], key, desc);
      SortByStable(s[1..], key, desc);
      forall k ensures WithKey(SortBy(s, key, desc), key, k) == WithKey(s, key, k) {
        InsertStable(s[0], rest, key, desc, k);
        assert ([s[0]] + rest)[1..] == rest;
        assert WithKey(rest, key, k) == WithKey(s[1..], key, k);
      }
    }
  }

  /** What `sorted` promises: a permutation, ordered by the key in the chosen
      direction, and stable. */
  lemma SortByCorrect<T>(s: seq<T>, key: T -> real, desc: bool)
    ensures |SortBy(s, key, desc)| == |s|
    ensures multiset(SortBy(s, key, desc)) == multiset(s)
    ensures Ordered(SortBy(s, key, desc), key, desc)
    ensures Stable(SortBy(s, key, desc), s, key)
  {
    SortByLength(s, key, desc);
    SortByPermutes(s, key, desc);
    SortByOrdered(s, key, desc);
    SortByStable(s, key, desc);
  }
}

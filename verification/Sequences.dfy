/** Ascending lists, lists without repetition, and a stable sort. */
module Sequences {
  predicate NoRepeats<T(==)>(s: seq<T>) {
    forall i, j :: 0 <= i < j < |s| ==> s[i] != s[j]
  }

  // -------------------------------------------------------- ascending lists

  predicate Ascending(s: seq<int>) {
    forall i, j :: 0 <= i < j < |s| ==> s[i] < s[j]
  }

  lemma AscendingSnoc(s: seq<int>, x: int)
    requires Ascending(s) && forall y :: y in s ==> y < x
    ensures Ascending(s + [x])
  {
    assert forall i :: 0 <= i < |s| ==> s[i] in s;
  }

  lemma AscendingConcat(a: seq<int>, b: seq<int>)
    requires Ascending(a) && Ascending(b) && forall x, y :: x in a && y in b ==> x < y
    ensures Ascending(a + b)
  {
    assert forall i :: 0 <= i < |a| ==> a[i] in a;
    assert forall i :: 0 <= i < |b| ==> b[i] in b;
  }

  /** An ascending list is determined by its elements. */
  lemma {:induction false} AscendingUnique(a: seq<int>, b: seq<int>)
    requires Ascending(a) && Ascending(b)
    requires forall q :: q in a <==> q in b
    ensures a == b
  {
    if |a| == 0 || |b| == 0 {
      FirstElement(a);
      FirstElement(b);
    } else {
      assert a[0] in a && b[0] in b;
      assert a[0] == b[0];
      forall q
        ensures q in a[1..] <==> q in b[1..]
      {
        assert q in a <==> q == a[0] || q in a[1..];
        assert q in b <==> q == b[0] || q in b[1..];
      }
      AscendingUnique(a[1..], b[1..]);
    }
  }

  lemma FirstElement(s: seq<int>)
    ensures |s| > 0 ==> s[0] in s
  {
  }

  lemma {:induction false} AscendingCount(s: seq<int>, elements: set<int>)
    requires Ascending(s) && forall q :: q in s <==> q in elements
    ensures |s| == |elements|
  {
    if |s| == 0 {
      assert forall q :: q in elements ==> q in s;
      assert elements == {};
    } else {
      var n := |s| - 1;
      forall q
        ensures q in s[..n] <==> q in elements - {s[n]}
      {
        assert q in s <==> q in s[..n] || q == s[n];
      }
      assert s[n] in elements;
      AscendingCount(s[..n], elements - {s[n]});
    }
  }

  lemma LastBounds(s: seq<int>, x: int)
    requires Ascending(s) && (|s| > 0 ==> s[|s| - 1] < x)
    ensures forall y :: y in s ==> y < x
  {
  }

  /** Adds a number to an ascending list, unless it is there. */
  function InsertAscending(s: seq<int>, x: int): seq<int> {
    if x in s then s
    else if |s| == 0 || s[|s| - 1] < x then s + [x]
    else InsertAscending(s[..|s| - 1], x) + [s[|s| - 1]]
  }

  lemma {:induction false} InsertAscendingIs(s: seq<int>, x: int)
    requires Ascending(s)
    ensures Ascending(InsertAscending(s, x))
    ensures forall y :: y in InsertAscending(s, x) <==> y in s || y == x
  {
    if x !in s {
      var n := |s| - 1;
      if n < 0 || s[n] < x {
        assert InsertAscending(s, x) == s + [x];
        hide InsertAscending;
        LastBounds(s, x);
        AscendingSnoc(s, x);
      } else {
        var f := InsertAscending(s[..n], x);
        assert InsertAscending(s, x) == f + [s[n]];
        hide InsertAscending;
        InsertAscendingIs(s[..n], x);
        assert s == s[..n] + [s[n]];
        AscendingSnoc(f, s[n]);
      }
    }
  }

  // ------------------------------------------------------------ stable sort

  predicate SortedBy<T>(s: seq<T>, key: T -> int) {
    forall i, j :: 0 <= i <= j < |s| ==> key(s[i]) <= key(s[j])
  }

  /** Insertion behind everything that is not greater. */
  function InsertBy<T>(s: seq<T>, x: T, key: T -> int): seq<T> {
    if |s| == 0 || key(s[|s| - 1]) <= key(x) then s + [x]
    else InsertBy(s[..|s| - 1], x, key) + [s[|s| - 1]]
  }

  function SortBy<T>(s: seq<T>, key: T -> int): seq<T> {
    if |s| == 0 then [] else InsertBy(SortBy(s[..|s| - 1], key), s[|s| - 1], key)
  }

  /** The elements with one key, in their order. */
  function WithKey<T>(s: seq<T>, key: T -> int, t: int): seq<T> {
    if |s| == 0 then []
    else WithKey(s[..|s| - 1], key, t) + if key(s[|s| - 1]) == t then [s[|s| - 1]] else []
  }

  lemma {:induction false} WithKeySnoc<T>(s: seq<T>, x: T, key: T -> int, t: int)
    ensures WithKey(s + [x], key, t) == WithKey(s, key, t) + if key(x) == t then [x] else []
  {
    assert (s + [x])[..|s|] == s;
  }

  lemma SortedSnoc<T>(s: seq<T>, x: T, key: T -> int)
    requires SortedBy(s, key) && forall i :: 0 <= i < |s| ==> key(s[i]) <= key(x)
    ensures SortedBy(s + [x], key)
  {
  }

  lemma {:induction false} InsertBounded<T>(s: seq<T>, x: T, key: T -> int, t: int)
    requires key(x) <= t && forall i :: 0 <= i < |s| ==> key(s[i]) <= t
    ensures var r := InsertBy(s, x, key);
            |r| == |s| + 1 && forall i :: 0 <= i < |r| ==> key(r[i]) <= t
  {
    if |s| > 0 && key(s[|s| - 1]) > key(x) {
      var n := |s| - 1;
      var f := InsertBy(s[..n], x, key);
      assert InsertBy(s, x, key) == f + [s[n]];
      hide InsertBy;
      InsertBounded(s[..n], x, key, t);
    } else {
      assert InsertBy(s, x, key) == s + [x];
    }
  }

  lemma {:induction false} InsertSorted<T>(s: seq<T>, x: T, key: T -> int)
    requires SortedBy(s, key)
    ensures SortedBy(InsertBy(s, x, key), key)
  {
    if |s| > 0 && key(s[|s| - 1]) > key(x) {
      var n := |s| - 1;
      var f := InsertBy(s[..n], x, key);
      assert InsertBy(s, x, key) == f + [s[n]];
      hide InsertBy;
      InsertSorted(s[..n], x, key);
      InsertBounded(s[..n], x, key, key(s[n]));
      SortedSnoc(f, s[n], key);
    } else {
      assert InsertBy(s, x, key) == s + [x];
      hide InsertBy;
      SortedSnoc(s, x, key);
    }
  }

  lemma {:induction false} InsertPermutes<T>(s: seq<T>, x: T, key: T -> int)
    ensures multiset(InsertBy(s, x, key)) == multiset(s) + multiset{x}
  {
    if |s| > 0 && key(s[|s| - 1]) > key(x) {
      var n := |s| - 1;
      InsertPermutes(s[..n], x, key);
      assert s == s[..n] + [s[n]];
    }
  }

  /** The new element comes last among its equals. */
  lemma {:induction false} InsertStable<T>(s: seq<T>, x: T, key: T -> int, t: int)
    ensures WithKey(InsertBy(s, x, key), key, t) == WithKey(s, key, t) + if key(x) == t then [x] else []
  {
    if |s| > 0 && key(s[|s| - 1]) > key(x) {
      var n := |s| - 1;
      var front, f := s[..n], InsertBy(s[..n], x, key);
      assert InsertBy(s, x, key) == f + [s[n]];
      assert s == front + [s[n]];
      hide InsertBy, WithKey;
      InsertStable(front, x, key, t);
      WithKeySnoc(f, s[n], key, t);
      WithKeySnoc(front, s[n], key, t);
      var a, b, c := WithKey(front, key, t), if key(x) == t then [x] else [], if key(s[n]) == t then [s[n]] else [];
      assert WithKey(s, key, t) == a + c && WithKey(InsertBy(s, x, key), key, t) == a + b + c;
      assert (b == [] || c == []) && a + b + c == a + c + b;
    } else {
      assert InsertBy(s, x, key) == s + [x];
      hide InsertBy, WithKey;
      WithKeySnoc(s, x, key, t);
    }
  }

  /** The sort is one: ascending, and of the same elements. */
  lemma {:induction false} SortByIs<T>(s: seq<T>, key: T -> int)
    ensures SortedBy(SortBy(s, key), key) && multiset(SortBy(s, key)) == multiset(s)
    ensures |SortBy(s, key)| == |s|
  {
    if |s| > 0 {
      var n := |s| - 1;
      var f := SortBy(s[..n], key);
      assert SortBy(s, key) == InsertBy(f, s[n], key);
      hide SortBy, InsertBy, SortedBy;
      SortByIs(s[..n], key);
      InsertSorted(f, s[n], key);
      InsertPermutes(f, s[n], key);
      assert s == s[..n] + [s[n]];
    }
    hide SortBy;
    SameSize(SortBy(s, key), s);
  }

  /** Equal keys keep their order. */
  lemma {:induction false} SortStable<T>(s: seq<T>, key: T -> int, t: int)
    ensures WithKey(SortBy(s, key), key, t) == WithKey(s, key, t)
  {
    if |s| > 0 {
      var n := |s| - 1;
      var f := SortBy(s[..n], key);
      assert SortBy(s, key) == InsertBy(f, s[n], key);
      hide SortBy, InsertBy;
      SortStable(s[..n], key, t);
      InsertStable(f, s[n], key, t);
      WithKeySnoc(s[..n], s[n], key, t);
      assert s == s[..n] + [s[n]];
    }
  }

  lemma SameSize<T>(a: seq<T>, b: seq<T>)
    requires multiset(a) == multiset(b)
    ensures |a| == |b|
  {
    assert |multiset(a)| == |multiset(b)|;
  }
}

/** Python's `list.sort(key=...)` / `sorted(...)`: a stable sort driven by a
    "less than" on elements. A descending sort (`reverse=True`) is the same
    stable sort with the comparison turned round, which is how Python keeps
    equal elements in their original order under `reverse=True` too. */
module Sorting {
  import Strings

  /** `less` is irreflexive and transitive, and "not less" is transitive:
      the orders that a sort key with a total order on keys induces. */
  ghost predicate StrictWeakOrder<T(!new)>(less: (T, T) -> bool) {
    && (forall a :: !less(a, a))
    && (forall a, b, c :: less(a, b) && less(b, c) ==> less(a, c))
    && (forall a, b, c :: !less(b, a) && !less(c, b) ==> !less(c, a))
  }

  /** No later element is less than an earlier one. */
  ghost predicate Sorted<T>(s: seq<T>, less: (T, T) -> bool) {
    forall i, j | 0 <= i < j < |s| :: !less(s[j], s[i])
  }

  /** Neither is less than the other: equal sort keys. */
  predicate Equiv<T>(a: T, b: T, less: (T, T) -> bool) {
    !less(a, b) && !less(b, a)
  }

  /** The elements of `s` with the same sort key as `x`, in their order in `s`. */
  function Class<T>(s: seq<T>, x: T, less: (T, T) -> bool): seq<T> {
    if s == [] then []
    else (if Equiv(s[0], x, less) then [s[0]] else []) + Class(s[1..], x, less)
  }

  /** Puts `x` in front of the first element that is not less than it. */
  function Insert<T>(x: T, s: seq<T>, less: (T, T) -> bool): (r: seq<T>)
    ensures |r| == |s| + 1
    ensures multiset(r) == multiset(s) + multiset{x}
  {
    if s == [] || !less(s[0], x) then [x] + s
    else
      assert s == [s[0]] + s[1..];
      [s[0]] + Insert(x, s[1..], less)
  }

  /** Stable insertion sort. */
  function Sort<T>(s: seq<T>, less: (T, T) -> bool): (r: seq<T>)
    ensures |r| == |s|
    ensures multiset(r) == multiset(s)
  {
    if s == [] then []
    else
      assert s == [s[0]] + s[1..];
      Insert(s[0], Sort(s[1..], less), less)
  }

  /** Sorting a sequence that is already sorted gives it back unchanged. */
  lemma {:induction false} SortOfSorted<T>(s: seq<T>, less: (T, T) -> bool)
    requires Sorted(s, less)
    ensures Sort(s, less) == s
  {
    if s != [] {
      assert Sorted(s[1..], less);
      SortOfSorted(s[1..], less);
      assert s == [s[0]] + s[1..];
      if s[1..] != [] {
        assert !less(s[1], s[0]);
      }
    }
  }

  lemma {:induction false} InsertSorted<T(!new)>(x: T, s: seq<T>, less: (T, T) -> bool)
    requires StrictWeakOrder(less) && Sorted(s, less)
    ensures Sorted(Insert(x, s, less), less)
  {
    var r := Insert(x, s, less);
    if s == [] || !less(s[0], x) {
      forall i, j | 0 <= i < j < |r| ensures !less(r[j], r[i]) {
        if i == 0 && j > 1 {
          assert !less(s[j - 1], s[0]);
        }
      }
    } else {
      InsertSorted(x, s[1..], less);
      var t := Insert(x, s[1..], less);
      forall k | 0 <= k < |t| ensures !less(t[k], s[0]) {
        assert t[k] in multiset(t);
        if t[k] != x {
          assert t[k] in multiset(s[1..]);
          var m :| 0 <= m < |s[1..]| && s[1..][m] == t[k];
          assert s[m + 1] == t[k];
        }
      }
      assert r == [s[0]] + t;
    }
  }

  /** The sort puts its input in order. */
  lemma {:induction false} SortSorted<T(!new)>(s: seq<T>, less: (T, T) -> bool)
    requires StrictWeakOrder(less)
    ensures Sorted(Sort(s, less), less)
  {
    if s != [] {
      SortSorted(s[1..], less);
      InsertSorted(s[0], Sort(s[1..], less), less);
    }
  }

  lemma {:induction false} ClassAppend<T>(a: seq<T>, b: seq<T>, x: T, less: (T, T) -> bool)
    ensures Class(a + b, x, less) == Class(a, x, less) + Class(b, x, less)
  {
    if a == [] {
      assert a + b == b;
    } else {
      var ab := a + b;
      assert ab[0] == a[0] && ab[1..] == a[1..] + b;
      var e: seq<T> := if Equiv(a[0], x, less) then [a[0]] else [];
      assert Class(ab, x, less) == e + Class(a[1..] + b, x, less);
      ClassAppend(a[1..], b, x, less);
      assert Class(a, x, less) == e + Class(a[1..], x, less);
      assert e + (Class(a[1..], x, less) + Class(b, x, less)) == (e + Class(a[1..], x, less)) + Class(b, x, less);
    }
  }

  lemma {:induction false} InsertClass<T(!new)>(y: T, s: seq<T>, x: T, less: (T, T) -> bool)
    requires StrictWeakOrder(less)
    ensures Class(Insert(y, s, less), x, less)
         == (if Equiv(y, x, less) then [y] else []) + Class(s, x, less)
  {
    if s == [] || !less(s[0], y) {
      var r := [y] + s;
      assert r[0] == y && r[1..] == s;
    } else {
      InsertClass(y, s[1..], x, less);
      if Equiv(y, x, less) && Equiv(s[0], x, less) {
        EquivNotLess(y, s[0], x, less);
      }
      InsertClassCons(y, s, x, less);
    }
  }

  /** Two elements with the key of `x` are not less than one another. */
  lemma EquivNotLess<T(!new)>(y: T, z: T, x: T, less: (T, T) -> bool)
    requires StrictWeakOrder(less)
    requires Equiv(y, x, less) && Equiv(z, x, less)
    ensures !less(z, y)
  {
  }

  /** The step of `InsertClass` where `y` goes after the head of `s`. */
  lemma InsertClassCons<T>(y: T, s: seq<T>, x: T, less: (T, T) -> bool)
    requires s != [] && less(s[0], y)
    requires Equiv(y, x, less) && Equiv(s[0], x, less) ==> !less(s[0], y)
    requires Class(Insert(y, s[1..], less), x, less)
          == (if Equiv(y, x, less) then [y] else []) + Class(s[1..], x, less)
    ensures Class(Insert(y, s, less), x, less)
         == (if Equiv(y, x, less) then [y] else []) + Class(s, x, less)
  {
    var ey: seq<T> := if Equiv(y, x, less) then [y] else [];
    var t := Insert(y, s[1..], less);
    var r := [s[0]] + t;
    assert r[0] == s[0] && r[1..] == t;
    assert Insert(y, s, less) == r;
    if Equiv(s[0], x, less) {
      assert ey == [];
      calc {
        Class(r, x, less);
        [s[0]] + Class(t, x, less);
        { assert ey + Class(s[1..], x, less) == Class(s[1..], x, less); }
        [s[0]] + Class(s[1..], x, less);
        Class(s, x, less);
        { assert ey + Class(s, x, less) == Class(s, x, less); }
        ey + Class(s, x, less);
      }
    } else {
      calc {
        Class(r, x, less);
        Class(t, x, less);
        ey + Class(s[1..], x, less);
        { assert Class(s, x, less) == Class(s[1..], x, less); }
        ey + Class(s, x, less);
      }
    }
  }

  /** Stability: elements with equal keys keep their relative order. */
  lemma {:induction false} SortStable<T(!new)>(s: seq<T>, x: T, less: (T, T) -> bool)
    requires StrictWeakOrder(less)
    ensures Class(Sort(s, less), x, less) == Class(s, x, less)
  {
    if s != [] {
      SortStable(s[1..], x, less);
      InsertClass(s[0], Sort(s[1..], less), x, less);
    }
  }

  /** Any two different elements of `s` are ordered one way or the other. */
  ghost predicate Comparable<T>(s: seq<T>, less: (T, T) -> bool) {
    forall i, j | 0 <= i < |s| && 0 <= j < |s| && s[i] != s[j] :: less(s[i], s[j]) || less(s[j], s[i])
  }

  lemma SortedTail<T>(s: seq<T>, less: (T, T) -> bool)
    requires Sorted(s, less) && s != []
    ensures Sorted(s[1..], less)
  {
    forall i, j | 0 <= i < j < |s| - 1 ensures !less(s[1..][j], s[1..][i]) {
      assert s[1..][j] == s[j + 1] && s[1..][i] == s[i + 1];
    }
  }

  /** Two sorted arrangements of the same elements start alike when the
      order tells every two different elements apart. */
  lemma SortedHeads<T>(a: seq<T>, b: seq<T>, less: (T, T) -> bool)
    requires multiset(a) == multiset(b) && a != []
    requires Sorted(a, less) && Sorted(b, less) && Comparable(a, less)
    ensures b != [] && a[0] == b[0]
  {
    assert a[0] in multiset(b) && |b| == |multiset(b)|;
    var m :| 0 <= m < |b| && b[m] == a[0];
    assert b[0] in multiset(a);
    var n :| 0 <= n < |a| && a[n] == b[0];
    assert n > 0 ==> !less(b[0], a[0]);
    assert m > 0 ==> !less(a[0], b[0]);
  }

  lemma ComparableTail<T>(a: seq<T>, less: (T, T) -> bool)
    requires Comparable(a, less) && a != []
    ensures Comparable(a[1..], less)
  {
    var t := a[1..];
    forall i, j | 0 <= i < |t| && 0 <= j < |t| && t[i] != t[j]
      ensures less(t[i], t[j]) || less(t[j], t[i])
    {
      assert t[i] == a[i + 1] && t[j] == a[j + 1];
    }
  }

  /** When the order tells every two different elements apart, there is only
      one sorted arrangement of a multiset. */
  lemma {:induction false} SortedUnique<T>(a: seq<T>, b: seq<T>, less: (T, T) -> bool)
    requires multiset(a) == multiset(b)
    requires Sorted(a, less) && Sorted(b, less) && Comparable(a, less)
    ensures a == b
  {
    if a == [] {
      assert |b| == |multiset(b)| == 0;
    } else {
      SortedHeads(a, b, less);
      assert a == [a[0]] + a[1..] && b == [b[0]] + b[1..];
      assert multiset(a[1..]) == multiset(a) - multiset{a[0]};
      assert multiset(b[1..]) == multiset(b) - multiset{b[0]};
      SortedTail(a, less);
      SortedTail(b, less);
      ComparableTail(a, less);
      SortedUnique(a[1..], b[1..], less);
    }
  }

  /** Sorting two arrangements of the same elements gives the same list when
      the order tells every two different elements apart. */
  lemma SortDeterminedByElements<T(!new)>(a: seq<T>, b: seq<T>, less: (T, T) -> bool)
    requires StrictWeakOrder(less)
    requires multiset(a) == multiset(b) && Comparable(a, less)
    ensures Sort(a, less) == Sort(b, less)
  {
    SortSorted(a, less);
    SortSorted(b, less);
    var sa := Sort(a, less);
    forall i, j | 0 <= i < |sa| && 0 <= j < |sa| && sa[i] != sa[j]
      ensures less(sa[i], sa[j]) || less(sa[j], sa[i])
    {
      assert sa[i] in multiset(a) && sa[j] in multiset(a);
    }
    SortedUnique(sa, Sort(b, less), less);
  }

  // ---------------------------------------------------------------------
  // The string orders the pipeline sorts by

  /** Python's `<` on strings is a strict weak order (indeed a total one). */
  lemma LexOrder()
    ensures StrictWeakOrder(Strings.LexLess)
  {
    forall a: string ensures !Strings.LexLess(a, a) {
      Strings.LexLessIrreflexive(a);
    }
    forall a: string, b: string, c: string | Strings.LexLess(a, b) && Strings.LexLess(b, c)
      ensures Strings.LexLess(a, c)
    {
      Strings.LexLessTransitive(a, b, c);
    }
    forall a: string, b: string, c: string | !Strings.LexLess(b, a) && !Strings.LexLess(c, b)
      ensures !Strings.LexLess(c, a)
    {
      if Strings.LexLess(c, a) {
        if a == b {
        } else {
          Strings.LexLessTotal(a, b);
          Strings.LexLessTransitive(c, a, b);
        }
      }
    }
  }

  /** The order of `sorted(..., key=str.lower)`. */
  predicate LowerLess(a: string, b: string) {
    Strings.LexLess(Strings.Lower(a), Strings.Lower(b))
  }

  lemma LowerOrder()
    ensures StrictWeakOrder(LowerLess)
  {
    LexOrder();
    forall a: string, b: string, c: string | LowerLess(a, b) && LowerLess(b, c)
      ensures LowerLess(a, c)
    {
      assert Strings.LexLess(Strings.Lower(a), Strings.Lower(b));
    }
    forall a: string, b: string, c: string | !LowerLess(b, a) && !LowerLess(c, b)
      ensures !LowerLess(c, a)
    {
      assert !Strings.LexLess(Strings.Lower(b), Strings.Lower(a));
    }
  }
}

/**
 * Python's `list.sort(key=functools.cmp_to_key(cmp))`, modelled as a stable
 * insertion sort. Python's sort consults only `cmp(x, y) < 0`, so the sort is
 * parameterised by that relation, written `before(x, y)`.
 *
 * Python promises a sorted and stable result (elements that tie keep their
 * relative order) when `before` is a strict weak order. `StableSortUnique`
 * proves that then exactly one list is sorted, stable and a permutation of the
 * input, and that it is the one `SortBy` returns. For a `before` that is
 * strict but not weak, as the media comparators are when a video has no
 * upload or receive time, Python's TimSort may return a different list (it
 * can leave two strictly ordered elements in their old order); the lemmas
 * that need only strictness then hold of this sort, not of Python's.
 */
module Sorting {

  /** `x` goes in front of the first element it comes before (see `InsertTies` for where that leaves the elements it ties with) */
  function Insert<T>(x: T, s: seq<T>, before: (T, T) -> bool): (r: seq<T>)
    ensures multiset(r) == multiset(s) + multiset{x}
  {
    if s == [] || before(x, s[0]) then [x] + s
    else
      assert s == [s[0]] + s[1..];
      [s[0]] + Insert(x, s[1..], before)
  }

  /** Insert the elements one at a time, left to right, into the sorted prefix */
  function SortBy<T>(s: seq<T>, before: (T, T) -> bool): (r: seq<T>)
    ensures multiset(r) == multiset(s)
  {
    if s == [] then []
    else
      assert s == s[..|s| - 1] + [s[|s| - 1]];
      Insert(s[|s| - 1], SortBy(s[..|s| - 1], before), before)
  }

  /** No element comes before an element to its left. */
  ghost predicate Sorted<T>(s: seq<T>, before: (T, T) -> bool)
  {
    forall i, j :: 0 <= i < j < |s| ==> !before(s[j], s[i])
  }

  /** `before` is asymmetric and transitive on the elements of `xs`. */
  ghost predicate StrictOn<T>(before: (T, T) -> bool, xs: multiset<T>)
  {
    && (forall x, y :: x in xs && y in xs && before(x, y) ==> !before(y, x))
    && (forall x, y, z :: x in xs && y in xs && z in xs && before(x, y) && before(y, z) ==> before(x, z))
  }

  /** A sorted list stays sorted under a new head that nothing in it comes before. */
  lemma SortedCons<T>(a: T, t: seq<T>, before: (T, T) -> bool)
    requires Sorted(t, before)
    requires forall y :: y in t ==> !before(y, a)
    ensures Sorted([a] + t, before)
  {
    var r := [a] + t;
    forall i, j | 0 <= i < j < |r|
      ensures !before(r[j], r[i])
    {
      assert r[j] == t[j - 1] && r[j] in t;
      if i > 0 {
        assert r[i] == t[i - 1];
      }
    }
  }

  lemma {:induction false} InsertSorted<T>(x: T, s: seq<T>, before: (T, T) -> bool)
    requires Sorted(s, before)
    requires StrictOn(before, multiset(s) + multiset{x})
    ensures Sorted(Insert(x, s, before), before)
  {
    if s == [] {
    } else if before(x, s[0]) {
      forall y | y in s
        ensures !before(y, x)
      {
        var j :| 0 <= j < |s| && s[j] == y;
        assert s[0] in multiset(s) && y in multiset(s);
        if j > 0 {
          assert !before(s[j], s[0]);
        }
      }
      SortedCons(x, s, before);
    } else {
      var tail := s[1..];
      assert s == [s[0]] + tail;
      assert Sorted(tail, before) by {
        forall i, j | 0 <= i < j < |tail|
          ensures !before(tail[j], tail[i])
        {
          assert tail[j] == s[j + 1] && tail[i] == s[i + 1];
        }
      }
      assert multiset(tail) + multiset{x} <= multiset(s) + multiset{x};
      InsertSorted(x, tail, before);
      var t := Insert(x, tail, before);
      forall y | y in t
        ensures !before(y, s[0])
      {
        assert y in multiset(t);
        if y != x {
          assert y in multiset(tail);
          var k :| 0 <= k < |tail| && tail[k] == y;
          assert s[k + 1] == y;
        }
      }
      SortedCons(s[0], t, before);
    }
  }

  /** For a strict order on its elements, the result is sorted. */
  lemma {:induction false} SortBySorted<T>(s: seq<T>, before: (T, T) -> bool)
    requires StrictOn(before, multiset(s))
    ensures Sorted(SortBy(s, before), before)
  {
    if s != [] {
      var init := s[..|s| - 1];
      assert s == init + [s[|s| - 1]];
      assert multiset(init) <= multiset(s);
      SortBySorted(init, before);
      InsertSorted(s[|s| - 1], SortBy(init, before), before);
    }
  }

  /** An element that comes before nothing in `s` lands at its end. */
  lemma {:induction false} InsertLast<T>(x: T, s: seq<T>, before: (T, T) -> bool)
    requires forall i :: 0 <= i < |s| ==> !before(x, s[i])
    ensures Insert(x, s, before) == s + [x]
  {
    if s != [] {
      InsertLast(x, s[1..], before);
    }
  }

  /** Sorting a sorted list changes nothing, whatever the comparator. */
  lemma {:induction false} SortBySortedFixed<T>(s: seq<T>, before: (T, T) -> bool)
    requires Sorted(s, before)
    ensures SortBy(s, before) == s
  {
    if s != [] {
      var init := s[..|s| - 1];
      var last := s[|s| - 1];
      assert Sorted(init, before) by {
        forall i, j | 0 <= i < j < |init|
          ensures !before(init[j], init[i])
        {
          assert init[j] == s[j] && init[i] == s[i];
        }
      }
      SortBySortedFixed(init, before);
      assert forall i :: 0 <= i < |init| ==> init[i] == s[i];
      InsertLast(last, init, before);
      assert s == init + [last];
    }
  }

  /** Sorting twice is sorting once, for a strict order on the elements. */
  lemma SortByIdempotent<T>(s: seq<T>, before: (T, T) -> bool)
    requires StrictOn(before, multiset(s))
    ensures SortBy(SortBy(s, before), before) == SortBy(s, before)
  {
    SortBySorted(s, before);
    SortBySortedFixed(SortBy(s, before), before);
  }

  // ---------------------------------------------------------------------------
  // Stability, and what Python's sort is then bound to return
  // ---------------------------------------------------------------------------

  /** Not coming before one another in either direction */
  predicate Tied<T>(before: (T, T) -> bool, a: T, b: T)
  {
    !before(a, b) && !before(b, a)
  }

  /** Negative transitivity: whatever comes before `z` comes before `y`, or `y` comes before `z`. */
  ghost predicate WeakOn<T>(before: (T, T) -> bool, xs: multiset<T>)
  {
    forall x, y, z :: x in xs && y in xs && z in xs && before(x, z) ==> before(x, y) || before(y, z)
  }

  /** The elements of `s` that tie with `z`, in their order in `s` */
  function Ties<T>(s: seq<T>, z: T, before: (T, T) -> bool): seq<T>
  {
    if s == [] then []
    else if Tied(before, s[0], z) then [s[0]] + Ties(s[1..], z, before)
    else Ties(s[1..], z, before)
  }

  lemma {:induction false} TiesAppend<T>(a: seq<T>, b: seq<T>, z: T, before: (T, T) -> bool)
    ensures Ties(a + b, z, before) == Ties(a, z, before) + Ties(b, z, before)
    decreases |a|
  {
    if a == [] {
      assert a + b == b;
    } else {
      var ab := a + b;
      assert ab[0] == a[0] && ab[1..] == a[1..] + b;
      TiesAppend(a[1..], b, z, before);
      var rest := Ties(a[1..], z, before);
      if Tied(before, a[0], z) {
        assert [a[0]] + (rest + Ties(b, z, before)) == ([a[0]] + rest) + Ties(b, z, before);
      }
    }
  }

  /**
   * Inserting into a sorted list under a strict weak order puts `x` after
   * every element it ties with: among the ties with any `z`, `x` comes last.
   */
  lemma {:induction false} InsertTies<T>(x: T, r: seq<T>, z: T, before: (T, T) -> bool, xs: multiset<T>)
    requires multiset(r) <= xs && x in xs && z in xs
    requires Sorted(r, before) && StrictOn(before, xs) && WeakOn(before, xs)
    ensures Ties(Insert(x, r, before), z, before) == Ties(r, z, before) + (if Tied(before, x, z) then [x] else [])
    decreases |r|
  {
    if r == [] {
      assert Insert(x, r, before) == [x];
    } else if before(x, r[0]) {
      InsertTiesFront(x, r, z, before, xs);
    } else {
      SortedTail(r, before);
      assert r == [r[0]] + r[1..];
      assert multiset(r[1..]) <= multiset(r);
      InsertTies(x, r[1..], z, before, xs);
      InsertTiesBehind(x, r, z, before);
    }
  }

  /** Inserting behind the head keeps the head's place among the ties. */
  lemma InsertTiesBehind<T>(x: T, r: seq<T>, z: T, before: (T, T) -> bool)
    requires r != [] && !before(x, r[0])
    requires Ties(Insert(x, r[1..], before), z, before) == Ties(r[1..], z, before) + (if Tied(before, x, z) then [x] else [])
    ensures Ties(Insert(x, r, before), z, before) == Ties(r, z, before) + (if Tied(before, x, z) then [x] else [])
  {
    var tail := r[1..];
    var rest := Insert(x, tail, before);
    assert r == [r[0]] + tail;
    assert Insert(x, r, before) == [r[0]] + rest;
    var h := if Tied(before, r[0], z) then [r[0]] else [];
    var p := if Tied(before, x, z) then [x] else [];
    TiesCons(r[0], rest, z, before);
    TiesCons(r[0], tail, z, before);
    var a, b := Ties(tail, z, before), Ties(rest, z, before);
    assert b == a + p;
    ConcatAssoc(h, a, p);
  }

  lemma ConcatAssoc<T>(a: seq<T>, b: seq<T>, c: seq<T>)
    ensures a + (b + c) == (a + b) + c
  {
  }

  /** The ties of a list with a head `h` */
  lemma TiesCons<T>(h: T, t: seq<T>, z: T, before: (T, T) -> bool)
    ensures Ties([h] + t, z, before) == (if Tied(before, h, z) then [h] else []) + Ties(t, z, before)
  {
    assert ([h] + t)[0] == h && ([h] + t)[1..] == t;
  }

  lemma InsertTiesFront<T>(x: T, r: seq<T>, z: T, before: (T, T) -> bool, xs: multiset<T>)
    requires multiset(r) <= xs && x in xs && z in xs
    requires Sorted(r, before) && StrictOn(before, xs) && WeakOn(before, xs)
    requires r != [] && before(x, r[0])
    ensures Ties(Insert(x, r, before), z, before) == Ties(r, z, before) + (if Tied(before, x, z) then [x] else [])
  {
    if Tied(before, x, z) {
      forall k | 0 <= k < |r|
        ensures !Tied(before, r[k], z)
      {
        InsertTiesHead(x, r, z, before, xs, k);
      }
      NoTies(r, z, before);
    }
    assert Insert(x, r, before) == [x] + r;
    TiesAppend([x], r, z, before);
  }

  /** What goes in front of a sorted list comes before all of it, and so ties with nothing `x` ties with. */
  lemma InsertTiesHead<T>(x: T, r: seq<T>, z: T, before: (T, T) -> bool, xs: multiset<T>, k: int)
    requires multiset(r) <= xs && x in xs && z in xs
    requires Sorted(r, before) && StrictOn(before, xs) && WeakOn(before, xs)
    requires 0 <= k < |r| && before(x, r[0]) && Tied(before, x, z)
    ensures !Tied(before, r[k], z)
  {
    assert r[k] in multiset(r) && r[0] in multiset(r);
    if k > 0 {
      assert !before(r[k], r[0]);
    }
    assert before(x, r[k]);
  }

  /** The tail of a sorted list is sorted. */
  lemma SortedTail<T>(r: seq<T>, before: (T, T) -> bool)
    requires r != [] && Sorted(r, before)
    ensures Sorted(r[1..], before)
  {
    var tail := r[1..];
    forall i, j | 0 <= i < j < |tail|
      ensures !before(tail[j], tail[i])
    {
      assert tail[j] == r[j + 1] && tail[i] == r[i + 1];
    }
  }

  /** A list none of whose elements ties with `z` has no ties with it. */
  lemma {:induction false} NoTies<T>(r: seq<T>, z: T, before: (T, T) -> bool)
    requires forall k :: 0 <= k < |r| ==> !Tied(before, r[k], z)
    ensures Ties(r, z, before) == []
    decreases |r|
  {
    if r != [] {
      assert forall k :: 0 <= k < |r[1..]| ==> r[1..][k] == r[k + 1];
      NoTies(r[1..], z, before);
    }
  }

  /** Under a strict weak order the sort is stable: the ties with each `z` keep their order. */
  lemma {:induction false} SortByStable<T>(s: seq<T>, z: T, before: (T, T) -> bool, xs: multiset<T>)
    requires multiset(s) <= xs && z in xs && StrictOn(before, xs) && WeakOn(before, xs)
    ensures Ties(SortBy(s, before), z, before) == Ties(s, z, before)
    decreases |s|
  {
    if s != [] {
      var init, last := s[..|s| - 1], s[|s| - 1];
      assert multiset(init) <= multiset(s) by {
        assert s == init + [last];
      }
      assert multiset(init) <= xs && last in xs;
      SortByStable(init, z, before, xs);
      var sorted := SortBy(init, before);
      assert multiset(sorted) <= xs;
      SortBySortedOn(init, before, xs);
      InsertTies(last, sorted, z, before, xs);
      var ins := Insert(last, sorted, before);
      assert Ties(SortBy(s, before), z, before) == Ties(ins, z, before) by {
        assert SortBy(s, before) == ins;
      }
      TiesSnoc(s, z, before);
    }
  }

  /** The ties of a list, its last element apart */
  lemma TiesSnoc<T>(s: seq<T>, z: T, before: (T, T) -> bool)
    requires s != []
    ensures Ties(s, z, before) == Ties(s[..|s| - 1], z, before) + (if Tied(before, s[|s| - 1], z) then [s[|s| - 1]] else [])
  {
    var init, last := s[..|s| - 1], s[|s| - 1];
    TiesAppend(init, [last], z, before);
    TiesCons(last, [], z, before);
    assert [last] + [] == [last];
    assert init + [last] == s;
  }

  /** `SortBy` sorts under any order strict on a multiset holding the input. */
  lemma SortBySortedOn<T>(s: seq<T>, before: (T, T) -> bool, xs: multiset<T>)
    requires multiset(s) <= xs && StrictOn(before, xs)
    ensures Sorted(SortBy(s, before), before)
  {
    SortBySorted(s, before);
  }

  /**
   * Two sorted lists with the same elements, whose ties with every element
   * come in the same order, are equal.
   */
  lemma {:induction false} SortedTiesUnique<T>(t: seq<T>, u: seq<T>, before: (T, T) -> bool)
    requires multiset(t) == multiset(u) && Sorted(t, before) && Sorted(u, before)
    requires forall z :: z in multiset(t) ==> !before(z, z)
    requires forall z :: z in multiset(t) ==> Ties(t, z, before) == Ties(u, z, before)
    ensures t == u
    decreases |t|
  {
    if t == [] {
      assert |u| == |multiset(u)| == 0;
    } else {
      var a := t[0];
      assert a in multiset(t);
      assert u != [];
      var b := u[0];
      HeadsTie(t, u, before);
      assert Ties(t, a, before) == [a] + Ties(t[1..], a, before);
      assert Ties(u, a, before) == [b] + Ties(u[1..], a, before);
      assert Ties(t, a, before)[0] == a && Ties(u, a, before)[0] == b;
      assert t == [a] + t[1..] && u == [a] + u[1..];
      assert multiset(t) == multiset{a} + multiset(t[1..]);
      assert multiset(u) == multiset{a} + multiset(u[1..]);
      SortedTail(t, before);
      SortedTail(u, before);
      assert multiset(t[1..]) <= multiset(t);
      forall z | z in multiset(t[1..])
        ensures Ties(t[1..], z, before) == Ties(u[1..], z, before)
      {
        var p := if Tied(before, a, z) then [a] else [];
        assert Ties(t, z, before) == p + Ties(t[1..], z, before);
        assert Ties(u, z, before) == p + Ties(u[1..], z, before);
        assert Ties(t[1..], z, before) == Ties(t, z, before)[|p|..];
        assert Ties(u[1..], z, before) == Ties(u, z, before)[|p|..];
      }
      SortedTiesUnique(t[1..], u[1..], before);
    }
  }

  /** The heads of two sorted lists with the same elements tie. */
  lemma HeadsTie<T>(t: seq<T>, u: seq<T>, before: (T, T) -> bool)
    requires t != [] && multiset(t) == multiset(u) && Sorted(t, before) && Sorted(u, before)
    requires forall z :: z in multiset(t) ==> !before(z, z)
    ensures u != [] && Tied(before, t[0], u[0])
  {
    assert t[0] in multiset(u);
    var k :| 0 <= k < |u| && u[k] == t[0];
    assert u[0] in multiset(t);
    var m :| 0 <= m < |t| && t[m] == u[0];
    if k > 0 {
      assert !before(u[k], u[0]);
    }
    if m > 0 {
      assert !before(t[m], t[0]);
    }
  }

  /**
   * Under a strict weak order, a permutation of `s` that is sorted and keeps
   * the ties of `s` in order (what Python's `list.sort` returns) is exactly
   * what `SortBy` returns.
   */
  lemma StableSortUnique<T>(s: seq<T>, t: seq<T>, before: (T, T) -> bool)
    requires StrictOn(before, multiset(s)) && WeakOn(before, multiset(s))
    requires multiset(t) == multiset(s) && Sorted(t, before)
    requires forall z :: z in multiset(s) ==> Ties(t, z, before) == Ties(s, z, before)
    ensures t == SortBy(s, before)
  {
    var xs := multiset(s);
    var r := SortBy(s, before);
    SortBySorted(s, before);
    forall z | z in multiset(t)
      ensures Ties(t, z, before) == Ties(r, z, before)
    {
      SortByStable(s, z, before, xs);
    }
    SortedTiesUnique(t, r, before);
  }

  /** A permutation of `t` holds only elements of `t`. */
  lemma PermutationMembers<T>(s: seq<T>, t: seq<T>)
    requires multiset(s) == multiset(t)
    ensures forall i :: 0 <= i < |s| ==> s[i] in t
  {
    forall i | 0 <= i < |s|
      ensures s[i] in t
    {
      assert s[i] in multiset(s);
    }
  }

  /**
   * Under a cyclic comparator, x < z < y < x, the insertion sort moves
   * [x, y, z] to [z, y, x] and that to [x, z, y]: sorting twice differs from
   * sorting once.
   */
  lemma SortCycleTwice<T>(x: T, y: T, z: T, before: (T, T) -> bool)
    requires before(x, z) && before(z, y) && before(y, x) && !before(y, z)
    ensures SortBy([x, y, z], before) == [z, y, x]
    ensures SortBy([z, y, x], before) == [x, z, y]
  {
    SortCycleFirst(x, y, z, before);
    SortCycleSecond(x, y, z, before);
  }

  /** `SortBy` on one, two and three elements, unfolded */
  lemma SortByOne<T>(x: T, before: (T, T) -> bool)
    ensures SortBy([x], before) == [x]
  {
    assert [x][..0] == [];
  }

  lemma SortByTwo<T>(x: T, y: T, before: (T, T) -> bool)
    ensures SortBy([x, y], before) == Insert(y, [x], before)
  {
    assert [x, y][..1] == [x];
    SortByOne(x, before);
  }

  lemma SortByThree<T>(x: T, y: T, z: T, before: (T, T) -> bool)
    ensures SortBy([x, y, z], before) == Insert(z, Insert(y, [x], before), before)
  {
    assert [x, y, z][..2] == [x, y];
    SortByTwo(x, y, before);
  }

  lemma SortCycleFirst<T>(x: T, y: T, z: T, before: (T, T) -> bool)
    requires before(z, y) && before(y, x)
    ensures SortBy([x, y, z], before) == [z, y, x]
  {
    SortByThree(x, y, z, before);
  }

  lemma SortCycleSecond<T>(x: T, y: T, z: T, before: (T, T) -> bool)
    requires before(x, z) && !before(y, z)
    ensures SortBy([z, y, x], before) == [x, z, y]
  {
    SortByThree(z, y, x, before);
    assert [z][1..] == [];
  }
}

/** Go's `sort.SliceStable` and `sort.Slice`, with the properties the callers rely on. */
module Sorting {
  ghost predicate StrictWeakOrder<T(!new)>(less: (T, T) -> bool) {
    && (forall a :: !less(a, a))
    && (forall a, b, c :: less(a, b) && less(b, c) ==> less(a, c))
    && (forall a, b, c :: less(a, c) ==> less(a, b) || less(b, c))
  }

  ghost predicate StrictTotalOrder<T(!new)>(less: (T, T) -> bool) {
    && (forall a :: !less(a, a))
    && (forall a, b, c :: less(a, b) && less(b, c) ==> less(a, c))
    && (forall a, b :: less(a, b) || a == b || less(b, a))
  }

  ghost predicate Sorted<T>(s: seq<T>, less: (T, T) -> bool) {
    forall i, j | 0 <= i < j < |s| :: !less(s[j], s[i])
  }

  ghost predicate StrictlySorted<T>(s: seq<T>, less: (T, T) -> bool) {
    forall i, j | 0 <= i < j < |s| :: less(s[i], s[j])
  }

  function Filter<T(!new)>(s: seq<T>, p: T -> bool): (r: seq<T>)
    ensures forall x :: x in r <==> x in s && p(x)
  {
    if s == [] then [] else if p(s[0]) then [s[0]] + Filter(s[1..], p) else Filter(s[1..], p)
  }

  function Insert<T(!new)>(x: T, s: seq<T>, less: (T, T) -> bool): (r: seq<T>)
    ensures multiset(r) == multiset{x} + multiset(s)
    ensures forall y :: y in r <==> y == x || y in s
  {
    if s == [] || !less(s[0], x) then [x] + s
    else
      assert s == [s[0]] + s[1..];
      [s[0]] + Insert(x, s[1..], less)
  }

  function Sort<T(!new)>(s: seq<T>, less: (T, T) -> bool): (r: seq<T>)
    ensures multiset(r) == multiset(s)
    ensures |r| == |s|
    ensures forall y :: y in r <==> y in s
  {
    if s == [] then []
    else
      assert s == [s[0]] + s[1..];
      var r := Insert(s[0], Sort(s[1..], less), less);
      assert |multiset(r)| == |multiset(s)|;
      r
  }

  lemma {:induction false} InsertSorted<T(!new)>(x: T, s: seq<T>, less: (T, T) -> bool)
    requires StrictWeakOrder(less) && Sorted(s, less)
    ensures Sorted(Insert(x, s, less), less)
  {
    if s != [] {
      if less(s[0], x) {
        InsertSorted(x, s[1..], less);
        var t := Insert(x, s[1..], less);
        forall y | y in t ensures !less(y, s[0]) {
          if y != x {
            var k :| 0 <= k < |s[1..]| && s[1..][k] == y;
            assert s[k + 1] == y;
          }
        }
      } else {
        forall y | y in s ensures !less(y, x) {
          var k :| 0 <= k < |s| && s[k] == y;
          assert k == 0 || !less(s[k], s[0]);
        }
      }
    }
  }

  lemma {:induction false} SortSorted<T(!new)>(s: seq<T>, less: (T, T) -> bool)
    requires StrictWeakOrder(less)
    ensures Sorted(Sort(s, less), less)
  {
    if s != [] {
      SortSorted(s[1..], less);
      InsertSorted(s[0], Sort(s[1..], less), less);
    }
  }

  lemma FilterCons<T(!new)>(x: T, s: seq<T>, p: T -> bool)
    ensures Filter([x] + s, p) == if p(x) then [x] + Filter(s, p) else Filter(s, p)
  {
    assert ([x] + s)[1..] == s;
  }

  lemma InsertCons<T(!new)>(x: T, y: T, s: seq<T>, less: (T, T) -> bool)
    ensures Insert(x, [y] + s, less) == if less(y, x) then [y] + Insert(x, s, less) else [x] + ([y] + s)
  {
    assert ([y] + s)[1..] == s;
  }

  lemma {:induction false} FilterInsert<T(!new)>(x: T, s: seq<T>, less: (T, T) -> bool, p: T -> bool)
    requires StrictWeakOrder(less) && Sorted(s, less)
    ensures Filter(Insert(x, s, less), p)
         == if p(x) then Insert(x, Filter(s, p), less) else Filter(s, p)
  {
    hide Filter, Insert;
    if s == [] {
      NothingInserted(x, less, p);
    } else {
      var y, rest := s[0], s[1..];
      assert s == [y] + rest;
      FilterCons(y, rest, p);
      InsertCons(x, y, rest, less);
      if less(y, x) {
        FilterInsert(x, rest, less, p);
        FilterCons(y, Insert(x, rest, less), p);
        InsertCons(x, y, Filter(rest, p), less);
      } else {
        FilterCons(x, s, p);
        InsertFront(x, Filter(s, p), s, less);
      }
    }
  }

  lemma NothingInserted<T(!new)>(x: T, less: (T, T) -> bool, p: T -> bool)
    ensures Filter(Insert(x, [], less), p) == if p(x) then Insert(x, Filter([], p), less) else Filter([], p)
  {
    assert Insert(x, [], less) == [x] && [x][1..] == [];
  }

  /** What is not above the least of a sorted list goes in front of anything selected from it. */
  lemma InsertFront<T(!new)>(x: T, f: seq<T>, s: seq<T>, less: (T, T) -> bool)
    requires StrictWeakOrder(less) && Sorted(s, less) && s != [] && !less(s[0], x)
    requires forall y | y in f :: y in s
    ensures Insert(x, f, less) == [x] + f
  {
    if f != [] {
      assert f[0] in f;
      var k :| 0 <= k < |s| && s[k] == f[0];
      assert k == 0 || !less(s[k], s[0]);
    }
  }

  /** Stability: what any predicate selects comes out in the order the same sort gives it alone. */
  lemma {:induction false} FilterSort<T(!new)>(s: seq<T>, less: (T, T) -> bool, p: T -> bool)
    requires StrictWeakOrder(less)
    ensures Filter(Sort(s, less), p) == Sort(Filter(s, p), less)
  {
    if s != [] {
      FilterSort(s[1..], less, p);
      SortSorted(s[1..], less);
      FilterInsert(s[0], Sort(s[1..], less), less, p);
      if p(s[0]) {
        assert Filter(s, p)[1..] == Filter(s[1..], p);
      }
    }
  }

  lemma {:induction false} SortOfSorted<T(!new)>(s: seq<T>, less: (T, T) -> bool)
    requires Sorted(s, less)
    ensures Sort(s, less) == s
  {
    if s != [] {
      SortOfSorted(s[1..], less);
      assert s == [s[0]] + s[1..];
      if |s| > 1 {
        assert !less(s[1], s[0]);
      }
    }
  }

  /** Any two positions hold elements that the order tells apart. */
  ghost predicate ToldApart<T>(s: seq<T>, less: (T, T) -> bool) {
    forall i, j | 0 <= i < j < |s| :: less(s[i], s[j]) || less(s[j], s[i])
  }

  lemma SameMembers<T>(a: seq<T>, b: seq<T>)
    requires multiset(a) == multiset(b)
    ensures |a| == |b| && forall x :: x in a <==> x in b
  {
    assert |multiset(a)| == |multiset(b)|;
    forall x ensures x in a <==> x in b {
      assert x in a <==> x in multiset(a);
    }
  }

  /** Takes one occurrence of an element out of a sequence. */
  lemma TakeOut<T>(b: seq<T>, x: T) returns (j: nat)
    requires x in multiset(b)
    ensures j < |b| && b[j] == x && b == b[..j] + [x] + b[j + 1..]
    ensures multiset(b[..j] + b[j + 1..]) == multiset(b) - multiset{x}
  {
    j :| 0 <= j < |b| && b[j] == x;
    assert b == b[..j] + [x] + b[j + 1..];
  }

  /** Takes out two; with the first in front, the second can be put back right behind it, or last. */
  lemma TakeTwo<T>(b: seq<T>, x: T, y: T) returns (rest: seq<T>)
    requires x in multiset(b) && y in multiset(b) - multiset{x}
    ensures multiset([x, y] + rest) == multiset(b) == multiset([x] + rest + [y])
  {
    var i := TakeOut(b, x);
    var r := b[..i] + b[i + 1..];
    var j := TakeOut(r, y);
    rest := r[..j] + r[j + 1..];
    PutBack(rest, x, y);
    PutBackCounts(multiset(b), multiset(r), multiset(rest), x, y);
  }

  lemma PutBackCounts<T>(all: multiset<T>, some: multiset<T>, rest: multiset<T>, x: T, y: T)
    requires x in all && y in some && some == all - multiset{x} && rest == some - multiset{y}
    ensures rest + multiset{x} + multiset{y} == all
  {
  }

  lemma PutBack<T>(rest: seq<T>, x: T, y: T)
    ensures multiset([x, y] + rest) == multiset([x] + rest + [y]) == multiset(rest) + multiset{x} + multiset{y}
  {
    assert multiset([x, y] + rest) == multiset([x, y]) + multiset(rest);
    assert multiset([x] + rest + [y]) == multiset([x] + rest) + multiset([y]);
  }

  lemma DropLast<T>(a: seq<T>)
    requires a != []
    ensures a == a[..|a| - 1] + [a[|a| - 1]] && multiset(a[..|a| - 1]) == multiset(a) - multiset{a[|a| - 1]}
  {
    assert a == a[..|a| - 1] + [a[|a| - 1]];
  }

  /** Elements that are all told apart sort to the same list, whatever order they come in. */
  lemma {:induction false} SortPermuted<T(!new)>(a: seq<T>, b: seq<T>, less: (T, T) -> bool)
    requires StrictWeakOrder(less) && multiset(a) == multiset(b) && ToldApart(a, less)
    ensures Sort(a, less) == Sort(b, less)
  {
    hide Sort;
    SortSorted(a, less);
    SortSorted(b, less);
    StrictFromApart(a, Sort(a, less), less);
    StrictFromApart(a, Sort(b, less), less);
    SameMembers(a, b);
    AscendingUnique(Sort(a, less), Sort(b, less), less);
  }

  lemma StrictFromApart<T(!new)>(a: seq<T>, r: seq<T>, less: (T, T) -> bool)
    requires StrictWeakOrder(less) && multiset(a) == multiset(r) && ToldApart(a, less) && Sorted(r, less)
    ensures StrictlySorted(r, less)
  {
    forall i, j | 0 <= i < j < |r| ensures less(r[i], r[j]) {
      assert r[i] in multiset(a) && r[j] in multiset(a);
      var x :| 0 <= x < |a| && a[x] == r[i];
      if r[i] == r[j] {
        DuplicateCounted(r, i, j);
        OnlyOnce(a, x, less);
        assert false;
      } else {
        var y :| 0 <= y < |a| && a[y] == r[j];
      }
    }
  }

  lemma OnlyOnce<T(!new)>(a: seq<T>, x: nat, less: (T, T) -> bool)
    requires StrictWeakOrder(less) && ToldApart(a, less) && x < |a|
    ensures multiset(a)[a[x]] == 1
  {
    assert a == a[..x] + [a[x]] + a[x + 1..];
    assert a[x] !in a[..x] && a[x] !in a[x + 1..];
  }

  lemma {:induction false} FilterCounts<T(!new)>(a: seq<T>, p: T -> bool, x: T)
    ensures multiset(Filter(a, p))[x] == if p(x) then multiset(a)[x] else 0
  {
    if a != [] {
      FilterCounts(a[1..], p, x);
      assert a == [a[0]] + a[1..];
      assert p(a[0]) ==> Filter(a, p) == [a[0]] + Filter(a[1..], p);
    }
  }

  lemma FilterPermuted<T(!new)>(a: seq<T>, b: seq<T>, p: T -> bool)
    requires multiset(a) == multiset(b)
    ensures multiset(Filter(a, p)) == multiset(Filter(b, p))
  {
    forall x ensures multiset(Filter(a, p))[x] == multiset(Filter(b, p))[x] {
      FilterCounts(a, p, x);
      FilterCounts(b, p, x);
    }
  }

  lemma {:induction false} FilterApart<T(!new)>(a: seq<T>, less: (T, T) -> bool, p: T -> bool)
    requires ToldApart(a, less)
    ensures ToldApart(Filter(a, p), less)
  {
    if a != [] {
      FilterApart(a[1..], less, p);
      var f := Filter(a[1..], p);
      forall j | 0 <= j < |f| ensures less(a[0], f[j]) || less(f[j], a[0]) {
        assert f[j] in f;
        var k :| 0 <= k < |a[1..]| && a[1..][k] == f[j];
        assert a[k + 1] == f[j];
      }
    }
  }

  lemma {:induction false} FilterAppend<T(!new)>(a: seq<T>, b: seq<T>, p: T -> bool)
    ensures Filter(a + b, p) == Filter(a, p) + Filter(b, p)
  {
    if a == [] {
      assert a + b == b;
    } else {
      FilterAppend(a[1..], b, p);
      assert (a + b)[1..] == a[1..] + b;
    }
  }

  /** The strictly ascending listing of a finite set, as sorting the keys of a map gives it. */
  ghost function Ascending<T(!new)>(s: set<T>, less: (T, T) -> bool): (r: seq<T>)
    requires StrictTotalOrder(less)
    ensures StrictlySorted(r, less) && |r| == |s|
    ensures forall x :: x in r <==> x in s
  {
    if s == {} then []
    else
      var x :| x in s;
      var t := Ascending(s - {x}, less);
      StrictInsert(x, t, less);
      Insert(x, t, less)
  }

  lemma StrictInsert<T(!new)>(x: T, s: seq<T>, less: (T, T) -> bool)
    requires StrictTotalOrder(less) && StrictlySorted(s, less) && x !in s
    ensures StrictlySorted(Insert(x, s, less), less) && |Insert(x, s, less)| == |s| + 1
  {
    InsertSorted(x, s, less);
    var r := Insert(x, s, less);
    assert |multiset(r)| == |s| + 1;
    forall i, j | 0 <= i < j < |r| ensures less(r[i], r[j]) {
      if r[i] == r[j] {
        DuplicateCounted(r, i, j);
        assert multiset(r)[r[i]] >= 2;
        if r[i] != x {
          var k :| 0 <= k < |s| && s[k] == r[i];
          NoDuplicates(s, less, k);
        }
      }
    }
  }

  lemma DuplicateCounted<T>(r: seq<T>, i: nat, j: nat)
    requires i < j < |r| && r[i] == r[j]
    ensures multiset(r)[r[i]] >= 2
  {
    assert r == r[..i] + [r[i]] + r[i + 1..j] + [r[j]] + r[j + 1..];
  }

  lemma NoDuplicates<T(!new)>(s: seq<T>, less: (T, T) -> bool, k: nat)
    requires StrictTotalOrder(less) && StrictlySorted(s, less) && k < |s|
    ensures multiset(s)[s[k]] == 1
  {
    assert s == s[..k] + [s[k]] + s[k + 1..];
    assert s[k] !in s[..k] && s[k] !in s[k + 1..];
  }

  /** Two strictly ascending sequences with the same elements are the same sequence. */
  lemma {:induction false} AscendingUnique<T(!new)>(a: seq<T>, b: seq<T>, less: (T, T) -> bool)
    requires StrictWeakOrder(less) && StrictlySorted(a, less) && StrictlySorted(b, less)
    requires forall x :: x in a <==> x in b
    ensures a == b
  {
    assert b != [] ==> b[0] in a;
    assert a != [] ==> a[0] in b;
    if a != [] && b != [] {
      var i :| 0 <= i < |b| && b[i] == a[0];
      var j :| 0 <= j < |a| && a[j] == b[0];
      assert a[0] == b[0];
      forall x ensures x in a[1..] <==> x in b[1..] {
        if x in a[1..] {
          var m :| 0 <= m < |a[1..]| && a[1..][m] == x;
          assert less(a[0], a[m + 1]) && x in b && x != b[0];
        }
        if x in b[1..] {
          var m :| 0 <= m < |b[1..]| && b[1..][m] == x;
          assert less(b[0], b[m + 1]) && x in a && x != a[0];
        }
      }
      AscendingUnique(a[1..], b[1..], less);
      assert a == [a[0]] + a[1..] && b == [b[0]] + b[1..];
    }
  }

  function Elements<T>(s: seq<T>): set<T> {
    set x | x in s
  }

  lemma {:induction false} ElementsCount<T(!new)>(s: seq<T>, less: (T, T) -> bool)
    requires StrictTotalOrder(less) && StrictlySorted(s, less)
    ensures |Elements(s)| == |s|
  {
    if s != [] {
      var n := |s| - 1;
      ElementsCount(s[..n], less);
      assert Elements(s) == Elements(s[..n]) + {s[n]};
      forall i | 0 <= i < n ensures s[i] != s[n] {
        assert less(s[i], s[n]);
      }
    }
  }

  /** Sorting the elements of a set, in whatever order they were collected, lists the set. */
  lemma SortLists<T(!new)>(elements: seq<T>, s: set<T>, less: (T, T) -> bool)
    requires StrictTotalOrder(less) && multiset(elements) == multiset(s)
    ensures Sort(elements, less) == Ascending(s, less)
  {
    forall x ensures x in elements <==> x in s {
      assert x in elements <==> multiset(elements)[x] > 0;
      assert x in s <==> multiset(s)[x] > 0;
    }
    var sorted := Sort(elements, less);
    SortSorted(elements, less);
    forall i, j | 0 <= i < j < |sorted| ensures less(sorted[i], sorted[j]) {
      if sorted[i] == sorted[j] {
        DuplicateCounted(sorted, i, j);
      }
    }
    AscendingUnique(sorted, Ascending(s, less), less);
  }

  /** Collects a set in no particular order and sorts what was collected. */
  method ListAscending<T(!new, ==)>(s: set<T>, less: (T, T) -> bool) returns (r: seq<T>)
    requires StrictTotalOrder(less)
    ensures r == Ascending(s, less)
  {
    r := [];
    var rest := s;
    while rest != {}
      invariant rest <= s && multiset(r) == multiset(s - rest)
      decreases rest
    {
      var x :| x in rest;
      assert s - (rest - {x}) == (s - rest) + {x};
      r, rest := r + [x], rest - {x};
    }
    assert s - rest == s;
    SortLists(r, s, less);
    r := Sort(r, less);
  }
}

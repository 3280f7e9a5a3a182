/** Go's `sort.Ints`, `sort.Slice` and `sort.SliceStable`, and why sorting makes the
    arbitrary order of a map iteration unobservable. */
module Sorting {

  // ---------------------------------------------------------------- orders

  /** A strict weak order: what a `less` argument has to be. */
  ghost predicate StrictWeak<T(!new)>(less: (T, T) -> bool) {
    && (forall x :: !less(x, x))
    && (forall x, y, z :: less(x, y) && less(y, z) ==> less(x, z))
    && (forall x, y, z :: less(x, z) ==> less(x, y) || less(y, z))
  }

  ghost predicate StrictTotal<T(!new)>(less: (T, T) -> bool) {
    && StrictWeak(less)
    && (forall x, y :: x != y ==> less(x, y) || less(y, x))
  }

  ghost predicate Ascends<T>(xs: seq<T>, less: (T, T) -> bool) {
    forall i, j | 0 <= i < j < |xs| :: less(xs[i], xs[j])
  }

  /** No later element is less than an earlier one. */
  ghost predicate Ordered<T>(xs: seq<T>, less: (T, T) -> bool) {
    forall i, j | 0 <= i < j < |xs| :: !less(xs[j], xs[i])
  }

  ghost predicate NoDuplicates<T>(xs: seq<T>) {
    forall i, j | 0 <= i < j < |xs| :: xs[i] != xs[j]
  }

  ghost function Elements<T>(xs: seq<T>): set<T> {
    set x | x in xs
  }

  const IntLess: (int, int) -> bool := (x, y) => x < y

  /** Lexicographic comparison of strings, Go's `<`. */
  predicate StringBefore(a: string, b: string) {
    if b == "" then false
    else if a == "" then true
    else a[0] < b[0] || (a[0] == b[0] && StringBefore(a[1..], b[1..]))
  }

  const StringLess: (string, string) -> bool := (x, y) => StringBefore(x, y)

  lemma IntLessIsTotal()
    ensures StrictTotal(IntLess)
  {
  }

  lemma {:induction false} StringBeforeTotal(a: string, b: string)
    ensures !StringBefore(a, a)
    ensures a != b ==> StringBefore(a, b) || StringBefore(b, a)
    decreases |a|
  {
    if a == "" {
    } else {
      StringBeforeTotal(a[1..], if b == "" then b else b[1..]);
      if b != "" && a[0] == b[0] && a[1..] == b[1..] {
        assert a == [a[0]] + a[1..] && b == [b[0]] + b[1..];
      }
    }
  }

  lemma {:induction false} StringBeforeTransitive(a: string, b: string, c: string)
    ensures StringBefore(a, b) && StringBefore(b, c) ==> StringBefore(a, c)
    decreases |a|
  {
    if a != "" && b != "" && c != "" {
      StringBeforeTransitive(a[1..], b[1..], c[1..]);
    }
  }

  /** The order is lexicographic: a proper first part comes before, and otherwise the first
      difference decides. */
  lemma {:induction false} StringBeforeExactly(a: string, b: string)
    ensures StringBefore(a, b) <==>
            a < b || exists i | 0 <= i < |a| && i < |b| :: a[..i] == b[..i] && a[i] < b[i]
    decreases |a|
  {
    if a == "" || b == "" {
    } else if a[0] != b[0] {
      if a[0] < b[0] {
        assert a[..0] == b[..0];
      } else {
        forall i | 0 < i < |a| && i < |b| ensures a[..i] != b[..i] {
          assert a[..i][0] != b[..i][0];
        }
      }
    } else {
      var x, y := a[1..], b[1..];
      StringBeforeExactly(x, y);
      assert a == [a[0]] + x && b == [a[0]] + y;
      if i :| 0 <= i < |x| && i < |y| && x[..i] == y[..i] && x[i] < y[i] {
        assert a[..i + 1] == [a[0]] + x[..i] && b[..i + 1] == [a[0]] + y[..i];
        assert a[i + 1] < b[i + 1];
      }
      if i :| 0 <= i < |a| && i < |b| && a[..i] == b[..i] && a[i] < b[i] {
        assert i > 0;
        assert x[..i - 1] == a[..i][1..] && y[..i - 1] == b[..i][1..];
        assert x[i - 1] < y[i - 1];
      }
    }
  }

  lemma StringLessIsTotal()
    ensures StrictTotal(StringLess)
  {
    forall x, y, z
      ensures !StringLess(x, x)
      ensures x != y ==> StringLess(x, y) || StringLess(y, x)
      ensures StringLess(x, y) && StringLess(y, z) ==> StringLess(x, z)
      ensures StringLess(x, z) ==> StringLess(x, y) || StringLess(y, z)
    {
      StringBeforeTotal(x, y);
      StringBeforeTotal(y, z);
      StringBeforeTransitive(x, y, z);
      StringBeforeTransitive(y, x, z);
      StringBeforeTransitive(x, z, y);
      StringBeforeTransitive(z, y, x);
    }
  }

  // ---------------------------------------------------------------- enumerations

  lemma {:induction false} LeastExists<T(!new)>(s: set<T>, less: (T, T) -> bool) returns (m: T)
    requires StrictTotal(less) && s != {}
    ensures m in s && forall x | x in s :: x == m || less(m, x)
    decreases |s|
  {
    var e :| e in s;
    m := e;
    if s != {e} {
      assert s - {e} < s;
      var r := LeastExists(s - {e}, less);
      if less(r, e) {
        m := r;
      } else {
        forall x | x in s ensures x == e || less(e, x) {
          if x != e && x != r { assert less(r, x); }
        }
      }
    }
  }

  /** The elements of a set in ascending order. */
  ghost function Enumerate<T(!new)>(s: set<T>, less: (T, T) -> bool): (xs: seq<T>)
    requires StrictTotal(less)
    decreases |s|
  {
    if s == {} then []
    else
      var m := Least(s, less);
      assert s - {m} < s;
      [m] + Enumerate(s - {m}, less)
  }

  ghost function Least<T(!new)>(s: set<T>, less: (T, T) -> bool): (m: T)
    requires StrictTotal(less) && s != {}
    ensures m in s && forall x | x in s :: x == m || less(m, x)
  {
    assert exists m :: m in s && forall x | x in s :: x == m || less(m, x) by {
      var l := LeastExists(s, less);
    }
    var m :| m in s && forall x | x in s :: x == m || less(m, x);
    m
  }

  lemma {:induction false} EnumerateMeaning<T(!new)>(s: set<T>, less: (T, T) -> bool)
    requires StrictTotal(less)
    ensures Ascends(Enumerate(s, less), less)
    ensures Elements(Enumerate(s, less)) == s
    ensures |Enumerate(s, less)| == |s|
    decreases |s|
  {
    if s == {} {
    } else {
      var m := Least(s, less);
      assert s - {m} < s;
      EnumerateMeaning(s - {m}, less);
      var rest := Enumerate(s - {m}, less);
      forall i | 0 <= i < |rest| ensures less(m, rest[i]) {
        assert rest[i] in Elements(rest);
      }
      forall x ensures x in Elements([m] + rest) <==> x in s {
        assert x in Elements(rest) <==> x in s - {m};
      }
    }
  }

  /** Only one ascending sequence has a given set of elements, so the order in which
      the elements were found before sorting cannot be told from the result. */
  lemma {:induction false} EnumerationIsUnique<T(!new)>(xs: seq<T>, s: set<T>, less: (T, T) -> bool)
    requires StrictTotal(less) && Ascends(xs, less) && Elements(xs) == s
    ensures xs == Enumerate(s, less)
    decreases |s|
  {
    if xs == [] {
      assert Elements(xs) == {};
    } else {
      assert xs[0] in Elements(xs);
      var m := Least(s, less);
      assert m in Elements(xs);
      assert xs[0] == m;
      var rest := xs[1..];
      forall x ensures x in Elements(rest) <==> x in s - {m} {
        if x in s - {m} {
          assert x in Elements(xs);
          var i :| 0 <= i < |xs| && xs[i] == x;
          assert rest[i - 1] == x;
        }
        if x in Elements(rest) {
          var i :| 0 <= i < |rest| && rest[i] == x;
          assert xs[i + 1] == x && less(xs[0], xs[i + 1]);
          assert x in Elements(xs);
        }
      }
      assert s - {m} < s;
      EnumerationIsUnique(rest, s - {m}, less);
      assert xs == [m] + rest;
    }
  }

  // ---------------------------------------------------------------- stable sorting

  /** Puts x behind everything it is not less than. */
  function InsertLast<T>(ys: seq<T>, x: T, less: (T, T) -> bool): (zs: seq<T>)
    ensures |zs| == |ys| + 1
  {
    if ys != [] && less(x, ys[|ys| - 1])
    then InsertLast(ys[..|ys| - 1], x, less) + [ys[|ys| - 1]]
    else ys + [x]
  }

  function StableSort<T>(xs: seq<T>, less: (T, T) -> bool): (ys: seq<T>)
    ensures |ys| == |xs|
  {
    if xs == [] then [] else InsertLast(StableSort(xs[..|xs| - 1], less), xs[|xs| - 1], less)
  }

  lemma {:induction false} InsertLastPermutes<T>(ys: seq<T>, x: T, less: (T, T) -> bool)
    ensures multiset(InsertLast(ys, x, less)) == multiset(ys) + multiset{x}
  {
    if ys != [] && less(x, ys[|ys| - 1]) {
      InsertLastPermutes(ys[..|ys| - 1], x, less);
      assert ys == ys[..|ys| - 1] + [ys[|ys| - 1]];
    }
  }

  lemma {:induction false} InsertLastOrders<T(!new)>(ys: seq<T>, x: T, less: (T, T) -> bool)
    requires StrictWeak(less) && Ordered(ys, less)
    ensures Ordered(InsertLast(ys, x, less), less)
  {
    if ys == [] {
    } else if less(x, ys[|ys| - 1]) {
      var front, last := ys[..|ys| - 1], ys[|ys| - 1];
      InsertLastOrders(front, x, less);
      InsertLastPermutes(front, x, less);
      var zs := InsertLast(front, x, less);
      forall i | 0 <= i < |zs| ensures !less(last, zs[i]) {
        assert zs[i] in multiset(zs);
        if zs[i] != x {
          assert zs[i] in front;
          var k :| 0 <= k < |front| && front[k] == zs[i];
          assert ys[k] == front[k];
        }
      }
    } else {
      var n := |ys| - 1;
      forall i | 0 <= i <= n ensures !less(x, ys[i]) {
        if i < n { assert !less(ys[n], ys[i]); }
      }
    }
  }

  lemma MultisetOfFront<T>(xs: seq<T>)
    requires xs != []
    ensures multiset(xs) == multiset(xs[..|xs| - 1]) + multiset{xs[|xs| - 1]}
  {
    assert xs == xs[..|xs| - 1] + [xs[|xs| - 1]];
  }

  /** The result is an ordered rearrangement. */
  lemma {:induction false} StableSortSorts<T(!new)>(xs: seq<T>, less: (T, T) -> bool)
    requires StrictWeak(less)
    ensures multiset(StableSort(xs, less)) == multiset(xs)
    ensures Ordered(StableSort(xs, less), less)
  {
    if xs == [] {
    } else {
      var front, last := xs[..|xs| - 1], xs[|xs| - 1];
      StableSortSorts(front, less);
      InsertLastPermutes(StableSort(front, less), last, less);
      InsertLastOrders(StableSort(front, less), last, less);
      MultisetOfFront(xs);
    }
  }

  /** The elements that tie with `e`, in the order in which they stand. */
  function Ties<T>(xs: seq<T>, e: T, less: (T, T) -> bool): seq<T> {
    if xs == [] then []
    else
      var rest := Ties(xs[..|xs| - 1], e, less);
      var x := xs[|xs| - 1];
      if !less(x, e) && !less(e, x) then rest + [x] else rest
  }

  lemma {:induction false} TiesOfAppend<T>(xs: seq<T>, x: T, e: T, less: (T, T) -> bool)
    ensures Ties(xs + [x], e, less) == Ties(xs, e, less) + (if !less(x, e) && !less(e, x) then [x] else [])
  {
    assert (xs + [x])[..|xs + [x]| - 1] == xs;
  }

  lemma {:induction false} InsertLastIsStable<T(!new)>(ys: seq<T>, x: T, e: T, less: (T, T) -> bool)
    requires StrictWeak(less)
    ensures Ties(InsertLast(ys, x, less), e, less) == Ties(ys + [x], e, less)
  {
    TiesOfAppend(ys, x, e, less);
    if ys != [] && less(x, ys[|ys| - 1]) {
      var front, last := ys[..|ys| - 1], ys[|ys| - 1];
      InsertLastIsStable(front, x, e, less);
      TiesOfAppend(front, x, e, less);
      TiesOfAppend(front, last, e, less);
      TiesOfAppend(InsertLast(front, x, less), last, e, less);
      assert ys == front + [last];
    }
  }

  /** Elements that tie keep their order. */
  lemma {:induction false} StableSortIsStable<T(!new)>(xs: seq<T>, e: T, less: (T, T) -> bool)
    requires StrictWeak(less)
    ensures Ties(StableSort(xs, less), e, less) == Ties(xs, e, less)
  {
    if xs == [] {
    } else {
      var front, last := xs[..|xs| - 1], xs[|xs| - 1];
      StableSortIsStable(front, e, less);
      InsertLastIsStable(StableSort(front, less), last, e, less);
      TiesOfAppend(front, last, e, less);
      TiesOfAppend(StableSort(front, less), last, e, less);
      assert xs == front + [last];
    }
  }

  /** Without duplicates a sort by a total order lists the set of elements. */
  lemma StableSortEnumerates<T(!new)>(xs: seq<T>, less: (T, T) -> bool)
    requires StrictTotal(less) && NoDuplicates(xs)
    ensures StableSort(xs, less) == Enumerate(Elements(xs), less)
  {
    StableSortSorts(xs, less);
    var ys := StableSort(xs, less);
    forall x ensures x in ys <==> x in xs {
      assert x in multiset(ys) <==> x in multiset(xs);
    }
    forall i, j | 0 <= i < j < |ys| ensures less(ys[i], ys[j]) {
      if ys[i] == ys[j] {
        TwiceMeansTwice(ys, i, j);
        OnceMeansOnce(xs, ys[i]);
        assert false;
      }
    }
    assert Elements(ys) == Elements(xs);
    EnumerationIsUnique(ys, Elements(xs), less);
  }

  lemma TwiceMeansTwice<T>(xs: seq<T>, i: nat, j: nat)
    requires i < j < |xs| && xs[i] == xs[j]
    ensures multiset(xs)[xs[i]] >= 2
  {
    assert xs == xs[..j] + [xs[j]] + xs[j + 1..];
    assert xs[..j][i] in multiset(xs[..j]);
  }

  lemma {:induction false} OnceMeansOnce<T>(xs: seq<T>, x: T)
    requires NoDuplicates(xs)
    ensures multiset(xs)[x] <= 1
  {
    if xs == [] {
    } else {
      OnceMeansOnce(xs[1..], x);
      assert xs == [xs[0]] + xs[1..];
      assert forall k | 0 <= k < |xs[1..]| :: xs[1..][k] != xs[0];
    }
  }

  function Mapped<S, T>(xs: seq<S>, f: S -> T): seq<T> {
    seq(|xs|, i requires 0 <= i < |xs| => f(xs[i]))
  }

  lemma {:induction false} InsertMapped<S, T>(xs: seq<S>, x: S, f: S -> T, less: (S, S) -> bool, less': (T, T) -> bool)
    requires forall i | 0 <= i < |xs| :: less'(f(x), f(xs[i])) == less(x, xs[i])
    ensures InsertLast(Mapped(xs, f), f(x), less') == Mapped(InsertLast(xs, x, less), f)
    ensures forall i | 0 <= i <= |xs| :: InsertLast(xs, x, less)[i] in xs + [x]
  {
    if xs != [] && less(x, xs[|xs| - 1]) {
      var front := xs[..|xs| - 1];
      InsertMapped(front, x, f, less, less');
      assert Mapped(xs, f)[..|xs| - 1] == Mapped(front, f);
    }
  }

  /** Sorting records by a key and sorting the keys is the same. */
  lemma {:induction false} SortMapped<S(!new), T>(xs: seq<S>, f: S -> T, less: (S, S) -> bool, less': (T, T) -> bool)
    requires forall x, y :: less'(f(x), f(y)) == less(x, y)
    ensures StableSort(Mapped(xs, f), less') == Mapped(StableSort(xs, less), f)
  {
    if xs == [] {
    } else {
      var front := xs[..|xs| - 1];
      SortMapped(front, f, less, less');
      InsertMapped(StableSort(front, less), xs[|xs| - 1], f, less, less');
      assert Mapped(xs, f)[..|xs| - 1] == Mapped(front, f);
    }
  }

  /** Insertion sort: the library call, stable as `sort.SliceStable` promises. */
  method SortSlice<T>(xs: seq<T>, less: (T, T) -> bool) returns (ys: seq<T>)
    ensures ys == StableSort(xs, less)
  {
    ys := [];
    var n := 0;
    while n < |xs|
      invariant 0 <= n <= |xs|
      invariant ys == StableSort(xs[..n], less)
    {
      assert xs[..n + 1][..n] == xs[..n];
      ys := InsertLast(ys, xs[n], less);
      n := n + 1;
    }
    assert xs[..n] == xs;
  }

  /** Collects the members of a set in whatever order an iteration yields them. */
  method ListSet<T(==)>(s: set<T>) returns (xs: seq<T>)
    ensures NoDuplicates(xs) && Elements(xs) == s
  {
    xs := [];
    var left := s;
    while left != {}
      invariant left <= s && NoDuplicates(xs)
      invariant forall x :: x in xs <==> x in s && x !in left
      decreases left
    {
      var x :| x in left;
      left := left - {x};
      xs := xs + [x];
    }
  }

  // ---------------------------------------------------------------- integers

  /** The members of a set of integers in ascending order. */
  ghost function SortedInts(s: set<int>): seq<int> {
    IntLessIsTotal();
    Enumerate(s, IntLess)
  }

  lemma SortedIntsMeaning(s: set<int>)
    ensures forall i, j | 0 <= i < j < |SortedInts(s)| :: SortedInts(s)[i] < SortedInts(s)[j]
    ensures forall i | 0 <= i < |SortedInts(s)| :: SortedInts(s)[i] in s
    ensures |SortedInts(s)| == |s|
  {
    IntLessIsTotal();
    EnumerateMeaning(s, IntLess);
    var xs := SortedInts(s);
    forall i | 0 <= i < |xs| ensures xs[i] in s { assert xs[i] in Elements(xs); }
    assert forall i, j | 0 <= i < j < |xs| :: IntLess(xs[i], xs[j]);
  }

  lemma SortedIntsHas(s: set<int>, x: int) returns (i: nat)
    requires x in s
    ensures i < |SortedInts(s)| && SortedInts(s)[i] == x
  {
    IntLessIsTotal();
    EnumerateMeaning(s, IntLess);
    var xs := SortedInts(s);
    assert x in Elements(xs);
    i :| 0 <= i < |xs| && xs[i] == x;
  }

  /** The keys of a Go map collected in iteration order and then sorted. */
  method SortInts(s: set<int>) returns (xs: seq<int>)
    ensures xs == SortedInts(s)
  {
    IntLessIsTotal();
    var found := ListSet(s);
    StableSortEnumerates(found, IntLess);
    xs := SortSlice(found, IntLess);
  }
}

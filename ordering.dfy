/** Ordinal string order and the stable sort that LINQ's `OrderBy`,
    `OrderByDescending` and `ThenBy` perform, with the facts the rest of the
    model needs about them: the result is a permutation, it is sorted, equal
    keys keep their input order, and sorting is determined by the multiset when
    no two distinct elements compare equal. */
module Ordering {

  /** `StringComparer.Ordinal`: `a` sorts at or before `b`, character by character. */
  predicate StrLe(a: string, b: string) {
    a == [] || (b != [] && (a[0] < b[0] || (a[0] == b[0] && StrLe(a[1..], b[1..]))))
  }

  lemma {:induction false} StrLeTotal(a: string, b: string)
    ensures StrLe(a, b) || StrLe(b, a)
  {
    if a != [] && b != [] && a[0] == b[0] {
      StrLeTotal(a[1..], b[1..]);
    }
  }

  lemma {:induction false} StrLeAntisymmetric(a: string, b: string)
    requires StrLe(a, b) && StrLe(b, a)
    ensures a == b
  {
    if a != [] && b != [] {
      StrLeAntisymmetric(a[1..], b[1..]);
      assert a == [a[0]] + a[1..] && b == [b[0]] + b[1..];
    }
  }

  lemma {:induction false} StrLeTransitive(a: string, b: string, c: string)
    requires StrLe(a, b) && StrLe(b, c)
    ensures StrLe(a, c)
  {
    if a != [] && b != [] && c != [] && a[0] == b[0] == c[0] {
      StrLeTransitive(a[1..], b[1..], c[1..]);
    }
  }

  /** `le` is total and transitive: a comparison LINQ can sort by. */
  ghost predicate TotalPreorder<T(!new)>(le: (T, T) -> bool) {
    && (forall a, b :: le(a, b) || le(b, a))
    && (forall a, b, c :: le(a, b) && le(b, c) ==> le(a, c))
  }

  lemma StrLeIsTotalPreorder()
    ensures TotalPreorder(StrLe)
  {
    forall a, b ensures StrLe(a, b) || StrLe(b, a) { StrLeTotal(a, b); }
    forall a, b, c | StrLe(a, b) && StrLe(b, c) ensures StrLe(a, c) { StrLeTransitive(a, b, c); }
  }

  ghost predicate Sorted<T>(xs: seq<T>, le: (T, T) -> bool) {
    forall i, j :: 0 <= i < j < |xs| ==> le(xs[i], xs[j])
  }

  function Map<A, B>(f: A -> B, xs: seq<A>): (r: seq<B>)
    ensures |r| == |xs| && forall i :: 0 <= i < |xs| ==> r[i] == f(xs[i])
  {
    if xs == [] then [] else [f(xs[0])] + Map(f, xs[1..])
  }

  function Filter<T>(p: T -> bool, xs: seq<T>): (r: seq<T>)
    ensures |r| <= |xs|
    ensures forall x :: x in r ==> x in xs && p(x)
  {
    if xs == [] then [] else (if p(xs[0]) then [xs[0]] else []) + Filter(p, xs[1..])
  }

  lemma {:induction false} FilterAppend<T>(p: T -> bool, xs: seq<T>, ys: seq<T>)
    ensures Filter(p, xs + ys) == Filter(p, xs) + Filter(p, ys)
  {
    if xs == [] {
      assert xs + ys == ys;
    } else {
      assert (xs + ys)[0] == xs[0] && (xs + ys)[1..] == xs[1..] + ys;
      FilterAppend(p, xs[1..], ys);
    }
  }

  /** An element is kept by `Filter` exactly when it is in the list and satisfies `p`. */
  lemma {:induction false} FilterMembers<T>(p: T -> bool, xs: seq<T>)
    ensures forall x :: x in Filter(p, xs) <==> x in xs && p(x)
  {
    if xs != [] {
      FilterMembers(p, xs[1..]);
      assert xs == [xs[0]] + xs[1..];
    }
  }

  lemma FilterSnoc<T>(p: T -> bool, xs: seq<T>, x: T)
    ensures Filter(p, xs + [x]) == Filter(p, xs) + if p(x) then [x] else []
  {
    FilterAppend(p, xs, [x]);
    assert [x][1..] == [];
  }

  lemma MapFilterSnoc<A, B>(f: A -> B, p: A -> bool, xs: seq<A>, x: A)
    ensures Map(f, Filter(p, xs + [x])) == Map(f, Filter(p, xs)) + if p(x) then [f(x)] else []
  {
    FilterSnoc(p, xs, x);
    if p(x) {
      MapAppend(f, Filter(p, xs), [x]);
    } else {
      assert Filter(p, xs) + [] == Filter(p, xs);
    }
  }

  lemma {:induction false} MapAppend<A, B>(f: A -> B, xs: seq<A>, ys: seq<A>)
    ensures Map(f, xs + ys) == Map(f, xs) + Map(f, ys)
  {
  }

  lemma MapSnoc<A, B>(f: A -> B, xs: seq<A>, x: A)
    ensures Map(f, xs + [x]) == Map(f, xs) + [f(x)]
  {
    MapAppend(f, xs, [x]);
  }

  lemma MultisetRemove<T>(s: seq<T>, k: nat)
    requires k < |s|
    ensures multiset(s[..k] + s[k + 1..]) == multiset(s) - multiset{s[k]}
  {
    assert s == s[..k] + [s[k]] + s[k + 1..];
  }

  lemma MapRemove<A, B>(f: A -> B, s: seq<A>, k: nat)
    requires k < |s|
    ensures multiset(Map(f, s)) == multiset(Map(f, s[..k] + s[k + 1..])) + multiset{f(s[k])}
  {
    var m, r := Map(f, s), s[..k] + s[k + 1..];
    var mr := m[..k] + m[k + 1..];
    forall i | 0 <= i < |r| ensures Map(f, r)[i] == mr[i] {
      if i < k {
        assert r[i] == s[i] && mr[i] == m[i];
      } else {
        assert r[i] == s[i + 1] && mr[i] == m[i + 1];
      }
    }
    assert Map(f, r) == mr;
    MultisetRemove(m, k);
    assert m[k] in multiset(m);
  }

  /** Mapping a function over two permutations of one another gives two
      permutations of one another. */
  lemma {:induction false} MapPermutation<A, B>(f: A -> B, xs: seq<A>, ys: seq<A>)
    requires multiset(xs) == multiset(ys)
    ensures multiset(Map(f, xs)) == multiset(Map(f, ys))
  {
    if xs != [] {
      var x := xs[0];
      assert x in multiset(ys);
      assert x in ys;
      var k :| 0 <= k < |ys| && ys[k] == x;
      var ys' := ys[..k] + ys[k + 1..];
      MultisetRemove(ys, k);
      assert multiset(xs[1..]) == multiset(ys') by {
        assert xs == [x] + xs[1..];
      }
      MapPermutation(f, xs[1..], ys');
      MapRemove(f, ys, k);
      assert Map(f, xs) == [f(x)] + Map(f, xs[1..]);
    }
  }

  /** The element that `Insert` puts into a sorted list goes before the first
      element it may precede, so that of two equal keys the earlier one in the
      input stays earlier (a stable insertion). */
  function Insert<T>(x: T, ys: seq<T>, le: (T, T) -> bool): (r: seq<T>)
    ensures multiset(r) == multiset(ys) + multiset{x}
    ensures |r| == |ys| + 1
  {
    if ys == [] || le(x, ys[0]) then [x] + ys
    else
      assert ys == [ys[0]] + ys[1..];
      [ys[0]] + Insert(x, ys[1..], le)
  }

  /** Stable insertion sort: LINQ `OrderBy` with the comparison `le`. */
  function SortBy<T>(xs: seq<T>, le: (T, T) -> bool): (r: seq<T>)
    ensures multiset(r) == multiset(xs)
    ensures |r| == |xs|
  {
    if xs == [] then []
    else
      assert xs == [xs[0]] + xs[1..];
      Insert(xs[0], SortBy(xs[1..], le), le)
  }

  lemma {:induction false} InsertSorted<T(!new)>(x: T, ys: seq<T>, le: (T, T) -> bool)
    requires TotalPreorder(le) && Sorted(ys, le)
    ensures Sorted(Insert(x, ys, le), le)
  {
    if ys == [] || le(x, ys[0]) {
    } else {
      var rest := Insert(x, ys[1..], le);
      InsertSorted(x, ys[1..], le);
      forall z | z in rest ensures le(ys[0], z) {
        assert z in multiset(rest);
        if z != x {
          assert z in multiset(ys[1..]);
        }
      }
    }
  }

  /** The result of `SortBy` is sorted. */
  lemma {:induction false} SortBySorted<T(!new)>(xs: seq<T>, le: (T, T) -> bool)
    requires TotalPreorder(le)
    ensures Sorted(SortBy(xs, le), le)
  {
    if xs != [] {
      SortBySorted(xs[1..], le);
      InsertSorted(xs[0], SortBy(xs[1..], le), le);
    }
  }

  ghost predicate Equivalent<T>(le: (T, T) -> bool, a: T, b: T) {
    le(a, b) && le(b, a)
  }

  /** The elements of `xs` whose key is equal to that of `v`, in order. */
  ghost function EqualKeys<T>(xs: seq<T>, v: T, le: (T, T) -> bool): seq<T> {
    if xs == [] then []
    else (if Equivalent(le, v, xs[0]) then [xs[0]] else []) + EqualKeys(xs[1..], v, le)
  }

  lemma {:induction false} InsertStable<T(!new)>(x: T, ys: seq<T>, v: T, le: (T, T) -> bool)
    requires TotalPreorder(le)
    ensures EqualKeys(Insert(x, ys, le), v, le)
         == (if Equivalent(le, v, x) then [x] else []) + EqualKeys(ys, v, le)
  {
    if ys == [] || le(x, ys[0]) {
      assert ([x] + ys)[1..] == ys;
    } else {
      var rest := Insert(x, ys[1..], le);
      assert Insert(x, ys, le) == [ys[0]] + rest;
      assert ([ys[0]] + rest)[1..] == rest;
      InsertStable(x, ys[1..], v, le);
      assert Equivalent(le, v, x) ==> !Equivalent(le, v, ys[0]);
    }
  }

  /** `SortBy` is stable: elements with equal keys come out in input order. */
  lemma {:induction false} SortByStable<T(!new)>(xs: seq<T>, v: T, le: (T, T) -> bool)
    requires TotalPreorder(le)
    ensures EqualKeys(SortBy(xs, le), v, le) == EqualKeys(xs, v, le)
  {
    if xs != [] {
      InsertStable(xs[0], SortBy(xs[1..], le), v, le);
      SortByStable(xs[1..], v, le);
    }
  }

  /** The head of a sorted list sorts at or before each of its elements. */
  lemma SortedHeadLeast<T(!new)>(s: seq<T>, x: T, le: (T, T) -> bool)
    requires TotalPreorder(le) && Sorted(s, le) && x in s
    ensures le(s[0], x)
  {
    var j :| 0 <= j < |s| && s[j] == x;
    if j == 0 { assert le(x, x) || le(x, x); } else { assert le(s[0], s[j]); }
  }

  lemma SortedHeadsEqual<T(!new)>(a: seq<T>, b: seq<T>, le: (T, T) -> bool)
    requires TotalPreorder(le) && Sorted(a, le) && Sorted(b, le)
    requires a != [] && multiset(a) == multiset(b)
    requires forall x, y :: x in a && y in a && le(x, y) && le(y, x) ==> x == y
    ensures b != [] && a[0] == b[0]
  {
    assert a[0] in multiset(b);
    assert b != [];
    assert b[0] in multiset(a);
    SortedHeadLeast(b, a[0], le);
    SortedHeadLeast(a, b[0], le);
  }

  lemma TailsPermuted<T>(a: seq<T>, b: seq<T>)
    requires a != [] && b != [] && a[0] == b[0] && multiset(a) == multiset(b)
    ensures multiset(a[1..]) == multiset(b[1..])
  {
    assert multiset(a[1..]) == multiset(a) - multiset{a[0]} by {
      assert a == [a[0]] + a[1..];
    }
    assert multiset(b[1..]) == multiset(b) - multiset{b[0]} by {
      assert b == [b[0]] + b[1..];
    }
  }

  /** Two sorted permutations of one another are equal when their elements
      never compare equal unless they are equal. */
  lemma {:induction false} SortedUnique<T(!new)>(a: seq<T>, b: seq<T>, le: (T, T) -> bool)
    requires TotalPreorder(le) && Sorted(a, le) && Sorted(b, le)
    requires multiset(a) == multiset(b)
    requires forall x, y :: x in a && y in a && le(x, y) && le(y, x) ==> x == y
    ensures a == b
  {
    if a != [] {
      SortedHeadsEqual(a, b, le);
      TailsPermuted(a, b);
      var a', b' := a[1..], b[1..];
      assert Sorted(a', le) by {
        forall i, j | 0 <= i < j < |a'| ensures le(a'[i], a'[j]) {
          assert a'[i] == a[i + 1] && a'[j] == a[j + 1];
        }
      }
      assert Sorted(b', le) by {
        forall i, j | 0 <= i < j < |b'| ensures le(b'[i], b'[j]) {
          assert b'[i] == b[i + 1] && b'[j] == b[j + 1];
        }
      }
      assert forall x :: x in a' ==> x in a;
      SortedUnique(a', b', le);
      assert a == [a[0]] + a' && b == [b[0]] + b';
    } else {
      assert |b| == |multiset(b)| == 0;
    }
  }

  /** Sorting by a comparison under which distinct elements never tie does not
      depend on the input order. */
  lemma SortByPermutation<T(!new)>(xs: seq<T>, ys: seq<T>, le: (T, T) -> bool)
    requires TotalPreorder(le) && multiset(xs) == multiset(ys)
    requires forall x, y :: x in xs && y in xs && le(x, y) && le(y, x) ==> x == y
    ensures SortBy(xs, le) == SortBy(ys, le)
  {
    SortBySorted(xs, le);
    SortBySorted(ys, le);
    var a, b := SortBy(xs, le), SortBy(ys, le);
    forall x | x in a ensures x in xs { assert x in multiset(a); }
    SortedUnique(a, b, le);
  }

  /** In a sorted list, everything in the first `n` is at or before everything after. */
  lemma TakeSortedIsTop<T>(s: seq<T>, n: nat, le: (T, T) -> bool)
    requires Sorted(s, le) && n <= |s|
    ensures forall i, j :: 0 <= i < n <= j < |s| ==> le(s[i], s[j])
  {
  }

  /** `s` has no repeated element. */
  predicate NoDuplicates<T(==)>(s: seq<T>) {
    forall i, j :: 0 <= i < j < |s| ==> s[i] != s[j]
  }

  lemma {:induction false} NoDuplicatesMultiset<T>(s: seq<T>)
    ensures NoDuplicates(s) <==> forall x :: x in s ==> multiset(s)[x] == 1
  {
    if s != [] {
      NoDuplicatesMultiset(s[1..]);
      assert s == [s[0]] + s[1..];
      if NoDuplicates(s) {
        assert s[0] !in s[1..];
        assert NoDuplicates(s[1..]) by {
          forall i, j | 0 <= i < j < |s[1..]| ensures s[1..][i] != s[1..][j] {
            assert s[1..][i] == s[i + 1] && s[1..][j] == s[j + 1];
          }
        }
      }
      if forall x :: x in s ==> multiset(s)[x] == 1 {
        assert multiset(s) == multiset{s[0]} + multiset(s[1..]);
        assert s[0] in s;
        assert s[0] !in multiset(s[1..]);
        assert forall x :: x in s[1..] ==> multiset(s[1..])[x] == 1 by {
          forall x | x in s[1..] ensures multiset(s[1..])[x] == 1 {
            assert x in s;
          }
        }
        forall i, j | 0 <= i < j < |s| ensures s[i] != s[j] {
          if i == 0 { assert s[j] in s[1..]; } else {
            assert s[1..][i - 1] == s[i] && s[1..][j - 1] == s[j];
          }
        }
      }
    }
  }

  /** Having no repeated element is preserved by permutation. */
  lemma NoDuplicatesPermutation<T>(a: seq<T>, b: seq<T>)
    requires multiset(a) == multiset(b) && NoDuplicates(a)
    ensures NoDuplicates(b)
  {
    NoDuplicatesMultiset(a);
    NoDuplicatesMultiset(b);
    forall x | x in b ensures multiset(b)[x] == 1 {
      assert x in multiset(a);
    }
  }
}

/**
 Stable sorting by a total preorder, the promise of Rust's `slice::sort_by_key`. `Sort` is one
 algorithm that keeps the promise; `Unique` shows that the promise leaves no freedom, so nothing
 proved with `Sort` depends on the algorithm.
 */
module StableSort {

  ghost predicate TotalPreorder<T(!new)>(leq: (T, T) -> bool) {
    && (forall x, y :: leq(x, y) || leq(y, x))
    && (forall x, y, z :: leq(x, y) && leq(y, z) ==> leq(x, z))
  }

  predicate Sorted<T>(s: seq<T>, leq: (T, T) -> bool) {
    forall i, j :: 0 <= i < j < |s| ==> leq(s[i], s[j])
  }

  function IfEqual<T>(x: T, k: T, leq: (T, T) -> bool): seq<T> {
    if leq(x, k) && leq(k, x) then [x] else []
  }

  /** The elements of `s` that compare equal to `k`, in order. */
  function Class<T>(s: seq<T>, k: T, leq: (T, T) -> bool): seq<T> {
    if s == [] then [] else IfEqual(s[0], k, leq) + Class(s[1..], k, leq)
  }

  ghost predicate SameClasses<T(!new)>(a: seq<T>, b: seq<T>, leq: (T, T) -> bool) {
    forall k :: Class(a, k, leq) == Class(b, k, leq)
  }

  function Insert<T>(x: T, s: seq<T>, leq: (T, T) -> bool): (r: seq<T>)
    ensures multiset(r) == multiset(s) + multiset{x}
  {
    if s == [] || leq(x, s[0]) then [x] + s
    else
      assert s == [s[0]] + s[1..];
      [s[0]] + Insert(x, s[1..], leq)
  }

  function Sort<T>(s: seq<T>, leq: (T, T) -> bool): (r: seq<T>)
    ensures multiset(r) == multiset(s)
    ensures |r| == |s|
  {
    if s == [] then []
    else
      assert s == [s[0]] + s[1..];
      var r := Insert(s[0], Sort(s[1..], leq), leq);
      assert |multiset(r)| == |r|;
      r
  }

  lemma ClassCons<T>(x: T, s: seq<T>, k: T, leq: (T, T) -> bool)
    ensures Class([x] + s, k, leq) == IfEqual(x, k, leq) + Class(s, k, leq)
  {
    assert ([x] + s)[1..] == s;
  }

  lemma {:induction false} ClassConcat<T>(a: seq<T>, b: seq<T>, k: T, leq: (T, T) -> bool)
    ensures Class(a + b, k, leq) == Class(a, k, leq) + Class(b, k, leq)
  {
    if a == [] {
      assert a + b == b;
    } else {
      assert a + b == [a[0]] + (a[1..] + b);
      ClassCons(a[0], a[1..] + b, k, leq);
      ClassConcat(a[1..], b, k, leq);
    }
  }

  lemma {:induction false} ClassMember<T(!new)>(s: seq<T>, x: T, leq: (T, T) -> bool)
    requires TotalPreorder(leq)
    ensures x in s <==> x in Class(s, x, leq)
    ensures forall k :: x in Class(s, k, leq) ==> x in s
  {
    if s != [] {
      ClassMember(s[1..], x, leq);
    }
  }

  lemma {:induction false} InsertSorted<T(!new)>(x: T, s: seq<T>, leq: (T, T) -> bool)
    requires TotalPreorder(leq) && Sorted(s, leq)
    ensures Sorted(Insert(x, s, leq), leq)
  {
    if s != [] && !leq(x, s[0]) {
      var rest := Insert(x, s[1..], leq);
      InsertSorted(x, s[1..], leq);
      forall y | y in rest ensures leq(s[0], y) {
        assert y in multiset(rest);
      }
    }
  }

  lemma OneEmpty<T>(x: seq<T>, y: seq<T>, z: seq<T>)
    requires x == [] || y == []
    ensures x + (y + z) == y + (x + z)
  {
  }

  /** `Insert` only moves `x` past elements that do not compare equal to it. */
  lemma {:induction false} InsertClass<T(!new)>(x: T, s: seq<T>, k: T, leq: (T, T) -> bool)
    requires TotalPreorder(leq)
    ensures Class(Insert(x, s, leq), k, leq) == IfEqual(x, k, leq) + Class(s, k, leq)
  {
    if s == [] || leq(x, s[0]) {
      ClassCons(x, s, k, leq);
    } else {
      assert IfEqual(x, k, leq) == [] || IfEqual(s[0], k, leq) == [];
      hide Class, IfEqual;
      InsertClass(x, s[1..], k, leq);
      ClassCons(s[0], Insert(x, s[1..], leq), k, leq);
      ClassCons(s[0], s[1..], k, leq);
      assert s == [s[0]] + s[1..];
      OneEmpty(IfEqual(x, k, leq), IfEqual(s[0], k, leq), Class(s[1..], k, leq));
    }
  }

  lemma {:induction false} SortClass<T(!new)>(s: seq<T>, k: T, leq: (T, T) -> bool)
    requires TotalPreorder(leq)
    ensures Class(Sort(s, leq), k, leq) == Class(s, k, leq)
  {
    if s != [] {
      hide Insert, TotalPreorder, IfEqual;
      SortClass(s[1..], k, leq);
      InsertClass(s[0], Sort(s[1..], leq), k, leq);
    }
  }

  lemma {:induction false} SortSorted<T(!new)>(s: seq<T>, leq: (T, T) -> bool)
    requires TotalPreorder(leq)
    ensures Sorted(Sort(s, leq), leq)
  {
    if s != [] {
      SortSorted(s[1..], leq);
      InsertSorted(s[0], Sort(s[1..], leq), leq);
    }
  }

  /** `Sort` orders its input and keeps every class of equal elements in its input order. */
  lemma SortIsStable<T(!new)>(s: seq<T>, leq: (T, T) -> bool)
    requires TotalPreorder(leq)
    ensures Sorted(Sort(s, leq), leq)
    ensures SameClasses(Sort(s, leq), s, leq)
  {
    SortSorted(s, leq);
    forall k ensures Class(Sort(s, leq), k, leq) == Class(s, k, leq) {
      SortClass(s, k, leq);
    }
  }

  /** The first element of a sorted sequence is the first of its class in any with the same classes. */
  lemma SameFirst<T(!new)>(a: seq<T>, b: seq<T>, leq: (T, T) -> bool)
    requires TotalPreorder(leq) && a != []
    requires Sorted(a, leq) && Sorted(b, leq) && SameClasses(a, b, leq)
    ensures b != [] && leq(b[0], a[0])
  {
    ClassMember(a, a[0], leq);
    ClassMember(b, a[0], leq);
    assert Class(a, a[0], leq) == Class(b, a[0], leq);
    assert a[0] in b;
  }

  lemma ClassTail<T>(s: seq<T>, k: T, leq: (T, T) -> bool)
    requires s != []
    ensures |IfEqual(s[0], k, leq)| <= |Class(s, k, leq)|
    ensures Class(s[1..], k, leq) == Class(s, k, leq)[|IfEqual(s[0], k, leq)|..]
    ensures IfEqual(s[0], k, leq) != [] ==> Class(s, k, leq)[0] == s[0]
  {
  }

  /** Two sorted sequences with the same classes are the same sequence. */
  lemma {:induction false} Unique<T(!new)>(a: seq<T>, b: seq<T>, leq: (T, T) -> bool)
    requires TotalPreorder(leq)
    requires Sorted(a, leq) && Sorted(b, leq) && SameClasses(a, b, leq)
    ensures a == b
  {
    if a == [] {
      if b != [] { SameFirst(b, a, leq); }
    } else {
      SameFirst(a, b, leq);
      SameFirst(b, a, leq);
      assert Class(a, a[0], leq) == Class(b, a[0], leq);
      ClassTail(a, a[0], leq);
      ClassTail(b, a[0], leq);
      hide Class;
      forall k ensures Class(a[1..], k, leq) == Class(b[1..], k, leq) {
        assert Class(a, k, leq) == Class(b, k, leq);
        ClassTail(a, k, leq);
        ClassTail(b, k, leq);
      }
      Unique(a[1..], b[1..], leq);
      assert a == [a[0]] + a[1..] && b == [b[0]] + b[1..];
    }
  }

  lemma SortOfSorted<T(!new)>(s: seq<T>, leq: (T, T) -> bool)
    requires TotalPreorder(leq) && Sorted(s, leq)
    ensures Sort(s, leq) == s
  {
    SortIsStable(s, leq);
    Unique(Sort(s, leq), s, leq);
  }

  /** Sorting a prefix early, any number of times, changes nothing. */
  lemma SortAgain<T(!new)>(a: seq<T>, b: seq<T>, c: seq<T>, leq: (T, T) -> bool)
    requires TotalPreorder(leq)
    requires Sort(a, leq) == Sort(b, leq)
    ensures Sort(a + c, leq) == Sort(b + c, leq)
  {
    SortIsStable(a, leq);
    SortIsStable(b, leq);
    SortIsStable(a + c, leq);
    SortIsStable(b + c, leq);
    forall k ensures Class(Sort(a + c, leq), k, leq) == Class(Sort(b + c, leq), k, leq) {
      ClassConcat(a, c, k, leq);
      ClassConcat(b, c, k, leq);
      assert Class(Sort(a, leq), k, leq) == Class(a, k, leq);
      assert Class(Sort(b, leq), k, leq) == Class(b, k, leq);
      assert Class(Sort(a + c, leq), k, leq) == Class(a + c, k, leq);
      assert Class(Sort(b + c, leq), k, leq) == Class(b + c, k, leq);
    }
    Unique(Sort(a + c, leq), Sort(b + c, leq), leq);
  }
}

/**
 `TextEdit::union` in `crates/aether_lsp_utils/src/text_edit.rs`: when two edits unite, what their
 union holds and means, and when the order of the two does not matter.
 */
module Unions {
  import opened Prelude
  import opened Indels
  import StableSort

  /** `merge_by` on starts, preferring the left list on ties. */
  function Merge(a: seq<Indel>, b: seq<Indel>): (r: seq<Indel>)
    ensures multiset(r) == multiset(a) + multiset(b)
    decreases |a| + |b|
  {
    if a == [] then b
    else if b == [] then a
    else if a[0].start <= b[0].start then
      assert a == [a[0]] + a[1..];
      [a[0]] + Merge(a[1..], b)
    else
      assert b == [b[0]] + b[1..];
      [b[0]] + Merge(a, b[1..])
  }

  /** `dedup_by`: drop a non-empty deletion that equals its predecessor. */
  function DropRepeats(s: seq<Indel>): seq<Indel> {
    if |s| < 2 then s
    else if s[0] == s[1] && !s[0].Inserts() then DropRepeats(s[1..])
    else [s[0]] + DropRepeats(s[1..])
  }

  /** When an indel of the receiver and one of the argument can live in one edit. */
  predicate Compatible(x: Indel, y: Indel) {
    x == y || (if x.start <= y.start then x.stop <= y.start else y.stop <= x.start)
  }

  ghost predicate AllCompatible(a: seq<Indel>, b: seq<Indel>) {
    forall x, y :: x in a && y in b ==> Compatible(x, y)
  }

  lemma {:induction false} SeparatedHead(s: seq<Indel>)
    requires s != [] && Separated(s)
    ensures forall x :: x in s[1..] ==> s[0].stop <= x.start
  {
    forall x | x in s[1..] ensures s[0].stop <= x.start {
      var j :| 0 <= j < |s[1..]| && s[1..][j] == x;
      SeparatedPairwise(s, 0, j + 1);
    }
  }

  lemma CompatibleLeft(a: seq<Indel>, b: seq<Indel>)
    requires a != []
    ensures AllCompatible(a, b) <==> (forall y :: y in b ==> Compatible(a[0], y)) && AllCompatible(a[1..], b)
  {
    assert a == [a[0]] + a[1..];
  }

  lemma CompatibleRight(a: seq<Indel>, b: seq<Indel>)
    requires b != []
    ensures AllCompatible(a, b) <==> (forall x :: x in a ==> Compatible(x, b[0])) && AllCompatible(a, b[1..])
  {
    assert b == [b[0]] + b[1..];
  }

  lemma LeftHead(x: Indel, next: Indel, b: seq<Indel>)
    requires b != [] && Separated(b) && x.start <= b[0].start
    requires next == b[0] || x.stop <= next.start <= b[0].start
    ensures (x.stop <= next.start || x == next) <==> forall y :: y in b ==> Compatible(x, y)
  {
    SeparatedHead(b);
    assert b == [b[0]] + b[1..] && Compatible(x, b[0]) <==> x == b[0] || x.stop <= b[0].start;
  }

  lemma RightHead(a: seq<Indel>, next: Indel, y: Indel)
    requires a != [] && Separated(a) && y.start < a[0].start
    requires next == a[0] || y.stop <= next.start <= a[0].start
    ensures (y.stop <= next.start || y == next) <==> forall x :: x in a ==> Compatible(x, y)
  {
    SeparatedHead(a);
    assert a == [a[0]] + a[1..] && Compatible(a[0], y) <==> y.stop <= a[0].start;
  }

  lemma MergeHead(a: seq<Indel>, b: seq<Indel>)
    requires a != [] || b != []
    ensures Merge(a, b) != []
    ensures Merge(a, b)[0] == if a != [] && (b == [] || a[0].start <= b[0].start) then a[0] else b[0]
  {
  }

  lemma CheckHead(h: Indel, rest: seq<Indel>)
    requires rest != []
    ensures CheckDisjoint([h] + rest) <==> (h.stop <= rest[0].start || h == rest[0]) && CheckDisjoint(rest)
  {
    assert ([h] + rest)[1..] == rest;
  }

  lemma MergeLeft(a: seq<Indel>, b: seq<Indel>)
    requires Separated(a) && Separated(b) && a != [] && b != [] && a[0].start <= b[0].start
    ensures CheckDisjoint(Merge(a, b)) <==>
            (forall y :: y in b ==> Compatible(a[0], y)) && CheckDisjoint(Merge(a[1..], b))
  {
    var rest := Merge(a[1..], b);
    assert Merge(a, b) == [a[0]] + rest;
    MergeHead(a[1..], b);
    CheckHead(a[0], rest);
    LeftHead(a[0], rest[0], b);
  }

  lemma MergeRight(a: seq<Indel>, b: seq<Indel>)
    requires Separated(a) && Separated(b) && a != [] && b != [] && b[0].start < a[0].start
    ensures CheckDisjoint(Merge(a, b)) <==>
            (forall x :: x in a ==> Compatible(x, b[0])) && CheckDisjoint(Merge(a, b[1..]))
  {
    var rest := Merge(a, b[1..]);
    assert Merge(a, b) == [b[0]] + rest;
    MergeHead(a, b[1..]);
    CheckHead(b[0], rest);
    RightHead(a, rest[0], b[0]);
  }

  /** `union` succeeds exactly when every indel of one edit is compatible with every one of the other. */
  lemma {:induction false} UnionSucceeds(a: seq<Indel>, b: seq<Indel>)
    requires Separated(a) && Separated(b)
    ensures CheckDisjoint(Merge(a, b)) <==> AllCompatible(a, b)
    decreases |a| + |b|
  {
    if a == [] {
      SeparatedChecks(b);
    } else if b == [] {
      SeparatedChecks(a);
    } else if a[0].start <= b[0].start {
      hide Merge, CheckDisjoint, AllCompatible, Compatible;
      UnionSucceeds(a[1..], b);
      MergeLeft(a, b);
      CompatibleLeft(a, b);
    } else {
      hide Merge, CheckDisjoint, AllCompatible, Compatible;
      UnionSucceeds(a, b[1..]);
      MergeRight(a, b);
      CompatibleRight(a, b);
    }
  }

  lemma {:induction false} DropRepeatsSeparates(s: seq<Indel>)
    requires CheckDisjoint(s)
    ensures Separated(DropRepeats(s))
    ensures s != [] ==> DropRepeats(s) != [] && DropRepeats(s)[0] == s[0]
  {
    if |s| >= 2 {
      DropRepeatsSeparates(s[1..]);
      if s[0] != s[1] || s[0].Inserts() {
        assert DropRepeats(s)[1..] == DropRepeats(s[1..]);
      }
    }
  }

  lemma {:induction false} DropRepeatsKeeps(s: seq<Indel>, d: Indel)
    ensures d in DropRepeats(s) <==> d in s
    ensures d.Inserts() ==> multiset(DropRepeats(s))[d] == multiset(s)[d]
  {
    if |s| >= 2 {
      assert s == [s[0]] + s[1..];
      DropRepeatsKeeps(s[1..], d);
    }
  }

  /**
   A successful `union` is separated, holds exactly the indels of both edits, keeps each non-empty
   deletion once, even a shared one, and keeps every insertion of either side.
   */
  lemma UnionResult(a: seq<Indel>, b: seq<Indel>)
    requires CheckDisjoint(Merge(a, b))
    ensures var r := DropRepeats(Merge(a, b));
            && Separated(r)
            && (forall d :: d in r <==> d in a || d in b)
            && (forall d :: d in r && !d.Inserts() ==> multiset(r)[d] == 1)
            && (forall d: Indel :: d.Inserts() ==> multiset(r)[d] == multiset(a)[d] + multiset(b)[d])
  {
    var m := Merge(a, b);
    var r: seq<Indel> := DropRepeats(m);
    DropRepeatsSeparates(m);
    SeparatedChecks(r);
    CheckedSeparated(r);
    forall d: Indel
      ensures d in r <==> d in a || d in b
      ensures d.Inserts() ==> multiset(r)[d] == multiset(a)[d] + multiset(b)[d]
    {
      DropRepeatsKeeps(m, d);
      assert d in m <==> d in multiset(m);
    }
  }

  lemma SeparatedCount(s: seq<Indel>, d: Indel)
    requires Separated(s) && !d.Inserts()
    ensures multiset(s)[d] == if d in s then 1 else 0
  {
    SeparatedChecks(s);
    CheckedSeparated(s);
  }

  // ---------------------------------------------------------------- insertions

  /** The insertions at `p`, in list order. */
  function Insertions(s: seq<Indel>, p: nat): seq<Indel> {
    StableSort.Class(s, InsertionAt(p), KeyLeq)
  }

  function InsertionOf(d: Indel, p: nat): seq<Indel> {
    if d.start == d.stop == p then [d] else []
  }

  lemma InsertionsCons(d: Indel, s: seq<Indel>, p: nat)
    ensures Insertions([d] + s, p) == InsertionOf(d, p) + Insertions(s, p)
  {
    assert ([d] + s)[1..] == s;
  }

  lemma {:induction false} InsertionsNone(s: seq<Indel>, p: nat)
    requires forall d :: d in s ==> !(d.start == d.stop == p)
    ensures Insertions(s, p) == []
  {
    if s != [] {
      InsertionsNone(s[1..], p);
      InsertionsCons(s[0], s[1..], p);
      assert s == [s[0]] + s[1..];
    }
  }

  lemma {:induction false} DropRepeatsInsertions(s: seq<Indel>, p: nat)
    ensures Insertions(DropRepeats(s), p) == Insertions(s, p)
  {
    if |s| >= 2 {
      hide Insertions;
      DropRepeatsInsertions(s[1..], p);
      InsertionsCons(s[0], s[1..], p);
      InsertionsCons(s[0], DropRepeats(s[1..]), p);
      assert s == [s[0]] + s[1..];
    }
  }

  lemma MergeFirst(a: seq<Indel>, b: seq<Indel>)
    requires a != [] && b != []
    ensures a[0].start <= b[0].start ==> Merge(a, b) == [a[0]] + Merge(a[1..], b)
    ensures b[0].start < a[0].start ==> Merge(a, b) == [b[0]] + Merge(a, b[1..])
  {
  }

  lemma MergeInsertionsLeft(a: seq<Indel>, b: seq<Indel>, p: nat)
    requires a != [] && b != [] && a[0].start <= b[0].start
    requires Insertions(Merge(a[1..], b), p) == Insertions(a[1..], p) + Insertions(b, p)
    ensures Insertions(Merge(a, b), p) == Insertions(a, p) + Insertions(b, p)
  {
    hide *;
    MergeFirst(a, b);
    InsertionsCons(a[0], Merge(a[1..], b), p);
    InsertionsCons(a[0], a[1..], p);
    assert a == [a[0]] + a[1..];
    Associative(InsertionOf(a[0], p), Insertions(a[1..], p), Insertions(b, p));
  }

  lemma NothingBefore(a: seq<Indel>, d: Indel, p: nat)
    requires a != [] && Separated(a) && d.start < a[0].start
    ensures InsertionOf(d, p) == [] || Insertions(a, p) == []
  {
    if p == d.start {
      SeparatedHead(a);
      assert a == [a[0]] + a[1..];
      InsertionsNone(a, p);
    }
  }

  lemma MergeInsertionsRight(a: seq<Indel>, b: seq<Indel>, p: nat)
    requires a != [] && b != [] && b[0].start < a[0].start && Separated(a)
    requires Insertions(Merge(a, b[1..]), p) == Insertions(a, p) + Insertions(b[1..], p)
    ensures Insertions(Merge(a, b), p) == Insertions(a, p) + Insertions(b, p)
  {
    hide *;
    MergeFirst(a, b);
    InsertionsCons(b[0], Merge(a, b[1..]), p);
    InsertionsCons(b[0], b[1..], p);
    assert b == [b[0]] + b[1..];
    NothingBefore(a, b[0], p);
    StableSort.OneEmpty(InsertionOf(b[0], p), Insertions(a, p), Insertions(b[1..], p));
  }

  /** At every offset, merging puts the insertions of the receiver before those of the argument. */
  lemma {:induction false} MergeInsertions(a: seq<Indel>, b: seq<Indel>, p: nat)
    requires Separated(a) && Separated(b)
    ensures Insertions(Merge(a, b), p) == Insertions(a, p) + Insertions(b, p)
    decreases |a| + |b|
  {
    if a == [] || b == [] {
      assert Merge(a, b) == a + b && Insertions([], p) == [];
      StableSort.ClassConcat(a, b, InsertionAt(p), KeyLeq);
    } else {
      hide Insertions, Merge;
      if a[0].start <= b[0].start {
        MergeInsertions(a[1..], b, p);
        MergeInsertionsLeft(a, b, p);
      } else {
        MergeInsertions(a, b[1..], p);
        MergeInsertionsRight(a, b, p);
      }
    }
  }

  lemma UnionInsertions(a: seq<Indel>, b: seq<Indel>, p: nat)
    requires Separated(a) && Separated(b)
    ensures Insertions(DropRepeats(Merge(a, b)), p) == Insertions(a, p) + Insertions(b, p)
  {
    hide *;
    DropRepeatsInsertions(Merge(a, b), p);
    MergeInsertions(a, b, p);
  }

  // ---------------------------------------------------------------- meaning

  /** The indels of `b`, without the non-empty deletions that `a` makes already. */
  function NewIndels(a: seq<Indel>, b: seq<Indel>): seq<Indel> {
    if b == [] then []
    else (if b[0] in a && !b[0].Inserts() then [] else [b[0]]) + NewIndels(a, b[1..])
  }

  lemma {:induction false} NewIndelsCount(a: seq<Indel>, b: seq<Indel>, d: Indel)
    ensures multiset(NewIndels(a, b))[d] == if d in a && !d.Inserts() then 0 else multiset(b)[d]
  {
    if b != [] {
      NewIndelsCount(a, b[1..], d);
      assert b == [b[0]] + b[1..];
    }
  }

  lemma {:induction false} NewInsertions(a: seq<Indel>, b: seq<Indel>, p: nat)
    ensures Insertions(NewIndels(a, b), p) == Insertions(b, p)
  {
    if b != [] {
      hide Insertions;
      NewInsertions(a, b[1..], p);
      InsertionsCons(b[0], b[1..], p);
      InsertionsCons(b[0], NewIndels(a, b[1..]), p);
      assert b == [b[0]] + b[1..];
      assert [] + NewIndels(a, b[1..]) == NewIndels(a, b[1..]);
    }
  }

  lemma CountBoth(a: seq<Indel>, c: seq<Indel>, d: Indel)
    ensures multiset(a + c)[d] == multiset(a)[d] + multiset(c)[d]
  {
  }

  lemma UnionCountAt(a: seq<Indel>, b: seq<Indel>, d: Indel)
    requires Separated(a) && Separated(b) && CheckDisjoint(Merge(a, b))
    ensures multiset(a + NewIndels(a, b))[d] == multiset(DropRepeats(Merge(a, b)))[d]
  {
    hide Merge, DropRepeats, NewIndels, Separated, CheckDisjoint;
    UnionResult(a, b);
    NewIndelsCount(a, b, d);
    CountBoth(a, NewIndels(a, b), d);
    if !d.Inserts() {
      SeparatedCount(a, d);
      SeparatedCount(b, d);
      SeparatedCount(DropRepeats(Merge(a, b)), d);
    }
  }

  lemma SameCounts(s: seq<Indel>, t: seq<Indel>)
    requires forall d: Indel :: multiset(s)[d] == multiset(t)[d]
    ensures multiset(s) == multiset(t)
  {
  }

  lemma UnionCount(a: seq<Indel>, b: seq<Indel>)
    requires Separated(a) && Separated(b) && CheckDisjoint(Merge(a, b))
    ensures multiset(a + NewIndels(a, b)) == multiset(DropRepeats(Merge(a, b)))
  {
    hide *;
    forall d: Indel ensures multiset(a + NewIndels(a, b))[d] == multiset(DropRepeats(Merge(a, b)))[d] {
      UnionCountAt(a, b, d);
    }
    SameCounts(a + NewIndels(a, b), DropRepeats(Merge(a, b)));
  }

  lemma UnionInserts(a: seq<Indel>, b: seq<Indel>, p: nat)
    requires Separated(a) && Separated(b)
    ensures InsertsAt(a + NewIndels(a, b), p, true) == InsertsAt(DropRepeats(Merge(a, b)), p, true)
  {
    hide InsertsAt, DropRepeats, Merge, NewIndels;
    InsertsAtClass(a + NewIndels(a, b), p);
    InsertsAtClass(DropRepeats(Merge(a, b)), p);
    UnionInsertions(a, b, p);
    NewInsertions(a, b, p);
    StableSort.ClassConcat(a, NewIndels(a, b), InsertionAt(p), KeyLeq);
  }

  lemma UnionFits(a: seq<Indel>, b: seq<Indel>, n: nat)
    requires CheckDisjoint(Merge(a, b)) && InRange(a, n) && InRange(b, n)
    ensures Fits(DropRepeats(Merge(a, b)), 0, n)
    ensures Separated(DropRepeats(Merge(a, b))) && NoRepeatedDeletion(DropRepeats(Merge(a, b)))
  {
    hide Merge, DropRepeats;
    var r: seq<Indel> := DropRepeats(Merge(a, b));
    UnionResult(a, b);
    forall i | 0 <= i < |r| ensures r[i].stop <= n {
      assert r[i] in a || r[i] in b;
    }
    FitsSeparated(r, 0, n);
  }

  /**
   What a union does to a text: what the indels of the receiver and the new ones of the argument
   mean together, with the receiver's insertions first where both insert at one offset.
   */
  lemma UnionMeaning(text: Text, a: seq<Indel>, b: seq<Indel>)
    requires Separated(a) && Separated(b) && CheckDisjoint(Merge(a, b))
    requires InRange(a, |text|) && InRange(b, |text|)
    ensures Fits(DropRepeats(Merge(a, b)), 0, |text|)
    ensures Splice(text, 0, DropRepeats(Merge(a, b))) == Reference(text, a + NewIndels(a, b), 0)
  {
    hide *;
    var r: seq<Indel> := DropRepeats(Merge(a, b));
    UnionFits(a, b, |text|);
    SpliceIsReference(text, 0, r);
    UnionCount(a, b);
    forall p: nat ensures InsertsAt(a + NewIndels(a, b), p, true) == InsertsAt(r, p, true) {
      UnionInserts(a, b, p);
    }
    ReferenceSame(text, a + NewIndels(a, b), r);
  }

  // ---------------------------------------------------------------- the order of the operands

  /** The order matters: an insertion and a deletion that start together. */
  lemma UnionNotSymmetric(ins: Indel, del: Indel)
    requires ins.Inserts() && !del.Inserts() && ins.start == del.start
    ensures CheckDisjoint(Merge([ins], [del]))
    ensures !CheckDisjoint(Merge([del], [ins]))
  {
    assert [ins][1..] == [] && [del][1..] == [];
    MergeFirst([ins], [del]);
    MergeFirst([del], [ins]);
    assert Merge([ins], [del]) == [ins, del] && Merge([del], [ins]) == [del, ins];
  }

  /** The argument replaces where the receiver inserts. */
  ghost predicate InsertsBefore(a: seq<Indel>, b: seq<Indel>) {
    exists x, y :: x in a && y in b && x.start == y.start && x.Inserts() && !y.Inserts()
  }

  /** Edits that unite one way unite the other way exactly if the second deletes nothing where the first inserts. */
  lemma UnionOtherOrder(a: seq<Indel>, b: seq<Indel>)
    requires Separated(a) && Separated(b) && CheckDisjoint(Merge(a, b))
    ensures CheckDisjoint(Merge(b, a)) <==> !InsertsBefore(a, b)
  {
    hide Merge, CheckDisjoint, Separated;
    UnionSucceeds(a, b);
    UnionSucceeds(b, a);
    if InsertsBefore(a, b) {
      var x, y :| x in a && y in b && x.start == y.start && x.Inserts() && !y.Inserts();
      assert !Compatible(y, x);
    } else {
      forall y, x | y in b && x in a ensures Compatible(y, x) {
        assert Compatible(x, y);
      }
    }
  }

  lemma {:induction false} ClassNone(s: seq<Indel>, k: Indel)
    requires forall d :: d in s ==> k.stop <= d.start
    requires !k.Inserts()
    ensures StableSort.Class(s, k, KeyLeq) == []
  {
    if s != [] {
      ClassNone(s[1..], k);
    }
  }

  /** Among separated indels at most one deletes a given range. */
  lemma {:induction false} ReplacementClass(s: seq<Indel>, k: Indel, d: Indel)
    requires Separated(s) && !k.Inserts() && d in s && d.start == k.start && d.stop == k.stop
    ensures StableSort.Class(s, k, KeyLeq) == [d]
  {
    SeparatedHead(s);
    assert s == [s[0]] + s[1..];
    if s[0].start == k.start && s[0].stop == k.stop {
      ClassNone(s[1..], k);
    } else {
      ReplacementClass(s[1..], k, d);
    }
  }

  lemma {:induction false} EmptyClass(s: seq<Indel>, k: Indel)
    requires forall d :: d in s ==> d.start != k.start || d.stop != k.stop
    ensures StableSort.Class(s, k, KeyLeq) == []
  {
    if s != [] {
      EmptyClass(s[1..], k);
    }
  }

  lemma DeletionClasses(s: seq<Indel>, t: seq<Indel>, k: Indel)
    requires Separated(s) && Separated(t) && !k.Inserts() && forall d: Indel :: d in s <==> d in t
    ensures StableSort.Class(s, k, KeyLeq) == StableSort.Class(t, k, KeyLeq)
  {
    if d :| d in s && d.start == k.start && d.stop == k.stop {
      ReplacementClass(s, k, d);
      ReplacementClass(t, k, d);
    } else {
      EmptyClass(s, k);
      EmptyClass(t, k);
    }
  }

  lemma {:induction false} ClassOfKey(s: seq<Indel>, k: Indel, l: Indel)
    requires k.start == l.start && k.stop == l.stop
    ensures StableSort.Class(s, k, KeyLeq) == StableSort.Class(s, l, KeyLeq)
  {
    if s != [] {
      ClassOfKey(s[1..], k, l);
    }
  }

  /** Separated lists of the same indels are equal if they have the same insertions at every offset. */
  lemma SameList(s: seq<Indel>, t: seq<Indel>)
    requires Separated(s) && Separated(t) && forall d: Indel :: d in s <==> d in t
    requires forall p: nat :: Insertions(s, p) == Insertions(t, p)
    ensures s == t
  {
    SeparatedSorted(s);
    SeparatedSorted(t);
    KeyOrder();
    forall k: Indel ensures StableSort.Class(s, k, KeyLeq) == StableSort.Class(t, k, KeyLeq) {
      if k.Inserts() {
        ClassOfKey(s, k, InsertionAt(k.start));
        ClassOfKey(t, k, InsertionAt(k.start));
        assert Insertions(s, k.start) == Insertions(t, k.start);
      } else {
        DeletionClasses(s, t, k);
      }
    }
    StableSort.Unique(s, t, KeyLeq);
  }

  ghost predicate InsertionsCommute(a: seq<Indel>, b: seq<Indel>) {
    forall p: nat :: Insertions(a, p) + Insertions(b, p) == Insertions(b, p) + Insertions(a, p)
  }

  /** Where both orders unite, they give the same edit exactly if the insertions at each offset commute. */
  lemma UnionOrderIrrelevant(a: seq<Indel>, b: seq<Indel>)
    requires Separated(a) && Separated(b) && CheckDisjoint(Merge(a, b)) && CheckDisjoint(Merge(b, a))
    ensures DropRepeats(Merge(a, b)) == DropRepeats(Merge(b, a)) <==> InsertionsCommute(a, b)
  {
    hide Merge, DropRepeats, CheckDisjoint, Insertions;
    var r: seq<Indel>, q: seq<Indel> := DropRepeats(Merge(a, b)), DropRepeats(Merge(b, a));
    forall p: nat
      ensures Insertions(r, p) == Insertions(a, p) + Insertions(b, p)
      ensures Insertions(q, p) == Insertions(b, p) + Insertions(a, p)
    {
      UnionInsertions(a, b, p);
      UnionInsertions(b, a, p);
    }
    if InsertionsCommute(a, b) {
      UnionResult(a, b);
      UnionResult(b, a);
      SameList(r, q);
    }
  }

  lemma {:induction false} StrictInsertion(s: seq<Indel>, x: Indel)
    requires StrictlySeparated(s) && x in s && x.Inserts()
    ensures Insertions(s, x.start) == [x]
  {
    StrictHead(s);
    InsertionsCons(s[0], s[1..], x.start);
    assert s == [s[0]] + s[1..];
    if s[0] == x {
      InsertionsNone(s[1..], x.start);
    } else {
      StrictInsertion(s[1..], x);
    }
  }

  lemma {:induction false} StrictHead(s: seq<Indel>)
    requires s != [] && StrictlySeparated(s)
    ensures Separated(s) && forall x :: x in s[1..] ==> s[0].stop < x.start
  {
    if |s| > 1 {
      StrictHead(s[1..]);
      assert s[1..] == [s[1]] + s[1..][1..];
    }
  }

  lemma InsertionsMembers(s: seq<Indel>, p: nat)
    ensures Insertions(s, p) != [] ==> exists x :: x in s && x.Inserts() && x.start == p
  {
    if forall x :: x in s ==> !(x.start == x.stop == p) {
      InsertionsNone(s, p);
    }
  }

  /** The two insert the same text wherever both insert. */
  ghost predicate SameInsertions(a: seq<Indel>, b: seq<Indel>) {
    forall x, y :: x in a && y in b && x.Inserts() && y.Inserts() && x.start == y.start ==> x.insert == y.insert
  }

  lemma CommuteThenSame(a: seq<Indel>, b: seq<Indel>)
    requires StrictlySeparated(a) && StrictlySeparated(b) && InsertionsCommute(a, b)
    ensures SameInsertions(a, b)
  {
    hide StrictlySeparated, Insertions;
    forall x, y | x in a && y in b && x.Inserts() && y.Inserts() && x.start == y.start ensures x.insert == y.insert {
      StrictInsertion(a, x);
      StrictInsertion(b, y);
      assert Insertions(a, x.start) + Insertions(b, x.start) == Insertions(b, x.start) + Insertions(a, x.start);
      assert ([x] + [y])[0] == ([y] + [x])[0];
    }
  }

  lemma SameThenCommute(a: seq<Indel>, b: seq<Indel>, p: nat)
    requires StrictlySeparated(a) && StrictlySeparated(b) && SameInsertions(a, b)
    ensures Insertions(a, p) + Insertions(b, p) == Insertions(b, p) + Insertions(a, p)
  {
    hide StrictlySeparated, Insertions;
    if Insertions(a, p) != [] && Insertions(b, p) != [] {
      InsertionsMembers(a, p);
      InsertionsMembers(b, p);
      var x: Indel :| x in a && x.Inserts() && x.start == p;
      var y: Indel :| y in b && y.Inserts() && y.start == p;
      StrictInsertion(a, x);
      StrictInsertion(b, y);
      assert x == y;
    }
  }

  /**
   For finished edits, which are strictly separated: the two unions are the same edit exactly if the
   two insert the same text wherever both insert.
   */
  lemma FinishedOrderIrrelevant(a: seq<Indel>, b: seq<Indel>)
    requires StrictlySeparated(a) && StrictlySeparated(b)
    requires CheckDisjoint(Merge(a, b)) && CheckDisjoint(Merge(b, a))
    ensures DropRepeats(Merge(a, b)) == DropRepeats(Merge(b, a)) <==> SameInsertions(a, b)
  {
    assert Separated(a) by { if a != [] { StrictHead(a); } }
    assert Separated(b) by { if b != [] { StrictHead(b); } }
    hide Merge, DropRepeats, CheckDisjoint, Insertions, StrictlySeparated, Separated, SameInsertions;
    UnionOrderIrrelevant(a, b);
    if InsertionsCommute(a, b) {
      CommuteThenSame(a, b);
    }
    if SameInsertions(a, b) {
      forall p: nat ensures Insertions(a, p) + Insertions(b, p) == Insertions(b, p) + Insertions(a, p) {
        SameThenCommute(a, b, p);
      }
    }
  }
}

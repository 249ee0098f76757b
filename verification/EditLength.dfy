/**
 How long edited text is: `crates/aether_lsp_utils/src/text_edit.rs`. Applying indels changes the
 length by what each inserts and deletes. The reference meaning deletes each byte once, so it differs
 as soon as a non-empty deletion is repeated.
 */
module EditLength {
  import opened Prelude
  import opened Indels
  import StableSort

  function Len(d: Indel): nat {
    d.stop - d.start
  }

  /** What applying the indels one by one adds to the length. */
  function Growth(s: seq<Indel>): int {
    if s == [] then 0 else |s[0].insert| - Len(s[0]) + Growth(s[1..])
  }

  lemma GrowthCons(d: Indel, s: seq<Indel>)
    ensures Growth([d] + s) == |d.insert| - Len(d) + Growth(s)
  {
    assert ([d] + s)[1..] == s;
  }

  lemma {:induction false} GrowthSnoc(s: seq<Indel>, d: Indel)
    ensures Growth(s + [d]) == Growth(s) + |d.insert| - Len(d)
  {
    if s == [] {
      assert s + [d] == [d] + [];
      GrowthCons(d, []);
    } else {
      assert (s + [d])[1..] == s[1..] + [d];
      GrowthSnoc(s[1..], d);
    }
  }

  lemma {:induction false} GrowthInsert(x: Indel, s: seq<Indel>)
    ensures Growth(StableSort.Insert(x, s, KeyLeq)) == |x.insert| - Len(x) + Growth(s)
  {
    if s == [] || KeyLeq(x, s[0]) {
      GrowthCons(x, s);
    } else {
      GrowthInsert(x, s[1..]);
      GrowthCons(s[0], StableSort.Insert(x, s[1..], KeyLeq));
    }
  }

  /** Sorting does not change the growth. */
  lemma {:induction false} GrowthSort(s: seq<Indel>)
    ensures Growth(SortIndels(s)) == Growth(s)
  {
    if s != [] {
      GrowthSort(s[1..]);
      GrowthInsert(s[0], SortIndels(s[1..]));
    }
  }

  /** What the first `k` indels add to an offset after them, and to the length. */
  function Shift(s: seq<Indel>, k: nat): int
    requires k <= |s|
  {
    if k == 0 then 0 else Shift(s, k - 1) + |s[k - 1].insert| - Len(s[k - 1])
  }

  lemma {:induction false} ShiftTail(s: seq<Indel>, k: nat)
    requires 0 < k <= |s|
    ensures Shift(s, k) == |s[0].insert| - Len(s[0]) + Shift(s[1..], k - 1)
  {
    if k > 1 {
      ShiftTail(s, k - 1);
    }
  }

  lemma {:induction false} ShiftIsGrowth(s: seq<Indel>, k: nat)
    requires k <= |s|
    ensures Shift(s, k) == Growth(s[..k])
  {
    if k > 0 {
      ShiftIsGrowth(s, k - 1);
      assert s[..k] == s[..k - 1] + [s[k - 1]];
      GrowthSnoc(s[..k - 1], s[k - 1]);
    }
  }

  /** Some first indels delete more than `n` bytes and what they insert. */
  ghost predicate ShrinksBelow(s: seq<Indel>, n: nat) {
    exists k :: 0 <= k <= |s| && n + Shift(s, k) < 0
  }

  /** Where the first `i` indels end. */
  function Edge(s: seq<Indel>, i: nat): nat
    requires i <= |s|
  {
    if i == 0 then 0 else s[i - 1].stop
  }

  lemma {:induction false} ShiftAbove(s: seq<Indel>, k: nat)
    requires Separated(s) && k <= |s|
    ensures Shift(s, k) + Edge(s, k) >= 0
  {
    if k > 0 {
      ShiftAbove(s, k - 1);
      if k > 1 { SeparatedPairwise(s, k - 2, k - 1); }
    }
  }

  lemma FitsNeverShrinks(s: seq<Indel>, n: nat)
    requires Fits(s, 0, n)
    ensures !ShrinksBelow(s, n)
  {
    FitsSeparated(s, 0, n);
    forall k | 0 <= k <= |s| ensures n + Shift(s, k) >= 0 {
      ShiftAbove(s, k);
    }
  }

  // ---------------------------------------------------------------- the length of the reference

  /** What the first indel adds to the text from `p` on, if nothing else deletes its range. */
  function Share(d: Indel, p: nat): int {
    (if p <= d.start then |d.insert| else 0)
    - (if p <= d.start then Len(d) else if p < d.stop then d.stop - p else 0)
  }

  lemma EmitLength(text: Text, s: seq<Indel>, p: nat)
    requires s != []
    ensures |Emit(text, s, p)| >=
            |Emit(text, s[1..], p)|
            + (if p == s[0].start then |s[0].insert| else 0) - (if s[0].start <= p < s[0].stop then 1 else 0)
    ensures Deleted(s[1..], p) || !(s[0].start <= p < s[0].stop) ==>
            |Emit(text, s, p)| == |Emit(text, s[1..], p)| + if p == s[0].start then |s[0].insert| else 0
  {
    var x: Text := if s[0].start == p then s[0].insert else [];
    assert |InsertsAt(s, p, true)| + |InsertsAt(s, p, false)|
        == |x| + |InsertsAt(s[1..], p, true)| + |InsertsAt(s[1..], p, false)|;
  }

  lemma GatherLength(f: nat -> Text, p: nat, n: nat)
    requires p < n
    ensures |Gather(f, p, n)| == |f(p)| + |Gather(f, p + 1, n)|
  {
  }

  lemma GatherEnd(f: nat -> Text, n: nat)
    ensures |Gather(f, n, n)| == |f(n)|
  {
  }

  /** One indel more adds at least its share. */
  lemma {:induction false} ReferenceStep(text: Text, s: seq<Indel>, p: nat)
    requires s != [] && s[0].stop <= |text| && p <= |text|
    ensures |Reference(text, s, p)| >= |Reference(text, s[1..], p)| + Share(s[0], p)
    decreases |text| - p
  {
    hide Emit, Gather;
    EmitLength(text, s, p);
    var f, g := Emitter(text, s), Emitter(text, s[1..]);
    if p < |text| {
      GatherLength(f, p, |text|);
      GatherLength(g, p, |text|);
      ReferenceStep(text, s, p + 1);
    } else {
      GatherEnd(f, p);
      GatherEnd(g, p);
    }
  }

  /** If the indel is there already, its deletion takes nothing more away. */
  lemma {:induction false} ReferenceRepeat(text: Text, s: seq<Indel>, p: nat)
    requires s != [] && s[0].stop <= |text| && p <= |text| && s[0] in s[1..]
    ensures |Reference(text, s, p)| == |Reference(text, s[1..], p)| + if p <= s[0].start then |s[0].insert| else 0
    decreases |text| - p
  {
    hide Emit, Gather, Deleted;
    EmitLength(text, s, p);
    DeletedIff(s[1..], p);
    var f, g := Emitter(text, s), Emitter(text, s[1..]);
    if p < |text| {
      GatherLength(f, p, |text|);
      GatherLength(g, p, |text|);
      ReferenceRepeat(text, s, p + 1);
    } else {
      GatherEnd(f, p);
      GatherEnd(g, p);
    }
  }

  lemma EmitNothing(text: Text, p: nat)
    ensures |Emit(text, [], p)| == if p < |text| then 1 else 0
  {
  }

  lemma {:induction false} ReferenceNothing(text: Text, p: nat)
    requires p <= |text|
    ensures |Reference(text, [], p)| == |text| - p
    decreases |text| - p
  {
    hide Emit, Gather;
    EmitNothing(text, p);
    if p < |text| {
      ReferenceNothing(text, p + 1);
      GatherLength(Emitter(text, []), p, |text|);
    } else {
      GatherEnd(Emitter(text, []), p);
    }
  }

  lemma InRangeTail(s: seq<Indel>, n: nat)
    requires s != [] && InRange(s, n)
    ensures s[0].stop <= n && InRange(s[1..], n)
  {
  }

  /** The reference is never shorter than the growth says. */
  lemma {:induction false} ReferenceLength(text: Text, s: seq<Indel>)
    requires InRange(s, |text|)
    ensures |Reference(text, s, 0)| >= |text| + Growth(s)
  {
    if s == [] {
      ReferenceNothing(text, 0);
    } else {
      hide Reference;
      InRangeTail(s, |text|);
      ReferenceLength(text, s[1..]);
      ReferenceStep(text, s, 0);
    }
  }

  /** With a non-empty deletion repeated it is longer. */
  lemma {:induction false} RepeatedLength(text: Text, s: seq<Indel>, d: Indel)
    requires InRange(s, |text|) && !d.Inserts() && multiset(s)[d] >= 2
    ensures |Reference(text, s, 0)| > |text| + Growth(s)
  {
    hide Reference;
    assert s != [];
    assert s == [s[0]] + s[1..];
    InRangeTail(s, |text|);
    if s[0] == d {
      assert d in multiset(s[1..]);
      ReferenceLength(text, s[1..]);
      ReferenceRepeat(text, s, 0);
    } else {
      RepeatedLength(text, s[1..], d);
      ReferenceStep(text, s, 0);
    }
  }
}

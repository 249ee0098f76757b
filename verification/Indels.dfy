/**
 Indels and what a list of them means: `crates/aether_lsp_utils/src/text_edit.rs`. An indel
 replaces a byte range of the original text. `Splice` is the left-to-right meaning of a separated
 list; `Reference` is the meaning of any list, offset by offset, without sorting or splicing.
 */
module Indels {
  import opened Prelude
  import StableSort

  datatype RawIndel = Indel(insert: Text, start: nat, stop: nat) {
    predicate Inserts() { start == stop }
  }

  type Indel = d: RawIndel | d.start <= d.stop witness RawIndel.Indel([], 0, 0)

  // ---------------------------------------------------------------- sorting and checking

  /** The sort key of `check_disjoint_and_sort`: start, then end. */
  predicate KeyLeq(a: Indel, b: Indel) {
    a.start < b.start || (a.start == b.start && a.stop <= b.stop)
  }

  function SortIndels(s: seq<Indel>): (r: seq<Indel>)
    ensures multiset(r) == multiset(s)
  {
    StableSort.Sort(s, KeyLeq)
  }

  /** `check_disjoint`: neighbours do not overlap, or are equal. */
  predicate CheckDisjoint(s: seq<Indel>) {
    |s| < 2 || ((s[0].stop <= s[1].start || s[0] == s[1]) && CheckDisjoint(s[1..]))
  }

  /** No overlap at all; neighbours may touch. */
  predicate Separated(s: seq<Indel>) {
    |s| < 2 || (s[0].stop <= s[1].start && Separated(s[1..]))
  }

  /** No overlap and no touching: what `finish` is for. */
  predicate StrictlySeparated(s: seq<Indel>) {
    |s| < 2 || (s[0].stop < s[1].start && StrictlySeparated(s[1..]))
  }

  predicate InRange(s: seq<Indel>, n: nat) {
    forall i :: 0 <= i < |s| ==> s[i].stop <= n
  }

  ghost predicate NoRepeatedDeletion(s: seq<Indel>) {
    forall d :: d in s && !d.Inserts() ==> multiset(s)[d] == 1
  }

  lemma KeyOrder()
    ensures StableSort.TotalPreorder(KeyLeq)
  {
  }

  lemma {:induction false} SeparatedPairwise(s: seq<Indel>, i: nat, j: nat)
    requires Separated(s) && i < j < |s|
    ensures s[i].stop <= s[j].start
  {
    if i > 0 {
      SeparatedPairwise(s[1..], i - 1, j - 1);
    } else if j > 1 {
      SeparatedPairwise(s[1..], 0, j - 1);
    }
  }

  lemma SeparatedSorted(s: seq<Indel>)
    requires Separated(s)
    ensures StableSort.Sorted(s, KeyLeq)
  {
    forall i, j | 0 <= i < j < |s| ensures KeyLeq(s[i], s[j]) {
      SeparatedPairwise(s, i, j);
    }
  }

  lemma {:induction false} SeparatedChecks(s: seq<Indel>)
    requires Separated(s)
    ensures CheckDisjoint(s)
  {
    if |s| >= 2 {
      SeparatedChecks(s[1..]);
    }
  }

  lemma CountTail(s: seq<Indel>, d: Indel)
    requires s != []
    ensures multiset(s)[d] == multiset(s[1..])[d] + if s[0] == d then 1 else 0
  {
    assert s == [s[0]] + s[1..];
  }

  lemma {:induction false} SeparatedOnce(s: seq<Indel>, d: Indel)
    requires Separated(s) && !d.Inserts()
    ensures multiset(s)[d] <= 1
  {
    if s != [] {
      CountTail(s, d);
      SeparatedOnce(s[1..], d);
      if s[0] == d && d in s[1..] {
        var j :| 0 <= j < |s[1..]| && s[1..][j] == d;
        SeparatedPairwise(s, 0, j + 1);
      }
    }
  }

  lemma NoRepeatTail(s: seq<Indel>)
    requires s != [] && NoRepeatedDeletion(s)
    ensures NoRepeatedDeletion(s[1..]) && (s[0] in s[1..] ==> s[0].Inserts())
  {
    forall d | d in s[1..] && !d.Inserts() ensures multiset(s[1..])[d] == 1 && d != s[0] {
      CountTail(s, d);
      assert d in multiset(s[1..]);
    }
  }

  lemma {:induction false} OnceSeparated(s: seq<Indel>)
    requires CheckDisjoint(s) && NoRepeatedDeletion(s)
    ensures Separated(s)
  {
    if |s| >= 2 {
      NoRepeatTail(s);
      OnceSeparated(s[1..]);
      assert s[1] in s[1..];
    }
  }

  /** The check lets exactly one kind of overlap through: a non-empty deletion given twice. */
  lemma CheckedSeparated(s: seq<Indel>)
    requires CheckDisjoint(s)
    ensures Separated(s) <==> NoRepeatedDeletion(s)
  {
    hide Separated, CheckDisjoint;
    if Separated(s) {
      forall d | d in s && !d.Inserts() ensures multiset(s)[d] == 1 {
        SeparatedOnce(s, d);
        assert d in multiset(s);
      }
    }
    if NoRepeatedDeletion(s) {
      OnceSeparated(s);
    }
  }

  // ---------------------------------------------------------------- meaning

  lemma SliceOfPrefix(text: Text, i: nat, j: nat, n: nat)
    requires i <= j <= n <= |text|
    ensures text[..n][i..j] == text[i..j]
  {
  }

  lemma Associative<T>(a: seq<T>, b: seq<T>, c: seq<T>)
    ensures (a + b) + c == a + (b + c)
  {
  }

  /** Left-to-right splice of separated indels into `text`, from offset `pos` on. */
  function Splice(text: Text, pos: nat, s: seq<Indel>): Text
    requires Fits(s, pos, |text|)
    decreases s
  {
    if s == [] then text[pos..]
    else text[pos..s[0].start] + s[0].insert + Splice(text, s[0].stop, s[1..])
  }

  /** `s` is separated and lies between `pos` and `n`. */
  predicate Fits(s: seq<Indel>, pos: nat, n: nat) {
    if s == [] then pos <= n
    else pos <= s[0].start && s[0].stop <= n && Fits(s[1..], s[0].stop, n)
  }

  lemma {:induction false} FitsSeparated(s: seq<Indel>, pos: nat, n: nat)
    ensures Fits(s, pos, n) <==>
            pos <= n && Separated(s) && InRange(s, n) && (s != [] ==> pos <= s[0].start)
  {
    if s != [] {
      FitsSeparated(s[1..], s[0].stop, n);
      assert s == [s[0]] + s[1..];
    }
  }

  /** Texts inserted at `p` by indels that delete nothing (or by those that do), in list order. */
  function InsertsAt(s: seq<Indel>, p: nat, pure: bool): Text {
    if s == [] then []
    else (if s[0].start == p && s[0].Inserts() == pure then s[0].insert else [])
         + InsertsAt(s[1..], p, pure)
  }

  predicate Deleted(s: seq<Indel>, p: nat) {
    s != [] && (s[0].start <= p < s[0].stop || Deleted(s[1..], p))
  }

  /**
   What an unordered list of indels makes of offset `p`: the pure insertions there, in the order
   given, then the replacement that starts there, then the original byte unless it is deleted.
   */
  function Emit(text: Text, s: seq<Indel>, p: nat): Text {
    InsertsAt(s, p, true) + InsertsAt(s, p, false) +
    if p < |text| && !Deleted(s, p) then [text[p]] else []
  }

  function Gather(f: nat -> Text, p: nat, n: nat): Text
    requires p <= n
    decreases n - p
  {
    f(p) + if p == n then [] else Gather(f, p + 1, n)
  }

  function Emitter(text: Text, s: seq<Indel>): nat -> Text {
    (q: nat) => Emit(text, s, q)
  }

  /** The meaning of an unordered list of indels: `Emit` at every offset from `p` on. */
  function Reference(text: Text, s: seq<Indel>, p: nat): Text
    requires p <= |text|
  {
    Gather(Emitter(text, s), p, |text|)
  }

  lemma {:induction false} GatherSame(f: nat -> Text, g: nat -> Text, p: nat, n: nat)
    requires p <= n && forall q :: p <= q <= n ==> f(q) == g(q)
    ensures Gather(f, p, n) == Gather(g, p, n)
    decreases n - p
  {
    if p < n {
      GatherSame(f, g, p + 1, n);
    }
  }

  lemma GatherPrefix(f: nat -> Text, g: nat -> Text, p: nat, n: nat, x: Text)
    requires p <= n && f(p) == x + g(p)
    requires p < n ==> Gather(f, p + 1, n) == Gather(g, p + 1, n)
    ensures Gather(f, p, n) == x + Gather(g, p, n)
  {
  }

  lemma GatherJump(f: nat -> Text, p: nat, m: nat, n: nat, x: Text)
    requires p < m <= n && f(p) == x && forall q :: p < q < m ==> f(q) == []
    ensures Gather(f, p, n) == x + Gather(f, m, n)
  {
    GatherSkip(f, p + 1, m, n);
  }

  lemma {:induction false} GatherSkip(f: nat -> Text, p: nat, m: nat, n: nat)
    requires p <= m <= n && forall q :: p <= q < m ==> f(q) == []
    ensures Gather(f, p, n) == Gather(f, m, n)
    decreases m - p
  {
    if p < m {
      GatherSkip(f, p + 1, m, n);
    }
  }

  lemma {:induction false} InsertsAtNone(s: seq<Indel>, p: nat, pure: bool)
    requires forall d :: d in s && d.start == p ==> d.Inserts() != pure
    ensures InsertsAt(s, p, pure) == []
  {
    if s != [] {
      InsertsAtNone(s[1..], p, pure);
    }
  }

  lemma {:induction false} FitsStarts(s: seq<Indel>, pos: nat, n: nat)
    requires Fits(s, pos, n)
    ensures pos <= n
    ensures forall d :: d in s ==> pos <= d.start && d.stop <= n
  {
    if s != [] {
      FitsStarts(s[1..], s[0].stop, n);
    }
  }

  lemma {:induction false} DeletedIff(s: seq<Indel>, p: nat)
    ensures Deleted(s, p) <==> exists d :: d in s && d.start <= p < d.stop
  {
    if s != [] {
      DeletedIff(s[1..], p);
    }
  }

  lemma EmitPlain(text: Text, s: seq<Indel>, p: nat)
    requires forall d :: d in s ==> p < d.start
    ensures Emit(text, s, p) == if p < |text| then [text[p]] else []
  {
    InsertsAtNone(s, p, true);
    InsertsAtNone(s, p, false);
    DeletedIff(s, p);
  }

  lemma EmitInsideDeletion(text: Text, s: seq<Indel>, p: nat)
    requires s != [] && s[0].start < p < s[0].stop
    requires forall d :: d in s[1..] ==> s[0].stop <= d.start
    ensures Emit(text, s, p) == []
  {
    InsertsAtNone(s, p, true);
    InsertsAtNone(s, p, false);
    assert Deleted(s, p);
  }

  lemma EmitAtDeletion(text: Text, s: seq<Indel>)
    requires s != [] && !s[0].Inserts()
    requires forall d :: d in s[1..] ==> s[0].stop <= d.start
    ensures Emit(text, s, s[0].start) == s[0].insert
  {
    InsertsAtNone(s, s[0].start, true);
    InsertsAtNone(s[1..], s[0].start, false);
    assert Deleted(s, s[0].start);
  }

  lemma EmitPure(text: Text, s: seq<Indel>)
    requires s != [] && s[0].Inserts()
    ensures Emit(text, s, s[0].start) == s[0].insert + Emit(text, s[1..], s[0].start)
  {
    var p := s[0].start;
    var pure, replacing := InsertsAt(s[1..], p, true), InsertsAt(s[1..], p, false);
    assert InsertsAt(s, p, true) == s[0].insert + pure && InsertsAt(s, p, false) == replacing;
    assert Deleted(s, p) <==> Deleted(s[1..], p);
    Associative(s[0].insert, pure, replacing);
    Associative(s[0].insert, pure + replacing, if p < |text| && !Deleted(s, p) then [text[p]] else []);
  }

  lemma EmitDropPast(text: Text, s: seq<Indel>, p: nat)
    requires s != [] && s[0].stop <= p && s[0].start < p
    ensures Emit(text, s, p) == Emit(text, s[1..], p)
  {
  }

  /** An indel that ends before `p` has no say from `p` on. */
  lemma ReferenceDropPast(text: Text, s: seq<Indel>, p: nat)
    requires s != [] && p <= |text| && s[0].stop <= p && s[0].start < p
    ensures Reference(text, s, p) == Reference(text, s[1..], p)
  {
    forall q | p <= q <= |text| ensures Emitter(text, s)(q) == Emitter(text, s[1..])(q) {
      EmitDropPast(text, s, q);
    }
    GatherSame(Emitter(text, s), Emitter(text, s[1..]), p, |text|);
  }

  lemma ReferenceDropPure(text: Text, s: seq<Indel>, p: nat)
    requires s != [] && s[0].start == s[0].stop == p <= |text|
    ensures Reference(text, s, p) == s[0].insert + Reference(text, s[1..], p)
  {
    hide InsertsAt, Deleted;
    assert Emitter(text, s)(p) == s[0].insert + Emitter(text, s[1..])(p) by { EmitPure(text, s); }
    if p < |text| {
      ReferenceDropPast(text, s, p + 1);
    }
    GatherPrefix(Emitter(text, s), Emitter(text, s[1..]), p, |text|, s[0].insert);
  }

  lemma ReferenceDropDeletion(text: Text, s: seq<Indel>)
    requires s != [] && s[0].stop <= |text| && !s[0].Inserts()
    requires forall d :: d in s[1..] ==> s[0].stop <= d.start
    ensures Reference(text, s, s[0].start) == s[0].insert + Reference(text, s[1..], s[0].stop)
  {
    assert Emitter(text, s)(s[0].start) == s[0].insert by { EmitAtDeletion(text, s); }
    forall q | s[0].start < q < s[0].stop ensures Emitter(text, s)(q) == [] {
      EmitInsideDeletion(text, s, q);
    }
    GatherJump(Emitter(text, s), s[0].start, s[0].stop, |text|, s[0].insert);
    ReferenceDropPast(text, s, s[0].stop);
  }

  lemma ReferencePlain(text: Text, s: seq<Indel>, p: nat)
    requires p <= |text| && forall d :: d in s ==> p < d.start
    ensures Reference(text, s, p) == if p == |text| then [] else [text[p]] + Reference(text, s, p + 1)
  {
    assert Emitter(text, s)(p) == if p < |text| then [text[p]] else [] by { EmitPlain(text, s, p); }
    if p < |text| {
      GatherJump(Emitter(text, s), p, p + 1, |text|, [text[p]]);
    }
  }

  lemma SpliceHead(text: Text, pos: nat, s: seq<Indel>)
    requires s != [] && Fits(s, pos, |text|)
    ensures Splice(text, pos, s) == text[pos..s[0].start] + (s[0].insert + Splice(text, s[0].stop, s[1..]))
  {
    Associative(text[pos..s[0].start], s[0].insert, Splice(text, s[0].stop, s[1..]));
  }

  lemma SliceHead(text: Text, pos: nat, stop: nat)
    requires pos < stop <= |text|
    ensures text[pos..stop] == [text[pos]] + text[pos + 1..stop] && text[pos..] == [text[pos]] + text[pos + 1..]
  {
  }

  lemma SpliceAdvance(text: Text, pos: nat, s: seq<Indel>)
    requires pos < |text| && Fits(s, pos, |text|) && (s == [] || pos < s[0].start)
    ensures Fits(s, pos + 1, |text|)
    ensures Splice(text, pos, s) == [text[pos]] + Splice(text, pos + 1, s)
  {
    if s == [] {
      SliceHead(text, pos, |text|);
    } else {
      assert s[0].start <= |text|;
      SliceHead(text, pos, s[0].start);
      SpliceHead(text, pos, s);
      SpliceHead(text, pos + 1, s);
      Associative([text[pos]], text[pos + 1..s[0].start], s[0].insert + Splice(text, s[0].stop, s[1..]));
    }
  }

  lemma ReferenceDropHead(text: Text, s: seq<Indel>)
    requires s != [] && Fits(s, s[0].start, |text|)
    ensures Reference(text, s, s[0].start) == s[0].insert + Reference(text, s[1..], s[0].stop)
  {
    FitsStarts(s[1..], s[0].stop, |text|);
    if s[0].Inserts() {
      ReferenceDropPure(text, s, s[0].start);
    } else {
      ReferenceDropDeletion(text, s);
    }
  }

  /** On separated indels the splice is the reference. */
  lemma {:induction false} SpliceIsReference(text: Text, pos: nat, s: seq<Indel>)
    requires Fits(s, pos, |text|)
    ensures Splice(text, pos, s) == Reference(text, s, pos)
    decreases |s|, |text| - pos
  {
    hide Reference, Splice;
    if s != [] && pos == s[0].start {
      SpliceIsReference(text, s[0].stop, s[1..]);
      ReferenceDropHead(text, s);
      SpliceHead(text, pos, s);
      assert text[pos..s[0].start] == [];
    } else {
      FitsStarts(s, pos, |text|);
      if s != [] { FitsStarts(s[1..], s[0].stop, |text|); }
      ReferencePlain(text, s, pos);
      if pos < |text| {
        SpliceAdvance(text, pos, s);
        SpliceIsReference(text, pos + 1, s);
      } else {
        SpliceNothing(text, s);
      }
    }
  }

  lemma SpliceNothing(text: Text, s: seq<Indel>)
    requires Fits(s, |text|, |text|) && (s == [] || s[0].start != |text|)
    ensures Splice(text, |text|, s) == []
  {
  }

  // Only the classes of the sort key matter to the reference, so a stable sort is invisible to it.

  function InsertionAt(p: nat): Indel {
    RawIndel.Indel([], p, p)
  }

  lemma {:induction false} InsertsAtClass(s: seq<Indel>, p: nat)
    ensures InsertsAt(s, p, true) ==
            InsertsAt(StableSort.Class(s, InsertionAt(p), KeyLeq), p, true)
  {
    if s != [] {
      InsertsAtClass(s[1..], p);
      var rest := StableSort.Class(s[1..], InsertionAt(p), KeyLeq);
      if s[0].start == s[0].stop == p {
        assert StableSort.Class(s, InsertionAt(p), KeyLeq) == [s[0]] + rest;
      } else {
        assert StableSort.Class(s, InsertionAt(p), KeyLeq) == rest;
      }
    }
  }

  /** At most one accepted replacement starts at `p`, so its place in the list is irrelevant. */
  lemma {:induction false} InsertsAtOne(s: seq<Indel>, d: Indel)
    requires d in s && !d.Inserts() && multiset(s)[d] == 1
    requires forall e :: e in s && !e.Inserts() && e.start == d.start ==> e == d
    ensures InsertsAt(s, d.start, false) == d.insert
  {
    assert s == [s[0]] + s[1..];
    if s[0] == d {
      InsertsAtNone(s[1..], d.start, false);
    } else {
      InsertsAtOne(s[1..], d);
    }
  }

  /** Two lists with the same indels that make the same insertions everywhere mean the same. */
  lemma ReferenceSame(text: Text, s: seq<Indel>, t: seq<Indel>)
    requires multiset(s) == multiset(t) && Separated(t) && NoRepeatedDeletion(t)
    requires forall p: nat :: InsertsAt(s, p, true) == InsertsAt(t, p, true)
    ensures Reference(text, s, 0) == Reference(text, t, 0)
  {
    forall d: Indel ensures d in s <==> d in t {
      assert d in multiset(s) <==> d in multiset(t);
    }
    forall p | 0 <= p <= |text| ensures Emitter(text, s)(p) == Emitter(text, t)(p) {
      ReplacementAt(s, t, p);
      DeletedIff(s, p);
      DeletedIff(t, p);
    }
    GatherSame(Emitter(text, s), Emitter(text, t), 0, |text|);
  }

  /** Two lists with the same indels and the same key classes mean the same. */
  lemma ReferenceReorder(text: Text, s: seq<Indel>, t: seq<Indel>)
    requires multiset(s) == multiset(t) && Separated(t)
    requires StableSort.SameClasses(s, t, KeyLeq) && NoRepeatedDeletion(t)
    ensures Reference(text, s, 0) == Reference(text, t, 0)
  {
    forall p: nat ensures InsertsAt(s, p, true) == InsertsAt(t, p, true) {
      InsertsAtClass(s, p);
      InsertsAtClass(t, p);
      assert StableSort.Class(s, InsertionAt(p), KeyLeq) == StableSort.Class(t, InsertionAt(p), KeyLeq);
    }
    ReferenceSame(text, s, t);
  }

  lemma ReplacementAt(s: seq<Indel>, t: seq<Indel>, p: nat)
    requires multiset(s) == multiset(t) && Separated(t) && NoRepeatedDeletion(t)
    requires forall d: Indel :: d in s <==> d in t
    ensures InsertsAt(s, p, false) == InsertsAt(t, p, false)
  {
    if d :| d in t && !d.Inserts() && d.start == p {
      forall e | e in t && !e.Inserts() && e.start == p ensures e == d {
        var i, j :| 0 <= i < |t| && 0 <= j < |t| && t[i] == d && t[j] == e;
        if i < j { SeparatedPairwise(t, i, j); } else if j < i { SeparatedPairwise(t, j, i); }
      }
      InsertsAtOne(s, d);
      InsertsAtOne(t, d);
    } else {
      InsertsAtNone(s, p, false);
      InsertsAtNone(t, p, false);
    }
  }
}

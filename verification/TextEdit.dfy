/**
 `TextEdit` and `TextEditBuilder`: `crates/aether_lsp_utils/src/text_edit.rs`. Building sorts,
 checks and coalesces indels; applying walks them backwards over the text. Each step keeps the
 meaning given in module `Indels`.
 */
module TextEdits {
  import opened Prelude
  import opened Indels
  import opened EditLength
  import opened Unions
  import StableSort

  // ---------------------------------------------------------------- coalescing

  /** `coalesce_indels`: fuse an indel into its successor when they touch. */
  function Coalesce(s: seq<Indel>): seq<Indel>
    decreases |s|
  {
    if |s| < 2 then s
    else if s[0].stop == s[1].start then Coalesce([Fuse(s[0], s[1])] + s[2..])
    else [s[0]] + Coalesce(s[1..])
  }

  function Fuse(a: Indel, b: Indel): Indel
    requires a.stop == b.start
  {
    RawIndel.Indel(a.insert + b.insert, a.start, b.stop)
  }

  /** Coalescing neither adds nor removes an overlap, and removes every contact. */
  lemma {:induction false} CoalesceSeparates(s: seq<Indel>)
    ensures Separated(s) <==> StrictlySeparated(Coalesce(s))
    ensures s != [] ==> Coalesce(s) != [] && Coalesce(s)[0].start == s[0].start
    decreases |s|
  {
    if |s| < 2 {
    } else if s[0].stop == s[1].start {
      var t := [Fuse(s[0], s[1])] + s[2..];
      assert t[1..] == s[2..] == s[1..][1..];
      CoalesceSeparates(t);
    } else {
      CoalesceSeparates(s[1..]);
      assert Coalesce(s)[1..] == Coalesce(s[1..]);
    }
  }

  lemma {:induction false} CoalesceKeepsMeaning(text: Text, pos: nat, s: seq<Indel>)
    requires Fits(s, pos, |text|)
    ensures Fits(Coalesce(s), pos, |text|)
    ensures Splice(text, pos, Coalesce(s)) == Splice(text, pos, s)
    decreases |s|
  {
    if |s| < 2 {
    } else if s[0].stop == s[1].start {
      var t := [Fuse(s[0], s[1])] + s[2..];
      assert t[1..] == s[2..] == s[1..][1..];
      FuseKeepsMeaning(text, pos, s);
      CoalesceKeepsMeaning(text, pos, t);
    } else {
      CoalesceKeepsMeaning(text, s[0].stop, s[1..]);
      assert Coalesce(s)[1..] == Coalesce(s[1..]);
    }
  }

  lemma Regroup(a: Text, b: Text, c: Text, d: Text)
    ensures a + ((b + c) + d) == a + (b + (c + d))
  {
    Associative(b, c, d);
  }

  lemma FuseFits(pos: nat, s: seq<Indel>, n: nat)
    requires |s| >= 2 && s[0].stop == s[1].start && Fits(s, pos, n)
    ensures var t := [Fuse(s[0], s[1])] + s[2..]; Fits(t, pos, n) && t[1..] == s[1..][1..] == s[2..]
    ensures Fits(s[1..], s[0].stop, n) && Fits(s[2..], s[1].stop, n)
  {
    assert ([Fuse(s[0], s[1])] + s[2..])[1..] == s[1..][1..] == s[2..];
  }

  lemma FuseKeepsMeaning(text: Text, pos: nat, s: seq<Indel>)
    requires |s| >= 2 && s[0].stop == s[1].start && Fits(s, pos, |text|)
    ensures Fits([Fuse(s[0], s[1])] + s[2..], pos, |text|)
    ensures Splice(text, pos, [Fuse(s[0], s[1])] + s[2..]) == Splice(text, pos, s)
  {
    hide Splice, Fits;
    FuseFits(pos, s, |text|);
    var t := [Fuse(s[0], s[1])] + s[2..];
    var rest := Splice(text, s[1].stop, s[2..]);
    SpliceHead(text, pos, t);
    SpliceHead(text, pos, s);
    SpliceHead(text, s[0].stop, s[1..]);
    assert text[s[0].stop..s[1].start] == [] && [] + (s[1].insert + rest) == s[1].insert + rest;
    Regroup(text[pos..s[0].start], s[0].insert, s[1].insert, rest);
  }

  // ---------------------------------------------------------------- building

  /** The indels of `finish`, for indels pushed in the order `pushed`. */
  function Finished(pushed: seq<Indel>): seq<Indel> {
    Coalesce(SortIndels(pushed))
  }

  /** The assertion inside `finish`. */
  predicate Accepted(pushed: seq<Indel>) {
    CheckDisjoint(SortIndels(pushed))
  }

  /** Two pushed indels get along. */
  predicate Disjoint(x: Indel, y: Indel) {
    x == y || x.stop <= y.start || y.stop <= x.start
  }

  ghost predicate AllDisjoint(s: seq<Indel>) {
    forall x, y :: x in s && y in s ==> Disjoint(x, y)
  }

  lemma {:induction false} CheckedFirst(s: seq<Indel>, j: nat)
    requires CheckDisjoint(s) && StableSort.Sorted(s, KeyLeq) && j < |s|
    ensures s[0] == s[j] || s[0].stop <= s[j].start
  {
    if j > 0 {
      assert StableSort.Sorted(s[1..], KeyLeq) by {
        forall a, b | 0 <= a < b < |s[1..]| ensures KeyLeq(s[1..][a], s[1..][b]) {
          assert KeyLeq(s[a + 1], s[b + 1]);
        }
      }
      CheckedFirst(s[1..], j - 1);
      assert KeyLeq(s[0], s[1]) && (j > 1 ==> KeyLeq(s[1], s[j]));
    }
  }

  lemma {:induction false} CheckedPairwise(s: seq<Indel>, i: nat, j: nat)
    requires CheckDisjoint(s) && StableSort.Sorted(s, KeyLeq) && i <= j < |s|
    ensures s[i] == s[j] || s[i].stop <= s[j].start
  {
    if i == 0 {
      CheckedFirst(s, j);
    } else {
      assert StableSort.Sorted(s[1..], KeyLeq) by {
        forall a, b | 0 <= a < b < |s[1..]| ensures KeyLeq(s[1..][a], s[1..][b]) {
          assert KeyLeq(s[a + 1], s[b + 1]);
        }
      }
      CheckedPairwise(s[1..], i - 1, j - 1);
    }
  }

  lemma {:induction false} PairwiseChecks(s: seq<Indel>)
    requires AllDisjoint(s) && StableSort.Sorted(s, KeyLeq)
    ensures CheckDisjoint(s)
  {
    if |s| >= 2 {
      forall a, b | 0 <= a < b < |s[1..]| ensures KeyLeq(s[1..][a], s[1..][b]) {
        assert KeyLeq(s[a + 1], s[b + 1]);
      }
      PairwiseChecks(s[1..]);
      assert Disjoint(s[0], s[1]) && KeyLeq(s[0], s[1]);
    }
  }

  /** What was pushed is accepted exactly if any two indels are disjoint or equal, in whatever order they came. */
  lemma AcceptedIff(pushed: seq<Indel>)
    ensures Accepted(pushed) <==> AllDisjoint(pushed)
  {
    hide CheckDisjoint, KeyLeq;
    var s := SortIndels(pushed);
    KeyOrder();
    StableSort.SortIsStable(pushed, KeyLeq);
    assert forall d: Indel :: d in s <==> d in pushed by {
      forall d: Indel ensures d in s <==> d in pushed { assert d in multiset(s) <==> d in multiset(pushed); }
    }
    if Accepted(pushed) {
      forall x, y | x in pushed && y in pushed ensures Disjoint(x, y) {
        var i, j :| 0 <= i < |s| && 0 <= j < |s| && s[i] == x && s[j] == y;
        if i <= j { CheckedPairwise(s, i, j); } else { CheckedPairwise(s, j, i); }
      }
    }
    if AllDisjoint(pushed) {
      PairwiseChecks(s);
    }
  }

  lemma RepeatsOfMultiset(s: seq<Indel>, t: seq<Indel>)
    requires multiset(s) == multiset(t)
    ensures NoRepeatedDeletion(s) <==> NoRepeatedDeletion(t)
    ensures forall n: nat :: InRange(s, n) <==> InRange(t, n)
  {
    forall d: Indel ensures d in s <==> d in t {
      assert d in multiset(s) <==> d in multiset(t);
    }
    forall n: nat ensures InRange(s, n) <==> InRange(t, n) {
      if InRange(s, n) {
        forall i | 0 <= i < |t| ensures t[i].stop <= n { assert t[i] in s; }
      }
      if InRange(t, n) {
        forall i | 0 <= i < |s| ensures s[i].stop <= n { assert s[i] in t; }
      }
    }
  }

  /**
   An accepted list finishes into strictly separated indels exactly when no non-empty deletion
   was pushed twice. The assertion in `finish` alone does not give this: see `RepeatedDeletion`.
   */
  lemma FinishedSeparated(pushed: seq<Indel>)
    requires Accepted(pushed)
    ensures StrictlySeparated(Finished(pushed)) <==> NoRepeatedDeletion(pushed)
  {
    CheckedSeparated(SortIndels(pushed));
    CoalesceSeparates(SortIndels(pushed));
    RepeatsOfMultiset(pushed, SortIndels(pushed));
  }

  /** Sorting, checking and coalescing keep the meaning of the indels as they were pushed. */
  lemma FinishedMeaning(text: Text, pushed: seq<Indel>)
    requires Accepted(pushed) && NoRepeatedDeletion(pushed) && InRange(pushed, |text|)
    ensures Fits(Finished(pushed), 0, |text|)
    ensures Splice(text, 0, Finished(pushed)) == Reference(text, pushed, 0)
  {
    var sorted := SortIndels(pushed);
    RepeatsOfMultiset(pushed, sorted);
    CheckedSeparated(sorted);
    FitsSeparated(sorted, 0, |text|);
    CoalesceKeepsMeaning(text, 0, sorted);
    SpliceIsReference(text, 0, sorted);
    KeyOrder();
    StableSort.SortIsStable(pushed, KeyLeq);
    assert StableSort.SameClasses(pushed, sorted, KeyLeq);
    ReferenceReorder(text, pushed, sorted);
  }

  // ---------------------------------------------------------------- applying

  /** `Indel::apply`; `None` where `replace_range` panics. */
  function ApplyOne(d: Indel, text: Text): Option<Text> {
    if d.stop <= |text| then Some(text[..d.start] + d.insert + text[d.stop..]) else None
  }

  /** The backward loop of `TextEdit::apply`. */
  function ApplyBackwards(s: seq<Indel>, text: Text): Option<Text>
    decreases |s|
  {
    if s == [] then Some(text)
    else
      match ApplyOne(s[|s| - 1], text)
      case None => None
      case Some(t) => ApplyBackwards(s[..|s| - 1], t)
  }

  lemma FitsLast(pos: nat, s: seq<Indel>, d: Indel, n: nat)
    requires Fits(s + [d], pos, n)
    ensures pos <= d.start && d.stop <= n && Fits(s, pos, d.start)
    decreases |s|
  {
    if s != [] {
      assert (s + [d])[1..] == s[1..] + [d];
      FitsLast(s[0].stop, s[1..], d, n);
    }
  }

  lemma FitsWider(s: seq<Indel>, pos: nat, m: nat, n: nat)
    requires Fits(s, pos, m) && m <= n
    ensures Fits(s, pos, n)
    decreases |s|
  {
  }

  /** Splicing in all but the last indel after the last one has been applied in place. */
  lemma {:induction false} SpliceLast(text: Text, pos: nat, s: seq<Indel>, d: Indel)
    requires Fits(s + [d], pos, |text|)
    ensures Fits(s, pos, d.start) && d.stop <= |text|
    ensures var t := text[..d.start] + d.insert + text[d.stop..];
            Fits(s, pos, |t|) && Splice(t, pos, s) == Splice(text, pos, s + [d])
    decreases |s|
  {
    FitsLast(pos, s, d, |text|);
    var t := text[..d.start] + d.insert + text[d.stop..];
    FitsWider(s, pos, d.start, |t|);
    if s == [] {
      assert Splice(text, pos, s + [d]) == text[pos..d.start] + d.insert + text[d.stop..];
    } else {
      assert (s + [d])[1..] == s[1..] + [d];
      SpliceLast(text, s[0].stop, s[1..], d);
      assert s[0].stop <= d.start by { FitsStarts(s, pos, d.start); assert s[0] in s; }
      assert t[..d.start] == text[..d.start];
      SliceOfPrefix(t, pos, s[0].start, d.start);
      SliceOfPrefix(text, pos, s[0].start, d.start);
    }
  }

  /** In-place application from the back is the left-to-right splice. */
  lemma {:induction false} BackwardsIsSplice(text: Text, s: seq<Indel>)
    requires Fits(s, 0, |text|)
    ensures ApplyBackwards(s, text) == Some(Splice(text, 0, s))
    decreases |s|
  {
    if s != [] {
      var d := s[|s| - 1];
      assert s == s[..|s| - 1] + [d];
      SpliceLast(text, 0, s[..|s| - 1], d);
      BackwardsIsSplice(text[..d.start] + d.insert + text[d.stop..], s[..|s| - 1]);
    }
  }

  lemma {:induction false} GrowthCoalesce(s: seq<Indel>)
    ensures Growth(Coalesce(s)) == Growth(s)
    decreases |s|
  {
    if |s| < 2 {
    } else if s[0].stop == s[1].start {
      var d := Fuse(s[0], s[1]);
      GrowthCoalesce([d] + s[2..]);
      GrowthCons(d, s[2..]);
      assert s[1..][1..] == s[2..];
    } else {
      GrowthCoalesce(s[1..]);
      GrowthCons(s[0], Coalesce(s[1..]));
    }
  }

  /** Whatever the indels, applying them changes the length by their growth, or panics. */
  lemma {:induction false} AppliedLength(s: seq<Indel>, text: Text)
    requires ApplyBackwards(s, text).Some?
    ensures |ApplyBackwards(s, text).value| == |text| + Growth(s)
    decreases |s|
  {
    if s != [] {
      var d := s[|s| - 1];
      AppliedLength(s[..|s| - 1], ApplyOne(d, text).value);
      GrowthSnoc(s[..|s| - 1], d);
      assert s == s[..|s| - 1] + [d];
    }
  }

  /**
   The end-to-end law: built from any push order and applied in place, indels that are equal or
   disjoint are accepted, and give the reference meaning exactly when no non-empty deletion was pushed
   twice.
   */
  lemma BuildAndApply(text: Text, pushed: seq<Indel>)
    requires AllDisjoint(pushed) && InRange(pushed, |text|)
    ensures Accepted(pushed)
    ensures ApplyBackwards(Finished(pushed), text) == Some(Reference(text, pushed, 0)) <==> NoRepeatedDeletion(pushed)
  {
    AcceptedIff(pushed);
    hide ApplyBackwards, Reference, Coalesce, CheckDisjoint;
    if NoRepeatedDeletion(pushed) {
      FinishedMeaning(text, pushed);
      BackwardsIsSplice(text, Finished(pushed));
    } else if ApplyBackwards(Finished(pushed), text).Some? {
      var d :| d in pushed && !d.Inserts() && multiset(pushed)[d] != 1;
      assert d in multiset(pushed);
      AppliedLength(Finished(pushed), text);
      GrowthCoalesce(SortIndels(pushed));
      GrowthSort(pushed);
      RepeatedLength(text, pushed, d);
    }
  }

  /** A deletion pushed twice passes every check, and then deletes two stretches of text. */
  lemma RepeatedDeletion(d: Indel, text: Text)
    requires d == RawIndel.Indel([], 1, 2) && |text| == 4
    ensures Accepted([d, d]) && !StrictlySeparated(Finished([d, d]))
    ensures ApplyBackwards(Finished([d, d]), text) == Some([text[0], text[3]])
    ensures Reference(text, [d, d], 0) == [text[0], text[2], text[3]]
  {
    KeyOrder();
    StableSort.SortOfSorted([d, d], KeyLeq);
    assert [d, d][1..] == [d] && Coalesce([d]) == [d];
    var once := text[..1] + [] + text[2..];
    assert [d, d][..1] == [d] && [d][..0] == [];
    assert ApplyOne(d, text) == Some(once);
    assert once[..1] + [] + once[2..] == [text[0], text[3]];
    assert ApplyBackwards([d], once) == Some([text[0], text[3]]);
    RepeatedReference(d, text);
  }

  lemma RepeatedEmit(d: Indel, text: Text, p: nat)
    requires d == RawIndel.Indel([], 1, 2) && |text| == 4
    ensures Emit(text, [d, d], p) == if p < 4 && p != 1 then [text[p]] else []
  {
    assert [d, d][1..] == [d] && [d][1..] == [];
    InsertsAtEmpty([d, d], p, true);
    InsertsAtEmpty([d, d], p, false);
    assert Deleted([d], p) <==> p == 1;
  }

  lemma RepeatedReference(d: Indel, text: Text)
    requires d == RawIndel.Indel([], 1, 2) && |text| == 4
    ensures Reference(text, [d, d], 0) == [text[0], text[2], text[3]]
  {
    hide Emit;
    var f := Emitter(text, [d, d]);
    forall p: nat ensures f(p) == if p < 4 && p != 1 then [text[p]] else [] {
      RepeatedEmit(d, text, p);
    }
    assert Gather(f, 3, 4) == [text[3]] + Gather(f, 4, 4) == [text[3]];
    assert Gather(f, 2, 4) == [text[2]] + Gather(f, 3, 4) == [text[2], text[3]];
    assert Gather(f, 1, 4) == [] + Gather(f, 2, 4) == [text[2], text[3]];
  }

  lemma {:induction false} InsertsAtEmpty(s: seq<Indel>, p: nat, pure: bool)
    requires forall d :: d in s ==> d.insert == []
    ensures InsertsAt(s, p, pure) == []
  {
    if s != [] {
      InsertsAtEmpty(s[1..], p, pure);
    }
  }

  // ---------------------------------------------------------------- the edit

  lemma ApplySingle(d: Indel, text: Text)
    ensures ApplyBackwards([d], text) == ApplyOne(d, text)
  {
    assert [d][..0] == [];
  }

  /** `TextEdit`. The invariant its field documents holds only as far as `FinishedSeparated` says. */
  class TextEdit {
    var indels: seq<Indel>

    constructor (indels: seq<Indel>)
      ensures this.indels == indels
    {
      this.indels := indels;
    }

    /**
     The running length of `apply`; `None` if it underflows, which is exactly if some first indels
     delete more than the text and what they insert.
     */
    method TotalLen(text: Text) returns (r: Option<int>)
      ensures r == if ShrinksBelow(indels, |text|) then None else Some(|text| + Growth(indels))
    {
      var totalLen: nat := |text|;
      for i := 0 to |indels|
        invariant totalLen == |text| + Shift(indels, i)
        invariant forall k :: 0 <= k <= i ==> |text| + Shift(indels, k) >= 0
      {
        totalLen := totalLen + |indels[i].insert|;
        if totalLen < Len(indels[i]) {
          assert |text| + Shift(indels, i + 1) < 0;
          return None;
        }
        totalLen := totalLen - Len(indels[i]);
      }
      ShiftIsGrowth(indels, |indels|);
      assert indels[..|indels|] == indels;
      return Some(totalLen);
    }

    /**
     `TextEdit::apply`. `None` is a panic: the running length underflows, or a range is out of bounds
     when its turn comes. The final length assertion never fails. On separated indels in range there is
     no panic, and the result is the splice.
     */
    method Apply(text: Text) returns (r: Option<Text>)
      ensures r == if |indels| > 1 && ShrinksBelow(indels, |text|) then None else ApplyBackwards(indels, text)
      ensures Fits(indels, 0, |text|) ==> r == Some(Splice(text, 0, indels))
    {
      if Fits(indels, 0, |text|) {
        BackwardsIsSplice(text, indels);
        FitsNeverShrinks(indels, |text|);
      }
      hide Fits, Splice, ShrinksBelow;
      if |indels| == 0 {
        return Some(text);
      } else if |indels| == 1 {
        ApplySingle(indels[0], text);
        assert indels == [indels[0]];
        return ApplyOne(indels[0], text);
      }
      var totalLen := TotalLen(text);
      if totalLen == None {
        return None;
      }
      var cur := text;
      var i := |indels|;
      assert indels[..i] == indels;
      while i > 0
        invariant 0 <= i <= |indels|
        invariant ApplyBackwards(indels[..i], cur) == ApplyBackwards(indels, text)
      {
        i := i - 1;
        assert indels[..i + 1][..i] == indels[..i];
        var next := ApplyOne(indels[i], cur);
        if next == None {
          return None;
        }
        cur := next.value;
      }
      AppliedLength(indels, text);
      if |cur| != totalLen.value {
        return None;
      }
      return Some(cur);
    }

    /**
     `TextEdit::apply_to_offset`. `Err` is the panic where `res -= len` underflows. It happens exactly
     when the indels passed so far delete more than the offset and what they insert, and so never on
     separated indels.
     */
    method ApplyToOffset(offset: nat) returns (r: Result<Option<int>>)
      ensures r == if Underflows(indels, offset) then Err else Ok(MapOffset(indels, offset))
      ensures Separated(indels) ==> r == Ok(MapOffset(indels, offset))
    {
      hide MapOffset, Passed, Separated;
      if Separated(indels) { NoUnderflow(indels, offset); }
      var res: nat := offset;
      for i := 0 to |indels|
        invariant i <= Passed(indels, offset)
        invariant res == offset + Shift(indels, i)
        invariant forall k :: 0 <= k <= i ==> offset + Shift(indels, k) >= 0
      {
        PassedAt(indels, offset, i);
        if indels[i].start >= offset {
          MapOffsetStops(indels, offset, i);
          return Ok(Some(res));
        }
        if offset < indels[i].stop {
          MapOffsetStops(indels, offset, i);
          return Ok(None);
        }
        res := res + |indels[i].insert|;
        if res < Len(indels[i]) {
          assert offset + Shift(indels, i + 1) < 0;
          return Err;
        }
        res := res - Len(indels[i]);
      }
      MapOffsetStops(indels, offset, |indels|);
      return Ok(Some(res));
    }

    /**
     `TextEdit::union`; on failure the receiver is unchanged. Separated edits unite exactly if their
     indels are compatible, and then the receiver is separated and holds exactly the indels of both:
     each non-empty deletion once, even a shared one, and every insertion of either side.
     */
    method Union(other: seq<Indel>) returns (ok: bool)
      modifies this
      ensures indels == if ok then DropRepeats(Merge(old(indels), other)) else old(indels)
      ensures Separated(old(indels)) && Separated(other) ==> (ok <==> AllCompatible(old(indels), other))
      ensures ok ==> Separated(indels) && forall d :: d in indels <==> d in old(indels) || d in other
      ensures ok ==> forall d :: d in indels && !d.Inserts() ==> multiset(indels)[d] == 1
      ensures ok ==> forall d: Indel :: d.Inserts() ==>
                multiset(indels)[d] == multiset(old(indels))[d] + multiset(other)[d]
    {
      hide Separated, AllCompatible;
      if Separated(indels) && Separated(other) { UnionSucceeds(indels, other); }
      var merged := Merge(indels, other);
      ok := CheckDisjoint(merged);
      if ok {
        UnionResult(indels, other);
        indels := DropRepeats(merged);
      }
    }
  }

  /** `TextEditBuilder`, with the history of what was pushed. */
  class TextEditBuilder {
    var indels: seq<Indel>
    ghost var pushed: seq<Indel>

    ghost predicate Valid()
      reads this
    {
      && |indels| == |pushed|
      && SortIndels(indels) == SortIndels(pushed)
    }

    constructor ()
      ensures Valid() && pushed == []
    {
      indels := [];
      pushed := [];
    }

    /** `TextEditBuilder::indel`; `false` is the failed assertion. */
    method Push(indel: Indel) returns (ok: bool)
      requires Valid()
      modifies this
      ensures Valid() && pushed == old(pushed) + [indel]
      ensures ok <==> |pushed| > 16 || AllDisjoint(pushed)
    {
      AcceptedIff(pushed + [indel]);
      KeyOrder();
      StableSort.SortAgain(indels, pushed, [indel], KeyLeq);
      indels := indels + [indel];
      pushed := pushed + [indel];
      ok := true;
      if |indels| <= 16 {
        ghost var before := indels;
        indels := SortIndels(indels);
        StableSort.SortIsStable(before, KeyLeq);
        StableSort.SortOfSorted(indels, KeyLeq);
        ok := CheckDisjoint(indels);
      }
    }

    /** `TextEditBuilder::finish`; `None` is the failed assertion. */
    method Finish() returns (edit: Option<seq<Indel>>)
      requires Valid()
      ensures edit.Some? <==> AllDisjoint(pushed)
      ensures edit.Some? ==> edit.value == Finished(pushed)
    {
      AcceptedIff(pushed);
      var sorted := SortIndels(indels);
      if !CheckDisjoint(sorted) {
        return None;
      }
      return Some(Coalesce(sorted));
    }
  }

  // ---------------------------------------------------------------- offsets

  function MapOffset(s: seq<Indel>, offset: nat): Option<int> {
    if s == [] || s[0].start >= offset then Some(offset)
    else if offset < s[0].stop then None
    else
      match MapOffset(s[1..], offset)
      case None => None
      case Some(v) => Some(v + |s[0].insert| - (s[0].stop - s[0].start))
  }

  /** How many indels the loop of `apply_to_offset` goes past before it stops. */
  function Passed(s: seq<Indel>, offset: nat): (k: nat)
    ensures k <= |s|
  {
    if s == [] || s[0].start >= offset || offset < s[0].stop then 0 else 1 + Passed(s[1..], offset)
  }

  lemma {:induction false} PassedAt(s: seq<Indel>, offset: nat, i: nat)
    requires i <= Passed(s, offset) && i < |s|
    ensures i < Passed(s, offset) <==> s[i].start < offset && s[i].stop <= offset
  {
    if i > 0 {
      PassedAt(s[1..], offset, i - 1);
    }
  }

  /** Where the loop stops, the offset is inside a deletion, or the shift of the passed indels is the answer. */
  lemma {:induction false} MapOffsetStops(s: seq<Indel>, offset: nat, i: nat)
    requires i == Passed(s, offset)
    ensures MapOffset(s, offset) ==
            if i < |s| && s[i].start < offset then None else Some(offset + Shift(s, i))
  {
    if i > 0 {
      MapOffsetStops(s[1..], offset, i - 1);
      ShiftTail(s, i);
    }
  }

  /** On the way, the running offset would fall below zero. */
  ghost predicate Underflows(s: seq<Indel>, offset: nat) {
    exists k :: 0 <= k <= Passed(s, offset) && offset + Shift(s, k) < 0
  }

  lemma {:induction false} PassedBefore(s: seq<Indel>, offset: nat, k: nat)
    requires Separated(s) && k <= Passed(s, offset)
    ensures Edge(s, k) <= offset
  {
    if k > 0 { PassedAt(s, offset, k - 1); }
  }

  lemma NoUnderflow(s: seq<Indel>, offset: nat)
    requires Separated(s)
    ensures !Underflows(s, offset)
  {
    forall k | 0 <= k <= Passed(s, offset) ensures offset + Shift(s, k) >= 0 {
      PassedBefore(s, offset, k);
      ShiftAbove(s, k);
    }
  }

  /** A deletion that `finish` let through twice can make it panic. */
  lemma RepeatedUnderflow(d: Indel)
    requires d == RawIndel.Indel([], 0, 2)
    ensures Accepted([d, d]) && Finished([d, d]) == [d, d] && Underflows([d, d], 2)
  {
    KeyOrder();
    StableSort.SortOfSorted([d, d], KeyLeq);
    assert [d, d][1..] == [d] && [d][1..] == [];
    assert Passed([d], 2) == 1 && Passed([d, d], 2) == 2;
    assert Shift([d, d], 0) == 0 && Shift([d, d], 1) == -2;
    assert Shift([d, d], 2) == -4;
    assert Coalesce([d]) == [d] && [d] + [d] == [d, d];
  }

  /** The indels that `apply_to_offset` passes: those that start before `offset`. */
  function Before(s: seq<Indel>, offset: nat): (k: nat)
    ensures k <= |s|
    ensures forall i :: 0 <= i < k ==> s[i].start < offset
    ensures k < |s| ==> s[k].start >= offset
  {
    if s == [] || s[0].start >= offset then 0 else 1 + Before(s[1..], offset)
  }

  /** An offset has no image exactly when it lies strictly inside a deletion. */
  lemma {:induction false} OffsetLost(s: seq<Indel>, offset: nat)
    requires Separated(s)
    ensures MapOffset(s, offset) == None <==>
            exists i :: 0 <= i < |s| && s[i].start < offset < s[i].stop
  {
    if s != [] {
      OffsetLost(s[1..], offset);
      if i :| 0 <= i < |s[1..]| && s[1..][i].start < offset < s[1..][i].stop {
        assert s[i + 1].start < offset < s[i + 1].stop;
        SeparatedPairwise(s, 0, i + 1);
      }
      if i :| 0 <= i < |s| && s[i].start < offset < s[i].stop {
        if i > 0 {
          SeparatedPairwise(s, 0, i);
          assert s[1..][i - 1] == s[i];
        }
      }
    }
  }

  /**
   Where an offset has an image, it splits the edited text into the passed indels applied to the
   text before the offset, and the remaining indels applied to the text after it.
   */
  lemma {:induction false} OffsetSplits(text: Text, pos: nat, s: seq<Indel>, offset: nat)
    requires Fits(s, pos, |text|) && pos <= offset <= |text|
    requires MapOffset(s, offset).Some?
    ensures var k := Before(s, offset);
            && Fits(s[..k], pos, offset) && Fits(s[k..], offset, |text|)
            && Splice(text, pos, s) == Splice(text[..offset], pos, s[..k]) + Splice(text, offset, s[k..])
            && MapOffset(s, offset) == Some(pos + |Splice(text[..offset], pos, s[..k])|)
    decreases |s|
  {
    var k := Before(s, offset);
    if k == 0 {
      assert s[..0] == [] && s[0..] == s;
      OffsetHere(text, pos, s, offset);
    } else {
      assert MapOffset(s[1..], offset).Some? && Before(s[1..], offset) == k - 1;
      OffsetSplits(text, s[0].stop, s[1..], offset);
      OffsetPast(text, pos, s, offset, k);
    }
  }

  /** The step of `OffsetSplits` over an indel that is passed. */
  lemma OffsetPast(text: Text, pos: nat, s: seq<Indel>, offset: nat, k: nat)
    requires Fits(s, pos, |text|) && 0 < k <= |s| && s[0].stop <= offset <= |text|
    requires Fits(s[1..][..k - 1], s[0].stop, offset) && Fits(s[k..], offset, |text|)
    requires Splice(text, s[0].stop, s[1..])
             == Splice(text[..offset], s[0].stop, s[1..][..k - 1]) + Splice(text, offset, s[1..][k - 1..])
    ensures Fits(s[..k], pos, offset)
    ensures Splice(text, pos, s) == Splice(text[..offset], pos, s[..k]) + Splice(text, offset, s[k..])
    ensures |Splice(text[..offset], pos, s[..k])|
            == s[0].start - pos + |s[0].insert| + |Splice(text[..offset], s[0].stop, s[1..][..k - 1])|
  {
    assert s[..k][1..] == s[1..][..k - 1] && s[k..] == s[1..][k - 1..];
    assert text[..offset][pos..s[0].start] == text[pos..s[0].start];
    var head := text[pos..s[0].start] + s[0].insert;
    var left := Splice(text[..offset], s[0].stop, s[1..][..k - 1]);
    assert Splice(text[..offset], pos, s[..k]) == head + left;
    assert Splice(text, pos, s) == head + Splice(text, s[0].stop, s[1..]);
    Associative(head, left, Splice(text, offset, s[k..]));
  }

  lemma OffsetHere(text: Text, pos: nat, s: seq<Indel>, offset: nat)
    requires Fits(s, pos, |text|) && pos <= offset <= |text|
    requires s != [] ==> offset <= s[0].start
    ensures Fits(s, offset, |text|)
    ensures Splice(text, pos, s) == text[..offset][pos..] + Splice(text, offset, s)
  {
    SliceAt(text, pos, offset, if s == [] then |text| else s[0].start);
    if s != [] {
      var rest := s[0].insert + Splice(text, s[0].stop, s[1..]);
      SpliceHead(text, pos, s);
      SpliceHead(text, offset, s);
      Associative(text[..offset][pos..], text[offset..s[0].start], rest);
    }
  }

  lemma SliceAt(text: Text, pos: nat, mid: nat, stop: nat)
    requires pos <= mid <= stop <= |text|
    ensures text[pos..stop] == text[..mid][pos..] + text[mid..stop]
    ensures stop == |text| ==> text[pos..stop] == text[pos..] && text[mid..stop] == text[mid..]
  {
  }

  lemma {:induction false} OffsetAbove(s: seq<Indel>, pos: nat, offset: nat)
    requires Separated(s) && (s != [] ==> pos <= s[0].start) && pos <= offset
    requires MapOffset(s, offset).Some?
    ensures pos <= MapOffset(s, offset).value
    decreases |s|
  {
    if s != [] && s[0].start < offset {
      OffsetAbove(s[1..], s[0].stop, offset);
    }
  }

  /** The offset map is monotone. */
  lemma {:induction false} OffsetMonotone(s: seq<Indel>, a: nat, b: nat)
    requires Separated(s) && a <= b
    requires MapOffset(s, a).Some? && MapOffset(s, b).Some?
    ensures 0 <= MapOffset(s, a).value <= MapOffset(s, b).value
    decreases |s|
  {
    OffsetAbove(s, 0, a);
    if s != [] && s[0].start < b {
      if s[0].start < a {
        OffsetMonotone(s[1..], a, b);
      } else {
        OffsetAbove(s[1..], s[0].stop, b);
      }
    }
  }

  // ---------------------------------------------------------------- union

  /** Applied in place, a union does what the indels of the receiver and the new ones of the argument mean together. */
  lemma UnionThenApply(text: Text, a: seq<Indel>, b: seq<Indel>)
    requires Separated(a) && Separated(b) && AllCompatible(a, b)
    requires InRange(a, |text|) && InRange(b, |text|)
    ensures ApplyBackwards(DropRepeats(Merge(a, b)), text) == Some(Reference(text, a + NewIndels(a, b), 0))
  {
    hide *;
    UnionSucceeds(a, b);
    UnionMeaning(text, a, b);
    BackwardsIsSplice(text, DropRepeats(Merge(a, b)));
  }
}

/**
 From a chunk list to a text edit: `crates/aether_lsp_utils/src/diff.rs`. Of the diff algorithm
 that produces the chunks only the two concatenation laws are used, `Left` and `Right`.
 */
module Diff {
  import opened Prelude
  import opened Indels
  import opened TextEdits
  import StableSort

  datatype Chunk = Equal(text: Text) | Delete(text: Text) | Insert(text: Text)

  /** The old text: the equal and the deleted chunks. */
  function Left(chunks: seq<Chunk>): Text {
    if chunks == [] then []
    else (if chunks[0].Insert? then [] else chunks[0].text) + Left(chunks[1..])
  }

  /** The new text: the equal and the inserted chunks. */
  function Right(chunks: seq<Chunk>): Text {
    if chunks == [] then []
    else (if chunks[0].Delete? then [] else chunks[0].text) + Right(chunks[1..])
  }

  lemma Regroup(a: Text, b: Text, c: Text, d: Text)
    ensures a + (b + (c + d)) == (a + (b + c)) + d
  {
    Associative(b, c, d);
    Associative(a, b + c, d);
  }

  lemma LastSplice(text: Text, pos: nat, d: Indel)
    requires pos <= d.start <= d.stop <= |text|
    ensures Fits([d], pos, d.stop)
    ensures Splice(text[..d.stop], pos, [d]) == text[..d.start][pos..] + d.insert
  {
    assert text[..d.stop][pos..d.start] == text[..d.start][pos..];
    assert text[..d.stop][d.stop..] == [];
  }

  /** Appending an indel after all others extends the splice at its end. */
  lemma {:induction false} SpliceExtend(text: Text, pos: nat, s: seq<Indel>, d: Indel)
    requires Fits(s, pos, d.start) && d.start <= d.stop <= |text|
    ensures Fits(s + [d], pos, d.stop)
    ensures Splice(text[..d.stop], pos, s + [d]) == Splice(text[..d.start], pos, s) + d.insert
    decreases |s|
  {
    if s == [] {
      LastSplice(text, pos, d);
    } else {
      hide Splice;
      assert (s + [d])[1..] == s[1..] + [d];
      SpliceExtend(text, s[0].stop, s[1..], d);
      FitsStarts(s[1..], s[0].stop, d.start);
      SliceOfPrefix(text, pos, s[0].start, d.start);
      SliceOfPrefix(text, pos, s[0].start, d.stop);
      SpliceHead(text[..d.stop], pos, s + [d]);
      SpliceHead(text[..d.start], pos, s);
      Regroup(text[pos..s[0].start], s[0].insert, Splice(text[..d.start], s[0].stop, s[1..]), d.insert);
    }
  }

  /** Growing the text after all indels copies the new part. */
  lemma {:induction false} SpliceGrow(text: Text, pos: nat, s: seq<Indel>, m: nat, n: nat)
    requires Fits(s, pos, m) && m <= n <= |text|
    ensures Fits(s, pos, n)
    ensures Splice(text[..n], pos, s) == Splice(text[..m], pos, s) + text[m..n]
    decreases |s|
  {
    if s == [] {
      assert text[..n][pos..] == text[..m][pos..] + text[m..n];
    } else {
      hide Splice;
      SpliceGrow(text, s[0].stop, s[1..], m, n);
      FitsStarts(s[1..], s[0].stop, m);
      SliceOfPrefix(text, pos, s[0].start, m);
      SliceOfPrefix(text, pos, s[0].start, n);
      SpliceHead(text[..n], pos, s);
      SpliceHead(text[..m], pos, s);
      Regroup(text[pos..s[0].start], s[0].insert, Splice(text[..m], s[0].stop, s[1..]), text[m..n]);
    }
  }

  /** Pushing in text order never trips the builder's assertions, and sorting changes nothing. */
  lemma InOrderAccepted(s: seq<Indel>, n: nat)
    requires Fits(s, 0, n)
    ensures Accepted(s) && AllDisjoint(s) && SortIndels(s) == s && Finished(s) == Coalesce(s)
  {
    AcceptedIff(s);
    FitsSeparated(s, 0, n);
    SeparatedChecks(s);
    SeparatedSorted(s);
    KeyOrder();
    StableSort.SortOfSorted(s, KeyLeq);
  }

  // ---------------------------------------------------------------- what the edit touches

  /** Offset `p` of the old text lies in a deleted chunk, for chunks that start at `pos`. */
  predicate Gone(chunks: seq<Chunk>, pos: nat, p: nat) {
    chunks != [] &&
    match chunks[0]
    case Equal(text) => Gone(chunks[1..], pos + |text|, p)
    case Delete(text) => pos <= p < pos + |text| || Gone(chunks[1..], pos + |text|, p)
    case Insert(_) => Gone(chunks[1..], pos, p)
  }

  /** How much the chunks insert. */
  function Inserted(chunks: seq<Chunk>): nat {
    if chunks == [] then 0 else (if chunks[0].Insert? then |chunks[0].text| else 0) + Inserted(chunks[1..])
  }

  function TotalInsert(s: seq<Indel>): nat {
    if s == [] then 0 else |s[0].insert| + TotalInsert(s[1..])
  }

  lemma {:induction false} TotalSnoc(s: seq<Indel>, d: Indel)
    ensures TotalInsert(s + [d]) == TotalInsert(s) + |d.insert|
    ensures forall p: nat :: Deleted(s + [d], p) <==> Deleted(s, p) || d.start <= p < d.stop
  {
    if s == [] {
      assert s + [d] == [d] && [d][1..] == [];
    } else {
      assert (s + [d])[1..] == s[1..] + [d];
      TotalSnoc(s[1..], d);
    }
  }

  lemma {:induction false} TotalCoalesce(s: seq<Indel>, p: nat)
    requires Separated(s)
    ensures TotalInsert(Coalesce(s)) == TotalInsert(s)
    ensures Deleted(Coalesce(s), p) <==> Deleted(s, p)
    decreases |s|
  {
    if |s| < 2 {
    } else if s[0].stop == s[1].start {
      var t := [Fuse(s[0], s[1])] + s[2..];
      assert t[1..] == s[2..] == s[1..][1..];
      TotalCoalesce(t, p);
    } else {
      TotalCoalesce(s[1..], p);
      assert Coalesce(s)[1..] == Coalesce(s[1..]);
    }
  }

  /** So far the indels delete what the chunks before `rest` delete, and insert as much. */
  ghost predicate Exact(chunks: seq<Chunk>, pushed: seq<Indel>, pos: nat, rest: seq<Chunk>) {
    && (forall p: nat :: Gone(chunks, 0, p) <==> Deleted(pushed, p) || Gone(rest, pos, p))
    && Inserted(chunks) == TotalInsert(pushed) + Inserted(rest)
  }

  lemma ExactEqual(chunks: seq<Chunk>, pushed: seq<Indel>, pos: nat, rest: seq<Chunk>)
    requires Exact(chunks, pushed, pos, rest) && rest != [] && rest[0].Equal?
    ensures Exact(chunks, pushed, pos + |rest[0].text|, rest[1..])
  {
  }

  lemma ExactPush(chunks: seq<Chunk>, pushed: seq<Indel>, pos: nat, rest: seq<Chunk>,
                  d: Indel, next: seq<Chunk>)
    requires Exact(chunks, pushed, pos, rest) && d.start == pos && Inserted(rest) == |d.insert| + Inserted(next)
    requires forall p: nat :: Gone(rest, pos, p) <==> pos <= p < d.stop || Gone(next, d.stop, p)
    ensures Exact(chunks, pushed + [d], d.stop, next)
  {
    TotalSnoc(pushed, d);
  }

  /** What one turn of the loop touches. */
  lemma Touches(rest: seq<Chunk>, pos: nat)
    requires rest != [] && !rest[0].Equal?
    ensures var pair := rest[0].Delete? && |rest| > 1 && rest[1].Insert?;
            var len := if rest[0].Delete? then |rest[0].text| else 0;
            var inserted := if pair then rest[1].text else if rest[0].Insert? then rest[0].text else [];
            var next := if pair then rest[2..] else rest[1..];
            && Inserted(rest) == |inserted| + Inserted(next)
            && forall p: nat :: Gone(rest, pos, p) <==> pos <= p < pos + len || Gone(next, pos + len, p)
  {
    if rest[0].Delete? && |rest| > 1 && rest[1].Insert? {
      assert rest[1..][1..] == rest[2..] && rest[1..][0] == rest[1];
      var tail, next, end := rest[1..], rest[2..], pos + |rest[0].text|;
      assert forall p: nat :: Gone(tail, end, p) <==> Gone(next, end, p);
    }
  }

  lemma ExactFinish(chunks: seq<Chunk>, pushed: seq<Indel>, pos: nat, n: nat)
    requires Exact(chunks, pushed, pos, []) && Fits(pushed, 0, n)
    ensures TotalInsert(Finished(pushed)) == Inserted(chunks)
    ensures forall p: nat :: Deleted(Finished(pushed), p) <==> Gone(chunks, 0, p)
  {
    InOrderAccepted(pushed, n);
    FitsSeparated(pushed, 0, n);
    TotalCoalesce(pushed, 0);
    forall p: nat ensures Deleted(Finished(pushed), p) <==> Gone(chunks, 0, p) {
      TotalCoalesce(pushed, p);
    }
  }

  // ---------------------------------------------------------------- what the edit does

  /** The indels so far turn the old text before `pos` into the new text before that of `rest`. */
  ghost predicate Done(left: Text, right: Text, pushed: seq<Indel>, pos: nat, rest: seq<Chunk>) {
    && pos <= |left| && left[pos..] == Left(rest)
    && Fits(pushed, 0, pos)
    && Splice(left[..pos], 0, pushed) + Right(rest) == right
  }

  lemma StartDone(chunks: seq<Chunk>)
    ensures Done(Left(chunks), Right(chunks), [], 0, chunks)
  {
    assert Left(chunks)[0..] == Left(chunks) && Left(chunks)[..0] == [];
  }

  lemma Next(text: Text, pos: nat, head: Text, tail: Text)
    requires pos <= |text| && text[pos..] == head + tail
    ensures pos + |head| <= |text|
    ensures text[pos..pos + |head|] == head && text[pos + |head|..] == tail
  {
    assert text[pos..pos + |head|] == text[pos..][..|head|] && text[pos + |head|..] == text[pos..][|head|..];
  }

  lemma EqualFirst(rest: seq<Chunk>)
    requires rest != [] && rest[0].Equal?
    ensures Left(rest) == rest[0].text + Left(rest[1..]) && Right(rest) == rest[0].text + Right(rest[1..])
  {
  }

  lemma SkipEqual(left: Text, right: Text, pushed: seq<Indel>, pos: nat, rest: seq<Chunk>)
    requires Done(left, right, pushed, pos, rest) && rest != [] && rest[0].Equal?
    ensures Done(left, right, pushed, pos + |rest[0].text|, rest[1..])
  {
    hide Splice, Left, Right, Fits;
    var text := rest[0].text;
    EqualFirst(rest);
    Next(left, pos, text, Left(rest[1..]));
    SpliceGrow(left, 0, pushed, pos, pos + |text|);
    Associative(Splice(left[..pos], 0, pushed), text, Right(rest[1..]));
  }

  lemma PushOne(left: Text, right: Text, pushed: seq<Indel>, pos: nat, rest: seq<Chunk>,
                len: nat, d: Indel, next: seq<Chunk>)
    requires Done(left, right, pushed, pos, rest) && d.start == pos && d.stop == pos + len
    requires len <= |Left(rest)| && Left(rest)[len..] == Left(next) && Right(rest) == d.insert + Right(next)
    ensures Done(left, right, pushed + [d], pos + len, next)
  {
    hide Splice, Left, Right, Fits;
    Next(left, pos, Left(rest)[..len], Left(next));
    SpliceExtend(left, 0, pushed, d);
    Associative(Splice(left[..pos], 0, pushed), d.insert, Right(next));
  }

  /** What one turn of the loop consumes: the deleted length, the inserted text, the chunks left over. */
  lemma Consume(rest: seq<Chunk>)
    requires rest != [] && !rest[0].Equal?
    ensures var pair := rest[0].Delete? && |rest| > 1 && rest[1].Insert?;
            var len := if rest[0].Delete? then |rest[0].text| else 0;
            var inserted := if pair then rest[1].text else if rest[0].Insert? then rest[0].text else [];
            var next := if pair then rest[2..] else rest[1..];
            len <= |Left(rest)| && Left(rest)[len..] == Left(next) && Right(rest) == inserted + Right(next)
  {
    if rest[0].Delete? && |rest| > 1 && rest[1].Insert? {
      assert rest[1..][1..] == rest[2..];
      assert Left(rest[1..]) == Left(rest[2..]) && Right(rest[1..]) == rest[1].text + Right(rest[2..]);
    }
  }

  /** One builder call of `diff`: replace `len` bytes at `pos`. The builder's assertion holds. */
  method Push(builder: TextEditBuilder, pos: nat, len: nat, inserted: Text,
              ghost left: Text, ghost right: Text, ghost rest: seq<Chunk>, ghost next: seq<Chunk>) returns (end: nat)
    requires builder.Valid() && Done(left, right, builder.pushed, pos, rest)
    requires len <= |Left(rest)| && Left(rest)[len..] == Left(next) && Right(rest) == inserted + Right(next)
    modifies builder
    ensures builder.Valid() && end == pos + len
    ensures builder.pushed == old(builder.pushed) + [RawIndel.Indel(inserted, pos, pos + len)]
    ensures Done(left, right, builder.pushed, end, next)
  {
    hide *;
    var indel: Indel := RawIndel.Indel(inserted, pos, pos + len);
    PushOne(left, right, builder.pushed, pos, rest, len, indel, next);
    DoneFits(left, right, builder.pushed + [indel], pos + len, next);
    InOrderAccepted(builder.pushed + [indel], pos + len);
    var ok := builder.Push(indel);
    assert ok;
    end := pos + len;
  }

  lemma FinishDone(left: Text, right: Text, pushed: seq<Indel>, pos: nat)
    requires Done(left, right, pushed, pos, [])
    ensures Accepted(pushed) && AllDisjoint(pushed)
    ensures StrictlySeparated(Finished(pushed)) && Fits(Finished(pushed), 0, |left|)
    ensures Splice(left, 0, Finished(pushed)) == right
  {
    assert pos == |left| && left[..pos] == left;
    InOrderAccepted(pushed, pos);
    CoalesceKeepsMeaning(left, 0, pushed);
    FitsSeparated(pushed, 0, pos);
    CoalesceSeparates(pushed);
  }

  /**
   `diff`, on the chunks it is given. No assertion fails, the indels are strictly separated and in
   range, and applying them to the old text gives the new text. They delete exactly the bytes of the
   deleted chunks and insert as much as the inserted chunks, so equal chunks stay untouched.
   */
  method Diff(chunks: seq<Chunk>) returns (edit: seq<Indel>)
    ensures StrictlySeparated(edit) && Fits(edit, 0, |Left(chunks)|)
    ensures Splice(Left(chunks), 0, edit) == Right(chunks)
    ensures forall p: nat :: Deleted(edit, p) <==> Gone(chunks, 0, p)
    ensures TotalInsert(edit) == Inserted(chunks)
  {
    hide *;
    ghost var left, right := Left(chunks), Right(chunks);
    var builder := new TextEditBuilder();
    var pos: nat, i: nat := 0, 0;
    assert chunks[0..] == chunks && chunks[|chunks|..] == [];
    StartDone(chunks);
    ExactStart(chunks);
    while i < |chunks|
      invariant 0 <= i <= |chunks|
      invariant fresh(builder) && builder.Valid()
      invariant Done(left, right, builder.pushed, pos, chunks[i..])
      invariant Exact(chunks, builder.pushed, pos, chunks[i..])
    {
      ghost var rest, pushed, start := chunks[i..], builder.pushed, pos;
      var chunk := chunks[i];
      i := i + 1;
      assert rest[1..] == chunks[i..];
      if chunk.Delete? && i < |chunks| && chunks[i].Insert? {
        var inserted := chunks[i].text;
        i := i + 1;
        assert rest[2..] == chunks[i..];
        Consume(rest);
        Touches(rest, pos);
        pos := Push(builder, pos, |chunk.text|, inserted, left, right, rest, chunks[i..]);
        ExactPush(chunks, pushed, start, rest, RawIndel.Indel(inserted, start, pos), chunks[i..]);
        continue;
      }
      match chunk {
        case Equal(text) =>
          SkipEqual(left, right, builder.pushed, pos, rest);
          ExactEqual(chunks, pushed, pos, rest);
          pos := pos + |text|;
        case Delete(deleted) =>
          Consume(rest);
          Touches(rest, pos);
          pos := Push(builder, pos, |deleted|, [], left, right, rest, chunks[i..]);
          ExactPush(chunks, pushed, start, rest, RawIndel.Indel([], start, pos), chunks[i..]);
        case Insert(inserted) =>
          Consume(rest);
          Touches(rest, pos);
          pos := Push(builder, pos, 0, inserted, left, right, rest, chunks[i..]);
          ExactPush(chunks, pushed, start, rest, RawIndel.Indel(inserted, start, pos), chunks[i..]);
      }
    }
    FinishDone(left, right, builder.pushed, pos);
    DoneFits(left, right, builder.pushed, pos, []);
    ExactFinish(chunks, builder.pushed, pos, pos);
    var finished := builder.Finish();
    edit := finished.value;
  }

  lemma ExactStart(chunks: seq<Chunk>)
    ensures Exact(chunks, [], 0, chunks)
  {
  }

  lemma DoneFits(left: Text, right: Text, pushed: seq<Indel>, pos: nat, rest: seq<Chunk>)
    requires Done(left, right, pushed, pos, rest)
    ensures Fits(pushed, 0, pos)
  {
  }
}

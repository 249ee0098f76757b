/**
 Line endings: `crates/aether_lsp_utils/src/line_ending.rs`, with `convert_line_endings` of
 `crates/harp/src/line_ending.rs`. `Normalize` closes gaps in one buffer; `Replaced` says what it
 computes, one byte at a time.
 */
module LineEnding {
  import opened Prelude

  const CR: Byte := 13
  const LF: Byte := 10
  const CRLF: Text := [CR, LF]

  datatype Ending = Lf | Crlf

  /** A match of `\r\n` at offset `i`. */
  predicate CrlfAt(s: Text, i: nat) {
    i + 1 < |s| && s[i] == CR && s[i + 1] == LF
  }

  /** `pattern` matches at offset `i`. */
  predicate MatchAt(s: Text, pattern: Text, i: nat) {
    i + |pattern| <= |s| && s[i..i + |pattern|] == pattern
  }

  lemma MatchTail(s: Text, pattern: Text, i: nat)
    requires s != [] && i > 0
    ensures MatchAt(s, pattern, i) <==> MatchAt(s[1..], pattern, i - 1)
  {
    if i + |pattern| <= |s| {
      assert s[1..][i - 1..i - 1 + |pattern|] == s[i..i + |pattern|];
    }
  }

  /** The offset of the first match of `pattern`: what `memmem` and `str::replace` search for. */
  function Find(s: Text, pattern: Text): Option<nat> {
    if MatchAt(s, pattern, 0) then Some(0)
    else if s == [] then None
    else
      match Find(s[1..], pattern)
      case None => None
      case Some(i) => Some(i + 1)
  }

  /** It is a match, and there is none before it. */
  lemma {:induction false} FindFirst(s: Text, pattern: Text, j: nat)
    ensures var r := Find(s, pattern);
            && (r.Some? ==> MatchAt(s, pattern, r.value))
            && (MatchAt(s, pattern, j) ==> r.Some? && r.value <= j)
  {
    if !MatchAt(s, pattern, 0) && s != [] {
      var r := Find(s[1..], pattern);
      if j > 0 {
        MatchTail(s, pattern, j);
        FindFirst(s[1..], pattern, j - 1);
      } else {
        FindFirst(s[1..], pattern, 0);
      }
      if r.Some? { MatchTail(s, pattern, r.value + 1); }
    }
  }

  /** `str::replace`: left to right, without overlaps. */
  function ReplaceAll(s: Text, from: Text, to: Text): Text
    requires from != []
    decreases |s|
  {
    FindFirst(s, from, 0);
    match Find(s, from)
    case None => s
    case Some(i) => s[..i] + to + ReplaceAll(s[i + |from|..], from, to)
  }

  /** `convert_line_endings(.., Posix)`. */
  function ConvertPosix(s: Text): Text {
    ReplaceAll(s, CRLF, [LF])
  }

  /** `infer`. */
  function Infer(s: Text): Ending {
    if Find(s, CRLF).Some? then Crlf else Lf
  }

  /** Every `\r\n` made `\n`, byte by byte. */
  function Replaced(s: Text): Text {
    if s == [] then []
    else if CrlfAt(s, 0) then Replaced(s[1..])
    else [s[0]] + Replaced(s[1..])
  }

  function CountCrlf(s: Text): nat {
    if s == [] then 0 else (if CrlfAt(s, 0) then 1 else 0) + CountCrlf(s[1..])
  }

  /** The result loses exactly one byte for each `\r\n`. */
  lemma {:induction false} ReplacedLength(s: Text)
    ensures |Replaced(s)| + CountCrlf(s) == |s|
  {
    if s != [] {
      ReplacedLength(s[1..]);
    }
  }

  /** Up to the first match nothing changes; at the match the `\r` goes. */
  lemma {:induction false} ReplacedAtMatch(s: Text, i: nat)
    requires i <= |s| && forall j :: 0 <= j < i ==> !CrlfAt(s, j)
    ensures Replaced(s) == s[..i] + Replaced(s[i..])
    decreases i
  {
    if i > 0 {
      forall j | 0 <= j < i - 1 ensures !CrlfAt(s[1..], j) {
        assert !CrlfAt(s, j + 1);
      }
      ReplacedAtMatch(s[1..], i - 1);
      assert s[1..][i - 1..] == s[i..];
      assert s[..i] == [s[0]] + s[1..][..i - 1];
      assert !CrlfAt(s, 0);
    } else {
      assert s[0..] == s;
    }
  }

  lemma FindCrlf(s: Text)
    ensures match Find(s, CRLF)
            case None => forall j :: 0 <= j < |s| ==> !CrlfAt(s, j)
            case Some(i) => CrlfAt(s, i) && forall j :: 0 <= j < i ==> !CrlfAt(s, j)
  {
    hide Find;
    forall j: nat ensures MatchAt(s, CRLF, j) <==> CrlfAt(s, j) {
      if j + 2 <= |s| { assert s[j..j + 2] == [s[j], s[j + 1]]; }
    }
    forall j: nat ensures CrlfAt(s, j) ==> Find(s, CRLF).Some? && Find(s, CRLF).value <= j {
      FindFirst(s, CRLF, j);
    }
    FindFirst(s, CRLF, 0);
  }

  lemma ReplacedMatch(s: Text, i: nat)
    requires CrlfAt(s, i)
    ensures Replaced(s[i..]) == [LF] + Replaced(s[i + 2..])
  {
    var t := s[i..];
    assert t[1..] == s[i + 1..] && t[1..][1..] == s[i + 2..];
    assert CrlfAt(t, 0) && !CrlfAt(t[1..], 0);
  }

  lemma NoMatch(s: Text)
    requires forall j :: 0 <= j < |s| ==> !CrlfAt(s, j)
    ensures Replaced(s) == s
  {
    ReplacedAtMatch(s, |s|);
    assert s[..|s|] + Replaced(s[|s|..]) == s;
  }

  lemma FirstMatch(s: Text, i: nat)
    requires CrlfAt(s, i) && forall j :: 0 <= j < i ==> !CrlfAt(s, j)
    ensures Replaced(s) == s[..i] + [LF] + Replaced(s[i + 2..])
  {
    ReplacedAtMatch(s, i);
    ReplacedMatch(s, i);
  }

  /** The two line-ending modules agree: `Replaced` is the library's `replace`. */
  lemma {:induction false} ConvertIsReplaced(s: Text)
    ensures ConvertPosix(s) == Replaced(s)
    decreases |s|
  {
    FindCrlf(s);
    match Find(s, CRLF)
    case None =>
      NoMatch(s);
    case Some(i) =>
      FirstMatch(s, i);
      ConvertIsReplaced(s[i + |CRLF|..]);
  }

  /**
   The state of the moving gap in a buffer `b` that started as `x`: the answer so far is `b[..base]`,
   the next `gap` bytes are rubbish, and what lies after them is untouched.
   */
  ghost predicate Moving(x: Text, b: Text, base: nat, gap: nat) {
    && base + gap <= |b| == |x|
    && b[base + gap..] == x[base + gap..]
    && b[..base] + Replaced(x[base + gap..]) == Replaced(x)
  }

  /** Copying back a stretch without a match moves the base to `to`. */
  lemma MoveTo(x: Text, b: Text, c: Text, base: nat, gap: nat, to: nat)
    requires Moving(x, b, base, gap) && base <= to && to + gap <= |x| == |c|
    requires forall j :: base + gap <= j < to + gap ==> !CrlfAt(x, j)
    requires c[..base] == b[..base] && c[base..to] == b[base + gap..to + gap] && c[to + gap..] == b[to + gap..]
    ensures Moving(x, c, to, gap)
  {
    hide Replaced;
    var rest, len := x[base + gap..], to - base;
    forall j | 0 <= j < len ensures !CrlfAt(rest, j) {
      assert !CrlfAt(x, base + gap + j);
    }
    ReplacedAtMatch(rest, len);
    assert rest[len..] == x[to + gap..];
    assert b[base + gap..to + gap] == b[base + gap..][..len];
    assert c[..to] == b[..base] + rest[..len];
    assert c[to + gap..] == b[base + gap..][len..];
  }

  /** At a match the gap swallows the `\r`. */
  lemma SkipCr(x: Text, b: Text, base: nat, gap: nat)
    requires Moving(x, b, base, gap) && CrlfAt(x, base + gap)
    ensures Moving(x, b, base, gap + 1)
  {
    assert CrlfAt(x[base + gap..], 0) && x[base + gap..][1..] == x[base + gap + 1..];
    assert b[base + gap..][1..] == b[base + gap + 1..];
  }

  lemma Untouched(x: Text, b: Text)
    ensures Moving(x, b, 0, 0) <==> b == x
  {
    assert b[0..] == b && x[0..] == x;
    assert b[..0] + Replaced(x[0..]) == Replaced(x);
  }

  lemma Closed(x: Text, b: Text, base: nat, gap: nat)
    requires Moving(x, b, base, gap) && base + gap == |x|
    ensures b[..base] == Replaced(x)
  {
    assert x[base + gap..] == [];
  }

  /** `FINDER.find` on the part of the buffer after the gap. */
  method Search(buf: array<Byte>, base: nat, gap: nat, ghost x: Text) returns (found: Option<nat>)
    requires Moving(x, buf[..], base, gap)
    ensures base + gap <= buf.Length == |x|
    ensures found.None? ==> forall j :: base + gap <= j < |x| ==> !CrlfAt(x, j)
    ensures found.Some? ==> base + gap + found.value < |x| && CrlfAt(x, base + gap + found.value)
    ensures found.Some? ==> forall j :: base + gap <= j < base + gap + found.value ==> !CrlfAt(x, j)
  {
    var q := base + gap;
    assert buf[q..] == buf[..][q..] == x[q..];
    hide Find, Moving;
    FindCrlf(x[q..]);
    assert forall j :: q <= j < |x| ==> (CrlfAt(x, j) <==> CrlfAt(x[q..], j - q));
    found := Find(buf[q..], CRLF);
  }

  /** `normalize`: the buffer is `buf` and its `tail` slice starts at `base`. */
  method Normalize(x: Text) returns (r: Text)
    ensures r == Replaced(x)
  {
    hide *;
    var buf := new Byte[|x|](i requires 0 <= i < |x| => x[i]);
    Untouched(x, buf[..]);
    var gap: nat, base: nat := 0, 0;
    var crlfSeen := false;
    while true
      invariant Moving(x, buf[..], base, gap)
      invariant !crlfSeen ==> base == gap == 0
      decreases |x| - (base + gap)
    {
      var idx: nat;
      var found := Search(buf, base, gap, x);
      match found {
        case None =>
          if !crlfSeen {
            NoMatch(x);
            Untouched(x, buf[..]);
            return buf[..];
          }
          idx := buf.Length - base;
        case Some(i) =>
          crlfSeen := true;
          idx := i + gap;
      }
      CopyWithin(buf, base, gap, idx, x);
      base := base + (idx - gap);
      if buf.Length - base == gap {
        break;
      }
      SkipCr(x, buf[..], base, gap);
      gap := gap + 1;
    }
    Closed(x, buf[..], base, gap);
    r := buf[..buf.Length - gap];
    assert r == buf[..][..base];
  }

  /** `tail.copy_within(gap..idx, 0)`, for the tail that starts at `base`. */
  method CopyWithin(buf: array<Byte>, base: nat, gap: nat, idx: nat, ghost x: Text)
    requires gap <= idx && base + idx <= buf.Length && Moving(x, buf[..], base, gap)
    requires forall j :: base + gap <= j < base + idx ==> !CrlfAt(x, j)
    modifies buf
    ensures Moving(x, buf[..], base + (idx - gap), gap)
  {
    assert buf.Length == |x|;
    hide *;
    ghost var before := buf[..];
    var to := base + (idx - gap);
    MoveBack(buf, base, gap, to);
    MoveTo(x, before, buf[..], base, gap, to);
  }

  /** Moves `buf[base + gap..to + gap]` back by `gap`. */
  method MoveBack(buf: array<Byte>, base: nat, gap: nat, to: nat)
    requires base <= to && to + gap <= buf.Length
    modifies buf
    ensures buf[..base] == old(buf[..base]) && buf[to + gap..] == old(buf[to + gap..])
    ensures buf[base..to] == old(buf[base + gap..to + gap])
  {
    ghost var before := buf[..];
    forall k | base <= k < to {
      buf[k] := buf[k + gap];
    }
    assert forall k :: base <= k < to ==> buf[k] == before[k + gap];
    assert forall k :: 0 <= k < buf.Length && !(base <= k < to) ==> buf[k] == before[k];
  }

  /** `normalize_ref`, which skips the copy when there is nothing to do. */
  method NormalizeRef(x: Text) returns (r: Text)
    ensures r == Replaced(x)
  {
    match Infer(x)
    case Lf =>
      FindCrlf(x);
      NoMatch(x);
      r := x;
    case Crlf =>
      r := Normalize(x);
  }

  // ---------------------------------------------------------------- what is left over

  predicate CrCrLfAt(s: Text, i: nat) {
    i + 2 < |s| && s[i] == CR && s[i + 1] == CR && s[i + 2] == LF
  }

  predicate HasCrCrLf(s: Text) {
    s != [] && (CrCrLfAt(s, 0) || HasCrCrLf(s[1..]))
  }

  predicate HasCrlf(s: Text) {
    s != [] && (CrlfAt(s, 0) || HasCrlf(s[1..]))
  }

  lemma {:induction false} ReplacedHead(s: Text)
    requires s != []
    ensures Replaced(s) != []
    ensures Replaced(s)[0] == if CrlfAt(s, 0) then LF else s[0]
  {
    if CrlfAt(s, 0) {
      assert !CrlfAt(s[1..], 0);
    }
  }

  /**
   The result has a `\r\n` exactly when the input has a `\r\r\n`, so the documented invariant, that
   normalised strings use `\n` only, fails on just those inputs.
   */
  lemma {:induction false} LeftoverCrlf(s: Text)
    ensures HasCrlf(Replaced(s)) <==> HasCrCrLf(s)
    decreases |s|
  {
    if s != [] {
      LeftoverCrlf(s[1..]);
      if CrlfAt(s, 0) {
        assert !CrCrLfAt(s, 0);
      } else if |s| > 1 {
        ReplacedHead(s[1..]);
        var rest := Replaced(s[1..]);
        assert ([s[0]] + rest)[1..] == rest;
        assert CrlfAt([s[0]] + rest, 0) <==> CrCrLfAt(s, 0) || (s[0] == CR && s[1] == LF);
      }
    }
  }

  lemma {:induction false} ReplacedFixed(s: Text)
    ensures Replaced(s) == s <==> !HasCrlf(s)
    ensures |Replaced(s)| < |s| <==> HasCrlf(s)
    ensures |Replaced(s)| <= |s|
  {
    if s != [] {
      ReplacedFixed(s[1..]);
      assert s == [s[0]] + s[1..];
    }
  }

  /** Normalising twice is normalising once exactly when the input has no `\r\r\n`. */
  lemma Idempotent(s: Text)
    ensures Replaced(Replaced(s)) == Replaced(s) <==> !HasCrCrLf(s)
  {
    LeftoverCrlf(s);
    ReplacedFixed(Replaced(s));
  }

  /** `infer` reports CRLF exactly when normalising would change the text. */
  lemma InferDetects(s: Text)
    ensures Infer(s) == Crlf <==> Replaced(s) != s
    ensures Infer(s) == Crlf <==> exists i :: 0 <= i < |s| - 1 && s[i] == 13 && s[i + 1] == 10
  {
    FindCrlf(s);
    ReplacedFixed(s);
    HasCrlfIff(s);
    assert forall i :: 0 <= i < |s| - 1 ==> (CrlfAt(s, i) <==> s[i] == 13 && s[i + 1] == 10);
  }

  lemma {:induction false} HasCrlfIff(s: Text)
    ensures HasCrlf(s) <==> exists i: nat :: CrlfAt(s, i)
  {
    if s != [] {
      HasCrlfIff(s[1..]);
      if i: nat :| CrlfAt(s, i) {
        assert i == 0 || CrlfAt(s[1..], i - 1);
      }
      if i: nat :| CrlfAt(s[1..], i) {
        assert CrlfAt(s, i + 1);
      }
    }
  }
}

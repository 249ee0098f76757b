/**
 Lexical path normalisation: `normalise`, `uppercase_disk_prefix` and `from_utf8_path_buf` in
 `crates/aether_path/src/file_path.rs`. A path is its sequence of components; for paths without a
 prefix the parsing and printing of Unix path text is modelled too.
 */
module FilePath {
  import opened Prelude

  const SLASH: Byte := 47
  const DOT: Byte := 46
  const COLON: Byte := 58

  datatype Component = Prefix(text: Text) | RootDir | CurDir | ParentDir | Normal(name: Text)

  type Path = seq<Component>

  /** The prefix and the root, or as much of them as the path has. */
  function Anchor(p: Path): Path {
    if p != [] && p[0].Prefix? then p[..if |p| > 1 && p[1].RootDir? then 2 else 1]
    else if p != [] && p[0].RootDir? then [RootDir]
    else []
  }

  predicate IsAbsolute(p: Path) {
    Anchor(p) != [] && Anchor(p)[|Anchor(p)| - 1].RootDir?
  }

  /** Components as the standard library yields them: prefix and root only at the front. */
  predicate WellFormed(p: Path) {
    Relative(p[|Anchor(p)|..])
  }

  predicate Relative(p: Path) {
    forall c :: c in p ==> c.CurDir? || c.ParentDir? || c.Normal?
  }

  predicate AllNormal(p: Path) {
    forall c :: c in p ==> c.Normal?
  }

  // ---------------------------------------------------------------- drive letters

  function FindColon(s: Text): (r: Option<nat>)
    ensures r.Some? ==> FirstColon(s, r.value)
    ensures r.None? ==> COLON !in s
  {
    if s == [] then None
    else if s[0] == COLON then Some(0)
    else
      match FindColon(s[1..])
      case None => None
      case Some(i) => Some(i + 1)
  }

  predicate IsLower(b: Byte) {
    97 <= b <= 122
  }

  predicate FirstColon(s: Text, i: nat) {
    i < |s| && s[i] == COLON && forall j :: 0 <= j < i ==> s[j] != COLON
  }

  /** `uppercase_disk_prefix`. */
  function UppercaseDiskPrefix(s: Text): (r: Text)
    ensures |r| == |s|
    ensures forall i :: 0 <= i < |s| ==> r[i] == if 97 <= s[i] <= 122 && FirstColon(s, i + 1) then s[i] - 32 else s[i]
  {
    match FindColon(s)
    case Some(i) => if i > 0 && IsLower(s[i - 1]) then s[i - 1 := s[i - 1] - 32] else s
    case None => s
  }

  lemma {:induction false} FindColonUnique(s: Text, i: nat)
    requires FirstColon(s, i)
    ensures FindColon(s) == Some(i)
  {
    if i > 0 {
      FindColonUnique(s[1..], i - 1);
    }
  }

  lemma UppercaseIdempotent(s: Text)
    ensures UppercaseDiskPrefix(UppercaseDiskPrefix(s)) == UppercaseDiskPrefix(s)
  {
    match FindColon(s)
    case None =>
    case Some(i) => FindColonUnique(UppercaseDiskPrefix(s), i);
  }

  // ---------------------------------------------------------------- normalisation

  /** `PathBuf::pop`: the last name goes; a root or a prefix stays. */
  function Pop(out: Path): Path {
    if out != [] && (out[|out| - 1].Prefix? || out[|out| - 1].RootDir?) then out
    else if out == [] then out
    else out[..|out| - 1]
  }

  function Push(out: Path, c: Component): Path {
    match c
    case CurDir => out
    case ParentDir => Pop(out)
    case _ => out + [c]
  }

  /** The components of `p` pushed on `out`, one by one. */
  function Resolve(out: Path, p: Path): Path
    decreases |p|
  {
    if p == [] then out else Resolve(Push(out, p[0]), p[1..])
  }

  function UpperAnchor(p: Path): Path {
    if p != [] && p[0].Prefix? then [Prefix(UppercaseDiskPrefix(p[0].text))] else []
  }

  function Normalised(p: Path): Path {
    if p != [] && p[0].Prefix? then Resolve(UpperAnchor(p), p[1..]) else Resolve([], p)
  }

  /** `normalise`; a prefix after the first component is unreachable. */
  method Normalise(path: Path) returns (out: Path)
    requires WellFormed(path)
    ensures out == Normalised(path)
    ensures path != [] && path[0].Prefix? ==> out != [] && out[0] == Prefix(UppercaseDiskPrefix(path[0].text))
  {
    if path != [] && path[0].Prefix? { PrefixStays(UpperAnchor(path), path[1..]); }
    out := [];
    var i := 0;
    if path != [] && path[0].Prefix? {
      out := [Prefix(UppercaseDiskPrefix(path[0].text))];
      i := 1;
    }
    ghost var whole := Normalised(path);
    assert path[0..] == path;
    while i < |path|
      invariant 0 <= i <= |path|
      invariant whole == Resolve(out, path[i..])
      invariant i == 0 && path != [] ==> !path[0].Prefix?
    {
      if i > 0 { NoLaterPrefix(path, i); }
      assert path[i..][1..] == path[i + 1..];
      match path[i] {
        case Prefix(_) => assert false;
        case RootDir => out := out + [RootDir];
        case CurDir =>
        case ParentDir => out := Pop(out);
        case Normal(c) => out := out + [Normal(c)];
      }
      i := i + 1;
    }
  }

  /** Nothing takes a prefix back, not even on a path without a root, which `normalise` itself would accept. */
  lemma {:induction false} PrefixStays(out: Path, p: Path)
    requires out != [] && out[0].Prefix?
    ensures Resolve(out, p) != [] && Resolve(out, p)[0] == out[0]
    decreases |p|
  {
    if p != [] {
      PrefixStays(Push(out, p[0]), p[1..]);
    }
  }

  lemma NoLaterPrefix(p: Path, i: nat)
    requires WellFormed(p) && 0 < i < |p|
    ensures !p[i].Prefix?
  {
    if i >= |Anchor(p)| {
      assert p[|Anchor(p)|..][i - |Anchor(p)|] in p[|Anchor(p)|..];
    }
  }

  /** `from_utf8_path_buf`. */
  method FromPath(path: Path) returns (r: Option<Path>)
    requires WellFormed(path)
    ensures r.Some? <==> (path != [] && path[0].RootDir?) || (|path| > 1 && path[0].Prefix? && path[1].RootDir?)
    ensures r.Some? ==> r.value == Normalised(path)
  {
    if !IsAbsolute(path) {
      return None;
    }
    var out := Normalise(path);
    return Some(out);
  }

  // ---------------------------------------------------------------- laws

  lemma {:induction false} ResolveConcat(out: Path, p: Path, q: Path)
    ensures Resolve(out, p + q) == Resolve(Resolve(out, p), q)
    decreases |p|
  {
    if p == [] {
      assert p + q == q;
    } else {
      assert (p + q)[1..] == p[1..] + q;
      ResolveConcat(Push(out, p[0]), p[1..], q);
    }
  }

  /** Names push themselves. */
  lemma {:induction false} ResolveNormal(out: Path, p: Path)
    requires AllNormal(p)
    ensures Resolve(out, p) == out + p
    decreases |p|
  {
    if p != [] {
      assert p[0] in p;
      ResolveNormal(out + [p[0]], p[1..]);
      assert out + p == out + [p[0]] + p[1..];
    } else {
      assert out + p == out;
    }
  }

  /** From a root, relative components leave the anchor alone and only names above it. */
  lemma {:induction false} ResolveAbove(anchor: Path, names: Path, p: Path)
    requires anchor != [] && anchor[|anchor| - 1].RootDir? && AllNormal(names) && Relative(p)
    ensures var r := Resolve(anchor + names, p);
            |r| >= |anchor| && r[..|anchor|] == anchor && AllNormal(r[|anchor|..])
    decreases |p|
  {
    if p == [] {
      assert (anchor + names)[..|anchor|] == anchor && (anchor + names)[|anchor|..] == names;
    } else {
      assert p[0] in p;
      PushNext(anchor, names, p[0]);
      ResolveAbove(anchor, NextNames(names, p[0]), p[1..]);
    }
  }

  /** The anchor that normalising leaves: drive letter upper case. */
  function NormalAnchor(p: Path): Path {
    if p != [] && p[0].Prefix? then [Prefix(UppercaseDiskPrefix(p[0].text)), RootDir] else [RootDir]
  }

  lemma NormalisedSplit(p: Path)
    requires WellFormed(p) && IsAbsolute(p)
    ensures Normalised(p) == Resolve(NormalAnchor(p), p[|Anchor(p)|..])
  {
    if p[0].Prefix? {
      assert p[1..][0] == RootDir && p[1..][1..] == p[2..];
      assert Push(UpperAnchor(p), RootDir) == NormalAnchor(p);
      assert |Anchor(p)| == 2;
    } else {
      assert Push([], RootDir) == [RootDir];
    }
  }

  /** A normal form: an absolute path of names, so without dots, and with no way above its root. */
  predicate IsNormalForm(r: Path, anchor: Path) {
    |r| >= |anchor| && r[..|anchor|] == anchor && AllNormal(r[|anchor|..])
  }

  /** Normalising an absolute path gives a normal form below the same root. */
  lemma NormalisedForm(p: Path)
    requires WellFormed(p) && IsAbsolute(p)
    ensures IsNormalForm(Normalised(p), NormalAnchor(p))
    ensures WellFormed(Normalised(p)) && IsAbsolute(Normalised(p)) && Anchor(Normalised(p)) == NormalAnchor(p)
  {
    NormalisedSplit(p);
    assert NormalAnchor(p) + [] == NormalAnchor(p);
    ResolveAbove(NormalAnchor(p), [], p[|Anchor(p)|..]);
    FormParts(Normalised(p), NormalAnchor(p));
  }

  lemma FormParts(r: Path, anchor: Path)
    requires IsNormalForm(r, anchor)
    requires anchor == [RootDir] || (|anchor| == 2 && anchor[0].Prefix? && anchor[1].RootDir?)
    ensures Anchor(r) == anchor && WellFormed(r) && IsAbsolute(r)
  {
    assert forall i :: 0 <= i < |anchor| ==> r[i] == r[..|anchor|][i];
    assert Anchor(r) == anchor;
  }

  /** Normalising twice is normalising once. */
  lemma Idempotent(p: Path)
    requires WellFormed(p) && IsAbsolute(p)
    ensures Normalised(Normalised(p)) == Normalised(p)
  {
    var r, a := Normalised(p), NormalAnchor(p);
    NormalisedForm(p);
    NormalisedSplit(r);
    assert r[0] == r[..|a|][0] == a[0];
    if p[0].Prefix? { UppercaseIdempotent(p[0].text); }
    assert NormalAnchor(r) == a;
    ResolveNormal(a, r[|a|..]);
    assert r == r[..|a|] + r[|a|..];
  }

  /** Normalisation composes: the directory may be normalised before a relative path is joined to it. */
  lemma Composes(p: Path, q: Path)
    requires WellFormed(p) && IsAbsolute(p) && Relative(q)
    ensures WellFormed(p + q) && WellFormed(Normalised(p) + q)
    ensures Normalised(p + q) == Normalised(Normalised(p) + q)
  {
    var r := Normalised(p);
    NormalisedForm(p);
    JoinNormalised(p, q);
    JoinNormalised(r, q);
    Idempotent(p);
  }

  lemma JoinParts(p: Path, q: Path, n: nat)
    requires n <= |p|
    ensures (p + q)[..n] == p[..n] && (p + q)[n..] == p[n..] + q
  {
  }

  lemma JoinNormalised(p: Path, q: Path)
    requires WellFormed(p) && IsAbsolute(p) && Relative(q)
    ensures WellFormed(p + q) && IsAbsolute(p + q) && Normalised(p + q) == Resolve(Normalised(p), q)
  {
    var n := |Anchor(p)|;
    JoinParts(p, q, n);
    assert Anchor(p + q) == Anchor(p);
    NormalisedSplit(p);
    NormalisedSplit(p + q);
    assert NormalAnchor(p + q) == NormalAnchor(p);
    ResolveConcat(NormalAnchor(p), p[n..], q);
  }

  // ---------------------------------------------------------------- which names survive

  function Weight(c: Component): int {
    if c.Normal? then 1 else if c.ParentDir? then -1 else 0
  }

  /** Names minus parent steps. */
  function Balance(p: Path): int {
    if p == [] then 0 else Balance(p[..|p| - 1]) + Weight(p[|p| - 1])
  }

  /** Names minus parent steps, after the component at `i` and before `j`. */
  function After(p: Path, i: nat, j: nat): int
    requires i < j <= |p|
  {
    Balance(p[i + 1..j])
  }

  /**
   The name at `i` is never taken back: no stretch right after it has more parent steps than names.
   `skip` stands for parent steps that still follow.
   */
  ghost predicate Survives(p: Path, i: nat, skip: nat)
    requires i < |p|
  {
    && p[i].Normal?
    && (forall j :: i < j <= |p| ==> After(p, i, j) >= 0)
    && After(p, i, |p|) >= skip
  }

  /** Those of the first `k` components that survive, in order. */
  ghost function Survivors(p: Path, skip: nat, k: nat): Path
    requires k <= |p|
  {
    if k == 0 then [] else Survivors(p, skip, k - 1) + if Survives(p, k - 1, skip) then [p[k - 1]] else []
  }

  lemma AfterSnoc(p: Path, c: Component, i: nat, j: nat)
    requires i < j <= |p| + 1 && i < |p|
    ensures After(p + [c], i, j) == if j <= |p| then After(p, i, j) else After(p, i, |p|) + Weight(c)
  {
    if j <= |p| {
      assert (p + [c])[i + 1..j] == p[i + 1..j];
    } else {
      assert (p + [c])[i + 1..j] == p[i + 1..] + [c];
      assert (p[i + 1..] + [c])[..|p| - i - 1] == p[i + 1..] == p[i + 1..|p|];
    }
  }

  /** How many parent steps are to come before `c`, if `skip` are to come after it. */
  function SkipBefore(c: Component, skip: nat): nat {
    if c.Normal? then (if skip == 0 then 0 else skip - 1) else if c.ParentDir? then skip + 1 else skip
  }

  /** A component more at the end changes the parent steps to come, for the names before it. */
  lemma SurvivesSnoc(p: Path, c: Component, i: nat, skip: nat)
    requires i < |p|
    ensures Survives(p + [c], i, skip) <==> Survives(p, i, SkipBefore(c, skip))
  {
    AfterSnoc(p, c, i, |p| + 1);
    forall j | i < j <= |p| ensures After(p + [c], i, j) == After(p, i, j) {
      AfterSnoc(p, c, i, j);
    }
  }

  lemma {:induction false} SurvivorsSnoc(p: Path, c: Component, k: nat, skip: nat)
    requires k <= |p|
    ensures Survivors(p + [c], skip, k) == Survivors(p, SkipBefore(c, skip), k)
  {
    if k > 0 {
      SurvivorsSnoc(p, c, k - 1, skip);
      SurvivesSnoc(p, c, k - 1, skip);
    }
  }

  lemma LastSurvives(p: Path, c: Component, skip: nat)
    ensures Survives(p + [c], |p|, skip) <==> c.Normal? && skip == 0
  {
    assert (p + [c])[|p| + 1..|p| + 1] == [];
  }

  function DropLast(p: Path, k: nat): Path {
    if k < |p| then p[..|p| - k] else []
  }

  /** What `skip` further parent steps would leave of the resolved names. */
  lemma {:induction false} ResolveSurvivors(anchor: Path, p: Path, skip: nat)
    requires anchor != [] && anchor[|anchor| - 1].RootDir? && Relative(p)
    ensures IsNormalForm(Resolve(anchor, p), anchor)
    ensures DropLast(Resolve(anchor, p)[|anchor|..], skip) == Survivors(p, skip, |p|)
    decreases |p|
  {
    if p == [] {
      assert anchor[..|anchor|] == anchor;
    } else {
      hide Survives, AllNormal, DropLast;
      var q, c := p[..|p| - 1], p[|p| - 1];
      assert p == q + [c] && c in p;
      ResolveSurvivors(anchor, q, SkipBefore(c, skip));
      SurvivorsSnoc(q, c, |q|, skip);
      LastSurvives(q, c, skip);
      ResolveConcat(anchor, q, [c]);
      PushNames(anchor, Resolve(anchor, q), c, skip);
      assert Resolve(Resolve(anchor, q), [c]) == Push(Resolve(anchor, q), c) by { assert [c][1..] == []; }
    }
  }

  /** The names below a root after one more component. */
  function NextNames(names: Path, c: Component): Path {
    if c.Normal? then names + [c] else if c.ParentDir? then DropLast(names, 1) else names
  }

  lemma DropNext(names: Path, c: Component, skip: nat)
    ensures DropLast(NextNames(names, c), skip) ==
            DropLast(names, SkipBefore(c, skip)) + if c.Normal? && skip == 0 then [c] else []
  {
  }

  lemma PushNext(anchor: Path, names: Path, c: Component)
    requires anchor != [] && anchor[|anchor| - 1].RootDir? && AllNormal(names)
    requires c.Normal? || c.ParentDir? || c.CurDir?
    ensures Push(anchor + names, c) == anchor + NextNames(names, c) && AllNormal(NextNames(names, c))
  {
    if c.Normal? {
      assert anchor + names + [c] == anchor + (names + [c]);
    } else if c.ParentDir? && names != [] {
      assert names[|names| - 1] in names;
      assert (anchor + names)[..|anchor + names| - 1] == anchor + names[..|names| - 1];
    } else {
      assert names == [] ==> anchor + names == anchor;
    }
  }

  lemma PushNames(anchor: Path, r: Path, c: Component, skip: nat)
    requires anchor != [] && anchor[|anchor| - 1].RootDir? && IsNormalForm(r, anchor)
    requires c.Normal? || c.ParentDir? || c.CurDir?
    ensures IsNormalForm(Push(r, c), anchor)
    ensures DropLast(Push(r, c)[|anchor|..], skip) ==
            DropLast(r[|anchor|..], SkipBefore(c, skip)) + if c.Normal? && skip == 0 then [c] else []
  {
    hide DropLast, NextNames, AllNormal, Push;
    var names := r[|anchor|..];
    assert r == anchor + names;
    PushNext(anchor, names, c);
    assert (anchor + NextNames(names, c))[|anchor|..] == NextNames(names, c);
    assert (anchor + NextNames(names, c))[..|anchor|] == anchor;
    DropNext(names, c, skip);
  }

  /** Normalising keeps the root and exactly the names that no later parent step takes back. */
  lemma NormalisedSurvivors(p: Path)
    requires WellFormed(p) && IsAbsolute(p)
    ensures var rest := p[|Anchor(p)|..];
            Normalised(p) == NormalAnchor(p) + Survivors(rest, 0, |rest|)
  {
    var a, rest := NormalAnchor(p), p[|Anchor(p)|..];
    NormalisedSplit(p);
    ResolveSurvivors(a, rest, 0);
    var r := Resolve(a, rest);
    assert DropLast(r[|a|..], 0) == r[|a|..];
    assert r == r[..|a|] + r[|a|..];
  }

  // ---------------------------------------------------------------- Unix path text

  /** The pieces between slashes. */
  function Segments(s: Text): (r: seq<Text>)
    ensures r != []
  {
    if s == [] then [[]]
    else if s[0] == SLASH then [[]] + Segments(s[1..])
    else var rest := Segments(s[1..]); [[s[0]] + rest[0]] + rest[1..]
  }

  /** Empty pieces and dots vanish; a leading dot of a relative path would not, but none is absolute. */
  function FromSegments(segs: seq<Text>): Path {
    if segs == [] then []
    else (if segs[0] == [] || segs[0] == [DOT] then []
          else if segs[0] == [DOT, DOT] then [ParentDir]
          else [Normal(segs[0])]) + FromSegments(segs[1..])
  }

  /** The components of an absolute Unix path. */
  function Parse(s: Text): Path
    requires s != [] && s[0] == SLASH
  {
    [RootDir] + FromSegments(Segments(s[1..]))
  }

  /** How a component is written. */
  function Word(c: Component): Text
    requires c.Normal? || c.ParentDir? || c.CurDir?
  {
    match c
    case Normal(name) => name
    case ParentDir => [DOT, DOT]
    case CurDir => [DOT]
  }

  /** The text that pushing the components on a root builds. */
  function Print(p: Path): Text
    requires Relative(p)
  {
    if p == [] then [] else assert p[0] in p; [SLASH] + Word(p[0]) + Print(p[1..])
  }

  predicate IsName(t: Text) {
    t != [] && SLASH !in t && t != [DOT] && t != [DOT, DOT]
  }

  predicate Proper(p: Path) {
    Relative(p) && forall c :: c in p && c.Normal? ==> IsName(c.name)
  }

  predicate ProperNames(p: Path) {
    AllNormal(p) && Proper(p)
  }

  function WithoutDots(p: Path): Path {
    if p == [] then [] else (if p[0].CurDir? then [] else [p[0]]) + WithoutDots(p[1..])
  }

  lemma {:induction false} NamesHaveNoDots(p: Path)
    requires AllNormal(p)
    ensures WithoutDots(p) == p
  {
    if p != [] {
      assert p[0] in p;
      NamesHaveNoDots(p[1..]);
    }
  }

  lemma {:induction false} SegmentsName(t: Text, rest: Text)
    requires SLASH !in t && (rest == [] || rest[0] == SLASH)
    ensures Segments(t + rest) == [t] + Segments(rest)[1..]
    ensures Segments(rest)[0] == []
  {
    if t == [] {
      assert t + rest == rest;
      assert Segments(rest) == [[]] + Segments(rest)[1..];
    } else {
      SegmentsName(t[1..], rest);
      assert (t + rest)[1..] == t[1..] + rest;
      assert [t[0]] + t[1..] == t;
    }
  }

  lemma FromSegmentsCons(t: Text, segs: seq<Text>)
    ensures t == [] || t == [DOT] ==> FromSegments([t] + segs) == FromSegments(segs)
    ensures t == [DOT, DOT] ==> FromSegments([t] + segs) == [ParentDir] + FromSegments(segs)
    ensures IsName(t) ==> FromSegments([t] + segs) == [Normal(t)] + FromSegments(segs)
  {
    assert ([t] + segs)[1..] == segs;
  }

  /** Written components are read again, except that single dots vanish. */
  lemma {:induction false} SegmentsOfPrint(p: Path)
    requires Proper(p)
    ensures FromSegments(Segments(Print(p))) == WithoutDots(p)
  {
    if p == [] {
      assert Segments([]) == [[]] + [];
      FromSegmentsCons([], []);
    } else {
      SegmentsOfPrint(p[1..]);
      assert p[0] in p;
      var word, rest := Word(p[0]), Print(p[1..]);
      PrintCons(p);
      SegmentsName(word, rest);
      hide FromSegments, Print, Segments;
      var tail := Segments(rest)[1..];
      assert Segments(rest) == [[]] + tail;
      FromSegmentsCons([], tail);
      FromSegmentsCons(word, tail);
      FromSegmentsCons([], [word] + tail);
    }
  }

  lemma PrintCons(p: Path)
    requires Relative(p) && p != []
    ensures p[0] in p && Relative(p[1..])
    ensures Segments(Print(p)) == [[]] + Segments(Word(p[0]) + Print(p[1..]))
    ensures Print(p[1..]) == [] || Print(p[1..])[0] == SLASH
  {
    assert p[0] in p;
    var t := Word(p[0]) + Print(p[1..]);
    assert Print(p) == [SLASH] + t && ([SLASH] + t)[1..] == t;
  }

  /** Parsing what is written for a root and components gives them back, without single dots. */
  lemma ParsePrinted(p: Path)
    requires Proper(p) && p != []
    ensures Print(p) != [] && Print(p)[0] == SLASH && Parse(Print(p)) == [RootDir] + WithoutDots(p)
  {
    SegmentsOfPrint(p);
    var t := Print(p);
    assert p[0] in p && t == [SLASH] + Word(p[0]) + Print(p[1..]);
    assert Segments(t) == [[]] + Segments(t[1..]);
    FromSegmentsCons([], Segments(t[1..]));
  }

  /** Parsing never yields a piece with a slash in it. */
  lemma {:induction false} SegmentsPlain(s: Text)
    ensures forall t :: t in Segments(s) ==> SLASH !in t
  {
    if s != [] {
      SegmentsPlain(s[1..]);
    }
  }

  lemma {:induction false} FromSegmentsProper(segs: seq<Text>)
    requires forall t :: t in segs ==> SLASH !in t
    ensures Relative(FromSegments(segs))
    ensures forall c :: c in FromSegments(segs) && c.Normal? ==> IsName(c.name)
  {
    if segs != [] {
      FromSegmentsProper(segs[1..]);
    }
  }

  lemma {:induction false} ResolveProper(out: Path, p: Path)
    requires forall c :: c in out + p && c.Normal? ==> IsName(c.name)
    ensures forall c :: c in Resolve(out, p) && c.Normal? ==> IsName(c.name)
    decreases |p|
  {
    if p != [] {
      forall c | c in Push(out, p[0]) + p[1..] && c.Normal? ensures IsName(c.name) {
        assert c in out + p;
      }
      ResolveProper(Push(out, p[0]), p[1..]);
    } else {
      assert out + p == out;
    }
  }

  /** The text of a normalised absolute Unix path; the root alone prints as a slash. */
  function NormalisedText(s: Text): Text
    requires s != [] && s[0] == SLASH
  {
    TextForm(s);
    var names := Normalised(Parse(s))[1..];
    if names == [] then [SLASH] else Print(names)
  }

  lemma TextForm(s: Text)
    requires s != [] && s[0] == SLASH
    ensures var r := Normalised(Parse(s)); r != [] && r[0] == RootDir && ProperNames(r[1..])
  {
    var segs := Segments(s[1..]);
    SegmentsPlain(s[1..]);
    FromSegmentsProper(segs);
    var p := Parse(s);
    assert Anchor(p) == [RootDir] && p[1..] == FromSegments(segs);
    NormalisedForm(p);
    ResolveProper([], p);
    var r := Normalised(p);
    assert r[0] == r[..1][0];
    forall c | c in r[1..] ensures IsName(c.name) {
      assert c in r && c in r[|NormalAnchor(p)|..];
    }
  }

  /** Printed and parsed again, a normalised path is itself, so on text too normalising is idempotent. */
  lemma TextIdempotent(s: Text)
    requires s != [] && s[0] == SLASH
    ensures var t := NormalisedText(s);
            t != [] && t[0] == SLASH && Parse(t) == Normalised(Parse(s)) && NormalisedText(t) == t
  {
    TextForm(s);
    var p := Parse(s);
    var r := Normalised(p);
    var names := r[1..];
    var t := NormalisedText(s);
    if names == [] {
      assert t[1..] == [] && Segments([]) == [[]] && FromSegments([[]]) == [];
    } else {
      ParsePrinted(names);
      NamesHaveNoDots(names);
    }
    assert r == [RootDir] + names;
    assert Parse(t) == r;
    SegmentsPlain(s[1..]);
    FromSegmentsProper(Segments(s[1..]));
    assert Anchor(p) == [RootDir] && p[1..] == FromSegments(Segments(s[1..]));
    Idempotent(p);
  }
}

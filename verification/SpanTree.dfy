/**
 Aggregation of a span tree: `Node::aggregate` in `crates/ark/src/logger_hprof.rs`. Siblings with
 the same name are merged at every level. What may not change is read off along paths of names:
 `Payloads` lists the spans on a path, and aggregating collapses each such list to one entry.
 */
module SpanTree {
  import opened Prelude
  import StableSort

  type Name = Text

  datatype Node = Node(name: Name, fields: Text, count: nat, duration: nat, children: seq<Node>)

  /** `Node::default()`, which `mem::take` leaves behind. */
  const DEFAULT_NODE := Node([], [], 0, 0, [])

  // ---------------------------------------------------------------- names

  /** Rust's order on strings: lexicographic on bytes. */
  predicate NameLeq(a: Name, b: Name) {
    a == [] || (b != [] && (a[0] < b[0] || (a[0] == b[0] && NameLeq(a[1..], b[1..]))))
  }

  /** That order decides at the first difference, the lower byte first; without one, the shorter name comes first. */
  lemma {:induction false} NameOrder(a: Name, b: Name, i: nat)
    requires i <= |a| && i <= |b| && a[..i] == b[..i]
    ensures i < |a| && i < |b| && a[i] != b[i] ==> (NameLeq(a, b) <==> a[i] < b[i])
    ensures i == |a| ==> NameLeq(a, b)
    ensures i == |b| < |a| ==> !NameLeq(a, b)
  {
    if i > 0 {
      assert a[0] == a[..i][0] == b[..i][0] == b[0];
      assert a[1..][..i - 1] == a[..i][1..] == b[..i][1..] == b[1..][..i - 1];
      NameOrder(a[1..], b[1..], i - 1);
    }
  }

  predicate NodeLeq(a: Node, b: Node) {
    NameLeq(a.name, b.name)
  }

  lemma {:induction false} NameTotal(a: Name, b: Name)
    ensures NameLeq(a, b) || NameLeq(b, a)
    ensures NameLeq(a, b) && NameLeq(b, a) ==> a == b
  {
    if a != [] && b != [] {
      assert a == [a[0]] + a[1..] && b == [b[0]] + b[1..];
      NameTotal(a[1..], b[1..]);
    }
  }

  lemma {:induction false} NameTransitive(a: Name, b: Name, c: Name)
    requires NameLeq(a, b) && NameLeq(b, c)
    ensures NameLeq(a, c)
  {
    if a != [] && a[0] == b[0] == c[0] {
      NameTransitive(a[1..], b[1..], c[1..]);
    }
  }

  lemma NodeOrder()
    ensures StableSort.TotalPreorder(NodeLeq)
  {
    forall x, y ensures NodeLeq(x, y) || NodeLeq(y, x) {
      NameTotal(x.name, y.name);
    }
    forall x, y, z | NodeLeq(x, y) && NodeLeq(y, z) ensures NodeLeq(x, z) {
      NameTransitive(x.name, y.name, z.name);
    }
  }

  /** Distinct names in increasing order. */
  ghost predicate StrictNames(s: seq<Node>) {
    forall i, j :: 0 <= i < j < |s| ==> NodeLeq(s[i], s[j]) && s[i].name != s[j].name
  }

  // ---------------------------------------------------------------- the functional view

  function SortByName(s: seq<Node>): (r: seq<Node>)
    ensures multiset(r) == multiset(s)
  {
    StableSort.Sort(s, NodeLeq)
  }

  function Absorb(a: Node, b: Node): Node {
    a.(duration := a.duration + b.duration, count := a.count + b.count, children := a.children + b.children)
  }

  /** Merge neighbours with the same name. */
  function MergeRuns(s: seq<Node>): seq<Node>
    decreases |s|
  {
    if |s| < 2 then s
    else if s[0].name == s[1].name then MergeRuns([Absorb(s[0], s[1])] + s[2..])
    else [s[0]] + MergeRuns(s[1..])
  }

  function Height(n: Node): nat {
    1 + MaxHeight(n.children)
  }

  function MaxHeight(s: seq<Node>): nat {
    if s == [] then 0 else Max(Height(s[0]), MaxHeight(s[1..]))
  }

  function Max(a: nat, b: nat): nat {
    if a < b then b else a
  }

  /** What `aggregate` makes of a node; the recursion is on heights, for merging lengthens child lists. */
  function Aggregated(n: Node): Node
    decreases Height(n), 0, 0
  {
    MergedHeight(n.children);
    n.(children := AggregatedAll(MergeRuns(SortByName(n.children))))
  }

  function AggregatedAll(s: seq<Node>): (r: seq<Node>)
    ensures |r| == |s|
    decreases MaxHeight(s), 1, |s|
  {
    if s == [] then [] else [Aggregated(s[0])] + AggregatedAll(s[1..])
  }

  // ---------------------------------------------------------------- termination

  lemma {:induction false} HeightBound(s: seq<Node>, m: nat)
    ensures MaxHeight(s) <= m <==> forall i :: 0 <= i < |s| ==> Height(s[i]) <= m
  {
    if s != [] {
      HeightBound(s[1..], m);
      if MaxHeight(s) <= m {
        forall i | 0 <= i < |s| ensures Height(s[i]) <= m {
          assert i > 0 ==> s[i] == s[1..][i - 1];
        }
      }
    }
  }

  lemma {:induction false} HeightConcat(a: seq<Node>, b: seq<Node>)
    ensures MaxHeight(a + b) == Max(MaxHeight(a), MaxHeight(b))
    decreases |a|
  {
    if a == [] {
      assert a + b == b;
    } else {
      assert (a + b)[1..] == a[1..] + b;
      HeightConcat(a[1..], b);
    }
  }

  lemma {:induction false} MergeHeight(s: seq<Node>)
    ensures MaxHeight(MergeRuns(s)) == MaxHeight(s)
    decreases |s|
  {
    if |s| < 2 {
    } else if s[0].name == s[1].name {
      var a := Absorb(s[0], s[1]);
      HeightConcat(s[0].children, s[1].children);
      assert ([a] + s[2..])[1..] == s[2..] == s[1..][1..];
      assert MaxHeight(s[1..]) == Max(Height(s[1]), MaxHeight(s[2..]));
      assert MaxHeight([a] + s[2..]) == Max(Height(a), MaxHeight(s[2..]));
      MergeHeight([a] + s[2..]);
    } else {
      MergeHeight(s[1..]);
      assert ([s[0]] + MergeRuns(s[1..]))[1..] == MergeRuns(s[1..]);
    }
  }

  lemma SameHeight(s: seq<Node>, t: seq<Node>)
    requires multiset(s) == multiset(t)
    ensures MaxHeight(s) <= MaxHeight(t)
  {
    HeightBound(t, MaxHeight(t));
    forall i | 0 <= i < |s| ensures Height(s[i]) <= MaxHeight(t) {
      assert s[i] in multiset(t);
      var j :| 0 <= j < |t| && t[j] == s[i];
    }
    HeightBound(s, MaxHeight(t));
  }

  /** Merging a level never makes it taller. */
  lemma MergedHeight(s: seq<Node>)
    ensures MaxHeight(MergeRuns(SortByName(s))) == MaxHeight(s)
  {
    var sorted := SortByName(s);
    MergeHeight(sorted);
    SameHeight(s, sorted);
    SameHeight(sorted, s);
  }

  // ---------------------------------------------------------------- the program

  lemma {:induction false} AggregatedAllAt(s: seq<Node>, t: seq<Node>)
    requires |s| == |t| && forall i :: 0 <= i < |s| ==> t[i] == Aggregated(s[i])
    ensures t == AggregatedAll(s)
  {
    if s != [] {
      forall i | 0 <= i < |s[1..]| ensures t[1..][i] == Aggregated(s[1..][i]) {
        assert t[i + 1] == Aggregated(s[i + 1]);
      }
      AggregatedAllAt(s[1..], t[1..]);
      assert t == [t[0]] + t[1..];
    }
  }

  /** What the merging loop keeps: `children[..idx]` is final, and `children[i..]` is still to come. */
  ghost predicate Merging(sorted: seq<Node>, children: seq<Node>, idx: nat, i: nat) {
    && |children| == |sorted| && idx < i <= |sorted|
    && children[i..] == sorted[i..]
    && MergeRuns(sorted) == children[..idx] + MergeRuns([children[idx]] + sorted[i..])
  }

  lemma MergeTwo(a: Node, b: Node, rest: seq<Node>)
    ensures a.name == b.name ==> MergeRuns([a] + ([b] + rest)) == MergeRuns([Absorb(a, b)] + rest)
    ensures a.name != b.name ==> MergeRuns([a] + ([b] + rest)) == [a] + MergeRuns([b] + rest)
  {
    var s := [a] + ([b] + rest);
    assert s[0] == a && s[1] == b && s[1..] == [b] + rest && s[2..] == rest;
  }

  lemma NextOf(sorted: seq<Node>, children: seq<Node>, i: nat)
    requires |children| == |sorted| && i < |sorted| && children[i..] == sorted[i..]
    ensures sorted[i..] == [children[i]] + sorted[i + 1..] && children[i + 1..] == sorted[i + 1..]
  {
    assert children[i] == children[i..][0] && children[i + 1..] == children[i..][1..];
  }

  lemma MergingAbsorb(sorted: seq<Node>, before: seq<Node>, after: seq<Node>, idx: nat, i: nat)
    requires Merging(sorted, before, idx, i) && i < |sorted| && before[idx].name == before[i].name
    requires after == before[i := DEFAULT_NODE][idx := Absorb(before[idx], before[i])]
    ensures Merging(sorted, after, idx, i + 1)
  {
    hide MergeRuns, Absorb;
    NextOf(sorted, before, i);
    MergeTwo(before[idx], before[i], sorted[i + 1..]);
    assert after[..idx] == before[..idx] && after[i + 1..] == before[i + 1..];
  }

  lemma MergingSwap(sorted: seq<Node>, before: seq<Node>, after: seq<Node>, idx: nat, i: nat)
    requires Merging(sorted, before, idx, i) && i < |sorted| && before[idx].name != before[i].name
    requires after == before[idx + 1 := before[i]][i := before[idx + 1]]
    ensures Merging(sorted, after, idx + 1, i + 1)
  {
    hide MergeRuns;
    NextOf(sorted, before, i);
    MergeTwo(before[idx], before[i], sorted[i + 1..]);
    assert after[idx + 1] == before[i] && after[i + 1..] == before[i + 1..];
    assert after[..idx + 1] == before[..idx] + [before[idx]];
    var rest := MergeRuns([before[i]] + sorted[i + 1..]);
    assert before[..idx] + ([before[idx]] + rest) == (before[..idx] + [before[idx]]) + rest;
  }

  lemma MergingStart(sorted: seq<Node>)
    requires sorted != []
    ensures Merging(sorted, sorted, 0, 1)
  {
    assert [sorted[0]] + sorted[1..] == sorted;
  }

  lemma MergingEnd(sorted: seq<Node>, children: seq<Node>, idx: nat)
    requires Merging(sorted, children, idx, |sorted|)
    ensures children[..idx + 1] == MergeRuns(sorted)
  {
    assert sorted[|sorted|..] == [];
    assert MergeRuns([children[idx]]) == [children[idx]];
    assert children[..idx + 1] == children[..idx] + [children[idx]];
  }

  /** The merging loop of `Node::aggregate`, in place. */
  method MergeSiblings(sorted: seq<Node>) returns (children: seq<Node>)
    requires sorted != []
    ensures children == MergeRuns(sorted)
  {
    children := sorted;
    var idx: nat := 0;
    MergingStart(sorted);
    for i := 1 to |children|
      invariant |children| == |sorted| && idx < i
      invariant Merging(sorted, children, idx, i)
    {
      hide Merging;
      ghost var before := children;
      if children[idx].name == children[i].name {
        var child := children[i];
        children := children[i := DEFAULT_NODE];
        children := children[idx := Absorb(children[idx], child)];
        MergingAbsorb(sorted, before, children, idx, i);
      } else {
        idx := idx + 1;
        assert idx <= i;
        children := children[idx := children[i]][i := children[idx]];
        MergingSwap(sorted, before, children, idx - 1, i);
      }
    }
    MergingEnd(sorted, children, idx);
    children := children[..idx + 1];
  }

  /** `Node::aggregate`. */
  method Aggregate(node: Node) returns (r: Node)
    ensures r == Aggregated(node)
    decreases Height(node)
  {
    if node.children == [] {
      return node;
    }
    var sorted := SortByName(node.children);
    assert |multiset(sorted)| == |multiset(node.children)|;
    var children := MergeSiblings(sorted);
    ghost var merged := children;
    MergedHeight(node.children);
    HeightBound(merged, MaxHeight(merged));
    for i := 0 to |children|
      invariant |children| == |merged|
      invariant forall j :: i <= j < |merged| ==> children[j] == merged[j]
      invariant forall j :: 0 <= j < i ==> children[j] == Aggregated(merged[j])
    {
      var child := Aggregate(children[i]);
      children := children[i := child];
    }
    AggregatedAllAt(merged, children);
    r := node.(children := children);
  }

  // ---------------------------------------------------------------- paths

  datatype Payload = Payload(fields: Text, duration: nat, count: nat)

  function PayloadOf(n: Node): Payload {
    Payload(n.fields, n.duration, n.count)
  }

  /** The spans on a path of names, from left to right. */
  function Payloads(s: seq<Node>, path: seq<Name>): seq<Payload>
    requires path != []
    decreases |path|, |s|
  {
    if s == [] then []
    else PayloadsUnder(s[0], path) + Payloads(s[1..], path)
  }

  function PayloadsUnder(n: Node, path: seq<Name>): seq<Payload>
    requires path != []
    decreases |path|, 0
  {
    if n.name != path[0] then []
    else if |path| == 1 then [PayloadOf(n)]
    else Payloads(n.children, path[1..])
  }

  function TotalDuration(ps: seq<Payload>): nat {
    if ps == [] then 0 else ps[0].duration + TotalDuration(ps[1..])
  }

  function TotalCount(ps: seq<Payload>): nat {
    if ps == [] then 0 else ps[0].count + TotalCount(ps[1..])
  }

  /** One entry for a path: the fields of its first span, the total duration and the total count. */
  function Collapse(ps: seq<Payload>): seq<Payload> {
    if ps == [] then [] else [Payload(ps[0].fields, TotalDuration(ps), TotalCount(ps))]
  }

  lemma {:induction false} PayloadsConcat(a: seq<Node>, b: seq<Node>, path: seq<Name>)
    requires path != []
    ensures Payloads(a + b, path) == Payloads(a, path) + Payloads(b, path)
    decreases |a|
  {
    if a == [] {
      assert a + b == b;
    } else {
      assert (a + b)[1..] == a[1..] + b;
      PayloadsConcat(a[1..], b, path);
    }
  }

  lemma {:induction false} PayloadsNone(s: seq<Node>, path: seq<Name>)
    requires path != [] && forall n :: n in s ==> n.name != path[0]
    ensures Payloads(s, path) == []
  {
    if s != [] {
      PayloadsNone(s[1..], path);
    }
  }

  /** Only the siblings named like the first step of the path matter. */
  lemma {:induction false} PayloadsOfClass(s: seq<Node>, k: Node, path: seq<Name>)
    requires path != [] && k.name == path[0]
    ensures Payloads(s, path) == Payloads(StableSort.Class(s, k, NodeLeq), path)
    decreases |s|
  {
    if s != [] {
      PayloadsOfClass(s[1..], k, path);
      NameTotal(s[0].name, k.name);
      var head := if NodeLeq(s[0], k) && NodeLeq(k, s[0]) then [s[0]] else [];
      PayloadsConcat(head, StableSort.Class(s[1..], k, NodeLeq), path);
      assert head == [] ==> s[0].name != k.name;
      assert [s[0]][1..] == [];
    }
  }

  lemma SortPaths(s: seq<Node>, path: seq<Name>)
    requires path != []
    ensures Payloads(SortByName(s), path) == Payloads(s, path)
  {
    NodeOrder();
    StableSort.SortIsStable(s, NodeLeq);
    var k := DEFAULT_NODE.(name := path[0]);
    PayloadsOfClass(s, k, path);
    PayloadsOfClass(SortByName(s), k, path);
    assert StableSort.Class(SortByName(s), k, NodeLeq) == StableSort.Class(s, k, NodeLeq);
  }

  lemma AbsorbPaths(a: Node, b: Node, path: seq<Name>)
    requires path != [] && a.name == b.name
    ensures |path| > 1 ==> PayloadsUnder(Absorb(a, b), path) == PayloadsUnder(a, path) + PayloadsUnder(b, path)
    ensures |path| == 1 && a.name == path[0] ==>
            PayloadsUnder(Absorb(a, b), path) == Collapse(PayloadsUnder(a, path) + PayloadsUnder(b, path))
  {
    if |path| > 1 && a.name == path[0] {
      PayloadsConcat(a.children, b.children, path[1..]);
    } else if a.name == path[0] {
      assert ([PayloadOf(a)] + [PayloadOf(b)])[1..] == [PayloadOf(b)];
      assert TotalDuration([PayloadOf(b)]) == b.duration && TotalCount([PayloadOf(b)]) == b.count;
    }
  }

  lemma TotalCons(a: Payload, ps: seq<Payload>)
    ensures TotalDuration([a] + ps) == a.duration + TotalDuration(ps)
    ensures TotalCount([a] + ps) == a.count + TotalCount(ps)
  {
    assert ([a] + ps)[1..] == ps;
  }

  /** Collapsing a front part first makes no difference. */
  lemma CollapseTwice(a: Payload, b: Payload, rest: seq<Payload>)
    ensures Collapse(Collapse([a, b]) + rest) == Collapse([a, b] + rest)
  {
    assert [a, b] == [a] + ([b] + []) && [a, b] + rest == [a] + ([b] + rest);
    TotalCons(a, [b] + []);
    TotalCons(b, []);
    TotalCons(a, [b] + rest);
    TotalCons(b, rest);
    TotalCons(Collapse([a, b])[0], rest);
  }

  lemma CollapseCons(a: Payload, p: seq<Payload>, q: seq<Payload>)
    requires Collapse(p) == Collapse(q)
    ensures Collapse([a] + p) == Collapse([a] + q)
  {
    TotalCons(a, p);
    TotalCons(a, q);
    if p != [] { assert Collapse(p)[0] == Collapse(q)[0]; }
  }

  lemma PayloadsCons(a: Node, s: seq<Node>, path: seq<Name>)
    requires path != []
    ensures Payloads([a] + s, path) == PayloadsUnder(a, path) + Payloads(s, path)
    ensures a.name != path[0] ==> Payloads([a] + s, path) == Payloads(s, path)
    ensures a.name == path[0] && |path| == 1 ==> Payloads([a] + s, path) == [PayloadOf(a)] + Payloads(s, path)
  {
    assert ([a] + s)[1..] == s;
  }

  lemma AbsorbInFront(a: Node, b: Node, rest: seq<Node>, path: seq<Name>)
    requires path != [] && a.name == b.name
    ensures |path| > 1 ==> Payloads([Absorb(a, b)] + rest, path) == Payloads([a] + ([b] + rest), path)
    ensures |path| == 1 ==>
            Collapse(Payloads([Absorb(a, b)] + rest, path)) == Collapse(Payloads([a] + ([b] + rest), path))
  {
    hide Payloads, Collapse;
    PayloadsCons(Absorb(a, b), rest, path);
    PayloadsCons(a, [b] + rest, path);
    PayloadsCons(b, rest, path);
    AbsorbPaths(a, b, path);
    var tail := Payloads(rest, path);
    if |path| > 1 {
      assert PayloadsUnder(a, path) + (PayloadsUnder(b, path) + tail)
          == (PayloadsUnder(a, path) + PayloadsUnder(b, path)) + tail;
    } else if a.name == path[0] {
      assert [PayloadOf(a)] + [PayloadOf(b)] == [PayloadOf(a), PayloadOf(b)];
      CollapseTwice(PayloadOf(a), PayloadOf(b), tail);
      assert [PayloadOf(a), PayloadOf(b)] + tail == [PayloadOf(a)] + ([PayloadOf(b)] + tail);
    }
  }

  lemma {:induction false} MergePaths(s: seq<Node>, path: seq<Name>)
    requires path != []
    ensures |path| > 1 ==> Payloads(MergeRuns(s), path) == Payloads(s, path)
    ensures |path| == 1 ==> Collapse(Payloads(MergeRuns(s), path)) == Collapse(Payloads(s, path))
    decreases |s|
  {
    hide Payloads, Collapse;
    if |s| < 2 {
    } else if s[0].name == s[1].name {
      assert s == [s[0]] + ([s[1]] + s[2..]);
      MergePaths([Absorb(s[0], s[1])] + s[2..], path);
      AbsorbInFront(s[0], s[1], s[2..], path);
    } else {
      MergePaths(s[1..], path);
      assert s == [s[0]] + s[1..];
      PayloadsCons(s[0], MergeRuns(s[1..]), path);
      PayloadsCons(s[0], s[1..], path);
      if |path| == 1 && s[0].name == path[0] {
        CollapseCons(PayloadOf(s[0]), Payloads(MergeRuns(s[1..]), path), Payloads(s[1..], path));
      }
    }
  }

  lemma {:induction false} MergeNames(s: seq<Node>)
    ensures forall n :: n in MergeRuns(s) ==> exists m :: m in s && m.name == n.name
    ensures s != [] ==> MergeRuns(s) != [] && MergeRuns(s)[0].name == s[0].name
    decreases |s|
  {
    if |s| < 2 {
    } else if s[0].name == s[1].name {
      var t := [Absorb(s[0], s[1])] + s[2..];
      MergeNames(t);
      forall n | n in MergeRuns(s) ensures exists m :: m in s && m.name == n.name {
        var m :| m in t && m.name == n.name;
        assert m == t[0] || m in s;
        assert s[0] in s;
      }
    } else {
      MergeNames(s[1..]);
      forall n | n in MergeRuns(s) ensures exists m :: m in s && m.name == n.name {
        if n in MergeRuns(s[1..]) {
          var m :| m in s[1..] && m.name == n.name;
          assert m in s;
        } else {
          assert s[0] in s;
        }
      }
    }
  }

  /** After sorting and merging, siblings have distinct names in increasing order. */
  lemma {:induction false} MergeStrict(s: seq<Node>)
    requires StableSort.Sorted(s, NodeLeq)
    ensures StrictNames(MergeRuns(s))
    decreases |s|
  {
    if |s| < 2 {
    } else if s[0].name == s[1].name {
      var t := [Absorb(s[0], s[1])] + s[2..];
      forall i, j | 0 <= i < j < |t| ensures NodeLeq(t[i], t[j]) {
        assert NodeLeq(s[if i == 0 then 0 else i + 1], s[j + 1]);
      }
      MergeStrict(t);
    } else {
      var rest := MergeRuns(s[1..]);
      MergeStrict(s[1..]);
      MergeNames(s[1..]);
      forall n | n in rest ensures NodeLeq(s[0], n) && s[0].name != n.name {
        var m :| m in s[1..] && m.name == n.name;
        var j :| 1 <= j < |s| && s[j] == m;
        NameTotal(s[0].name, s[1].name);
        assert NodeLeq(s[0], s[1]) && NodeLeq(s[0], s[j]) && (j > 1 ==> NodeLeq(s[1], s[j]));
      }
    }
  }

  lemma StrictTail(s: seq<Node>, path: seq<Name>)
    requires path != [] && s != [] && StrictNames(s)
    ensures StrictNames(s[1..])
    ensures s[0].name == path[0] ==> Payloads(s[1..], path) == [] && Payloads(s, path) == PayloadsUnder(s[0], path)
    ensures s[0].name != path[0] ==> Payloads(s, path) == Payloads(s[1..], path)
  {
    if s[0].name == path[0] {
      PayloadsNone(s[1..], path);
    }
  }

  lemma {:induction false} AggregatedNames(s: seq<Node>)
    requires StrictNames(s)
    ensures StrictNames(AggregatedAll(s))
    ensures s != [] ==> AggregatedAll(s)[0] == Aggregated(s[0]) && AggregatedAll(s)[1..] == AggregatedAll(s[1..])
  {
    if s != [] {
      AggregatedNames(s[1..]);
      var rest := AggregatedAll(s[1..]);
      AggregatedName(s[1..]);
      assert AggregatedAll(s)[1..] == rest;
    }
  }

  lemma {:induction false} AggregatedName(s: seq<Node>)
    ensures forall i :: 0 <= i < |s| ==> AggregatedAll(s)[i].name == s[i].name
  {
    if s != [] {
      AggregatedName(s[1..]);
    }
  }

  /** On distinct siblings a path has at most one first step. */
  lemma {:induction false} AggregatedPaths(s: seq<Node>, path: seq<Name>)
    requires path != [] && StrictNames(s)
    ensures Payloads(AggregatedAll(s), path) ==
            if |path| == 1 then Payloads(s, path) else Collapse(Payloads(s, path))
    decreases |path|, 0, |s|
  {
    if s != [] {
      hide Payloads, Collapse, StrictNames, Height, MaxHeight;
      StrictTail(s, path);
      AggregatedNames(s);
      StrictTail(AggregatedAll(s), path);
      AggregatedPaths(s[1..], path);
      if s[0].name == path[0] && |path| > 1 {
        AggregateCollapses(s[0], path[1..]);
      }
    }
  }

  /**
   The law of aggregation: below the root, every path carries after aggregation exactly one span
   if it carried any before, with the first span's fields and the total duration and count.
   */
  lemma {:induction false} AggregateCollapses(n: Node, path: seq<Name>)
    requires path != []
    ensures Payloads(Aggregated(n).children, path) == Collapse(Payloads(n.children, path))
    decreases |path|, 1, 0
  {
    var sorted := SortByName(n.children);
    var merged := MergeRuns(sorted);
    NodeOrder();
    StableSort.SortIsStable(n.children, NodeLeq);
    MergeStrict(sorted);
    SortPaths(n.children, path);
    MergePaths(sorted, path);
    if |path| == 1 {
      AtMostOne(merged, path);
    }
    AggregatedPaths(merged, path);
  }

  lemma CollapseSingle(p: Payload)
    ensures Collapse([p]) == [p] && Collapse([]) == []
  {
    TotalCons(p, []);
    assert [p] + [] == [p];
  }

  lemma {:induction false} AtMostOne(s: seq<Node>, path: seq<Name>)
    requires |path| == 1 && StrictNames(s)
    ensures Collapse(Payloads(s, path)) == Payloads(s, path)
  {
    if s != [] {
      hide Payloads, Collapse, StrictNames;
      StrictTail(s, path);
      AtMostOne(s[1..], path);
      CollapseSingle(PayloadOf(s[0]));
    }
  }

  // ---------------------------------------------------------------- canonical form

  /** At every level siblings have distinct names in increasing order. */
  ghost predicate Canonical(s: seq<Node>)
    decreases MaxHeight(s), |s|
  {
    HeightBound(s, MaxHeight(s));
    StrictNames(s) && forall i :: 0 <= i < |s| ==> Canonical(s[i].children)
  }

  lemma {:induction false} AllCanonical(s: seq<Node>)
    requires StrictNames(s)
    ensures Canonical(AggregatedAll(s))
    decreases MaxHeight(s), 0, |s|
  {
    AggregatedNames(s);
    if s != [] {
      var t := AggregatedAll(s);
      StrictTail(s, [[]]);
      AllCanonical(s[1..]);
      assert MaxHeight(s[0].children) < Height(s[0]) <= MaxHeight(s);
      AggregatedCanonical(s[0]);
      forall i | 0 <= i < |t| ensures Canonical(t[i].children) {
        assert t[i] == if i == 0 then Aggregated(s[0]) else t[1..][i - 1];
      }
    }
  }

  /** The result of `aggregate` is canonical all the way down. */
  lemma {:induction false} AggregatedCanonical(n: Node)
    ensures Canonical(Aggregated(n).children)
    decreases MaxHeight(n.children), 1, 0
  {
    NodeOrder();
    StableSort.SortIsStable(n.children, NodeLeq);
    MergeStrict(SortByName(n.children));
    MergedHeight(n.children);
    AllCanonical(MergeRuns(SortByName(n.children)));
  }

  lemma PayloadsSingle(s: seq<Node>, n: Node)
    requires StrictNames(s) && s != [] && n == s[0]
    ensures Payloads(s, [n.name]) == [PayloadOf(n)]
    ensures forall p: seq<Name> :: p != [] ==> Payloads(s, [n.name] + p) == Payloads(n.children, p)
  {
    StrictTail(s, [n.name]);
    forall p: seq<Name> | p != [] ensures Payloads(s, [n.name] + p) == Payloads(n.children, p) {
      StrictTail(s, [n.name] + p);
      assert ([n.name] + p)[1..] == p;
    }
  }

  lemma SameFirstName(a: seq<Node>, b: seq<Node>)
    requires StrictNames(a) && StrictNames(b) && a != []
    requires forall path: seq<Name> :: path != [] ==> Payloads(a, path) == Payloads(b, path)
    ensures b != [] && NodeLeq(b[0], a[0])
  {
    PayloadsSingle(a, a[0]);
    if forall n :: n in b ==> n.name != a[0].name {
      PayloadsNone(b, [a[0].name]);
    } else {
      var i :| 0 <= i < |b| && b[i].name == a[0].name;
      NameTotal(b[0].name, b[0].name);
    }
  }

  /**
   Canonical forests with the same payloads on every path are the same. With `AggregateCollapses`
   and `AggregatedCanonical` this fixes the result of `aggregate` completely.
   */
  lemma {:induction false} CanonicalUnique(a: seq<Node>, b: seq<Node>)
    requires Canonical(a) && Canonical(b)
    requires forall path: seq<Name> :: path != [] ==> Payloads(a, path) == Payloads(b, path)
    ensures a == b
    decreases MaxHeight(a), |a|
  {
    if a == [] {
      if b != [] { SameFirstName(b, a); }
    } else {
      SameFirstName(a, b);
      SameFirstName(b, a);
      NameTotal(a[0].name, b[0].name);
      PayloadsSingle(a, a[0]);
      PayloadsSingle(b, b[0]);
      forall path: seq<Name> | path != [] ensures Payloads(a[0].children, path) == Payloads(b[0].children, path) {
        assert Payloads(a, [a[0].name] + path) == Payloads(b, [a[0].name] + path);
      }
      assert MaxHeight(a[0].children) < Height(a[0]) <= MaxHeight(a);
      CanonicalUnique(a[0].children, b[0].children);
      forall path: seq<Name> | path != [] ensures Payloads(a[1..], path) == Payloads(b[1..], path) {
        StrictTail(a, path);
        StrictTail(b, path);
        assert Payloads(a, path) == Payloads(b, path);
      }
      CanonicalTail(a);
      CanonicalTail(b);
      CanonicalUnique(a[1..], b[1..]);
      assert Payloads(a, [a[0].name]) == Payloads(b, [a[0].name]);
      assert a == [a[0]] + a[1..] && b == [b[0]] + b[1..];
    }
  }

  lemma CanonicalTail(s: seq<Node>)
    requires Canonical(s) && s != []
    ensures Canonical(s[1..]) && Canonical(s[0].children)
  {
    forall i | 0 <= i < |s[1..]| ensures Canonical(s[1..][i].children) {
      assert s[1..][i] == s[i + 1];
    }
  }
}

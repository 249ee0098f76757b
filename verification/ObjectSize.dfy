/**
 Size of an R object: `obj_size_tree` and `v_size` in `crates/harp/src/size.rs`, a depth-bounded
 walk over an object graph that may be cyclic. The walk is compared with a sum of local costs over
 the objects reachable by its own recursive calls.
 */
module ObjectSize {
  import opened Prelude

  const MAX_DEPTH := 500
  /** `size_of::<SEXP>()` and `size_of::<*mut c_void>()`. */
  const POINTER_SIZE := 8
  const INT_SIZE := 4
  const DOUBLE_SIZE := 8
  const COMPLEX_SIZE := 16

  /** An R object's address; `NULL` is the null pointer. */
  type Ref = nat
  const NULL: Ref := 0

  datatype Kind =
    | Nil | Special | Builtin
    | Logical(length: nat) | Integer(length: nat) | Real(length: nat) | Complex(length: nat) | Raw(length: nat)
    | Char(length: nat)
    | Str(elements: seq<Ref>) | List(elements: seq<Ref>) | Expr(elements: seq<Ref>) | WeakRef(elements: seq<Ref>)
    | Cons(tag: Ref, car: Ref, cdr: Ref)  // DOTSXP, LISTSXP and LANGSXP
    | Bytecode(tag: Ref, car: Ref, cdr: Ref)
    | Env(bindings: seq<Ref>, parent: Ref, namespace: bool)
    | Closure(formals: Ref, body: Ref, env: Ref)
    | Promise(value: Ref, code: Ref, env: Ref)
    | ExternalPtr(prot: Ref, tag: Ref)
    | S4(tag: Ref)
    | Symbol | Other

  datatype Altrep = Altrep(class_: Ref, data1: Ref, data2: Ref)

  datatype Obj = Obj(kind: Kind, altrep: Option<Altrep>, attributes: seq<(Ref, Ref)>)

  /** The objects, with a rank that falls along CDR links: CDR chains, and only they, are acyclic. */
  datatype Heap = Heap(objects: map<Ref, Obj>, cdrRank: map<Ref, nat>)

  /** The two sizes asked of R, the missing-argument marker and the environments not descended into. */
  datatype Config = Config(node: nat, vector: nat, missingArg: Ref, terminalEnvs: set<Ref>)

  // ---------------------------------------------------------------- allocation classes

  function Ceil(x: real): int {
    -((-x).Floor)
  }

  /** `v_size`: the bytes R allocates for the data of a vector. */
  function VSize(n: nat, elementSize: nat): nat
    requires elementSize > 0
  {
    if n == 0 then 0
    else
      var elementsPerByte := 8.0 / elementSize as real;
      var words := Ceil(n as real / elementsPerByte);
      if words > 16 then words * 8
      else if words > 8 then 128
      else if words > 6 then 64
      else if words > 4 then 48
      else if words > 2 then 32
      else if words > 1 then 16
      else if words > 0 then 8
      else 0
  }

  /** The sizes R allocates: small classes, then any number of words. */
  predicate AllocationClass(m: nat) {
    m in {0, 8, 16, 32, 48, 64, 128} || (m > 128 && m % 8 == 0)
  }

  lemma WordsNeeded(n: nat, elementSize: nat)
    requires elementSize in {1, INT_SIZE, DOUBLE_SIZE, COMPLEX_SIZE}
    ensures var words := Ceil(n as real / (8.0 / elementSize as real));
            8 * (words - 1) < n * elementSize <= 8 * words
  {
    var x := n as real / (8.0 / elementSize as real);
    if elementSize == 1 {
      assert x * 8.0 == n as real;
    } else if elementSize == 4 {
      assert x * 2.0 == n as real;
    } else if elementSize == 8 {
      assert x == n as real;
    } else {
      assert x == n as real * 2.0;
    }
    var f := (-x).Floor;
    assert f as real <= -x < f as real + 1.0;
  }

  /** `v_size` is the least allocation class that holds the data. */
  lemma VSizeIsLeastClass(n: nat, elementSize: nat)
    requires elementSize in {1, INT_SIZE, DOUBLE_SIZE, COMPLEX_SIZE}
    ensures AllocationClass(VSize(n, elementSize)) && n * elementSize <= VSize(n, elementSize)
    ensures forall m: nat :: AllocationClass(m) && n * elementSize <= m ==> VSize(n, elementSize) <= m
  {
    WordsNeeded(n, elementSize);
  }

  // ---------------------------------------------------------------- the graph of recursive calls

  predicate IsCons(h: Heap, x: Ref) {
    x in h.objects && h.objects[x].kind.Cons?
  }

  /** Whether the walk enters `x` at all. */
  predicate Eligible(h: Heap, x: Ref) {
    x in h.objects && !h.objects[x].kind.Nil? && !h.objects[x].kind.Special? && !h.objects[x].kind.Builtin?
  }

  predicate IsTerminal(cfg: Config, h: Heap, x: Ref)
    requires x in h.objects
  {
    h.objects[x].altrep.None? && h.objects[x].kind.Env? && (x in cfg.terminalEnvs || h.objects[x].kind.namespace)
  }

  ghost predicate WellFormed(h: Heap) {
    && NULL !in h.objects
    && forall x :: IsCons(h, x) ==>
         && x in h.cdrRank && h.objects[x].kind.cdr in h.objects
         && (IsCons(h, h.objects[x].kind.cdr) ==>
               h.objects[x].kind.cdr in h.cdrRank && h.cdrRank[h.objects[x].kind.cdr] < h.cdrRank[x])
  }

  function AttributeEdges(attributes: seq<(Ref, Ref)>): seq<Ref> {
    if attributes == [] then []
    else [attributes[0].0, attributes[0].1] + AttributeEdges(attributes[1..])
  }

  /** The calls of the cons-cell loop: each TAG and CAR, then the CDR that ends the chain. */
  function ConsEdges(h: Heap, x: Ref): seq<Ref>
    requires WellFormed(h) && IsCons(h, x)
    decreases h.cdrRank[x]
  {
    var k := h.objects[x].kind;
    [k.tag, k.car] + if IsCons(h, k.cdr) then ConsEdges(h, k.cdr) else [k.cdr]
  }

  /** The number of cells of the chain at `x`. Those after the first are charged, but not entered. */
  function ConsCells(h: Heap, x: Ref): nat
    requires WellFormed(h) && IsCons(h, x)
    decreases h.cdrRank[x]
  {
    1 + if IsCons(h, h.objects[x].kind.cdr) then ConsCells(h, h.objects[x].kind.cdr) else 0
  }

  function KindEdges(cfg: Config, h: Heap, x: Ref): seq<Ref>
    requires WellFormed(h) && x in h.objects
  {
    match h.objects[x].kind
    case Str(elements) => elements
    case List(elements) => elements
    case Expr(elements) => elements
    case WeakRef(elements) => elements
    case Cons(_, _, _) => if x == cfg.missingArg then [] else ConsEdges(h, x)
    case Bytecode(tag, car, cdr) => [tag, car, cdr]
    case Env(bindings, parent, _) => if IsTerminal(cfg, h, x) then [] else bindings + [parent]
    case Closure(formals, body, env) => [formals, body, env]
    case Promise(value, code, env) => [value, code, env]
    case ExternalPtr(prot, tag) => [prot, tag]
    case S4(tag) => [tag]
    case _ => []
  }

  /** The recursive calls made for `x`, in order. */
  function Edges(cfg: Config, h: Heap, x: Ref): seq<Ref>
    requires WellFormed(h) && x in h.objects
  {
    var o := h.objects[x];
    match o.altrep
    case Some(a) => [a.class_, a.data1, a.data2]
    case None => (if o.kind.Char? then [] else AttributeEdges(o.attributes)) + KindEdges(cfg, h, x)
  }

  function BaseCost(cfg: Config, o: Obj): nat {
    match o.kind
    case Logical(_) | Integer(_) | Real(_) | Complex(_) | Raw(_) | Str(_) | List(_) | Expr(_) | Char(_) => cfg.vector
    case _ => cfg.node
  }

  function KindCost(cfg: Config, h: Heap, x: Ref): nat
    requires WellFormed(h) && x in h.objects
  {
    match h.objects[x].kind
    case Logical(n) => VSize(n, INT_SIZE)
    case Integer(n) => VSize(n, INT_SIZE)
    case Real(n) => VSize(n, DOUBLE_SIZE)
    case Complex(n) => VSize(n, COMPLEX_SIZE)
    case Raw(n) => VSize(n, 1)
    case Char(n) => VSize(n + 1, 1)
    case Str(elements) => VSize(|elements|, POINTER_SIZE)
    case List(elements) => VSize(|elements|, POINTER_SIZE)
    case Expr(elements) => VSize(|elements|, POINTER_SIZE)
    case WeakRef(elements) => VSize(|elements|, POINTER_SIZE)
    case Cons(_, _, _) => if x == cfg.missingArg then 0 else cfg.node * (ConsCells(h, x) - 1)
    case Env(bindings, _, _) => cfg.node * |bindings|
    case ExternalPtr(_, _) => POINTER_SIZE
    case _ => 0
  }

  /** What `x` alone adds to the size. */
  function LocalCost(cfg: Config, h: Heap, x: Ref): nat
    requires WellFormed(h) && x in h.objects
  {
    var o := h.objects[x];
    if o.altrep.Some? then BaseCost(cfg, o) + 3 * POINTER_SIZE
    else if IsTerminal(cfg, h, x) then 0
    else BaseCost(cfg, o) + (if o.kind.Char? then 0 else cfg.node * |o.attributes|) + KindCost(cfg, h, x)
  }

  /** A list of `n` cells with nothing on them costs `n` nodes. */
  lemma {:induction false} ListCost(cfg: Config, h: Heap, x: Ref)
    requires WellFormed(h) && IsCons(h, x) && x != cfg.missingArg
    requires h.objects[x].altrep.None? && h.objects[x].attributes == []
    ensures LocalCost(cfg, h, x) == cfg.node * ConsCells(h, x)
  {
    var n := ConsCells(h, x) - 1;
    AddNode(cfg.node, n);
    assert cfg.node * |h.objects[x].attributes| == 0;
  }

  /** What objects cost, in bytes: a vector its header and its data, anything else a node, and a node an attribute. */
  lemma CostsSpelled(cfg: Config, h: Heap, x: Ref)
    requires WellFormed(h) && x in h.objects && h.objects[x].altrep.None?
    ensures var cost, more := LocalCost(cfg, h, x), cfg.node * |h.objects[x].attributes|;
            match h.objects[x].kind
            case Logical(n) => cost == cfg.vector + more + VSize(n, 4)
            case Integer(n) => cost == cfg.vector + more + VSize(n, 4)
            case Real(n) => cost == cfg.vector + more + VSize(n, 8)
            case Complex(n) => cost == cfg.vector + more + VSize(n, 16)
            case Raw(n) => cost == cfg.vector + more + VSize(n, 1)
            case Char(n) => cost == cfg.vector + VSize(n + 1, 1)
            case Str(e) => cost == cfg.vector + more + VSize(|e|, 8)
            case List(e) => cost == cfg.vector + more + VSize(|e|, 8)
            case Expr(e) => cost == cfg.vector + more + VSize(|e|, 8)
            case WeakRef(e) => cost == cfg.node + more + VSize(|e|, 8)
            case Env(b, _, namespace) =>
              cost == if x in cfg.terminalEnvs || namespace then 0 else cfg.node + more + cfg.node * |b|
            case ExternalPtr(_, _) => cost == cfg.node + more + 8
            case Cons(_, _, _) =>
              cost == cfg.node + more + if x == cfg.missingArg then 0 else cfg.node * (ConsCells(h, x) - 1)
            case _ => cost == cfg.node + more
  {
    hide VSize, ConsCells;
  }

  /** An alternative representation costs its header and three pointers, and passes on its class and data only. */
  lemma AltrepSpelled(cfg: Config, h: Heap, x: Ref, a: Altrep)
    requires WellFormed(h) && x in h.objects && h.objects[x].altrep == Some(a)
    ensures LocalCost(cfg, h, x) == 24 + match h.objects[x].kind
                                         case Logical(_) | Integer(_) | Real(_) | Complex(_) | Raw(_) => cfg.vector
                                         case Str(_) | List(_) | Expr(_) | Char(_) => cfg.vector
                                         case _ => cfg.node
    ensures Edges(cfg, h, x) == [a.class_, a.data1, a.data2]
  {
  }

  /** Every reference of an object is passed to a recursive call, but for the exceptions named here. */
  lemma EdgesSpelled(cfg: Config, h: Heap, x: Ref)
    requires WellFormed(h) && x in h.objects && h.objects[x].altrep.None?
    ensures var attributes := AttributeEdges(h.objects[x].attributes);
            Edges(cfg, h, x) ==
            match h.objects[x].kind
            case Char(_) => []
            case Str(e) => attributes + e
            case List(e) => attributes + e
            case Expr(e) => attributes + e
            case WeakRef(e) => attributes + e
            case Cons(_, _, _) => attributes + if x == cfg.missingArg then [] else ConsEdges(h, x)
            case Bytecode(tag, car, cdr) => attributes + [tag, car, cdr]
            case Env(b, parent, namespace) =>
              attributes + if x in cfg.terminalEnvs || namespace then [] else b + [parent]
            case Closure(formals, body, env) => attributes + [formals, body, env]
            case Promise(value, code, env) => attributes + [value, code, env]
            case ExternalPtr(prot, tag) => attributes + [prot, tag]
            case S4(tag) => attributes + [tag]
            case _ => attributes
  {
    assert AttributeEdges(h.objects[x].attributes) + [] == AttributeEdges(h.objects[x].attributes);
  }

  /** The `i`-th cell of the chain at `x`. */
  function Cell(h: Heap, x: Ref, i: nat): Ref
    requires WellFormed(h) && IsCons(h, x)
    decreases h.cdrRank[x]
  {
    if i == 0 || !IsCons(h, h.objects[x].kind.cdr) then x else Cell(h, h.objects[x].kind.cdr, i - 1)
  }

  /** The cons-cell loop passes on the tag and the value of every cell, in order, and the CDR that ends the chain. */
  lemma {:induction false} ChainSpelled(h: Heap, x: Ref, i: nat)
    requires WellFormed(h) && IsCons(h, x) && i < ConsCells(h, x)
    ensures |ConsEdges(h, x)| == 2 * ConsCells(h, x) + 1
    ensures IsCons(h, Cell(h, x, i))
    ensures ConsEdges(h, x)[2 * i] == h.objects[Cell(h, x, i)].kind.tag
    ensures ConsEdges(h, x)[2 * i + 1] == h.objects[Cell(h, x, i)].kind.car
    ensures i == ConsCells(h, x) - 1 ==>
            var last := h.objects[Cell(h, x, i)].kind.cdr;
            !IsCons(h, last) && ConsEdges(h, x)[2 * i + 2] == last
    decreases i, h.cdrRank[x]
  {
    var next := h.objects[x].kind.cdr;
    if i > 0 {
      ChainSpelled(h, next, i - 1);
    } else if IsCons(h, next) {
      ChainSpelled(h, next, 0);
    }
  }

  // ---------------------------------------------------------------- sums over sets

  ghost function SumCost(cfg: Config, h: Heap, s: set<Ref>): nat
    requires WellFormed(h) && s <= h.objects.Keys
  {
    if s == {} then 0 else var x :| x in s; LocalCost(cfg, h, x) + SumCost(cfg, h, s - {x})
  }

  lemma {:induction false} SumRemove(cfg: Config, h: Heap, s: set<Ref>, x: Ref)
    requires WellFormed(h) && s <= h.objects.Keys && x in s
    ensures SumCost(cfg, h, s) == LocalCost(cfg, h, x) + SumCost(cfg, h, s - {x})
    decreases s
  {
    hide LocalCost;
    var y :| y in s && SumCost(cfg, h, s) == LocalCost(cfg, h, y) + SumCost(cfg, h, s - {y});
    if y != x {
      SumRemove(cfg, h, s - {y}, x);
      SumRemove(cfg, h, s - {x}, y);
      assert s - {y} - {x} == s - {x} - {y};
    }
  }

  lemma {:induction false} SumUnion(cfg: Config, h: Heap, s: set<Ref>, t: set<Ref>)
    requires WellFormed(h) && s <= h.objects.Keys && t <= h.objects.Keys && s !! t
    ensures SumCost(cfg, h, s + t) == SumCost(cfg, h, s) + SumCost(cfg, h, t)
    decreases s
  {
    hide LocalCost;
    if s == {} {
      assert s + t == t;
    } else {
      var x :| x in s;
      SumRemove(cfg, h, s, x);
      SumRemove(cfg, h, s + t, x);
      SumUnion(cfg, h, s - {x}, t);
      assert s + t - {x} == (s - {x}) + t;
    }
  }

  lemma SumMonotone(cfg: Config, h: Heap, s: set<Ref>, t: set<Ref>)
    requires WellFormed(h) && s <= t <= h.objects.Keys
    ensures SumCost(cfg, h, s) <= SumCost(cfg, h, t)
  {
    SumUnion(cfg, h, s, t - s);
    assert s + (t - s) == t;
  }

  // ---------------------------------------------------------------- what a visit does

  ghost predicate ClosedAt(cfg: Config, h: Heap, x: Ref, s: set<Ref>)
    requires WellFormed(h) && x in h.objects
  {
    forall e :: e in Edges(cfg, h, x) && Eligible(h, e) ==> e in s
  }

  ghost predicate Closed(cfg: Config, h: Heap, s: set<Ref>)
    requires WellFormed(h)
  {
    s <= h.objects.Keys && forall x :: x in s ==> ClosedAt(cfg, h, x, s)
  }

  ghost predicate Covers(h: Heap, refs: seq<Ref>, s: set<Ref>) {
    forall r :: r in refs && Eligible(h, r) ==> r in s
  }

  /** Terminal environments carry no attributes. Otherwise their attributes are entered, then not counted. */
  ghost predicate BareTerminals(cfg: Config, h: Heap, s: set<Ref>) {
    forall x :: x in s && x in h.objects && IsTerminal(cfg, h, x) ==> h.objects[x].attributes == []
  }

  /**
   Visiting `refs` took the seen set from `before` to `after` and added up `size`. The new objects
   lie in every closed set around `refs`; the size is at most their costs; and without a cut-off
   everything reachable is seen and, on bare terminals, the size is exactly their costs.
   */
  ghost predicate Visited(cfg: Config, h: Heap, refs: seq<Ref>, before: set<Ref>, after: set<Ref>, size: nat, cut: bool)
    requires WellFormed(h)
  {
    && before <= after <= h.objects.Keys
    && (forall s :: Closed(cfg, h, s) && Covers(h, refs, s) ==> after - before <= s)
    && size <= SumCost(cfg, h, after - before)
    && (!cut ==> Covers(h, refs, after))
    && (!cut ==> forall x :: x in after - before ==> ClosedAt(cfg, h, x, after))
    && (!cut && BareTerminals(cfg, h, after - before) ==> size == SumCost(cfg, h, after - before))
  }

  lemma VisitedNothing(cfg: Config, h: Heap, refs: seq<Ref>, seen: set<Ref>, cut: bool)
    requires WellFormed(h) && seen <= h.objects.Keys
    requires cut || Covers(h, refs, seen)
    ensures Visited(cfg, h, refs, seen, seen, 0, cut)
  {
    assert seen - seen == {};
  }

  lemma VisitedThen(cfg: Config, h: Heap, p: seq<Ref>, q: seq<Ref>, a: set<Ref>, b: set<Ref>, c: set<Ref>,
                    m: nat, n: nat, cut: bool, cut': bool)
    requires WellFormed(h)
    requires Visited(cfg, h, p, a, b, m, cut) && Visited(cfg, h, q, b, c, n, cut')
    ensures Visited(cfg, h, p + q, a, c, m + n, cut || cut')
  {
    hide Edges, Eligible, SumCost, WellFormed;
    assert c - a == (b - a) + (c - b);
    SumUnion(cfg, h, b - a, c - b);
    forall s | Closed(cfg, h, s) && Covers(h, p + q, s) ensures c - a <= s {
      assert Covers(h, p, s) && Covers(h, q, s);
    }
  }

  /** Entering `x`: it is charged once, and its own calls follow. */
  lemma VisitedNode(cfg: Config, h: Heap, x: Ref, a: set<Ref>, c: set<Ref>, n: nat, size: nat, cut: bool)
    requires WellFormed(h) && Eligible(h, x) && x !in a
    requires Visited(cfg, h, Edges(cfg, h, x), a + {x}, c, n, cut)
    requires size <= LocalCost(cfg, h, x) + n
    requires !cut && BareTerminals(cfg, h, {x}) ==> size == LocalCost(cfg, h, x) + n
    ensures Visited(cfg, h, [x], a, c, size, cut)
  {
    hide Edges, LocalCost, SumCost, WellFormed;
    assert c - a == (c - (a + {x})) + {x};
    SumRemove(cfg, h, c - a, x);
    assert c - a - {x} == c - (a + {x});
    forall s | Closed(cfg, h, s) && Covers(h, [x], s) ensures c - a <= s {
      assert x in [x];
      assert ClosedAt(cfg, h, x, s);
      assert Covers(h, Edges(cfg, h, x), s);
    }
  }

  // ---------------------------------------------------------------- the program

  predicate InHeap(h: Heap, x: Ref) {
    x == NULL || x in h.objects
  }

  /** Every recursive call is on a null pointer or on an object. */
  ghost predicate Complete(cfg: Config, h: Heap) {
    WellFormed(h) && forall x, e :: x in h.objects && e in Edges(cfg, h, x) ==> InHeap(h, e)
  }

  /** Any graph will do whose references are null or objects and whose CDR chains end in an object that is no cell. */
  lemma AnyGraph(cfg: Config, h: Heap)
    requires 0 !in h.objects
    requires forall x :: IsCons(h, x) ==> h.objects[x].kind.cdr in h.objects
    requires forall x :: IsCons(h, x) ==> x in h.cdrRank
    requires forall x :: IsCons(h, x) && IsCons(h, h.objects[x].kind.cdr) ==>
               h.cdrRank[h.objects[x].kind.cdr] < h.cdrRank[x]
    ensures WellFormed(h)
    ensures (forall x, e :: x in h.objects && e in Edges(cfg, h, x) ==> e == 0 || e in h.objects) ==> Complete(cfg, h)
  {
    hide Edges;
  }

  ghost predicate AllInHeap(h: Heap, refs: seq<Ref>) {
    forall e :: e in refs ==> InHeap(h, e)
  }

  lemma AddNode(node: nat, k: nat)
    ensures node * (k + 1) == node * k + node
  {
  }

  /** Where the cons-cell loop is: at `cons`, after `k` cells of the chain at `x` and the calls `done`. */
  ghost predicate ChainAt(h: Heap, x: Ref, cons: Ref, done: seq<Ref>, k: nat)
    requires WellFormed(h) && IsCons(h, x)
  {
    if IsCons(h, cons) then
      && ConsEdges(h, x) == done + ConsEdges(h, cons)
      && ConsCells(h, x) == k + ConsCells(h, cons)
      && (if k == 0 then cons == x else h.cdrRank[cons] < h.cdrRank[x])
    else
      k > 0 && ConsEdges(h, x) == done + [cons] && ConsCells(h, x) == k
  }

  lemma ChainStart(h: Heap, x: Ref)
    requires WellFormed(h) && IsCons(h, x)
    ensures ChainAt(h, x, x, [], 0)
  {
  }

  lemma ConsUnfold(h: Heap, x: Ref)
    requires WellFormed(h) && IsCons(h, x)
    ensures var k := h.objects[x].kind;
            && ConsEdges(h, x) == [k.tag, k.car] + (if IsCons(h, k.cdr) then ConsEdges(h, k.cdr) else [k.cdr])
            && ConsCells(h, x) == 1 + (if IsCons(h, k.cdr) then ConsCells(h, k.cdr) else 0)
            && (IsCons(h, k.cdr) ==> h.cdrRank[k.cdr] < h.cdrRank[x])
  {
  }

  lemma Prefixed(s: seq<Ref>, done: seq<Ref>, pair: seq<Ref>, rest: seq<Ref>)
    requires s == done + (pair + rest)
    ensures s == (done + pair) + rest && forall e :: e in pair ==> e in s
  {
  }

  lemma ChainStep(h: Heap, x: Ref, cons: Ref, done: seq<Ref>, k: nat)
    requires WellFormed(h) && IsCons(h, x) && IsCons(h, cons) && ChainAt(h, x, cons, done, k)
    requires AllInHeap(h, ConsEdges(h, x))
    ensures var cell := h.objects[cons].kind;
            && ChainAt(h, x, cell.cdr, done + [cell.tag, cell.car], k + 1)
            && AllInHeap(h, [cell.tag, cell.car])
            && (cell.tag in ConsEdges(h, x) && cell.car in ConsEdges(h, x))
            && (cons == x <==> k == 0)
  {
    hide ConsEdges, ConsCells;
    var cell := h.objects[cons].kind;
    var rest := if IsCons(h, cell.cdr) then ConsEdges(h, cell.cdr) else [cell.cdr];
    ConsUnfold(h, cons);
    Prefixed(ConsEdges(h, x), done, [cell.tag, cell.car], rest);
  }

  lemma ChainEnd(h: Heap, x: Ref, cons: Ref, done: seq<Ref>, k: nat)
    requires WellFormed(h) && IsCons(h, x) && !IsCons(h, cons) && ChainAt(h, x, cons, done, k)
    requires AllInHeap(h, ConsEdges(h, x))
    ensures InHeap(h, cons) && ConsEdges(h, x) == done + [cons] && ConsCells(h, x) == k > 0
  {
    assert ConsEdges(h, x)[|done|] == cons;
  }

  /** A path along recursive calls, through objects the walk enters. */
  ghost predicate IsPath(cfg: Config, h: Heap, p: seq<Ref>)
    requires WellFormed(h)
  {
    && p != []
    && (forall i :: 0 <= i < |p| ==> Eligible(h, p[i]))
    && (|p| > 1 ==> p[|p| - 1] in Edges(cfg, h, p[|p| - 2]) && IsPath(cfg, h, p[..|p| - 1]))
  }

  ghost predicate Distinct(p: seq<Ref>) {
    forall i, j :: 0 <= i < j < |p| ==> p[i] != p[j]
  }

  /** Nested calls from `x` can reach the depth limit: the walk only nests on different objects. */
  ghost predicate Deep(cfg: Config, h: Heap, x: Ref)
    requires WellFormed(h)
  {
    exists p :: IsPath(cfg, h, p) && p[0] == x && |p| == MAX_DEPTH && Distinct(p) && Edges(cfg, h, p[|p| - 1]) != []
  }

  /** All of `refs` are passed to recursive calls made for `x`. */
  ghost predicate Calls(cfg: Config, h: Heap, x: Ref, refs: seq<Ref>)
    requires WellFormed(h) && x in h.objects
  {
    forall e :: e in refs ==> e in Edges(cfg, h, x)
  }

  lemma PathGrows(cfg: Config, h: Heap, p: seq<Ref>, x: Ref)
    requires WellFormed(h) && IsPath(cfg, h, p) && Eligible(h, x) && Calls(cfg, h, p[|p| - 1], [x])
    ensures IsPath(cfg, h, p + [x])
  {
    hide Edges, Eligible;
    assert (p + [x])[..|p|] == p && x in [x];
  }

  /** One walk of `obj_size_tree`, with the `seen` set it updates. `cut` records whether a limit fired.
   The stack checks of a walk give the answers `stackOk(0)`, `stackOk(1)` and so on. */
  class Walk {
    const cfg: Config
    const h: Heap
    const stackOk: nat -> bool
    ghost const root: Ref
    var seen: set<Ref>
    var checks: nat

    ghost predicate Valid()
      reads this`seen
    {
      Complete(cfg, h) && seen <= h.objects.Keys
    }

    /** A limit can fire in this walk. */
    ghost predicate Limited()
      reads this`seen
      requires Valid()
    {
      (exists i :: !stackOk(i)) || Deep(cfg, h, root)
    }

    /** `path` holds the objects whose calls are under way, outermost first. */
    ghost predicate Active(path: seq<Ref>)
      reads this`seen
      requires Valid()
    {
      && path != [] && path[0] == root && |path| <= MAX_DEPTH
      && IsPath(cfg, h, path) && Distinct(path)
      && (forall y :: y in path ==> y in seen)
    }

    constructor (cfg: Config, h: Heap, stackOk: nat -> bool, ghost root: Ref)
      requires Complete(cfg, h)
      ensures Valid() && this.cfg == cfg && this.h == h && this.stackOk == stackOk && this.root == root
      ensures seen == {}
    {
      this.cfg, this.h, this.stackOk, this.root := cfg, h, stackOk, root;
      seen, checks := {}, 0;
    }

    /** `x` is passed to a call made for the last active object, or is the root. */
    ghost predicate Called(path: seq<Ref>, x: Ref)
      reads this`seen
      requires Valid()
    {
      if path == [] then x == root else Active(path) && Calls(cfg, h, path[|path| - 1], [x])
    }

    /** A call at the depth limit means a chain that long. */
    lemma AtLimit(path: seq<Ref>, x: Ref)
      requires Valid() && Called(path, x) && |path| >= MAX_DEPTH
      ensures Limited()
    {
      hide Edges, IsPath;
      assert x in [x] && Edges(cfg, h, path[|path| - 1]) != [];
    }

    lemma Enter(path: seq<Ref>, x: Ref, before: set<Ref>)
      requires Valid() && Eligible(h, x) && x !in before && seen == before + {x} && |path| < MAX_DEPTH
      requires if path == [] then x == root else
                 && path[0] == root && IsPath(cfg, h, path) && Distinct(path)
                 && (forall y :: y in path ==> y in before) && Calls(cfg, h, path[|path| - 1], [x])
      ensures Active(path + [x])
    {
      if path != [] {
        PathGrows(cfg, h, path, x);
      }
    }

    /** Whether the walk passes `x` over. */
    predicate Skips(x: Ref)
      reads this`seen
      requires InHeap(h, x)
    {
      x == NULL || h.objects[x].kind.Nil? || h.objects[x].kind.Special? || h.objects[x].kind.Builtin? || x in seen
    }

    lemma CutVisit(x: Ref)
      requires Valid()
      ensures Visited(cfg, h, [x], seen, seen, 0, true)
    {
      hide Edges, LocalCost, SumCost;
      VisitedNothing(cfg, h, [x], seen, true);
    }

    lemma EmptyVisit()
      requires Valid()
      ensures Visited(cfg, h, [], seen, seen, 0, false)
    {
      hide Edges, LocalCost, SumCost;
      VisitedNothing(cfg, h, [], seen, false);
    }

    lemma SkipVisit(x: Ref)
      requires Valid() && InHeap(h, x)
      ensures Skips(x) ==> Visited(cfg, h, [x], seen, seen, 0, false)
      ensures !Skips(x) ==> Eligible(h, x) && x !in seen
    {
      if Skips(x) {
        assert Covers(h, [x], seen);
        hide Edges, LocalCost;
        VisitedNothing(cfg, h, [x], seen, false);
      }
    }

    /** `obj_size_tree`. */
    method Tree(x: Ref, depth: nat, ghost path: seq<Ref>) returns (size: nat, ghost cut: bool)
      requires Valid() && InHeap(h, x) && depth == |path| && Called(path, x)
      modifies this
      ensures Valid() && old(seen) <= seen && (cut ==> Limited())
      ensures Visited(cfg, h, [x], old(seen), seen, size, cut)
      ensures depth >= 500 || (depth % 10 == 0 && !stackOk(old(checks))) ==> size == 0 && seen == old(seen)
      decreases h.objects.Keys - seen, 1
    {
      hide Called, Active, Visited, InHeap, Skips, Deep, Edges, WellFormed;
      if depth >= MAX_DEPTH {
        AtLimit(path, x);
        CutVisit(x);
        return 0, true;
      }
      if depth % 10 == 0 {
        checks := checks + 1;
        if !stackOk(checks - 1) {
          CutVisit(x);
          return 0, true;
        }
      }
      SkipVisit(x);
      if Skips(x) {
        return 0, false;
      }
      size, cut := Node(x, depth, path);
    }

    /** The part of `obj_size_tree` for an object that is new. */
    method Node(x: Ref, depth: nat, ghost path: seq<Ref>) returns (size: nat, ghost cut: bool)
      requires Valid() && Eligible(h, x) && x !in seen && depth == |path| < MAX_DEPTH && Called(path, x)
      modifies this
      ensures Valid() && old(seen) <= seen && (cut ==> Limited())
      ensures Visited(cfg, h, [x], old(seen), seen, size, cut)
      decreases h.objects.Keys - seen, 0
    {
      hide Edges, KindEdges, LocalCost, SumCost, Visited, KindCost, BaseCost, AttributeEdges, Deep, IsPath, Distinct;
      ghost var before := seen;
      seen := seen + {x};
      size := BaseCost(cfg, h.objects[x]);
      var more: nat;
      ghost var n: nat;
      Enter(path, x, before);
      more, n, cut := Contents(x, depth + 1, path + [x]);
      size := if IsTerminal(cfg, h, x) then 0 else size + more;
      ContentsCost(cfg, h, x, more, n, before + {x}, seen, cut);
      VisitedNode(cfg, h, x, before, seen, n, size, cut);
    }

    /** What `obj_size_tree` does for an object it enters: alternative representation, attributes, data. */
    method Contents(x: Ref, depth: nat, ghost path: seq<Ref>) returns (size: nat, ghost n: nat, ghost cut: bool)
      requires Valid() && Active(path) && depth == |path| && path[|path| - 1] == x
      requires Eligible(h, x)
      modifies this
      ensures Valid() && old(seen) <= seen && (cut ==> Limited())
      ensures Visited(cfg, h, Edges(cfg, h, x), old(seen), seen, n, cut)
      ensures size == n + OwnCost(cfg, h, x)
      decreases h.objects.Keys - seen, 5
    {
      hide LocalCost, SumCost, Visited, KindCost, AttributeEdges, KindEdges;
      var o := h.objects[x];
      if o.altrep.Some? {
        var a := o.altrep.value;
        size, cut := VisitAll([a.class_, a.data1, a.data2], depth, path);
        n := size;
        size := size + 3 * POINTER_SIZE;
        return;
      }
      ghost var start := seen;
      size, n, cut := 0, 0, false;
      EmptyVisit();
      ghost var attrs: seq<Ref> := [];
      if !o.kind.Char? {
        attrs := AttributeEdges(o.attributes);
        EdgesOf(cfg, h, x);
        size, n, cut := Attributes(o.attributes, depth, path);
      }
      if !IsTerminal(cfg, h, x) {
        ghost var mid := seen;
        EdgesOf(cfg, h, x);
        var more: nat;
        ghost var n': nat;
        ghost var cut': bool;
        more, n', cut' := Data(x, depth, path);
        VisitedThen(cfg, h, attrs, KindEdges(cfg, h, x), start, mid, seen, n, n', cut, cut');
        size, n, cut := size + more, n + n', cut || cut';
      } else {
        assert KindEdges(cfg, h, x) == [] by { EdgesOf(cfg, h, x); }
        assert attrs + [] == attrs;
      }
    }

    /** The attribute loop. */
    method Attributes(attributes: seq<(Ref, Ref)>, depth: nat, ghost path: seq<Ref>)
      returns (size: nat, ghost n: nat, ghost cut: bool)
      requires Valid() && Active(path) && depth == |path| && Calls(cfg, h, path[|path| - 1], AttributeEdges(attributes))
      requires AllInHeap(h, AttributeEdges(attributes))
      modifies this
      ensures Valid() && old(seen) <= seen && (cut ==> Limited())
      ensures Visited(cfg, h, AttributeEdges(attributes), old(seen), seen, n, cut)
      ensures size == n + cfg.node * |attributes|
      decreases h.objects.Keys - seen, 3
    {
      hide Edges, KindEdges, LocalCost, SumCost, Visited;
      size, n, cut := 0, 0, false;
      EmptyVisit();
      assert attributes[..0] == [] && attributes[..|attributes|] == attributes;
      for i := 0 to |attributes|
        invariant Valid() && old(seen) <= seen && (cut ==> Limited())
        invariant Visited(cfg, h, AttributeEdges(attributes[..i]), old(seen), seen, n, cut)
        invariant size == n + cfg.node * i
      {
        ghost var mid := seen;
        var (tag, val) := attributes[i];
        AttributeEdgesSnoc(attributes, i);
        ghost var cut': bool;
        var more: nat;
        more, cut' := VisitAll([tag, val], depth, path);
        VisitedThen(cfg, h, AttributeEdges(attributes[..i]), [tag, val], old(seen), mid, seen, n, more, cut, cut');
        AddNode(cfg.node, i);
        size, n, cut := size + cfg.node + more, n + more, cut || cut';
      }
    }

    /** The match on the type, for objects that are not terminal environments. */
    method Data(x: Ref, depth: nat, ghost path: seq<Ref>) returns (size: nat, ghost n: nat, ghost cut: bool)
      requires Valid() && Active(path) && depth == |path| && path[|path| - 1] == x
      requires Eligible(h, x) && !IsTerminal(cfg, h, x) && h.objects[x].altrep.None?
      requires AllInHeap(h, KindEdges(cfg, h, x))
      modifies this
      ensures Valid() && old(seen) <= seen && (cut ==> Limited())
      ensures Visited(cfg, h, KindEdges(cfg, h, x), old(seen), seen, n, cut)
      ensures size == n + KindCost(cfg, h, x)
      decreases h.objects.Keys - seen, 4
    {
      hide LocalCost, SumCost, Visited, VSize, Active, Limited, ConsEdges, ConsCells, WellFormed;
      size, n, cut := 0, 0, false;
      EmptyVisit();
      match h.objects[x].kind
      case Logical(length) =>
        size := VSize(length, INT_SIZE);
      case Integer(length) =>
        size := VSize(length, INT_SIZE);
      case Real(length) =>
        size := VSize(length, DOUBLE_SIZE);
      case Complex(length) =>
        size := VSize(length, COMPLEX_SIZE);
      case Raw(length) =>
        size := VSize(length, 1);
      case Char(length) =>
        size := VSize(length + 1, 1);
      case Str(elements) =>
        size, cut := VisitAll(elements, depth, path);
        n := size;
        size := size + VSize(|elements|, POINTER_SIZE);
      case List(elements) =>
        size, cut := VisitAll(elements, depth, path);
        n := size;
        size := size + VSize(|elements|, POINTER_SIZE);
      case Expr(elements) =>
        size, cut := VisitAll(elements, depth, path);
        n := size;
        size := size + VSize(|elements|, POINTER_SIZE);
      case WeakRef(elements) =>
        size, cut := VisitAll(elements, depth, path);
        n := size;
        size := size + VSize(|elements|, POINTER_SIZE);
      case Cons(_, _, _) =>
        if x != cfg.missingArg {
          size, n, cut := Pairlist(x, depth, path);
        }
      case Bytecode(tag, car, cdr) =>
        size, cut := VisitAll([tag, car, cdr], depth, path);
        n := size;
      case Env(bindings, parent, _) =>
        size, n, cut := Environment(bindings, parent, depth, path);
      case Closure(formals, body, env) =>
        size, cut := VisitAll([formals, body, env], depth, path);
        n := size;
      case Promise(value, code, env) =>
        size, cut := VisitAll([value, code, env], depth, path);
        n := size;
      case ExternalPtr(prot, tag) =>
        size, cut := VisitAll([prot, tag], depth, path);
        n := size;
        size := size + POINTER_SIZE;
      case S4(tag) =>
        size, cut := VisitAll([tag], depth, path);
        n := size;
      case _ =>
    }

    /** The cons-cell loop. */
    method Pairlist(x: Ref, depth: nat, ghost path: seq<Ref>) returns (size: nat, ghost n: nat, ghost cut: bool)
      requires Valid() && Active(path) && depth == |path| && IsCons(h, x)
      requires Calls(cfg, h, path[|path| - 1], ConsEdges(h, x)) && AllInHeap(h, ConsEdges(h, x))
      modifies this
      ensures Valid() && old(seen) <= seen && (cut ==> Limited())
      ensures Visited(cfg, h, ConsEdges(h, x), old(seen), seen, n, cut)
      ensures size == n + cfg.node * (ConsCells(h, x) - 1)
      decreases h.objects.Keys - seen, 3
    {
      hide Edges, KindEdges, LocalCost, SumCost, Visited, Eligible, AttributeEdges, ConsEdges, ConsCells, ChainAt;
      hide Deep, IsPath, Distinct;
      size, n, cut := 0, 0, false;
      EmptyVisit();
      var cons := x;
      ghost var done: seq<Ref>, k: nat := [], 0;
      ChainStart(h, x);
      while IsCons(h, cons)
        invariant Valid() && old(seen) <= seen && (cut ==> Limited())
        invariant Visited(cfg, h, done, old(seen), seen, n, cut)
        invariant ChainAt(h, x, cons, done, k)
        invariant size == n + cfg.node * (if k == 0 then 0 else k - 1)
        decreases if IsCons(h, cons) then h.cdrRank[cons] + 1 else 0
      {
        var cell := h.objects[cons].kind;
        ChainStep(h, x, cons, done, k);
        if cons != x {
          AddNode(cfg.node, k - 1);
          size := size + cfg.node;
        }
        ghost var mid := seen;
        var more: nat;
        ghost var cut': bool;
        more, cut' := VisitAll([cell.tag, cell.car], depth, path);
        VisitedThen(cfg, h, done, [cell.tag, cell.car], old(seen), mid, seen, n, more, cut, cut');
        size, n, cut := size + more, n + more, cut || cut';
        done, k := done + [cell.tag, cell.car], k + 1;
        cons := cell.cdr;
      }
      ghost var mid := seen;
      ChainEnd(h, x, cons, done, k);
      var more: nat;
      ghost var cut': bool;
      more, cut' := Tree(cons, depth, path);
      VisitedThen(cfg, h, done, [cons], old(seen), mid, seen, n, more, cut, cut');
      size, n, cut := size + more, n + more, cut || cut';
    }

    /** The binding loop and the parent of an environment. */
    method Environment(bindings: seq<Ref>, parent: Ref, depth: nat, ghost path: seq<Ref>)
      returns (size: nat, ghost n: nat, ghost cut: bool)
      requires Valid() && Active(path) && depth == |path| && Calls(cfg, h, path[|path| - 1], bindings + [parent])
      requires AllInHeap(h, bindings + [parent])
      modifies this
      ensures Valid() && old(seen) <= seen && (cut ==> Limited())
      ensures Visited(cfg, h, bindings + [parent], old(seen), seen, n, cut)
      ensures size == n + cfg.node * |bindings|
      decreases h.objects.Keys - seen, 3
    {
      hide Edges, KindEdges, LocalCost, SumCost, Visited;
      size, n, cut := 0, 0, false;
      EmptyVisit();
      var more: nat;
      ghost var cut': bool;
      ghost var mid := seen;
      assert bindings[..0] == [] && bindings[..|bindings|] == bindings;
      for i := 0 to |bindings|
        invariant Valid() && old(seen) <= seen && (cut ==> Limited())
        invariant Visited(cfg, h, bindings[..i], old(seen), seen, n, cut)
        invariant size == n + cfg.node * i
      {
        mid := seen;
        assert bindings[i] in bindings + [parent] && bindings[..i + 1] == bindings[..i] + [bindings[i]];
        more, cut' := Tree(bindings[i], depth, path);
        VisitedThen(cfg, h, bindings[..i], [bindings[i]], old(seen), mid, seen, n, more, cut, cut');
        AddNode(cfg.node, i);
        size, n, cut := size + cfg.node + more, n + more, cut || cut';
      }
      mid := seen;
      assert parent in bindings + [parent];
      more, cut' := Tree(parent, depth, path);
      VisitedThen(cfg, h, bindings, [parent], old(seen), mid, seen, n, more, cut, cut');
      size, n, cut := size + more, n + more, cut || cut';
    }

    /** Successive recursive calls. */
    method VisitAll(refs: seq<Ref>, depth: nat, ghost path: seq<Ref>) returns (size: nat, ghost cut: bool)
      requires Valid() && Active(path) && depth == |path| && Calls(cfg, h, path[|path| - 1], refs)
      requires AllInHeap(h, refs)
      modifies this
      ensures Valid() && old(seen) <= seen && (cut ==> Limited())
      ensures Visited(cfg, h, refs, old(seen), seen, size, cut)
      decreases h.objects.Keys - seen, 2
    {
      hide Edges, KindEdges, LocalCost, SumCost, Visited;
      size, cut := 0, false;
      EmptyVisit();
      assert refs[..0] == [] && refs[..|refs|] == refs;
      for i := 0 to |refs|
        invariant Valid() && old(seen) <= seen && (cut ==> Limited())
        invariant Visited(cfg, h, refs[..i], old(seen), seen, size, cut)
      {
        ghost var mid := seen;
        var more: nat;
        ghost var cut': bool;
        more, cut' := Tree(refs[i], depth, path);
        assert refs[..i + 1] == refs[..i] + [refs[i]];
        VisitedThen(cfg, h, refs[..i], [refs[i]], old(seen), mid, seen, size, more, cut, cut');
        size, cut := size + more, cut || cut';
      }
    }
  }

  /** The local cost beyond `BaseCost`, as the walk adds it up before it knows a terminal environment. */
  ghost function OwnCost(cfg: Config, h: Heap, x: Ref): nat
    requires WellFormed(h) && x in h.objects
  {
    var o := h.objects[x];
    if o.altrep.Some? then 3 * POINTER_SIZE
    else (if o.kind.Char? then 0 else cfg.node * |o.attributes|)
         + if IsTerminal(cfg, h, x) then 0 else KindCost(cfg, h, x)
  }

  lemma ContentsCost(cfg: Config, h: Heap, x: Ref, more: nat, n: nat, a: set<Ref>, c: set<Ref>, cut: bool)
    requires WellFormed(h) && Eligible(h, x) && Visited(cfg, h, Edges(cfg, h, x), a, c, n, cut)
    requires more == n + OwnCost(cfg, h, x)
    ensures var size := if IsTerminal(cfg, h, x) then 0 else BaseCost(cfg, h.objects[x]) + more;
            && size <= LocalCost(cfg, h, x) + n
            && (BareTerminals(cfg, h, {x}) && !cut ==> size == LocalCost(cfg, h, x) + n)
  {
    CostSum(cfg, h, x);
    hide LocalCost, OwnCost, BaseCost, Edges, Visited;
    if IsTerminal(cfg, h, x) && BareTerminals(cfg, h, {x}) && !cut {
      BareTerminalCalls(cfg, h, x);
      VisitedByNothing(cfg, h, a, c, n, cut);
    }
  }

  lemma CostSum(cfg: Config, h: Heap, x: Ref)
    requires WellFormed(h) && x in h.objects
    ensures LocalCost(cfg, h, x) ==
            if IsTerminal(cfg, h, x) then 0 else BaseCost(cfg, h.objects[x]) + OwnCost(cfg, h, x)
  {
    hide KindCost, BaseCost;
  }

  lemma BareTerminalCalls(cfg: Config, h: Heap, x: Ref)
    requires WellFormed(h) && x in h.objects && IsTerminal(cfg, h, x) && BareTerminals(cfg, h, {x})
    ensures Edges(cfg, h, x) == []
  {
    assert x in {x};
  }

  /** No calls, nothing visited. */
  lemma VisitedByNothing(cfg: Config, h: Heap, a: set<Ref>, c: set<Ref>, n: nat, cut: bool)
    requires WellFormed(h) && Visited(cfg, h, [], a, c, n, cut)
    ensures c - a == {} && n == 0
  {
    hide Edges, LocalCost;
    assert Closed(cfg, h, {}) && Covers(h, [], {});
    assert c - a == {};
  }

  lemma EdgesOf(cfg: Config, h: Heap, x: Ref)
    requires Complete(cfg, h) && x in h.objects && h.objects[x].altrep.None?
    ensures IsTerminal(cfg, h, x) ==> KindEdges(cfg, h, x) == []
    ensures AllInHeap(h, KindEdges(cfg, h, x)) && Calls(cfg, h, x, KindEdges(cfg, h, x))
    ensures !h.objects[x].kind.Char? ==>
              && AllInHeap(h, AttributeEdges(h.objects[x].attributes))
              && Calls(cfg, h, x, AttributeEdges(h.objects[x].attributes))
  {
    forall e | e in KindEdges(cfg, h, x) ensures InHeap(h, e) {
      assert e in Edges(cfg, h, x);
    }
    if !h.objects[x].kind.Char? {
      forall e | e in AttributeEdges(h.objects[x].attributes) ensures InHeap(h, e) {
        assert e in Edges(cfg, h, x);
      }
    }
  }

  lemma {:induction false} AttributeEdgesSnoc(s: seq<(Ref, Ref)>, i: nat)
    requires i < |s|
    ensures AttributeEdges(s[..i + 1]) == AttributeEdges(s[..i]) + [s[i].0, s[i].1]
    ensures s[i].0 in AttributeEdges(s) && s[i].1 in AttributeEdges(s)
  {
    if i > 0 {
      AttributeEdgesSnoc(s[1..], i - 1);
      assert s[..i + 1][1..] == s[1..][..i] && s[..i][1..] == s[1..][..i - 1];
    } else {
      assert s[..1][1..] == [];
    }
  }

  // ---------------------------------------------------------------- reachability

  ghost predicate Reaches(cfg: Config, h: Heap, x: Ref, y: Ref)
    requires WellFormed(h)
  {
    exists p :: IsPath(cfg, h, p) && p[0] == x && p[|p| - 1] == y
  }

  ghost function Reachable(cfg: Config, h: Heap, x: Ref): set<Ref>
    requires WellFormed(h)
  {
    set y | y in h.objects && Reaches(cfg, h, x, y)
  }

  /** The null pointer, nil, specials and builtins are never entered; anything else is. */
  lemma SingletonsSkipped(cfg: Config, h: Heap, x: Ref)
    requires WellFormed(h) && InHeap(h, x)
    ensures x in Reachable(cfg, h, x) <==>
            x != 0 && !h.objects[x].kind.Nil? && !h.objects[x].kind.Special? && !h.objects[x].kind.Builtin?
    ensures x !in Reachable(cfg, h, x) ==> Reachable(cfg, h, x) == {}
  {
    if Eligible(h, x) {
      assert IsPath(cfg, h, [x]) && [x][0] == x;
    }
    forall y | y in Reachable(cfg, h, x) ensures Eligible(h, x) {
      var p :| IsPath(cfg, h, p) && p[0] == x && p[|p| - 1] == y;
      assert Eligible(h, p[0]);
    }
  }

  lemma ReachableClosed(cfg: Config, h: Heap, x: Ref)
    requires WellFormed(h)
    ensures Closed(cfg, h, Reachable(cfg, h, x)) && Covers(h, [x], Reachable(cfg, h, x))
  {
    if Eligible(h, x) {
      assert IsPath(cfg, h, [x]) && [x][0] == x;
    }
    forall y, e | y in Reachable(cfg, h, x) && e in Edges(cfg, h, y) && Eligible(h, e)
      ensures e in Reachable(cfg, h, x)
    {
      var p :| IsPath(cfg, h, p) && p[0] == x && p[|p| - 1] == y;
      assert (p + [e])[..|p|] == p;
      assert IsPath(cfg, h, p + [e]);
    }
  }

  lemma {:induction false} ReachableLeast(cfg: Config, h: Heap, s: set<Ref>, p: seq<Ref>)
    requires WellFormed(h) && IsPath(cfg, h, p) && Closed(cfg, h, s) && p[0] in s
    ensures p[|p| - 1] in s
    decreases |p|
  {
    if |p| > 1 {
      hide Edges;
      var q := p[..|p| - 1];
      assert q[0] == p[0] && q[|q| - 1] == p[|p| - 2];
      ReachableLeast(cfg, h, s, q);
      assert ClosedAt(cfg, h, q[|q| - 1], s);
    }
  }

  /** A visit of one object from an empty seen set sees what is reachable, if no limit fires. */
  lemma VisitedIsReachable(cfg: Config, h: Heap, x: Ref, after: set<Ref>, size: nat, cut: bool)
    requires WellFormed(h) && Visited(cfg, h, [x], {}, after, size, cut)
    ensures after <= Reachable(cfg, h, x) && (!cut ==> after == Reachable(cfg, h, x))
  {
    assert after - {} == after;
    ReachableClosed(cfg, h, x);
    if !cut {
      assert Closed(cfg, h, after);
      forall y | y in Reachable(cfg, h, x) ensures y in after {
        var p :| IsPath(cfg, h, p) && p[0] == x && p[|p| - 1] == y;
        assert Eligible(h, p[0]) && x in [x];
        ReachableLeast(cfg, h, after, p);
      }
    }
  }

  lemma DistinctCount(p: seq<Ref>, s: set<Ref>)
    requires Distinct(p) && forall y :: y in p ==> y in s
    ensures |p| <= |s|
  {
    if p != [] {
      var last := p[|p| - 1];
      DistinctCount(p[..|p| - 1], s - {last});
    }
  }

  lemma {:induction false} PathReachable(cfg: Config, h: Heap, p: seq<Ref>, i: nat)
    requires WellFormed(h) && IsPath(cfg, h, p) && i < |p|
    ensures p[i] in Reachable(cfg, h, p[0])
    decreases |p|
  {
    if i == |p| - 1 {
      assert Reaches(cfg, h, p[0], p[i]);
    } else {
      PathReachable(cfg, h, p[..|p| - 1], i);
    }
  }

  /** Fewer objects than the depth limit can never reach it, whatever their shape. */
  lemma SmallNotDeep(cfg: Config, h: Heap, x: Ref)
    requires WellFormed(h) && |Reachable(cfg, h, x)| < 500
    ensures !Deep(cfg, h, x)
  {
    if p :| IsPath(cfg, h, p) && p[0] == x && |p| == MAX_DEPTH && Distinct(p) {
      forall y | y in p ensures y in Reachable(cfg, h, x) {
        var i :| 0 <= i < |p| && p[i] == y;
        PathReachable(cfg, h, p, i);
      }
      DistinctCount(p, Reachable(cfg, h, x));
    }
  }

  /**
   `r_size`, for the sizes R reports. The result never exceeds the local costs of the reachable
   objects, each counted once. It is their sum if every stack check succeeds, no chain of calls
   through different objects reaches the depth limit, and reachable terminal environments are bare.
   */
  method RSize(cfg: Config, h: Heap, stackOk: nat -> bool, x: Ref) returns (size: nat)
    requires Complete(cfg, h) && InHeap(h, x)
    ensures size <= SumCost(cfg, h, Reachable(cfg, h, x))
    ensures (forall i :: stackOk(i)) && !Deep(cfg, h, x) && BareTerminals(cfg, h, Reachable(cfg, h, x))
            ==> size == SumCost(cfg, h, Reachable(cfg, h, x))
  {
    ghost var cut;
    var walk := new Walk(cfg, h, stackOk, x);
    size, cut := walk.Tree(x, 0, []);
    VisitedIsReachable(cfg, h, x, walk.seen, size, cut);
    assert walk.seen - {} == walk.seen;
    SumMonotone(cfg, h, walk.seen, Reachable(cfg, h, x));
  }
}

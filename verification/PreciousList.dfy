/**
 The precious list: `protect`, `unprotect` and the life of an `RObject`, in
 `crates/harp/src/object.rs`. Cons cells between two sentinels form a doubly linked list: CDR points
 to the next cell, CAR to the previous one, TAG to the protected object.
 */
module PreciousList {

  /** An R object; `NIL` is `R_NilValue`. */
  type Sexp = nat
  const NIL: Sexp := 0

  class Cell {
    var car: Cell?
    var cdr: Cell?
    var tag: Sexp

    /** `Rf_cons`. */
    constructor (car: Cell?, cdr: Cell?)
      ensures this.car == car && this.cdr == cdr && tag == NIL
    {
      this.car, this.cdr, tag := car, cdr, NIL;
    }
  }

  /** Without its element `k`. */
  function Without<T>(s: seq<T>, k: nat): seq<T>
    requires k < |s|
  {
    s[..k] + s[k + 1..]
  }

  lemma WithoutParts<T>(s: seq<T>, k: nat)
    requires 0 < k < |s|
    ensures |Without(s, k)| == |s| - 1 && Without(s, k)[0] == s[0]
    ensures forall x :: x in Without(s, k) ==> x in s
  {
  }

  lemma InsertInside<T>(s: seq<T>, x: T)
    requires |s| >= 2
    ensures var t := [s[0], x] + s[1..]; |t| == |s| + 1 && t[1..|t| - 1] == [x] + s[1..|s| - 1]
  {
  }

  lemma WithoutInside<T>(s: seq<T>, k: nat)
    requires k + 2 < |s|
    ensures |Without(s, k + 1)| == |s| - 1
    ensures Without(s, k + 1)[1..|s| - 2] == Without(s[1..|s| - 1], k)
  {
  }

  /**
   Sentinels and cells `s` with these CARs and CDRs are linked both ways. The tail's CAR is nil until
   the first cell comes in.
   */
  ghost predicate Linked(s: seq<Cell>, cars: seq<Cell?>, cdrs: seq<Cell?>) {
    && |s| == |cars| == |cdrs| >= 2
    && (forall i, j :: 0 <= i < j < |s| ==> s[i] != s[j])
    && (forall i :: 0 <= i < |s| - 1 ==> cdrs[i] == s[i + 1])
    && cdrs[|s| - 1] == null
    && (forall i :: 1 <= i < |s| ==> cars[i] == s[i - 1] || (|s| == 2 && cars[i] == null))
  }

  /** Bypassing the inner cell `k` in both directions leaves the others linked. */
  lemma Bypass(s: seq<Cell>, cars: seq<Cell?>, cdrs: seq<Cell?>, k: nat)
    requires Linked(s, cars, cdrs) && 1 <= k < |s| - 1
    ensures Linked(Without(s, k), Without(cars[k + 1 := s[k - 1]], k), Without(cdrs[k - 1 := s[k + 1]], k))
  {
  }

  /** A new cell between the head and its successor, linked with both, leaves the list linked. */
  lemma InsertFirst(s: seq<Cell>, cars: seq<Cell?>, cdrs: seq<Cell?>, c: Cell)
    requires Linked(s, cars, cdrs) && c !in s
    ensures Linked([s[0], c] + s[1..], [cars[0], s[0]] + cars[1 := c][1..], [c, s[1]] + cdrs[0 := c][1..])
  {
  }

  /** The heap agrees with the links recorded for a list of cells. */
  ghost predicate Reflects(s: seq<Cell>, cars: seq<Cell?>, cdrs: seq<Cell?>)
    reads s
  {
    |s| == |cars| == |cdrs| && forall i :: 0 <= i < |s| ==> s[i].car == cars[i] && s[i].cdr == cdrs[i]
  }

  lemma Neighbours(s: seq<Cell>, cars: seq<Cell?>, cdrs: seq<Cell?>, k: nat)
    requires Linked(s, cars, cdrs) && 1 <= k < |s| - 1
    ensures cars[k] == s[k - 1] && cdrs[k] == s[k + 1]
    ensures forall i :: 0 <= i < |s| ==> (s[i] == s[k - 1] <==> i == k - 1) && (s[i] == s[k + 1] <==> i == k + 1)
  {
  }

  lemma Front(s: seq<Cell>, cars: seq<Cell?>, cdrs: seq<Cell?>)
    requires Linked(s, cars, cdrs)
    ensures |s| == |cars| == |cdrs| >= 2 && cdrs[0] == s[1]
    ensures forall i :: 0 <= i < |s| ==> (s[i] == s[0] <==> i == 0) && (s[i] == s[1] <==> i == 1)
  {
  }

  lemma ReflectsWithout(s: seq<Cell>, cars: seq<Cell?>, cdrs: seq<Cell?>, k: nat)
    requires |s| == |cars| == |cdrs| && k < |s|
    requires forall i :: 0 <= i < |s| && i != k ==> s[i].car == cars[i] && s[i].cdr == cdrs[i]
    ensures Reflects(Without(s, k), Without(cars, k), Without(cdrs, k))
  {
  }

  lemma ReflectsInsert(s: seq<Cell>, cars: seq<Cell?>, cdrs: seq<Cell?>, c: Cell)
    requires |s| == |cars| == |cdrs| >= 1 && Reflects(s, cars, cdrs)
    ensures Reflects([s[0], c] + s[1..], [cars[0], c.car] + cars[1..], [cdrs[0], c.cdr] + cdrs[1..])
  {
  }

  /** The sentinels protect nothing. */
  ghost predicate BareEnds(s: seq<Cell>)
    reads s
  {
    |s| >= 2 && s[0].tag == NIL && s[|s| - 1].tag == NIL
  }

  lemma EndsAfterInsert(s: seq<Cell>, c: Cell)
    requires BareEnds(s)
    ensures BareEnds([s[0], c] + s[1..])
  {
  }

  lemma EndsAfterWithout(s: seq<Cell>, k: nat)
    requires BareEnds(s) && 1 <= k < |s| - 1
    ensures BareEnds(Without(s, k))
  {
  }

  class PreciousList {
    /** `PRECIOUS_LIST`: the head sentinel, once there is one. */
    var head: Cell?
    /** Head sentinel, cells, tail sentinel, with their CARs and CDRs. */
    ghost var chain: seq<Cell>
    ghost var cars: seq<Cell?>
    ghost var cdrs: seq<Cell?>

    ghost predicate Valid()
      reads this, chain
    {
      if head == null then chain == []
      else Linked(chain, cars, cdrs) && Reflects(chain, cars, cdrs) && chain[0] == head && BareEnds(chain)
    }

    /** The cells between the sentinels. */
    ghost function Cells(): seq<Cell>
      reads this
    {
      if |chain| < 2 then [] else chain[1..|chain| - 1]
    }

    constructor ()
      ensures Valid() && chain == [] && head == null
    {
      head, chain, cars, cdrs := null, [], [], [];
    }

    /** The first call makes the sentinels. */
    method Initialize()
      requires Valid()
      modifies this
      ensures Valid() && head != null && Cells() == old(Cells())
      ensures old(chain) == [] ==> fresh(chain)
      ensures old(chain) != [] ==> unchanged(this)
    {
      if head == null {
        var tail := new Cell(null, null);
        head := new Cell(null, tail);
        chain, cars, cdrs := [head, tail], [null, null], [tail, null];
      }
    }

    /** The allocation and the three writes of `protect`. */
    method MakeCell(data: Sexp) returns (cell: Cell)
      requires Valid() && head != null
      modifies chain
      ensures |chain| == |cars| == |cdrs| >= 2
      ensures fresh(cell) && cell.car == chain[0] && cell.cdr == chain[1] && cell.tag == data
      ensures Reflects(chain, cars[1 := cell], cdrs[0 := cell])
      ensures forall c :: c in chain ==> c.tag == old(c.tag)
    {
      hide Linked, BareEnds;
      Front(chain, cars, cdrs);
      var tail := head.cdr;
      cell := new Cell(head, tail);
      cell.tag := data;
      head.cdr := cell;
      tail.car := cell;
    }

    /** The cell allocated by `protect`, linked in right after the head. */
    method LinkFirst(data: Sexp) returns (cell: Cell)
      requires Valid() && head != null
      modifies this, chain
      ensures Valid() && fresh(cell) && cell.tag == data
      ensures |old(chain)| >= 2 && chain == [old(chain)[0], cell] + old(chain)[1..]
      ensures forall c :: c in old(chain) ==> c.tag == old(c.tag)
    {
      hide Linked, Reflects;
      cell := MakeCell(data);
      InsertFirst(chain, cars, cdrs, cell);
      ghost var s, a, d := chain, cars[1 := cell], cdrs[0 := cell];
      chain, cars, cdrs := [s[0], cell] + s[1..], [a[0], s[0]] + a[1..], [cell, s[1]] + d[1..];
      ReflectsInsert(s, a, d, cell);
      EndsAfterInsert(s, cell);
    }

    /** The same, in terms of the cells between the sentinels. */
    method ProtectObject(data: Sexp) returns (cell: Cell)
      requires Valid() && head != null
      modifies this, chain
      ensures Valid() && fresh(cell) && cell.tag == data && Cells() == [cell] + old(Cells())
      ensures forall c :: c in old(Cells()) ==> c.tag == old(c.tag)
      ensures forall c :: c in chain ==> c in old(chain) || fresh(c)
    {
      hide Linked, Reflects;
      ghost var before := chain;
      cell := LinkFirst(data);
      InsertInside(before, cell);
    }

    /** `protect`: a new cell right after the head. The tail's CAR starts as nil and is set here. */
    method Protect(data: Sexp) returns (cell: Cell?)
      requires Valid()
      modifies this, chain
      ensures Valid()
      ensures data == NIL ==> cell == null && unchanged(this) && unchanged(old(chain))
      ensures data != NIL ==> cell != null && fresh(cell) && cell.tag == data && Cells() == [cell] + old(Cells())
      ensures forall c :: c in old(Cells()) ==> c.tag == old(c.tag)
      ensures forall c :: c in chain ==> c in old(chain) || fresh(c)
    {
      hide Linked, Reflects, BareEnds, Valid;
      if data == NIL {
        return null;
      }
      Initialize();
      cell := ProtectObject(data);
    }

    lemma HasHead()
      requires Valid()
      ensures Cells() != [] ==> head != null
    {
    }

    /** The relinking of `unprotect`, around the cell in place `k + 1`. */
    method Unlink(cell: Cell, ghost k: nat)
      requires Valid() && head != null && k + 2 < |chain| && chain[k + 1] == cell
      modifies this, chain
      ensures Valid() && head == old(head)
      ensures chain == Without(old(chain), k + 1) && cell.tag == NIL
      ensures forall c :: c in old(chain) && c != cell ==> c.tag == old(c.tag)
    {
      hide Linked, Without;
      Neighbours(chain, cars, cdrs, k + 1);
      Bypass(chain, cars, cdrs, k + 1);
      var prev := cell.car;
      var next := cell.cdr;
      prev.cdr := next;
      next.car := prev;
      cell.tag := NIL;
      ghost var s, a, d := chain, cars[k + 2 := prev], cdrs[k := next];
      chain, cars, cdrs := Without(s, k + 1), Without(a, k + 1), Without(d, k + 1);
      ReflectsWithout(s, a, d, k + 1);
      EndsAfterWithout(s, k + 1);
      WithoutParts(s, k + 1);
    }

    /** `unprotect`: link the neighbours of the cell, and let go of its object. */
    method Unprotect(cell: Cell?, ghost k: nat)
      requires Valid()
      requires cell != null ==> k < |Cells()| && Cells()[k] == cell
      modifies this, chain
      ensures Valid()
      ensures cell == null ==> unchanged(this) && unchanged(old(chain))
      ensures cell != null ==> Cells() == Without(old(Cells()), k) && cell.tag == NIL
      ensures forall c :: c in old(Cells()) && c != cell ==> c.tag == old(c.tag)
      ensures forall c :: c in chain ==> c in old(chain)
    {
      hide Valid, Without;
      if cell == null {
        return;
      }
      HasHead();
      WithoutInside(chain, k);
      WithoutParts(chain, k + 1);
      Unlink(cell, k);
    }
  }

  // ---------------------------------------------------------------- handles, as values

  /** What a handle is to the outside: its object, and whether it keeps the object alive. */
  datatype Handle = Handle(sexp: Sexp, owns: bool)

  datatype Op = New(data: Sexp) | View(data: Sexp) | Null | Clone(i: nat) | Drop(i: nat)

  /** The live handles after one operation; an operation on a handle that is not there does nothing. */
  function Step(live: seq<Handle>, op: Op): seq<Handle> {
    match op
    case New(data) => live + [Handle(data, data != NIL)]
    case View(data) => live + [Handle(data, false)]
    case Null => live + [Handle(NIL, false)]
    case Clone(i) => if i < |live| then live + [live[i]] else live
    case Drop(i) => if i < |live| then Without(live, i) else live
  }

  function Replay(ops: seq<Op>): seq<Handle> {
    if ops == [] then [] else Step(Replay(ops[..|ops| - 1]), ops[|ops| - 1])
  }

  /** The objects that live handles keep alive, with multiplicity. */
  function Held(live: seq<Handle>): multiset<Sexp> {
    if live == [] then multiset{}
    else (if live[0].owns then multiset{live[0].sexp} else multiset{}) + Held(live[1..])
  }

  lemma {:induction false} HeldSnoc(live: seq<Handle>, x: Handle)
    ensures Held(live + [x]) == Held(live) + if x.owns then multiset{x.sexp} else multiset{}
  {
    if live == [] {
      assert live + [x] == [x] && [x][1..] == [];
    } else {
      assert (live + [x])[1..] == live[1..] + [x];
      HeldSnoc(live[1..], x);
    }
  }

  lemma {:induction false} HeldWithout(live: seq<Handle>, i: nat)
    requires i < |live|
    ensures Held(live) == Held(Without(live, i)) + if live[i].owns then multiset{live[i].sexp} else multiset{}
  {
    if i == 0 {
      assert Without(live, 0) == live[1..];
    } else {
      assert Without(live, i)[1..] == Without(live[1..], i - 1);
      HeldWithout(live[1..], i - 1);
    }
  }

  lemma MultisetWithout<T>(s: seq<T>, k: nat)
    requires k < |s|
    ensures multiset(s) == multiset(Without(s, k)) + multiset{s[k]}
  {
    assert s == s[..k] + [s[k]] + s[k + 1..];
  }

  // ---------------------------------------------------------------- handles, in the heap

  datatype RObject = RObject(sexp: Sexp, cell: Cell?)

  function Shape(live: seq<RObject>): (r: seq<Handle>)
    ensures |r| == |live|
  {
    seq(|live|, i requires 0 <= i < |live| => Handle(live[i].sexp, live[i].cell != null))
  }

  /** `x` owns the cell in some place of the list, and that place is tagged with its object. */
  ghost predicate OwnsPlace(cells: seq<Cell>, tags: seq<Sexp>, x: RObject) {
    |tags| == |cells| && exists k :: 0 <= k < |cells| && cells[k] == x.cell && tags[k] == x.sexp
  }

  /** Each owning handle has its own cell on the list, and the tags are exactly what handles hold. */
  ghost predicate Balanced(cells: seq<Cell>, tags: seq<Sexp>, live: seq<RObject>) {
    && |tags| == |cells|
    && NIL !in tags
    && (forall x :: x in live && x.cell != null ==> OwnsPlace(cells, tags, x))
    && (forall i, j :: 0 <= i < j < |live| && live[i].cell != null ==> live[i].cell != live[j].cell)
    && multiset(tags) == Held(Shape(live))
  }

  lemma OwnsPlaceAdd(cells: seq<Cell>, tags: seq<Sexp>, x: RObject, c: Cell, data: Sexp)
    requires |tags| == |cells|
    requires OwnsPlace(cells, tags, x) || x == RObject(data, c)
    ensures OwnsPlace([c] + cells, [data] + tags, x)
  {
    if OwnsPlace(cells, tags, x) {
      var k :| 0 <= k < |cells| && cells[k] == x.cell && tags[k] == x.sexp;
      assert ([c] + cells)[k + 1] == x.cell && ([data] + tags)[k + 1] == x.sexp;
    } else {
      assert ([c] + cells)[0] == x.cell && ([data] + tags)[0] == x.sexp;
    }
  }

  lemma ShapeSnoc(live: seq<RObject>, x: RObject)
    ensures Shape(live + [x]) == Shape(live) + [Handle(x.sexp, x.cell != null)]
  {
  }

  lemma OwnedCell(cells: seq<Cell>, tags: seq<Sexp>, x: RObject)
    requires OwnsPlace(cells, tags, x)
    ensures x.cell in cells
  {
  }

  lemma BalancedAdd(cells: seq<Cell>, tags: seq<Sexp>, live: seq<RObject>, c: Cell, data: Sexp)
    requires Balanced(cells, tags, live) && c !in cells && data != NIL
    ensures Balanced([c] + cells, [data] + tags, live + [RObject(data, c)])
    ensures Shape(live + [RObject(data, c)]) == Shape(live) + [Handle(data, true)]
  {
    hide OwnsPlace, Held, Shape;
    var live' := live + [RObject(data, c)];
    forall x | x in live' && x.cell != null ensures OwnsPlace([c] + cells, [data] + tags, x) {
      OwnsPlaceAdd(cells, tags, x, c, data);
    }
    forall i | 0 <= i < |live| && live[i].cell != null ensures live[i].cell != c {
      assert live[i] in live;
      OwnedCell(cells, tags, live[i]);
    }
    ShapeSnoc(live, RObject(data, c));
    HeldSnoc(Shape(live), Handle(data, true));
  }

  lemma BalancedAddView(cells: seq<Cell>, tags: seq<Sexp>, live: seq<RObject>, data: Sexp)
    requires Balanced(cells, tags, live)
    ensures Balanced(cells, tags, live + [RObject(data, null)])
    ensures Shape(live + [RObject(data, null)]) == Shape(live) + [Handle(data, false)]
  {
    assert Shape(live + [RObject(data, null)]) == Shape(live) + [Handle(data, false)];
    HeldSnoc(Shape(live), Handle(data, false));
  }

  lemma BalancedDropView(cells: seq<Cell>, tags: seq<Sexp>, live: seq<RObject>, i: nat)
    requires Balanced(cells, tags, live) && i < |live| && live[i].cell == null
    ensures Balanced(cells, tags, Without(live, i))
    ensures Shape(Without(live, i)) == Without(Shape(live), i)
  {
    assert Shape(Without(live, i)) == Without(Shape(live), i);
    HeldWithout(Shape(live), i);
  }

  lemma OwnsPlaceWithout(cells: seq<Cell>, tags: seq<Sexp>, x: RObject, k: nat)
    requires OwnsPlace(cells, tags, x) && k < |cells| && cells[k] != x.cell
    ensures OwnsPlace(Without(cells, k), Without(tags, k), x)
  {
    var m :| 0 <= m < |cells| && cells[m] == x.cell && tags[m] == x.sexp;
    var m' := if m < k then m else m - 1;
    assert Without(cells, k)[m'] == x.cell && Without(tags, k)[m'] == x.sexp;
  }

  lemma WithoutAt<T>(s: seq<T>, i: nat, j: nat)
    requires i < |s| && j < |s| - 1
    ensures Without(s, i)[j] == s[if j < i then j else j + 1]
  {
  }

  lemma ShapeWithout(live: seq<RObject>, i: nat)
    requires i < |live|
    ensures Shape(Without(live, i)) == Without(Shape(live), i)
  {
  }

  /** The handles that stay keep cells of their own, all different from the one that goes. */
  lemma OthersOwn(cells: seq<Cell>, tags: seq<Sexp>, live: seq<RObject>, i: nat, k: nat)
    requires Balanced(cells, tags, live) && i < |live| && live[i].cell != null
    requires k < |cells| && cells[k] == live[i].cell
    ensures forall x :: x in Without(live, i) && x.cell != null ==> OwnsPlace(Without(cells, k), Without(tags, k), x)
    ensures forall a, b :: 0 <= a < b < |live| - 1 && Without(live, i)[a].cell != null ==>
              Without(live, i)[a].cell != Without(live, i)[b].cell
  {
    hide OwnsPlace, Without, Held, Shape;
    var live' := Without(live, i);
    assert |live'| == |live| - 1 by { WithoutLength(live, i); }
    forall j | 0 <= j < |live'| ensures live'[j] == live[if j < i then j else j + 1] {
      WithoutAt(live, i, j);
    }
    forall x | x in live' && x.cell != null ensures OwnsPlace(Without(cells, k), Without(tags, k), x) {
      var j :| 0 <= j < |live'| && live'[j] == x;
      assert x == live[if j < i then j else j + 1] && x in live;
      OwnsPlaceWithout(cells, tags, x, k);
    }
  }

  lemma WithoutLength<T>(s: seq<T>, i: nat)
    requires i < |s|
    ensures |Without(s, i)| == |s| - 1
    ensures forall x :: x in Without(s, i) ==> x in s
  {
  }

  lemma BalancedDrop(cells: seq<Cell>, tags: seq<Sexp>, live: seq<RObject>, i: nat, k: nat)
    requires Balanced(cells, tags, live) && i < |live| && live[i].cell != null
    requires k < |cells| && cells[k] == live[i].cell && tags[k] == live[i].sexp
    ensures Balanced(Without(cells, k), Without(tags, k), Without(live, i))
    ensures Shape(Without(live, i)) == Without(Shape(live), i)
  {
    OthersOwn(cells, tags, live, i, k);
    hide OwnsPlace, Without;
    WithoutLength(cells, k);
    WithoutLength(tags, k);
    WithoutLength(live, i);
    ShapeWithout(live, i);
    HeldWithout(Shape(live), i);
    MultisetWithout(tags, k);
    Cancel(multiset(Without(tags, k)), Held(Shape(Without(live, i))), tags[k]);
  }

  lemma Cancel<T>(a: multiset<T>, b: multiset<T>, x: T)
    requires a + multiset{x} == b + multiset{x}
    ensures a == b
  {
    assert a == (a + multiset{x}) - multiset{x};
    assert b == (b + multiset{x}) - multiset{x};
  }

  /** The heap agrees with the tags recorded for a list of cells. */
  ghost predicate Tagged(cells: seq<Cell>, tags: seq<Sexp>)
    reads cells
  {
    |tags| == |cells| && forall i :: 0 <= i < |cells| ==> cells[i].tag == tags[i]
  }

  /** All live `RObject`s of the R thread. */
  class Handles {
    const list: PreciousList
    var live: seq<RObject>
    /** The tags along the list. */
    ghost var tags: seq<Sexp>

    ghost predicate Valid()
      reads this, list, list.chain
    {
      list.Valid() && Tagged(list.Cells(), tags) && Balanced(list.Cells(), tags, live)
    }

    constructor ()
      ensures Valid() && live == [] && fresh(list) && list.chain == []
    {
      list := new PreciousList();
      live, tags := [], [];
    }

    /** `RObject::new`. */
    method New(data: Sexp)
      requires Valid()
      modifies this, list, list.chain
      ensures Valid() && Shape(live) == old(Shape(live)) + [Handle(data, data != NIL)]
      ensures forall c :: c in list.chain ==> c in old(list.chain) || fresh(c)
    {
      hide Balanced, Linked, Reflects, Shape;
      ghost var cells := list.Cells();
      var cell := list.Protect(data);
      if cell != null {
        BalancedAdd(cells, tags, live, cell, data);
        tags := [data] + tags;
        assert Tagged([cell] + cells, tags);
      } else {
        BalancedAddView(cells, tags, live, data);
      }
      live := live + [RObject(data, cell)];
    }

    /** `RObject::view`, and `RObject::null` on nil. */
    method View(data: Sexp)
      requires Valid()
      modifies this
      ensures Valid() && Shape(live) == old(Shape(live)) + [Handle(data, false)]
    {
      hide Balanced, Linked, Reflects, Shape;
      BalancedAddView(list.Cells(), tags, live, data);
      live := live + [RObject(data, null)];
    }

    /** `Clone::clone`: a view stays a view, anything else is protected again. */
    method Clone(i: nat)
      requires Valid() && i < |live|
      modifies this, list, list.chain
      ensures Valid() && Shape(live) == old(Shape(live)) + [old(Shape(live))[i]]
      ensures forall c :: c in list.chain ==> c in old(list.chain) || fresh(c)
    {
      var x := live[i];
      if x.cell == null {
        View(x.sexp);
      } else {
        assert OwnsPlace(list.Cells(), tags, x);
        New(x.sexp);
      }
    }

    /** `Drop::drop`. */
    method Drop(i: nat)
      requires Valid() && i < |live|
      modifies this, list, list.chain
      ensures Valid() && Shape(live) == Without(old(Shape(live)), i)
      ensures forall c :: c in list.chain ==> c in old(list.chain) || fresh(c)
    {
      if live[i].cell == null {
        DropView(i);
      } else {
        assert OwnsPlace(list.Cells(), tags, live[i]);
        ghost var k :| 0 <= k < |tags| && list.Cells()[k] == live[i].cell && tags[k] == live[i].sexp;
        DropOwner(i, k);
      }
    }

    /** One operation, on a handle that may not be there. */
    method Do(op: Op)
      requires Valid()
      modifies this, list, list.chain
      ensures Valid() && Shape(live) == Step(old(Shape(live)), op)
      ensures forall c :: c in list.chain ==> c in old(list.chain) || fresh(c)
    {
      hide Balanced, Linked, Reflects, BareEnds, Shape, Tagged;
      match op
      case New(data) => New(data);
      case View(data) => View(data);
      case Null => View(NIL);
      case Clone(i) => if i < |live| { Clone(i); }
      case Drop(i) => if i < |live| { Drop(i); }
    }

    method DropView(i: nat)
      requires Valid() && i < |live| && live[i].cell == null
      modifies this, list, list.chain
      ensures Valid() && Shape(live) == Without(old(Shape(live)), i) && unchanged(list)
    {
      hide Balanced, Linked, Reflects, Shape, Without;
      list.Unprotect(live[i].cell, 0);
      BalancedDropView(list.Cells(), tags, live, i);
      live := Without(live, i);
    }

    method DropOwner(i: nat, ghost k: nat)
      requires Valid() && i < |live| && live[i].cell != null
      requires k < |tags| && list.Cells()[k] == live[i].cell && tags[k] == live[i].sexp
      modifies this, list, list.chain
      ensures Valid() && Shape(live) == Without(old(Shape(live)), i)
      ensures forall c :: c in list.chain ==> c in old(list.chain)
    {
      hide Balanced, Linked, Reflects, Shape, Without;
      ghost var cells := list.Cells();
      BalancedDrop(cells, tags, live, i, k);
      DistinctCells(list);
      list.Unprotect(live[i].cell, k);
      TaggedWithout(cells, tags, k);
      tags := Without(tags, k);
      live := Without(live, i);
    }
  }

  lemma DistinctCells(list: PreciousList)
    requires list.Valid()
    ensures forall i, j :: 0 <= i < j < |list.Cells()| ==> list.Cells()[i] != list.Cells()[j]
  {
  }

  lemma TaggedWithout(cells: seq<Cell>, tags: seq<Sexp>, k: nat)
    requires |cells| == |tags| && k < |cells|
    requires forall i :: 0 <= i < |cells| && i != k ==> cells[i].tag == tags[i]
    ensures Tagged(Without(cells, k), Without(tags, k))
  {
  }

  // ---------------------------------------------------------------- every run

  /** Following CDR `k` times. */
  ghost function Follow(c: Cell?, k: nat): Cell?
    reads *
    decreases k
  {
    if k == 0 || c == null then c else Follow(c.cdr, k - 1)
  }

  /** An object the garbage collector finds from the preserved head: CDR links, then a TAG. */
  ghost predicate Reachable(list: PreciousList, o: Sexp)
    reads *
  {
    exists k :: Follow(list.head, k) != null && Follow(list.head, k).tag == o
  }

  lemma NextCell(list: PreciousList, i: nat)
    requires list.Valid() && i < |list.chain|
    ensures list.chain[i].cdr == if i + 1 < |list.chain| then list.chain[i + 1] else null
  {
    assert list.chain[i].cdr == list.cdrs[i];
  }

  lemma {:induction false} FollowChain(list: PreciousList, i: nat, k: nat)
    requires list.Valid() && i < |list.chain|
    ensures Follow(list.chain[i], k) == if i + k < |list.chain| then list.chain[i + k] else null
    decreases k
  {
    hide Linked, Reflects, BareEnds;
    NextCell(list, i);
    if k > 0 && i + 1 < |list.chain| {
      FollowChain(list, i + 1, k - 1);
    }
  }

  /** The non-nil tags met along CDR links are those recorded. */
  lemma ReachableIffTagged(list: PreciousList, tags: seq<Sexp>, o: Sexp)
    requires list.Valid() && Tagged(list.Cells(), tags) && o != NIL
    ensures Reachable(list, o) <==> o in tags
  {
    hide Linked, Reflects;
    var cells := list.Cells();
    if Reachable(list, o) {
      var k: nat :| Follow(list.head, k) != null && Follow(list.head, k).tag == o;
      FollowChain(list, 0, k);
      assert list.chain[k] == cells[k - 1];
    }
    if o in tags {
      var i: nat :| i < |tags| && tags[i] == o;
      assert cells[i] == list.chain[i + 1];
      FollowChain(list, 0, i + 1);
    }
  }

  /** An object is reachable from the list exactly when a live handle holds it. */
  lemma ReachableIffHeld(handles: Handles, o: Sexp)
    requires handles.Valid() && o != NIL
    ensures Reachable(handles.list, o) <==> Held(Shape(handles.live))[o] > 0
  {
    hide Linked, Reflects, BareEnds, Shape, Held;
    ReachableIffTagged(handles.list, handles.tags, o);
    TagsAreHeld(handles);
    assert o in handles.tags <==> o in multiset(handles.tags);
  }

  /**
   Any run of handle operations, from nothing. The list stays well formed, the live handles are those
   of the replay, and the tags on the list are exactly the objects they hold.
   */
  method Run(ops: seq<Op>) returns (handles: Handles)
    ensures handles.Valid() && Shape(handles.live) == Replay(ops)
    ensures multiset(handles.tags) == Held(Replay(ops))
  {
    hide *;
    handles := new Handles();
    ReplayNothing();
    assert ops[..0] == [] && ops[..|ops|] == ops;
    for n := 0 to |ops|
      invariant fresh(handles) && fresh(handles.list) && fresh(handles.list.chain)
      invariant forall c :: c in handles.list.chain ==> fresh(c)
      invariant handles.Valid() && Shape(handles.live) == Replay(ops[..n])
    {
      ReplayStep(ops, n);
      handles.Do(ops[n]);
      forall i | 0 <= i < |handles.list.chain| ensures fresh(handles.list.chain[i]) {
        assert handles.list.chain[i] in handles.list.chain;
      }
    }
    TagsAreHeld(handles);
  }

  lemma ReplayNothing()
    ensures Shape([]) == Replay([])
  {
  }

  lemma ReplayStep(ops: seq<Op>, n: nat)
    requires n < |ops|
    ensures Replay(ops[..n + 1]) == Step(Replay(ops[..n]), ops[n])
  {
    assert ops[..n + 1][..n] == ops[..n];
  }

  lemma TagsAreHeld(handles: Handles)
    requires handles.Valid()
    ensures multiset(handles.tags) == Held(Shape(handles.live))
  {
  }
}

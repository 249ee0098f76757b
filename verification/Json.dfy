/**
 Conversion between R objects and JSON values: `crates/harp/src/json.rs`. An error stands for any
 `Err` or R error on the way; the stack check is left out.
 */
module Json {
  import opened Prelude

  const NA_INT: int := -0x8000_0000
  const I64_MAX: int := 0x7FFF_FFFF_FFFF_FFFF
  const NUL: char := '\0'

  /** A JSON value. Objects keep insertion order; their keys are distinct (see `Wf`). */
  datatype Value =
    | Null
    | Bool(b: bool)
    | Int(i: int)
    | Float(f: real)
    | String(s: string)
    | Array(items: seq<Value>)
    | Object(keys: seq<string>, vals: seq<Value>)

  datatype Double = Finite(x: real) | NotFinite(isNA: bool)

  /** An R object, as far as the conversion looks. `None` is a missing logical, string or name. */
  datatype RObject =
    | RNull
    | RInt(ints: seq<int>)
    | RReal(reals: seq<Double>)
    | RLogical(bools: seq<Option<bool>>)
    | RSymbol(name: Option<string>)
    | RString(strings: seq<Option<string>>)
    | RList(elements: seq<RObject>, names: Option<seq<Option<string>>>)
    | ROther

  ghost predicate Wf(v: Value) {
    match v
    case Int(i) => -I64_MAX - 1 <= i <= 2 * I64_MAX + 1
    case Array(items) => forall x :: x in items ==> Wf(x)
    case Object(keys, vals) =>
      && |keys| == |vals|
      && Distinct(keys)
      && (forall x :: x in vals ==> Wf(x))
    case _ => true
  }

  // ---------------------------------------------------------------- JSON to R

  /** A `u64` above `i64::MAX` as a double: the nearest multiple of 2048, ties to even. */
  function BigToReal(i: int): real
  {
    var q := i / 2048;
    var up := i % 2048 > 1024 || (i % 2048 == 1024 && q % 2 == 1);
    ((if up then q + 1 else q) * 2048) as real
  }

  function NumberToR(i: int): Result<RObject> {
    if i > I64_MAX then Ok(RReal([Finite(BigToReal(i))]))
    else if i < NA_INT || i > -NA_INT - 1 then Err
    else Ok(RInt([i]))
  }

  function ToR(v: Value): Result<RObject>
    decreases v
  {
    match v
    case Null => Ok(RNull)
    case Bool(b) => Ok(RLogical([Some(b)]))
    case Int(i) => NumberToR(i)
    case Float(f) => Ok(RReal([Finite(f)]))
    case String(s) => if NUL in s then Err else Ok(RString([Some(s)]))
    case Array(items) =>
      (match AllToR(items, |items|)
       case Err => Err
       case Ok(rs) => Ok(RList(rs, None)))
    case Object(keys, vals) =>
      match AllToR(vals, |vals|)
      case Err => Err
      case Ok(rs) => if exists k :: k in keys && NUL in k then Err else Ok(RList(rs, Some(Names(keys))))
  }

  /** The first `n` values, converted one after the other. */
  function AllToR(vs: seq<Value>, n: nat): (r: Result<seq<RObject>>)
    requires n <= |vs|
    ensures r.Ok? ==> |r.value| == n
    decreases vs, n
  {
    if n == 0 then Ok([])
    else
      match AllToR(vs, n - 1)
      case Err => Err
      case Ok(rs) =>
        match ToR(vs[n - 1])
        case Err => Err
        case Ok(x) => Ok(rs + [x])
  }

  function Names(keys: seq<string>): seq<Option<string>> {
    seq(|keys|, i requires 0 <= i < |keys| => Some(keys[i]))
  }

  // ---------------------------------------------------------------- R to JSON

  /** The elements of an atomic vector: none is null, one a scalar, more an array. */
  function Vector(items: seq<Value>): Value
  {
    if |items| == 0 then Null else Array(items)
  }

  function IntElement(i: int): Value {
    if i == NA_INT then Null else Int(i)
  }

  function RealElement(d: Double): Value {
    if d.Finite? then Float(d.x) else Null
  }

  function BoolElement(b: Option<bool>): Value {
    if b.Some? then Bool(b.value) else Null
  }

  function StringElement(s: Option<string>): Value {
    if s.Some? then String(s.value) else Null
  }

  /** The first `n` names as keys; a missing name is an empty key. */
  function KeysOf(names: seq<Option<string>>, n: nat): (keys: seq<string>)
    requires n <= |names|
    ensures |keys| == n
  {
    seq(n, i requires 0 <= i < n => if names[i].Some? then names[i].value else "")
  }

  /** Some name is there and not empty; otherwise the list counts as unnamed. */
  predicate HasName(names: Option<seq<Option<string>>>) {
    names.Some? && exists n :: n in names.value && n.Some? && n.value != ""
  }

  function Min(a: nat, b: nat): nat {
    if a < b then a else b
  }

  function ToJson(o: RObject): Result<Value>
    decreases o
  {
    match o
    case RNull => Ok(Null)
    case RInt(ints) =>
      if |ints| == 1 then (if ints[0] == NA_INT then Err else Ok(Int(ints[0])))
      else Ok(Vector(seq(|ints|, i requires 0 <= i < |ints| => IntElement(ints[i]))))
    case RReal(reals) =>
      if |reals| == 1 then (if reals[0] == NotFinite(true) then Err else Ok(RealElement(reals[0])))
      else Ok(Vector(seq(|reals|, i requires 0 <= i < |reals| => RealElement(reals[i]))))
    case RLogical(bools) =>
      if |bools| == 1 then (if bools[0].None? then Err else Ok(Bool(bools[0].value)))
      else Ok(Vector(seq(|bools|, i requires 0 <= i < |bools| => BoolElement(bools[i]))))
    case RSymbol(name) => Ok(if name.Some? then String(name.value) else Null)
    case RString(strings) =>
      if |strings| == 1 then (if strings[0].None? then Err else Ok(String(strings[0].value)))
      else Ok(Vector(seq(|strings|, i requires 0 <= i < |strings| => StringElement(strings[i]))))
    case RList(elements, names) =>
      if elements == [] then Ok(Null)
      else if HasName(names) then
        var n := Min(|elements|, |names.value|);
        (match AllToJson(elements, n)
         case Err => Err
         case Ok(vals) =>
           var f := Collected(KeysOf(names.value, n), vals);
           Ok(Object(f.keys, f.vals)))
      else
        (match AllToJson(elements, |elements|)
         case Err => Err
         case Ok(vals) => Ok(Array(vals)))
    case ROther => Ok(Null)
  }

  function AllToJson(os: seq<RObject>, n: nat): (r: Result<seq<Value>>)
    requires n <= |os|
    ensures r.Ok? ==> |r.value| == n
    decreases os, n
  {
    if n == 0 then Ok([])
    else
      match AllToJson(os, n - 1)
      case Err => Err
      case Ok(vs) =>
        match ToJson(os[n - 1])
        case Err => Err
        case Ok(x) => Ok(vs + [x])
  }

  // ---------------------------------------------------------------- repeated names

  /** An object under construction. */
  datatype Fields = Fields(keys: seq<string>, vals: seq<Value>)

  function IndexOf(keys: seq<string>, k: string): (i: nat)
    requires k in keys
    ensures i < |keys| && keys[i] == k
    ensures forall j :: 0 <= j < i ==> keys[j] != k
  {
    if keys[0] == k then 0 else 1 + IndexOf(keys[1..], k)
  }

  /** A value that comes second for its key: appended to an array, or paired with the first. */
  function Joined(existing: Value, v: Value): Value {
    if existing.Array? then Array(existing.items + [v]) else Array([existing, v])
  }

  function AddField(f: Fields, k: string, v: Value): (r: Fields)
    requires |f.keys| == |f.vals|
    ensures |r.keys| == |r.vals|
  {
    if k in f.keys then
      var i := IndexOf(f.keys, k);
      f.(vals := f.vals[i := Joined(f.vals[i], v)])
    else Fields(f.keys + [k], f.vals + [v])
  }

  function Collected(keys: seq<string>, vals: seq<Value>): (r: Fields)
    requires |keys| == |vals|
    ensures |r.keys| == |r.vals|
    decreases |keys|
  {
    if keys == [] then Fields([], [])
    else AddField(Collected(keys[..|keys| - 1], vals[..|vals| - 1]), keys[|keys| - 1], vals[|vals| - 1])
  }

  /** The loop that fills the map of a named list. */
  method Collect(keys: seq<string>, vals: seq<Value>) returns (f: Fields)
    requires |keys| == |vals|
    ensures f == Collected(keys, vals)
  {
    f := Fields([], []);
    assert keys[..0] == [] && keys[..|keys|] == keys && vals[..|vals|] == vals;
    for i := 0 to |keys|
      invariant f == Collected(keys[..i], vals[..i])
    {
      assert keys[..i + 1][..i] == keys[..i] && vals[..i + 1][..i] == vals[..i];
      if keys[i] in f.keys {
        var at := IndexOf(f.keys, keys[i]);
        match f.vals[at] {
          case Array(arr) =>
            f := f.(vals := f.vals[at := Array(arr + [vals[i]])]);
          case existing =>
            f := f.(vals := f.vals[at := Array([existing, vals[i]])]);
        }
      } else {
        f := Fields(f.keys + [keys[i]], f.vals + [vals[i]]);
      }
    }
  }

  /** The values given for a key, in order. */
  function ValuesFor(keys: seq<string>, vals: seq<Value>, k: string): seq<Value>
    requires |keys| == |vals|
    decreases |keys|
  {
    if keys == [] then []
    else ValuesFor(keys[..|keys| - 1], vals[..|vals| - 1], k)
         + if keys[|keys| - 1] == k then [vals[|vals| - 1]] else []
  }

  /** What the values of one key become. */
  function Grouped(vs: seq<Value>): Value
    requires vs != []
  {
    if |vs| == 1 then vs[0]
    else if vs[0].Array? then Array(vs[0].items + vs[1..])
    else Array(vs)
  }

  lemma GroupedSnoc(vs: seq<Value>, v: Value)
    requires vs != []
    ensures Joined(Grouped(vs), v) == Grouped(vs + [v])
  {
    assert (vs + [v])[0] == vs[0] && (vs + [v])[1..] == vs[1..] + [v];
    if |vs| == 1 {
      assert vs + [v] == [vs[0], v];
    } else if vs[0].Array? {
      assert vs[0].items + vs[1..] + [v] == vs[0].items + (vs[1..] + [v]);
    }
  }

  predicate Distinct(keys: seq<string>) {
    forall i, j :: 0 <= i < j < |keys| ==> keys[i] != keys[j]
  }

  lemma AddFieldAt(f: Fields, k: string, v: Value, k': string)
    requires |f.keys| == |f.vals| && Distinct(f.keys)
    ensures var g := AddField(f, k, v);
            && Distinct(g.keys)
            && (k' in g.keys <==> k' in f.keys || k' == k)
            && (forall j :: 0 <= j < |g.keys| && g.keys[j] == k' ==>
                  g.vals[j] == if k' !in f.keys then v
                               else var w := f.vals[IndexOf(f.keys, k')]; if k' == k then Joined(w, v) else w)
  {
  }

  /** One field more, when `f` has collected the values `vs` for `k`. */
  lemma FieldMore(f: Fields, key: string, v: Value, k: string, vs: seq<Value>)
    requires |f.keys| == |f.vals| && Distinct(f.keys) && (k in f.keys <==> vs != [])
    requires forall j :: 0 <= j < |f.keys| && f.keys[j] == k ==> vs != [] && f.vals[j] == Grouped(vs)
    ensures var g := AddField(f, key, v);
            var ws := vs + if key == k then [v] else [];
            && Distinct(g.keys)
            && (k in g.keys <==> ws != [])
            && (forall j :: 0 <= j < |g.keys| && g.keys[j] == k ==> ws != [] && g.vals[j] == Grouped(ws))
  {
    hide AddField, Grouped, Joined, Distinct;
    AddFieldAt(f, key, v, k);
    if key == k && vs != [] {
      GroupedSnoc(vs, v);
    } else if key == k {
      assert vs + [v] == [v];
      GroupedOne(v);
    } else {
      assert vs + [] == vs;
    }
  }

  lemma CollectedSnoc(keys: seq<string>, vals: seq<Value>, k: string)
    requires |keys| == |vals| > 0
    ensures var n := |keys| - 1;
            && Collected(keys, vals) == AddField(Collected(keys[..n], vals[..n]), keys[n], vals[n])
            && ValuesFor(keys, vals, k)
               == ValuesFor(keys[..n], vals[..n], k) + if keys[n] == k then [vals[n]] else []
  {
  }

  /** Every key of a named list appears once, and carries its values grouped, for all lists. */
  lemma {:induction false} CollectedFields(keys: seq<string>, vals: seq<Value>, k: string)
    requires |keys| == |vals|
    ensures var f := Collected(keys, vals);
            && Distinct(f.keys)
            && (k in f.keys <==> k in keys)
            && (k in keys <==> ValuesFor(keys, vals, k) != [])
            && (forall j :: 0 <= j < |f.keys| && f.keys[j] == k ==>
                  k in keys && f.vals[j] == Grouped(ValuesFor(keys, vals, k)))
    decreases |keys|
  {
    if keys != [] {
      hide *;
      var n := |keys| - 1;
      CollectedFields(keys[..n], vals[..n], k);
      CollectedSnoc(keys, vals, k);
      FieldMore(Collected(keys[..n], vals[..n]), keys[n], vals[n], k, ValuesFor(keys[..n], vals[..n], k));
      assert keys == keys[..n] + [keys[n]];
    }
  }

  lemma GroupedOne(v: Value)
    ensures Grouped([v]) == v
  {
  }

  /** What the documentation promises for repeated names: the values, in an array. */
  function Promised(vs: seq<Value>): Value
    requires vs != []
  {
    if |vs| == 1 then vs[0] else Array(vs)
  }

  lemma GroupedAsPromised(vs: seq<Value>)
    requires vs != []
    ensures Grouped(vs) == Promised(vs) <==> |vs| == 1 || !vs[0].Array?
  {
    if |vs| > 1 && vs[0].Array? && |vs[0].items| == 1 {
      assert (vs[0].items + vs[1..])[0] == vs[0].items[0] != vs[0];
    }
  }

  /** The promise is kept for a collected key exactly when its first value is not an array or comes alone. */
  lemma PromiseKeptIff(keys: seq<string>, vals: seq<Value>, j: nat)
    requires |keys| == |vals| && j < |Collected(keys, vals).keys|
    ensures var f := Collected(keys, vals);
            var vs := ValuesFor(keys, vals, f.keys[j]);
            && vs != []
            && (f.vals[j] == Promised(vs) <==> |vs| == 1 || !vs[0].Array?)
  {
    hide Grouped, Promised, Collected, ValuesFor;
    var f := Collected(keys, vals);
    CollectedFields(keys, vals, f.keys[j]);
    GroupedAsPromised(ValuesFor(keys, vals, f.keys[j]));
  }

  // ---------------------------------------------------------------- atomic vectors

  predicate IsAtomic(o: RObject) {
    o.RInt? || o.RReal? || o.RLogical? || o.RString?
  }

  function Length(o: RObject): nat
    requires IsAtomic(o)
  {
    match o
    case RInt(ints) => |ints|
    case RReal(reals) => |reals|
    case RLogical(bools) => |bools|
    case RString(strings) => |strings|
  }

  /** The element at `i`, as a vector of its own. */
  function ElementAt(o: RObject, i: nat): RObject
    requires IsAtomic(o) && i < Length(o)
  {
    match o
    case RInt(ints) => RInt([ints[i]])
    case RReal(reals) => RReal([reals[i]])
    case RLogical(bools) => RLogical([bools[i]])
    case RString(strings) => RString([strings[i]])
  }

  predicate MissingAt(o: RObject, i: nat)
    requires IsAtomic(o) && i < Length(o)
  {
    match o
    case RInt(ints) => ints[i] == NA_INT
    case RReal(reals) => reals[i] == NotFinite(true)
    case RLogical(bools) => bools[i].None?
    case RString(strings) => strings[i].None?
  }

  function AsList(o: RObject): RObject
    requires IsAtomic(o)
  {
    RList(seq(Length(o), i requires 0 <= i < Length(o) => ElementAt(o, i)), None)
  }

  /** A vector of more than one element is the array of what its elements are alone; a missing one is null. */
  lemma VectorElements(o: RObject, i: nat)
    requires IsAtomic(o) && i < Length(o) && Length(o) > 1
    ensures ToJson(o).Ok? && ToJson(o).value.Array? && |ToJson(o).value.items| == Length(o)
    ensures ToJson(ElementAt(o, i)) == if MissingAt(o, i) then Err else Ok(ToJson(o).value.items[i])
    ensures MissingAt(o, i) ==> ToJson(o).value.items[i] == Null
  {
  }

  lemma {:induction false} AllElements(o: RObject, n: nat)
    requires IsAtomic(o) && n <= Length(o) && Length(o) > 1
    ensures ToJson(o).Ok? && ToJson(o).value.Array? && |ToJson(o).value.items| == Length(o)
    ensures AllToJson(AsList(o).elements, n) ==
            if exists i :: 0 <= i < n && MissingAt(o, i) then Err else Ok(ToJson(o).value.items[..n])
    decreases n
  {
    VectorElements(o, 0);
    if n > 0 {
      AllElements(o, n - 1);
      hide ToJson;
      VectorElements(o, n - 1);
      assert AsList(o).elements[n - 1] == ElementAt(o, n - 1);
      var items := ToJson(o).value.items;
      assert items[..n] == items[..n - 1] + [items[n - 1]];
    }
  }

  /** An atomic vector, unless it is a scalar, converts like the list of its elements exactly if none is missing. */
  lemma VectorLikeList(o: RObject)
    requires IsAtomic(o) && Length(o) != 1
    ensures ToJson(o) == ToJson(AsList(o)) <==> forall i :: 0 <= i < Length(o) ==> !MissingAt(o, i)
  {
    if Length(o) > 1 {
      AllElements(o, Length(o));
      assert ToJson(o).value.items[..Length(o)] == ToJson(o).value.items;
    }
  }

  // ---------------------------------------------------------------- named lists

  /** What converts to an array: a vector of several elements, or a list without names. */
  predicate BecomesArray(o: RObject) {
    (IsAtomic(o) && Length(o) > 1) || (o.RList? && o.elements != [] && !HasName(o.names))
  }

  lemma ArrayIff(o: RObject)
    requires ToJson(o).Ok?
    ensures ToJson(o).value.Array? <==> BecomesArray(o)
  {
  }

  lemma {:induction false} AllToJsonAt(os: seq<RObject>, n: nat, i: nat)
    requires i < n <= |os| && AllToJson(os, n).Ok?
    ensures ToJson(os[i]).Ok? && AllToJson(os, n).value[i] == ToJson(os[i]).value
    decreases n
  {
    if i < n - 1 {
      AllToJsonAt(os, n - 1, i);
    }
  }

  /** The place of the first value for a key. */
  lemma {:induction false} FirstValue(keys: seq<string>, vals: seq<Value>, k: string)
    requires |keys| == |vals| && k in keys
    ensures ValuesFor(keys, vals, k) != [] && ValuesFor(keys, vals, k)[0] == vals[IndexOf(keys, k)]
    decreases |keys|
  {
    var n := |keys| - 1;
    assert keys == keys[..n] + [keys[n]];
    if k in keys[..n] {
      FirstValue(keys[..n], vals[..n], k);
      FirstIndex(keys, n, k);
    } else {
      NoValue(keys[..n], vals[..n], k);
    }
  }

  lemma FirstIndex(keys: seq<string>, n: nat, k: string)
    requires n <= |keys| && k in keys[..n]
    ensures k in keys && IndexOf(keys, k) == IndexOf(keys[..n], k)
  {
    var i, j := IndexOf(keys[..n], k), IndexOf(keys, k);
    assert keys[i] == keys[..n][i] == k;
    assert j < n ==> keys[..n][j] == keys[j];
  }

  lemma {:induction false} NoValue(keys: seq<string>, vals: seq<Value>, k: string)
    requires |keys| == |vals| && k !in keys
    ensures ValuesFor(keys, vals, k) == []
    decreases |keys|
  {
    if keys != [] {
      NoValue(keys[..|keys| - 1], vals[..|vals| - 1], k);
    }
  }

  /** Every key of `f` carries what is documented for the values it was given. */
  ghost predicate AsPromised(f: Fields, keys: seq<string>, vals: seq<Value>)
    requires |keys| == |vals| && |f.keys| == |f.vals|
  {
    forall j :: 0 <= j < |f.keys| ==>
      ValuesFor(keys, vals, f.keys[j]) != [] && f.vals[j] == Promised(ValuesFor(keys, vals, f.keys[j]))
  }

  /** A name comes again after an element that converts to an array. */
  ghost predicate ArrayThenAgain(elements: seq<RObject>, keys: seq<string>)
    requires |keys| <= |elements|
  {
    exists i, j :: FirstOfTwo(keys, i, j) && BecomesArray(elements[i])
  }

  /** `i` is the first place of a name that comes again at `j`. */
  predicate FirstOfTwo(keys: seq<string>, i: int, j: int) {
    0 <= i < j < |keys| && keys[i] == keys[j] && keys[i] !in keys[..i]
  }

  lemma {:induction false} ManyValues(keys: seq<string>, vals: seq<Value>, k: string)
    requires |keys| == |vals| && k in keys
    ensures |ValuesFor(keys, vals, k)| > 1 <==> exists j :: FirstOfTwo(keys, IndexOf(keys, k), j)
    decreases |keys|
  {
    var n, i := |keys| - 1, IndexOf(keys, k);
    assert keys == keys[..n] + [keys[n]] && k !in keys[..i];
    assert ValuesFor(keys, vals, k) == ValuesFor(keys[..n], vals[..n], k) + if keys[n] == k then [vals[n]] else [];
    hide ValuesFor;
    if k in keys[..n] {
      ManyValues(keys[..n], vals[..n], k);
      FirstValue(keys[..n], vals[..n], k);
      FirstIndex(keys, n, k);
      assert keys[..n][..i] == keys[..i];
      if keys[n] == k {
        assert FirstOfTwo(keys, i, n);
      } else {
        assert forall j :: FirstOfTwo(keys, i, j) <==> FirstOfTwo(keys[..n], i, j);
      }
    } else {
      NoValue(keys[..n], vals[..n], k);
    }
  }

  lemma NamedConverts(elements: seq<RObject>, names: seq<Option<string>>)
    requires elements != [] && HasName(Some(names))
    ensures var n := Min(|elements|, |names|);
            ToJson(RList(elements, Some(names))) ==
            match AllToJson(elements, n)
            case Err => Err
            case Ok(vals) => var f := Collected(KeysOf(names, n), vals); Ok(Object(f.keys, f.vals))
  {
  }

  lemma KeyAt(names: seq<Option<string>>, n: nat, i: nat)
    requires i < n <= |names|
    ensures (if names[i].Some? then names[i].value else "") in KeysOf(names, n)
  {
    assert KeysOf(names, n)[i] in KeysOf(names, n);
  }

  /**
   A named list converts to the object of its names, each with its values as documented, exactly when
   no name comes again after an element that converts to an array.
   */
  lemma NamedListPromise(elements: seq<RObject>, names: seq<Option<string>>)
    requires elements != [] && HasName(Some(names))
    requires AllToJson(elements, Min(|elements|, |names|)).Ok?
    ensures var n := Min(|elements|, |names|);
            var keys, vals := KeysOf(names, n), AllToJson(elements, n).value;
            var r := ToJson(RList(elements, Some(names)));
            && r.Ok? && r.value.Object? && |r.value.keys| == |r.value.vals|
            && (forall k :: k in r.value.keys <==> k in keys) && Distinct(r.value.keys)
            && (forall i :: 0 <= i < n ==> (if names[i].Some? then names[i].value else "") in r.value.keys)
            && (AsPromised(Fields(r.value.keys, r.value.vals), keys, vals) <==> !ArrayThenAgain(elements, keys))
  {
    var n := Min(|elements|, |names|);
    var keys, vals := KeysOf(names, n), AllToJson(elements, n).value;
    var f := Collected(keys, vals);
    hide *;
    NamedConverts(elements, names);
    forall i | 0 <= i < n ensures (if names[i].Some? then names[i].value else "") in keys {
      KeyAt(names, n, i);
    }
    CollectedKeys(keys, vals);
    PromisedUnlessAgain(elements, keys, vals, n);
  }

  lemma CollectedKeys(keys: seq<string>, vals: seq<Value>)
    requires |keys| == |vals|
    ensures Distinct(Collected(keys, vals).keys) && forall k :: k in Collected(keys, vals).keys <==> k in keys
  {
    CollectedFields(keys, vals, "");
    hide Distinct;
    forall k ensures k in Collected(keys, vals).keys <==> k in keys {
      CollectedFields(keys, vals, k);
    }
  }

  lemma PromisedUnlessAgain(elements: seq<RObject>, keys: seq<string>, vals: seq<Value>, n: nat)
    requires n == |keys| == |vals| <= |elements| && AllToJson(elements, n) == Ok(vals)
    ensures AsPromised(Collected(keys, vals), keys, vals) <==> !ArrayThenAgain(elements, keys)
  {
    hide Collected, ToJson, AllToJson, BecomesArray, Promised, ValuesFor;
    var f := Collected(keys, vals);
    CollectedKeys(keys, vals);
    forall j | 0 <= j < |f.keys|
      ensures ValuesFor(keys, vals, f.keys[j]) != []
      ensures f.vals[j] != Promised(ValuesFor(keys, vals, f.keys[j])) ==> ArrayThenAgain(elements, keys)
    {
      KeyAgain(elements, keys, vals, n, j);
    }
    if ArrayThenAgain(elements, keys) {
      var i, m :| FirstOfTwo(keys, i, m) && BecomesArray(elements[i]);
      assert keys[i] in f.keys;
      var j :| 0 <= j < |f.keys| && f.keys[j] == keys[i];
      FirstPlace(keys, i);
      assert FirstOfTwo(keys, IndexOf(keys, keys[i]), m);
      KeyAgain(elements, keys, vals, n, j);
    }
  }

  lemma FirstPlace(keys: seq<string>, i: nat)
    requires i < |keys| && keys[i] !in keys[..i]
    ensures IndexOf(keys, keys[i]) == i
  {
  }

  lemma KeyAgain(elements: seq<RObject>, keys: seq<string>, vals: seq<Value>, n: nat, j: nat)
    requires n == |keys| == |vals| <= |elements| && AllToJson(elements, n) == Ok(vals)
    requires j < |Collected(keys, vals).keys|
    ensures var f := Collected(keys, vals);
            var k := f.keys[j];
            && k in keys && ValuesFor(keys, vals, k) != []
            && (f.vals[j] == Promised(ValuesFor(keys, vals, k)) <==>
                  !(BecomesArray(elements[IndexOf(keys, k)]) && exists m :: FirstOfTwo(keys, IndexOf(keys, k), m)))
  {
    hide Collected, ToJson, AllToJson, BecomesArray, Promised, ValuesFor;
    var k := Collected(keys, vals).keys[j];
    PromiseKeptIff(keys, vals, j);
    CollectedKeys(keys, vals);
    assert k in Collected(keys, vals).keys;
    FirstValue(keys, vals, k);
    ManyValues(keys, vals, k);
    AllToJsonAt(elements, n, IndexOf(keys, k));
    ArrayIff(elements[IndexOf(keys, k)]);
  }

  // ---------------------------------------------------------------- round trip

  /** What survives JSON to R to JSON. */
  ghost predicate Faithful(v: Value) {
    match v
    case Int(i) => NA_INT < i < -NA_INT
    case String(s) => NUL !in s
    case Array(items) => items != [] && forall x :: x in items ==> Faithful(x)
    case Object(keys, vals) =>
      && (exists k :: k in keys && k != "")
      && (forall k :: k in keys ==> NUL !in k)
      && (forall x :: x in vals ==> Faithful(x))
    case _ => true
  }

  ghost predicate RoundTrips(v: Value) {
    ToR(v).Ok? && ToJson(ToR(v).value) == Ok(v)
  }

  ghost predicate AllRoundTrip(vs: seq<Value>, n: nat)
    requires n <= |vs|
  {
    AllToR(vs, n).Ok? && AllToJson(AllToR(vs, n).value, n) == Ok(vs[..n])
  }

  lemma CollectedDistinctStep(keys: seq<string>, n: nat)
    requires Distinct(keys) && n < |keys|
    ensures Distinct(keys[..n]) && keys[n] !in keys[..n]
  {
  }

  lemma {:induction false} CollectedDistinct(keys: seq<string>, vals: seq<Value>)
    requires |keys| == |vals| && Distinct(keys)
    ensures Collected(keys, vals) == Fields(keys, vals)
    decreases |keys|
  {
    if keys != [] {
      hide Distinct;
      var n := |keys| - 1;
      CollectedDistinctStep(keys, n);
      CollectedDistinct(keys[..n], vals[..n]);
      assert keys == keys[..n] + [keys[n]] && vals == vals[..n] + [vals[n]];
    }
  }

  /** Converting a prefix does not depend on what follows. */
  lemma {:induction false} AllToJsonPrefix(a: seq<RObject>, b: seq<RObject>, n: nat)
    requires n <= |a| && n <= |b| && a[..n] == b[..n]
    ensures AllToJson(a, n) == AllToJson(b, n)
    decreases n
  {
    if n > 0 {
      assert a[..n - 1] == a[..n][..n - 1] == b[..n - 1] && a[n - 1] == a[..n][n - 1] == b[n - 1];
      AllToJsonPrefix(a, b, n - 1);
    }
  }

  lemma {:induction false} AllRoundTripIff(vs: seq<Value>, n: nat)
    requires n <= |vs| && forall x :: x in vs ==> Wf(x)
    ensures AllRoundTrip(vs, n) <==> forall i :: 0 <= i < n ==> Faithful(vs[i])
    decreases vs, n
  {
    if n > 0 {
      AllRoundTripIff(vs, n - 1);
      RoundTripIff(vs[n - 1]);
      AllRoundTripStep(vs, n);
    }
  }

  lemma AllRoundTripStep(vs: seq<Value>, n: nat)
    requires 0 < n <= |vs|
    ensures AllRoundTrip(vs, n) <==> AllRoundTrip(vs, n - 1) && RoundTrips(vs[n - 1])
  {
    hide ToR, ToJson;
    assert vs[..n] == vs[..n - 1] + [vs[n - 1]];
    if AllToR(vs, n - 1).Ok? && ToR(vs[n - 1]).Ok? {
      var rs, x := AllToR(vs, n - 1).value, ToR(vs[n - 1]).value;
      assert AllToR(vs, n).value == rs + [x];
      assert (rs + [x])[..n - 1] == rs[..n - 1];
      AllToJsonPrefix(rs + [x], rs, n - 1);
      if AllToJson(rs, n - 1).Ok? && ToJson(x).Ok? {
        var ws, y := AllToJson(rs, n - 1).value, ToJson(x).value;
        assert AllToJson(rs + [x], n) == Ok(ws + [y]);
        assert ws + [y] == vs[..n - 1] + [vs[n - 1]] <==> ws == vs[..n - 1] && y == vs[n - 1] by {
          if ws + [y] == vs[..n - 1] + [vs[n - 1]] {
            assert (ws + [y])[..n - 1] == ws && (ws + [y])[n - 1] == y;
          }
        }
      }
    }
  }

  lemma ArrayRoundTrip(items: seq<Value>)
    ensures RoundTrips(Array(items)) <==> items != [] && AllRoundTrip(items, |items|)
  {
    assert items[..|items|] == items;
  }

  lemma KeysOfNames(keys: seq<string>)
    ensures |Names(keys)| == |keys| && KeysOf(Names(keys), |keys|) == keys
  {
  }

  lemma NamedToJson(keys: seq<string>, rs: seq<RObject>)
    requires Distinct(keys) && |keys| == |rs| && (exists k :: k in keys && k != "")
    ensures ToJson(RList(rs, Some(Names(keys)))) ==
            match AllToJson(rs, |rs|) case Err => Err case Ok(vals) => Ok(Object(keys, vals))
  {
    HasNameOfKeys(keys);
    KeysOfNames(keys);
    hide HasName, Names, Collected, KeysOf;
    if AllToJson(rs, |rs|).Ok? {
      CollectedDistinct(keys, AllToJson(rs, |rs|).value);
    }
  }

  lemma UnnamedToJson(keys: seq<string>, rs: seq<RObject>)
    requires |keys| == |rs| && !(exists k :: k in keys && k != "")
    ensures ToJson(RList(rs, Some(Names(keys)))).Ok? ==> !ToJson(RList(rs, Some(Names(keys)))).value.Object?
  {
    HasNameOfKeys(keys);
  }

  lemma ObjectRoundTrip(keys: seq<string>, vals: seq<Value>)
    requires |keys| == |vals| && Distinct(keys)
    ensures RoundTrips(Object(keys, vals)) <==>
            (exists k :: k in keys && k != "") && (forall k :: k in keys ==> NUL !in k) && AllRoundTrip(vals, |vals|)
  {
    hide ToJson, Names, Distinct;
    assert vals[..|vals|] == vals;
    if AllToR(vals, |vals|).Ok? {
      var rs := AllToR(vals, |vals|).value;
      if exists k :: k in keys && k != "" {
        NamedToJson(keys, rs);
      } else {
        UnnamedToJson(keys, rs);
      }
    }
  }

  lemma HasNameOfKeys(keys: seq<string>)
    ensures HasName(Some(Names(keys))) <==> exists k :: k in keys && k != ""
  {
    var names := Names(keys);
    if k :| k in keys && k != "" {
      var i :| 0 <= i < |keys| && keys[i] == k;
      assert names[i] == Some(k);
    }
    if n :| n in names && n.Some? && n.value != "" {
      var i :| 0 <= i < |names| && names[i] == n;
      assert keys[i] in keys && keys[i] != "";
    }
  }

  /** JSON to R to JSON is the identity on exactly the faithful values. */
  lemma {:induction false} RoundTripIff(v: Value)
    requires Wf(v)
    ensures RoundTrips(v) <==> Faithful(v)
    decreases v
  {
    match v
    case Array(items) =>
      AllRoundTripIff(items, |items|);
      ArrayRoundTrip(items);
      assert (forall i :: 0 <= i < |items| ==> Faithful(items[i])) <==> forall x :: x in items ==> Faithful(x);
    case Object(keys, vals) =>
      AllRoundTripIff(vals, |vals|);
      ObjectRoundTrip(keys, vals);
      assert (forall i :: 0 <= i < |vals| ==> Faithful(vals[i])) <==> forall x :: x in vals ==> Faithful(x);
    case _ =>
  }

  // ---------------------------------------------------------------- the other way round

  /** Names for `n` elements: all there, all different, without NUL, and not just the empty one. */
  ghost predicate ProperNames(names: seq<Option<string>>, n: nat) {
    && |names| == n
    && (forall x :: x in names ==> x.Some? && NUL !in x.value)
    && (forall i, j :: 0 <= i < j < |names| ==> names[i] != names[j])
    && HasName(Some(names))
  }

  /** What survives R to JSON to R: scalars that are not missing, and non-empty lists of such objects. */
  ghost predicate Plain(o: RObject) {
    match o
    case RNull => true
    case RInt(ints) => |ints| == 1 && NA_INT < ints[0] < -NA_INT
    case RReal(reals) => |reals| == 1 && reals[0].Finite?
    case RLogical(bools) => |bools| == 1 && bools[0].Some?
    case RString(strings) => |strings| == 1 && strings[0].Some? && NUL !in strings[0].value
    case RList(elements, names) =>
      && elements != [] && (forall x :: x in elements ==> Plain(x))
      && (names.Some? ==> ProperNames(names.value, |elements|))
    case _ => false
  }

  ghost predicate ComesBack(o: RObject) {
    ToJson(o).Ok? && ToR(ToJson(o).value) == Ok(o)
  }

  ghost predicate AllComeBack(os: seq<RObject>, n: nat)
    requires n <= |os|
  {
    AllToJson(os, n).Ok? && AllToR(AllToJson(os, n).value, n) == Ok(os[..n])
  }

  lemma {:induction false} AllToRPrefix(a: seq<Value>, b: seq<Value>, n: nat)
    requires n <= |a| && n <= |b| && a[..n] == b[..n]
    ensures AllToR(a, n) == AllToR(b, n)
    decreases n
  {
    if n > 0 {
      assert a[..n - 1] == a[..n][..n - 1] == b[..n - 1] && a[n - 1] == a[..n][n - 1] == b[n - 1];
      AllToRPrefix(a, b, n - 1);
    }
  }

  lemma SnocInjective<T>(a: seq<T>, x: T, b: seq<T>, y: T)
    ensures a + [x] == b + [y] <==> a == b && x == y
  {
    if a + [x] == b + [y] {
      assert |a| + 1 == |a + [x]| == |b + [y]| == |b| + 1;
      assert (a + [x])[..|a|] == a && (b + [y])[..|b|] == b && (a + [x])[|a|] == x && (b + [y])[|b|] == y;
    }
  }

  lemma AllComeBackStep(os: seq<RObject>, n: nat)
    requires 0 < n <= |os|
    ensures AllComeBack(os, n) <==> AllComeBack(os, n - 1) && ComesBack(os[n - 1])
  {
    hide ToR, ToJson;
    assert os[..n] == os[..n - 1] + [os[n - 1]];
    if AllToJson(os, n - 1).Ok? && ToJson(os[n - 1]).Ok? {
      var vs, x := AllToJson(os, n - 1).value, ToJson(os[n - 1]).value;
      assert AllToJson(os, n).value == vs + [x];
      assert (vs + [x])[..n - 1] == vs[..n - 1];
      AllToRPrefix(vs + [x], vs, n - 1);
      if AllToR(vs, n - 1).Ok? && ToR(x).Ok? {
        assert AllToR(vs + [x], n) == Ok(AllToR(vs, n - 1).value + [ToR(x).value]);
        SnocInjective(AllToR(vs, n - 1).value, ToR(x).value, os[..n - 1], os[n - 1]);
      }
    }
  }

  lemma UnnamedBack(elements: seq<RObject>)
    ensures ComesBack(RList(elements, None)) <==> elements != [] && AllComeBack(elements, |elements|)
  {
    assert elements[..|elements|] == elements;
  }

  lemma NamesOfKeys(names: seq<Option<string>>, keys: seq<string>)
    requires names == Names(keys)
    ensures |names| == |keys| && KeysOf(names, |names|) == keys && forall x :: x in names ==> x.Some?
  {
    forall x | x in names ensures x.Some? {
      var i :| 0 <= i < |names| && names[i] == x;
    }
  }

  lemma KeysAreNames(names: seq<Option<string>>)
    requires forall x :: x in names ==> x.Some?
    ensures Names(KeysOf(names, |names|)) == names
  {
    forall i | 0 <= i < |names| ensures Names(KeysOf(names, |names|))[i] == names[i] {
      assert names[i] in names;
    }
  }

  lemma ProperKeys(names: seq<Option<string>>)
    requires Names(KeysOf(names, |names|)) == names
    ensures var keys := KeysOf(names, |names|);
            && (Distinct(keys) <==> forall i, j :: 0 <= i < j < |names| ==> names[i] != names[j])
            && ((forall k :: k in keys ==> NUL !in k) <==> forall x :: x in names ==> x.Some? && NUL !in x.value)
  {
    var keys := KeysOf(names, |names|);
    assert forall i :: 0 <= i < |names| ==> names[i] == Some(keys[i]);
    if forall k :: k in keys ==> NUL !in k {
      forall x | x in names ensures x.Some? && NUL !in x.value {
        var i :| 0 <= i < |names| && names[i] == x;
        assert keys[i] in keys;
      }
    }
    if forall x :: x in names ==> x.Some? && NUL !in x.value {
      forall k | k in keys ensures NUL !in k {
        var i :| 0 <= i < |keys| && keys[i] == k;
        assert names[i] in names;
      }
    }
  }

  lemma ObjectConverts(keys: seq<string>, vals: seq<Value>)
    ensures ToR(Object(keys, vals)) ==
            match AllToR(vals, |vals|)
            case Err => Err
            case Ok(rs) => if exists k :: k in keys && NUL in k then Err else Ok(RList(rs, Some(Names(keys))))
  {
  }

  /** A named list with proper names comes back if its elements do. */
  lemma ProperComesBack(elements: seq<RObject>, names: seq<Option<string>>)
    requires elements != [] && ProperNames(names, |elements|)
    ensures ComesBack(RList(elements, Some(names))) <==> AllComeBack(elements, |elements|)
  {
    hide ToJson, ToR, Names, Collected, KeysOf, AllToJson, AllToR, Distinct, HasName;
    NamedConverts(elements, names);
    if AllToJson(elements, |elements|).Ok? {
      var keys, vals := KeysOf(names, |names|), AllToJson(elements, |elements|).value;
      KeysAreNames(names);
      ProperKeys(names);
      CollectedDistinct(keys, vals);
      ObjectConverts(keys, vals);
      assert elements[..|elements|] == elements;
    }
  }

  /** Only a list with proper names can come back. */
  lemma OnlyProper(elements: seq<RObject>, names: seq<Option<string>>)
    requires elements != [] && HasName(Some(names)) && ComesBack(RList(elements, Some(names)))
    ensures ProperNames(names, |elements|)
  {
    hide ToJson, ToR, Names, Collected, KeysOf, AllToJson, AllToR, Distinct, HasName;
    NamedConverts(elements, names);
    var n := Min(|elements|, |names|);
    var keys, vals := KeysOf(names, n), AllToJson(elements, n).value;
    var f := Collected(keys, vals);
    ObjectConverts(f.keys, f.vals);
    assert names == Names(f.keys);
    NamesOfKeys(names, f.keys);
    assert |elements| == |f.vals| == |names| == n;
    CollectedKeys(keys, vals);
    KeysAreNames(names);
    ProperKeys(names);
  }

  lemma NoNameStaysAway(elements: seq<RObject>, names: Option<seq<Option<string>>>)
    ensures elements == [] || (names.Some? && !HasName(names)) ==> !ComesBack(RList(elements, names))
  {
  }

  lemma VectorStaysAway(o: RObject)
    requires IsAtomic(o) && Length(o) != 1
    ensures !ComesBack(o)
  {
    if Length(o) > 1 {
      VectorElements(o, 0);
      var v := ToJson(o).value;
      assert ToR(v).Ok? ==> ToR(v).value.RList?;
    }
  }

  lemma ScalarComesBack(o: RObject)
    requires !o.RList? && (IsAtomic(o) ==> Length(o) == 1)
    ensures ComesBack(o) <==> Plain(o)
  {
    match o
    case RReal(reals) => assert reals == [reals[0]];
    case RInt(ints) => assert ints == [ints[0]];
    case RLogical(bools) => assert bools == [bools[0]];
    case RString(strings) => assert strings == [strings[0]];
    case _ =>
  }

  lemma OtherComesBack(o: RObject)
    requires !o.RList?
    ensures ComesBack(o) <==> Plain(o)
  {
    if IsAtomic(o) && Length(o) != 1 {
      VectorStaysAway(o);
    } else {
      ScalarComesBack(o);
    }
  }

  lemma {:induction false} AllComeBackIff(os: seq<RObject>, n: nat)
    requires n <= |os|
    ensures AllComeBack(os, n) <==> forall i :: 0 <= i < n ==> Plain(os[i])
    decreases os, n
  {
    if n > 0 {
      AllComeBackIff(os, n - 1);
      ComesBackIff(os[n - 1]);
      AllComeBackStep(os, n);
    }
  }

  /** R to JSON to R is the identity on exactly the plain objects. */
  lemma {:induction false} ComesBackIff(o: RObject)
    ensures ComesBack(o) <==> Plain(o)
    decreases o
  {
    match o
    case RList(elements, names) =>
      AllComeBackIff(elements, |elements|);
      assert (forall i :: 0 <= i < |elements| ==> Plain(elements[i])) <==> forall x :: x in elements ==> Plain(x);
      hide ComesBack, HasName;
      NoNameStaysAway(elements, names);
      if elements != [] && names == None {
        UnnamedBack(elements);
      } else if elements != [] && HasName(names) {
        if ComesBack(o) { OnlyProper(elements, names.value); }
        if ProperNames(names.value, |elements|) { ProperComesBack(elements, names.value); }
      }
    case _ =>
      OtherComesBack(o);
  }

  // ---------------------------------------------------------------- kinds and errors

  /** Every JSON scalar becomes the R scalar of its own kind, and every R scalar the JSON scalar of its kind. */
  lemma ScalarKinds(b: bool, i: int, f: real, s: string)
    requires NUL !in s && -0x8000_0000 < i < 0x8000_0000
    ensures ToR(Null) == Ok(RNull) && ToJson(RNull) == Ok(Null)
    ensures ToR(Bool(b)) == Ok(RLogical([Some(b)])) && ToJson(RLogical([Some(b)])) == Ok(Bool(b))
    ensures ToR(Int(i)) == Ok(RInt([i])) && ToJson(RInt([i])) == Ok(Int(i))
    ensures ToR(Float(f)) == Ok(RReal([Finite(f)])) && ToJson(RReal([Finite(f)])) == Ok(Float(f))
    ensures ToR(String(s)) == Ok(RString([Some(s)])) && ToJson(RString([Some(s)])) == Ok(String(s))
    ensures ToJson(RSymbol(Some(s))) == Ok(String(s)) && ToJson(RSymbol(None)) == ToJson(ROther) == Ok(Null)
  {
  }

  /** A JSON integer beyond 64 signed bits becomes the double nearest to it, the even one of two. */
  lemma BigNearest(i: int)
    requires I64_MAX < i <= 2 * I64_MAX + 1
    ensures exists q: int ::
              && ToR(Int(i)) == Ok(RReal([Finite((2048 * q) as real)]))
              && -1024 <= i - 2048 * q <= 1024 && (i - 2048 * q in {-1024, 1024} ==> q % 2 == 0)
  {
    var q := i / 2048;
    var up := i % 2048 > 1024 || (i % 2048 == 1024 && q % 2 == 1);
    var n := if up then q + 1 else q;
    assert ToR(Int(i)) == Ok(RReal([Finite((2048 * n) as real)]));
  }

  /** A value with an integer that R has no room for, or with a NUL in a string or a key. */
  ghost predicate Unconvertible(v: Value) {
    match v
    case Int(i) => i < -0x8000_0000 || 0x7FFF_FFFF < i <= 0x7FFF_FFFF_FFFF_FFFF
    case String(s) => NUL in s
    case Array(items) => exists x :: x in items && Unconvertible(x)
    case Object(keys, vals) => (exists k :: k in keys && NUL in k) || exists x :: x in vals && Unconvertible(x)
    case _ => false
  }

  lemma {:induction false} AllToRFails(vs: seq<Value>, n: nat)
    requires n <= |vs|
    ensures AllToR(vs, n) == Err <==> exists i :: 0 <= i < n && Unconvertible(vs[i])
    decreases vs, n
  {
    if n > 0 {
      AllToRFails(vs, n - 1);
      ToRFails(vs[n - 1]);
    }
  }

  /** Converting to R fails exactly on those values. */
  lemma {:induction false} ToRFails(v: Value)
    ensures ToR(v) == Err <==> Unconvertible(v)
    decreases v
  {
    match v
    case Array(items) =>
      AllToRFails(items, |items|);
      assert (exists i :: 0 <= i < |items| && Unconvertible(items[i])) <==> exists x :: x in items && Unconvertible(x);
    case Object(keys, vals) =>
      AllToRFails(vals, |vals|);
      assert (exists i :: 0 <= i < |vals| && Unconvertible(vals[i])) <==> exists x :: x in vals && Unconvertible(x);
    case _ =>
  }

  /** A missing scalar, or a list with one among the elements that are converted. */
  ghost predicate HasMissing(o: RObject) {
    match o
    case RInt(ints) => |ints| == 1 && ints[0] == -0x8000_0000
    case RReal(reals) => |reals| == 1 && reals[0] == NotFinite(true)
    case RLogical(bools) => |bools| == 1 && bools[0] == None
    case RString(strings) => |strings| == 1 && strings[0] == None
    case RList(elements, names) =>
      exists i :: 0 <= i < |elements| && HasMissing(elements[i]) && (HasName(names) ==> i < |names.value|)
    case _ => false
  }

  lemma {:induction false} AllToJsonFails(os: seq<RObject>, n: nat)
    requires n <= |os|
    ensures AllToJson(os, n) == Err <==> exists i :: 0 <= i < n && HasMissing(os[i])
    decreases os, n
  {
    if n > 0 {
      AllToJsonFails(os, n - 1);
      ToJsonFails(os[n - 1]);
    }
  }

  /** Converting to JSON fails exactly on those objects. */
  lemma {:induction false} ToJsonFails(o: RObject)
    ensures ToJson(o) == Err <==> HasMissing(o)
    decreases o
  {
    match o
    case RList(elements, names) =>
      AllToJsonFails(elements, if HasName(names) then Min(|elements|, |names.value|) else |elements|);
    case _ =>
  }
}

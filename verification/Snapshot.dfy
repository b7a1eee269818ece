/** `snapshotValue`, `readDataProperty` and `snapshotPlainData` of packages/guard/src/delegationSnapshot.ts. */
module Snapshot {
  import opened Outcome
  import opened JsonText
  import opened ObjectGraph

  const MAX_DEPTH: nat := 8

  /** The copy. `frozen` is set by `Object.freeze` once the node is filled. */
  datatype Copy =
    | Value(leaf: Leaf)
    | List(items: seq<Copy>, frozen: bool)
    | Record(nullProto: bool, entries: seq<Field<Copy>>, frozen: bool)

  /** `Object.freeze`, which freezes the node alone; its children were frozen when they were copied. */
  function Freeze(out: Copy): Copy
    requires !out.Value?
  {
    out.(frozen := true)
  }

  /** One step of the path shown in an error: `[i]` or `.key`. */
  datatype Step = At(i: nat) | Dot(key: string)

  datatype Reason =
    | UnsupportedType | ProxyObject | TooDeep | Cyclic | NotPlain | SparseArray
    | SymbolKeyed | MissingProperty | AccessorProperty | NonEnumerable

  datatype SnapshotError = SnapshotError(path: seq<Step>, reason: Reason)

  type Snap<T> = Result<T, SnapshotError>

  function Fail<T>(path: seq<Step>, reason: Reason): Snap<T> {
    Err(SnapshotError(path, reason))
  }

  /** Depth `limit`; `None` is `Infinity`. */
  predicate Exceeds(depth: nat, limit: Option<nat>) {
    limit.Some? && depth >= limit.value
  }

  // ------------------------------------------- what one call of the walk returns

  function Walk(g: Heap, v: JsValue, path: seq<Step>, depth: nat, seen: set<Id>, limit: Option<nat>): Snap<Copy>
    requires ValidHeap(g) && InHeap(g, v)
    decreases g.Keys - seen, 0, 0
  {
    match v
    case Plain(p) => Ok(Value(p))
    case Function => Fail(path, UnsupportedType)
    case Symbol => Fail(path, UnsupportedType)
    case Ref(id) =>
      if g[id].Proxy? then Fail(path, ProxyObject)
      else if Exceeds(depth, limit) then Fail(path, TooDeep)
      else if id in seen then Fail(path, Cyclic)
      else if g[id].Array? then
        if !g[id].proto.ArrayPrototype? then Fail(path, NotPlain)
        else if |g[id].keys| != g[id].length + 1 then Fail(path, SparseArray)
        else (match WalkItems(g, id, 0, path, depth, seen + {id}, limit)
              case Ok(items) => Ok(List(items, true))
              case Err(e) => Err(e))
      else
        if !g[id].proto.ObjectPrototype? && !g[id].proto.NullPrototype? then Fail(path, NotPlain)
        else (match WalkFields(g, id, 0, path, depth, seen + {id}, limit)
              case Ok(entries) => Ok(Record(g[id].proto.NullPrototype?, entries, true))
              case Err(e) => Err(e))
  }

  function ReadDataProperty(
      g: Heap, id: Id, key: PropertyKey, path: seq<Step>, depth: nat, seen: set<Id>, limit: Option<nat>): Snap<Copy>
    requires ValidHeap(g) && id in g && !g[id].Proxy?
    decreases g.Keys - seen, 1, 0
  {
    if key !in g[id].props then Fail(path, MissingProperty)
    else if g[id].props[key].Accessor? then Fail(path, AccessorProperty)
    else if !g[id].props[key].enumerable then Fail(path, NonEnumerable)
    else Walk(g, g[id].props[key].value, path, depth + 1, seen, limit)
  }

  function WalkItems(
      g: Heap, id: Id, i: nat, path: seq<Step>, depth: nat, seen: set<Id>, limit: Option<nat>): (r: Snap<seq<Copy>>)
    requires ValidHeap(g) && id in g && g[id].Array? && i <= g[id].length
    ensures r.Ok? ==> |r.value| == g[id].length - i
    decreases g.Keys - seen, 2, g[id].length - i
  {
    if i == g[id].length then Ok([])
    else match ReadDataProperty(g, id, IndexKey(i), path + [At(i)], depth, seen, limit)
      case Err(e) => Err(e)
      case Ok(c) =>
        match WalkItems(g, id, i + 1, path, depth, seen, limit)
        case Err(e) => Err(e)
        case Ok(cs) => Ok([c] + cs)
  }

  function WalkFields(
      g: Heap, id: Id, i: nat, path: seq<Step>, depth: nat, seen: set<Id>,
      limit: Option<nat>): (r: Snap<seq<Field<Copy>>>)
    requires ValidHeap(g) && id in g && g[id].Object? && i <= |g[id].keys|
    ensures r.Ok? ==> |r.value| == |g[id].keys| - i
    decreases g.Keys - seen, 2, |g[id].keys| - i
  {
    if i == |g[id].keys| then Ok([])
    else match g[id].keys[i]
      case SymbolKey(_) => Fail(path, SymbolKeyed)
      case Name(s) =>
        match ReadDataProperty(g, id, Name(s), path + [Dot(s)], depth, seen, limit)
        case Err(e) => Err(e)
        case Ok(c) =>
          match WalkFields(g, id, i + 1, path, depth, seen, limit)
          case Err(e) => Err(e)
          case Ok(cs) => Ok([Field(s, c)] + cs)
  }

  // --------------------------------------------------------- the walk as written

  class Snapshotter {
    const g: Heap
    const limit: Option<nat>
    /** The nodes on the path from the root to the value being visited. */
    var seen: set<Id>
    /** The nodes on which an operation that a Proxy could trap was run. */
    ghost var reflected: set<Id>

    constructor (g: Heap, limit: Option<nat>)
      ensures this.g == g && this.limit == limit && seen == {} && reflected == {}
    {
      this.g := g;
      this.limit := limit;
      seen := {};
      reflected := {};
    }

    /** No trap has run: every node operated on reflectively is not a Proxy. */
    ghost predicate Untrapped()
      reads this
    {
      forall id :: id in reflected ==> id in g && !g[id].Proxy?
    }

    // The reflective operations. A Proxy traps each of them, so none may be given one.

    method GetPrototypeOf(id: Id) returns (proto: Prototype)
      requires id in g && !g[id].Proxy? && Untrapped()
      modifies this`reflected
      ensures proto == g[id].proto && Untrapped() && reflected == old(reflected) + {id}
    {
      reflected := reflected + {id};
      proto := g[id].proto;
    }

    method OwnKeys(id: Id) returns (keys: seq<PropertyKey>)
      requires id in g && !g[id].Proxy? && Untrapped()
      modifies this`reflected
      ensures keys == g[id].keys && Untrapped() && reflected == old(reflected) + {id}
    {
      reflected := reflected + {id};
      keys := g[id].keys;
    }

    method GetOwnPropertyDescriptor(id: Id, key: PropertyKey) returns (desc: Option<Descriptor>)
      requires id in g && !g[id].Proxy? && Untrapped()
      modifies this`reflected
      ensures desc == if key in g[id].props then Some(g[id].props[key]) else None
      ensures Untrapped() && reflected == old(reflected) + {id}
    {
      reflected := reflected + {id};
      desc := if key in g[id].props then Some(g[id].props[key]) else None;
    }

    method SnapshotValue(v: JsValue, path: seq<Step>, depth: nat) returns (r: Snap<Copy>)
      requires ValidHeap(g) && InHeap(g, v) && Untrapped()
      modifies this
      ensures seen == old(seen)
      ensures Untrapped() && old(reflected) <= reflected
      ensures r == Walk(g, v, path, depth, old(seen), limit)
      decreases g.Keys - seen, 0, 0
    {
      match v {
        case Plain(p) => return Ok(Value(p));
        case Function => return Fail(path, UnsupportedType);
        case Symbol => return Fail(path, UnsupportedType);
        case Ref(id) =>
          if g[id].Proxy? { return Fail(path, ProxyObject); }
          if Exceeds(depth, limit) { return Fail(path, TooDeep); }
          if id in seen { return Fail(path, Cyclic); }
          ghost var before := seen;
          seen := seen + {id};
          r := SnapshotObject(id, path, depth);
          seen := seen - {id};
          assert seen == before;
      }
    }

    /** The body of the `try`. */
    method SnapshotObject(id: Id, path: seq<Step>, depth: nat) returns (r: Snap<Copy>)
      requires ValidHeap(g) && id in g && !g[id].Proxy? && id in seen && Untrapped()
      requires !Exceeds(depth, limit)
      modifies this
      ensures seen == old(seen)
      ensures Untrapped() && old(reflected) <= reflected
      ensures r == Walk(g, Ref(id), path, depth, old(seen) - {id}, limit)
      decreases g.Keys - seen, 2, 0
    {
      var proto := GetPrototypeOf(id);
      var isArray := g[id].Array?;
      if if isArray then !proto.ArrayPrototype? else !proto.ObjectPrototype? && !proto.NullPrototype? {
        return Fail(path, NotPlain);
      }
      var keys := OwnKeys(id);
      ghost var outer := seen - {id};
      assert outer + {id} == seen;
      var out: Copy;
      if isArray {
        var length := g[id].length;
        if |keys| != length + 1 { return Fail(path, SparseArray); }
        var arr: seq<Copy> := [];
        PrefixedNone(WalkItems(g, id, 0, path, depth, seen, limit));
        for i := 0 to length
          invariant seen == old(seen) && Untrapped() && old(reflected) <= reflected
          invariant WalkItems(g, id, 0, path, depth, seen, limit)
                 == Prefixed(arr, WalkItems(g, id, i, path, depth, seen, limit))
        {
          var c := ReadProperty(id, IndexKey(i), path + [At(i)], depth);
          if c.Err? { return Err(c.error); }
          PrefixedOne(arr, c.value, WalkItems(g, id, i + 1, path, depth, seen, limit));
          arr := arr + [c.value];
        }
        assert arr + [] == arr;
        out := List(arr, false);
      } else {
        var obj: seq<Field<Copy>> := [];
        PrefixedNone(WalkFields(g, id, 0, path, depth, seen, limit));
        for i := 0 to |keys|
          invariant seen == old(seen) && Untrapped() && old(reflected) <= reflected
          invariant WalkFields(g, id, 0, path, depth, seen, limit)
                 == Prefixed(obj, WalkFields(g, id, i, path, depth, seen, limit))
        {
          match keys[i] {
            case SymbolKey(_) => return Fail(path, SymbolKeyed);
            case Name(s) =>
              var c := ReadProperty(id, Name(s), path + [Dot(s)], depth);
              if c.Err? { return Err(c.error); }
              PrefixedOne(obj, Field(s, c.value), WalkFields(g, id, i + 1, path, depth, seen, limit));
              obj := obj + [Field(s, c.value)];
          }
        }
        assert obj + [] == obj;
        out := Record(proto.NullPrototype?, obj, false);
      }
      return Ok(Freeze(out));
    }

    method ReadProperty(owner: Id, key: PropertyKey, path: seq<Step>, depth: nat) returns (r: Snap<Copy>)
      requires ValidHeap(g) && owner in g && !g[owner].Proxy? && Untrapped()
      modifies this
      ensures seen == old(seen)
      ensures Untrapped() && old(reflected) <= reflected
      ensures r == ReadDataProperty(g, owner, key, path, depth, old(seen), limit)
      decreases g.Keys - seen, 1, 0
    {
      var desc := GetOwnPropertyDescriptor(owner, key);
      if desc.None? { return Fail(path, MissingProperty); }
      if desc.value.Accessor? { return Fail(path, AccessorProperty); }
      if !desc.value.enumerable { return Fail(path, NonEnumerable); }
      r := SnapshotValue(desc.value.value, path, depth + 1);
    }
  }

  function Prefixed<T>(done: seq<T>, rest: Snap<seq<T>>): Snap<seq<T>> {
    match rest
    case Ok(ts) => Ok(done + ts)
    case Err(e) => Err(e)
  }

  lemma PrefixedNone<T>(rest: Snap<seq<T>>)
    ensures Prefixed([], rest) == rest
  {
    assert rest.Ok? ==> [] + rest.value == rest.value;
  }

  lemma PrefixedOne<T>(done: seq<T>, t: T, rest: Snap<seq<T>>)
    ensures Prefixed(done, Prefixed([t], rest)) == Prefixed(done + [t], rest)
  {
    assert rest.Ok? ==> done + ([t] + rest.value) == done + [t] + rest.value;
  }

  method SnapshotPlainData(g: Heap, v: JsValue, limit: Option<nat> := Some(MAX_DEPTH)) returns (r: Snap<Copy>)
    requires ValidHeap(g) && InHeap(g, v)
    ensures r == Walk(g, v, [], 0, {}, limit)
  {
    var s := new Snapshotter(g, limit);
    r := s.SnapshotValue(v, [], 0);
  }
}

/** What a rejected snapshot says about the graph: the path leads to a fault of the kind reported. */
module SnapshotErrors {
  import opened Outcome
  import opened ObjectGraph
  import opened Snapshot
  import opened SnapshotLaws

  function StepKey(s: Step): PropertyKey {
    match s
    case At(i) => IndexKey(i)
    case Dot(key) => Name(key)
  }

  /** Arrays are entered by index, objects by own key. */
  predicate CanStep(n: Node, s: Step) {
    match s
    case At(i) => n.Array? && i < n.length
    case Dot(key) => n.Object? && Name(key) in n.keys
  }

  /** The property cannot be copied without running code, or at all. */
  predicate PropertyFault(n: Node, k: PropertyKey, reason: Reason)
    requires !n.Proxy?
  {
    match reason
    case MissingProperty => k !in n.props
    case AccessorProperty => k in n.props && n.props[k].Accessor?
    case NonEnumerable => k in n.props && n.props[k].Data? && !n.props[k].enumerable
    case _ => false
  }

  /** What is wrong with `v` itself, reached at `depth` below the nodes `above`. */
  ghost predicate ValueFault(g: Heap, v: JsValue, depth: nat, above: set<Id>, limit: Option<nat>, reason: Reason) {
    match reason
    case UnsupportedType => v.Function? || v.Symbol?
    case ProxyObject => v.Ref? && v.id in g && g[v.id].Proxy?
    case TooDeep => v.Ref? && limit.Some? && limit.value <= depth
    case Cyclic => v.Ref? && v.id in above
    case NotPlain =>
      v.Ref? && v.id in g && !g[v.id].Proxy?
      && if g[v.id].Array? then g[v.id].proto != ArrayPrototype
         else g[v.id].proto != ObjectPrototype && g[v.id].proto != NullPrototype
    case SparseArray => v.Ref? && v.id in g && g[v.id].Array? && |g[v.id].keys| != g[v.id].length + 1
    case SymbolKeyed => v.Ref? && v.id in g && g[v.id].Object? && exists k :: k in g[v.id].keys && k.SymbolKey?
    case _ => false
  }

  /** Following `steps` from `v` through plain properties leads to a fault of kind `reason`. */
  ghost predicate Faulty(
      g: Heap, v: JsValue, steps: seq<Step>, depth: nat, above: set<Id>, limit: Option<nat>, reason: Reason)
    decreases |steps|
  {
    if steps == [] then ValueFault(g, v, depth, above, limit, reason)
    else
      && v.Ref? && v.id in g && !g[v.id].Proxy? && CanStep(g[v.id], steps[0])
      && var k := StepKey(steps[0]);
         if PlainProperty(g[v.id], k)
         then Faulty(g, g[v.id].props[k].value, steps[1..], depth + 1, above + {v.id}, limit, reason)
         else |steps| == 1 && PropertyFault(g[v.id], k, reason)
  }

  /** The error of the item loop is that of the first item that cannot be read. */
  lemma {:induction false} FirstBadItem(
      g: Heap, id: Id, i: nat, path: seq<Step>, depth: nat, seen: set<Id>, limit: Option<nat>)
    returns (j: nat)
    requires ValidHeap(g) && id in g && g[id].Array? && i <= g[id].length
    requires WalkItems(g, id, i, path, depth, seen, limit).Err?
    ensures i <= j < g[id].length
    ensures ReadDataProperty(g, id, IndexKey(j), path + [At(j)], depth, seen, limit)
         == Err(WalkItems(g, id, i, path, depth, seen, limit).error)
    decreases g[id].length - i
  {
    hide Walk, IndexKey, ReadDataProperty;
    j := i;
    if ReadDataProperty(g, id, IndexKey(i), path + [At(i)], depth, seen, limit).Ok? {
      j := FirstBadItem(g, id, i + 1, path, depth, seen, limit);
    }
  }

  /** The error of the key loop is that of the first symbol key or unreadable property. */
  lemma {:induction false} FirstBadField(
      g: Heap, id: Id, i: nat, path: seq<Step>, depth: nat, seen: set<Id>, limit: Option<nat>)
    returns (j: nat)
    requires ValidHeap(g) && id in g && g[id].Object? && i <= |g[id].keys|
    requires WalkFields(g, id, i, path, depth, seen, limit).Err?
    ensures i <= j < |g[id].keys|
    ensures var e := WalkFields(g, id, i, path, depth, seen, limit).error;
            match g[id].keys[j]
            case SymbolKey(_) => e == SnapshotError(path, SymbolKeyed)
            case Name(s) => ReadDataProperty(g, id, Name(s), path + [Dot(s)], depth, seen, limit) == Err(e)
    decreases |g[id].keys| - i
  {
    hide Walk, ReadDataProperty;
    j := i;
    if g[id].keys[i].Name? {
      var s := g[id].keys[i].s;
      if ReadDataProperty(g, id, Name(s), path + [Dot(s)], depth, seen, limit).Ok? {
        j := FirstBadField(g, id, i + 1, path, depth, seen, limit);
      }
    }
  }

  /** The error path extends the path of the call, and its extension leads to the fault. */
  ghost predicate Explains(
      g: Heap, v: JsValue, path: seq<Step>, depth: nat, above: set<Id>, limit: Option<nat>, e: SnapshotError) {
    path <= e.path && Faulty(g, v, e.path[|path|..], depth, above, limit, e.reason)
  }

  lemma {:induction false} WalkExplains(
      g: Heap, v: JsValue, path: seq<Step>, depth: nat, seen: set<Id>, limit: Option<nat>)
    requires ValidHeap(g) && InHeap(g, v) && Walk(g, v, path, depth, seen, limit).Err?
    ensures Explains(g, v, path, depth, seen, limit, Walk(g, v, path, depth, seen, limit).error)
    decreases g.Keys - seen, 1
  {
    var e := Walk(g, v, path, depth, seen, limit).error;
    assert path[|path|..] == [];
    if v.Ref? && !g[v.id].Proxy? && !Exceeds(depth, limit) && v.id !in seen {
      var id := v.id;
      if g[id].Array? {
        if g[id].proto.ArrayPrototype? && |g[id].keys| == g[id].length + 1 {
          var j := FirstBadItem(g, id, 0, path, depth, seen + {id}, limit);
          ReadExplains(g, id, At(j), path, depth, seen, limit, e);
        }
      } else if g[id].proto.ObjectPrototype? || g[id].proto.NullPrototype? {
        var j := FirstBadField(g, id, 0, path, depth, seen + {id}, limit);
        if g[id].keys[j].Name? {
          ReadExplains(g, id, Dot(g[id].keys[j].s), path, depth, seen, limit, e);
        }
      }
    }
  }

  lemma {:induction false} ReadExplains(
      g: Heap, id: Id, s: Step, path: seq<Step>, depth: nat, seen: set<Id>, limit: Option<nat>, e: SnapshotError)
    requires ValidHeap(g) && id in g && !g[id].Proxy? && id !in seen && CanStep(g[id], s)
    requires ReadDataProperty(g, id, StepKey(s), path + [s], depth, seen + {id}, limit) == Err(e)
    ensures Explains(g, Ref(id), path, depth, seen, limit, e)
    decreases g.Keys - seen, 0
  {
    hide IndexKey, WalkItems, WalkFields;
    var k, below := StepKey(s), path + [s];
    if PlainProperty(g[id], k) {
      WalkExplains(g, g[id].props[k].value, below, depth + 1, seen + {id}, limit);
    }
    var steps := e.path[|path|..];
    assert below <= e.path;
    assert steps[0] == s && steps[1..] == e.path[|below|..];
    assert |steps| == 1 + |e.path[|below|..]|;
  }

  /**
   * A rejected input really has the fault reported, at the place reported. In
   * particular "cyclic" means that the path comes back to a node it went through.
   */
  lemma RejectionExplained(g: Heap, v: JsValue, limit: Option<nat>)
    requires ValidHeap(g) && InHeap(g, v) && Walk(g, v, [], 0, {}, limit).Err?
    ensures var e := Walk(g, v, [], 0, {}, limit).error; Faulty(g, v, e.path, 0, {}, limit, e.reason)
  {
    var e := Walk(g, v, [], 0, {}, limit).error;
    WalkExplains(g, v, [], 0, {}, limit);
    assert e.path[0..] == e.path;
  }
}

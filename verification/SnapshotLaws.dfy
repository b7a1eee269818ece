/**
 * What the snapshot accepts and returns, said without the walk: the finite
 * unfolding of the graph, when it has one and it is not too deep.
 */
module SnapshotLaws {
  import opened Outcome
  import opened JsonText
  import opened ObjectGraph
  import opened Snapshot

  /** An own enumerable data property that can be read without running any code. */
  predicate PlainProperty(n: Node, k: PropertyKey)
    requires !n.Proxy?
  {
    k in n.props && n.props[k].Data? && n.props[k].enumerable
  }

  /**
   * `t` is the unfolding of `v`: every array is plain and dense, every object is
   * plain with string-keyed enumerable data properties, entries come in own-key
   * order, and every copied node is frozen.
   */
  ghost predicate Unfolds(g: Heap, v: JsValue, t: Copy)
    decreases t
  {
    match t
    case Value(leaf) => v == Plain(leaf)
    case List(items, frozen) =>
      && frozen && v.Ref? && v.id in g && g[v.id].Array? && g[v.id].proto.ArrayPrototype?
      && Dense(g[v.id]) && |items| == g[v.id].length
      && forall i: nat :: i < |items| ==>
           PlainProperty(g[v.id], IndexKey(i)) && Unfolds(g, g[v.id].props[IndexKey(i)].value, items[i])
    case Record(nullProto, entries, frozen) =>
      && frozen && v.Ref? && v.id in g && g[v.id].Object?
      && g[v.id].proto == (if nullProto then NullPrototype else ObjectPrototype)
      && |entries| == |g[v.id].keys|
      && forall i :: 0 <= i < |entries| ==>
           && g[v.id].keys[i] == Name(entries[i].key)
           && PlainProperty(g[v.id], g[v.id].keys[i])
           && Unfolds(g, g[v.id].props[g[v.id].keys[i]].value, entries[i].val)
  }

  /** The deepest nesting of arrays and objects. */
  function Height(t: Copy): nat {
    match t
    case Value(_) => 0
    case List(items, _) => 1 + ListHeight(items)
    case Record(_, entries, _) => 1 + RecordHeight(entries)
  }

  function Max(a: nat, b: nat): nat {
    if a < b then b else a
  }

  function ListHeight(ts: seq<Copy>): (h: nat)
    ensures forall i :: 0 <= i < |ts| ==> Height(ts[i]) <= h
    ensures h > 0 ==> exists i :: 0 <= i < |ts| && Height(ts[i]) == h
  {
    if ts == [] then 0 else
      assert forall i :: 0 < i < |ts| ==> ts[i] == ts[1..][i - 1];
      Max(Height(ts[0]), ListHeight(ts[1..]))
  }

  function RecordHeight(es: seq<Field<Copy>>): (h: nat)
    ensures forall i :: 0 <= i < |es| ==> Height(es[i].val) <= h
    ensures h > 0 ==> exists i :: 0 <= i < |es| && Height(es[i].val) == h
  {
    if es == [] then 0 else
      assert forall i :: 0 < i < |es| ==> es[i] == es[1..][i - 1];
      Max(Height(es[0].val), RecordHeight(es[1..]))
  }

  /** Found at depth `depth`, `t` stays within the limit. */
  predicate Fits(t: Copy, depth: nat, limit: Option<nat>) {
    t.Value? || limit.None? || depth + Height(t) <= limit.value
  }

  /** A node fits where it may be entered and every child fits one level deeper. */
  lemma FitsList(items: seq<Copy>, depth: nat, limit: Option<nat>)
    ensures Fits(List(items, true), depth, limit) <==>
            !Exceeds(depth, limit) && forall i :: 0 <= i < |items| ==> Fits(items[i], depth + 1, limit)
  {
    if ListHeight(items) > 0 {
      var i :| 0 <= i < |items| && Height(items[i]) == ListHeight(items);
      assert !items[i].Value?;
    }
  }

  lemma FitsRecord(nullProto: bool, es: seq<Field<Copy>>, depth: nat, limit: Option<nat>)
    ensures Fits(Record(nullProto, es, true), depth, limit) <==>
            !Exceeds(depth, limit) && forall i :: 0 <= i < |es| ==> Fits(es[i].val, depth + 1, limit)
  {
    if RecordHeight(es) > 0 {
      var i :| 0 <= i < |es| && Height(es[i].val) == RecordHeight(es);
      assert !es[i].val.Value?;
    }
  }

  // ------------------------------------------------------------------ soundness

  lemma {:induction false} WalkSound(
      g: Heap, v: JsValue, path: seq<Step>, depth: nat, seen: set<Id>, limit: Option<nat>)
    requires ValidHeap(g) && InHeap(g, v) && Walk(g, v, path, depth, seen, limit).Ok?
    ensures Unfolds(g, v, Walk(g, v, path, depth, seen, limit).value)
    ensures Fits(Walk(g, v, path, depth, seen, limit).value, depth, limit)
    decreases g.Keys - seen, 0, 0
  {
    hide Fits, IndexKey, Dense, Unfolds;
    if v.Ref? && g[v.id].Array? {
      ItemsSound(g, v.id, 0, path, depth, seen + {v.id}, limit);
      var items := WalkItems(g, v.id, 0, path, depth, seen + {v.id}, limit).value;
      ListUnfolds(g, v.id, items, depth, limit);
    } else if v.Ref? {
      FieldsSound(g, v.id, 0, path, depth, seen + {v.id}, limit);
      var es := WalkFields(g, v.id, 0, path, depth, seen + {v.id}, limit).value;
      RecordUnfolds(g, v.id, es, depth, limit);
    } else {
      LeafFits(g, v.leaf, depth, limit);
    }
  }

  lemma LeafFits(g: Heap, leaf: Leaf, depth: nat, limit: Option<nat>)
    ensures Fits(Value(leaf), depth, limit) && Unfolds(g, Plain(leaf), Value(leaf))
  {
  }

  lemma ListUnfolds(g: Heap, id: Id, items: seq<Copy>, depth: nat, limit: Option<nat>)
    requires ValidHeap(g) && id in g && g[id].Array? && g[id].proto.ArrayPrototype? && !Exceeds(depth, limit)
    requires |g[id].keys| == g[id].length + 1 && |items| == g[id].length
    requires forall k: nat :: k < |items| ==> ItemRead(g, id, 0 + k, items[k], depth, limit)
    ensures Unfolds(g, Ref(id), List(items, true)) && Fits(List(items, true), depth, limit)
  {
    hide IndexKey, Dense, Fits;
    forall k: nat | k < |items|
      ensures PlainProperty(g[id], IndexKey(k)) && Unfolds(g, g[id].props[IndexKey(k)].value, items[k])
              && Fits(items[k], depth + 1, limit)
    {
      assert ItemRead(g, id, 0 + k, items[k], depth, limit);
    }
    DenseIff(g[id]);
    FitsList(items, depth, limit);
  }

  lemma RecordUnfolds(g: Heap, id: Id, es: seq<Field<Copy>>, depth: nat, limit: Option<nat>)
    requires id in g && g[id].Object? && (g[id].proto.ObjectPrototype? || g[id].proto.NullPrototype?)
    requires |es| == |g[id].keys| && !Exceeds(depth, limit)
    requires forall k: nat :: k < |es| ==> FieldRead(g, id, 0 + k, es[k], depth, limit)
    ensures var t := Record(g[id].proto.NullPrototype?, es, true);
            Unfolds(g, Ref(id), t) && Fits(t, depth, limit)
  {
    hide Fits;
    forall k: nat | k < |es|
      ensures g[id].keys[k] == Name(es[k].key) && PlainProperty(g[id], g[id].keys[k])
              && Unfolds(g, g[id].props[g[id].keys[k]].value, es[k].val) && Fits(es[k].val, depth + 1, limit)
    {
      assert FieldRead(g, id, 0 + k, es[k], depth, limit);
    }
    FitsRecord(g[id].proto.NullPrototype?, es, depth, limit);
  }

  lemma {:induction false} ReadSound(
      g: Heap, id: Id, key: PropertyKey, path: seq<Step>, depth: nat, seen: set<Id>, limit: Option<nat>)
    requires ValidHeap(g) && id in g && !g[id].Proxy?
    requires ReadDataProperty(g, id, key, path, depth, seen, limit).Ok?
    ensures PlainProperty(g[id], key)
    ensures Unfolds(g, g[id].props[key].value, ReadDataProperty(g, id, key, path, depth, seen, limit).value)
    ensures Fits(ReadDataProperty(g, id, key, path, depth, seen, limit).value, depth + 1, limit)
    decreases g.Keys - seen, 1, 0
  {
    WalkSound(g, g[id].props[key].value, path, depth + 1, seen, limit);
  }

  /** `c` is the copy of element `k` of array `id`. */
  ghost predicate ItemRead(g: Heap, id: Id, k: nat, c: Copy, depth: nat, limit: Option<nat>)
    requires id in g && !g[id].Proxy?
  {
    && PlainProperty(g[id], IndexKey(k))
    && Unfolds(g, g[id].props[IndexKey(k)].value, c)
    && Fits(c, depth + 1, limit)
  }

  /** `e` is the copy of the property of object `id` with the `k`-th own key. */
  ghost predicate FieldRead(g: Heap, id: Id, k: nat, e: Field<Copy>, depth: nat, limit: Option<nat>)
    requires id in g && g[id].Object? && k < |g[id].keys|
  {
    && g[id].keys[k] == Name(e.key)
    && PlainProperty(g[id], g[id].keys[k])
    && Unfolds(g, g[id].props[g[id].keys[k]].value, e.val)
    && Fits(e.val, depth + 1, limit)
  }

  lemma {:induction false} ItemsSound(
      g: Heap, id: Id, i: nat, path: seq<Step>, depth: nat, seen: set<Id>, limit: Option<nat>)
    requires ValidHeap(g) && id in g && g[id].Array? && i <= g[id].length
    requires WalkItems(g, id, i, path, depth, seen, limit).Ok?
    ensures var items := WalkItems(g, id, i, path, depth, seen, limit).value;
            forall k: nat :: k < |items| ==> ItemRead(g, id, i + k, items[k], depth, limit)
    decreases g.Keys - seen, 2, g[id].length - i
  {
    hide IndexKey, Unfolds, Fits, ReadDataProperty;
    var items := WalkItems(g, id, i, path, depth, seen, limit).value;
    if i < g[id].length {
      ReadSound(g, id, IndexKey(i), path + [At(i)], depth, seen, limit);
      ItemsSound(g, id, i + 1, path, depth, seen, limit);
      var rest := WalkItems(g, id, i + 1, path, depth, seen, limit).value;
      forall k: nat | k < |items| ensures ItemRead(g, id, i + k, items[k], depth, limit) {
        if k > 0 { assert ItemRead(g, id, i + 1 + (k - 1), rest[k - 1], depth, limit); }
      }
    }
  }

  lemma {:induction false} FieldsSound(
      g: Heap, id: Id, i: nat, path: seq<Step>, depth: nat, seen: set<Id>, limit: Option<nat>)
    requires ValidHeap(g) && id in g && g[id].Object? && i <= |g[id].keys|
    requires WalkFields(g, id, i, path, depth, seen, limit).Ok?
    ensures var es := WalkFields(g, id, i, path, depth, seen, limit).value;
            forall k: nat :: k < |es| ==> FieldRead(g, id, i + k, es[k], depth, limit)
    decreases g.Keys - seen, 2, |g[id].keys| - i
  {
    hide Unfolds, Fits, ReadDataProperty;
    var es := WalkFields(g, id, i, path, depth, seen, limit).value;
    if i < |g[id].keys| {
      var s := g[id].keys[i].s;
      ReadSound(g, id, Name(s), path + [Dot(s)], depth, seen, limit);
      FieldsSound(g, id, i + 1, path, depth, seen, limit);
      var rest := WalkFields(g, id, i + 1, path, depth, seen, limit).value;
      forall k: nat | k < |es| ensures FieldRead(g, id, i + k, es[k], depth, limit) {
        if k > 0 { assert FieldRead(g, id, i + 1 + (k - 1), rest[k - 1], depth, limit); }
      }
    }
  }

  // --------------------------------------------------------------- completeness

  /** `id` is one of the nodes of the unfolding `t` of `v`. */
  ghost predicate Occurs(g: Heap, v: JsValue, t: Copy, id: Id)
    requires Unfolds(g, v, t)
    decreases t
  {
    match t
    case Value(_) => false
    case List(items, _) =>
      v.id == id || exists i: nat :: i < |items| && Occurs(g, g[v.id].props[IndexKey(i)].value, items[i], id)
    case Record(_, entries, _) =>
      v.id == id
      || exists i :: 0 <= i < |entries| && Occurs(g, g[v.id].props[g[v.id].keys[i]].value, entries[i].val, id)
  }

  /** A value has at most one unfolding. */
  lemma {:induction false} UnfoldingUnique(g: Heap, v: JsValue, t: Copy, u: Copy)
    requires Unfolds(g, v, t) && Unfolds(g, v, u)
    ensures t == u
    decreases t
  {
    if t.List? {
      forall i: nat | i < |t.items| ensures t.items[i] == u.items[i] {
        UnfoldingUnique(g, g[v.id].props[IndexKey(i)].value, t.items[i], u.items[i]);
      }
      assert t.items == u.items;
    } else if t.Record? {
      forall i | 0 <= i < |t.entries| ensures t.entries[i] == u.entries[i] {
        UnfoldingUnique(g, g[v.id].props[g[v.id].keys[i]].value, t.entries[i].val, u.entries[i].val);
      }
      assert t.entries == u.entries;
    }
  }

  /** A node of an unfolding has an unfolding itself, and it is no larger. */
  lemma {:induction false} SubUnfolding(g: Heap, v: JsValue, t: Copy, id: Id) returns (s: Copy)
    requires Unfolds(g, v, t) && Occurs(g, v, t, id)
    ensures Unfolds(g, Ref(id), s) && (s == t || s < t)
    decreases t
  {
    if v.id == id {
      s := t;
    } else if t.List? {
      var i: nat :| i < |t.items| && Occurs(g, g[v.id].props[IndexKey(i)].value, t.items[i], id);
      s := SubUnfolding(g, g[v.id].props[IndexKey(i)].value, t.items[i], id);
    } else {
      var i :| 0 <= i < |t.entries| && Occurs(g, g[v.id].props[g[v.id].keys[i]].value, t.entries[i].val, id);
      s := SubUnfolding(g, g[v.id].props[g[v.id].keys[i]].value, t.entries[i].val, id);
      assert t.entries[i].val < t.entries[i] < t;
    }
  }

  /** No node is inside its own unfolding. */
  lemma NotInside(g: Heap, id: Id, t: Copy, w: JsValue, c: Copy)
    requires Unfolds(g, Ref(id), t) && Unfolds(g, w, c) && c < t
    ensures !Occurs(g, w, c, id)
  {
    if Occurs(g, w, c, id) {
      var s := SubUnfolding(g, w, c, id);
      UnfoldingUnique(g, Ref(id), s, t);
    }
  }

  lemma {:induction false} ItemsComplete(
      g: Heap, id: Id, items: seq<Copy>, i: nat, path: seq<Step>, depth: nat, seen: set<Id>, limit: Option<nat>)
    requires ValidHeap(g) && id in g && g[id].Array? && i <= g[id].length == |items|
    requires forall k: nat :: i <= k < |items| ==>
               ReadDataProperty(g, id, IndexKey(k), path + [At(k)], depth, seen, limit) == Ok(items[k])
    ensures WalkItems(g, id, i, path, depth, seen, limit) == Ok(items[i..])
    decreases |items| - i
  {
    hide ReadDataProperty, IndexKey;
    if i < |items| {
      ItemsComplete(g, id, items, i + 1, path, depth, seen, limit);
      assert ReadDataProperty(g, id, IndexKey(i), path + [At(i)], depth, seen, limit) == Ok(items[i]);
      assert items[i..] == [items[i]] + items[i + 1..];
    }
  }

  lemma {:induction false} FieldsComplete(
      g: Heap, id: Id, es: seq<Field<Copy>>, i: nat, path: seq<Step>, depth: nat, seen: set<Id>, limit: Option<nat>)
    requires ValidHeap(g) && id in g && g[id].Object? && i <= |g[id].keys| == |es|
    requires forall k :: i <= k < |es| ==>
               && g[id].keys[k] == Name(es[k].key)
               && ReadDataProperty(g, id, g[id].keys[k], path + [Dot(es[k].key)], depth, seen, limit) == Ok(es[k].val)
    ensures WalkFields(g, id, i, path, depth, seen, limit) == Ok(es[i..])
    decreases |es| - i
  {
    hide ReadDataProperty;
    if i < |es| {
      FieldsComplete(g, id, es, i + 1, path, depth, seen, limit);
      assert g[id].keys[i] == Name(es[i].key);
      assert ReadDataProperty(g, id, g[id].keys[i], path + [Dot(es[i].key)], depth, seen, limit) == Ok(es[i].val);
      assert es[i..] == [es[i]] + es[i + 1..];
    }
  }

  /** An unfolding that fits, and meets no node on the current path, is found. */
  lemma {:induction false} WalkComplete(
      g: Heap, v: JsValue, t: Copy, path: seq<Step>, depth: nat, seen: set<Id>, limit: Option<nat>)
    requires ValidHeap(g) && InHeap(g, v) && Unfolds(g, v, t) && Fits(t, depth, limit)
    requires forall id :: id in seen ==> !Occurs(g, v, t, id)
    ensures Walk(g, v, path, depth, seen, limit) == Ok(t)
    decreases t
  {
    if t.List? {
      ListComplete(g, v.id, t, path, depth, seen, limit);
    } else if t.Record? {
      RecordComplete(g, v.id, t, path, depth, seen, limit);
    }
  }

  lemma {:induction false} ListComplete(
      g: Heap, id: Id, t: Copy, path: seq<Step>, depth: nat, seen: set<Id>, limit: Option<nat>)
    requires t.List? && ValidHeap(g) && id in g && Unfolds(g, Ref(id), t) && Fits(t, depth, limit)
    requires forall s :: s in seen ==> !Occurs(g, Ref(id), t, s)
    ensures Walk(g, Ref(id), path, depth, seen, limit) == Ok(t)
    decreases t, 0
  {
    hide Fits, Dense, IndexKey;
    FitsList(t.items, depth, limit);
    DenseIff(g[id]);
    forall k: nat | k < |t.items|
      ensures ReadDataProperty(g, id, IndexKey(k), path + [At(k)], depth, seen + {id}, limit) == Ok(t.items[k])
    {
      var w := g[id].props[IndexKey(k)].value;
      NotInside(g, id, t, w, t.items[k]);
      WalkComplete(g, w, t.items[k], path + [At(k)], depth + 1, seen + {id}, limit);
    }
    ItemsComplete(g, id, t.items, 0, path, depth, seen + {id}, limit);
    assert t.items[0..] == t.items;
  }

  lemma {:induction false} RecordComplete(
      g: Heap, id: Id, t: Copy, path: seq<Step>, depth: nat, seen: set<Id>, limit: Option<nat>)
    requires t.Record? && ValidHeap(g) && id in g && Unfolds(g, Ref(id), t) && Fits(t, depth, limit)
    requires forall s :: s in seen ==> !Occurs(g, Ref(id), t, s)
    ensures Walk(g, Ref(id), path, depth, seen, limit) == Ok(t)
    decreases t, 0
  {
    hide Fits;
    var keys := g[id].keys;
    FitsRecord(t.nullProto, t.entries, depth, limit);
    forall k | 0 <= k < |t.entries|
      ensures keys[k] == Name(t.entries[k].key)
      ensures ReadDataProperty(g, id, keys[k], path + [Dot(t.entries[k].key)], depth, seen + {id}, limit)
           == Ok(t.entries[k].val)
    {
      var w := g[id].props[keys[k]].value;
      assert t.entries[k].val < t.entries[k] < t;
      NotInside(g, id, t, w, t.entries[k].val);
      WalkComplete(g, w, t.entries[k].val, path + [Dot(t.entries[k].key)], depth + 1, seen + {id}, limit);
    }
    FieldsComplete(g, id, t.entries, 0, path, depth, seen + {id}, limit);
    assert t.entries[0..] == t.entries;
  }

  /**
   * The snapshot of `v` is `t` exactly when `t` is the unfolding of `v` and is
   * nested no deeper than the limit. With no limit it fails only when there is
   * no finite unfolding of the supported shape.
   */
  lemma SnapshotIff(g: Heap, v: JsValue, limit: Option<nat>, t: Copy)
    requires ValidHeap(g) && InHeap(g, v)
    ensures Walk(g, v, [], 0, {}, limit) == Ok(t)
       <==> Unfolds(g, v, t) && (limit.None? || Height(t) <= limit.value)
  {
    if Walk(g, v, [], 0, {}, limit) == Ok(t) {
      WalkSound(g, v, [], 0, {}, limit);
    }
    if Unfolds(g, v, t) && (limit.None? || Height(t) <= limit.value) {
      WalkComplete(g, v, t, [], 0, {}, limit);
    }
  }

  /** With the default limit, arrays and objects nested eight deep are accepted and deeper ones are not. */
  lemma DefaultDepth(g: Heap, v: JsValue, t: Copy)
    requires ValidHeap(g) && InHeap(g, v)
    ensures Walk(g, v, [], 0, {}, Some(MAX_DEPTH)) == Ok(t) <==> Unfolds(g, v, t) && Height(t) <= 8
  {
    SnapshotIff(g, v, Some(MAX_DEPTH), t);
  }

  // -------------------------------------------------------------------- cycles

  /** Node `b` is the value of an enumerable data property of node `a`. */
  ghost predicate Edge(g: Heap, a: Id, b: Id) {
    && a in g && !g[a].Proxy?
    && exists k :: k in g[a].props && PlainProperty(g[a], k) && g[a].props[k].value == Ref(b)
  }

  ghost predicate Chain(g: Heap, p: seq<Id>) {
    forall i :: 0 <= i < |p| - 1 ==> Edge(g, p[i], p[i + 1])
  }

  ghost predicate OnCycle(g: Heap, id: Id) {
    exists p :: |p| >= 2 && p[0] == id && p[|p| - 1] == id && Chain(g, p)
  }

  ghost function SetOf(stack: seq<Id>): set<Id> {
    set id | id in stack
  }

  predicate ReportsCycle<T>(r: Snap<T>) {
    r.Err? && r.error.reason == Cyclic
  }

  /** Reported as cyclic: some node really reaches itself. `stack` lists the path set in order. */
  lemma {:induction false} CyclicIsCycle(
      g: Heap, v: JsValue, path: seq<Step>, depth: nat, stack: seq<Id>, limit: Option<nat>)
    requires ValidHeap(g) && InHeap(g, v) && (v.Ref? ==> Chain(g, stack + [v.id]))
    requires ReportsCycle(Walk(g, v, path, depth, SetOf(stack), limit))
    ensures exists id :: OnCycle(g, id)
    decreases g.Keys - SetOf(stack)
  {
    var seen := SetOf(stack);
    var id := v.id;
    if id in stack {
      var i :| 0 <= i < |stack| && stack[i] == id;
      var p := stack[i..] + [id];
      forall k | 0 <= k < |p| - 1 ensures Edge(g, p[k], p[k + 1]) {
        assert (stack + [id])[i + k] == p[k] && (stack + [id])[i + k + 1] == p[k + 1];
      }
      assert Chain(g, p) && |p| >= 2 && p[0] == id && p[|p| - 1] == id;
      assert OnCycle(g, id);
    } else {
      var below := stack + [id];
      assert SetOf(below) == seen + {id};
      var key, w, path' := FailingChild(g, id, path, depth, seen + {id}, limit);
      if w.Ref? {
        assert Edge(g, id, w.id);
        forall k | 0 <= k < |below + [w.id]| - 1 ensures Edge(g, (below + [w.id])[k], (below + [w.id])[k + 1]) {
          if k < |stack| { assert Edge(g, below[k], below[k + 1]); }
        }
      }
      CyclicIsCycle(g, w, path', depth + 1, below, limit);
    }
  }

  /** A cycle reported below a node is reported by the walk of one of its properties. */
  lemma FailingChild(g: Heap, id: Id, path: seq<Step>, depth: nat, seen: set<Id>, limit: Option<nat>)
    returns (key: PropertyKey, w: JsValue, path': seq<Step>)
    requires ValidHeap(g) && id in g && !g[id].Proxy?
    requires if g[id].Array? then ReportsCycle(WalkItems(g, id, 0, path, depth, seen, limit))
             else ReportsCycle(WalkFields(g, id, 0, path, depth, seen, limit))
    ensures key in g[id].props && PlainProperty(g[id], key) && g[id].props[key].value == w && InHeap(g, w)
    ensures ReportsCycle(Walk(g, w, path', depth + 1, seen, limit))
  {
    hide Walk, IndexKey;
    if g[id].Array? {
      key, path' := FailingItem(g, id, 0, path, depth, seen, limit);
    } else {
      key, path' := FailingField(g, id, 0, path, depth, seen, limit);
    }
    w := g[id].props[key].value;
  }

  lemma {:induction false} FailingItem(
      g: Heap, id: Id, i: nat, path: seq<Step>, depth: nat, seen: set<Id>, limit: Option<nat>)
    returns (key: PropertyKey, path': seq<Step>)
    requires ValidHeap(g) && id in g && g[id].Array? && i <= g[id].length
    requires ReportsCycle(WalkItems(g, id, i, path, depth, seen, limit))
    ensures key in g[id].props && PlainProperty(g[id], key)
    ensures ReportsCycle(Walk(g, g[id].props[key].value, path', depth + 1, seen, limit))
    decreases g[id].length - i
  {
    hide Walk, IndexKey;
    key, path' := IndexKey(i), path + [At(i)];
    if ReadDataProperty(g, id, key, path', depth, seen, limit).Ok? {
      key, path' := FailingItem(g, id, i + 1, path, depth, seen, limit);
    }
  }

  lemma {:induction false} FailingField(
      g: Heap, id: Id, i: nat, path: seq<Step>, depth: nat, seen: set<Id>, limit: Option<nat>)
    returns (key: PropertyKey, path': seq<Step>)
    requires ValidHeap(g) && id in g && g[id].Object? && i <= |g[id].keys|
    requires ReportsCycle(WalkFields(g, id, i, path, depth, seen, limit))
    ensures key in g[id].props && PlainProperty(g[id], key)
    ensures ReportsCycle(Walk(g, g[id].props[key].value, path', depth + 1, seen, limit))
    decreases |g[id].keys| - i
  {
    hide Walk;
    key, path' := g[id].keys[i], path + [Dot(g[id].keys[i].s)];
    if ReadDataProperty(g, id, key, path', depth, seen, limit).Ok? {
      key, path' := FailingField(g, id, i + 1, path, depth, seen, limit);
    }
  }
}

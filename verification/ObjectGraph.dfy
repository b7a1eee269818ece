/**
 * The in-process object graph `snapshotPlainData` walks: nodes may be shared,
 * cyclic, proxied, or hold any property a JavaScript object can.
 */
module ObjectGraph {
  import Decimal

  type Id = nat

  /** Values copied as they are; a number is kept by its text. */
  datatype Leaf = Str(s: string) | Number(text: string) | BigInt(n: int) | Boolean(b: bool) | Undefined | Null

  datatype JsValue = Plain(leaf: Leaf) | Function | Symbol | Ref(id: Id)

  datatype PropertyKey = Name(s: string) | SymbolKey(n: nat)

  datatype Descriptor = Data(value: JsValue, enumerable: bool) | Accessor(enumerable: bool)

  datatype Prototype = ObjectPrototype | ArrayPrototype | NullPrototype | OtherPrototype

  /** `keys` is what `Reflect.ownKeys` returns. */
  datatype Node =
    | Proxy
    | Array(proto: Prototype, length: nat, keys: seq<PropertyKey>, props: map<PropertyKey, Descriptor>)
    | Object(proto: Prototype, keys: seq<PropertyKey>, props: map<PropertyKey, Descriptor>)

  type Heap = map<Id, Node>

  function IndexKey(i: nat): PropertyKey {
    Name(Decimal.OfNat(i))
  }

  /** What the language guarantees of the own keys of any object. */
  ghost predicate ValidNode(n: Node) {
    n.Proxy? ||
    (&& (forall i, j :: 0 <= i < j < |n.keys| ==> n.keys[i] != n.keys[j])
     && (forall k :: k in n.props <==> k in n.keys)
     && (n.Array? ==> Name("length") in n.props && n.props[Name("length")].Data?
                      && !n.props[Name("length")].enumerable))
  }

  ghost predicate InHeap(g: Heap, v: JsValue) {
    v.Ref? ==> v.id in g
  }

  ghost predicate ValidHeap(g: Heap) {
    forall id :: id in g ==>
      && ValidNode(g[id])
      && (!g[id].Proxy? ==>
            forall k :: k in g[id].props && g[id].props[k].Data? ==> InHeap(g, g[id].props[k].value))
  }

  /** The own keys are the indices below the length and "length", and no others. */
  ghost predicate Dense(n: Node)
    requires n.Array?
  {
    forall k :: k in n.keys <==> k == Name("length") || exists i: nat :: i < n.length && k == IndexKey(i)
  }

  // ------------------------------------------------- the dense array argument

  ghost function IndexKeys(n: nat): set<PropertyKey> {
    set i: nat | i < n :: IndexKey(i)
  }

  lemma IndexKeyInjective(i: nat, j: nat)
    requires IndexKey(i) == IndexKey(j)
    ensures i == j
  {
    Decimal.NatRoundTrip(i);
    Decimal.NatRoundTrip(j);
  }

  lemma {:induction false} CountIndexKeys(n: nat)
    ensures |IndexKeys(n)| == n
  {
    hide IndexKey;
    if n > 0 {
      CountIndexKeys(n - 1);
      if IndexKey(n - 1) in IndexKeys(n - 1) {
        var i: nat :| i < n - 1 && IndexKey(i) == IndexKey(n - 1);
        IndexKeyInjective(i, n - 1);
      }
      assert IndexKeys(n) == IndexKeys(n - 1) + {IndexKey(n - 1)};
    }
  }

  lemma {:induction false} CountDistinct(keys: seq<PropertyKey>)
    requires forall i, j :: 0 <= i < j < |keys| ==> keys[i] != keys[j]
    ensures |set k | k in keys| == |keys|
  {
    if keys != [] {
      var init := keys[..|keys| - 1];
      CountDistinct(init);
      assert (set k | k in keys) == (set k | k in init) + {keys[|keys| - 1]};
      assert keys[|keys| - 1] !in init;
    }
  }

  lemma LengthIsNoIndex(i: nat)
    ensures IndexKey(i) != Name("length")
  {
    assert Decimal.IsDigit(Decimal.OfNat(i)[0]);
    assert !Decimal.IsDigit("length"[0]);
  }

  ghost function WantedKeys(n: nat): set<PropertyKey> {
    IndexKeys(n) + {Name("length")}
  }

  lemma CountWanted(n: nat)
    ensures |WantedKeys(n)| == n + 1
  {
    hide IndexKey;
    CountIndexKeys(n);
    if Name("length") in IndexKeys(n) {
      var i: nat :| i < n && IndexKey(i) == Name("length");
      LengthIsNoIndex(i);
    }
  }

  lemma DenseIsWanted(n: Node)
    requires n.Array?
    ensures Dense(n) <==> (set k | k in n.keys) == WantedKeys(n.length)
  {
    hide IndexKey;
    var own := set k | k in n.keys;
    assert forall k :: k in own <==> k in n.keys;
    assert forall k :: k in WantedKeys(n.length) <==>
             k == Name("length") || exists i: nat :: i < n.length && k == IndexKey(i);
  }

  /**
   * Counting the own keys and reading every index is an exact test: a hole
   * cannot be made up for by an extra or symbol key.
   */
  lemma DenseIff(n: Node)
    requires n.Array? && ValidNode(n)
    ensures Dense(n) <==> |n.keys| == n.length + 1 && forall i: nat :: i < n.length ==> IndexKey(i) in n.props
  {
    hide IndexKey, Dense;
    var own := set k | k in n.keys;
    DenseIsWanted(n);
    CountDistinct(n.keys);
    CountWanted(n.length);
    if Dense(n) {
      forall i: nat | i < n.length ensures IndexKey(i) in n.props { assert IndexKey(i) in own; }
    }
    if |n.keys| == n.length + 1 && forall i: nat :: i < n.length ==> IndexKey(i) in n.props {
      assert WantedKeys(n.length) <= own;
      assert |own - WantedKeys(n.length)| == |own| - |WantedKeys(n.length)|;
    }
  }
}

/**
 * Which events share an audit head. The printer the chain is folded over,
 * `canonicalize` of packages/conformance/src/validate.ts, identifies some values
 * that differ; events with one head are equal up to exactly these identifications.
 */
module AuditEvents {
  import opened JsonText
  import opened JsValues
  import opened AuditChain
  import Decimal

  // ----------------------------------------------------------------- the printer

  function Canonical(v: JsValue): JsValue
    decreases v
  {
    match v
    case Undefined => Null
    case BigInt(n) => Str(Decimal.OfInt(n))
    case Arr(items) => Arr(CanonicalItems(items))
    case Obj(props) => Obj(map k | k in props && k != PROTO :: Canonical(props[k]))
    case _ => v
  }

  function CanonicalItems(items: seq<JsValue>): (r: seq<JsValue>)
    ensures |r| == |items| && forall i :: 0 <= i < |items| ==> r[i] == Canonical(items[i])
    decreases items
  {
    if items == [] then [] else [Canonical(items[0])] + CanonicalItems(items[1..])
  }

  lemma CanonicalProps(props: map<string, JsValue>, out: map<string, JsValue>)
    requires forall k :: k in out <==> k in props && k != PROTO
    requires forall k :: k in out ==> out[k] == Canonical(props[k])
    ensures Obj(out) == Canonical(Obj(props))
  {
  }

  method Canonicalize(order: set<string> -> seq<string>, v: JsValue) returns (r: JsValue)
    requires Enumerates(order)
    ensures r == Canonical(v)
    decreases v
  {
    match v
    case Undefined => r := Null;
    case BigInt(n) => r := Str(Decimal.OfInt(n));
    case Arr(items) =>
      var out: seq<JsValue> := [];
      for i := 0 to |items|
        invariant |out| == i && forall k :: 0 <= k < i ==> out[k] == Canonical(items[k])
      {
        var c := Canonicalize(order, items[i]);
        out := out + [c];
      }
      assert out == CanonicalItems(items);
      r := Arr(out);
    case Obj(props) =>
      var keys := order(props.Keys);
      assert forall k :: k in keys <==> k in props;
      hide Canonical, Enumerates;
      var out: map<string, JsValue> := map[];
      for i := 0 to |keys|
        invariant forall k :: k in out <==> k in keys[..i] && k != PROTO
        invariant forall k :: k in out ==> k in props && out[k] == Canonical(props[k])
      {
        assert keys[i] in keys && keys[..i + 1] == keys[..i] + [keys[i]];
        var c := Canonicalize(order, props[keys[i]]);
        out := Assign(out, keys[i], c);
      }
      assert keys[..|keys|] == keys;
      CanonicalProps(props, out);
      r := Obj(out);
    case _ => r := v;
  }

  /** `canonicalJson`. */
  function EventText(order: set<string> -> seq<string>, v: JsValue): string
    requires Enumerates(order)
  {
    Print(Quote, ToJson(order, Canonical(v)))
  }

  function EventTexts(order: set<string> -> seq<string>, events: seq<JsValue>): (r: seq<string>)
    requires Enumerates(order)
    ensures |r| == |events| && forall i :: 0 <= i < |r| ==> r[i] == EventText(order, events[i])
  {
    seq(|events|, i requires 0 <= i < |events| => EventText(order, events[i]))
  }

  // --------------------------------------------------------- what is told apart

  /** Printed as `null`. */
  predicate IsNullish(v: JsValue) {
    v.Null? || v.Undefined? || v.NonFinite?
  }

  /** Printed as a string literal of `TextOf(v)`. */
  predicate IsTextual(v: JsValue) {
    v.Str? || v.BigInt?
  }

  function TextOf(v: JsValue): string
    requires IsTextual(v)
  {
    if v.Str? then v.s else Decimal.OfInt(v.n)
  }

  /**
   * The same event, except that undefined, NaN and the infinities count as null, a
   * bigint as its decimal string, and a property that assignment cannot create as
   * absent, at any depth.
   */
  ghost predicate Identified(v: JsValue, w: JsValue)
    decreases v
  {
    match v
    case Bool(b) => w == v
    case Num(t) => w == v
    case Arr(items) =>
      w.Arr? && |items| == |w.items| && forall i :: 0 <= i < |items| ==> Identified(items[i], w.items[i])
    case Obj(props) =>
      && w.Obj? && (forall k :: k != PROTO ==> (k in props <==> k in w.props))
      && forall k :: k in props && k != PROTO ==> Identified(props[k], w.props[k])
    case _ =>
      || (IsNullish(v) && IsNullish(w))
      || (IsTextual(v) && IsTextual(w) && TextOf(v) == TextOf(w))
  }

  /** Identified events are stored alike, and no others. */
  lemma {:induction false} IdentifiedIff(v: JsValue, w: JsValue)
    ensures Identified(v, w) <==> Reread(Canonical(v)) == Reread(Canonical(w))
    decreases v
  {
    match v
    case Arr(items) =>
      if w.Arr? { ItemsIdentified(items, w.items, v); }
    case Obj(props) =>
      if w.Obj? { PropsIdentified(props, w.props, v); }
    case _ =>
  }

  lemma {:induction false} ItemsIdentified(vs: seq<JsValue>, ws: seq<JsValue>, v: JsValue)
    requires v == Arr(vs)
    ensures Identified(v, Arr(ws)) <==> Reread(Canonical(v)) == Reread(Canonical(Arr(ws)))
    decreases v, 0
  {
    var a, b := RereadItems(CanonicalItems(vs)), RereadItems(CanonicalItems(ws));
    assert |a| == |vs| && |b| == |ws|;
    if |vs| == |ws| {
      forall i | 0 <= i < |vs| ensures Identified(vs[i], ws[i]) <==> a[i] == b[i] {
        IdentifiedIff(vs[i], ws[i]);
      }
      assert a == b <==> forall i :: 0 <= i < |vs| ==> a[i] == b[i];
    }
  }

  function StoredProps(props: map<string, JsValue>): map<string, JsValue> {
    map k | k in props && k != PROTO :: Reread(Canonical(props[k]))
  }

  lemma StoredObject(props: map<string, JsValue>)
    ensures Reread(Canonical(Obj(props))) == Obj(StoredProps(props))
  {
    var c := map k | k in props && k != PROTO :: Canonical(props[k]);
    assert Canonical(Obj(props)) == Obj(c);
    assert (map k | k in c :: Reread(c[k])) == StoredProps(props);
  }

  lemma {:induction false} PropsIdentified(props: map<string, JsValue>, others: map<string, JsValue>, v: JsValue)
    requires v == Obj(props)
    ensures Identified(v, Obj(others)) <==> Reread(Canonical(v)) == Reread(Canonical(Obj(others)))
    decreases v, 0
  {
    hide Reread, Canonical;
    StoredObject(props);
    StoredObject(others);
    var a, b := StoredProps(props), StoredProps(others);
    forall k | k in props && k in others && k != PROTO ensures Identified(props[k], others[k]) <==> a[k] == b[k] {
      IdentifiedIff(props[k], others[k]);
    }
    if a == b {
      forall k | k != PROTO ensures k in props <==> k in others { assert k in a <==> k in b; }
      assert forall k :: k in props && k != PROTO ==> a[k] == b[k];
    }
    if Identified(v, Obj(others)) { assert a == b; }
  }

  /** The JSON of a value depends only on what is reread of it. */
  lemma {:induction false} SameJson(order: set<string> -> seq<string>, v: JsValue)
    requires Enumerates(order)
    ensures ToJson(order, v) == ToJson(order, Reread(v))
    decreases v
  {
    hide Enumerates;
    match v
    case Arr(items) =>
      forall i | 0 <= i < |items| ensures ToJson(order, items[i]) == ToJson(order, Reread(items[i])) {
        SameJson(order, items[i]);
      }
      assert ToItems(order, items) == ToItems(order, RereadItems(items));
    case Obj(props) =>
      forall k | k in props ensures ToJson(order, props[k]) == ToJson(order, Reread(props[k])) {
        SameJson(order, props[k]);
      }
      SameFields(order, props);
    case _ =>
  }

  lemma SameFields(order: set<string> -> seq<string>, props: map<string, JsValue>)
    requires Enumerates(order)
    requires forall k :: k in props ==> ToJson(order, props[k]) == ToJson(order, Reread(props[k]))
    ensures ToJson(order, Obj(props)) == ToJson(order, Reread(Obj(props)))
  {
    var m := map k | k in props :: Reread(props[k]);
    assert Reread(Obj(props)) == Obj(m) && m.Keys == props.Keys;
    var keys := order(props.Keys);
    var fs, gs := ToFields(order, Obj(props), keys), ToFields(order, Obj(m), keys);
    hide Reread, ToJson, ToFields;
    forall i | 0 <= i < |keys| ensures fs[i] == gs[i] { assert keys[i] in keys; }
    assert fs == gs;
    ObjectJson(order, Obj(props));
    ObjectJson(order, Obj(m));
  }

  lemma ObjectJson(order: set<string> -> seq<string>, v: JsValue)
    requires Enumerates(order) && v.Obj?
    ensures (forall k :: k in order(v.props.Keys) ==> k in v.props)
    ensures ToJson(order, v) == JObj(ToFields(order, v, order(v.props.Keys)))
  {
  }

  /** Two events have one text exactly when they are identified. */
  lemma EventTextIff(order: set<string> -> seq<string>, v: JsValue, w: JsValue)
    requires Enumerates(order)
    ensures EventText(order, v) == EventText(order, w) <==> Identified(v, w)
  {
    hide Identified, Canonical, Reread, ToJson, Print, Parse, FromJson, Enumerates, WellFormed, Quote;
    IdentifiedIff(v, w);
    ReadsBack(order, Canonical(v));
    ReadsBack(order, Canonical(w));
    ParsePrint(ToJson(order, Canonical(v)));
    ParsePrint(ToJson(order, Canonical(w)));
    SameJson(order, Canonical(v));
    SameJson(order, Canonical(w));
  }

  ghost predicate IdentifiedEvents(a: seq<JsValue>, b: seq<JsValue>) {
    |a| == |b| && forall i :: 0 <= i < |a| ==> Identified(a[i], b[i])
  }

  /** From one head, the two histories of events are identified, or `x` and `y` are a collision. */
  lemma SameHeadEvents(hash: string -> string, order: set<string> -> seq<string>, a: seq<JsValue>, b: seq<JsValue>)
    returns (x: string, y: string)
    requires Digest64(hash) && Enumerates(order)
    requires Head(hash, hash(GENESIS), EventTexts(order, a)) == Head(hash, hash(GENESIS), EventTexts(order, b))
    ensures IdentifiedEvents(a, b)
         || (x in Hashed(hash, EventTexts(order, a)) && y in Hashed(hash, EventTexts(order, b))
             && x != y && hash(x) == hash(y))
  {
    hide Head, Hashed, Digest64, Enumerates, EventText, Identified;
    x, y := SameHead(hash, EventTexts(order, a), EventTexts(order, b));
    if EventTexts(order, a) == EventTexts(order, b) { TextsIff(order, a, b); }
  }

  lemma TextsIff(order: set<string> -> seq<string>, a: seq<JsValue>, b: seq<JsValue>)
    requires Enumerates(order)
    ensures EventTexts(order, a) == EventTexts(order, b) <==> IdentifiedEvents(a, b)
  {
    hide EventText, Identified, Enumerates;
    var s, t := EventTexts(order, a), EventTexts(order, b);
    if |a| == |b| {
      forall i | 0 <= i < |a| ensures s[i] == t[i] <==> Identified(a[i], b[i]) { EventTextIff(order, a[i], b[i]); }
      assert s == t <==> forall i :: 0 <= i < |a| ==> s[i] == t[i];
    }
  }

  /** Without a collision among the strings hashed, exactly the identified histories share a head. */
  lemma HeadIdentifiesEvents(
    hash: string -> string, order: set<string> -> seq<string>, a: seq<JsValue>, b: seq<JsValue>)
    requires Digest64(hash) && Enumerates(order)
    requires var s, t := Hashed(hash, EventTexts(order, a)), Hashed(hash, EventTexts(order, b));
             forall x, y :: x in s && y in t && hash(x) == hash(y) ==> x == y
    ensures Head(hash, hash(GENESIS), EventTexts(order, a)) == Head(hash, hash(GENESIS), EventTexts(order, b))
       <==> IdentifiedEvents(a, b)
  {
    hide Head, Hashed, Digest64, Enumerates, EventText, Identified;
    HeadIdentifiesHistory(hash, EventTexts(order, a), EventTexts(order, b));
    TextsIff(order, a, b);
  }

  /** Events of JSON data without a property of that name are identified only when they are equal. */
  lemma {:induction false} IdentifiedData(v: JsValue, w: JsValue)
    requires PlainData(v) && PlainData(w) && NoProtoKey(v) && NoProtoKey(w) && Identified(v, w)
    ensures v == w
    decreases v
  {
    match v
    case Arr(items) =>
      forall i | 0 <= i < |items| ensures items[i] == w.items[i] { IdentifiedData(items[i], w.items[i]); }
      assert items == w.items;
    case Obj(props) =>
      forall k | k in props ensures k in w.props && props[k] == w.props[k] { IdentifiedData(props[k], w.props[k]); }
      assert forall k :: k in w.props ==> k in props;
      assert props == w.props;
    case _ =>
  }
}

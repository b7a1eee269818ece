/**
 * JavaScript values and what `JSON.stringify` and `JSON.parse` make of them. An
 * object is the map of its own properties; the order in which an engine
 * enumerates them is a parameter, so nothing proved depends on it.
 */
module JsValues {
  import opened JsonText

  type NumText = t: string | NumberText(t) witness "0"

  /** A number is its text; `NonFinite` is NaN or an infinity. */
  datatype JsValue =
    | Undefined | Null | Bool(b: bool) | Num(text: NumText) | NonFinite | BigInt(n: int) | Str(s: string)
    | Arr(items: seq<JsValue>)
    | Obj(props: map<string, JsValue>)

  /** Assigning this key on an ordinary object sets its prototype and makes no own property. */
  const PROTO: string := "__proto__"

  /** `out[key] = v` on an object made by `{}`. */
  function Assign(out: map<string, JsValue>, key: string, v: JsValue): map<string, JsValue> {
    if key == PROTO then out else out[key := v]
  }

  /** Each key of a set once. */
  ghost predicate Enumerates(order: set<string> -> seq<string>) {
    forall s :: (forall k :: k in order(s) <==> k in s)
                && forall i, j :: 0 <= i < j < |order(s)| ==> order(s)[i] != order(s)[j]
  }

  // ------------------------------------------------------ JSON.stringify and parse

  function ToJson(order: set<string> -> seq<string>, v: JsValue): Json
    requires Enumerates(order)
    decreases v, 0
  {
    match v
    case Null => JNull
    case NonFinite => JNull
    case Undefined => JNull
    case BigInt(_) => JNull  // not a result of `canonicalize`
    case Bool(b) => JBool(b)
    case Num(t) => JNum(t)
    case Str(s) => JStr(s)
    case Arr(items) => JArr(ToItems(order, items))
    case Obj(props) => JObj(ToFields(order, v, order(props.Keys)))
  }

  function ToItems(order: set<string> -> seq<string>, items: seq<JsValue>): (r: seq<Json>)
    requires Enumerates(order)
    ensures |r| == |items| && forall i :: 0 <= i < |items| ==> r[i] == ToJson(order, items[i])
    decreases items, 0
  {
    if items == [] then [] else [ToJson(order, items[0])] + ToItems(order, items[1..])
  }

  function ToFields(order: set<string> -> seq<string>, v: JsValue, keys: seq<string>): (r: seq<Field<Json>>)
    requires Enumerates(order) && v.Obj? && forall k :: k in keys ==> k in v.props
    ensures |r| == |keys|
    ensures forall i :: 0 <= i < |keys| ==> r[i] == Field(keys[i], ToJson(order, v.props[keys[i]]))
    decreases v, 0, |keys|
  {
    if keys == [] then []
    else [Field(keys[0], ToJson(order, v.props[keys[0]]))] + ToFields(order, v, keys[1..])
  }

  /** Properties are created by definition, so `JSON.parse` can make one named like the prototype. */
  function FromJson(j: Json): JsValue
    requires WellFormed(j)
    decreases j, 0
  {
    match j
    case JNull => Null
    case JBool(b) => Bool(b)
    case JNum(t) => Num(t)
    case JStr(s) => Str(s)
    case JArr(js) => Arr(FromItems(js))
    case JObj(fs) => Obj(FromFields(fs))
  }

  function FromItems(js: seq<Json>): (r: seq<JsValue>)
    requires forall i :: 0 <= i < |js| ==> WellFormed(js[i])
    ensures |r| == |js| && forall i :: 0 <= i < |js| ==> r[i] == FromJson(js[i])
    decreases js, 0
  {
    if js == [] then [] else [FromJson(js[0])] + FromItems(js[1..])
  }

  /** A later property of the same name replaces an earlier one. */
  function FromFields(fs: seq<Field<Json>>): map<string, JsValue>
    requires forall i :: 0 <= i < |fs| ==> WellFormed(fs[i].val)
    decreases fs, 0
  {
    if fs == [] then map[]
    else FromFields(fs[..|fs| - 1])[fs[|fs| - 1].key := FromField(fs[|fs| - 1])]
  }

  function FromField(f: Field<Json>): (v: JsValue)
    requires WellFormed(f.val)
    ensures v == FromJson(f.val)
    decreases f, 0
  {
    FromJson(f.val)
  }

  /** The JSON reading of a value: what `JSON.parse(JSON.stringify(v))` is. */
  function Reread(v: JsValue): JsValue
    decreases v
  {
    match v
    case NonFinite => Null
    case Undefined => Null
    case BigInt(_) => Null
    case Arr(items) => Arr(RereadItems(items))
    case Obj(props) => Obj(map k | k in props :: Reread(props[k]))
    case _ => v
  }

  function RereadItems(items: seq<JsValue>): (r: seq<JsValue>)
    ensures |r| == |items| && forall i :: 0 <= i < |items| ==> r[i] == Reread(items[i])
    decreases items
  {
    if items == [] then [] else [Reread(items[0])] + RereadItems(items[1..])
  }

  lemma {:induction false} ToJsonWellFormed(order: set<string> -> seq<string>, v: JsValue)
    requires Enumerates(order)
    ensures WellFormed(ToJson(order, v))
    decreases v
  {
    match v
    case Arr(items) =>
      forall i | 0 <= i < |items| ensures WellFormed(ToItems(order, items)[i]) {
        ToJsonWellFormed(order, items[i]);
      }
    case Obj(props) =>
      var keys := order(props.Keys);
      var fs := ToFields(order, v, keys);
      forall i | 0 <= i < |fs| ensures WellFormed(fs[i].val) {
        assert keys[i] in keys;
        ToJsonWellFormed(order, props[keys[i]]);
      }
    case _ =>
  }

  lemma {:induction false} FromFieldsMap(fs: seq<Field<Json>>)
    requires forall i :: 0 <= i < |fs| ==> WellFormed(fs[i].val)
    requires forall i, j :: 0 <= i < j < |fs| ==> fs[i].key != fs[j].key
    ensures forall i :: 0 <= i < |fs| ==>
              fs[i].key in FromFields(fs) && FromFields(fs)[fs[i].key] == FromJson(fs[i].val)
    ensures forall k :: k in FromFields(fs) ==> exists i :: 0 <= i < |fs| && fs[i].key == k
  {
    if fs != [] {
      var init := fs[..|fs| - 1];
      FromFieldsMap(init);
      forall k | k in FromFields(fs) ensures exists i :: 0 <= i < |fs| && fs[i].key == k {
        if k != fs[|fs| - 1].key {
          assert k in FromFields(init);
          var i :| 0 <= i < |init| && init[i].key == k;
          assert fs[i].key == k;
        }
      }
      forall i | 0 <= i < |fs|
        ensures fs[i].key in FromFields(fs) && FromFields(fs)[fs[i].key] == FromJson(fs[i].val)
      {
        if i < |init| { assert init[i] == fs[i]; }
      }
    }
  }

  /** Of several properties with one name the last one counts. */
  lemma {:induction false} LastFieldCounts(fs: seq<Field<Json>>, i: nat)
    requires forall k :: 0 <= k < |fs| ==> WellFormed(fs[k].val)
    requires i < |fs| && forall k :: i < k < |fs| ==> fs[k].key != fs[i].key
    ensures fs[i].key in FromFields(fs) && FromFields(fs)[fs[i].key] == FromJson(fs[i].val)
    decreases |fs|
  {
    if i < |fs| - 1 { LastFieldCounts(fs[..|fs| - 1], i); }
  }

  /** Fields whose keys are those of `m`, each once, and whose values are read as there, are read as `m`. */
  lemma FieldsMap(fs: seq<Field<Json>>, keys: seq<string>, m: map<string, JsValue>)
    requires |fs| == |keys| && (forall k :: k in m ==> k in keys)
    requires forall i :: 0 <= i < |fs| ==> fs[i].key == keys[i] && keys[i] in m && ReadsAs(fs[i].val, m[keys[i]])
    requires forall i, j :: 0 <= i < j < |keys| ==> keys[i] != keys[j]
    ensures (forall i :: 0 <= i < |fs| ==> WellFormed(fs[i].val)) && FromFields(fs) == m
  {
    hide FromJson, FromFields, WellFormed;
    forall i | 0 <= i < |fs| ensures WellFormed(fs[i].val) && FromJson(fs[i].val) == m[keys[i]] {
      assert ReadsAs(fs[i].val, m[keys[i]]);
    }
    FromFieldsMap(fs);
    var out := FromFields(fs);
    forall k | k in m ensures k in out && out[k] == m[k] {
      var i :| 0 <= i < |keys| && keys[i] == k;
      assert out[fs[i].key] == FromJson(fs[i].val);
    }
    forall k | k in out ensures k in m {
      var i :| 0 <= i < |fs| && fs[i].key == k;
    }
  }

  predicate ReadsAs(j: Json, v: JsValue) {
    WellFormed(j) && FromJson(j) == v
  }

  lemma ItemsReadBack(order: set<string> -> seq<string>, items: seq<JsValue>)
    requires Enumerates(order)
    requires forall i :: 0 <= i < |items| ==> ReadsAs(ToJson(order, items[i]), Reread(items[i]))
    ensures ReadsAs(ToJson(order, Arr(items)), Reread(Arr(items)))
  {
    hide Enumerates;
    var js := ToItems(order, items);
    forall i | 0 <= i < |items| ensures WellFormed(js[i]) && FromJson(js[i]) == Reread(items[i]) {
      assert ReadsAs(js[i], Reread(items[i]));
    }
    assert FromItems(js) == RereadItems(items);
  }

  lemma ObjectReadsBack(order: set<string> -> seq<string>, v: JsValue)
    requires Enumerates(order) && v.Obj?
    requires forall k :: k in v.props ==> ReadsAs(ToJson(order, v.props[k]), Reread(v.props[k]))
    ensures ReadsAs(ToJson(order, v), Reread(v))
  {
    var m := map k | k in v.props :: Reread(v.props[k]);
    assert Reread(v) == Obj(m);
    hide Reread, ReadsAs, FromJson;
    var keys := order(v.props.Keys);
    var fs := ToFields(order, v, keys);
    assert ToJson(order, v) == JObj(fs);
    hide ToJson, ToFields;
    forall i | 0 <= i < |fs| ensures fs[i].key == keys[i] && keys[i] in m && ReadsAs(fs[i].val, m[keys[i]]) {
      assert keys[i] in keys;
    }
    FieldsMap(fs, keys, m);
    ReadsAsObject(fs, m);
  }

  lemma ReadsAsObject(fs: seq<Field<Json>>, m: map<string, JsValue>)
    requires (forall i :: 0 <= i < |fs| ==> WellFormed(fs[i].val)) && FromFields(fs) == m
    ensures ReadsAs(JObj(fs), Obj(m))
  {
  }

  lemma {:induction false} ReadsBack(order: set<string> -> seq<string>, v: JsValue)
    requires Enumerates(order)
    ensures ReadsAs(ToJson(order, v), Reread(v))
    decreases v
  {
    match v
    case Arr(items) =>
      hide *;
      forall i | 0 <= i < |items| ensures ReadsAs(ToJson(order, items[i]), Reread(items[i])) {
        ReadsBack(order, items[i]);
      }
      ItemsReadBack(order, items);
    case Obj(props) =>
      hide *;
      forall k | k in props ensures ReadsAs(ToJson(order, props[k]), Reread(props[k])) {
        ReadsBack(order, props[k]);
      }
      ObjectReadsBack(order, v);
    case _ =>
  }

  // ------------------------------------------------------------ kinds of values

  /** JSON data: no undefined, no bigint, no NaN or infinity. */
  predicate PlainData(v: JsValue)
    decreases v
  {
    match v
    case Undefined => false
    case BigInt(_) => false
    case NonFinite => false
    case Arr(items) => forall i :: 0 <= i < |items| ==> PlainData(items[i])
    case Obj(props) => forall k :: k in props ==> PlainData(props[k])
    case _ => true
  }

  /** No object anywhere in `v` has a property of that name. */
  predicate NoProtoKey(v: JsValue)
    decreases v
  {
    match v
    case Arr(items) => forall i :: 0 <= i < |items| ==> NoProtoKey(items[i])
    case Obj(props) => "__proto__" !in props && forall k :: k in props ==> NoProtoKey(props[k])
    case _ => true
  }
}

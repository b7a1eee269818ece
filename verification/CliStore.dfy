/** State persistence of the command line tool: packages/cli/src/store.ts. */
module CliStore {
  import opened Outcome
  import opened JsonText
  import opened JsValues
  import Decimal

  // --------------------------------------------------------------- canonicalize

  /** What `canonicalize` makes of a value. */
  function Canonical(v: JsValue): JsValue
    decreases v
  {
    match v
    case Undefined => Str("undefined")
    case BigInt(n) => Str(Decimal.OfInt(n) + "n")
    case Arr(items) => Arr(CanonicalItems(items))
    case Obj(props) => Obj(map k | k in props && k != PROTO :: Canonical(props[k]))
    case _ => v
  }

  function CanonicalItems(items: seq<JsValue>): (r: seq<JsValue>)
    ensures |r| == |items| && forall i :: 0 <= i < |items| ==> r[i] == Canonical(items[i])
    decreases items
  {
    if items == [] then [] else [Canonical(items[0])] + CanonicalItems(items[1..])
  }

  method Canonicalize(order: set<string> -> seq<string>, v: JsValue) returns (r: JsValue)
    requires Enumerates(order)
    ensures r == Canonical(v)
    decreases v
  {
    match v
    case Undefined => r := Str("undefined");
    case BigInt(n) => r := Str(Decimal.OfInt(n) + "n");
    case Arr(items) =>
      var out: seq<JsValue> := [];
      for i := 0 to |items|
        invariant |out| == i && forall k :: 0 <= k < i ==> out[k] == Canonical(items[k])
      {
        var c := Canonicalize(order, items[i]);
        out := out + [c];
      }
      assert out == CanonicalItems(items);
      r := Arr(out);
    case Obj(props) =>
      var keys := order(props.Keys);
      assert forall k :: k in keys <==> k in props;
      hide Canonical, Enumerates;
      var out: map<string, JsValue> := map[];
      for i := 0 to |keys|
        invariant forall k :: k in out <==> k in keys[..i] && k != PROTO
        invariant forall k :: k in out ==> k in props && out[k] == Canonical(props[k])
      {
        assert keys[i] in keys && keys[..i + 1] == keys[..i] + [keys[i]];
        var c := Canonicalize(order, props[keys[i]]);
        out := Assign(out, keys[i], c);
      }
      assert keys[..|keys|] == keys;
      CanonicalProps(props, out);
      r := Obj(out);
    case _ => r := v;
  }

  lemma CanonicalProps(props: map<string, JsValue>, out: map<string, JsValue>)
    requires forall k :: k in out <==> k in props && k != PROTO
    requires forall k :: k in out ==> out[k] == Canonical(props[k])
    ensures Obj(out) == Canonical(Obj(props))
  {
  }

  // -------------------------------------------------------------- the state file

  function CanonicalStringify(order: set<string> -> seq<string>, v: JsValue): string
    requires Enumerates(order)
  {
    Print(Quote, ToJson(order, Canonical(v)))
  }

  function StateFileText(order: set<string> -> seq<string>, state: JsValue): string
    requires Enumerates(order)
  {
    CanonicalStringify(order, state) + "\n"
  }

  /** Why a state file cannot be read. */
  datatype Unreadable = NotJson | NotAnObject | NotBigIntLike

  /** `JSON.parse` of one minified document and the newline after it. */
  function ParseDocument(text: string): Option<Json> {
    Parse(if text != "" && text[|text| - 1] == '\n' then text[..|text| - 1] else text)
  }

  /** A trailing `n` is optional; only decimal digits are modelled for the rest. */
  function ParseBigIntLike(v: JsValue): Option<int> {
    match v
    case BigInt(n) => Some(n)
    case Num(t) => Decimal.ToInt(t)
    case Str(s) => Decimal.ToInt(if s != "" && s[|s| - 1] == 'n' then s[..|s| - 1] else s)
    case _ => None
  }

  function Get(props: map<string, JsValue>, key: string): JsValue {
    if key in props then props[key] else Undefined
  }

  function OwnProps(v: JsValue): map<string, JsValue> {
    if v.Obj? then v.props else map[]
  }

  /** Every property read as a bigint. */
  function BigIntRecord(v: JsValue): Result<map<string, JsValue>, Unreadable> {
    var props := OwnProps(v);
    if forall k :: k in props ==> ParseBigIntLike(props[k]).Some? then
      Ok(map k | k in props && k != PROTO :: BigInt(ParseBigIntLike(props[k]).value))
    else Err(NotBigIntLike)
  }

  method MapRecordBigInt(order: set<string> -> seq<string>, v: JsValue)
    returns (r: Result<map<string, JsValue>, Unreadable>)
    requires Enumerates(order)
    ensures r == BigIntRecord(v)
  {
    var props := OwnProps(v);
    var keys := order(props.Keys);
    assert forall k :: k in keys <==> k in props;
    hide ParseBigIntLike, BigIntRecord, Enumerates;
    var out: map<string, JsValue> := map[];
    for i := 0 to |keys|
      invariant forall k :: k in keys[..i] ==> k in props && ParseBigIntLike(props[k]).Some?
      invariant forall k :: k in out <==> k in keys[..i] && k != PROTO
      invariant forall k :: k in out ==> k in props && BigIntLike(props[k], out[k])
    {
      assert keys[i] in keys && keys[..i + 1] == keys[..i] + [keys[i]];
      var n := ParseBigIntLike(props[keys[i]]);
      if n.None? {
        RecordFails(v, keys[i]);
        return Err(NotBigIntLike);
      }
      out := Assign(out, keys[i], BigInt(n.value));
    }
    assert keys[..|keys|] == keys;
    RecordRead(v, out);
    r := Ok(out);
  }

  predicate BigIntLike(v: JsValue, n: JsValue) {
    n.BigInt? && ParseBigIntLike(v) == Some(n.n)
  }

  lemma RecordFails(v: JsValue, key: string)
    requires key in OwnProps(v) && ParseBigIntLike(OwnProps(v)[key]).None?
    ensures BigIntRecord(v) == Err(NotBigIntLike)
  {
  }

  lemma RecordRead(v: JsValue, out: map<string, JsValue>)
    requires forall k :: k in OwnProps(v) ==> ParseBigIntLike(OwnProps(v)[k]).Some?
    requires forall k :: k in out <==> k in OwnProps(v) && k != PROTO
    requires forall k :: k in out ==> BigIntLike(OwnProps(v)[k], out[k])
    ensures BigIntRecord(v) == Ok(out)
  {
    hide ParseBigIntLike;
    var props := OwnProps(v);
    assert out == map k | k in props && k != PROTO :: BigInt(ParseBigIntLike(props[k]).value);
  }

  function NormalizeStateBigInts(raw: JsValue): Result<JsValue, Unreadable> {
    if raw.Null? || raw.Undefined? then Err(NotAnObject)
    else
      var s := OwnProps(raw);
      var budget := Get(s, "budget");
      match (BigIntRecord(Get(OwnProps(budget), "budget_limit")),
             BigIntRecord(Get(OwnProps(budget), "spent_in_period")),
             BigIntRecord(Get(s, "max_amount_per_action")))
      case (Ok(limit), Ok(spent), Ok(max)) =>
        var b := OwnProps(budget)["budget_limit" := Obj(limit)]["spent_in_period" := Obj(spent)];
        Ok(Obj(s["budget" := Obj(b)]["max_amount_per_action" := Obj(max)]))
      case _ => Err(NotBigIntLike)
  }

  function ReadStateText(text: string): Result<JsValue, Unreadable> {
    match ParseDocument(text)
    case None => Err(NotJson)
    case Some(j) => if WellFormed(j) then NormalizeStateBigInts(FromJson(j)) else Err(NotJson)
  }

  // ------------------------------------------------------------ state round trip

  predicate IsBigIntRecord(v: JsValue) {
    v.Obj? && forall k :: k in v.props ==> v.props[k].BigInt?
  }

  /** A state: its bigints are the values of three records. */
  predicate IsState(v: JsValue) {
    && v.Obj? && "budget" in v.props && "max_amount_per_action" in v.props
    && IsBigIntRecord(v.props["max_amount_per_action"])
    && IsBudget(v.props["budget"])
    && forall k :: k in v.props && k != "budget" && k != "max_amount_per_action" ==> PlainData(v.props[k])
  }

  predicate IsBudget(b: JsValue) {
    && b.Obj? && "budget_limit" in b.props && "spent_in_period" in b.props
    && IsBigIntRecord(b.props["budget_limit"]) && IsBigIntRecord(b.props["spent_in_period"])
    && forall k :: k in b.props && k != "budget_limit" && k != "spent_in_period" ==> PlainData(b.props[k])
  }

  /** The value without the properties that assignment cannot create, at any depth. */
  function WithoutProto(v: JsValue): JsValue
    decreases v
  {
    match v
    case Arr(items) => Arr(ItemsWithoutProto(items))
    case Obj(props) => Obj(map k | k in props && k != PROTO :: WithoutProto(props[k]))
    case _ => v
  }

  function ItemsWithoutProto(items: seq<JsValue>): (r: seq<JsValue>)
    ensures |r| == |items| && forall i :: 0 <= i < |items| ==> r[i] == WithoutProto(items[i])
    decreases items
  {
    if items == [] then [] else [WithoutProto(items[0])] + ItemsWithoutProto(items[1..])
  }

  lemma {:induction false} WithoutProtoIff(v: JsValue)
    ensures WithoutProto(v) == v <==> NoProtoKey(v)
    decreases v
  {
    match v
    case Arr(items) =>
      forall i | 0 <= i < |items| ensures WithoutProto(items[i]) == items[i] <==> NoProtoKey(items[i]) {
        WithoutProtoIff(items[i]);
      }
      if NoProtoKey(v) { assert ItemsWithoutProto(items) == items; }
      if WithoutProto(v) == v {
        assert forall i :: 0 <= i < |items| ==> ItemsWithoutProto(items)[i] == items[i];
      }
    case Obj(props) =>
      forall k | k in props ensures WithoutProto(props[k]) == props[k] <==> NoProtoKey(props[k]) {
        WithoutProtoIff(props[k]);
      }
      var out := map k | k in props && k != PROTO :: WithoutProto(props[k]);
      if NoProtoKey(v) { assert out == props; }
      if WithoutProto(v) == v {
        assert out == props;
        assert PROTO !in out;
        assert forall k :: k in props ==> out[k] == props[k];
      }
    case _ =>
  }

  lemma {:induction false} PlainStored(v: JsValue)
    requires PlainData(v)
    ensures Reread(Canonical(v)) == WithoutProto(v)
    decreases v
  {
    match v
    case Arr(items) =>
      forall i | 0 <= i < |items| ensures Reread(Canonical(items[i])) == WithoutProto(items[i]) {
        PlainStored(items[i]);
      }
      assert RereadItems(CanonicalItems(items)) == ItemsWithoutProto(items);
    case Obj(props) =>
      forall k | k in props ensures Reread(Canonical(props[k])) == WithoutProto(props[k]) {
        PlainStored(props[k]);
      }
      PropsStored(v);
    case _ =>
  }

  lemma PropsStored(v: JsValue)
    requires v.Obj? && forall k :: k in v.props ==> Reread(Canonical(v.props[k])) == WithoutProto(v.props[k])
    ensures Reread(Canonical(v)) == WithoutProto(v)
  {
    hide Reread, Canonical, WithoutProto;
    ObjectStored(v);
    assert Reread(Canonical(v)).props == WithoutProto(v).props;
  }

  /** The decimal text of an integer with an `n` after it reads back as the integer. */
  lemma BigIntText(n: int)
    ensures ParseBigIntLike(Str(Decimal.OfInt(n) + "n")) == Some(n)
  {
    var s := Decimal.OfInt(n) + "n";
    assert s[..|s| - 1] == Decimal.OfInt(n);
    Decimal.IntRoundTrip(n);
  }

  /** A bigint is stored as its decimal text with an `n` after it, as a string. */
  lemma BigIntStored(order: set<string> -> seq<string>, n: int)
    requires Enumerates(order)
    ensures CanonicalStringify(order, BigInt(n)) == Quote(Decimal.OfInt(n) + "n")
    ensures CanonicalStringify(order, Undefined) == Quote("undefined")
  {
    hide Quote, Enumerates, Decimal.OfInt;
  }

  /** What is read as an integer: bigints, and decimal numbers and strings, these with or without the `n`. */
  lemma BigIntLikes(n: int, b: bool, v: JsValue)
    ensures ParseBigIntLike(BigInt(n)) == Some(n) && ParseBigIntLike(Str(Decimal.OfInt(n))) == Some(n)
    ensures NumberText(Decimal.OfInt(n)) ==> ParseBigIntLike(Num(Decimal.OfInt(n))) == Some(n)
    ensures v.Undefined? || v.Null? || v.Bool? || v.NonFinite? || v.Arr? || v.Obj? ==> ParseBigIntLike(v) == None
  {
    Decimal.IntRoundTrip(n);
    var s := Decimal.OfInt(n);
    assert Decimal.IsDigit(s[|s| - 1]);
  }

  /** Whatever is read, the three records hold bigints and every other property is kept as it was. */
  lemma NormalizedState(raw: JsValue)
    ensures raw.Null? || raw.Undefined? ==> NormalizeStateBigInts(raw) == Err(NotAnObject)
    ensures NormalizeStateBigInts(raw).Ok? ==>
              var v, s := NormalizeStateBigInts(raw).value, OwnProps(raw);
              && v.Obj? && "budget" in v.props && "max_amount_per_action" in v.props && v.props["budget"].Obj?
              && IsBigIntRecord(v.props["max_amount_per_action"])
              && (forall k :: k != "budget" && k != "max_amount_per_action" ==>
                    (k in v.props <==> k in s) && (k in s ==> v.props[k] == s[k]))
              && var b, c := v.props["budget"].props, OwnProps(Get(s, "budget"));
                 && "budget_limit" in b && "spent_in_period" in b
                 && IsBigIntRecord(b["budget_limit"]) && IsBigIntRecord(b["spent_in_period"])
                 && (forall k :: k != "budget_limit" && k != "spent_in_period" ==>
                       (k in b <==> k in c) && (k in c ==> b[k] == c[k]))
  {
    hide ParseBigIntLike;
  }

  /** A text that is no JSON document is rejected as such, and only then. */
  lemma NotJsonIff(text: string)
    ensures ReadStateText(text) == Err(NotJson) <==>
            ParseDocument(text).None? || !WellFormed(ParseDocument(text).value)
  {
  }

  /** Missing records are read as empty ones. */
  lemma EmptyStateCompleted()
    ensures NormalizeStateBigInts(Obj(map[])) == Ok(Obj(map[
              "budget" := Obj(map["budget_limit" := Obj(map[]), "spent_in_period" := Obj(map[])]),
              "max_amount_per_action" := Obj(map[])]))
  {
    assert BigIntRecord(Undefined) == Ok(map[]);
  }

  lemma RecordStored(v: JsValue)
    requires IsBigIntRecord(v)
    ensures Reread(Canonical(v)).Obj? && BigIntRecord(Reread(Canonical(v))) == Ok(WithoutProto(v).props)
  {
    hide Decimal.OfInt, Decimal.ToInt;
    var stored := Reread(Canonical(v)).props;
    forall k | k in stored
      ensures k in v.props && k != PROTO && ParseBigIntLike(stored[k]) == Some(v.props[k].n)
    {
      assert v.props[k].BigInt?;
      assert stored[k] == Reread(Canonical(v.props[k]));
      BigIntText(v.props[k].n);
    }
    var out := map k | k in stored && k != PROTO :: BigInt(ParseBigIntLike(stored[k]).value);
    assert out == WithoutProto(v).props;
  }

  /** What is stored of an object, property by property. */
  lemma ObjectStored(v: JsValue)
    requires v.Obj?
    ensures var r := Reread(Canonical(v));
            && r.Obj? && WithoutProto(v).Obj?
            && (forall k :: k in r.props <==> k in v.props && k != PROTO)
            && (forall k :: k in r.props ==> r.props[k] == Reread(Canonical(v.props[k])))
            && (forall k :: k in WithoutProto(v).props <==> k in v.props && k != PROTO)
            && (forall k :: k in WithoutProto(v).props ==> WithoutProto(v).props[k] == WithoutProto(v.props[k]))
  {
  }

  /** Replacing two properties of a stored object by their originals restores it, when the others are plain. */
  lemma TwoRestored(v: JsValue, a: string, b: string)
    requires v.Obj? && a in v.props && b in v.props && a != PROTO && b != PROTO
    requires forall k :: k in v.props && k != a && k != b ==> PlainData(v.props[k])
    ensures Reread(Canonical(v)).Obj?
    ensures Obj(Reread(Canonical(v)).props[a := WithoutProto(v.props[a])][b := WithoutProto(v.props[b])])
         == WithoutProto(v)
  {
    hide Reread, Canonical, WithoutProto, PlainData;
    ObjectStored(v);
    var r, u := Reread(Canonical(v)).props, WithoutProto(v).props;
    forall k | k in r && k != a && k != b ensures r[k] == u[k] { PlainStored(v.props[k]); }
    MapWithTwo(r, u, a, b);
  }

  lemma MapWithTwo(r: map<string, JsValue>, u: map<string, JsValue>, a: string, b: string)
    requires a in u && b in u && (forall k :: k in r <==> k in u)
    requires forall k :: k in r && k != a && k != b ==> r[k] == u[k]
    ensures r[a := u[a]][b := u[b]] == u
  {
  }

  lemma BudgetStored(b: JsValue)
    requires IsBudget(b)
    ensures var r := Reread(Canonical(b));
            && r.Obj? && "budget_limit" in r.props && "spent_in_period" in r.props
            && BigIntRecord(r.props["budget_limit"]) == Ok(OwnProps(WithoutProto(b.props["budget_limit"])))
            && BigIntRecord(r.props["spent_in_period"]) == Ok(OwnProps(WithoutProto(b.props["spent_in_period"])))
            && WithoutProto(b)
               == Obj(r.props["budget_limit" := Obj(OwnProps(WithoutProto(b.props["budget_limit"])))]
                             ["spent_in_period" := Obj(OwnProps(WithoutProto(b.props["spent_in_period"])))])
  {
    hide BigIntRecord, PlainData, Reread, Canonical, WithoutProto;
    ObjectStored(b);
    ObjectStored(b.props["budget_limit"]);
    ObjectStored(b.props["spent_in_period"]);
    RecordStored(b.props["budget_limit"]);
    RecordStored(b.props["spent_in_period"]);
    TwoRestored(b, "budget_limit", "spent_in_period");
  }

  lemma StateStored(state: JsValue)
    requires IsState(state)
    ensures NormalizeStateBigInts(Reread(Canonical(state))) == Ok(WithoutProto(state))
  {
    hide BigIntRecord, PlainData, Reread, Canonical, WithoutProto, IsBudget;
    var b, max := state.props["budget"], state.props["max_amount_per_action"];
    BudgetIsObject(b);
    BudgetStored(b);
    ObjectStored(state);
    ObjectStored(max);
    RecordStored(max);
    TwoRestored(state, "budget", "max_amount_per_action");
  }

  lemma BudgetIsObject(b: JsValue)
    requires IsBudget(b)
    ensures b.Obj?
  {
  }

  /** Reading a written value is normalizing what is stored of it. */
  lemma ReadsWhatIsStored(order: set<string> -> seq<string>, v: JsValue)
    requires Enumerates(order)
    ensures ReadStateText(StateFileText(order, v)) == NormalizeStateBigInts(Reread(Canonical(v)))
  {
    hide NormalizeStateBigInts, ToJson, Print, Parse, Reread, Canonical, FromJson, Quote;
    var j := ToJson(order, Canonical(v));
    var text := StateFileText(order, v);
    ReadsBack(order, Canonical(v));
    ParsePrint(j);
    assert text[..|text| - 1] == Print(Quote, j);
  }

  /** Of a state, reading gives all but the properties named like the prototype accessor. */
  lemma StateReads(order: set<string> -> seq<string>, state: JsValue)
    requires Enumerates(order) && IsState(state)
    ensures ReadStateText(StateFileText(order, state)) == Ok(WithoutProto(state))
  {
    hide IsState, NormalizeStateBigInts, WithoutProto;
    ReadsWhatIsStored(order, state);
    StateStored(state);
  }

  /** Only JSON data without such properties is stored as it is. */
  lemma {:induction false} StoredIsPlain(v: JsValue)
    requires Reread(Canonical(v)) == v
    ensures PlainData(v) && NoProtoKey(v)
    decreases v
  {
    match v
    case Arr(items) =>
      forall i | 0 <= i < |items| ensures PlainData(items[i]) && NoProtoKey(items[i]) {
        assert RereadItems(CanonicalItems(items))[i] == items[i];
        StoredIsPlain(items[i]);
      }
    case Obj(props) =>
      ObjectStored(v);
      forall k | k in props ensures PlainData(props[k]) && NoProtoKey(props[k]) {
        StoredIsPlain(props[k]);
      }
    case _ =>
  }

  /** The other properties of an object that reads back with two of them replaced. */
  lemma OthersPlain(v: JsValue, r: map<string, JsValue>, a: string, b: string)
    requires v.Obj? && a != PROTO && b != PROTO && r == OwnProps(Reread(Canonical(v)))
    requires forall k :: k in v.props ==> k == a || k == b || (k in r && r[k] == v.props[k])
    ensures PROTO !in v.props
    ensures forall k :: k in v.props && k != a && k != b ==> PlainData(v.props[k]) && NoProtoKey(v.props[k])
  {
    hide Reread, Canonical, PlainData, NoProtoKey;
    ObjectStored(v);
    forall k | k in v.props && k != a && k != b ensures PlainData(v.props[k]) && NoProtoKey(v.props[k]) {
      StoredIsPlain(v.props[k]);
    }
  }

  lemma RecordIsBigInts(v: JsValue, raw: JsValue)
    requires BigIntRecord(raw).Ok? && v == Obj(BigIntRecord(raw).value)
    ensures IsBigIntRecord(v) && NoProtoKey(v)
  {
  }

  lemma BudgetRestored(b: JsValue)
    requires var props := OwnProps(Reread(Canonical(b)));
             var limit, spent := BigIntRecord(Get(props, "budget_limit")), BigIntRecord(Get(props, "spent_in_period"));
             limit.Ok? && spent.Ok?
             && b == Obj(props["budget_limit" := Obj(limit.value)]["spent_in_period" := Obj(spent.value)])
    ensures IsBudget(b) && NoProtoKey(b)
  {
    hide Reread, Canonical, PlainData, BigIntRecord, IsBigIntRecord;
    var props := OwnProps(Reread(Canonical(b)));
    RecordIsBigInts(b.props["budget_limit"], Get(props, "budget_limit"));
    RecordIsBigInts(b.props["spent_in_period"], Get(props, "spent_in_period"));
    OthersPlain(b, props, "budget_limit", "spent_in_period");
  }

  /** Whatever reads back as itself is a state. */
  lemma RestoredIsState(v: JsValue)
    requires NormalizeStateBigInts(Reread(Canonical(v))) == Ok(v)
    ensures IsState(v) && NoProtoKey(v)
  {
    hide Reread, Canonical, PlainData, BigIntRecord, IsBigIntRecord, IsBudget;
    var s := OwnProps(Reread(Canonical(v)));
    RecordIsBigInts(v.props["max_amount_per_action"], Get(s, "max_amount_per_action"));
    OthersPlain(v, s, "budget", "max_amount_per_action");
    ObjectStored(v);
    BudgetRestored(v.props["budget"]);
  }

  /**
   * Writing and reading gives back exactly the states without a property named
   * like the prototype accessor, and no other value.
   */
  lemma StateRoundTrip(order: set<string> -> seq<string>, v: JsValue)
    requires Enumerates(order)
    ensures ReadStateText(StateFileText(order, v)) == Ok(v) <==> IsState(v) && NoProtoKey(v)
  {
    hide IsState, NormalizeStateBigInts, WithoutProto, NoProtoKey, Reread, Canonical;
    ReadsWhatIsStored(order, v);
    if IsState(v) {
      StateReads(order, v);
      WithoutProtoIff(v);
    }
    if ReadStateText(StateFileText(order, v)) == Ok(v) { RestoredIsState(v); }
  }

  /** A cap that is present but undefined makes the written file unreadable. */
  lemma UndefinedCapUnreadable(order: set<string> -> seq<string>, v: JsValue, agent: string)
    requires Enumerates(order) && v.Obj? && "max_amount_per_action" in v.props && agent != PROTO
    requires var caps := v.props["max_amount_per_action"];
             caps.Obj? && agent in caps.props && caps.props[agent].Undefined?
    ensures ReadStateText(StateFileText(order, v)) == Err(NotBigIntLike)
  {
    hide Reread, Canonical;
    var caps := v.props["max_amount_per_action"];
    ReadsWhatIsStored(order, v);
    ObjectStored(v);
    ObjectStored(caps);
    var stored := Reread(Canonical(caps));
    UndefinedStored();
    assert stored.props[agent] == Str("undefined");
    assert BigIntRecord(stored).Err?;
  }

  lemma UndefinedStored()
    ensures Reread(Canonical(Undefined)) == Str("undefined")
    ensures ParseBigIntLike(Str("undefined")).None?
  {
    assert !Decimal.IsDigit("undefined"[0]);
  }

  /** An agent id equal to the prototype accessor's name is lost from the budget. */
  lemma ProtoAgentIsLost(order: set<string> -> seq<string>)
    requires Enumerates(order)
    ensures var limits := Obj(map["agent-1" := BigInt(7), "__proto__" := BigInt(5)]);
            var budget := Obj(map["budget_limit" := limits, "spent_in_period" := Obj(map[])]);
            var state := Obj(map["budget" := budget, "max_amount_per_action" := Obj(map[])]);
            IsState(state) && ReadStateText(StateFileText(order, state)) != Ok(state)
  {
    var limits := Obj(map["agent-1" := BigInt(7), "__proto__" := BigInt(5)]);
    var budget := Obj(map["budget_limit" := limits, "spent_in_period" := Obj(map[])]);
    var state := Obj(map["budget" := budget, "max_amount_per_action" := Obj(map[])]);
    assert !NoProtoKey(limits);
    assert !NoProtoKey(state.props["budget"].props["budget_limit"]);
    StateRoundTrip(order, state);
  }
}

/** python-harness/verify_canonicalization_vectors.py */
module PythonHarness {
  import opened Outcome
  import opened JsonText
  import opened Canonical
  import opened CanonicalLaws
  import opened CanonicalOrder
  import opened HarnessLemmas

  method CanonicalizeValue(nfc: string -> string, quote: string -> string, v: Value) returns (r: Canonized<string>)
    ensures r == Text'(nfc, quote, v)
    decreases v, 2
  {
    match v
    case Null => r := Ok("null");
    case Bool(b) => r := Ok(if b then "true" else "false");
    case Str(s) => r := Ok(quote(nfc(s)));
    case Int(_) => r := IntegerText(v);
    case Flt(_) => r := IntegerText(v);
    case Arr(vs) =>
      var parts: seq<string> := [];
      ghost var js: seq<Json> := [];
      for i := 0 to |vs|
        invariant |js| == i && parts == PrintItems(quote, js)
        invariant forall k :: 0 <= k < i ==> Tree(nfc, vs[k]) == Ok(js[k])
      {
        var t := CanonicalizeValue(nfc, quote, vs[i]);
        if t.Err? {
          ArrayStops(nfc, quote, vs, i);
          return t;
        }
        PrintItemsAppend(quote, js, Tree(nfc, vs[i]).value);
        js := js + [Tree(nfc, vs[i]).value];
        parts := parts + [t.value];
      }
      ArrayPrints(nfc, quote, vs, js);
      r := Ok("[" + Join(parts, ",") + "]");
    case Obj(ps) => r := CanonicalizeObject(nfc, quote, ps, v);
    case Other => r := Err(UnsupportedType);
  }

  method CanonicalizeObject(nfc: string -> string, quote: string -> string, ps: seq<Pair>, ghost v: Value)
    returns (r: Canonized<string>)
    requires v == Obj(ps)
    ensures r == Text'(nfc, quote, v)
    decreases v, 1
  {
    var normalized: seq<Field<Value>> := [];
    var seen: set<string> := {};
    for i := 0 to |ps|
      invariant Normalizes(nfc, ps[..i], normalized)
      invariant CheckKeys(nfc, ps, {}) == CheckKeys(nfc, ps[i..], seen)
    {
      assert ps[i..][0] == ps[i] && ps[i..][1..] == ps[i + 1..];
      match ps[i].key {
        case NonText => return Err(UnsupportedType);
        case Text(s) =>
          if nfc(s) in seen { return Err(DuplicateKey); }
          seen := seen + {nfc(s)};
          normalized := normalized + [Field(nfc(s), ps[i].val)];
      }
    }
    assert ps[..|ps|] == ps;
    CheckKeysVerdict(nfc, ps);
    DistinctEntries(nfc, ps, normalized);
    var sorted := SortByKeyBytes(normalized);
    VisitSorted(nfc, ps, normalized, sorted);
    EntriesSmaller(nfc, ps, normalized, sorted, v);
    r := PrintEntries(nfc, quote, sorted, v);
  }

  method PrintEntries(nfc: string -> string, quote: string -> string, es: seq<Field<Value>>, ghost v: Value)
    returns (r: Canonized<string>)
    requires forall i :: 0 <= i < |es| ==> es[i].val < v
    ensures r == match GatherFields(Visit(nfc, es))
                 case Ok(fs) => Ok(Print(quote, JObj(fs)))
                 case Err(c) => Err(c)
    decreases v, 0
  {
    var parts: seq<string> := [];
    ghost var fs: seq<Field<Json>> := [];
    for i := 0 to |es|
      invariant |fs| == i && parts == PrintFields(quote, fs)
      invariant forall k :: 0 <= k < i ==> Visit(nfc, es)[k] == Field(fs[k].key, Ok(fs[k].val))
    {
      var vjson;
      if es[i].key == "ts" {
        vjson := TimestampText(es[i].val);
      } else {
        vjson := CanonicalizeValue(nfc, quote, es[i].val);
      }
      if vjson.Err? {
        GatherFieldsStops(Visit(nfc, es), i);
        return vjson;
      }
      ghost var f := Field(es[i].key, ChildTree(nfc, es[i].key, es[i].val).value);
      PrintFieldsAppend(quote, fs, f);
      fs := fs + [f];
      parts := parts + [quote(es[i].key) + ":" + vjson.value];
    }
    GatherFieldsAll(Visit(nfc, es), fs);
    r := Ok("{" + Join(parts, ",") + "}");
  }
}

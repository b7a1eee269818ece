/**
 * scripts/verify-canonicalization-vectors.ts, which sorts the keys alone and
 * then looks every key up again.
 */
module TypeScriptHarness {
  import opened Outcome
  import opened JsonText
  import opened Utf8Order
  import opened KeySort
  import opened Canonical
  import opened CanonicalLaws
  import opened CanonicalOrder
  import opened HarnessLemmas

  method CanonicalizeToJson(nfc: string -> string, quote: string -> string, v: Value) returns (r: Canonized<string>)
    requires StringKeys(v)
    ensures r == Text'(nfc, quote, v)
    ensures r != Err(KeyResolutionFailed)
    ensures forall w :: Same(nfc, v, w) ==> r == Text'(nfc, quote, w)
    decreases v, 3
  {
    StringKeysOrderFree(nfc, quote, v);
    hide CheckKeys, Fields, Sort, GatherFields, ToInteger;
    match v
    case Null => r := Ok("null");
    case Str(s) => r := Ok(quote(nfc(s)));
    case Bool(b) => r := Ok(if b then "true" else "false");
    case Int(_) => r := IntegerText(v);
    case Flt(_) => r := IntegerText(v);
    case Other => r := Err(UnsupportedType);
    case Arr(vs) =>
      var parts: seq<string> := [];
      ghost var js: seq<Json> := [];
      for i := 0 to |vs|
        invariant |js| == i && parts == PrintItems(quote, js)
        invariant forall k :: 0 <= k < i ==> Tree(nfc, vs[k]) == Ok(js[k])
      {
        var t := CanonicalizeToJson(nfc, quote, vs[i]);
        if t.Err? {
          ArrayStops(nfc, quote, vs, i);
          return t;
        }
        PrintItemsAppend(quote, js, Tree(nfc, vs[i]).value);
        js := js + [Tree(nfc, vs[i]).value];
        parts := parts + [t.value];
      }
      ArrayPrints(nfc, quote, vs, js);
      r := Ok("[" + Join(parts, ",") + "]");
    case Obj(ps) => r := CanonicalizeObject(nfc, quote, ps, v);
  }

  method CanonicalizeObject(nfc: string -> string, quote: string -> string, ps: seq<Pair>, ghost v: Value)
    returns (r: Canonized<string>)
    requires v == Obj(ps) && StringKeys(v)
    ensures r == Text'(nfc, quote, v)
    ensures r != Err(KeyResolutionFailed)
    decreases v, 2
  {
    var entries := seq(|ps|, i requires 0 <= i < |ps| => Field(nfc(ps[i].key.s), ps[i].val));
    var duplicate := HasDuplicate(entries);
    CheckKeysVerdict(nfc, ps);
    DistinctEntries(nfc, ps, entries);
    if duplicate { return Err(DuplicateKey); }

    var keys := seq(|entries|, i requires 0 <= i < |entries| => entries[i].key);
    var sortedKeys := SortUtf8Lex(keys);
    assert forall i :: 0 <= i < |entries| ==> keys[i] == entries[i].key;
    ghost var sorted := Resolve(entries, sortedKeys);
    VisitSorted(nfc, ps, entries, sorted);
    EntriesSmaller(nfc, ps, entries, sorted, v);
    EntriesStringKeys(nfc, ps, entries, sorted);
    r := PrintEntries(nfc, quote, entries, sortedKeys, sorted, v);
  }

  method PrintEntries(nfc: string -> string, quote: string -> string, entries: seq<Field<Value>>,
                      sortedKeys: seq<string>, ghost sorted: seq<Field<Value>>, ghost v: Value)
    returns (r: Canonized<string>)
    requires DistinctKeys(entries) && |sorted| == |sortedKeys|
    requires forall i :: 0 <= i < |sorted| ==>
               && sorted[i].key == sortedKeys[i] && sorted[i] in entries
               && sorted[i].val < v && StringKeys(sorted[i].val)
    ensures r == match GatherFields(Visit(nfc, sorted))
                 case Ok(fs) => Ok(Print(quote, JObj(fs)))
                 case Err(c) => Err(c)
    ensures r != Err(KeyResolutionFailed)
    decreases v, 1
  {
    hide Tree, ChildTree, GatherFields, StringKeys;
    var parts: seq<string> := [];
    ghost var fs: seq<Field<Json>> := [];
    for i := 0 to |sortedKeys|
      invariant |fs| == i && parts == PrintFields(quote, fs)
      invariant forall k :: 0 <= k < i ==> Visit(nfc, sorted)[k] == Field(fs[k].key, Ok(fs[k].val))
    {
      var key := sortedKeys[i];
      var entry := Find(entries, key);
      assert sorted[i] in entries && sorted[i].key == key;
      if entry.None? {
        return Err(KeyResolutionFailed);
      }
      var child := entry.value.val;
      var text := PrintChild(nfc, quote, key, child, v);
      if text.Err? {
        GatherFieldsStops(Visit(nfc, sorted), i);
        return text;
      }
      ghost var f := Field(key, ChildTree(nfc, key, child).value);
      PrintFieldsAppend(quote, fs, f);
      fs := fs + [f];
      parts := parts + [quote(key) + ":" + text.value];
    }
    GatherFieldsAll(Visit(nfc, sorted), fs);
    r := Ok("{" + Join(parts, ",") + "}");
  }

  method PrintChild(nfc: string -> string, quote: string -> string, key: string, child: Value, ghost v: Value)
    returns (r: Canonized<string>)
    requires child < v && StringKeys(child)
    ensures r == match ChildTree(nfc, key, child)
                 case Ok(j) => Ok(Print(quote, j))
                 case Err(c) => Err(c)
    ensures r != Err(KeyResolutionFailed)
    decreases v, 0
  {
    if key == "ts" && !IsSafeIntegerNumber(child) { return Err(InvalidTimestamp); }
    r := CanonicalizeToJson(nfc, quote, child);
  }

  /** `typeof child === "number"`, an integer, and a safe one. */
  predicate IsSafeIntegerNumber(v: Value) {
    match v
    case Int(n) => SAFE_MIN <= n <= SAFE_MAX
    case Flt(Finite(x)) => IsWhole(x) && SAFE_MIN <= x.Floor <= SAFE_MAX
    case _ => false
  }

  method HasDuplicate(entries: seq<Field<Value>>) returns (found: bool)
    ensures found <==> !DistinctKeys(entries)
  {
    var seen: set<string> := {};
    for i := 0 to |entries|
      invariant forall k :: k in seen <==> exists j :: 0 <= j < i && entries[j].key == k
      invariant DistinctKeys(entries[..i])
    {
      if entries[i].key in seen {
        return true;
      }
      seen := seen + {entries[i].key};
    }
    assert entries[..|entries|] == entries;
    return false;
  }

  method SortUtf8Lex(keys: seq<string>) returns (out: seq<string>)
    ensures |out| == |keys| && forall k :: k in out <==> k in keys
    ensures (forall i, j :: 0 <= i < j < |keys| ==> keys[i] != keys[j]) ==>
              forall i, j :: 0 <= i < j < |out| ==> Less(Encode(out[i]), Encode(out[j]))
  {
    var tagged := seq(|keys|, i requires 0 <= i < |keys| => Field(keys[i], ()));
    var sorted := SortByKeyBytes(tagged);
    out := seq(|sorted|, i requires 0 <= i < |sorted| => sorted[i].key);
    forall k ensures k in out <==> k in keys {
      if k in out {
        var i :| 0 <= i < |out| && out[i] == k;
        assert sorted[i] in tagged;
      }
      if k in keys {
        var i :| 0 <= i < |keys| && keys[i] == k;
        assert tagged[i] in sorted;
        var j :| 0 <= j < |sorted| && sorted[j] == tagged[i];
        assert out[j] == k;
      }
    }
  }

  /** The first entry with the given key. */
  method Find(entries: seq<Field<Value>>, key: string) returns (r: Option<Field<Value>>)
    ensures r.Some? ==> r.value in entries && r.value.key == key
    ensures r.None? ==> forall i :: 0 <= i < |entries| ==> entries[i].key != key
  {
    for i := 0 to |entries|
      invariant forall j :: 0 <= j < i ==> entries[j].key != key
    {
      if entries[i].key == key { return Some(entries[i]); }
    }
    return None;
  }

  /** Every sorted key belongs to an entry, and looking them all up rearranges the entries. */
  lemma Resolve(entries: seq<Field<Value>>, keys: seq<string>) returns (out: seq<Field<Value>>)
    requires DistinctKeys(entries) && |keys| == |entries|
    requires forall k :: k in keys <==> exists i :: 0 <= i < |entries| && entries[i].key == k
    requires forall i, j :: 0 <= i < j < |keys| ==> Less(Encode(keys[i]), Encode(keys[j]))
    ensures |out| == |keys| && forall i :: 0 <= i < |keys| ==> out[i].key == keys[i] && out[i] in entries
    ensures StrictKeys(out) && forall e :: e in out <==> e in entries
  {
    hide Less, Encode;
    forall i | 0 <= i < |keys| ensures IndexOf(entries, keys[i]) < |entries| {
      assert keys[i] in keys;
    }
    out := seq(|keys|, i requires 0 <= i < |keys| => entries[IndexOf(entries, keys[i])]);
    forall e ensures e in out <==> e in entries {
      if e in entries {
        var i :| 0 <= i < |entries| && entries[i] == e;
        assert e.key in keys;
        var j :| 0 <= j < |keys| && keys[j] == e.key;
        assert out[j] == e;
      }
    }
  }
}

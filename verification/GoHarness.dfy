/** go-harness/canonicalization_verify.go */
module GoHarness {
  import opened Outcome
  import opened JsonText
  import opened Canonical
  import opened CanonicalLaws
  import opened CanonicalOrder
  import opened HarnessLemmas

  method CanonicalizeValue(nfc: string -> string, quote: string -> string, v: Value) returns (r: Canonized<string>)
    requires StringKeys(v)
    ensures r == Text'(nfc, quote, v)
    ensures forall w :: Same(nfc, v, w) ==> r == Text'(nfc, quote, w)
    decreases v, 3
  {
    StringKeysOrderFree(nfc, quote, v);
    match v
    case Null => r := Ok("null");
    case Bool(b) => r := Ok(if b then "true" else "false");
    case Str(s) => r := Ok(quote(nfc(s)));
    case Int(_) => r := IntegerText(v);
    case Flt(_) => r := IntegerText(v);
    case Arr(vs) => r := CanonicalizeArray(nfc, quote, vs, v);
    case Obj(ps) => r := CanonicalizeObject(nfc, quote, ps, v);
    case Other => r := Err(UnsupportedType);
  }

  method CanonicalizeArray(nfc: string -> string, quote: string -> string, vs: seq<Value>, ghost v: Value)
    returns (r: Canonized<string>)
    requires v == Arr(vs) && StringKeys(v)
    ensures r == Text'(nfc, quote, v)
    decreases v, 2
  {
    hide Tree, Print, PrintItems, Join;
    var parts := new string[|vs|](_ => "");
    ghost var js: seq<Json> := [];
    for i := 0 to |vs|
      invariant |js| == i && parts[..i] == PrintItems(quote, js)
      invariant forall k :: 0 <= k < i ==> Tree(nfc, vs[k]) == Ok(js[k])
    {
      var c := CanonicalizeValue(nfc, quote, vs[i]);
      if c.Err? {
        ArrayStops(nfc, quote, vs, i);
        return c;
      }
      PrintItemsAppend(quote, js, Tree(nfc, vs[i]).value);
      js := js + [Tree(nfc, vs[i]).value];
      parts[i] := c.value;
      assert parts[..i + 1] == parts[..i] + [c.value];
    }
    ArrayPrints(nfc, quote, vs, js);
    assert parts[..] == parts[..|vs|];
    var joined := JoinParts(parts, ",");
    r := Ok("[" + joined + "]");
  }

  /** The pairs of `ps` are in whatever order the map iteration delivers them; any other gives the same result. */
  method CanonicalizeObject(nfc: string -> string, quote: string -> string, ps: seq<Pair>, ghost v: Value)
    returns (r: Canonized<string>)
    requires v == Obj(ps) && StringKeys(v)
    ensures r == Text'(nfc, quote, v)
    ensures forall qs: seq<Pair> :: multiset(qs) == multiset(ps) ==> r == Text'(nfc, quote, Obj(qs))
    decreases v, 2
  {
    AnyIteration(nfc, quote, ps);
    var entries: seq<Field<Value>> := [];
    var seen: set<string> := {};
    for i := 0 to |ps|
      invariant Normalizes(nfc, ps[..i], entries)
      invariant CheckKeys(nfc, ps, {}) == CheckKeys(nfc, ps[i..], seen)
    {
      assert ps[i..][0] == ps[i] && ps[i..][1..] == ps[i + 1..];
      var normalized := nfc(ps[i].key.s);
      if normalized in seen { return Err(DuplicateKey); }
      seen := seen + {normalized};
      entries := entries + [Field(normalized, ps[i].val)];
    }
    assert ps[..|ps|] == ps;
    CheckKeysVerdict(nfc, ps);
    DistinctEntries(nfc, ps, entries);
    ghost var unsorted := entries;
    entries := SortByKeyBytes(entries);
    VisitSorted(nfc, ps, unsorted, entries);
    EntriesSmaller(nfc, ps, unsorted, entries, v);
    EntriesStringKeys(nfc, ps, unsorted, entries);
    r := PrintEntries(nfc, quote, entries, v);
  }

  /** The iteration order of a map has no influence on the outcome. */
  lemma AnyIteration(nfc: string -> string, quote: string -> string, ps: seq<Pair>)
    requires StringKeys(Obj(ps))
    ensures forall qs: seq<Pair> :: multiset(qs) == multiset(ps) ==>
              Text'(nfc, quote, Obj(qs)) == Text'(nfc, quote, Obj(ps))
  {
    StringKeysOrderFree(nfc, quote, Obj(ps));
    forall qs: seq<Pair> | multiset(qs) == multiset(ps)
      ensures Text'(nfc, quote, Obj(qs)) == Text'(nfc, quote, Obj(ps))
    {
      PermutedIsSame(nfc, ps, qs);
    }
  }

  method PrintEntries(nfc: string -> string, quote: string -> string, entries: seq<Field<Value>>, ghost v: Value)
    returns (r: Canonized<string>)
    requires forall i :: 0 <= i < |entries| ==> entries[i].val < v && StringKeys(entries[i].val)
    ensures r == match GatherFields(Visit(nfc, entries))
                 case Ok(fs) => Ok(Print(quote, JObj(fs)))
                 case Err(c) => Err(c)
    decreases v, 1
  {
    hide Tree, ChildTree, GatherFields, StringKeys;
    var parts := new string[|entries|](_ => "");
    ghost var fs: seq<Field<Json>> := [];
    for i := 0 to |entries|
      invariant |fs| == i && parts[..i] == PrintFields(quote, fs)
      invariant forall k :: 0 <= k < i ==> Visit(nfc, entries)[k] == Field(fs[k].key, Ok(fs[k].val))
    {
      var val := PrintChild(nfc, quote, entries[i].key, entries[i].val, v);
      if val.Err? {
        GatherFieldsStops(Visit(nfc, entries), i);
        return val;
      }
      ghost var f := Field(entries[i].key, ChildTree(nfc, entries[i].key, entries[i].val).value);
      PrintFieldsAppend(quote, fs, f);
      fs := fs + [f];
      parts[i] := quote(entries[i].key) + ":" + val.value;
      assert parts[..i + 1] == parts[..i] + [parts[i]];
    }
    GatherFieldsAll(Visit(nfc, entries), fs);
    assert parts[..] == parts[..|entries|];
    var joined := JoinParts(parts, ",");
    r := Ok("{" + joined + "}");
  }

  method PrintChild(nfc: string -> string, quote: string -> string, key: string, child: Value, ghost v: Value)
    returns (r: Canonized<string>)
    requires child < v && StringKeys(child)
    ensures r == match ChildTree(nfc, key, child)
                 case Ok(j) => Ok(Print(quote, j))
                 case Err(c) => Err(c)
    decreases v, 0
  {
    if key == "ts" {
      r := TimestampText(child);
    } else {
      r := CanonicalizeValue(nfc, quote, child);
    }
  }

  method JoinParts(parts: array<string>, sep: string) returns (s: string)
    ensures s == Join(parts[..], sep)
  {
    if parts.Length == 0 { return ""; }
    var b := "";
    for i := 0 to parts.Length
      invariant b == Join(parts[..i], sep)
    {
      assert parts[..i + 1] == parts[..i] + [parts[i]];
      JoinAppend(parts[..i], parts[i], sep);
      if i > 0 { b := b + sep; }
      b := b + parts[i];
    }
    assert parts[..] == parts[..parts.Length];
    return b;
  }

  lemma {:induction false} JoinAppend(parts: seq<string>, p: string, sep: string)
    ensures Join(parts + [p], sep) == if parts == [] then p else Join(parts, sep) + sep + p
  {
    if |parts| >= 2 {
      JoinAppend(parts[1..], p, sep);
      assert (parts + [p])[1..] == parts[1..] + [p];
    }
  }
}

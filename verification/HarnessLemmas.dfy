/** What the loops of the three harnesses have in common. */
module HarnessLemmas {
  import opened Outcome
  import opened JsonText
  import opened Utf8Order
  import opened KeySort
  import opened Canonical
  import opened CanonicalLaws
  import opened CanonicalOrder
  import Decimal

  /** The library sort: some rearrangement into byte order. Nothing else is used of it. */
  method SortByKeyBytes<T>(fs: seq<Field<T>>) returns (out: seq<Field<T>>)
    ensures multiset(out) == multiset(fs)
    ensures |out| == |fs| && forall f :: f in out <==> f in fs
    ensures DistinctKeys(fs) ==> StrictKeys(out)
  {
    out := Sort(fs);
    SortContents(fs);
    SortMembers(fs);
    if DistinctKeys(fs) { SortStrict(fs); }
  }

  /** The first item without a tree gives the outcome of the array. */
  lemma ArrayStops(nfc: string -> string, quote: string -> string, vs: seq<Value>, k: nat)
    requires k < |vs| && Tree(nfc, vs[k]).Err? && forall i :: 0 <= i < k ==> Tree(nfc, vs[i]).Ok?
    ensures Text'(nfc, quote, Arr(vs)) == Err(Tree(nfc, vs[k]).error)
  {
    hide Gather;
    GatherStops(Trees(nfc, vs), k);
  }

  lemma ArrayPrints(nfc: string -> string, quote: string -> string, vs: seq<Value>, js: seq<Json>)
    requires |vs| == |js| && forall i :: 0 <= i < |vs| ==> Tree(nfc, vs[i]) == Ok(js[i])
    ensures Text'(nfc, quote, Arr(vs)) == Ok("[" + Join(PrintItems(quote, js), ",") + "]")
  {
    hide Gather, Join, PrintItems;
    GatherAll(Trees(nfc, vs), js);
  }

  lemma {:induction false} PrintItemsAppend(quote: string -> string, js: seq<Json>, j: Json)
    ensures PrintItems(quote, js + [j]) == PrintItems(quote, js) + [Print(quote, j)]
  {
    if js != [] {
      assert (js + [j])[1..] == js[1..] + [j];
      PrintItemsAppend(quote, js[1..], j);
    }
  }

  lemma {:induction false} PrintFieldsAppend(quote: string -> string, fs: seq<Field<Json>>, f: Field<Json>)
    ensures PrintFields(quote, fs + [f])
         == PrintFields(quote, fs) + [FieldText(quote, f.key, Print(quote, f.val))]
  {
    if fs != [] {
      assert (fs + [f])[1..] == fs[1..] + [f];
      PrintFieldsAppend(quote, fs[1..], f);
    } else {
      assert fs + [f] == [f];
    }
  }

  /** The entries of an object after the keys are normalized, before any child is visited. */
  ghost predicate Normalizes(nfc: string -> string, ps: seq<Pair>, es: seq<Field<Value>>) {
    && |es| == |ps| && AllText(ps)
    && forall i :: 0 <= i < |ps| ==> es[i] == Field(nfc(ps[i].key.s), ps[i].val)
  }

  ghost function Visit(nfc: string -> string, es: seq<Field<Value>>): (r: seq<Field<Canonized<Json>>>)
    ensures |r| == |es|
    ensures forall i :: 0 <= i < |es| ==> r[i] == Field(es[i].key, ChildTree(nfc, es[i].key, es[i].val))
  {
    seq(|es|, i requires 0 <= i < |es| => Field(es[i].key, ChildTree(nfc, es[i].key, es[i].val)))
  }

  lemma VisitMembers(nfc: string -> string, es: seq<Field<Value>>, sorted: seq<Field<Value>>)
    requires forall e :: e in sorted ==> e in es
    ensures forall f :: f in Visit(nfc, sorted) ==> f in Visit(nfc, es)
  {
    forall f | f in Visit(nfc, sorted) ensures f in Visit(nfc, es) {
      var j :| 0 <= j < |sorted| && Visit(nfc, sorted)[j] == f;
      assert sorted[j] in es;
      var i :| 0 <= i < |es| && es[i] == sorted[j];
      assert Visit(nfc, es)[i] == f;
    }
  }

  lemma VisitNormalized(nfc: string -> string, ps: seq<Pair>, es: seq<Field<Value>>)
    requires Normalizes(nfc, ps, es)
    ensures Fields(nfc, ps) == Visit(nfc, es)
  {
    var fs := Fields(nfc, ps);
    forall i | 0 <= i < |ps| ensures fs[i] == Visit(nfc, es)[i] {
      assert fs[i] == FieldOf(nfc, ps[i]);
    }
  }

  /** Sorting the entries and then visiting them is visiting them and then sorting. */
  lemma VisitSorted(nfc: string -> string, ps: seq<Pair>, es: seq<Field<Value>>, sorted: seq<Field<Value>>)
    requires Normalizes(nfc, ps, es) && DistinctNfc(nfc, ps)
    requires StrictKeys(sorted) && forall e :: e in sorted <==> e in es
    ensures Visit(nfc, sorted) == Sort(Fields(nfc, ps))
  {
    hide Sort, StrictKeys, DistinctKeys, Visit, Fields;
    var fs := Fields(nfc, ps);
    VisitNormalized(nfc, ps, es);
    DistinctFields(nfc, ps);
    SortStrict(fs);
    SortMembers(fs);
    StrictVisit(nfc, sorted);
    VisitMembers(nfc, es, sorted);
    VisitMembers(nfc, sorted, es);
    SortedIsUnique(Visit(nfc, sorted), Sort(fs));
  }

  lemma StrictVisit(nfc: string -> string, es: seq<Field<Value>>)
    requires StrictKeys(es)
    ensures StrictKeys(Visit(nfc, es))
  {
    var vs := Visit(nfc, es);
    forall i, j | 0 <= i < j < |vs| ensures Less(Encode(vs[i].key), Encode(vs[j].key)) {
      assert vs[i].key == es[i].key && vs[j].key == es[j].key;
    }
  }

  /** Entries taken from a mapping are smaller than it, so the recursion ends. */
  lemma EntriesSmaller(nfc: string -> string, ps: seq<Pair>, es: seq<Field<Value>>, sorted: seq<Field<Value>>, v: Value)
    requires v == Obj(ps) && Normalizes(nfc, ps, es) && forall e :: e in sorted ==> e in es
    ensures forall i :: 0 <= i < |sorted| ==> sorted[i].val < v
  {
    forall i | 0 <= i < |sorted| ensures sorted[i].val < v {
      assert sorted[i] in es;
      var k :| 0 <= k < |es| && es[k] == sorted[i];
      assert ps[k].val < ps[k] < v;
    }
  }

  lemma DistinctEntries(nfc: string -> string, ps: seq<Pair>, es: seq<Field<Value>>)
    requires Normalizes(nfc, ps, es)
    ensures DistinctKeys(es) <==> DistinctNfc(nfc, ps)
  {
  }

  lemma EntriesStringKeys(nfc: string -> string, ps: seq<Pair>, es: seq<Field<Value>>, sorted: seq<Field<Value>>)
    requires StringKeys(Obj(ps)) && Normalizes(nfc, ps, es) && forall e :: e in sorted ==> e in es
    ensures forall i :: 0 <= i < |sorted| ==> StringKeys(sorted[i].val)
  {
    forall i | 0 <= i < |sorted| ensures StringKeys(sorted[i].val) {
      assert sorted[i] in es;
      var k :| 0 <= k < |es| && es[k] == sorted[i];
      assert StringKeys(ps[k].val);
    }
  }

  function IntegerText(v: Value): Canonized<string> {
    match ToInteger(v)
    case Ok(n) => Ok(Decimal.OfInt(n))
    case Err(c) => Err(c)
  }

  function TimestampText(v: Value): Canonized<string> {
    match ToInteger(v)
    case Ok(n) => Ok(Decimal.OfInt(n))
    case Err(_) => Err(InvalidTimestamp)
  }
}

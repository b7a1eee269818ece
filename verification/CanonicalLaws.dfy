/**
 * The laws of canonicalization-v1: order independence, with its exact limit for
 * error codes; unique decodability; and which texts are canonical.
 */
module CanonicalLaws {
  import opened Outcome
  import opened JsonText
  import opened Utf8Order
  import opened KeySort
  import opened Canonical
  import Decimal

  // ------------------------------------------------------ the check of the keys

  ghost predicate DistinctNfc(nfc: string -> string, ps: seq<Pair>) {
    forall i, j :: 0 <= i < j < |ps| && ps[i].key.Text? && ps[j].key.Text? ==>
      nfc(ps[i].key.s) != nfc(ps[j].key.s)
  }

  /** The verdict of the key check, when at most one of its two complaints applies. */
  ghost predicate KeyVerdict(nfc: string -> string, ps: seq<Pair>, r: Option<Code>) {
    && (r.None? <==> AllText(ps) && DistinctNfc(nfc, ps))
    && (r == Some(DuplicateKey) ==> !DistinctNfc(nfc, ps))
    && (r == Some(UnsupportedType) ==> !AllText(ps))
    && (r.Some? ==> r.value == DuplicateKey || r.value == UnsupportedType)
  }

  lemma {:induction false} CheckKeysMeaning(nfc: string -> string, ps: seq<Pair>, seen: set<string>)
    ensures var r := CheckKeys(nfc, ps, seen);
            && (r.None? <==> AllText(ps) && DistinctNfc(nfc, ps)
                             && forall i :: 0 <= i < |ps| ==> ps[i].key.Text? && nfc(ps[i].key.s) !in seen)
            && (r == Some(DuplicateKey) ==>
                  (!DistinctNfc(nfc, ps)
                   || exists i :: 0 <= i < |ps| && ps[i].key.Text? && nfc(ps[i].key.s) in seen))
            && (r == Some(UnsupportedType) ==> !AllText(ps))
            && (r.Some? ==> r.value == DuplicateKey || r.value == UnsupportedType)
  {
    if ps != [] && ps[0].key.Text? && nfc(ps[0].key.s) !in seen {
      var rest := ps[1..];
      var seen' := seen + {nfc(ps[0].key.s)};
      CheckKeysMeaning(nfc, rest, seen');
      var r := CheckKeys(nfc, rest, seen');
      assert CheckKeys(nfc, ps, seen) == r;
      assert forall i :: 0 <= i < |rest| ==> rest[i] == ps[i + 1];
      if r.None? {
        assert forall i :: 0 < i < |ps| ==> ps[i] == rest[i - 1];
      } else if r == Some(DuplicateKey) && DistinctNfc(nfc, rest) {
        var i :| 0 <= i < |rest| && rest[i].key.Text? && nfc(rest[i].key.s) in seen';
        assert ps[i + 1].key.Text?;
      }
      if AllText(ps) && DistinctNfc(nfc, ps) { assert DistinctNfc(nfc, rest); }
    }
  }

  lemma CheckKeysVerdict(nfc: string -> string, ps: seq<Pair>)
    ensures KeyVerdict(nfc, ps, CheckKeys(nfc, ps, {}))
  {
    CheckKeysMeaning(nfc, ps, {});
  }

  /** No mapping mixes a key that is not a string with two keys that normalize alike. */
  ghost predicate OneComplaint(nfc: string -> string, ps: seq<Pair>) {
    AllText(ps) || DistinctNfc(nfc, ps)
  }

  /** `OneComplaint` for every mapping inside `v`. */
  ghost predicate Unambiguous(nfc: string -> string, v: Value) {
    match v
    case Arr(vs) => forall i :: 0 <= i < |vs| ==> Unambiguous(nfc, vs[i])
    case Obj(ps) => OneComplaint(nfc, ps) && forall i :: 0 <= i < |ps| ==> Unambiguous(nfc, ps[i].val)
    case _ => true
  }

  // --------------------------------------------------------- order independence

  lemma SameNumbers(v: Value, w: Value)
    requires IsNumber(v) && IsNumber(w) && Numeric(v) == Numeric(w)
    ensures ToInteger(v) == ToInteger(w)
  {
    if v.Int? { assert (v.n as real).Floor == v.n; }
    if w.Int? { assert (w.n as real).Floor == w.n; }
  }

  /** Matching entries, as `Same` has them for two objects. */
  ghost predicate Matches(nfc: string -> string, ps: seq<Pair>, qs: seq<Pair>, p: seq<nat>, q: seq<nat>) {
    && |ps| == |qs| && Bijection(p, q, |ps|)
    && forall i :: 0 <= i < |ps| ==>
         SameKey(nfc, ps[i].key, qs[p[i]].key) && Same(nfc, ps[i].val, qs[p[i]].val)
  }

  lemma MatchedKeys(nfc: string -> string, ps: seq<Pair>, qs: seq<Pair>, p: seq<nat>, q: seq<nat>)
    requires Matches(nfc, ps, qs, p, q)
    ensures AllText(ps) <==> AllText(qs)
    ensures DistinctNfc(nfc, ps) <==> DistinctNfc(nfc, qs)
  {
    forall j | 0 <= j < |qs| ensures SameKey(nfc, ps[q[j]].key, qs[j].key) {
      assert p[q[j]] == j;
    }
    if DistinctNfc(nfc, ps) {
      forall i, j | 0 <= i < j < |qs| && qs[i].key.Text? && qs[j].key.Text?
        ensures nfc(qs[i].key.s) != nfc(qs[j].key.s)
      {
        assert q[i] != q[j];
        assert SameKey(nfc, ps[q[i]].key, qs[i].key) && SameKey(nfc, ps[q[j]].key, qs[j].key);
      }
    }
    if DistinctNfc(nfc, qs) {
      forall i, j | 0 <= i < j < |ps| && ps[i].key.Text? && ps[j].key.Text?
        ensures nfc(ps[i].key.s) != nfc(ps[j].key.s)
      {
        assert p[i] != p[j];
        assert SameKey(nfc, ps[i].key, qs[p[i]].key) && SameKey(nfc, ps[j].key, qs[p[j]].key);
      }
    }
  }

  lemma DistinctFields(nfc: string -> string, ps: seq<Pair>)
    requires AllText(ps)
    ensures DistinctKeys(Fields(nfc, ps)) <==> DistinctNfc(nfc, ps)
  {
    var fs := Fields(nfc, ps);
    assert forall i :: 0 <= i < |ps| ==> fs[i].key == nfc(ps[i].key.s);
  }

  lemma Rearranged<T>(fs: seq<T>, gs: seq<T>, p: seq<nat>, q: seq<nat>)
    requires |fs| == |gs| && Bijection(p, q, |fs|)
    requires forall i :: 0 <= i < |fs| ==> fs[i] == gs[p[i]]
    ensures forall f :: f in fs <==> f in gs
  {
    forall f ensures f in fs <==> f in gs {
      if f in fs {
        var i :| 0 <= i < |fs| && fs[i] == f;
        assert gs[p[i]] == f;
      }
      if f in gs {
        var j :| 0 <= j < |gs| && gs[j] == f;
        assert p[q[j]] == j && fs[q[j]] == f;
      }
    }
  }

  /** Matching entries whose children have equal trees are sorted into the same fields. */
  lemma SortedAlike(nfc: string -> string, ps: seq<Pair>, qs: seq<Pair>, p: seq<nat>, q: seq<nat>)
    requires AllText(ps) && AllText(qs) && DistinctNfc(nfc, ps) && DistinctNfc(nfc, qs)
    requires |ps| == |qs| && Bijection(p, q, |ps|)
    requires forall i :: 0 <= i < |ps| ==> FieldOf(nfc, ps[i]) == FieldOf(nfc, qs[p[i]])
    ensures Sort(Fields(nfc, ps)) == Sort(Fields(nfc, qs))
  {
    hide Fields, FieldOf, ChildTree, Sort, StrictKeys, DistinctKeys;
    var fs, gs := Fields(nfc, ps), Fields(nfc, qs);
    DistinctFields(nfc, ps);
    DistinctFields(nfc, qs);
    SortStrict(fs);
    SortStrict(gs);
    SortMembers(fs);
    SortMembers(gs);
    forall i | 0 <= i < |fs| ensures fs[i] == gs[p[i]] {}
    Rearranged(fs, gs, p, q);
    SortedIsUnique(Sort(fs), Sort(gs));
  }

  /** Entries with one NFC key and equal children are one field. */
  lemma SameField(nfc: string -> string, a: Pair, b: Pair)
    requires a.key.Text? && b.key.Text? && SameKey(nfc, a.key, b.key)
    requires Tree(nfc, a.val) == Tree(nfc, b.val) && ToInteger(a.val) == ToInteger(b.val)
    ensures FieldOf(nfc, a) == FieldOf(nfc, b)
  {
  }

  /** Objects with matching entries have one tree when their children have. */
  lemma ObjectsAlike(nfc: string -> string, ps: seq<Pair>, qs: seq<Pair>, p: seq<nat>, q: seq<nat>)
    requires Matches(nfc, ps, qs, p, q) && OneComplaint(nfc, ps) && OneComplaint(nfc, qs)
    requires forall i :: 0 <= i < |ps| ==> Tree(nfc, ps[i].val) == Tree(nfc, qs[p[i]].val)
    ensures Tree(nfc, Obj(ps)) == Tree(nfc, Obj(qs))
  {
    hide ToInteger, Same, DistinctNfc, Fields, FieldOf, Sort, GatherFields, ChildTree, SameKey;
    MatchedKeys(nfc, ps, qs, p, q);
    CheckKeysVerdict(nfc, ps);
    CheckKeysVerdict(nfc, qs);
    assert CheckKeys(nfc, ps, {}) == CheckKeys(nfc, qs, {});
    if AllText(ps) && DistinctNfc(nfc, ps) {
      forall i | 0 <= i < |ps| ensures FieldOf(nfc, ps[i]) == FieldOf(nfc, qs[p[i]]) {
        SameTimestamp(nfc, ps[i].val, qs[p[i]].val);
        SameField(nfc, ps[i], qs[p[i]]);
      }
      SortedAlike(nfc, ps, qs, p, q);
    }
  }

  lemma ArraysAlike(nfc: string -> string, vs: seq<Value>, ws: seq<Value>)
    requires |vs| == |ws| && forall i :: 0 <= i < |vs| ==> Tree(nfc, vs[i]) == Tree(nfc, ws[i])
    ensures Tree(nfc, Arr(vs)) == Tree(nfc, Arr(ws))
  {
    hide Gather;
    assert Trees(nfc, vs) == Trees(nfc, ws);
  }

  /**
   * Order independence. Values that are the same up to NFC, entry order and
   * number representation have the same canonical tree or the same error code.
   */
  lemma {:induction false} SameTree(nfc: string -> string, v: Value, w: Value)
    requires Same(nfc, v, w) && Unambiguous(nfc, v) && Unambiguous(nfc, w)
    ensures Tree(nfc, v) == Tree(nfc, w)
    decreases v
  {
    hide OneComplaint, Bijection, SameKey, ToInteger, CheckKeys, Fields, Trees, Gather, GatherFields, Sort;
    match (v, w)
    case (Arr(vs), Arr(ws)) =>
      forall i | 0 <= i < |vs| ensures Tree(nfc, vs[i]) == Tree(nfc, ws[i]) {
        SameTree(nfc, vs[i], ws[i]);
      }
      ArraysAlike(nfc, vs, ws);
    case (Obj(ps), Obj(qs)) =>
      var p, q := TheMatch(nfc, ps, qs);
      forall i | 0 <= i < |ps| ensures Tree(nfc, ps[i].val) == Tree(nfc, qs[p[i]].val) {
        SameTree(nfc, ps[i].val, qs[p[i]].val);
      }
      ObjectsAlike(nfc, ps, qs, p, q);
    case _ =>
      if IsNumber(v) { SameNumbers(v, w); }
  }

  lemma TheMatch(nfc: string -> string, ps: seq<Pair>, qs: seq<Pair>) returns (p: seq<nat>, q: seq<nat>)
    requires Same(nfc, Obj(ps), Obj(qs))
    ensures Matches(nfc, ps, qs, p, q)
    ensures |p| == |ps| == |qs| && forall i :: 0 <= i < |ps| ==> p[i] < |qs|
  {
    hide SameKey;
    p, q :| Bijection(p, q, |ps|)
      && forall i :: 0 <= i < |ps| ==>
           SameKey(nfc, ps[i].key, qs[p[i]].key) && Same(nfc, ps[i].val, qs[p[i]].val);
  }

  lemma SameTimestamp(nfc: string -> string, v: Value, w: Value)
    requires Same(nfc, v, w)
    ensures ToInteger(v) == ToInteger(w)
  {
    if IsNumber(v) { SameNumbers(v, w); }
  }

  // ------------------------------------ the error code of an ambiguous mapping

  /**
   * Exactly when the verdict on the keys does not depend on entry order: a
   * mapping with both complaints has an order for each of the two codes.
   */
  lemma KeyCodeOrderFree(nfc: string -> string, ps: seq<Pair>)
    ensures OneComplaint(nfc, ps) <==>
            forall qs: seq<Pair> :: multiset(qs) == multiset(ps) ==> CheckKeys(nfc, qs, {}) == CheckKeys(nfc, ps, {})
  {
    if OneComplaint(nfc, ps) {
      forall qs: seq<Pair> | multiset(qs) == multiset(ps)
        ensures CheckKeys(nfc, qs, {}) == CheckKeys(nfc, ps, {})
      {
        CheckKeysVerdict(nfc, ps);
        CheckKeysVerdict(nfc, qs);
        PermutedKeys(nfc, ps, qs);
        PermutedKeys(nfc, qs, ps);
      }
    } else {
      var first, second := TwoVerdicts(nfc, ps);
      assert CheckKeys(nfc, first, {}) != CheckKeys(nfc, second, {});
    }
  }

  lemma TwoVerdicts(nfc: string -> string, ps: seq<Pair>) returns (first: seq<Pair>, second: seq<Pair>)
    requires !OneComplaint(nfc, ps)
    ensures multiset(first) == multiset(ps) && CheckKeys(nfc, first, {}) == Some(UnsupportedType)
    ensures multiset(second) == multiset(ps) && CheckKeys(nfc, second, {}) == Some(DuplicateKey)
  {
    hide ToFront;
    var a :| 0 <= a < |ps| && ps[a].key.NonText?;
    var i, j :| 0 <= i < j < |ps| && ps[i].key.Text? && ps[j].key.Text? && nfc(ps[i].key.s) == nfc(ps[j].key.s);
    first := ToFront(ps, a);
    second := ToFront(ToFront(ps, j), i + 1);
    assert ToFront(ps, j)[i + 1] == ps[i];
    assert second[1] == ToFront(ps, j)[0];
    DuplicateFirst(nfc, second);
  }

  function ToFront<T>(s: seq<T>, i: nat): (r: seq<T>)
    requires i < |s|
    ensures multiset(r) == multiset(s) && |r| == |s| && r[0] == s[i]
    ensures forall k :: 0 <= k < i ==> r[k + 1] == s[k]
  {
    assert s == s[..i] + [s[i]] + s[i + 1..];
    [s[i]] + (s[..i] + s[i + 1..])
  }

  lemma DuplicateFirst(nfc: string -> string, qs: seq<Pair>)
    requires |qs| >= 2 && qs[0].key.Text? && qs[1].key.Text? && nfc(qs[0].key.s) == nfc(qs[1].key.s)
    ensures CheckKeys(nfc, qs, {}) == Some(DuplicateKey)
  {
    var seen := {} + {nfc(qs[0].key.s)};
    assert qs[1..][0] == qs[1];
    assert CheckKeys(nfc, qs[1..], seen) == Some(DuplicateKey);
    assert CheckKeys(nfc, qs, {}) == CheckKeys(nfc, qs[1..], seen);
  }

  lemma CountAt<T>(s: seq<T>, i: nat)
    requires i < |s|
    ensures s[i] !in s[..i] && s[i] !in s[i + 1..] ==> multiset(s)[s[i]] == 1
    ensures s[i] in s[i + 1..] ==> multiset(s)[s[i]] >= 2
  {
    assert s == s[..i] + [s[i]] + s[i + 1..];
    assert multiset(s) == multiset(s[..i]) + multiset{s[i]} + multiset(s[i + 1..]);
    assert s[i] !in s[..i] ==> multiset(s[..i])[s[i]] == 0;
    assert s[i] !in s[i + 1..] ==> multiset(s[i + 1..])[s[i]] == 0;
    assert s[i] in s[i + 1..] ==> multiset(s[i + 1..])[s[i]] >= 1;
  }

  lemma PermutedKeys(nfc: string -> string, ps: seq<Pair>, qs: seq<Pair>)
    requires multiset(ps) == multiset(qs)
    ensures AllText(ps) ==> AllText(qs)
    ensures DistinctNfc(nfc, ps) ==> DistinctNfc(nfc, qs)
  {
    forall i | 0 <= i < |qs| ensures qs[i] in ps {
      assert qs[i] in multiset(qs);
    }
    if DistinctNfc(nfc, ps) {
      forall i, j | 0 <= i < j < |qs| && qs[i].key.Text? && qs[j].key.Text?
        ensures nfc(qs[i].key.s) != nfc(qs[j].key.s)
      {
        assert qs[j] in qs[i + 1..];
        var a :| 0 <= a < |ps| && ps[a] == qs[i];
        var b :| 0 <= b < |ps| && ps[b] == qs[j];
        CountAt(qs, i);
        CountAt(ps, a);
      }
    }
  }

  // ------------------------------------------------------ unique decodability

  lemma TimestampValue(v: Value, w: Value)
    requires ToInteger(v).Ok? && ToInteger(w).Ok? && IntegerTree(v) == IntegerTree(w)
    ensures IsNumber(v) && IsNumber(w) && Numeric(v) == Numeric(w)
  {
    Decimal.OfIntInjective(ToInteger(v).value, ToInteger(w).value);
  }

  function IndexOf<T>(fs: seq<Field<T>>, k: string): (i: nat)
    ensures i <= |fs|
    ensures i < |fs| ==> fs[i].key == k
    ensures (exists j :: 0 <= j < |fs| && fs[j].key == k) ==> i < |fs|
  {
    if fs == [] || fs[0].key == k then 0
    else
      assert forall j :: 0 < j < |fs| ==> fs[j] == fs[1..][j - 1];
      1 + IndexOf(fs[1..], k)
  }

  /** Entries with distinct keys that sort alike are matched by key. */
  lemma MatchByKey<T>(fs: seq<Field<T>>, gs: seq<Field<T>>) returns (p: seq<nat>, q: seq<nat>)
    requires DistinctKeys(fs) && DistinctKeys(gs) && Sort(fs) == Sort(gs)
    ensures |fs| == |gs| && Bijection(p, q, |fs|)
    ensures forall i :: 0 <= i < |fs| ==> fs[i] == gs[p[i]]
  {
    hide Sort;
    SortMembers(fs);
    SortMembers(gs);
    forall i | 0 <= i < |fs| ensures IndexOf(gs, fs[i].key) < |gs| && gs[IndexOf(gs, fs[i].key)] == fs[i] {
      assert fs[i] in fs;
      var j :| 0 <= j < |gs| && gs[j] == fs[i];
    }
    forall j | 0 <= j < |gs| ensures IndexOf(fs, gs[j].key) < |fs| && fs[IndexOf(fs, gs[j].key)] == gs[j] {
      assert gs[j] in gs;
      var i :| 0 <= i < |fs| && fs[i] == gs[j];
    }
    p := seq(|fs|, i requires 0 <= i < |fs| => IndexOf(gs, fs[i].key));
    q := seq(|gs|, j requires 0 <= j < |gs| => IndexOf(fs, gs[j].key));
  }

  lemma GatheredAlike<T>(fs: seq<Field<Canonized<T>>>, gs: seq<Field<Canonized<T>>>)
    requires GatherFields(fs).Ok? && GatherFields(fs) == GatherFields(gs)
    ensures fs == gs
  {
    var out := GatherFields(fs).value;
    assert |fs| == |gs| && forall i :: 0 <= i < |fs| ==> fs[i] == gs[i];
  }

  /** Equal trees come only from values that are the same. */
  lemma {:induction false} TreeSame(nfc: string -> string, v: Value, w: Value)
    requires Tree(nfc, v).Ok? && Tree(nfc, v) == Tree(nfc, w)
    ensures Same(nfc, v, w)
    decreases v
  {
    if IsNumber(v) {
      assert IsNumber(w);
      TimestampValue(v, w);
    } else if v.Arr? {
      assert w.Arr?;
      TreeSameItems(nfc, v, w);
      forall i | 0 <= i < |v.items| ensures Same(nfc, v.items[i], w.items[i]) {
        TreeSame(nfc, v.items[i], w.items[i]);
      }
    } else if v.Obj? {
      assert w.Obj?;
      var p, q := TreeSameFields(nfc, v.pairs, w.pairs);
      forall i | 0 <= i < |v.pairs|
        ensures SameKey(nfc, v.pairs[i].key, w.pairs[p[i]].key) && Same(nfc, v.pairs[i].val, w.pairs[p[i]].val)
      {
        assert FieldOf(nfc, v.pairs[i]) == FieldOf(nfc, w.pairs[p[i]]);
        if nfc(v.pairs[i].key.s) == "ts" {
          TimestampValue(v.pairs[i].val, w.pairs[p[i]].val);
        } else {
          TreeSame(nfc, v.pairs[i].val, w.pairs[p[i]].val);
        }
      }
    }
  }

  lemma TreeSameItems(nfc: string -> string, v: Value, w: Value)
    requires v.Arr? && w.Arr? && Tree(nfc, v).Ok? && Tree(nfc, v) == Tree(nfc, w)
    ensures |v.items| == |w.items|
    ensures forall i :: 0 <= i < |v.items| ==>
              Tree(nfc, v.items[i]).Ok? && Tree(nfc, v.items[i]) == Tree(nfc, w.items[i])
  {
    var js := Gather(Trees(nfc, v.items)).value;
    assert js == Gather(Trees(nfc, w.items)).value;
    forall i | 0 <= i < |js| ensures Tree(nfc, v.items[i]) == Ok(js[i]) && Tree(nfc, w.items[i]) == Ok(js[i]) {
      assert Trees(nfc, v.items)[i] == Ok(js[i]) && Trees(nfc, w.items)[i] == Ok(js[i]);
    }
  }

  /** What a successful tree of an object says about its entries. */
  lemma ObjectTree(nfc: string -> string, ps: seq<Pair>)
    requires Tree(nfc, Obj(ps)).Ok?
    ensures AllText(ps) && DistinctNfc(nfc, ps) && DistinctKeys(Fields(nfc, ps))
    ensures Tree(nfc, Obj(ps)).value.JObj?
    ensures GatherFields(Sort(Fields(nfc, ps))) == Ok(Tree(nfc, Obj(ps)).value.fields)
  {
    CheckKeysVerdict(nfc, ps);
    DistinctFields(nfc, ps);
  }

  /** Every entry of a gathered, sorted object has a tree. */
  lemma GatheredChildren<T>(fs: seq<Field<Canonized<T>>>)
    requires GatherFields(Sort(fs)).Ok?
    ensures forall i :: 0 <= i < |fs| ==> fs[i].val.Ok?
  {
    hide Sort;
    SortMembers(fs);
    var out := GatherFields(Sort(fs)).value;
    forall i | 0 <= i < |fs| ensures fs[i].val.Ok? {
      assert fs[i] in Sort(fs);
      var j :| 0 <= j < |Sort(fs)| && Sort(fs)[j] == fs[i];
      assert Sort(fs)[j] == Field(out[j].key, Ok(out[j].val));
    }
  }

  lemma TreeSameFields(nfc: string -> string, ps: seq<Pair>, qs: seq<Pair>) returns (p: seq<nat>, q: seq<nat>)
    requires Tree(nfc, Obj(ps)).Ok? && Tree(nfc, Obj(ps)) == Tree(nfc, Obj(qs))
    ensures |ps| == |qs| && Bijection(p, q, |ps|) && AllText(ps) && AllText(qs)
    ensures forall i :: 0 <= i < |ps| ==> FieldOf(nfc, ps[i]).val.Ok? && FieldOf(nfc, ps[i]) == FieldOf(nfc, qs[p[i]])
  {
    hide Sort, Fields, FieldOf, ChildTree, GatherFields, Tree, DistinctKeys, DistinctNfc;
    ObjectTree(nfc, ps);
    ObjectTree(nfc, qs);
    var fs, gs := Fields(nfc, ps), Fields(nfc, qs);
    GatheredAlike(Sort(fs), Sort(gs));
    p, q := MatchByKey(fs, gs);
    GatheredChildren(fs);
    forall i | 0 <= i < |ps|
      ensures FieldOf(nfc, ps[i]).val.Ok? && FieldOf(nfc, ps[i]) == FieldOf(nfc, qs[p[i]])
    {
      assert fs[i] == gs[p[i]];
    }
  }

  /** A value that has a tree has no ambiguous mapping in it. */
  lemma {:induction false} TreeUnambiguous(nfc: string -> string, v: Value)
    requires Tree(nfc, v).Ok?
    ensures Unambiguous(nfc, v)
    decreases v
  {
    if v.Arr? {
      TreeSameItems(nfc, v, v);
      forall i | 0 <= i < |v.items| ensures Unambiguous(nfc, v.items[i]) {
        TreeUnambiguous(nfc, v.items[i]);
      }
    } else if v.Obj? {
      ObjectTree(nfc, v.pairs);
      GatheredChildren(Fields(nfc, v.pairs));
      forall i | 0 <= i < |v.pairs| ensures Unambiguous(nfc, v.pairs[i].val) {
        assert Fields(nfc, v.pairs)[i] == FieldOf(nfc, v.pairs[i]);
        if nfc(v.pairs[i].key.s) != "ts" { TreeUnambiguous(nfc, v.pairs[i].val); }
      }
    }
  }

  lemma {:induction false} SameUnambiguous(nfc: string -> string, v: Value, w: Value)
    requires Same(nfc, v, w) && Unambiguous(nfc, v)
    ensures Unambiguous(nfc, w)
    decreases v
  {
    match (v, w)
    case (Arr(vs), Arr(ws)) =>
      forall i | 0 <= i < |ws| ensures Unambiguous(nfc, ws[i]) {
        SameUnambiguous(nfc, vs[i], ws[i]);
      }
    case (Obj(ps), Obj(qs)) =>
      var p: seq<nat>, q: seq<nat> :| Bijection(p, q, |ps|)
        && forall i :: 0 <= i < |ps| ==>
             SameKey(nfc, ps[i].key, qs[p[i]].key) && Same(nfc, ps[i].val, qs[p[i]].val);
      MatchedKeys(nfc, ps, qs, p, q);
      forall j | 0 <= j < |qs| ensures Unambiguous(nfc, qs[j].val) {
        assert p[q[j]] == j;
        SameUnambiguous(nfc, ps[q[j]].val, qs[j].val);
      }
    case _ =>
  }

  /**
   * Reordering entries at any depth, renormalizing strings and changing the
   * number representation leave the whole outcome unchanged: the text, or the
   * error code. The one exception is a mapping with two complaints at once.
   */
  lemma OrderIndependent(nfc: string -> string, quote: string -> string, v: Value, w: Value)
    requires Same(nfc, v, w) && Unambiguous(nfc, v)
    ensures Text'(nfc, quote, v) == Text'(nfc, quote, w)
  {
    SameUnambiguous(nfc, v, w);
    SameTree(nfc, v, w);
  }

  /** Two values have the same canonical text exactly when they are the same value. */
  lemma EqualTextIffSame(nfc: string -> string, v: Value, w: Value)
    requires Idempotent(nfc) && Canonicalize(nfc, v).Ok?
    ensures Canonicalize(nfc, v) == Canonicalize(nfc, w) <==> Same(nfc, v, w)
  {
    hide Tree, Same, Print, Parse, Unambiguous;
    TreeUnambiguous(nfc, v);
    if Same(nfc, v, w) {
      OrderIndependent(nfc, Quote, v, w);
    }
    if Canonicalize(nfc, v) == Canonicalize(nfc, w) {
      TreeWellFormed(nfc, v);
      TreeWellFormed(nfc, w);
      ParsePrint(Tree(nfc, v).value);
      ParsePrint(Tree(nfc, w).value);
      TreeSame(nfc, v, w);
    }
  }

  // ----------------------------------------------------------- the order of keys

  /** The keys of a canonical tree are in lexicographic order of their code points. */
  lemma KeysInOrder(nfc: string -> string, ps: seq<Pair>)
    requires Tree(nfc, Obj(ps)).Ok?
    ensures Tree(nfc, Obj(ps)).value.JObj?
    ensures var fs := Tree(nfc, Obj(ps)).value.fields;
            forall i, j :: 0 <= i < j < |fs| ==> Precedes(CodePoints(fs[i].key), CodePoints(fs[j].key))
  {
    hide Less, Encode, Tree, Sort, GatherFields;
    ObjectTree(nfc, ps);
    var fs, gs := Tree(nfc, Obj(ps)).value.fields, Sort(Fields(nfc, ps));
    SortStrict(Fields(nfc, ps));
    forall i, j | 0 <= i < j < |fs| ensures Precedes(CodePoints(fs[i].key), CodePoints(fs[j].key)) {
      assert gs[i].key == fs[i].key && gs[j].key == fs[j].key;
      ByteOrderIsCodePointOrder(fs[i].key, fs[j].key);
      LessIff(CodePoints(fs[i].key), CodePoints(fs[j].key));
    }
  }

  /** Of two keys of which one continues the other, the shorter one comes first. */
  lemma ShorterKeyFirst(nfc: string -> string, ps: seq<Pair>, i: nat, j: nat)
    requires Tree(nfc, Obj(ps)).Ok?
    requires var fs := Tree(nfc, Obj(ps)).value.fields; i < |fs| && j < |fs| && fs[i].key < fs[j].key
    ensures i < j
  {
    hide Less, Tree;
    KeysInOrder(nfc, ps);
    var fs := Tree(nfc, Obj(ps)).value.fields;
    var a, b := CodePoints(fs[i].key), CodePoints(fs[j].key);
    assert a == b[..|a|];
    PrefixFirst(a, b);
    if j < i {
      LessIff(b, a);
      LessAsymmetric(a, b);
    }
  }

  // ------------------------------------------------- which texts are canonical

  ghost predicate Idempotent(nfc: string -> string) {
    forall s :: nfc(nfc(s)) == nfc(s)
  }

  predicate IsSafeNumber(t: string) {
    match Decimal.ToInt(t)
    case None => false
    case Some(n) => SAFE_MIN <= n <= SAFE_MAX && Decimal.OfInt(n) == t
  }

  /** NFC strings, strictly increasing NFC keys, safe integers, `ts` a number. */
  ghost predicate IsCanonical(nfc: string -> string, j: Json) {
    match j
    case JNum(t) => IsSafeNumber(t)
    case JStr(s) => nfc(s) == s
    case JArr(js) => forall i :: 0 <= i < |js| ==> IsCanonical(nfc, js[i])
    case JObj(fs) =>
      && StrictKeys(fs)
      && forall i :: 0 <= i < |fs| ==>
           nfc(fs[i].key) == fs[i].key && IsCanonical(nfc, fs[i].val) && (fs[i].key == "ts" ==> fs[i].val.JNum?)
    case _ => true
  }

  /** The value a JSON reader makes of a tree. */
  function FromJson(j: Json): (v: Value)
    decreases j, 0
  {
    match j
    case JNull => Null
    case JBool(b) => Bool(b)
    case JNum(t) => (match Decimal.ToInt(t) case Some(n) => Int(n) case None => Other)
    case JStr(s) => Str(s)
    case JArr(js) => Arr(FromItems(js))
    case JObj(fs) => Obj(FromFields(fs))
  }

  function FromItems(js: seq<Json>): (vs: seq<Value>)
    ensures |vs| == |js| && forall i :: 0 <= i < |js| ==> vs[i] == FromJson(js[i])
    decreases js, 0
  {
    if js == [] then [] else [FromJson(js[0])] + FromItems(js[1..])
  }

  function FromFields(fs: seq<Field<Json>>): (ps: seq<Pair>)
    ensures |ps| == |fs| && forall i :: 0 <= i < |fs| ==> ps[i] == Pair(Text(fs[i].key), FromJson(fs[i].val))
    decreases fs, 0
  {
    if fs == [] then [] else [FromField(fs[0])] + FromFields(fs[1..])
  }

  function FromField(f: Field<Json>): (p: Pair)
    ensures p == Pair(Text(f.key), FromJson(f.val))
    decreases f, 0
  {
    Pair(Text(f.key), FromJson(f.val))
  }

  lemma SafeNumber(v: Value)
    requires ToInteger(v).Ok?
    ensures IsSafeNumber(Decimal.OfInt(ToInteger(v).value))
  {
    Decimal.IntRoundTrip(ToInteger(v).value);
  }

  lemma SafeNumberText(t: string)
    requires IsSafeNumber(t)
    ensures NumberText(t)
  {
    var n := Decimal.ToInt(t).value;
    assert t == Decimal.OfInt(n);
  }

  /** The result of canonicalization is in canonical form. */
  lemma {:induction false} TreeIsCanonical(nfc: string -> string, v: Value)
    requires Idempotent(nfc) && Tree(nfc, v).Ok?
    ensures IsCanonical(nfc, Tree(nfc, v).value)
    decreases v
  {
    var j := Tree(nfc, v).value;
    if IsNumber(v) {
      SafeNumber(v);
    } else if v.Arr? {
      TreeSameItems(nfc, v, v);
      var js := Gather(Trees(nfc, v.items)).value;
      forall i | 0 <= i < |js| ensures IsCanonical(nfc, js[i]) {
        assert Trees(nfc, v.items)[i] == Ok(js[i]);
        TreeIsCanonical(nfc, v.items[i]);
      }
    } else if v.Obj? {
      var fs := Fields(nfc, v.pairs);
      ObjectTree(nfc, v.pairs);
      GatheredChildren(fs);
      forall i | 0 <= i < |fs|
        ensures nfc(fs[i].key) == fs[i].key && IsCanonical(nfc, fs[i].val.value)
                && (fs[i].key == "ts" ==> fs[i].val.value.JNum?)
      {
        assert fs[i] == FieldOf(nfc, v.pairs[i]);
        if fs[i].key == "ts" { SafeNumber(v.pairs[i].val); } else { TreeIsCanonical(nfc, v.pairs[i].val); }
      }
      CanonicalFields(nfc, fs, j.fields);
    }
  }

  lemma CanonicalFields(nfc: string -> string, fs: seq<Field<Canonized<Json>>>, out: seq<Field<Json>>)
    requires DistinctKeys(fs) && GatherFields(Sort(fs)) == Ok(out)
    requires forall i :: 0 <= i < |fs| ==>
               fs[i].val.Ok? && nfc(fs[i].key) == fs[i].key && IsCanonical(nfc, fs[i].val.value)
               && (fs[i].key == "ts" ==> fs[i].val.value.JNum?)
    ensures IsCanonical(nfc, JObj(out))
  {
    hide Sort, DistinctKeys, Less, Encode;
    SortStrict(fs);
    SortMembers(fs);
    var sorted := Sort(fs);
    forall i | 0 <= i < |out|
      ensures nfc(out[i].key) == out[i].key && IsCanonical(nfc, out[i].val)
              && (out[i].key == "ts" ==> out[i].val.JNum?)
    {
      assert sorted[i] == Field(out[i].key, Ok(out[i].val));
      assert sorted[i] in fs;
    }
    forall i, j | 0 <= i < j < |out| ensures Less(Encode(out[i].key), Encode(out[j].key)) {
      assert sorted[i].key == out[i].key && sorted[j].key == out[j].key;
    }
  }

  lemma {:induction false} CanonicalWellFormed(nfc: string -> string, j: Json)
    requires IsCanonical(nfc, j)
    ensures WellFormed(j)
    decreases j
  {
    match j
    case JNum(t) => SafeNumberText(t);
    case JArr(js) =>
      forall i | 0 <= i < |js| ensures WellFormed(js[i]) { CanonicalWellFormed(nfc, js[i]); }
    case JObj(fs) =>
      forall i | 0 <= i < |fs| ensures WellFormed(fs[i].val) { CanonicalWellFormed(nfc, fs[i].val); }
    case _ =>
  }

  lemma TreeWellFormed(nfc: string -> string, v: Value)
    requires Idempotent(nfc) && Tree(nfc, v).Ok?
    ensures WellFormed(Tree(nfc, v).value)
  {
    TreeIsCanonical(nfc, v);
    CanonicalWellFormed(nfc, Tree(nfc, v).value);
  }

  lemma GatherAll<T>(rs: seq<Canonized<T>>, ts: seq<T>)
    requires |rs| == |ts| && forall i :: 0 <= i < |rs| ==> rs[i] == Ok(ts[i])
    ensures Gather(rs) == Ok(ts)
  {
    assert Gather(rs).value == ts;
  }

  lemma GatherFieldsAll<T>(fs: seq<Field<Canonized<T>>>, out: seq<Field<T>>)
    requires |fs| == |out| && forall i :: 0 <= i < |fs| ==> fs[i] == Field(out[i].key, Ok(out[i].val))
    ensures GatherFields(fs) == Ok(out)
  {
    var r := GatherFields(fs).value;
    assert forall i :: 0 <= i < |fs| ==> r[i] == out[i];
    assert r == out;
  }

  /** A tree in canonical form is its own canonical tree. */
  lemma {:induction false} CanonicalIsFixed(nfc: string -> string, j: Json)
    requires IsCanonical(nfc, j)
    ensures Tree(nfc, FromJson(j)) == Ok(j)
    decreases j
  {
    hide Fields, Trees, Gather, GatherFields, Sort, CheckKeys, StrictKeys, IsSafeNumber;
    match j
    case JArr(js) =>
      forall i | 0 <= i < |js| ensures Tree(nfc, FromItems(js)[i]) == Ok(js[i]) {
        CanonicalIsFixed(nfc, js[i]);
      }
      ArrayIsFixed(nfc, FromItems(js), js);
    case JObj(fs) =>
      forall i | 0 <= i < |fs| ensures FieldOf(nfc, FromFields(fs)[i]) == Field(fs[i].key, Ok(fs[i].val)) {
        CanonicalIsFixed(nfc, fs[i].val);
        if fs[i].key == "ts" { NumberIsFixed(fs[i].val.text); }
      }
      ObjectIsFixed(nfc, fs);
    case JNum(t) => NumberIsFixed(t);
    case _ =>
  }

  lemma ArrayIsFixed(nfc: string -> string, vs: seq<Value>, js: seq<Json>)
    requires |vs| == |js| && forall i :: 0 <= i < |js| ==> Tree(nfc, vs[i]) == Ok(js[i])
    ensures Tree(nfc, Arr(vs)) == Ok(JArr(js))
  {
    hide Gather;
    GatherAll(Trees(nfc, vs), js);
  }

  lemma {:induction false} ObjectIsFixed(nfc: string -> string, fs: seq<Field<Json>>)
    requires StrictKeys(fs)
    requires forall i :: 0 <= i < |fs| ==> FieldOf(nfc, FromFields(fs)[i]) == Field(fs[i].key, Ok(fs[i].val))
    ensures Tree(nfc, FromJson(JObj(fs))) == Ok(JObj(fs))
  {
    hide FieldOf, Fields, Sort, GatherFields;
    var ps := FromFields(fs);
    StrictAreDistinct(fs);
    forall i | 0 <= i < |ps| ensures ps[i].key.Text? && nfc(ps[i].key.s) == fs[i].key {
      assert FieldOf(nfc, ps[i]).key == fs[i].key;
    }
    CheckKeysVerdict(nfc, ps);
    SortedStays(Fields(nfc, ps), fs);
  }

  lemma NumberIsFixed(t: string)
    requires IsSafeNumber(t)
    ensures var v := FromJson(JNum(t)); v.Int? && IntegerTree(v) == Ok(JNum(t)) && TimestampTree(v) == Ok(JNum(t))
  {
  }

  lemma SortedStays(gs: seq<Field<Canonized<Json>>>, fs: seq<Field<Json>>)
    requires StrictKeys(fs) && |gs| == |fs|
    requires forall i :: 0 <= i < |fs| ==> gs[i] == Field(fs[i].key, Ok(fs[i].val))
    ensures GatherFields(Sort(gs)) == Ok(fs)
  {
    hide Sort, Less, Encode;
    forall i, j | 0 <= i < j < |gs| ensures Less(Encode(gs[i].key), Encode(gs[j].key)) {
      assert gs[i].key == fs[i].key && gs[j].key == fs[j].key;
    }
    StrictAreDistinct(gs);
    AnySortIsSort(gs, gs);
    GatherFieldsAll(gs, fs);
  }

  /**
   * Unique decodability. The parser recovers the canonical tree of the value
   * from its text; the value read back is the same one, and canonicalizing it
   * gives the text again.
   */
  lemma ReadBack(nfc: string -> string, v: Value)
    requires Idempotent(nfc) && Canonicalize(nfc, v).Ok?
    ensures Parse(Canonicalize(nfc, v).value) == Some(Tree(nfc, v).value)
    ensures IsCanonical(nfc, Tree(nfc, v).value)
    ensures var w := FromJson(Tree(nfc, v).value);
            Same(nfc, v, w) && Canonicalize(nfc, w) == Canonicalize(nfc, v)
  {
    TreeIsCanonical(nfc, v);
    TreeWellFormed(nfc, v);
    ParsePrint(Tree(nfc, v).value);
    CanonicalIsFixed(nfc, Tree(nfc, v).value);
    TreeSame(nfc, v, FromJson(Tree(nfc, v).value));
  }

  /** The canonical texts are exactly the texts of the trees in canonical form. */
  lemma CanonicalTexts(nfc: string -> string, t: string)
    requires Idempotent(nfc)
    ensures (exists v :: Canonicalize(nfc, v) == Ok(t))
       <==> (exists j :: IsCanonical(nfc, j) && Print(Quote, j) == t)
  {
    if v :| Canonicalize(nfc, v) == Ok(t) {
      ReadBack(nfc, v);
      assert Print(Quote, Tree(nfc, v).value) == t;
    }
    if j :| IsCanonical(nfc, j) && Print(Quote, j) == t {
      CanonicalIsFixed(nfc, j);
      assert Canonicalize(nfc, FromJson(j)) == Ok(t);
    }
  }
}

/**
 * Which values have an outcome that no reordering changes: every value a Go map
 * or JavaScript object can hold, and, for Python mappings, exactly the values
 * defined by `OrderFree`.
 */
module CanonicalOrder {
  import opened Outcome
  import opened JsonText
  import opened Utf8Order
  import opened KeySort
  import opened Canonical
  import opened CanonicalLaws

  // ------------------------------------------------- sameness is an equivalence

  function Identity(n: nat): seq<nat> {
    seq(n, i requires 0 <= i < n => i)
  }

  lemma {:induction false} SameReflexive(nfc: string -> string, v: Value)
    ensures Same(nfc, v, v)
    decreases v
  {
    match v
    case Arr(vs) =>
      forall i | 0 <= i < |vs| ensures Same(nfc, vs[i], vs[i]) { SameReflexive(nfc, vs[i]); }
    case Obj(ps) =>
      forall i | 0 <= i < |ps| ensures Same(nfc, ps[i].val, ps[i].val) { SameReflexive(nfc, ps[i].val); }
      var id := Identity(|ps|);
      assert Bijection(id, id, |ps|);
      assert forall i :: 0 <= i < |ps| ==> SameKey(nfc, ps[i].key, ps[id[i]].key);
    case _ =>
  }

  lemma {:induction false} SameSymmetric(nfc: string -> string, v: Value, w: Value)
    requires Same(nfc, v, w)
    ensures Same(nfc, w, v)
    decreases v
  {
    match (v, w)
    case (Arr(vs), Arr(ws)) =>
      forall i | 0 <= i < |vs| ensures Same(nfc, ws[i], vs[i]) { SameSymmetric(nfc, vs[i], ws[i]); }
    case (Obj(ps), Obj(qs)) =>
      hide SameKey;
      var p, q := TheMatch(nfc, ps, qs);
      forall j | 0 <= j < |qs| ensures SameKey(nfc, qs[j].key, ps[q[j]].key) && Same(nfc, qs[j].val, ps[q[j]].val) {
        assert p[q[j]] == j;
        SameKeySymmetric(nfc, ps[q[j]].key, qs[j].key);
        SameSymmetric(nfc, ps[q[j]].val, qs[j].val);
      }
      assert Bijection(q, p, |qs|);
    case _ =>
  }

  lemma SameKeySymmetric(nfc: string -> string, k: Key, l: Key)
    requires SameKey(nfc, k, l)
    ensures SameKey(nfc, l, k)
  {
  }

  /** A rearranged sequence is reached by a bijection between the positions. */
  lemma {:induction false} Permutation<T>(s: seq<T>, t: seq<T>) returns (p: seq<nat>, q: seq<nat>)
    requires multiset(s) == multiset(t)
    ensures |s| == |t| == |p| && Bijection(p, q, |s|)
    ensures forall i :: 0 <= i < |s| ==> p[i] < |t| && s[i] == t[p[i]]
  {
    SameLength(s, t);
    if s == [] {
      p, q := [], [];
    } else {
      hide SwapOut, Bijection;
      var n := |s| - 1;
      var j := Find(s[n], s, t);
      LastRemoved(s);
      var p', q' := Permutation(s[..n], SwapOut(t, j));
      p, q := Extend(p', q', n, j);
      forall i | 0 <= i < |s| ensures s[i] == t[p[i]] {
        if i < n { assert s[i] == s[..n][i] == SwapOut(t, j)[p'[i]]; }
      }
    }
  }

  lemma SameLength<T>(s: seq<T>, t: seq<T>)
    requires multiset(s) == multiset(t)
    ensures |s| == |t|
  {
    assert |multiset(s)| == |s| && |multiset(t)| == |t|;
  }

  lemma Find<T>(x: T, s: seq<T>, t: seq<T>) returns (j: nat)
    requires multiset(s) == multiset(t) && x in s
    ensures j < |t| && t[j] == x
  {
    assert x in multiset(t);
    j :| 0 <= j < |t| && t[j] == x;
  }

  lemma LastRemoved<T>(s: seq<T>)
    requires s != []
    ensures multiset(s[..|s| - 1]) == multiset(s) - multiset{s[|s| - 1]}
  {
    assert s == s[..|s| - 1] + [s[|s| - 1]];
  }

  /** The last element takes the place of element `j`. */
  function SwapOut<T>(t: seq<T>, j: nat): (u: seq<T>)
    requires j < |t|
    ensures |u| == |t| - 1 && multiset(u) == multiset(t) - multiset{t[j]}
    ensures forall k :: 0 <= k < |u| ==> u[k] == if k == j then t[|t| - 1] else t[k]
  {
    var n := |t| - 1;
    assert t == t[..n] + [t[n]];
    if j == n then t[..n] else t[..n][j := t[n]]
  }

  lemma Extend(p': seq<nat>, q': seq<nat>, n: nat, j: nat) returns (p: seq<nat>, q: seq<nat>)
    requires Bijection(p', q', n) && j <= n
    ensures Bijection(p, q, n + 1) && |p| == n + 1 && |p'| == n && p[n] == j
    ensures forall i :: 0 <= i < n ==> p'[i] < n && p[i] == if p'[i] == j then n else p'[i]
  {
    p := seq(n + 1, i requires 0 <= i <= n => if i == n then j else if p'[i] == j then n else p'[i]);
    q := seq(n + 1, k requires 0 <= k <= n => if k == j then n else if k == n then q'[j] else q'[k]);
  }

  // ------------------------------------------------------------- pure reordering

  /** The same value but for the order of entries, at any depth. */
  ghost predicate Reordered(v: Value, w: Value)
    decreases v
  {
    match (v, w)
    case (Arr(vs), Arr(ws)) =>
      |vs| == |ws| && forall i :: 0 <= i < |vs| ==> Reordered(vs[i], ws[i])
    case (Obj(ps), Obj(qs)) =>
      && |ps| == |qs|
      && exists p: seq<nat>, q: seq<nat> ::
           && Bijection(p, q, |ps|)
           && forall i :: 0 <= i < |ps| ==> ps[i].key == qs[p[i]].key && Reordered(ps[i].val, qs[p[i]].val)
    case _ => v == w
  }

  lemma {:induction false} ReorderedReflexive(v: Value)
    ensures Reordered(v, v)
    decreases v
  {
    match v
    case Arr(vs) =>
      forall i | 0 <= i < |vs| ensures Reordered(vs[i], vs[i]) { ReorderedReflexive(vs[i]); }
    case Obj(ps) =>
      forall i | 0 <= i < |ps| ensures Reordered(ps[i].val, ps[i].val) { ReorderedReflexive(ps[i].val); }
      var id := Identity(|ps|);
      assert Bijection(id, id, |ps|);
      assert forall i :: 0 <= i < |ps| ==> ps[i].key == ps[id[i]].key;
    case _ =>
  }

  lemma {:induction false} ReorderedIsSame(nfc: string -> string, v: Value, w: Value)
    requires Reordered(v, w)
    ensures Same(nfc, v, w)
    decreases v
  {
    match (v, w)
    case (Arr(vs), Arr(ws)) =>
      forall i | 0 <= i < |vs| ensures Same(nfc, vs[i], ws[i]) { ReorderedIsSame(nfc, vs[i], ws[i]); }
    case (Obj(ps), Obj(qs)) =>
      var p: seq<nat>, q: seq<nat> :| Bijection(p, q, |ps|)
        && forall i :: 0 <= i < |ps| ==> ps[i].key == qs[p[i]].key && Reordered(ps[i].val, qs[p[i]].val);
      forall i | 0 <= i < |ps| ensures SameKey(nfc, ps[i].key, qs[p[i]].key) && Same(nfc, ps[i].val, qs[p[i]].val) {
        ReorderedIsSame(nfc, ps[i].val, qs[p[i]].val);
      }
    case _ => SameReflexive(nfc, v);
  }

  /** A mapping whose entries are delivered in another order is a reordering. */
  lemma PermutedIsReordered(ps: seq<Pair>, qs: seq<Pair>)
    requires multiset(ps) == multiset(qs)
    ensures Reordered(Obj(ps), Obj(qs))
  {
    var p, q := Permutation(ps, qs);
    forall i | 0 <= i < |ps| ensures ps[i].key == qs[p[i]].key && Reordered(ps[i].val, qs[p[i]].val) {
      ReorderedReflexive(ps[i].val);
    }
  }

  /** A mapping whose entries are delivered in another order is the same mapping. */
  lemma PermutedIsSame(nfc: string -> string, ps: seq<Pair>, qs: seq<Pair>)
    requires multiset(ps) == multiset(qs)
    ensures Same(nfc, Obj(ps), Obj(qs))
  {
    PermutedIsReordered(ps, qs);
    ReorderedIsSame(nfc, Obj(ps), Obj(qs));
  }

  /** Reordering one item or child reorders the whole. */
  lemma ReplacedItem(vs: seq<Value>, i: nat, w: Value)
    requires i < |vs| && Reordered(vs[i], w)
    ensures Reordered(Arr(vs), Arr(vs[i := w]))
  {
    forall k | 0 <= k < |vs| ensures Reordered(vs[k], vs[i := w][k]) { ReorderedReflexive(vs[k]); }
  }

  lemma ReplacedChild(ps: seq<Pair>, i: nat, w: Value)
    requires i < |ps| && Reordered(ps[i].val, w)
    ensures Reordered(Obj(ps), Obj(ps[i := Pair(ps[i].key, w)]))
  {
    var qs, id := ps[i := Pair(ps[i].key, w)], Identity(|ps|);
    assert Bijection(id, id, |ps|);
    forall k | 0 <= k < |ps| ensures ps[k].key == qs[id[k]].key && Reordered(ps[k].val, qs[id[k]].val) {
      ReorderedReflexive(ps[k].val);
    }
  }

  // ------------------------------------------------ the first error of an object

  /** The error of the object is that of field `k`: every smaller key is fine. */
  ghost predicate FirstError<T>(fs: seq<Field<Canonized<T>>>, k: nat) {
    && k < |fs| && fs[k].val.Err?
    && forall j :: 0 <= j < |fs| && Less(Encode(fs[j].key), Encode(fs[k].key)) ==> fs[j].val.Ok?
  }

  lemma {:induction false} GatherFieldsStops<T>(fs: seq<Field<Canonized<T>>>, k: nat)
    requires k < |fs| && fs[k].val.Err? && forall i :: 0 <= i < k ==> fs[i].val.Ok?
    ensures GatherFields(fs) == Err(fs[k].val.error)
  {
    if k > 0 { GatherFieldsStops(fs[1..], k - 1); }
  }

  lemma {:induction false} WhereStopped<T>(fs: seq<Field<Canonized<T>>>) returns (k: nat)
    requires GatherFields(fs).Err?
    ensures k < |fs| && fs[k].val.Err? && forall i :: 0 <= i < k ==> fs[i].val.Ok?
  {
    k := 0;
    if fs[0].val.Ok? {
      k := WhereStopped(fs[1..]);
      assert forall i :: 0 < i < |fs| ==> fs[i] == fs[1..][i - 1];
      k := k + 1;
    }
  }

  lemma FirstErrorDecides<T>(fs: seq<Field<Canonized<T>>>, k: nat)
    requires DistinctKeys(fs) && FirstError(fs, k)
    ensures GatherFields(Sort(fs)) == Err(fs[k].val.error)
  {
    hide Less, Encode, Sort, GatherFields;
    var gs := Sort(fs);
    SortStrict(fs);
    SortMembers(fs);
    assert fs[k] in gs;
    var m :| 0 <= m < |gs| && gs[m] == fs[k];
    forall i | 0 <= i < m ensures gs[i].val.Ok? {
      assert gs[i] in gs;
      assert Less(Encode(gs[i].key), Encode(gs[m].key));
    }
    GatherFieldsStops(gs, m);
  }

  lemma FirstErrorExists<T>(fs: seq<Field<Canonized<T>>>) returns (k: nat)
    requires DistinctKeys(fs) && GatherFields(Sort(fs)).Err?
    ensures FirstError(fs, k)
  {
    hide Less, Encode, Sort, GatherFields;
    var gs := Sort(fs);
    SortStrict(fs);
    SortMembers(fs);
    var m := WhereStopped(gs);
    assert gs[m] in fs;
    k :| 0 <= k < |fs| && fs[k] == gs[m];
    forall j | 0 <= j < |fs| && Less(Encode(fs[j].key), Encode(fs[k].key)) ensures fs[j].val.Ok? {
      assert fs[j] in gs;
      var i :| 0 <= i < |gs| && gs[i] == fs[j];
      if i > m { LessAsymmetric(Encode(gs[m].key), Encode(gs[i].key)); }
      if i == m { LessIrreflexive(Encode(gs[m].key)); }
    }
  }

  // ------------------------------------------------------- outcomes free of order

  ghost predicate Reached(nfc: string -> string, ps: seq<Pair>, i: nat)
    requires AllText(ps) && i < |ps|
  {
    forall j :: 0 <= j < |ps| && Less(Encode(nfc(ps[j].key.s)), Encode(nfc(ps[i].key.s))) ==>
      FieldOf(nfc, ps[j]).val.Ok?
  }

  /**
   * No mapping that is looked at mixes a key that is not a string with two keys
   * that normalize alike. An array is looked at up to its first error, a mapping
   * in key order up to its first error, and the value of `ts` only as a number.
   */
  ghost predicate OrderFree(nfc: string -> string, v: Value)
    decreases v
  {
    match v
    case Arr(vs) =>
      forall i :: 0 <= i < |vs| && (forall j :: 0 <= j < i ==> Tree(nfc, vs[j]).Ok?) ==> OrderFree(nfc, vs[i])
    case Obj(ps) =>
      && OneComplaint(nfc, ps)
      && (AllText(ps) && DistinctNfc(nfc, ps) ==>
            forall i :: 0 <= i < |ps| && nfc(ps[i].key.s) != "ts" && Reached(nfc, ps, i) ==> OrderFree(nfc, ps[i].val))
    case _ => true
  }

  lemma {:induction false} UnambiguousIsFree(nfc: string -> string, v: Value)
    requires Unambiguous(nfc, v)
    ensures OrderFree(nfc, v)
    decreases v
  {
    match v
    case Arr(vs) =>
      forall i | 0 <= i < |vs| ensures OrderFree(nfc, vs[i]) { UnambiguousIsFree(nfc, vs[i]); }
    case Obj(ps) =>
      forall i | 0 <= i < |ps| ensures OrderFree(nfc, ps[i].val) { UnambiguousIsFree(nfc, ps[i].val); }
    case _ =>
  }

  /** Same values are accepted alike. */
  lemma SameAccepted(nfc: string -> string, v: Value, w: Value)
    requires Same(nfc, v, w)
    ensures Tree(nfc, v).Ok? || Tree(nfc, w).Ok? ==> Tree(nfc, v) == Tree(nfc, w)
  {
    if Tree(nfc, v).Ok? {
      TreeUnambiguous(nfc, v);
      SameUnambiguous(nfc, v, w);
      SameTree(nfc, v, w);
    } else if Tree(nfc, w).Ok? {
      SameSymmetric(nfc, v, w);
      TreeUnambiguous(nfc, w);
      SameUnambiguous(nfc, w, v);
      SameTree(nfc, w, v);
    }
  }

  lemma {:induction false} ItemStops(nfc: string -> string, vs: seq<Value>, k: nat)
    requires k < |vs| && Tree(nfc, vs[k]).Err? && forall j :: 0 <= j < k ==> Tree(nfc, vs[j]).Ok?
    ensures Tree(nfc, Arr(vs)) == Err(Tree(nfc, vs[k]).error)
  {
    hide Gather;
    GatherStops(Trees(nfc, vs), k);
  }

  /** The first error of a list of results is the error of the whole. */
  lemma {:induction false} GatherStops<T>(rs: seq<Canonized<T>>, k: nat)
    requires k < |rs| && rs[k].Err? && forall i :: 0 <= i < k ==> rs[i].Ok?
    ensures Gather(rs) == Err(rs[k].error)
  {
    if k > 0 { GatherStops(rs[1..], k - 1); }
  }

  lemma {:induction false} FirstBad(nfc: string -> string, vs: seq<Value>, n: nat) returns (k: nat)
    requires n <= |vs|
    ensures k <= n && (forall j :: 0 <= j < k ==> Tree(nfc, vs[j]).Ok?) && (k < n ==> Tree(nfc, vs[k]).Err?)
  {
    k := 0;
    if n > 0 {
      k := FirstBad(nfc, vs, n - 1);
      if k == n - 1 && Tree(nfc, vs[k]).Ok? { k := n; }
    }
  }

  /** The keys pass and the first bad child decides. */
  lemma ChildDecides(nfc: string -> string, ps: seq<Pair>, k: nat)
    requires AllText(ps) && DistinctNfc(nfc, ps) && k < |ps|
    requires FieldOf(nfc, ps[k]).val.Err? && Reached(nfc, ps, k)
    ensures Tree(nfc, Obj(ps)) == Err(FieldOf(nfc, ps[k]).val.error)
  {
    hide GatherFields, Sort, Less, Encode, FieldOf, DistinctNfc;
    CheckKeysVerdict(nfc, ps);
    DistinctFields(nfc, ps);
    var fs := Fields(nfc, ps);
    FieldsAt(nfc, ps);
    assert FirstError(fs, k);
    FirstErrorDecides(fs, k);
  }

  lemma FieldsAt(nfc: string -> string, ps: seq<Pair>)
    requires AllText(ps)
    ensures |Fields(nfc, ps)| == |ps|
    ensures forall i :: 0 <= i < |ps| ==>
              Fields(nfc, ps)[i] == FieldOf(nfc, ps[i]) && Fields(nfc, ps)[i].key == nfc(ps[i].key.s)
  {
  }

  /** An object that fails after its keys passed has a child that decides. */
  lemma DecidingChild(nfc: string -> string, ps: seq<Pair>) returns (k: nat)
    requires AllText(ps) && DistinctNfc(nfc, ps) && Tree(nfc, Obj(ps)).Err?
    ensures k < |ps| && FieldOf(nfc, ps[k]).val.Err? && Reached(nfc, ps, k)
  {
    hide GatherFields, Sort, Less, Encode, FieldOf, DistinctNfc;
    CheckKeysVerdict(nfc, ps);
    DistinctFields(nfc, ps);
    FieldsAt(nfc, ps);
    var fs := Fields(nfc, ps);
    k := FirstErrorExists(fs);
    forall j | 0 <= j < |ps| && Less(Encode(nfc(ps[j].key.s)), Encode(nfc(ps[k].key.s)))
      ensures FieldOf(nfc, ps[j]).val.Ok?
    {
      assert Less(Encode(fs[j].key), Encode(fs[k].key));
    }
  }

  // ------------------------------------------------------------------ sufficient

  lemma {:induction false} FreeTree(nfc: string -> string, v: Value, w: Value)
    requires Same(nfc, v, w) && OrderFree(nfc, v)
    ensures Tree(nfc, v) == Tree(nfc, w)
    decreases v
  {
    SameAccepted(nfc, v, w);
    if Tree(nfc, v).Err? {
      match (v, w)
      case (Arr(vs), Arr(ws)) => FreeItems(nfc, vs, ws, v);
      case (Obj(ps), Obj(qs)) => FreeChildren(nfc, ps, qs, v);
      case _ => if IsNumber(v) { SameNumbers(v, w); }
    }
  }

  lemma {:induction false} FreeItems(nfc: string -> string, vs: seq<Value>, ws: seq<Value>, v: Value)
    requires v == Arr(vs) && Same(nfc, v, Arr(ws)) && OrderFree(nfc, v) && Tree(nfc, v).Err?
    ensures Tree(nfc, v) == Tree(nfc, Arr(ws))
    decreases v, 0
  {
    hide Trees, Gather;
    var k := FirstBad(nfc, vs, |vs|);
    if k == |vs| { AllItemsFine(nfc, vs); }
    forall j | 0 <= j < k ensures Tree(nfc, ws[j]).Ok? { SameAccepted(nfc, vs[j], ws[j]); }
    FreeTree(nfc, vs[k], ws[k]);
    ItemStops(nfc, vs, k);
    ItemStops(nfc, ws, k);
  }

  lemma AllItemsFine(nfc: string -> string, vs: seq<Value>)
    requires forall j :: 0 <= j < |vs| ==> Tree(nfc, vs[j]).Ok?
    ensures Tree(nfc, Arr(vs)).Ok?
  {
  }

  lemma {:induction false} FreeChildren(nfc: string -> string, ps: seq<Pair>, qs: seq<Pair>, v: Value)
    requires v == Obj(ps) && Same(nfc, v, Obj(qs)) && OrderFree(nfc, v) && Tree(nfc, v).Err?
    ensures Tree(nfc, v) == Tree(nfc, Obj(qs))
    decreases v, 0
  {
    hide GatherFields, Sort, Less, Encode, FieldOf, DistinctNfc, CheckKeys;
    var p, q := TheMatch(nfc, ps, qs);
    MatchedKeys(nfc, ps, qs, p, q);
    CheckKeysVerdict(nfc, ps);
    CheckKeysVerdict(nfc, qs);
    if AllText(ps) && DistinctNfc(nfc, ps) {
      var k := DecidingChild(nfc, ps);
      if nfc(ps[k].key.s) == "ts" { SameTimestamp(nfc, ps[k].val, qs[p[k]].val); }
      else { FreeTree(nfc, ps[k].val, qs[p[k]].val); }
      SameChild(nfc, ps[k], qs[p[k]]);
      MatchedReach(nfc, ps, qs, p, q, k);
      ChildDecides(nfc, ps, k);
      ChildDecides(nfc, qs, p[k]);
    }
  }

  /** Under `ts` only the number of a child matters, elsewhere only its tree. */
  lemma SameChild(nfc: string -> string, a: Pair, b: Pair)
    requires a.key.Text? && b.key.Text? && SameKey(nfc, a.key, b.key)
    requires if nfc(a.key.s) == "ts" then ToInteger(a.val) == ToInteger(b.val) else Tree(nfc, a.val) == Tree(nfc, b.val)
    ensures FieldOf(nfc, a) == FieldOf(nfc, b)
  {
  }

  lemma MatchedReach(nfc: string -> string, ps: seq<Pair>, qs: seq<Pair>, p: seq<nat>, q: seq<nat>, k: nat)
    requires Matches(nfc, ps, qs, p, q) && AllText(ps) && AllText(qs) && k < |ps| && p[k] < |qs|
    requires Reached(nfc, ps, k)
    ensures Reached(nfc, qs, p[k])
  {
    hide Less, Encode, FieldOf, Same;
    assert SameKey(nfc, ps[k].key, qs[p[k]].key);
    forall j | 0 <= j < |qs| && Less(Encode(nfc(qs[j].key.s)), Encode(nfc(qs[p[k]].key.s)))
      ensures FieldOf(nfc, qs[j]).val.Ok?
    {
      var i := q[j];
      assert p[i] == j && SameKey(nfc, ps[i].key, qs[j].key) && Same(nfc, ps[i].val, qs[j].val);
      FieldAccepted(nfc, ps[i], qs[j]);
    }
  }

  lemma FieldAccepted(nfc: string -> string, a: Pair, b: Pair)
    requires a.key.Text? && b.key.Text? && SameKey(nfc, a.key, b.key) && Same(nfc, a.val, b.val)
    requires FieldOf(nfc, a).val.Ok?
    ensures FieldOf(nfc, b).val.Ok?
  {
    SameTimestamp(nfc, a.val, b.val);
    SameAccepted(nfc, a.val, b.val);
  }

  // ------------------------------------------------------------------- necessary

  /** A value that is not free of order has a reordering with another error code. */
  lemma {:induction false} OtherCode(nfc: string -> string, v: Value) returns (w: Value)
    requires !OrderFree(nfc, v)
    ensures Reordered(v, w) && Tree(nfc, v).Err? && Tree(nfc, w).Err? && Tree(nfc, v) != Tree(nfc, w)
    decreases v
  {
    match v
    case Arr(vs) =>
      var i :| 0 <= i < |vs| && (forall j :: 0 <= j < i ==> Tree(nfc, vs[j]).Ok?) && !OrderFree(nfc, vs[i]);
      var x := OtherCode(nfc, vs[i]);
      w := Arr(vs[i := x]);
      ReplacedItem(vs, i, x);
      ItemStops(nfc, vs, i);
      ItemStops(nfc, vs[i := x], i);
    case Obj(ps) =>
      if !OneComplaint(nfc, ps) {
        w := OtherKeyCode(nfc, ps);
      } else {
        var i :| 0 <= i < |ps| && nfc(ps[i].key.s) != "ts" && Reached(nfc, ps, i) && !OrderFree(nfc, ps[i].val);
        var x := OtherCode(nfc, ps[i].val);
        w := Obj(ps[i := Pair(ps[i].key, x)]);
        ReplacedChild(ps, i, x);
        OtherChild(nfc, ps, i, x);
      }
  }

  lemma OtherKeyCode(nfc: string -> string, ps: seq<Pair>) returns (w: Value)
    requires !OneComplaint(nfc, ps)
    ensures Reordered(Obj(ps), w)
    ensures Tree(nfc, Obj(ps)).Err? && Tree(nfc, w).Err? && Tree(nfc, Obj(ps)) != Tree(nfc, w)
  {
    hide CheckKeys, Reordered, Sort;
    var first, second := TwoVerdicts(nfc, ps);
    CheckKeysVerdict(nfc, ps);
    PermutedIsReordered(ps, first);
    PermutedIsReordered(ps, second);
    w := Obj(if CheckKeys(nfc, ps, {}) == Some(DuplicateKey) then first else second);
  }

  lemma OtherChild(nfc: string -> string, ps: seq<Pair>, i: nat, x: Value)
    requires AllText(ps) && DistinctNfc(nfc, ps) && i < |ps| && nfc(ps[i].key.s) != "ts" && Reached(nfc, ps, i)
    requires Tree(nfc, ps[i].val).Err? && Tree(nfc, x).Err? && Tree(nfc, ps[i].val) != Tree(nfc, x)
    ensures var t, u := Tree(nfc, Obj(ps)), Tree(nfc, Obj(ps[i := Pair(ps[i].key, x)]));
            t.Err? && u.Err? && t != u
  {
    hide Less, Encode, Sort, GatherFields, CheckKeys;
    var qs := ps[i := Pair(ps[i].key, x)];
    forall j | 0 <= j < |qs| && Less(Encode(nfc(qs[j].key.s)), Encode(nfc(qs[i].key.s)))
      ensures FieldOf(nfc, qs[j]).val.Ok?
    {
      LessIrreflexive(Encode(nfc(ps[i].key.s)));
      assert j != i && qs[j] == ps[j];
    }
    ChildDecides(nfc, ps, i);
    ChildDecides(nfc, qs, i);
  }

  /**
   * Order independence, exactly. Every reordering of the entries, at any depth,
   * has the same text or the same error code if and only if no ambiguous mapping is
   * looked at; and then so has every value that also differs in NFC or number form.
   */
  lemma OrderFreeIff(nfc: string -> string, quote: string -> string, v: Value)
    ensures OrderFree(nfc, v) <==> forall w :: Reordered(v, w) ==> Text'(nfc, quote, w) == Text'(nfc, quote, v)
    ensures OrderFree(nfc, v) <==> forall w :: Same(nfc, v, w) ==> Text'(nfc, quote, w) == Text'(nfc, quote, v)
  {
    hide Same, Reordered, OrderFree;
    if OrderFree(nfc, v) {
      forall w | Same(nfc, v, w) ensures Text'(nfc, quote, w) == Text'(nfc, quote, v) { FreeTree(nfc, v, w); }
      forall w | Reordered(v, w) ensures Text'(nfc, quote, w) == Text'(nfc, quote, v) { ReorderedIsSame(nfc, v, w); }
    } else {
      var w := OtherCode(nfc, v);
      ReorderedIsSame(nfc, v, w);
      assert Text'(nfc, quote, w) != Text'(nfc, quote, v);
    }
  }

  // ---------------------------------------------------------- string-keyed values

  /** Go maps and JavaScript objects have string keys only. */
  ghost predicate StringKeys(v: Value) {
    match v
    case Arr(vs) => forall i :: 0 <= i < |vs| ==> StringKeys(vs[i])
    case Obj(ps) => AllText(ps) && forall i :: 0 <= i < |ps| ==> StringKeys(ps[i].val)
    case _ => true
  }

  lemma {:induction false} StringKeysUnambiguous(nfc: string -> string, v: Value)
    requires StringKeys(v)
    ensures Unambiguous(nfc, v)
    decreases v
  {
    match v
    case Arr(vs) =>
      forall i | 0 <= i < |vs| ensures Unambiguous(nfc, vs[i]) { StringKeysUnambiguous(nfc, vs[i]); }
    case Obj(ps) =>
      forall i | 0 <= i < |ps| ensures Unambiguous(nfc, ps[i].val) { StringKeysUnambiguous(nfc, ps[i].val); }
    case _ =>
  }

  /** With string keys the whole outcome is independent of entry order, without any condition. */
  lemma StringKeysOrderFree(nfc: string -> string, quote: string -> string, v: Value)
    requires StringKeys(v)
    ensures forall w :: Same(nfc, v, w) ==> Text'(nfc, quote, w) == Text'(nfc, quote, v)
  {
    StringKeysUnambiguous(nfc, v);
    UnambiguousIsFree(nfc, v);
    OrderFreeIff(nfc, quote, v);
  }
}

/** Which values canonicalization-v1 rejects, and what each error code says about them. */
module CanonicalErrors {
  import opened Outcome
  import opened JsonText
  import opened KeySort
  import opened Canonical
  import opened CanonicalLaws

  /** A number equal to an integer that a binary float holds exactly. */
  predicate SafeWhole(v: Value) {
    match v
    case Int(n) => -0x1F_FFFF_FFFF_FFFF <= n <= 0x1F_FFFF_FFFF_FFFF
    case Flt(Finite(r)) => IsWhole(r) && -9007199254740991.0 <= r <= 9007199254740991.0
    case _ => false
  }

  predicate NotWhole(f: Float) {
    !f.Finite? || !IsWhole(f.r)
  }

  /** Something in `v` that canonicalization-v1 rejects with code `c` (docs/spec/core/canonicalization-v1.md:95-105). */
  ghost predicate Complaint(nfc: string -> string, v: Value, c: Code)
    decreases v
  {
    match v
    case Other => c == UnsupportedType
    case Flt(f) => if NotWhole(f) then c == FloatNotAllowed else c == UnsafeInteger && !SafeWhole(v)
    case Int(_) => c == UnsafeInteger && !SafeWhole(v)
    case Arr(vs) => exists i :: 0 <= i < |vs| && Complaint(nfc, vs[i], c)
    case Obj(ps) =>
      || (c == UnsupportedType && !AllText(ps))
      || (c == DuplicateKey && !DistinctNfc(nfc, ps))
      || exists i :: 0 <= i < |ps| && ps[i].key.Text? &&
           (if nfc(ps[i].key.s) == "ts" then c == InvalidTimestamp && !SafeWhole(ps[i].val)
            else Complaint(nfc, ps[i].val, c))
    case _ => false
  }

  lemma ToIntegerMeaning(v: Value)
    ensures ToInteger(v).Ok? <==> SafeWhole(v)
    ensures IsNumber(v) && ToInteger(v).Err? ==>
              ToInteger(v).error == if v.Flt? && NotWhole(v.f) then FloatNotAllowed else UnsafeInteger
    ensures !IsNumber(v) ==> ToInteger(v) == Err(UnsupportedType)
  {
  }

  lemma {:induction false} GatherError<T>(rs: seq<Canonized<T>>) returns (k: nat)
    requires Gather(rs).Err?
    ensures k < |rs| && rs[k] == Err(Gather(rs).error)
  {
    if rs[0].Err? {
      k := 0;
    } else {
      k := GatherError(rs[1..]);
      k := k + 1;
    }
  }

  lemma {:induction false} GatherFieldsError<T>(fs: seq<Field<Canonized<T>>>) returns (k: nat)
    requires GatherFields(fs).Err?
    ensures k < |fs| && fs[k].val == Err(GatherFields(fs).error)
  {
    if fs[0].val.Err? {
      k := 0;
    } else {
      k := GatherFieldsError(fs[1..]);
      k := k + 1;
    }
  }

  /** The code returned is one that applies to the value. */
  lemma {:induction false} ErrorApplies(nfc: string -> string, v: Value)
    requires Tree(nfc, v).Err?
    ensures Complaint(nfc, v, Tree(nfc, v).error)
    decreases v
  {
    ToIntegerMeaning(v);
    if v.Arr? {
      var k := GatherError(Trees(nfc, v.items));
      ErrorApplies(nfc, v.items[k]);
    } else if v.Obj? {
      var ps := v.pairs;
      CheckKeysVerdict(nfc, ps);
      if CheckKeys(nfc, ps, {}).None? {
        var fs := Fields(nfc, ps);
        var k := GatherFieldsError(Sort(fs));
        SortMembers(fs);
        assert Sort(fs)[k] in fs;
        var i :| 0 <= i < |fs| && fs[i] == Sort(fs)[k];
        assert fs[i] == FieldOf(nfc, ps[i]);
        ToIntegerMeaning(ps[i].val);
        if fs[i].key != "ts" { ErrorApplies(nfc, ps[i].val); }
      }
    }
  }

  /** Nothing that deserves an error is accepted. */
  lemma {:induction false} AcceptedHasNoComplaint(nfc: string -> string, v: Value, c: Code)
    requires Tree(nfc, v).Ok?
    ensures !Complaint(nfc, v, c)
    decreases v
  {
    ToIntegerMeaning(v);
    if v.Arr? {
      TreeSameItems(nfc, v, v);
      forall i | 0 <= i < |v.items| ensures !Complaint(nfc, v.items[i], c) {
        AcceptedHasNoComplaint(nfc, v.items[i], c);
      }
    } else if v.Obj? {
      var ps := v.pairs;
      ObjectTree(nfc, ps);
      GatheredChildren(Fields(nfc, ps));
      forall i | 0 <= i < |ps|
        ensures if nfc(ps[i].key.s) == "ts" then SafeWhole(ps[i].val) else !Complaint(nfc, ps[i].val, c)
      {
        assert Fields(nfc, ps)[i] == FieldOf(nfc, ps[i]);
        ToIntegerMeaning(ps[i].val);
        if nfc(ps[i].key.s) != "ts" { AcceptedHasNoComplaint(nfc, ps[i].val, c); }
      }
    }
  }

  /** Canonicalization succeeds exactly on the values nothing is wrong with. */
  lemma AcceptedIff(nfc: string -> string, quote: string -> string, v: Value)
    ensures Text'(nfc, quote, v).Ok? <==> forall c :: !Complaint(nfc, v, c)
    ensures Text'(nfc, quote, v).Err? ==> Complaint(nfc, v, Text'(nfc, quote, v).error)
  {
    if Tree(nfc, v).Ok? {
      forall c ensures !Complaint(nfc, v, c) { AcceptedHasNoComplaint(nfc, v, c); }
    } else {
      ErrorApplies(nfc, v);
      assert Complaint(nfc, v, Text'(nfc, quote, v).error);
    }
  }
}

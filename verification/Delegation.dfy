/**
 * DelegationV1 checks of the conformance harness:
 * packages/conformance/go-harness/adapter_python.py. Artifacts are dictionaries
 * of dynamically typed values; `PNone` is an absent or null entry, and any
 * value that is no boolean, integer or string equals only itself.
 */
module Delegation {
  import opened Outcome
  import Utf8Order

  datatype PyVal = PNone | PBool(b: bool) | PInt(n: int) | PStr(s: string) | POther(tag: int)

  type Dict = map<string, PyVal>

  function Lookup(d: Dict, key: string): PyVal {
    if key in d then d[key] else PNone
  }

  /** `isinstance(v, int)`, which booleans satisfy too. */
  predicate IsInt(v: PyVal) {
    v.PInt? || v.PBool?
  }

  function AsInt(v: PyVal): int
    requires IsInt(v)
  {
    if v.PBool? then (if v.b then 1 else 0) else v.n
  }

  predicate PyEqual(a: PyVal, b: PyVal) {
    if IsInt(a) && IsInt(b) then AsInt(a) == AsInt(b) else a == b
  }

  /** A boolean counts as the integer it is. */
  function Normal(v: PyVal): PyVal {
    match v
    case PBool(true) => PInt(1)
    case PBool(false) => PInt(0)
    case _ => v
  }

  /** Values are compared, and taken for integers, as their normal forms are. */
  lemma NormalDecides(a: PyVal, b: PyVal)
    ensures PyEqual(a, b) <==> Normal(a) == Normal(b)
    ensures IsInt(a) <==> Normal(a).PInt?
    ensures IsInt(a) ==> AsInt(a) == Normal(a).n
  {
  }

  /** Declared scope dimensions; amounts are already integers. */
  datatype Scope = Scope(
    tools: Option<seq<string>>, maxAmount: Option<int>, maxActions: Option<int>, maxDepth: Option<int>)

  datatype Options = Options(
    now: int,
    expectedDelegatee: Option<PyVal>,
    expectedPolicyId: Option<PyVal>,
    consumedDelegationIds: seq<PyVal>,
    parentScope: Option<Scope>,
    requireSignatureVerification: bool,
    hasTrustedKeySets: bool)

  datatype Code =
    | ALG_UNSUPPORTED | AUDIENCE_MISMATCH | DELEGATOR_MISMATCH | EXPIRED | EXPIRY_EXCEEDS_PARENT | MISSING_FIELD
    | MULTIHOP_DENIED | PARENT_EXPIRED | PARENT_HASH_MISMATCH | POLICY_ID_MISMATCH | POLICY_MISMATCH
    | REPLAY | SCOPE_VIOLATION | TRUST_MISSING

  /** Alphabetic position of a code. */
  function Rank(c: Code): nat {
    match c
    case ALG_UNSUPPORTED => 0 case AUDIENCE_MISMATCH => 1 case DELEGATOR_MISMATCH => 2 case EXPIRED => 3
    case EXPIRY_EXCEEDS_PARENT => 4 case MISSING_FIELD => 5 case MULTIHOP_DENIED => 6 case PARENT_EXPIRED => 7
    case PARENT_HASH_MISMATCH => 8 case POLICY_ID_MISMATCH => 9 case POLICY_MISMATCH => 10 case REPLAY => 11
    case SCOPE_VIOLATION => 12 case TRUST_MISSING => 13
  }

  /** The code without its `DELEGATION_` in front. */
  function CodeText(c: Code): string {
    match c
    case ALG_UNSUPPORTED => "ALG_UNSUPPORTED" case AUDIENCE_MISMATCH => "AUDIENCE_MISMATCH"
    case DELEGATOR_MISMATCH => "DELEGATOR_MISMATCH" case EXPIRED => "EXPIRED"
    case EXPIRY_EXCEEDS_PARENT => "EXPIRY_EXCEEDS_PARENT" case MISSING_FIELD => "MISSING_FIELD"
    case MULTIHOP_DENIED => "MULTIHOP_DENIED" case PARENT_EXPIRED => "PARENT_EXPIRED"
    case PARENT_HASH_MISMATCH => "PARENT_HASH_MISMATCH" case POLICY_ID_MISMATCH => "POLICY_ID_MISMATCH"
    case POLICY_MISMATCH => "POLICY_MISMATCH" case REPLAY => "REPLAY"
    case SCOPE_VIOLATION => "SCOPE_VIOLATION" case TRUST_MISSING => "TRUST_MISSING"
  }

  ghost predicate TextBefore(c: Code, d: Code) {
    Utf8Order.Less(Utf8Order.CodePoints(CodeText(c)), Utf8Order.CodePoints(CodeText(d)))
  }

  /** The order of the codes is the order of their texts. */
  lemma RankIsAlphabetical(c: Code, d: Code)
    ensures Rank(c) < Rank(d) <==> TextBefore(c, d)
  {
    hide CodeText, TextBefore;
    if Rank(c) < Rank(d) {
      Alphabetical(c, d);
    } else if c == d {
      NotBeforeItself(c);
    } else {
      RankDistinct(c, d);
      Alphabetical(d, c);
      NotBothBefore(c, d);
    }
  }

  lemma NotBeforeItself(c: Code)
    ensures !TextBefore(c, c)
  {
    Utf8Order.LessIrreflexive(Utf8Order.CodePoints(CodeText(c)));
  }

  lemma NotBothBefore(c: Code, d: Code)
    requires TextBefore(d, c)
    ensures !TextBefore(c, d)
  {
    Utf8Order.LessAsymmetric(Utf8Order.CodePoints(CodeText(d)), Utf8Order.CodePoints(CodeText(c)));
  }

  lemma {:induction false} Alphabetical(c: Code, d: Code)
    requires Rank(c) < Rank(d)
    ensures TextBefore(c, d)
    decreases Rank(d)
  {
    hide CodeText, TextBefore;
    var e := Previous(d);
    PreviousText(d);
    if e != c {
      RankDistinct(c, e);
      Alphabetical(c, e);
      TextTransitive(c, e, d);
    }
  }

  lemma TextTransitive(c: Code, e: Code, d: Code)
    requires TextBefore(c, e) && TextBefore(e, d)
    ensures TextBefore(c, d)
  {
    hide CodeText, Utf8Order.Less, Utf8Order.CodePoints;
    Utf8Order.LessTransitive(
      Utf8Order.CodePoints(CodeText(c)), Utf8Order.CodePoints(CodeText(e)), Utf8Order.CodePoints(CodeText(d)));
  }

  lemma RankDistinct(c: Code, d: Code)
    requires c != d
    ensures Rank(c) != Rank(d)
  {
  }

  /** The code just before. */
  function Previous(d: Code): (c: Code)
    requires d != ALG_UNSUPPORTED
    ensures Rank(c) == Rank(d) - 1
  {
    match d
    case AUDIENCE_MISMATCH => ALG_UNSUPPORTED case DELEGATOR_MISMATCH => AUDIENCE_MISMATCH
    case EXPIRED => DELEGATOR_MISMATCH case EXPIRY_EXCEEDS_PARENT => EXPIRED
    case MISSING_FIELD => EXPIRY_EXCEEDS_PARENT case MULTIHOP_DENIED => MISSING_FIELD
    case PARENT_EXPIRED => MULTIHOP_DENIED case PARENT_HASH_MISMATCH => PARENT_EXPIRED
    case POLICY_ID_MISMATCH => PARENT_HASH_MISMATCH case POLICY_MISMATCH => POLICY_ID_MISMATCH
    case REPLAY => POLICY_MISMATCH case SCOPE_VIOLATION => REPLAY case TRUST_MISSING => SCOPE_VIOLATION
  }

  lemma PreviousText(d: Code)
    requires d != ALG_UNSUPPORTED
    ensures TextBefore(Previous(d), d)
  {
    hide TextBefore, CodeText;
    match d
    case AUDIENCE_MISMATCH => FromOne();
    case MULTIHOP_DENIED => FromOne();
    case POLICY_ID_MISMATCH => FromOne();
    case EXPIRY_EXCEEDS_PARENT => FromFive();
    case PARENT_HASH_MISMATCH => FromSeven();
    case POLICY_MISMATCH => FromSeven();
    case _ => FromZero(d);
  }

  lemma FromZero(d: Code)
    requires d.DELEGATOR_MISMATCH? || d.EXPIRED? || d.MISSING_FIELD? || d.PARENT_EXPIRED? || d.REPLAY?
             || d.SCOPE_VIOLATION? || d.TRUST_MISSING?
    ensures TextBefore(Previous(d), d)
  {
    hide TextBefore;
    DifferAt(Previous(d), d, 0);
  }

  lemma FromOne()
    ensures TextBefore(ALG_UNSUPPORTED, AUDIENCE_MISMATCH)
    ensures TextBefore(MISSING_FIELD, MULTIHOP_DENIED)
    ensures TextBefore(PARENT_HASH_MISMATCH, POLICY_ID_MISMATCH)
  {
    hide TextBefore;
    DifferAt(ALG_UNSUPPORTED, AUDIENCE_MISMATCH, 1);
    DifferAt(MISSING_FIELD, MULTIHOP_DENIED, 1);
    DifferAt(PARENT_HASH_MISMATCH, POLICY_ID_MISMATCH, 1);
  }

  lemma FromFive()
    ensures TextBefore(EXPIRED, EXPIRY_EXCEEDS_PARENT)
  {
    hide TextBefore;
    DifferAt(EXPIRED, EXPIRY_EXCEEDS_PARENT, 5);
  }

  lemma FromSeven()
    ensures TextBefore(PARENT_EXPIRED, PARENT_HASH_MISMATCH)
    ensures TextBefore(POLICY_ID_MISMATCH, POLICY_MISMATCH)
  {
    hide TextBefore;
    DifferAt(PARENT_EXPIRED, PARENT_HASH_MISMATCH, 7);
    DifferAt(POLICY_ID_MISMATCH, POLICY_MISMATCH, 7);
  }

  lemma DifferAt(c: Code, d: Code, k: nat)
    requires k < |CodeText(c)| && k < |CodeText(d)|
    requires CodeText(c)[..k] == CodeText(d)[..k] && CodeText(c)[k] < CodeText(d)[k]
    ensures TextBefore(c, d)
  {
    hide CodeText;
    var a, b := Utf8Order.CodePoints(CodeText(c)), Utf8Order.CodePoints(CodeText(d));
    assert a[..k] == b[..k] by {
      forall i | 0 <= i < k ensures a[i] == b[i] { assert CodeText(c)[..k][i] == CodeText(d)[..k][i]; }
    }
    Utf8Order.LessAtDifference(a, b, k);
  }

  /** `ok` when there is no violation. */
  type Violations = seq<Code>

  ghost predicate InOrder(vs: Violations) {
    forall i, j :: 0 <= i <= j < |vs| ==> Rank(vs[i]) <= Rank(vs[j])
  }

  // ------------------------------------------------------------ scope narrowing

  predicate ToolsWithin(child: Scope, parent: Scope) {
    child.tools.Some? && parent.tools.Some? ==>
      forall t :: t in child.tools.value ==> t in parent.tools.value
  }

  predicate AtMost(child: Option<int>, parent: Option<int>) {
    child.Some? && parent.Some? ==> child.value <= parent.value
  }

  /** No wider on any dimension both declare. */
  predicate NoWider(child: Scope, parent: Scope) {
    && ToolsWithin(child, parent) && AtMost(child.maxAmount, parent.maxAmount)
    && AtMost(child.maxActions, parent.maxActions) && AtMost(child.maxDepth, parent.maxDepth)
  }

  function Bit(b: bool): nat {
    if b then 1 else 0
  }

  /** On how many dimensions the child is wider. */
  function WiderDimensions(child: Scope, parent: Scope): nat {
    Bit(!ToolsWithin(child, parent)) + Bit(!AtMost(child.maxAmount, parent.maxAmount))
    + Bit(!AtMost(child.maxActions, parent.maxActions)) + Bit(!AtMost(child.maxDepth, parent.maxDepth))
  }

  /** One violation for each dimension the child widens. */
  method CheckScopeNarrowing(child: Scope, parent: Scope) returns (violations: Violations)
    ensures violations == [] <==> NoWider(child, parent)
    ensures |violations| == WiderDimensions(child, parent)
    ensures forall v :: v in violations ==> v == SCOPE_VIOLATION
  {
    violations := [];
    if child.tools.Some? && parent.tools.Some? {
      var extra: seq<string> := [];
      for i := 0 to |child.tools.value|
        invariant extra == [] <==> forall k :: 0 <= k < i ==> child.tools.value[k] in parent.tools.value
      {
        if child.tools.value[i] !in parent.tools.value { extra := extra + [child.tools.value[i]]; }
      }
      if extra != [] { violations := violations + [SCOPE_VIOLATION]; }
    }
    if child.maxAmount.Some? && parent.maxAmount.Some? && child.maxAmount.value > parent.maxAmount.value {
      violations := violations + [SCOPE_VIOLATION];
    }
    if child.maxActions.Some? && parent.maxActions.Some? && child.maxActions.value > parent.maxActions.value {
      violations := violations + [SCOPE_VIOLATION];
    }
    if child.maxDepth.Some? && parent.maxDepth.Some? && child.maxDepth.value > parent.maxDepth.value {
      violations := violations + [SCOPE_VIOLATION];
    }
  }

  // -------------------------------------------------------- one delegation alone

  const REQUIRED: seq<string> :=
    ["delegation_id", "issuer", "audience", "parent_auth_hash", "delegator", "delegatee", "policy_id",
     "alg", "kid", "signature"]

  predicate IsNonEmptyString(v: PyVal) {
    v.PStr? && v.s != ""
  }

  /** A present, non-empty string under that name. */
  predicate Named(d: Dict, name: string) {
    name in d && d[name].PStr? && d[name].s != ""
  }

  predicate Dated(d: Dict, name: string) {
    name in d && (d[name].PInt? || d[name].PBool?)
  }

  /** The fields a delegation must have, name by name. */
  lemma FieldsPresentIff(d: Dict)
    ensures FieldsPresent(d) <==>
      && Named(d, "delegation_id") && Named(d, "issuer") && Named(d, "audience") && Named(d, "parent_auth_hash")
      && Named(d, "delegator") && Named(d, "delegatee") && Named(d, "policy_id") && Named(d, "alg")
      && Named(d, "kid") && Named(d, "signature") && Dated(d, "issued_at") && Dated(d, "expiry")
  {
    hide Named, IsNonEmptyString, Lookup;
    RequiredAt();
    forall f ensures IsNonEmptyString(Lookup(d, f)) <==> Named(d, f) { Present(d, f); }
    DatedIff(d, "issued_at");
    DatedIff(d, "expiry");
    assert (forall f :: f in REQUIRED ==> IsNonEmptyString(Lookup(d, f)))
      <==> forall k :: 0 <= k < 10 ==> Named(d, REQUIRED[k]);
  }

  lemma Present(d: Dict, f: string)
    ensures IsNonEmptyString(Lookup(d, f)) <==> Named(d, f)
  {
  }

  lemma DatedIff(d: Dict, f: string)
    ensures IsInt(Lookup(d, f)) <==> Dated(d, f)
  {
  }

  lemma RequiredAt()
    ensures |REQUIRED| == 10
    ensures REQUIRED[0] == "delegation_id" && REQUIRED[1] == "issuer" && REQUIRED[2] == "audience"
    ensures REQUIRED[3] == "parent_auth_hash" && REQUIRED[4] == "delegator" && REQUIRED[5] == "delegatee"
    ensures REQUIRED[6] == "policy_id" && REQUIRED[7] == "alg" && REQUIRED[8] == "kid" && REQUIRED[9] == "signature"
  {
  }

  /** How many of the first `n` required strings are missing or empty. */
  function Blank(d: Dict, n: nat): nat
    requires n <= |REQUIRED|
  {
    if n == 0 then 0 else Blank(d, n - 1) + Bit(!IsNonEmptyString(Lookup(d, REQUIRED[n - 1])))
  }

  function MissingCount(d: Dict): nat {
    Blank(d, |REQUIRED|) + Bit(!IsInt(Lookup(d, "issued_at"))) + Bit(!IsInt(Lookup(d, "expiry")))
  }

  predicate FieldsPresent(d: Dict) {
    && (forall f :: f in REQUIRED ==> IsNonEmptyString(Lookup(d, f)))
    && IsInt(Lookup(d, "issued_at")) && IsInt(Lookup(d, "expiry"))
  }

  predicate Consumed(id: PyVal, consumed: seq<PyVal>) {
    exists c :: c in consumed && PyEqual(id, c)
  }

  /** Everything `op_verify_delegation` asks of a delegation with scope `scope`. */
  predicate Acceptable(d: Dict, scope: Scope, opts: Options) {
    && FieldsPresent(d)
    && Lookup(d, "alg") == PStr("Ed25519")
    && opts.now < AsInt(Lookup(d, "expiry"))
    && (opts.expectedDelegatee.Some? ==> PyEqual(Lookup(d, "delegatee"), opts.expectedDelegatee.value))
    && (opts.expectedPolicyId.Some? ==> PyEqual(Lookup(d, "policy_id"), opts.expectedPolicyId.value))
    && !Consumed(Lookup(d, "delegation_id"), opts.consumedDelegationIds)
    && (opts.parentScope.Some? ==> NoWider(scope, opts.parentScope.value))
    && (opts.requireSignatureVerification ==> opts.hasTrustedKeySets)
  }

  function InsertCode(c: Code, vs: Violations): Violations {
    if vs == [] || Rank(c) <= Rank(vs[0]) then [c] + vs else [vs[0]] + InsertCode(c, vs[1..])
  }

  /** `violations.sort(key=code)`. */
  function SortByCode(vs: Violations): Violations {
    if vs == [] then [] else InsertCode(vs[0], SortByCode(vs[1..]))
  }

  lemma Tail(vs: Violations)
    requires InOrder(vs) && vs != []
    ensures InOrder(vs[1..]) && multiset(vs) == multiset{vs[0]} + multiset(vs[1..])
    ensures forall v :: v in vs[1..] ==> Rank(vs[0]) <= Rank(v)
  {
    hide Rank;
    assert vs == [vs[0]] + vs[1..];
  }

  lemma Prepend(c: Code, vs: Violations)
    requires InOrder(vs) && forall v :: v in multiset(vs) ==> Rank(c) <= Rank(v)
    ensures InOrder([c] + vs) && multiset([c] + vs) == multiset{c} + multiset(vs)
  {
    hide Rank;
    forall k | 0 <= k < |vs| ensures Rank(c) <= Rank(vs[k]) { assert vs[k] in multiset(vs); }
  }

  lemma {:induction false} InsertCodeSorts(c: Code, vs: Violations)
    requires InOrder(vs)
    ensures InOrder(InsertCode(c, vs)) && multiset(InsertCode(c, vs)) == multiset{c} + multiset(vs)
  {
    hide Rank, InOrder;
    if vs != [] {
      Tail(vs);
      if Rank(c) <= Rank(vs[0]) {
        Prepend(c, vs);
      } else {
        InsertCodeSorts(c, vs[1..]);
        Prepend(vs[0], InsertCode(c, vs[1..]));
      }
    } else {
      Prepend(c, vs);
    }
  }

  lemma {:induction false} SortByCodeSorts(vs: Violations)
    ensures InOrder(SortByCode(vs)) && multiset(SortByCode(vs)) == multiset(vs)
  {
    if vs != [] {
      SortByCodeSorts(vs[1..]);
      InsertCodeSorts(vs[0], SortByCode(vs[1..]));
      assert vs == [vs[0]] + vs[1..];
    }
  }

  /** What each code in the verdict says about the delegation. */
  ghost predicate CodeHolds(d: Dict, scope: Scope, opts: Options, c: Code) {
    match c
    case MISSING_FIELD => !FieldsPresent(d)
    case ALG_UNSUPPORTED => Lookup(d, "alg") != PStr("Ed25519")
    case EXPIRED => IsInt(Lookup(d, "expiry")) && AsInt(Lookup(d, "expiry")) <= opts.now
    case AUDIENCE_MISMATCH =>
      opts.expectedDelegatee.Some? && !PyEqual(Lookup(d, "delegatee"), opts.expectedDelegatee.value)
    case POLICY_MISMATCH =>
      opts.expectedPolicyId.Some? && !PyEqual(Lookup(d, "policy_id"), opts.expectedPolicyId.value)
    case REPLAY => Consumed(Lookup(d, "delegation_id"), opts.consumedDelegationIds)
    case SCOPE_VIOLATION => opts.parentScope.Some? && !NoWider(scope, opts.parentScope.value)
    case TRUST_MISSING => opts.requireSignatureVerification && !opts.hasTrustedKeySets
    case _ => false
  }

  /**
   * How often each code must occur in the verdict: missing fields hide every
   * other check, a scope violation counts once for each widened dimension.
   */
  ghost function Owed(d: Dict, scope: Scope, opts: Options, c: Code): nat {
    if !FieldsPresent(d) then (if c == MISSING_FIELD then MissingCount(d) else 0)
    else if c == SCOPE_VIOLATION then
      (if opts.parentScope.Some? then WiderDimensions(scope, opts.parentScope.value) else 0)
    else Bit(CodeHolds(d, scope, opts, c))
  }

  /** Exactly the codes owed, sorted; no other sequence is a verdict. */
  ghost predicate IsVerdict(d: Dict, scope: Scope, opts: Options, violations: Violations) {
    InOrder(violations) && forall c :: multiset(violations)[c] == Owed(d, scope, opts, c)
  }

  /** The empty verdict is due exactly to acceptable delegations. */
  lemma VerdictDecides(d: Dict, scope: Scope, opts: Options, violations: Violations)
    requires IsVerdict(d, scope, opts, violations)
    ensures violations == [] <==> Acceptable(d, scope, opts)
    ensures forall c :: c in violations ==> CodeHolds(d, scope, opts, c)
  {
    hide Owed, Acceptable, CodeHolds;
    forall c ensures c in violations <==> Owed(d, scope, opts, c) > 0 {
      assert c in violations <==> c in multiset(violations);
    }
    forall c | c in violations ensures CodeHolds(d, scope, opts, c) { OwedHolds(d, scope, opts, c); }
    OwesNothing(d, scope, opts);
    if violations != [] { assert violations[0] in violations; }
  }

  lemma OwedHolds(d: Dict, scope: Scope, opts: Options, c: Code)
    requires Owed(d, scope, opts, c) > 0
    ensures CodeHolds(d, scope, opts, c)
  {
    MissingMeaning(d);
  }

  /** A delegation is acceptable when nothing is owed. */
  lemma OwesNothing(d: Dict, scope: Scope, opts: Options)
    ensures Acceptable(d, scope, opts) <==> forall c :: Owed(d, scope, opts, c) == 0
  {
    hide Acceptable, CodeHolds, FieldsPresent;
    MissingMeaning(d);
    AcceptableIff(d, scope, opts);
    if FieldsPresent(d) {
      forall c ensures Owed(d, scope, opts, c) == 0 <==> !CodeHolds(d, scope, opts, c) { OwedIff(d, scope, opts, c); }
      hide Owed;
    } else {
      assert Owed(d, scope, opts, MISSING_FIELD) > 0;
    }
  }

  /** A delegation is acceptable when it has its fields and no code applies. */
  lemma AcceptableIff(d: Dict, scope: Scope, opts: Options)
    ensures Acceptable(d, scope, opts) <==> FieldsPresent(d) && forall c :: !CodeHolds(d, scope, opts, c)
  {
    hide FieldsPresent, Consumed, NoWider, PyEqual, Lookup;
    if FieldsPresent(d) {
      RequiredStrings(d);
      if forall c :: !CodeHolds(d, scope, opts, c) {
        assert !CodeHolds(d, scope, opts, ALG_UNSUPPORTED) && !CodeHolds(d, scope, opts, EXPIRED);
        assert !CodeHolds(d, scope, opts, AUDIENCE_MISMATCH) && !CodeHolds(d, scope, opts, POLICY_MISMATCH);
        assert !CodeHolds(d, scope, opts, REPLAY) && !CodeHolds(d, scope, opts, SCOPE_VIOLATION);
        assert !CodeHolds(d, scope, opts, TRUST_MISSING);
      }
    }
  }

  lemma MissingMeaning(d: Dict)
    ensures FieldsPresent(d) <==> MissingCount(d) == 0
  {
    BlankMeaning(d, |REQUIRED|);
  }

  lemma {:induction false} BlankMeaning(d: Dict, n: nat)
    requires n <= |REQUIRED|
    ensures Blank(d, n) == 0 <==> forall k :: 0 <= k < n ==> IsNonEmptyString(Lookup(d, REQUIRED[k]))
  {
    if n > 0 { BlankMeaning(d, n - 1); }
  }

  /** What a verdict on a delegation with all its fields says, in terms of the artifact alone. */
  ghost predicate Explains(d: Dict, scope: Scope, opts: Options, violations: Violations)
    requires FieldsPresent(d)
  {
    && MISSING_FIELD !in violations
    && (ALG_UNSUPPORTED in violations <==> Lookup(d, "alg") != PStr("Ed25519"))
    && (EXPIRED in violations <==> Normal(Lookup(d, "expiry")).n <= opts.now)
    && (AUDIENCE_MISMATCH in violations <==>
          opts.expectedDelegatee.Some? && Lookup(d, "delegatee") != opts.expectedDelegatee.value)
    && (POLICY_MISMATCH in violations <==>
          opts.expectedPolicyId.Some? && Lookup(d, "policy_id") != opts.expectedPolicyId.value)
    && (REPLAY in violations <==> Lookup(d, "delegation_id") in opts.consumedDelegationIds)
    && (SCOPE_VIOLATION in violations <==>
          opts.parentScope.Some? && !Within(Effective(scope, opts.parentScope.value), opts.parentScope.value))
    && (TRUST_MISSING in violations <==> opts.requireSignatureVerification && !opts.hasTrustedKeySets)
  }

  lemma VerdictExplains(d: Dict, scope: Scope, opts: Options, violations: Violations)
    requires FieldsPresent(d) && IsVerdict(d, scope, opts, violations)
    ensures Explains(d, scope, opts, violations)
  {
    hide FieldsPresent, CodeHolds, Within, Effective, Normal;
    forall c ensures c in violations <==> Owed(d, scope, opts, c) > 0 {
      assert c in violations <==> c in multiset(violations);
    }
    forall c ensures Owed(d, scope, opts, c) > 0 <==> CodeHolds(d, scope, opts, c) { OwedIff(d, scope, opts, c); }
    CodesExplained(d, scope, opts);
    hide Owed, IsVerdict;
  }

  lemma OwedIff(d: Dict, scope: Scope, opts: Options, c: Code)
    requires FieldsPresent(d)
    ensures Owed(d, scope, opts, c) > 0 <==> CodeHolds(d, scope, opts, c)
  {
    hide FieldsPresent, NoWider;
    if opts.parentScope.Some? { WidenedIff(scope, opts.parentScope.value); }
  }

  /** What the codes of a delegation with all its fields mean, in terms of the artifact alone. */
  lemma CodesExplained(d: Dict, scope: Scope, opts: Options)
    requires FieldsPresent(d)
    ensures !CodeHolds(d, scope, opts, MISSING_FIELD)
    ensures CodeHolds(d, scope, opts, ALG_UNSUPPORTED) <==> Lookup(d, "alg") != PStr("Ed25519")
    ensures CodeHolds(d, scope, opts, EXPIRED) <==> Normal(Lookup(d, "expiry")).n <= opts.now
    ensures CodeHolds(d, scope, opts, AUDIENCE_MISMATCH) <==>
              opts.expectedDelegatee.Some? && Lookup(d, "delegatee") != opts.expectedDelegatee.value
    ensures CodeHolds(d, scope, opts, POLICY_MISMATCH) <==>
              opts.expectedPolicyId.Some? && Lookup(d, "policy_id") != opts.expectedPolicyId.value
    ensures CodeHolds(d, scope, opts, REPLAY) <==> Lookup(d, "delegation_id") in opts.consumedDelegationIds
    ensures CodeHolds(d, scope, opts, SCOPE_VIOLATION) <==>
              opts.parentScope.Some? && !Within(Effective(scope, opts.parentScope.value), opts.parentScope.value)
    ensures CodeHolds(d, scope, opts, TRUST_MISSING) <==> opts.requireSignatureVerification && !opts.hasTrustedKeySets
  {
    hide FieldsPresent, NoWider, Within, Effective, Lookup;
    RequiredStrings(d);
    if opts.parentScope.Some? { EffectivelyWithin(scope, opts.parentScope.value); }
  }

  lemma WidenedIff(child: Scope, parent: Scope)
    ensures WiderDimensions(child, parent) == 0 <==> NoWider(child, parent)
  {
  }

  /** A sorted sequence is determined by how often each code occurs in it. */
  lemma {:induction false} VerdictUnique(d: Dict, scope: Scope, opts: Options, a: Violations, b: Violations)
    requires IsVerdict(d, scope, opts, a) && IsVerdict(d, scope, opts, b)
    ensures a == b
  {
    forall c ensures multiset(a)[c] == multiset(b)[c] {
      assert multiset(a)[c] == Owed(d, scope, opts, c) == multiset(b)[c];
    }
    assert multiset(a) == multiset(b);
    SortedUnique(a, b);
  }

  lemma {:induction false} SortedUnique(a: Violations, b: Violations)
    requires InOrder(a) && InOrder(b) && multiset(a) == multiset(b)
    ensures a == b
  {
    hide Rank, InOrder;
    assert |multiset(a)| == |a| && |multiset(b)| == |b|;
    if a != [] {
      SameFirst(a, b);
      Tail(a);
      Tail(b);
      assert multiset(a[1..]) == multiset(a) - multiset{a[0]};
      assert multiset(b[1..]) == multiset(b) - multiset{b[0]};
      SortedUnique(a[1..], b[1..]);
      assert a == [a[0]] + a[1..] && b == [b[0]] + b[1..];
    }
  }

  lemma SameFirst(a: Violations, b: Violations)
    requires InOrder(a) && InOrder(b) && multiset(a) == multiset(b) && a != [] && b != []
    ensures a[0] == b[0]
  {
    hide Rank;
    assert a[0] in multiset(b) && b[0] in multiset(a);
    var i :| 0 <= i < |b| && b[i] == a[0];
    var j :| 0 <= j < |a| && a[j] == b[0];
    assert Rank(a[0]) <= Rank(a[j]) && Rank(b[0]) <= Rank(b[i]);
    RankInjective(a[0], b[0]);
  }

  lemma RankInjective(c: Code, d: Code)
    requires Rank(c) == Rank(d)
    ensures c == d
  {
  }

  method VerifyDelegation(d: Dict, scope: Scope, opts: Options) returns (violations: Violations)
    ensures IsVerdict(d, scope, opts, violations)
    ensures violations == [] <==> Acceptable(d, scope, opts)
    ensures forall c :: c in violations ==> CodeHolds(d, scope, opts, c)
    ensures FieldsPresent(d) ==> Explains(d, scope, opts, violations)
    ensures FieldsPresent(d) ==> (REPLAY in violations <==> Lookup(d, "delegation_id") in opts.consumedDelegationIds)
  {
    hide Acceptable, CodeHolds, FieldsPresent, MissingCount, SortByCode;
    violations := MissingFields(d);
    if violations == [] {
      violations := CheckFields(d, scope, opts);
    }
    SortByCodeSorts(violations);
    violations := SortByCode(violations);
    VerdictDecides(d, scope, opts, violations);
    if FieldsPresent(d) { VerdictExplains(d, scope, opts, violations); }
  }

  method AppendIf(vs: Violations, condition: bool, c: Code) returns (out: Violations)
    ensures forall d :: multiset(out)[d] == multiset(vs)[d] + Bit(condition && d == c)
  {
    out := if condition then vs + [c] else vs;
  }

  method AddScopeViolations(vs: Violations, scope: Scope, parentScope: Option<Scope>) returns (out: Violations)
    ensures forall d :: multiset(out)[d] == multiset(vs)[d] +
              if parentScope.Some? && d == SCOPE_VIOLATION then WiderDimensions(scope, parentScope.value) else 0
  {
    hide NoWider, WiderDimensions;
    out := vs;
    if parentScope.Some? {
      var wider := CheckScopeNarrowing(scope, parentScope.value);
      AllSame(wider, SCOPE_VIOLATION);
      out := vs + wider;
    }
  }

  lemma {:induction false} AllSame(vs: Violations, c: Code)
    requires forall v :: v in vs ==> v == c
    ensures forall d :: multiset(vs)[d] == if d == c then |vs| else 0
  {
    if vs != [] {
      assert vs == [vs[0]] + vs[1..] && vs[0] in vs;
      forall v | v in vs[1..] ensures v == c { assert v in vs; }
      AllSame(vs[1..], c);
    }
  }

  predicate IsClaimCode(c: Code) {
    c.ALG_UNSUPPORTED? || c.EXPIRED? || c.AUDIENCE_MISMATCH? || c.POLICY_MISMATCH?
  }

  lemma ClaimConditions(d: Dict, scope: Scope, opts: Options)
    ensures CodeHolds(d, scope, opts, ALG_UNSUPPORTED) <==> Lookup(d, "alg") != PStr("Ed25519")
    ensures CodeHolds(d, scope, opts, EXPIRED) <==>
              IsInt(Lookup(d, "expiry")) && opts.now >= AsInt(Lookup(d, "expiry"))
    ensures CodeHolds(d, scope, opts, AUDIENCE_MISMATCH) <==>
              opts.expectedDelegatee.Some? && !PyEqual(Lookup(d, "delegatee"), opts.expectedDelegatee.value)
    ensures CodeHolds(d, scope, opts, POLICY_MISMATCH) <==>
              opts.expectedPolicyId.Some? && !PyEqual(Lookup(d, "policy_id"), opts.expectedPolicyId.value)
  {
  }

  /** The algorithm, expiry, delegatee and policy checks. */
  method CheckClaims(d: Dict, scope: Scope, opts: Options) returns (violations: Violations)
    ensures forall c :: multiset(violations)[c] == Bit(IsClaimCode(c) && CodeHolds(d, scope, opts, c))
  {
    ClaimConditions(d, scope, opts);
    hide CodeHolds, PyEqual, Lookup;
    var expiry := Lookup(d, "expiry");
    violations := AppendIf([], Lookup(d, "alg") != PStr("Ed25519"), ALG_UNSUPPORTED);
    violations := AppendIf(violations, IsInt(expiry) && opts.now >= AsInt(expiry), EXPIRED);
    violations := AppendIf(violations,
      opts.expectedDelegatee.Some? && !PyEqual(Lookup(d, "delegatee"), opts.expectedDelegatee.value),
      AUDIENCE_MISMATCH);
    violations := AppendIf(violations,
      opts.expectedPolicyId.Some? && !PyEqual(Lookup(d, "policy_id"), opts.expectedPolicyId.value), POLICY_MISMATCH);
  }

  /** The checks made once every field is present. */
  method CheckFields(d: Dict, scope: Scope, opts: Options) returns (violations: Violations)
    requires FieldsPresent(d)
    ensures forall c :: multiset(violations)[c] == Owed(d, scope, opts, c)
  {
    hide FieldsPresent, Consumed, NoWider, WiderDimensions, PyEqual, Lookup;
    violations := CheckClaims(d, scope, opts);
    violations := AppendIf(violations, Consumed(Lookup(d, "delegation_id"), opts.consumedDelegationIds), REPLAY);
    violations := AddScopeViolations(violations, scope, opts.parentScope);
    violations := AppendIf(violations, opts.requireSignatureVerification && !opts.hasTrustedKeySets, TRUST_MISSING);
  }

  method MissingFields(d: Dict) returns (violations: Violations)
    ensures violations == [] <==> FieldsPresent(d)
    ensures forall c :: multiset(violations)[c] == if c == MISSING_FIELD then MissingCount(d) else 0
  {
    violations := [];
    for i := 0 to |REQUIRED|
      invariant forall c :: multiset(violations)[c] == if c == MISSING_FIELD then Blank(d, i) else 0
    {
      if !IsNonEmptyString(Lookup(d, REQUIRED[i])) { violations := violations + [MISSING_FIELD]; }
    }
    violations := AppendIf(violations, !IsInt(Lookup(d, "issued_at")), MISSING_FIELD);
    violations := AppendIf(violations, !IsInt(Lookup(d, "expiry")), MISSING_FIELD);
    BlankMeaning(d, |REQUIRED|);
    assert violations != [] ==> violations[0] in multiset(violations);
    assert multiset(violations)[MISSING_FIELD] == MissingCount(d);
  }

  // ----------------------------------------------------- a delegation of a parent

  /** What each code of the chain check says about the pair. */
  ghost predicate ChainFault(hash: Dict -> string, parent: Dict, d: Dict, opts: Options, c: Code) {
    var parentExpiry, expiry := Lookup(parent, "expiry"), Lookup(d, "expiry");
    match c
    case MULTIHOP_DENIED => "delegation_id" in parent
    case PARENT_HASH_MISMATCH => Lookup(d, "parent_auth_hash") != PStr(hash(parent))
    case PARENT_EXPIRED => IsInt(parentExpiry) && AsInt(parentExpiry) <= opts.now
    case DELEGATOR_MISMATCH => !PyEqual(Lookup(d, "delegator"), Lookup(parent, "audience"))
    case POLICY_ID_MISMATCH => !PyEqual(Lookup(d, "policy_id"), Lookup(parent, "policy_id"))
    case EXPIRY_EXCEEDS_PARENT => IsInt(expiry) && IsInt(parentExpiry) && AsInt(parentExpiry) < AsInt(expiry)
    case _ => false
  }

  /** The order in which the chain is checked. */
  function ChainRank(c: Code): nat {
    match c
    case MULTIHOP_DENIED => 0 case PARENT_HASH_MISMATCH => 1 case PARENT_EXPIRED => 2
    case DELEGATOR_MISMATCH => 3 case POLICY_ID_MISMATCH => 4 case EXPIRY_EXCEEDS_PARENT => 5
    case _ => 6
  }

  /** The first fault in that order. */
  ghost predicate FirstFault(hash: Dict -> string, parent: Dict, d: Dict, opts: Options, c: Code) {
    && ChainFault(hash, parent, d, opts, c)
    && forall e :: ChainFault(hash, parent, d, opts, e) && e != c ==> ChainRank(c) < ChainRank(e)
  }

  ghost predicate ChainSound(hash: Dict -> string, parent: Dict, d: Dict, opts: Options) {
    forall c :: !ChainFault(hash, parent, d, opts, c)
  }

  /** The structural checks of the chain, in their order; `None` when all pass. */
  function ChainCheck(hash: Dict -> string, parent: Dict, d: Dict, opts: Options): (r: Option<Code>)
    ensures r.None? ==> ChainSound(hash, parent, d, opts)
    ensures r.Some? ==> FirstFault(hash, parent, d, opts, r.value)
  {
    var parentExpiry, expiry := Lookup(parent, "expiry"), Lookup(d, "expiry");
    if "delegation_id" in parent then Some(MULTIHOP_DENIED)
    else if !PyEqual(Lookup(d, "parent_auth_hash"), PStr(hash(parent))) then Some(PARENT_HASH_MISMATCH)
    else if IsInt(parentExpiry) && opts.now >= AsInt(parentExpiry) then Some(PARENT_EXPIRED)
    else if !PyEqual(Lookup(d, "delegator"), Lookup(parent, "audience")) then Some(DELEGATOR_MISMATCH)
    else if !PyEqual(Lookup(d, "policy_id"), Lookup(parent, "policy_id")) then Some(POLICY_ID_MISMATCH)
    else if IsInt(expiry) && IsInt(parentExpiry) && AsInt(expiry) > AsInt(parentExpiry) then Some(EXPIRY_EXCEEDS_PARENT)
    else None
  }

  /** What an accepted chain is, all conditions together. */
  predicate Authorized(hash: Dict -> string, parent: Dict, d: Dict, scope: Scope, opts: Options) {
    && Acceptable(d, scope, opts)
    && "delegation_id" !in parent
    && Lookup(d, "parent_auth_hash") == PStr(hash(parent))
    && Lookup(d, "delegator") == Lookup(parent, "audience")
    && Lookup(d, "policy_id") == Lookup(parent, "policy_id")
    && (IsInt(Lookup(parent, "expiry")) ==>
          opts.now < AsInt(Lookup(d, "expiry")) <= AsInt(Lookup(parent, "expiry")))
  }

  /** The first fault of the chain alone, or else the whole verdict on the delegation. */
  ghost predicate IsChainVerdict(
    hash: Dict -> string, parent: Dict, d: Dict, scope: Scope, opts: Options, violations: Violations)
  {
    if ChainSound(hash, parent, d, opts) then IsVerdict(d, scope, opts, violations)
    else |violations| == 1 && FirstFault(hash, parent, d, opts, violations[0])
  }

  method VerifyDelegationChain(hash: Dict -> string, parent: Dict, d: Dict, scope: Scope, opts: Options)
    returns (violations: Violations)
    ensures IsChainVerdict(hash, parent, d, scope, opts, violations)
    ensures violations == [] <==> Authorized(hash, parent, d, scope, opts)
    ensures ChainSound(hash, parent, d, opts) && FieldsPresent(d) ==>
              && Explains(d, scope, opts, violations)
              && (REPLAY in violations <==> Lookup(d, "delegation_id") in opts.consumedDelegationIds)
  {
    hide Acceptable, IsVerdict, ChainFault, ChainCheck, FieldsPresent, Explains;
    var c := ChainCheck(hash, parent, d, opts);
    SoundAndAcceptable(hash, parent, d, scope, opts);
    if c.Some? { return [c.value]; }
    violations := VerifyDelegation(d, scope, opts);
  }

  /** Being authorized is having no fault in the chain and being acceptable alone. */
  lemma SoundAndAcceptable(hash: Dict -> string, parent: Dict, d: Dict, scope: Scope, opts: Options)
    ensures Authorized(hash, parent, d, scope, opts)
       <==> ChainSound(hash, parent, d, opts) && Acceptable(d, scope, opts)
  {
    RequiredStrings(d);
    if ChainSound(hash, parent, d, opts) {
      assert !ChainFault(hash, parent, d, opts, MULTIHOP_DENIED);
      assert !ChainFault(hash, parent, d, opts, PARENT_HASH_MISMATCH);
      assert !ChainFault(hash, parent, d, opts, PARENT_EXPIRED);
      assert !ChainFault(hash, parent, d, opts, DELEGATOR_MISMATCH);
      assert !ChainFault(hash, parent, d, opts, POLICY_ID_MISMATCH);
      assert !ChainFault(hash, parent, d, opts, EXPIRY_EXCEEDS_PARENT);
    }
  }

  lemma RequiredStrings(d: Dict)
    ensures FieldsPresent(d) ==>
              Lookup(d, "parent_auth_hash").PStr? && Lookup(d, "delegator").PStr? && Lookup(d, "policy_id").PStr?
              && Lookup(d, "delegatee").PStr? && Lookup(d, "delegation_id").PStr? && IsInt(Lookup(d, "expiry"))
  {
    FieldsPresentIff(d);
  }

  /** The verdict on a chain is empty exactly when it is authorized. */
  lemma ChainVerdictDecides(
    hash: Dict -> string, parent: Dict, d: Dict, scope: Scope, opts: Options, violations: Violations)
    requires IsChainVerdict(hash, parent, d, scope, opts, violations)
    ensures violations == [] <==> Authorized(hash, parent, d, scope, opts)
  {
    hide Acceptable, Authorized, IsVerdict, ChainSound;
    SoundAndAcceptable(hash, parent, d, scope, opts);
    if ChainSound(hash, parent, d, opts) { VerdictDecides(d, scope, opts, violations); }
  }

  /**
   * A delegation on which the chain check reports nothing never outlives a parent
   * with an integer expiry, is bound to it, and grants no more than the parent scope given.
   */
  lemma NeverWidensParent(
    hash: Dict -> string, parent: Dict, d: Dict, scope: Scope, opts: Options, violations: Violations)
    requires IsChainVerdict(hash, parent, d, scope, opts, violations) && violations == []
    ensures IsInt(Lookup(d, "expiry")) && opts.now < AsInt(Lookup(d, "expiry"))
    ensures IsInt(Lookup(parent, "expiry")) ==> AsInt(Lookup(d, "expiry")) <= AsInt(Lookup(parent, "expiry"))
    ensures "delegator" in d && "audience" in parent && d["delegator"] == parent["audience"]
    ensures "policy_id" in d && "policy_id" in parent && d["policy_id"] == parent["policy_id"]
    ensures "parent_auth_hash" in d && d["parent_auth_hash"] == PStr(hash(parent))
    ensures opts.parentScope.Some? ==> Within(Effective(scope, opts.parentScope.value), opts.parentScope.value)
  {
    ChainVerdictDecides(hash, parent, d, scope, opts, violations);
    RequiredStrings(d);
    if opts.parentScope.Some? { EffectivelyWithin(scope, opts.parentScope.value); }
  }

  /** What a delegation grants under a parent scope: a dimension it omits is inherited. */
  function Effective(child: Scope, parent: Scope): Scope {
    Scope(
      if child.tools.Some? then child.tools else parent.tools,
      if child.maxAmount.Some? then child.maxAmount else parent.maxAmount,
      if child.maxActions.Some? then child.maxActions else parent.maxActions,
      if child.maxDepth.Some? then child.maxDepth else parent.maxDepth)
  }

  predicate Limited(value: Option<int>, limit: Option<int>) {
    limit.Some? ==> value.Some? && value.value <= limit.value
  }

  /** Constrained at least as much on every dimension the parent declares. */
  predicate Within(scope: Scope, parent: Scope) {
    && (parent.tools.Some? ==>
          scope.tools.Some? && forall t :: t in scope.tools.value ==> t in parent.tools.value)
    && Limited(scope.maxAmount, parent.maxAmount) && Limited(scope.maxActions, parent.maxActions)
    && Limited(scope.maxDepth, parent.maxDepth)
  }

  /** Comparing only the dimensions both declare is comparing what is granted with the parent. */
  lemma EffectivelyWithin(child: Scope, parent: Scope)
    ensures NoWider(child, parent) <==> Within(Effective(child, parent), parent)
  {
  }

  predicate DeclaresNothing(s: Scope) {
    s.tools.None? && s.maxAmount.None? && s.maxActions.None? && s.maxDepth.None?
  }

  /**
   * The scope of an accepted delegation goes unchecked, so that any other scope is
   * accepted too, exactly when no parent scope is given or it declares nothing.
   */
  lemma ScopeUncheckedIff(hash: Dict -> string, parent: Dict, d: Dict, scope: Scope, opts: Options)
    requires Authorized(hash, parent, d, scope, opts)
    ensures (forall other :: Authorized(hash, parent, d, other, opts))
       <==> opts.parentScope.None? || DeclaresNothing(opts.parentScope.value)
  {
    if opts.parentScope.Some? && !DeclaresNothing(opts.parentScope.value) {
      var wider := WiderThan(opts.parentScope.value);
      assert !Authorized(hash, parent, d, wider, opts);
    }
  }

  /** A scope that declares anything can be exceeded. */
  lemma WiderThan(parent: Scope) returns (wider: Scope)
    requires !DeclaresNothing(parent)
    ensures !NoWider(wider, parent)
  {
    wider := Scope(
      if parent.tools.Some? then Some([LongerThanAll(parent.tools.value)]) else None,
      if parent.maxAmount.Some? then Some(parent.maxAmount.value + 1) else None,
      if parent.maxActions.Some? then Some(parent.maxActions.value + 1) else None,
      if parent.maxDepth.Some? then Some(parent.maxDepth.value + 1) else None);
    if parent.tools.Some? {
      assert wider.tools.value[0] in wider.tools.value && wider.tools.value[0] !in parent.tools.value;
    }
  }

  function LongerThanAll(tools: seq<string>): (t: string)
    ensures forall u :: u in tools ==> |u| < |t|
  {
    if tools == [] then "x" else LongerThanAll(tools[1..]) + tools[0] + "x"
  }

  /** A parent without an integer expiry sets no ceiling at all: any later expiry is accepted as well. */
  lemma NoCeilingWithoutExpiry(hash: Dict -> string, parent: Dict, d: Dict, scope: Scope, opts: Options, later: int)
    requires Authorized(hash, parent, d, scope, opts) && !IsInt(Lookup(parent, "expiry")) && later > opts.now
    ensures Authorized(hash, parent, d["expiry" := PInt(later)], scope, opts)
  {
    var e := d["expiry" := PInt(later)];
    forall f | f in REQUIRED ensures Lookup(e, f) == Lookup(d, f) {
      assert f != "expiry";
    }
    assert Lookup(e, "issued_at") == Lookup(d, "issued_at");
    RequiredNames();
  }

  lemma RequiredNames()
    ensures forall f :: f in ["delegation_id", "parent_auth_hash", "delegator", "delegatee", "policy_id", "alg"] ==>
              f in REQUIRED
  {
    assert REQUIRED[0] == "delegation_id" && REQUIRED[3] == "parent_auth_hash" && REQUIRED[4] == "delegator";
    assert REQUIRED[5] == "delegatee" && REQUIRED[6] == "policy_id" && REQUIRED[7] == "alg";
  }

  /** `a` was asked no later than `b`, and with no more ids consumed. */
  ghost predicate NoLater(a: Options, b: Options) {
    && a == b.(now := a.now, consumedDelegationIds := a.consumedDelegationIds)
    && a.now <= b.now && forall id :: id in a.consumedDelegationIds ==> id in b.consumedDelegationIds
  }

  /** Acceptance is closed under an earlier clock and fewer consumed ids. */
  lemma AcceptanceMonotone(hash: Dict -> string, parent: Dict, d: Dict, scope: Scope, a: Options, b: Options)
    requires NoLater(a, b) && Authorized(hash, parent, d, scope, b)
    ensures Authorized(hash, parent, d, scope, a)
  {
  }
}

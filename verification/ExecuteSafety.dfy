/** Safety of the execute protocol over every run: single use, and what a claim accounts for. */
module ExecuteSafety {
  import opened Outcome
  import opened ReplayStore
  import opened ExecuteProtocol

  // ------------------------------------------------------- claims and the keys

  /** The phases a request can be in after its claim took effect. */
  predicate Spent(p: Phase) {
    match p
    case Verified => false
    case Claiming(_, _) => false
    case Answered(a) => !a.Refused?
    case Executing => true
    case Done(Deny(reason)) => reason == ReplayStoreUnavailable
    case Done(_) => true
  }

  /** A claim belongs to a request that passed every earlier check when it was verified. */
  ghost predicate GrantOk(cfg: Config, s: Sys, g: Grant) {
    && g.rid in s.reqs && Spent(s.reqs[g.rid].phase)
    && g.authId == s.reqs[g.rid].req.auth.authId && g.expiry == s.reqs[g.rid].req.auth.expiry
    && g.verifiedAt == s.reqs[g.rid].seenAt && Precheck(s.reqs[g.rid].req, g.verifiedAt) == None
    && g.verifiedAt <= g.calledAt <= g.setAt <= s.clock
    && g.expiresAt == Expiration(cfg, g.setAt, StoreTtl(cfg, g.expiry, g.calledAt))
  }

  /** A request on its way to the store passed every check when it was verified. */
  ghost predicate PendingOk(cfg: Config, clock: nat, entry: Entry) {
    match entry.phase
    case Verified => Precheck(entry.req, entry.seenAt) == None && entry.seenAt <= clock
    case Claiming(called, ttl) =>
      && Precheck(entry.req, entry.seenAt) == None && entry.seenAt <= called <= clock
      && ttl == StoreTtl(cfg, entry.req.auth.expiry, called)
    case _ => true
  }

  /** The key of a claim is kept at least as long as the claim asked for. */
  ghost predicate Kept(cfg: Config, s: Sys, g: Grant) {
    var key := Key(cfg.ns, g.authId);
    && key in s.keys
    && (s.keys[key].None? || (g.expiresAt.Some? && g.expiresAt.value <= s.keys[key].value))
  }

  /** A later claim on the same id was possible only after the earlier one was dropped. */
  ghost predicate After(g: Grant, h: Grant) {
    g.authId == h.authId ==> g.expiresAt.Some? && g.expiresAt.value <= h.setAt
  }

  ghost predicate ClaimInv(cfg: Config, s: Sys) {
    && (forall g :: g in s.grants ==> GrantOk(cfg, s, g) && Kept(cfg, s, g))
    && (forall i, j :: 0 <= i < j < |s.grants| ==>
          After(s.grants[i], s.grants[j]) && s.grants[i].rid != s.grants[j].rid)
    && (forall rid :: rid in s.reqs ==> PendingOk(cfg, s.clock, s.reqs[rid]))
  }

  lemma ClaimStep(cfg: Config, s: Sys, e: Event)
    requires ClaimInv(cfg, s)
    ensures ClaimInv(cfg, Step(cfg, s, e))
  {
    hide Precheck, Key, StoreTtl, Expiration, Live, AfterSet;
    var t := Step(cfg, s, e);
    if e.Set? && t.grants != s.grants {
      ClaimSet(cfg, s, e);
    } else {
      assert t.grants == s.grants && t.keys == s.keys;
      forall g | g in t.grants ensures GrantOk(cfg, t, g) && Kept(cfg, t, g) {
        assert GrantOk(cfg, s, g) && Kept(cfg, s, g);
      }
    }
  }

  lemma ClaimSet(cfg: Config, s: Sys, e: Event)
    requires ClaimInv(cfg, s) && e.Set? && Step(cfg, s, e).grants != s.grants
    ensures ClaimInv(cfg, Step(cfg, s, e))
  {
    hide Precheck, Key;
    var t := Step(cfg, s, e);
    var g := t.grants[|s.grants|];
    var key := Key(cfg.ns, g.authId);
    assert t.grants == s.grants + [g];
    forall h | h in s.grants
      ensures GrantOk(cfg, t, h) && Kept(cfg, t, h) && After(h, g) && h.rid != g.rid
    {
      assert GrantOk(cfg, s, h) && Kept(cfg, s, h);
      if Key(cfg.ns, h.authId) == key { KeyInjective(cfg.ns, h.authId, g.authId); }
    }
  }

  lemma {:induction false} ClaimRun(cfg: Config, es: seq<Event>)
    ensures ClaimInv(cfg, Run(cfg, es))
  {
    if es != [] {
      ClaimRun(cfg, es[..|es| - 1]);
      ClaimStep(cfg, Run(cfg, es[..|es| - 1]), es[|es| - 1]);
    }
  }

  // -------------------------------------------- claims, calls and observations

  ghost function ToldRids(gs: seq<Grant>): set<Rid> {
    set g | g in gs && g.told :: g.rid
  }

  function ToldCount(gs: seq<Grant>): nat {
    if gs == [] then 0 else ToldCount(gs[..|gs| - 1]) + if gs[|gs| - 1].told then 1 else 0
  }

  ghost function WaitingIn(reqs: map<Rid, Entry>): set<Rid> {
    set rid | rid in reqs && reqs[rid].phase == Answered(Granted)
  }

  /** Requests whose claim was granted and that have not been resumed. */
  ghost function Waiting(s: Sys): set<Rid> {
    WaitingIn(s.reqs)
  }

  predicate Called(p: Phase) {
    p == Executing || p == Done(Allow(true)) || p == Done(UpstreamError)
  }

  predicate Observed(p: Phase) {
    p == Done(Allow(false))
  }

  ghost predicate Distinct(rids: seq<Rid>) {
    forall i, j :: 0 <= i < j < |rids| ==> rids[i] != rids[j]
  }

  /** The phase of a request tells exactly which logs it is in. */
  ghost predicate RidInv(s: Sys, rid: Rid) {
    && (rid in s.calls <==> rid in s.reqs && Called(s.reqs[rid].phase))
    && (rid in s.observed <==> rid in s.reqs && Observed(s.reqs[rid].phase))
    && (rid in ToldRids(s.grants) <==>
          rid in s.reqs && (var p := s.reqs[rid].phase; p == Answered(Granted) || Called(p) || Observed(p)))
  }

  /** No request is in a log twice, and only the configured mode's log is used. */
  ghost predicate LogInv(cfg: Config, s: Sys) {
    && Distinct(s.calls) && Distinct(s.observed)
    && (s.calls != [] ==> cfg.mode.Enforce?)
    && (s.observed != [] ==> cfg.mode.Observe?)
  }

  ghost predicate CountInv(s: Sys) {
    ToldCount(s.grants) == |s.calls| + |s.observed| + |Waiting(s)|
  }

  ghost predicate PhaseInv(cfg: Config, s: Sys) {
    (forall rid :: RidInv(s, rid)) && LogInv(cfg, s) && CountInv(s)
  }

  lemma ToldAppend(gs: seq<Grant>, g: Grant)
    ensures ToldRids(gs + [g]) == ToldRids(gs) + if g.told then {g.rid} else {}
    ensures ToldCount(gs + [g]) == ToldCount(gs) + if g.told then 1 else 0
  {
    assert (gs + [g])[..|gs|] == gs;
    forall rid ensures rid in ToldRids(gs + [g]) <==> rid in ToldRids(gs) + if g.told then {g.rid} else {} {
      if rid in ToldRids(gs) {
        var h :| h in gs && h.told && h.rid == rid;
        assert h in gs + [g];
      }
      if g.told && rid == g.rid { assert g in gs + [g]; }
    }
  }

  lemma RidStep(cfg: Config, s: Sys, e: Event, rid: Rid)
    requires RidInv(s, rid)
    ensures RidInv(Step(cfg, s, e), rid)
  {
    hide Precheck, StoreTtl, Expiration, Key, ToldRids, ToldCount, Live;
    var t := Step(cfg, s, e);
    if t.grants != s.grants {
      assert t.grants == s.grants + [t.grants[|s.grants|]];
      ToldAppend(s.grants, t.grants[|s.grants|]);
    }
  }

  lemma LogStep(cfg: Config, s: Sys, e: Event)
    requires LogInv(cfg, s) && (e.Resume? ==> RidInv(s, e.rid))
    ensures LogInv(cfg, Step(cfg, s, e))
  {
    hide Precheck, StoreTtl, Expiration, Key, ToldRids, ToldCount, Live;
  }

  ghost function Holds(s: Sys, rid: Rid): nat {
    if rid in s.reqs && s.reqs[rid].phase == Answered(Granted) then 1 else 0
  }

  /** How one request's new phase changes the number of granted claims not yet resumed. */
  lemma WaitingStep(s: Sys, t: Sys, rid: Rid)
    requires rid in t.reqs && t.reqs == s.reqs[rid := t.reqs[rid]]
    ensures |Waiting(t)| == |Waiting(s)| - Holds(s, rid) + Holds(t, rid)
  {
    WaitingSet(s.reqs, t.reqs, rid, t.reqs[rid]);
    var w, h := Waiting(s), Holds(s, rid);
    if h == 1 {
      assert |w - {rid}| == |w| - 1;
    } else {
      assert w - {rid} == w;
    }
    assert rid !in w - {rid};
  }

  lemma WaitingSet(before: map<Rid, Entry>, after: map<Rid, Entry>, rid: Rid, entry: Entry)
    requires after == before[rid := entry]
    ensures WaitingIn(after) == WaitingIn(before) - {rid} + if entry.phase == Answered(Granted) then {rid} else {}
  {
    forall r
      ensures r in WaitingIn(after)
         <==> r in WaitingIn(before) - {rid} + if entry.phase == Answered(Granted) then {rid} else {}
    {
      if r != rid { assert r in after <==> r in before; }
    }
  }

  lemma CountStep(cfg: Config, s: Sys, e: Event)
    requires CountInv(s)
    ensures CountInv(Step(cfg, s, e))
  {
    var t := Step(cfg, s, e);
    if e.Set? && t != s {
      CountSet(cfg, s, e);
    } else if !e.Tick? && t != s {
      hide Precheck, StoreTtl, ToldCount, Waiting;
      WaitingStep(s, t, e.rid);
    } else {
      assert Waiting(s) == Waiting(t);
    }
  }

  lemma CountSet(cfg: Config, s: Sys, e: Event)
    requires CountInv(s) && e.Set? && Step(cfg, s, e) != s
    ensures CountInv(Step(cfg, s, e))
  {
    hide Expiration, Key, Live, ToldCount, Waiting, ToldRids;
    var t := Step(cfg, s, e);
    WaitingStep(s, t, e.rid);
    if t.grants != s.grants {
      var g := t.grants[|s.grants|];
      assert t.grants == s.grants + [g];
      ToldAppend(s.grants, g);
    }
  }

  lemma PhaseStep(cfg: Config, s: Sys, e: Event)
    requires PhaseInv(cfg, s)
    ensures PhaseInv(cfg, Step(cfg, s, e))
  {
    hide RidInv, LogInv, CountInv, Step;
    forall rid ensures RidInv(Step(cfg, s, e), rid) { RidStep(cfg, s, e, rid); }
    if e.Resume? { assert RidInv(s, e.rid); }
    LogStep(cfg, s, e);
    CountStep(cfg, s, e);
  }

  lemma {:induction false} PhaseRun(cfg: Config, es: seq<Event>)
    ensures PhaseInv(cfg, Run(cfg, es))
  {
    if es == [] {
      assert Waiting(Initial) == {};
    } else {
      PhaseRun(cfg, es[..|es| - 1]);
      PhaseStep(cfg, Run(cfg, es[..|es| - 1]), es[|es| - 1]);
    }
  }

  // ------------------------------------------------------------------ theorems

  /** Every claim the handler learns of is one adapter call or one observe-mode ALLOW, or not yet resumed. */
  lemma ClaimsAccountedFor(cfg: Config, es: seq<Event>)
    ensures var s := Run(cfg, es);
            && ToldCount(s.grants) == |s.calls| + |s.observed| + |Waiting(s)|
            && (Waiting(s) == {} ==> ToldCount(s.grants) == |s.calls| + |s.observed|)
  {
    PhaseRun(cfg, es);
  }

  /** A claim that took effect unknown to the handler is that of a request to be denied for an unusable answer. */
  lemma UntoldClaims(cfg: Config, es: seq<Event>, g: Grant)
    requires g in Run(cfg, es).grants && !g.told
    ensures var s := Run(cfg, es);
            && g.rid in s.reqs
            && (s.reqs[g.rid].phase == Answered(Threw) || s.reqs[g.rid].phase == Answered(NotBoolean)
                || s.reqs[g.rid].phase == Done(Deny(ReplayStoreUnavailable)))
            && g.rid !in s.calls && g.rid !in s.observed
  {
    hide Run, Precheck, Kept, After, PendingOk;
    var s := Run(cfg, es);
    ClaimRun(cfg, es);
    PhaseRun(cfg, es);
    assert GrantOk(cfg, s, g) && RidInv(s, g.rid);
    if g.rid in ToldRids(s.grants) {
      var h :| h in s.grants && h.told && h.rid == g.rid;
      OneClaimEach(cfg, s, g, h);
    }
    UntoldPhase(s.reqs[g.rid].phase);
  }

  /** A request claims at most once. */
  lemma OneClaimEach(cfg: Config, s: Sys, g: Grant, h: Grant)
    requires ClaimInv(cfg, s) && g in s.grants && h in s.grants && g.rid == h.rid
    ensures g == h
  {
    hide GrantOk, Kept, After, PendingOk;
    var a :| 0 <= a < |s.grants| && s.grants[a] == g;
    var b :| 0 <= b < |s.grants| && s.grants[b] == h;
  }

  lemma UntoldPhase(p: Phase)
    requires Spent(p) && p != Answered(Granted) && !Called(p) && !Observed(p)
    ensures p == Answered(Threw) || p == Answered(NotBoolean) || p == Done(Deny(ReplayStoreUnavailable))
  {
    match p
    case Done(Deny(reason)) => assert reason == ReplayStoreUnavailable;
    case Done(Allow(true)) =>
    case Done(Allow(false)) =>
    case _ =>
  }

  function AuthOf(s: Sys, rid: Rid): Authorization
    requires rid in s.reqs
  {
    s.reqs[rid].req.auth
  }

  /** What steps 1 to 5 establish of a request verified at time `at`. */
  predicate Passed(req: Request, at: nat) {
    && req.parsed && req.tool == "frappe.helpdesk.create_ticket" && req.hash == Some(req.auth.intentHash)
    && req.auth.genuine && at < 1000 * req.auth.expiry
  }

  /** What a denial before the claim says about a request looked at at time `at`. */
  predicate Fails(req: Request, at: nat, reason: Reason) {
    match reason
    case InvalidRequest => !req.parsed
    case UnsupportedAction => req.tool != "frappe.helpdesk.create_ticket"
    case CanonicalizationFailed => req.hash.None?
    case AuthorizationInvalid => !req.auth.genuine || at >= 1000 * req.auth.expiry
    case IntentHashMismatch => req.hash != Some(req.auth.intentHash)
    case _ => false
  }

  /** The number of the step that gives the reason. */
  function StepOf(reason: Reason): nat {
    match reason
    case InvalidRequest => 1 case UnsupportedAction => 2 case CanonicalizationFailed => 3
    case AuthorizationInvalid => 4 case IntentHashMismatch => 5
    case ReplayStoreUnavailable => 6 case AuthReplay => 6
  }

  ghost predicate FirstFailure(req: Request, at: nat, reason: Reason) {
    Fails(req, at, reason) && forall r :: StepOf(r) < StepOf(reason) ==> !Fails(req, at, r)
  }

  lemma PrecheckMeaning(req: Request, now: nat)
    ensures Precheck(req, now).None? <==> Passed(req, now)
    ensures Precheck(req, now).Some? ==> FirstFailure(req, now, Precheck(req, now).value)
  {
  }

  ghost predicate DenialOk(s: Sys, rid: Rid) {
    rid in s.reqs && s.reqs[rid].phase.Done? && s.reqs[rid].phase.response.Deny? ==>
      var reason := s.reqs[rid].phase.response.reason;
      StepOf(reason) < 6 ==> FirstFailure(s.reqs[rid].req, s.reqs[rid].seenAt, reason)
  }

  lemma DenialStep(cfg: Config, s: Sys, e: Event, rid: Rid)
    requires DenialOk(s, rid)
    ensures DenialOk(Step(cfg, s, e), rid)
  {
    hide Precheck, FirstFailure, StoreTtl, Expiration, Key, Live, AfterSet;
    if e.Start? { PrecheckMeaning(e.req, s.clock); }
  }

  lemma {:induction false} DenialRun(cfg: Config, es: seq<Event>, rid: Rid)
    ensures DenialOk(Run(cfg, es), rid)
  {
    if es != [] {
      DenialRun(cfg, es[..|es| - 1], rid);
      DenialStep(cfg, Run(cfg, es[..|es| - 1]), es[|es| - 1], rid);
    }
  }

  /** `Start` records the clock, and nothing changes what it recorded. */
  lemma SeenAtStart(cfg: Config, s: Sys, e: Event, rid: Rid)
    requires rid in Step(cfg, s, e).reqs
    ensures var entry := Step(cfg, s, e).reqs[rid];
            if rid in s.reqs then entry.req == s.reqs[rid].req && entry.seenAt == s.reqs[rid].seenAt
            else e == Start(rid, entry.req) && entry.seenAt == s.clock
  {
    hide Precheck, StoreTtl, Expiration, Key, Live, AfterSet;
  }

  /** Every request was started by some event of the run, and was seen at the clock of that moment. */
  lemma {:induction false} StartedBy(cfg: Config, es: seq<Event>, rid: Rid) returns (k: nat)
    requires rid in Run(cfg, es).reqs
    ensures k < |es| && es[k] == Start(rid, Run(cfg, es).reqs[rid].req)
    ensures Run(cfg, es).reqs[rid].seenAt == Run(cfg, es[..k]).clock
  {
    var n := |es| - 1;
    SeenAtStart(cfg, Run(cfg, es[..n]), es[n], rid);
    if rid in Run(cfg, es[..n]).reqs {
      k := StartedBy(cfg, es[..n], rid);
      assert es[..n][..k] == es[..k];
    } else {
      k := n;
    }
  }

  /** A request denied before its claim failed the step named when it was started, and none before that one. */
  lemma DeniedForFirstFailure(cfg: Config, es: seq<Event>, rid: Rid, reason: Reason) returns (k: nat)
    requires var s := Run(cfg, es); rid in s.reqs && s.reqs[rid].phase == Done(Deny(reason))
    requires reason != ReplayStoreUnavailable && reason != AuthReplay
    ensures k < |es| && es[k] == Start(rid, Run(cfg, es).reqs[rid].req)
    ensures FirstFailure(es[k].req, Run(cfg, es[..k]).clock, reason)
  {
    hide Run, FirstFailure;
    DenialRun(cfg, es, rid);
    k := StartedBy(cfg, es, rid);
  }

  /** Whoever reaches the adapter claimed its own id first, after passing every check, in enforce mode. */
  lemma CallsAreClaimed(cfg: Config, es: seq<Event>, rid: Rid) returns (g: Grant)
    requires rid in Run(cfg, es).calls
    ensures var s := Run(cfg, es);
            && cfg.mode.Enforce? && rid in s.reqs
            && g in s.grants && g.told && g.rid == rid && g.authId == AuthOf(s, rid).authId
            && Passed(s.reqs[rid].req, g.verifiedAt) && g.verifiedAt <= g.setAt
  {
    var s := Run(cfg, es);
    PhaseRun(cfg, es);
    ClaimRun(cfg, es);
    assert RidInv(s, rid);
    g :| g in s.grants && g.told && g.rid == rid;
    assert GrantOk(cfg, s, g);
    PrecheckMeaning(s.reqs[rid].req, g.verifiedAt);
  }

  /** A request denied for anything but an unusable store answer has consumed nothing. */
  lemma DeniedConsumesNothing(cfg: Config, es: seq<Event>, rid: Rid, reason: Reason)
    requires var s := Run(cfg, es); rid in s.reqs && s.reqs[rid].phase == Done(Deny(reason))
    requires reason != ReplayStoreUnavailable
    ensures forall g :: g in Run(cfg, es).grants ==> g.rid != rid
    ensures rid !in Run(cfg, es).calls && rid !in Run(cfg, es).observed
  {
    var s := Run(cfg, es);
    ClaimRun(cfg, es);
    PhaseRun(cfg, es);
    assert RidInv(s, rid);
    forall g | g in s.grants ensures g.rid != rid {
      assert GrantOk(cfg, s, g);
    }
  }

  // ---------------------------------------------- a refusal has a reason

  /** The store holds no key that no claim put there, and only a claim's id is refused. */
  ghost predicate RefusalInv(cfg: Config, s: Sys) {
    && (forall key :: key in s.keys ==> exists g :: g in s.grants && Key(cfg.ns, g.authId) == key)
    && (forall rid :: rid in s.reqs && IsRefused(s.reqs[rid].phase) ==> Claimed(s, AuthOf(s, rid).authId))
  }

  predicate IsRefused(p: Phase) {
    p == Answered(Refused) || p == Done(Deny(AuthReplay))
  }

  ghost predicate Claimed(s: Sys, authId: string) {
    exists g :: g in s.grants && g.authId == authId
  }

  lemma RefusalStep(cfg: Config, s: Sys, e: Event)
    requires RefusalInv(cfg, s)
    ensures RefusalInv(cfg, Step(cfg, s, e))
  {
    hide Step;
    var t := Step(cfg, s, e);
    KeysGrow(cfg, s, e);
    forall key | key in t.keys ensures exists g :: g in t.grants && Key(cfg.ns, g.authId) == key {
      if key in s.keys {
        var g :| g in s.grants && Key(cfg.ns, g.authId) == key;
        assert g in t.grants;
      }
    }
    forall rid | rid in t.reqs && IsRefused(t.reqs[rid].phase) ensures Claimed(t, AuthOf(t, rid).authId) {
      NewlyRefused(cfg, s, e, rid);
      var g :| g in s.grants && Key(cfg.ns, g.authId) == Key(cfg.ns, AuthOf(t, rid).authId);
      KeyInjective(cfg.ns, g.authId, AuthOf(t, rid).authId);
      assert g in t.grants;
    }
  }

  /** A key appears in the store only with a claim, and claims are never forgotten. */
  lemma KeysGrow(cfg: Config, s: Sys, e: Event)
    ensures var t := Step(cfg, s, e);
            && s.grants <= t.grants
            && forall key :: key in t.keys && key !in s.keys ==>
                 exists g :: g in t.grants && Key(cfg.ns, g.authId) == key
  {
    hide Precheck, Key, StoreTtl, Expiration;
    var t := Step(cfg, s, e);
    if t.grants != s.grants { assert t.grants[|s.grants|] in t.grants; }
  }

  /** Whoever is refused found a claim on its id. */
  lemma NewlyRefused(cfg: Config, s: Sys, e: Event, rid: Rid)
    requires RefusalInv(cfg, s)
    requires var t := Step(cfg, s, e); rid in t.reqs && IsRefused(t.reqs[rid].phase)
    ensures exists g :: g in s.grants && Key(cfg.ns, g.authId) == Key(cfg.ns, AuthOf(Step(cfg, s, e), rid).authId)
  {
    hide Step, Key;
    FoundLive(cfg, s, e, rid);
    if IsRefused(s.reqs[rid].phase) { assert Claimed(s, AuthOf(s, rid).authId); }
  }

  lemma FoundLive(cfg: Config, s: Sys, e: Event, rid: Rid)
    requires var t := Step(cfg, s, e); rid in t.reqs && IsRefused(t.reqs[rid].phase)
    ensures rid in s.reqs && AuthOf(Step(cfg, s, e), rid) == AuthOf(s, rid)
    ensures IsRefused(s.reqs[rid].phase) || Key(cfg.ns, AuthOf(s, rid).authId) in s.keys
  {
    hide Key, StoreTtl, Expiration;
  }

  lemma {:induction false} RefusalRun(cfg: Config, es: seq<Event>)
    ensures RefusalInv(cfg, Run(cfg, es))
  {
    if es != [] {
      RefusalRun(cfg, es[..|es| - 1]);
      RefusalStep(cfg, Run(cfg, es[..|es| - 1]), es[|es| - 1]);
    }
  }

  /** Nobody is refused for nothing: a replay denial means another request had claimed the same id. */
  lemma RefusedMeansClaimed(cfg: Config, es: seq<Event>, rid: Rid) returns (g: Grant)
    requires var s := Run(cfg, es); rid in s.reqs && s.reqs[rid].phase == Done(Deny(AuthReplay))
    ensures var s := Run(cfg, es);
            && g in s.grants && g.authId == AuthOf(s, rid).authId && g.rid != rid && g.rid in s.reqs
            && Passed(s.reqs[g.rid].req, g.verifiedAt)
  {
    hide Run, Precheck, Key, Kept, After, PendingOk;
    var s := Run(cfg, es);
    RefusalRun(cfg, es);
    ClaimRun(cfg, es);
    assert Claimed(s, AuthOf(s, rid).authId);
    g :| g in s.grants && g.authId == AuthOf(s, rid).authId;
    assert GrantOk(cfg, s, g);
    PrecheckMeaning(s.reqs[g.rid].req, g.verifiedAt);
  }

  /** No two adapter calls are for the same authorization id. */
  ghost predicate SingleUse(s: Sys) {
    && (forall rid :: rid in s.calls ==> rid in s.reqs)
    && forall i, j :: 0 <= i < j < |s.calls| ==> AuthOf(s, s.calls[i]).authId != AuthOf(s, s.calls[j]).authId
  }

  ghost predicate DistinctClaims(s: Sys) {
    forall i, j :: 0 <= i < j < |s.grants| ==> s.grants[i].authId != s.grants[j].authId
  }

  lemma DistinctClaimsSingleUse(cfg: Config, es: seq<Event>)
    requires DistinctClaims(Run(cfg, es))
    ensures SingleUse(Run(cfg, es))
  {
    var s := Run(cfg, es);
    PhaseRun(cfg, es);
    forall rid | rid in s.calls ensures rid in s.reqs { assert RidInv(s, rid); }
    forall i, j | 0 <= i < j < |s.calls|
      ensures AuthOf(s, s.calls[i]).authId != AuthOf(s, s.calls[j]).authId
    {
      var g := CallsAreClaimed(cfg, es, s.calls[i]);
      var h := CallsAreClaimed(cfg, es, s.calls[j]);
      var a :| 0 <= a < |s.grants| && s.grants[a] == g;
      var b :| 0 <= b < |s.grants| && s.grants[b] == h;
      assert s.calls[i] != s.calls[j];
      assert a != b;
    }
  }

  /** With a store that never forgets, single use holds over every interleaving. */
  lemma SingleUseMemory(cfg: Config, es: seq<Event>)
    requires cfg.store.Memory?
    ensures DistinctClaims(Run(cfg, es)) && SingleUse(Run(cfg, es))
  {
    hide Run, SingleUse, Kept, PendingOk;
    var s := Run(cfg, es);
    ClaimRun(cfg, es);
    forall i, j | 0 <= i < j < |s.grants| ensures s.grants[i].authId != s.grants[j].authId {
      assert GrantOk(cfg, s, s.grants[i]);
      assert After(s.grants[i], s.grants[j]);
    }
    DistinctClaimsSingleUse(cfg, es);
  }

  /**
   * The expiring store lets an id in again only to a request that reached it
   * more than the skew after it was verified, or whose authorization expires
   * later than the first one did.
   */
  lemma ReentryIsLate(cfg: Config, es: seq<Event>, i: nat, j: nat)
    requires cfg.store.Redis?
    requires var gs := Run(cfg, es).grants; i < j < |gs| && gs[i].authId == gs[j].authId
    ensures var gs := Run(cfg, es).grants;
            && gs[j].setAt >= 1000 * (gs[i].expiry + cfg.store.skew)
            && (gs[j].expiry <= gs[i].expiry ==> gs[j].setAt - gs[j].verifiedAt > 1000 * cfg.store.skew)
  {
    var s := Run(cfg, es);
    ClaimRun(cfg, es);
    var g, h := s.grants[i], s.grants[j];
    assert GrantOk(cfg, s, g) && GrantOk(cfg, s, h) && After(g, h);
    ClaimOutlivesExpiry(g.expiry, g.calledAt, cfg.store.skew, g.setAt);
  }

  /** Every claim reached the store within `delay` milliseconds of the time its request was verified at. */
  ghost predicate Prompt(s: Sys, delay: nat) {
    forall g :: g in s.grants ==> g.setAt - g.verifiedAt <= delay
  }

  /** No later claim on an id has an expiry more than `excess` seconds after that of an earlier one. */
  ghost predicate Aligned(s: Sys, excess: nat) {
    forall i, j :: 0 <= i < j < |s.grants| && s.grants[i].authId == s.grants[j].authId ==>
      s.grants[j].expiry <= s.grants[i].expiry + excess
  }

  /**
   * With the expiring store, single use holds in whatever order claims arrive, if
   * the delays and the differences of expiry under one id fit into the skew. With
   * one expiry for an id, that is when every claim arrives within the skew.
   */
  lemma SingleUseRedis(cfg: Config, es: seq<Event>, delay: nat, excess: nat)
    requires cfg.store.Redis? && delay + 1000 * excess <= 1000 * cfg.store.skew
    requires Prompt(Run(cfg, es), delay) && Aligned(Run(cfg, es), excess)
    ensures DistinctClaims(Run(cfg, es)) && SingleUse(Run(cfg, es))
  {
    hide Run, SingleUse, Kept, PendingOk;
    var s := Run(cfg, es);
    ClaimRun(cfg, es);
    forall i, j | 0 <= i < j < |s.grants| ensures s.grants[i].authId != s.grants[j].authId {
      assert GrantOk(cfg, s, s.grants[j]);
      if s.grants[i].authId == s.grants[j].authId { ReentryIsLate(cfg, es, i, j); }
    }
    DistinctClaimsSingleUse(cfg, es);
  }

  /** The state after authorization `auth` was verified, claimed and passed to the adapter, all at time 0. */
  function Once(ns: Namespace, skew: nat, req: Request): Sys {
    var until := Some(1000 * Ttl(req.auth.expiry, 0, skew));
    var g := Grant(0, req.auth.authId, req.auth.expiry, 0, 0, 0, until, true);
    Sys(0, map[Key(ns, req.auth.authId) := until], map[0 := Entry(req, 0, Executing)], [g], [0], [])
  }

  lemma FirstExecution(ns: Namespace, skew: nat, req: Request) returns (es: seq<Event>)
    requires Precheck(req, 0) == None
    ensures Run(Config(Enforce, Redis(skew), ns), es) == Once(ns, skew, req)
  {
    hide Precheck, Key, Ttl;
    var cfg := Config(Enforce, Redis(skew), ns);
    var e1 := [Start(0, req)];
    var e2 := e1 + [Call(0)];
    var e3 := e2 + [Set(0, Intact)];
    es := e3 + [Resume(0)];
    RunAppend(cfg, [], Start(0, req));
    assert [] + [Start(0, req)] == e1;
    RunAppend(cfg, e1, Call(0));
    RunAppend(cfg, e2, Set(0, Intact));
    RunAppend(cfg, e3, Resume(0));
  }

  /** A second request, verified at time `at` and set `delay` milliseconds later, when the first claim is gone. */
  lemma SecondExecution(ns: Namespace, skew: nat, req: Request, req': Request, at: nat, delay: nat, es: seq<Event>)
    returns (fs: seq<Event>)
    requires Precheck(req', at) == None && req'.auth.authId == req.auth.authId
    requires req.auth.expiry >= 1 && at + delay >= 1000 * (req.auth.expiry + skew)
    requires Run(Config(Enforce, Redis(skew), ns), es) == Once(ns, skew, req)
    ensures Reused(Run(Config(Enforce, Redis(skew), ns), fs), req, req', at, delay)
  {
    hide Precheck, Key, Run;
    var cfg := Config(Enforce, Redis(skew), ns);
    var e1 := es + [Tick(at)];
    var e2 := e1 + [Start(1, req')];
    var e3 := e2 + [Call(1)];
    var e4 := e3 + [Tick(delay)];
    var e5 := e4 + [Set(1, Intact)];
    fs := e5 + [Resume(1)];
    RunAppend(cfg, es, Tick(at));
    RunAppend(cfg, e1, Start(1, req'));
    RunAppend(cfg, e2, Call(1));
    RunAppend(cfg, e3, Tick(delay));
    RunAppend(cfg, e4, Set(1, Intact));
    RunAppend(cfg, e5, Resume(1));
  }

  /** Both requests were executed; the first was claimed at once, the second after `delay`. */
  ghost predicate Reused(s: Sys, req: Request, req': Request, at: nat, delay: nat) {
    && s.calls == [0, 1] && |s.grants| == 2
    && s.reqs == map[0 := Entry(req, 0, Executing), 1 := Entry(req', at, Executing)]
    && s.grants[0].expiry == req.auth.expiry && s.grants[1].expiry == req'.auth.expiry
    && s.grants[0].setAt == s.grants[0].verifiedAt && s.grants[1].setAt == s.grants[1].verifiedAt + delay
  }

  function Ask(auth: Authorization): Request {
    Request(true, PROTECTED_ACTION, Some(auth.intentHash), auth)
  }

  /**
   * Two genuine authorizations with one id, or one used twice, are both executed
   * when the second claim arrives at the first one's expiry plus the skew or later.
   */
  lemma Reuse(ns: Namespace, skew: nat, a: Authorization, b: Authorization, at: nat, delay: nat)
    returns (es: seq<Event>)
    requires a.genuine && a.expiry >= 1 && b.genuine && a.authId == b.authId
    requires at < 1000 * b.expiry && at + delay >= 1000 * (a.expiry + skew)
    ensures var s := Run(Config(Enforce, Redis(skew), ns), es);
            && Reused(s, Ask(a), Ask(b), at, delay) && !SingleUse(s) && Prompt(s, delay)
            && forall excess: nat :: b.expiry <= a.expiry + excess ==> Aligned(s, excess)
  {
    es := FirstExecution(ns, skew, Ask(a));
    es := SecondExecution(ns, skew, Ask(a), Ask(b), at, delay, es);
    var s := Run(Config(Enforce, Redis(skew), ns), es);
    assert s.calls[0] == 0 && s.calls[1] == 1;
    assert AuthOf(s, s.calls[0]).authId == AuthOf(s, s.calls[1]).authId;
  }

  /** One millisecond more than the skew is enough for one authorization to be executed twice. */
  lemma PromptnessIsNeeded(ns: Namespace, skew: nat, auth: Authorization) returns (es: seq<Event>)
    requires auth.genuine && auth.expiry >= 1
    ensures var s := Run(Config(Enforce, Redis(skew), ns), es);
            && |s.calls| == 2 && !SingleUse(s) && Prompt(s, 1000 * skew + 1)
            && forall rid :: rid in s.reqs ==> s.reqs[rid].req.auth == auth
  {
    es := Reuse(ns, skew, auth, auth, 1000 * auth.expiry - 1, 1000 * skew + 1);
  }

  /**
   * Without any delay, a second genuine authorization that carries the same id and
   * outlives the first by more than the skew is executed as well.
   */
  lemma IdsMustNotBeReissued(ns: Namespace, skew: nat, a: Authorization, b: Authorization) returns (es: seq<Event>)
    requires a.genuine && a.expiry >= 1 && b.genuine && a.authId == b.authId && b.expiry > a.expiry + skew
    ensures var s := Run(Config(Enforce, Redis(skew), ns), es);
            |s.calls| == 2 && !SingleUse(s) && Prompt(s, 0)
  {
    es := Reuse(ns, skew, a, b, 1000 * (a.expiry + skew), 0);
  }

  /**
   * The threshold. For given bounds on the delay of claims and on how much later
   * a second expiry under one id may be, every run keeps single use exactly when
   * the two together fit into the skew.
   */
  lemma RedisThreshold(ns: Namespace, skew: nat, delay: nat, excess: nat)
    ensures delay + 1000 * excess <= 1000 * skew <==>
            var cfg := Config(Enforce, Redis(skew), ns);
            forall es :: Prompt(Run(cfg, es), delay) && Aligned(Run(cfg, es), excess) ==> SingleUse(Run(cfg, es))
  {
    hide Run, SingleUse, Prompt, Aligned;
    var cfg := Config(Enforce, Redis(skew), ns);
    if delay + 1000 * excess <= 1000 * skew {
      forall es | Prompt(Run(cfg, es), delay) && Aligned(Run(cfg, es), excess) ensures SingleUse(Run(cfg, es)) {
        SingleUseRedis(cfg, es, delay, excess);
      }
    } else {
      var es := BeyondThreshold(ns, skew, delay, excess);
      assert Prompt(Run(cfg, es), delay) && Aligned(Run(cfg, es), excess) && !SingleUse(Run(cfg, es));
    }
  }

  lemma BeyondThreshold(ns: Namespace, skew: nat, delay: nat, excess: nat) returns (es: seq<Event>)
    requires delay + 1000 * excess > 1000 * skew
    ensures var s := Run(Config(Enforce, Redis(skew), ns), es); Prompt(s, delay) && Aligned(s, excess) && !SingleUse(s)
  {
    hide Run, SingleUse, Reused;
    var a := Authorization("", 1, "", true);
    var b := a.(expiry := 1 + excess);
    if excess > skew {
      es := Reuse(ns, skew, a, b, 1000 * (1 + skew), 0);
    } else {
      es := Reuse(ns, skew, a, b, 1000 * (1 + excess) - 1, 1000 * (skew - excess) + 1);
    }
  }

  lemma RunAppend(cfg: Config, es: seq<Event>, e: Event)
    ensures Run(cfg, es + [e]) == Step(cfg, Run(cfg, es), e)
  {
    assert (es + [e])[..|es|] == es;
  }
}

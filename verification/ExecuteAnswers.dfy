/** Which answer a request gets, from the events of the run that led to it. */
module ExecuteAnswers {
  import opened Outcome
  import opened ReplayStore
  import opened ExecuteProtocol
  import opened ExecuteSafety

  /** Event `k` of the run is `e`, and it finds request `rid` in phase `p`. */
  ghost predicate Finds(cfg: Config, es: seq<Event>, k: nat, e: Event, rid: Rid, p: Phase) {
    k < |es| && es[k] == e && InPhase(Run(cfg, es[..k]), rid, p)
  }

  predicate InPhase(s: Sys, rid: Rid, p: Phase) {
    rid in s.reqs && s.reqs[rid].phase == p
  }

  ghost predicate Found(cfg: Config, es: seq<Event>, e: Event, rid: Rid, p: Phase) {
    exists k: nat :: Finds(cfg, es, k, e, rid, p)
  }

  /** A longer run found what the shorter one did, or its last event does. */
  lemma FoundStep(cfg: Config, es: seq<Event>, e: Event, rid: Rid, p: Phase)
    requires es != []
    ensures var init, last := es[..|es| - 1], es[|es| - 1];
            Found(cfg, es, e, rid, p) <==> Found(cfg, init, e, rid, p) || (last == e && InPhase(Run(cfg, init), rid, p))
  {
    hide Run, InPhase, Finds;
    var n := |es| - 1;
    var init := es[..n];
    if Found(cfg, es, e, rid, p) {
      var k: nat :| Finds(cfg, es, k, e, rid, p);
      FindsEarlier(cfg, es, k, e, rid, p);
    }
    if Found(cfg, init, e, rid, p) {
      var k: nat :| Finds(cfg, init, k, e, rid, p);
      FindsEarlier(cfg, es, k, e, rid, p);
    }
    FindsEarlier(cfg, es, n, e, rid, p);
  }

  lemma FindsEarlier(cfg: Config, es: seq<Event>, k: nat, e: Event, rid: Rid, p: Phase)
    requires es != []
    ensures k < |es| - 1 ==> (Finds(cfg, es, k, e, rid, p) <==> Finds(cfg, es[..|es| - 1], k, e, rid, p))
    ensures Finds(cfg, es, |es| - 1, e, rid, p)
       <==> es[|es| - 1] == e && InPhase(Run(cfg, es[..|es| - 1]), rid, p)
    ensures Finds(cfg, es, k, e, rid, p) || Finds(cfg, es[..|es| - 1], k, e, rid, p) ==> k <= |es| - 1
    ensures Finds(cfg, es[..|es| - 1], k, e, rid, p) ==> k < |es| - 1
  {
    hide Run, InPhase;
    if k < |es| - 1 { assert es[..|es| - 1][..k] == es[..k]; }
  }

  // --------------------------------------------------------- the final answers

  /** Request `rid` gets response `r` in this step. */
  predicate Answering(cfg: Config, s: Sys, e: Event, rid: Rid, r: Response) {
    match r
    case Allow(true) => e == Return(rid, true) && InPhase(s, rid, Executing)
    case UpstreamError => e == Return(rid, false) && InPhase(s, rid, Executing)
    case Allow(false) => e == Resume(rid) && cfg.mode == Observe && InPhase(s, rid, Answered(Granted))
    case Deny(AuthReplay) => e == Resume(rid) && InPhase(s, rid, Answered(Refused))
    case Deny(ReplayStoreUnavailable) =>
      e == Resume(rid) && (InPhase(s, rid, Answered(Threw)) || InPhase(s, rid, Answered(NotBoolean)))
    case _ => false
  }

  predicate AfterClaim(r: Response) {
    r == UpstreamError || r.Allow? || r == Deny(AuthReplay) || r == Deny(ReplayStoreUnavailable)
  }

  lemma AnswerStep(cfg: Config, s: Sys, e: Event, rid: Rid, r: Response)
    requires AfterClaim(r)
    ensures InPhase(Step(cfg, s, e), rid, Done(r)) <==> InPhase(s, rid, Done(r)) || Answering(cfg, s, e, rid, r)
  {
    hide Precheck, StoreTtl, Expiration, Key, Live, AfterSet;
    if e.Start? { PrecheckMeaning(e.req, s.clock); }
  }

  /**
   * The answers of a run. The platform's result decides between ALLOW and the
   * upstream error; in observe mode a granted claim is ALLOW without execution; the
   * store's refusal is a replay, and an unusable answer of it is unavailability.
   */
  lemma {:induction false} Answers(cfg: Config, es: seq<Event>, rid: Rid)
    ensures var s := Run(cfg, es);
            && (InPhase(s, rid, Done(Allow(true))) <==> Found(cfg, es, Return(rid, true), rid, Executing))
            && (InPhase(s, rid, Done(UpstreamError)) <==> Found(cfg, es, Return(rid, false), rid, Executing))
            && (InPhase(s, rid, Done(Allow(false))) <==>
                  cfg.mode == Observe && Found(cfg, es, Resume(rid), rid, Answered(Granted)))
            && (InPhase(s, rid, Done(Deny(AuthReplay))) <==> Found(cfg, es, Resume(rid), rid, Answered(Refused)))
            && (InPhase(s, rid, Done(Deny(ReplayStoreUnavailable))) <==>
                  Found(cfg, es, Resume(rid), rid, Answered(Threw))
                  || Found(cfg, es, Resume(rid), rid, Answered(NotBoolean)))
  {
    if es != [] {
      hide Step, Found;
      var init, e := es[..|es| - 1], es[|es| - 1];
      var s := Run(cfg, init);
      Answers(cfg, init, rid);
      AnswerStep(cfg, s, e, rid, Allow(true));
      AnswerStep(cfg, s, e, rid, UpstreamError);
      AnswerStep(cfg, s, e, rid, Allow(false));
      AnswerStep(cfg, s, e, rid, Deny(AuthReplay));
      AnswerStep(cfg, s, e, rid, Deny(ReplayStoreUnavailable));
      FoundStep(cfg, es, Return(rid, true), rid, Executing);
      FoundStep(cfg, es, Return(rid, false), rid, Executing);
      FoundStep(cfg, es, Resume(rid), rid, Answered(Granted));
      FoundStep(cfg, es, Resume(rid), rid, Answered(Refused));
      FoundStep(cfg, es, Resume(rid), rid, Answered(Threw));
      FoundStep(cfg, es, Resume(rid), rid, Answered(NotBoolean));
    }
  }

  // -------------------------------------------------- what the store's answer was

  /** The event that gives a request on its way to the store the answer `a`. */
  predicate Delivers(cfg: Config, s: Sys, e: Event, rid: Rid, a: Answer) {
    && rid in s.reqs && s.reqs[rid].phase.Claiming?
    && var taken := Live(s.keys, Key(cfg.ns, s.reqs[rid].req.auth.authId), s.clock);
       match a
       case Granted => e == Set(rid, Intact) && !taken
       case Refused => e == Set(rid, Intact) && taken
       case Threw => e == Set(rid, Broken) || e == Lost(rid, Broken)
       case NotBoolean => e == Set(rid, Garbled) || e == Lost(rid, Garbled)
  }

  lemma DeliveryStep(cfg: Config, s: Sys, e: Event, rid: Rid, a: Answer)
    requires InPhase(Step(cfg, s, e), rid, Answered(a))
    ensures InPhase(s, rid, Answered(a)) || Delivers(cfg, s, e, rid, a)
  {
    hide Precheck, StoreTtl, Expiration, Key, Live, AfterSet;
  }

  /** An event that delivers an answer leaves the request with that answer. */
  lemma Delivered(cfg: Config, s: Sys, e: Event, rid: Rid, a: Answer)
    requires Delivers(cfg, s, e, rid, a)
    ensures InPhase(Step(cfg, s, e), rid, Answered(a))
  {
    hide StoreTtl, Expiration, Key, Live, AfterSet;
  }

  /**
   * Granted and refused are what the store says of a free and of a live key;
   * an error or another value is what broke or garbled its answer.
   */
  lemma {:induction false} StoreAnswer(cfg: Config, es: seq<Event>, rid: Rid, a: Answer) returns (k: nat)
    requires InPhase(Run(cfg, es), rid, Answered(a))
    ensures k < |es| && Delivers(cfg, Run(cfg, es[..k]), es[k], rid, a)
  {
    hide Step;
    var n := |es| - 1;
    DeliveryStep(cfg, Run(cfg, es[..n]), es[n], rid, a);
    if InPhase(Run(cfg, es[..n]), rid, Answered(a)) {
      k := StoreAnswer(cfg, es[..n], rid, a);
      assert es[..n][..k] == es[..k];
    } else {
      k := n;
    }
  }
}

/**
 * The execute endpoint of the PEP: examples/lgf-frappe-pep/src/execute.ts. Any
 * number of requests are in flight and interleave at the two awaits, the claim
 * on the authorization id and the platform call. Time passes between any two
 * steps, also between the verification and the store's own look at the clock.
 * What `verifyAuthorization` checks besides the expiry is the flag `genuine`; the
 * shape checks of the request body are the flag `parsed`.
 */
module ExecuteProtocol {
  import opened Outcome
  import opened ReplayStore

  const PROTECTED_ACTION: string := "frappe.helpdesk.create_ticket"

  datatype Mode = Enforce | Observe

  /** The in-memory store never forgets a claim; the Redis one keeps it for its time to live. */
  datatype Store = Memory | Redis(skew: nat)

  datatype Config = Config(mode: Mode, store: Store, ns: Namespace)

  datatype Authorization = Authorization(authId: string, expiry: int, intentHash: string, genuine: bool)

  /** `hash` is the intent hash of the action, `None` when it cannot be canonicalized. */
  datatype Request = Request(parsed: bool, tool: string, hash: Option<string>, auth: Authorization)

  datatype Reason =
    | InvalidRequest | UnsupportedAction | CanonicalizationFailed | AuthorizationInvalid
    | IntentHashMismatch | ReplayStoreUnavailable | AuthReplay

  datatype Response = Deny(reason: Reason) | Allow(executed: bool) | UpstreamError

  /** What awaiting the store gives the handler. */
  datatype Answer = Granted | Refused | Threw | NotBoolean

  /** Whether the store's boolean arrives, or an error or some other value does. */
  datatype Delivery = Intact | Broken | Garbled

  datatype Phase =
    | Verified
    | Claiming(calledAt: nat, ttl: int)
    | Answered(answer: Answer)
    | Executing
    | Done(response: Response)

  type Rid = nat

  /** `seenAt` is the time the handler looked at the clock, the only time it is verified against. */
  datatype Entry = Entry(req: Request, seenAt: nat, phase: Phase)

  /** One `SET NX` that took effect, and whether the handler will learn of it. */
  datatype Grant = Grant(
    rid: Rid, authId: string, expiry: int, verifiedAt: nat, calledAt: nat, setAt: nat,
    expiresAt: Option<int>, told: bool)

  datatype Sys = Sys(
    clock: nat,
    keys: Keys,
    reqs: map<Rid, Entry>,
    grants: seq<Grant>,       // claims that took effect, in order
    calls: seq<Rid>,          // calls of the platform adapter, in order
    observed: seq<Rid>)       // observe-mode ALLOWs, in order

  const Initial: Sys := Sys(0, map[], map[], [], [], [])

  datatype Event =
    | Tick(ms: nat)
    | Start(rid: Rid, req: Request)
    | Call(rid: Rid)                      // the handler calls the store
    | Set(rid: Rid, delivery: Delivery)   // the claim reaches the store
    | Lost(rid: Rid, delivery: Delivery)  // the call fails before it reaches the store
    | Resume(rid: Rid)
    | Return(rid: Rid, ok: bool)

  /** Steps 1 to 5 of the handler, in its order. */
  function Precheck(req: Request, now: nat): Option<Reason> {
    if !req.parsed then Some(InvalidRequest)
    else if req.tool != PROTECTED_ACTION then Some(UnsupportedAction)
    else if req.hash.None? then Some(CanonicalizationFailed)
    else if !(req.auth.genuine && now / 1000 < req.auth.expiry) then Some(AuthorizationInvalid)
    else if req.auth.intentHash != req.hash.value then Some(IntentHashMismatch)
    else None
  }

  function SetPhase(s: Sys, rid: Rid, p: Phase): Sys
    requires rid in s.reqs
  {
    s.(reqs := s.reqs[rid := s.reqs[rid].(phase := p)])
  }

  function StoreTtl(cfg: Config, expiry: int, now: nat): int {
    if cfg.store.Memory? then 1 else Ttl(expiry, now, cfg.store.skew)
  }

  function Expiration(cfg: Config, setAt: nat, ttl: int): Option<int> {
    if cfg.store.Memory? then None else Some(setAt + 1000 * ttl)
  }

  function Reply(first: bool, delivery: Delivery): Answer {
    match delivery
    case Intact => if first then Granted else Refused
    case Broken => Threw
    case Garbled => NotBoolean
  }

  /** One atomic step of one request, or the passing of time; an event that is not enabled does nothing. */
  function Step(cfg: Config, s: Sys, e: Event): Sys {
    match e
    case Tick(ms) => s.(clock := s.clock + ms)
    case Start(rid, req) =>
      if rid in s.reqs then s
      else
        (match Precheck(req, s.clock)
         case Some(reason) => s.(reqs := s.reqs[rid := Entry(req, s.clock, Done(Deny(reason)))])
         case None => s.(reqs := s.reqs[rid := Entry(req, s.clock, Verified)]))
    case Call(rid) =>
      if !(rid in s.reqs && s.reqs[rid].phase.Verified?) then s
      else
        var ttl := StoreTtl(cfg, s.reqs[rid].req.auth.expiry, s.clock);
        SetPhase(s, rid, Claiming(s.clock, ttl))
    case Set(rid, delivery) =>
      if !(rid in s.reqs && s.reqs[rid].phase.Claiming?) then s
      else
        var auth := s.reqs[rid].req.auth;
        var p := s.reqs[rid].phase;
        var key := Key(cfg.ns, auth.authId);
        var first := !Live(s.keys, key, s.clock);
        var answer := Reply(first, delivery);
        var s1 := SetPhase(s, rid, Answered(answer));
        if !first then s1
        else
          var until := Expiration(cfg, s.clock, p.ttl);
          var g := Grant(
            rid, auth.authId, auth.expiry, s.reqs[rid].seenAt, p.calledAt, s.clock, until, answer.Granted?);
          s1.(keys := AfterSet(s.keys, key, s.clock, until), grants := s.grants + [g])
    case Lost(rid, delivery) =>
      if !(rid in s.reqs && s.reqs[rid].phase.Claiming?) || delivery.Intact? then s
      else SetPhase(s, rid, Answered(Reply(false, delivery)))
    case Resume(rid) =>
      if !(rid in s.reqs && s.reqs[rid].phase.Answered?) then s
      else
        (match s.reqs[rid].phase.answer
         case Threw => SetPhase(s, rid, Done(Deny(ReplayStoreUnavailable)))
         case NotBoolean => SetPhase(s, rid, Done(Deny(ReplayStoreUnavailable)))
         case Refused => SetPhase(s, rid, Done(Deny(AuthReplay)))
         case Granted =>
           if cfg.mode.Observe? then
             SetPhase(s, rid, Done(Allow(false))).(observed := s.observed + [rid])
           else
             SetPhase(s, rid, Executing).(calls := s.calls + [rid]))
    case Return(rid, ok) =>
      if !(rid in s.reqs && s.reqs[rid].phase.Executing?) then s
      else SetPhase(s, rid, Done(if ok then Allow(true) else UpstreamError))
  }

  /** The state after any sequence of events: every interleaving of every set of requests. */
  function Run(cfg: Config, es: seq<Event>): Sys {
    if es == [] then Initial else Step(cfg, Run(cfg, es[..|es| - 1]), es[|es| - 1])
  }
}

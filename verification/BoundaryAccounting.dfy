/**
 * Exactly-once reporting over every interleaving of guarded requests. A request
 * on the secure path runs inside two catches, the shared body's and the
 * wrapper's (packages/guard/src/guard.ts, packages/guard/src/secureGuard.ts);
 * any value may be thrown, by several requests too.
 */
module BoundaryAccounting {
  import opened Outcome
  import opened BoundaryEvents

  /** What a request threw, with what was known when the innermost catch saw it. */
  datatype Throw = Throw(error: Thrown, life: Progress, annotation: Option<Annotation>, seenBefore: bool)

  datatype Where = Prelude | Body(life: Progress) | Propagating(error: Thrown) | Over

  datatype Req = Req(hook: bool, secure: bool, at: Where, thrown: Option<Throw>)

  datatype World = World(audit: Audit, reqs: map<nat, Req>)

  const Fresh: World := World(Audit(map[], {}, []), map[])

  datatype Step =
    | Annotate(error: Thrown, annotation: Annotation)
    | Begin(rid: nat, hook: bool, secure: bool)
    | Enter(rid: nat)
    | Advance(rid: nat, life: Progress)
    | Raise(rid: nat, error: Thrown)
    | OuterCatch(rid: nat)
    | Return(rid: nat)

  function Seen(a: Audit, error: Thrown): bool {
    error.IsWeakKey() && error in a.emitted
  }

  /** The innermost catch handles what request `rid` throws in state `life`. */
  function Catch(w: World, rid: nat, error: Thrown, life: Progress, next: Where): World
    requires rid in w.reqs
  {
    var req := w.reqs[rid];
    var thrown := Throw(error, life, AnnotationOf(w.audit, error), Seen(w.audit, error));
    World(Emitted(w.audit, rid, req.hook, error, life), w.reqs[rid := req.(at := next, thrown := Some(thrown))])
  }

  function Move(w: World, rid: nat, at: Where): World
    requires rid in w.reqs
  {
    w.(reqs := w.reqs[rid := w.reqs[rid].(at := at)])
  }

  /** The lifecycle of the wrapper once control is in the shared body. */
  function OuterLife(): Progress {
    Started(TRUSTED_CONTEXT).(sharedBodyEntered := true)
  }

  function Next(w: World, s: Step): World {
    match s
    case Annotate(error, annotation) => w.(audit := Rejected(w.audit, error, annotation))
    case Begin(rid, hook, secure) =>
      if rid in w.reqs then w
      else w.(reqs := w.reqs[rid := Req(hook, secure, if secure then Prelude else Body(Started(STATE_LOAD)), None)])
    case Enter(rid) =>
      if rid in w.reqs && w.reqs[rid].at.Prelude? then Move(w, rid, Body(Started(STATE_LOAD))) else w
    case Advance(rid, life) =>
      if rid in w.reqs && w.reqs[rid].at.Body? && !life.sharedBodyEntered
         && (w.reqs[rid].at.life.executionStarted ==> life.executionStarted)
      then Move(w, rid, Body(life)) else w
    case Raise(rid, error) =>
      if rid !in w.reqs then w
      else if w.reqs[rid].at.Prelude? then Catch(w, rid, error, Started(TRUSTED_CONTEXT), Over)
      else if w.reqs[rid].at.Body? then
        Catch(w, rid, error, w.reqs[rid].at.life, if w.reqs[rid].secure then Propagating(error) else Over)
      else w
    case OuterCatch(rid) =>
      if rid in w.reqs && w.reqs[rid].at.Propagating? then
        var v := Move(w, rid, Over);
        v.(audit := Emitted(w.audit, rid, w.reqs[rid].hook, w.reqs[rid].at.error, OuterLife()))
      else w
    case Return(rid) =>
      if rid in w.reqs && w.reqs[rid].at.Body? then Move(w, rid, Over) else w
  }

  function Run(steps: seq<Step>): World {
    if steps == [] then Fresh else Next(Run(steps[..|steps| - 1]), steps[|steps| - 1])
  }

  /** The reports made by one request, in order. */
  function ReportsOf(log: seq<Report>, rid: nat): seq<Report> {
    if log == [] then []
    else
      var rest := ReportsOf(log[..|log| - 1], rid);
      if log[|log| - 1].rid == rid then rest + [log[|log| - 1]] else rest
  }

  /** A rejection the audit sink must hear of: not a policy decision, and raised before the callback was entered. */
  predicate IsBoundaryRejection(t: Throw) {
    !t.error.IsDeny() && !t.life.executionStarted
  }

  /** What one request must have reported. */
  function Expected(rid: nat, req: Req): seq<Report> {
    if req.hook && req.thrown.Some? && IsBoundaryRejection(req.thrown.value) && !req.thrown.value.seenBefore
    then [Report(rid, req.thrown.value.error, BuildEvent(req.thrown.value.annotation, req.thrown.value.life))]
    else []
  }

  // ------------------------------------------------------------------ invariant

  ghost predicate Accounted(w: World, rid: nat) {
    ReportsOf(w.audit.log, rid) == if rid in w.reqs then Expected(rid, w.reqs[rid]) else []
  }

  ghost predicate Phases(w: World, rid: nat) {
    rid in w.reqs ==>
      && ((w.reqs[rid].at.Prelude? || w.reqs[rid].at.Body?) ==> w.reqs[rid].thrown.None?)
      && (w.reqs[rid].at.Body? ==> !w.reqs[rid].at.life.sharedBodyEntered)
  }

  ghost predicate Reported(w: World, error: Thrown) {
    exists r :: r in w.audit.log && r.error == error
  }

  /** The error was thrown out of a permitted callback, in a request with an audit sink. */
  ghost predicate Escaped(w: World, error: Thrown) {
    exists rid :: rid in w.reqs && EscapedFrom(w.reqs[rid], error)
  }

  predicate EscapedFrom(req: Req, error: Thrown) {
    req.hook && req.thrown.Some? && req.thrown.value.error == error && req.thrown.value.life.executionStarted
  }

  /** An error is marked as handled exactly when it was reported or escaped a permitted callback. */
  ghost predicate Explained(w: World, error: Thrown) {
    error.IsWeakKey() && !error.IsDeny() ==> (error in w.audit.emitted <==> Reported(w, error) || Escaped(w, error))
  }

  ghost predicate LogInv(a: Audit) {
    && (forall r :: r in a.log ==> !r.event.executionStarted && !r.error.IsDeny())
    && (forall r :: r in a.log && r.error.IsWeakKey() ==> r.error in a.emitted)
    && (forall i, j :: 0 <= i < j < |a.log| && a.log[i].error.IsWeakKey() ==> a.log[i].error != a.log[j].error)
  }

  lemma ReportsAppend(log: seq<Report>, r: Report, rid: nat)
    ensures ReportsOf(log + [r], rid) == if r.rid == rid then ReportsOf(log, rid) + [r] else ReportsOf(log, rid)
  {
    assert (log + [r])[..|log|] == log;
  }

  lemma LogStep(w: World, s: Step)
    requires LogInv(w.audit)
    ensures LogInv(Next(w, s).audit)
  {
    var a := Next(w, s).audit;
    if a.log != w.audit.log {
      assert a.log == w.audit.log + [a.log[|w.audit.log|]];
    }
  }

  lemma AccountedStep(w: World, s: Step, rid: nat)
    requires Accounted(w, rid) && Phases(w, rid) && (s.Raise? ==> Phases(w, s.rid))
    ensures Accounted(Next(w, s), rid) && Phases(Next(w, s), rid)
  {
    if s.Raise? && s.rid in w.reqs && (w.reqs[s.rid].at.Prelude? || w.reqs[s.rid].at.Body?) {
      AccountedRaise(w, s, rid);
    } else {
      hide BuildEvent, ReportsOf, AnnotationOf;
      assert Next(w, s).audit.log == w.audit.log;
    }
  }

  lemma AccountedRaise(w: World, s: Step, rid: nat)
    requires Accounted(w, rid) && Phases(w, rid) && (s.Raise? ==> Phases(w, s.rid))
    requires s.Raise? && s.rid in w.reqs && (w.reqs[s.rid].at.Prelude? || w.reqs[s.rid].at.Body?)
    ensures Accounted(Next(w, s), rid) && Phases(Next(w, s), rid)
  {
    hide BuildEvent, ReportsOf, AnnotationOf;
    var life := if w.reqs[s.rid].at.Prelude? then Started(TRUSTED_CONTEXT) else w.reqs[s.rid].at.life;
    var r := Report(s.rid, s.error, BuildEvent(AnnotationOf(w.audit, s.error), life));
    ReportsAppend(w.audit.log, r, rid);
    assert Next(w, s).audit == Emitted(w.audit, s.rid, w.reqs[s.rid].hook, s.error, life);
    assert [] + [r] == [r];
  }

  /** Reports and escapes are never taken back. */
  lemma StillExplained(w: World, s: Step, error: Thrown)
    requires s.Raise? ==> Phases(w, s.rid)
    ensures Reported(w, error) ==> Reported(Next(w, s), error)
    ensures Escaped(w, error) ==> Escaped(Next(w, s), error)
  {
    var v := Next(w, s);
    if Reported(w, error) {
      var r :| r in w.audit.log && r.error == error;
      assert r in v.audit.log;
    }
    if Escaped(w, error) {
      var rid :| rid in w.reqs && EscapedFrom(w.reqs[rid], error);
      assert EscapedFrom(v.reqs[rid], error);
    }
  }

  lemma ExplainedStep(w: World, s: Step, error: Thrown)
    requires Explained(w, error) && LogInv(w.audit) && (s.Raise? ==> Phases(w, s.rid))
    ensures Explained(Next(w, s), error)
  {
    var v := Next(w, s);
    StillExplained(w, s, error);
    if error in v.audit.emitted && error !in w.audit.emitted {
      NewlyMarked(w, s, error);
    }
    LogStep(w, s);
    if Escaped(v, error) && !Escaped(w, error) && error.IsWeakKey() && !error.IsDeny() {
      var rid :| rid in v.reqs && EscapedFrom(v.reqs[rid], error);
      NewlyEscaped(w, s, error, rid);
    }
  }

  lemma NewlyMarked(w: World, s: Step, error: Thrown)
    requires error in Next(w, s).audit.emitted && error !in w.audit.emitted && (s.Raise? ==> Phases(w, s.rid))
    ensures Reported(Next(w, s), error) || Escaped(Next(w, s), error)
  {
    var v := Next(w, s);
    if |v.audit.log| > |w.audit.log| {
      assert v.audit.log[|w.audit.log|] in v.audit.log;
    } else {
      assert EscapedFrom(v.reqs[s.rid], error);
    }
  }

  lemma NewlyEscaped(w: World, s: Step, error: Thrown, rid: nat)
    requires error.IsWeakKey() && !error.IsDeny() && rid in Next(w, s).reqs && EscapedFrom(Next(w, s).reqs[rid], error)
    requires rid in w.reqs ==> !EscapedFrom(w.reqs[rid], error)
    ensures error in Next(w, s).audit.emitted
  {
    hide BuildEvent, AnnotationOf;
  }

  lemma {:induction false} Invariant(steps: seq<Step>)
    ensures var w := Run(steps);
            && LogInv(w.audit)
            && (forall rid :: Accounted(w, rid) && Phases(w, rid))
            && (forall error :: Explained(w, error))
  {
    if steps != [] {
      var before, s := steps[..|steps| - 1], steps[|steps| - 1];
      Invariant(before);
      var w := Run(before);
      LogStep(w, s);
      forall rid ensures Accounted(Next(w, s), rid) && Phases(Next(w, s), rid) {
        if s.Raise? { assert Phases(w, s.rid); }
        AccountedStep(w, s, rid);
      }
      forall error ensures Explained(Next(w, s), error) {
        if s.Raise? { assert Phases(w, s.rid); }
        ExplainedStep(w, s, error);
      }
    }
  }

  // ------------------------------------------------------------------ theorems

  /**
   * Exactly once. What a request has reported, however many catches its error
   * passed, is one event if it threw a boundary rejection not accounted for
   * before, described as it was when the innermost catch saw it; otherwise none.
   */
  lemma ExactlyOnce(steps: seq<Step>, rid: nat)
    requires rid in Run(steps).reqs
    ensures ReportsOf(Run(steps).audit.log, rid) == Expected(rid, Run(steps).reqs[rid])
  {
    Invariant(steps);
    assert Accounted(Run(steps), rid);
  }

  /** No error object is reported twice, and every report is of a refusal before execution, not of a decision. */
  lemma ReportedAtMostOnce(steps: seq<Step>)
    ensures var log := Run(steps).audit.log;
            && (forall i, j :: 0 <= i < j < |log| && log[i].error.Object? ==> log[i].error != log[j].error)
            && (forall r :: r in log ==> !r.event.executionStarted && !(r.error.Object? && r.error.deny))
  {
    Invariant(steps);
  }

  /** Whether request `rid` can throw a boundary rejection now. */
  predicate BeforeExecution(w: World, rid: nat) {
    rid in w.reqs && (w.reqs[rid].at.Prelude? || (w.reqs[rid].at.Body? && !w.reqs[rid].at.life.executionStarted))
  }

  /** Once an error object is marked as handled, whether it is reported never changes. */
  lemma {:induction false} MarkedForGood(before: seq<Step>, after: seq<Step>, error: Thrown)
    requires error.IsWeakKey() && error in Run(before).audit.emitted
    ensures error in Run(before + after).audit.emitted
    ensures Reported(Run(before + after), error) <==> Reported(Run(before), error)
  {
    if after == [] {
      assert before + after == before;
    } else {
      var s, init := after[|after| - 1], after[..|after| - 1];
      MarkedForGood(before, init, error);
      assert (before + after)[..|before + after| - 1] == before + init;
      MarkedStep(Run(before + init), s, error);
    }
  }

  lemma MarkedStep(w: World, s: Step, error: Thrown)
    requires error.IsWeakKey() && error in w.audit.emitted
    ensures error in Next(w, s).audit.emitted && (Reported(Next(w, s), error) <==> Reported(w, error))
  {
    hide BuildEvent, AnnotationOf;
    var v := Next(w, s);
    assert w.audit.log <= v.audit.log;
    if Reported(w, error) {
      var r :| r in w.audit.log && r.error == error;
      assert r in v.audit.log;
    }
    if v.audit.log != w.audit.log {
      assert v.audit.log == w.audit.log + [v.audit.log[|w.audit.log|]] && v.audit.log[|w.audit.log|].error != error;
    }
  }

  /**
   * Which error objects of boundary rejections are ever reported. The object is,
   * in the end, unless, before it was thrown, it had escaped a permitted callback
   * of a request with an audit sink without having been reported before that.
   */
  lemma ObjectReportedIff(before: seq<Step>, rid: nat, error: Thrown, after: seq<Step>)
    requires BeforeExecution(Run(before), rid) && Run(before).reqs[rid].hook
    requires error.IsWeakKey() && !error.IsDeny()
    ensures Reported(Run(before + [Raise(rid, error)] + after), error)
       <==> Reported(Run(before), error) || !Escaped(Run(before), error)
  {
    hide BuildEvent, AnnotationOf, Escaped;
    var w, steps := Run(before), before + [Raise(rid, error)];
    RunAppend(before, Raise(rid, error));
    Invariant(before);
    assert Explained(w, error) && Phases(w, rid);
    var v := Run(steps);
    if error in w.audit.emitted {
      assert v.audit.log == w.audit.log;
    } else {
      assert v.audit.log[|w.audit.log|] in v.audit.log;
    }
    MarkedForGood(steps, after, error);
  }

  /** What a request threw stays what it threw. */
  lemma {:induction false} ThrownForGood(before: seq<Step>, after: seq<Step>, rid: nat)
    requires rid in Run(before).reqs && Run(before).reqs[rid].thrown.Some?
    ensures rid in Run(before + after).reqs
    ensures Run(before + after).reqs[rid].thrown == Run(before).reqs[rid].thrown
    ensures Run(before + after).reqs[rid].hook == Run(before).reqs[rid].hook
  {
    if after == [] {
      assert before + after == before;
    } else {
      var s, init := after[|after| - 1], after[..|after| - 1];
      ThrownForGood(before, init, rid);
      assert (before + after)[..|before + after| - 1] == before + init;
      Invariant(before + init);
      assert Phases(Run(before + init), rid);
      KeepsThrown(Run(before + init), s, rid);
    }
  }

  lemma KeepsThrown(w: World, s: Step, rid: nat)
    requires rid in w.reqs && w.reqs[rid].thrown.Some? && Phases(w, rid)
    ensures rid in Next(w, s).reqs && Next(w, s).reqs[rid].thrown == w.reqs[rid].thrown
    ensures Next(w, s).reqs[rid].hook == w.reqs[rid].hook
  {
    hide BuildEvent, AnnotationOf, Emitted;
  }

  /** The lifecycle the innermost catch sees. */
  function LifeOf(w: World, rid: nat): Progress
    requires BeforeExecution(w, rid)
  {
    if w.reqs[rid].at.Prelude? then Started(TRUSTED_CONTEXT) else w.reqs[rid].at.life
  }

  /** Exactly one report, by that request, of that error, saying what `annotation` and `life` say. */
  ghost predicate OneReport(
    reports: seq<Report>, rid: nat, error: Thrown, annotation: Option<Annotation>, life: Progress)
  {
    && |reports| == 1 && reports[0].rid == rid && reports[0].error == error
    && Describes(reports[0].event, annotation, life)
  }

  /**
   * Which boundary rejections are reported, one by one, and as what. Whatever
   * happens later, the rejection of a request with an audit sink, by anything but a
   * policy decision, leaves exactly one report of that request, unless it is by an
   * object that had been reported, or had escaped a permitted callback of a request
   * with an audit sink, before it was thrown. The report carries the first
   * classification the object was given and the progress of the request.
   */
  lemma RejectionReportedIff(before: seq<Step>, rid: nat, error: Thrown, after: seq<Step>)
    requires BeforeExecution(Run(before), rid) && Run(before).reqs[rid].hook
    requires !(error.Object? && error.deny)
    ensures var w, reports := Run(before), ReportsOf(Run(before + [Raise(rid, error)] + after).audit.log, rid);
            if error.Object? && (Reported(w, error) || Escaped(w, error)) then reports == []
            else
              var annotation := if error.Object? then FirstAnnotation(before, error) else None;
              OneReport(reports, rid, error, annotation, LifeOf(w, rid))
  {
    hide BuildEvent, AnnotationOf, Escaped, Reported, ReportsOf, Emitted, Run, Describes, FirstAnnotation;
    var w, steps := Run(before), before + [Raise(rid, error)];
    RunAppend(before, Raise(rid, error));
    Invariant(before);
    assert Explained(w, error);
    ThrownForGood(steps, after, rid);
    ExactlyOnce(steps + after, rid);
    BuiltAsDescribed(AnnotationOf(w.audit, error), LifeOf(w, rid));
    if error.Object? { AnnotationIsFirst(before, error); } else { NoAnnotation(w.audit, error); }
  }

  lemma NoAnnotation(a: Audit, error: Thrown)
    requires error.Primitive?
    ensures AnnotationOf(a, error) == None
  {
  }

  /** A request that has returned is over, and nothing happens to it or is reported of it any more. */
  lemma {:induction false} ReturnedForGood(before: seq<Step>, rid: nat, after: seq<Step>)
    requires rid in Run(before).reqs && Run(before).reqs[rid].at.Body?
    ensures var w, v := Run(before), Run(before + [Return(rid)] + after);
            && rid in v.reqs && v.reqs[rid].at.Over? && v.reqs[rid].thrown.None?
            && ReportsOf(v.audit.log, rid) == []
  {
    RunAppend(before, Return(rid));
    Invariant(before);
    assert Phases(Run(before), rid);
    OverForGood(before + [Return(rid)], rid, after);
    ExactlyOnce(before + [Return(rid)] + after, rid);
  }

  lemma {:induction false} OverForGood(before: seq<Step>, rid: nat, after: seq<Step>)
    requires rid in Run(before).reqs && Run(before).reqs[rid].at.Over?
    ensures rid in Run(before + after).reqs && Run(before + after).reqs[rid] == Run(before).reqs[rid]
  {
    if after == [] {
      assert before + after == before;
    } else {
      var s, init := after[|after| - 1], after[..|after| - 1];
      OverForGood(before, rid, init);
      assert (before + after)[..|before + after| - 1] == before + init;
      OverStep(Run(before + init), s, rid);
    }
  }

  lemma OverStep(w: World, s: Step, rid: nat)
    requires rid in w.reqs && w.reqs[rid].at.Over?
    ensures rid in Next(w, s).reqs && Next(w, s).reqs[rid] == w.reqs[rid]
  {
    hide Emitted, AnnotationOf;
  }

  /** An error of the shared body passes the wrapper's catch, if there is one, before it leaves the request. */
  lemma PassesOuterCatch(w: World, rid: nat, error: Thrown)
    requires BeforeExecution(w, rid)
    ensures var v := Next(w, Raise(rid, error));
            v.reqs[rid].at == if w.reqs[rid].secure && w.reqs[rid].at.Body? then Propagating(error) else Over
  {
    hide Emitted, AnnotationOf;
  }

  /** A request without the wrapper starts in the shared body, one with it before; both at their layer's first stage. */
  lemma StartsFresh(w: World, rid: nat, hook: bool, secure: bool)
    requires rid !in w.reqs
    ensures var v := Next(w, Begin(rid, hook, secure));
            && BeforeExecution(v, rid)
            && LifeOf(v, rid) == Progress(if secure then TRUSTED_CONTEXT else STATE_LOAD,
                                          false, false, false, false, false, false, None, false)
            && (secure ==>
                  var u := Next(v, Enter(rid));
                  && BeforeExecution(u, rid)
                  && LifeOf(u, rid) == Progress(STATE_LOAD, false, false, false, false, false, false, None, false))
  {
  }

  /** A boundary rejection that is not reported: its error object had escaped a callback of another request. */
  lemma UnreportedRejection(error: Thrown) returns (steps: seq<Step>)
    requires error.Object? && !error.deny
    ensures var w := Run(steps);
            && w.audit.log == [] && 1 in w.reqs && w.reqs[1].hook && w.reqs[1].thrown.Some?
            && w.reqs[1].thrown.value.error == error && IsBoundaryRejection(w.reqs[1].thrown.value)
  {
    var s1 := [Begin(0, true, false)];
    var s2 := s1 + [Advance(0, Started(EXECUTION_GATE).(executionStarted := true))];
    var s3 := s2 + [Raise(0, error)];
    var s4 := s3 + [Begin(1, true, false)];
    steps := s4 + [Raise(1, error)];
    RunAppend([], s1[0]);
    assert [] + [s1[0]] == s1;
    RunAppend(s1, s2[1]);
    RunAppend(s2, s3[2]);
    RunAppend(s3, s4[3]);
    RunAppend(s4, steps[4]);
  }

  /** Another one: two requests are refused with one error object, and only the first refusal is reported. */
  lemma SecondRejectionUnreported(error: Thrown) returns (steps: seq<Step>)
    requires error.Object? && !error.deny
    ensures var w := Run(steps);
            && |ReportsOf(w.audit.log, 0)| == 1 && ReportsOf(w.audit.log, 1) == []
            && 1 in w.reqs && w.reqs[1].hook && w.reqs[1].thrown.Some?
            && w.reqs[1].thrown.value.error == error && IsBoundaryRejection(w.reqs[1].thrown.value)
  {
    var s1 := [Begin(0, true, false)];
    var s2 := s1 + [Raise(0, error)];
    var s3 := s2 + [Begin(1, true, false)];
    steps := s3 + [Raise(1, error)];
    RunAppend([], s1[0]);
    assert [] + [s1[0]] == s1;
    RunAppend(s1, s2[1]);
    RunAppend(s2, s3[2]);
    RunAppend(s3, steps[3]);
    ExactlyOnce(steps, 0);
    ExactlyOnce(steps, 1);
  }

  lemma RunAppend(steps: seq<Step>, s: Step)
    ensures Run(steps + [s]) == Next(Run(steps), s)
  {
    assert (steps + [s])[..|steps|] == steps;
  }

  /** The first annotation given to an error in a history. */
  function FirstAnnotation(steps: seq<Step>, error: Thrown): Option<Annotation> {
    if steps == [] then None
    else
      var earlier := FirstAnnotation(steps[..|steps| - 1], error);
      var s := steps[|steps| - 1];
      if earlier.Some? then earlier
      else if s.Annotate? && s.error == error then Some(s.annotation) else None
  }

  /** The classification kept beside an error object is always its first one. */
  lemma {:induction false} AnnotationIsFirst(steps: seq<Step>, error: Thrown)
    requires error.IsWeakKey()
    ensures AnnotationOf(Run(steps).audit, error) == FirstAnnotation(steps, error)
  {
    if steps != [] { AnnotationIsFirst(steps[..|steps| - 1], error); }
  }

  /** A primitive rejection, which no weak collection can track, is reported once all the same. */
  lemma PrimitiveExactlyOnce(steps: seq<Step>, rid: nat)
    requires rid in Run(steps).reqs && Run(steps).reqs[rid].hook && Run(steps).reqs[rid].thrown.Some?
    requires var t := Run(steps).reqs[rid].thrown.value; t.error.Primitive? && !t.life.executionStarted
    ensures var t := Run(steps).reqs[rid].thrown.value;
            OneReport(ReportsOf(Run(steps).audit.log, rid), rid, t.error, None, t.life)
  {
    ExactlyOnce(steps, rid);
    ThrownAsSeen(steps, rid);
    BuiltAsDescribed(None, Run(steps).reqs[rid].thrown.value.life);
  }

  lemma {:induction false} ThrownAsSeen(steps: seq<Step>, rid: nat)
    requires var w := Run(steps); rid in w.reqs && w.reqs[rid].thrown.Some? && w.reqs[rid].thrown.value.error.Primitive?
    ensures var t := Run(steps).reqs[rid].thrown.value; t.annotation == None && !t.seenBefore
  {
    var before := steps[..|steps| - 1];
    if rid in Run(before).reqs && Run(before).reqs[rid].thrown == Run(steps).reqs[rid].thrown {
      ThrownAsSeen(before, rid);
    }
  }
}

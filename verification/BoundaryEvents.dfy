/** Guard-boundary audit emission: packages/guard/src/boundaryEvent.ts. */
module BoundaryEvents {
  import opened Outcome

  datatype Stage =
    | TRUSTED_CONTEXT | STATE_LOAD | NORMALIZATION | PROVENANCE | DELEGATION | POLICY_EVALUATION
    | AUTHORIZATION_VERIFICATION | REPLAY | STATE_COMMIT | EXECUTION_GATE

  datatype Failure =
    | UNTRUSTED_CONTEXT | MISSING_TENANT_ID | STATE_VERSION_MISSING | NORMALIZATION_FAILURE | PROVENANCE_CONFLICT
    | DELEGATION_INPUT_INVALID | DELEGATION_VERIFICATION_FAILED | DELEGATION_REVOKED
    | DELEGATION_REVOCATION_UNAVAILABLE | REVOCATION_STATE_UNAVAILABLE | REVOCATION_STATE_INVALID | DELEGATION_REPLAY
    | AUTHORIZATION_MISSING | AUTHORIZATION_VERIFICATION_FAILED | AUTHORIZATION_AUTHORITY_DENIED
    | AUTHORIZATION_REPLAY | REPLAY_STORE_UNAVAILABLE | INTENT_HASH_MISMATCH | STATE_HASH_MISMATCH
    | CAS_CONFLICT | ENGINE_FAILURE | UNCLASSIFIED

  /**
   * Anything can be thrown. Objects and functions have an identity and can key a
   * weak collection; other values cannot. `deny` is `instanceof OxDeAIDenyError`.
   */
  datatype Thrown = Object(identity: nat, deny: bool) | Primitive(text: string) {
    predicate IsWeakKey() { Object? }
    predicate IsDeny() { Object? && deny }
  }

  datatype Details = Details(conflictingFields: Option<seq<string>>, provenance: Option<map<string, string>>)

  datatype Annotation = Annotation(stage: Stage, failure: Failure, details: Option<Details>)

  /** The fields of a `GuardLifecycle`. */
  datatype Progress = Progress(
    stage: Stage,
    policyEvaluated: bool,
    authorizationIssued: bool,
    authorizationConsumed: bool,
    delegationConsumed: bool,
    stateCommitted: bool,
    executionStarted: bool,
    intentId: Option<string>,
    sharedBodyEntered: bool)

  datatype Event = Event(
    stage: Stage,
    boundaryFailure: Failure,
    policyEvaluated: bool,
    authorizationIssued: bool,
    authorizationConsumed: bool,
    delegationConsumed: bool,
    stateCommitted: bool,
    executionStarted: bool,
    intentId: Option<string>,
    provenance: Option<map<string, string>>,
    conflictingFields: Option<seq<string>>)

  /** One call of the hook: by which request, for which thrown value. */
  datatype Report = Report(rid: nat, error: Thrown, event: Event)

  /** The module-level weak collections, and the calls of the hook so far. */
  datatype Audit = Audit(annotations: map<Thrown, Annotation>, emitted: set<Thrown>, log: seq<Report>)

  function Started(stage: Stage): Progress {
    Progress(stage, false, false, false, false, false, false, None, false)
  }

  function BuildEvent(annotation: Option<Annotation>, life: Progress): Event {
    var details := if annotation.Some? then annotation.value.details else None;
    Event(
      if annotation.Some? then annotation.value.stage else life.stage,
      if annotation.Some? then annotation.value.failure else UNCLASSIFIED,
      life.policyEvaluated, life.authorizationIssued, life.authorizationConsumed,
      life.delegationConsumed, life.stateCommitted, life.executionStarted, life.intentId,
      if details.Some? then details.value.provenance else None,
      if details.Some? then details.value.conflictingFields else None)
  }

  /** What an event says, field by field: the classification is the annotation's if there is one. */
  ghost predicate Describes(e: Event, annotation: Option<Annotation>, life: Progress) {
    && (annotation.Some? ==> e.stage == annotation.value.stage && e.boundaryFailure == annotation.value.failure)
    && (annotation.None? ==> e.stage == life.stage && e.boundaryFailure == UNCLASSIFIED)
    && e.policyEvaluated == life.policyEvaluated && e.authorizationIssued == life.authorizationIssued
    && e.authorizationConsumed == life.authorizationConsumed && e.delegationConsumed == life.delegationConsumed
    && e.stateCommitted == life.stateCommitted && e.executionStarted == life.executionStarted
    && e.intentId == life.intentId
    && (annotation.Some? && annotation.value.details.Some? ==>
          e.provenance == annotation.value.details.value.provenance
          && e.conflictingFields == annotation.value.details.value.conflictingFields)
    && (annotation.None? || annotation.value.details.None? ==> e.provenance.None? && e.conflictingFields.None?)
  }

  lemma BuiltAsDescribed(annotation: Option<Annotation>, life: Progress)
    ensures Describes(BuildEvent(annotation, life), annotation, life)
  {
  }

  /** Only one event is described by an annotation and a lifecycle. */
  lemma DescriptionUnique(e: Event, f: Event, annotation: Option<Annotation>, life: Progress)
    requires Describes(e, annotation, life) && Describes(f, annotation, life)
    ensures e == f
  {
  }

  function AnnotationOf(a: Audit, error: Thrown): Option<Annotation> {
    if error.IsWeakKey() && error in a.annotations then Some(a.annotations[error]) else None
  }

  /** The first annotation of an error wins; a value without identity gets none. */
  function Rejected(a: Audit, error: Thrown, annotation: Annotation): Audit {
    if error.IsWeakKey() && error !in a.annotations then a.(annotations := a.annotations[error := annotation]) else a
  }

  /** The emission rules, in their order. `hook` says whether there is an audit sink. */
  function Emitted(a: Audit, rid: nat, hook: bool, error: Thrown, life: Progress): Audit {
    if !hook || error.IsDeny() then a
    else if life.executionStarted then
      if error.IsWeakKey() then a.(emitted := a.emitted + {error}) else a
    else if life.sharedBodyEntered then a
    else if error.IsWeakKey() && error in a.emitted then a
    else
      a.(emitted := if error.IsWeakKey() then a.emitted + {error} else a.emitted,
         log := a.log + [Report(rid, error, BuildEvent(AnnotationOf(a, error), life))])
  }

  // ------------------------------------------------------------ the code as written

  class Lifecycle {
    var stage: Stage
    var policyEvaluated: bool
    var authorizationIssued: bool
    var authorizationConsumed: bool
    var delegationConsumed: bool
    var stateCommitted: bool
    var executionStarted: bool
    var intentId: Option<string>
    var sharedBodyEntered: bool

    constructor (stage: Stage)
      ensures Now() == Started(stage)
      ensures Now() == Progress(stage, false, false, false, false, false, false, None, false)
    {
      this.stage := stage;
      policyEvaluated, authorizationIssued, authorizationConsumed := false, false, false;
      delegationConsumed, stateCommitted, executionStarted := false, false, false;
      intentId, sharedBodyEntered := None, false;
    }

    function Now(): Progress
      reads this
    {
      Progress(stage, policyEvaluated, authorizationIssued, authorizationConsumed, delegationConsumed,
               stateCommitted, executionStarted, intentId, sharedBodyEntered)
    }
  }

  class BoundaryAudit {
    var annotations: map<Thrown, Annotation>
    var emitted: set<Thrown>
    var log: seq<Report>

    constructor ()
      ensures State() == Audit(map[], {}, [])
    {
      annotations, emitted, log := map[], {}, [];
    }

    function State(): Audit
      reads this
    {
      Audit(annotations, emitted, log)
    }

    method Reject(stage: Stage, failure: Failure, error: Thrown, details: Option<Details>) returns (e: Thrown)
      modifies this
      ensures e == error
      ensures State() == Rejected(old(State()), error, Annotation(stage, failure, details))
      ensures annotations == if error.Object? && error !in old(annotations)
                             then old(annotations)[error := Annotation(stage, failure, details)] else old(annotations)
      ensures emitted == old(emitted) && log == old(log)
    {
      if error.IsWeakKey() && error !in annotations {
        annotations := annotations[error := Annotation(stage, failure, details)];
      }
      return error;
    }

    /** Whatever the hook does with the event, nothing escapes from here. */
    method EmitBoundaryEvent(rid: nat, hook: bool, error: Thrown, lifecycle: Lifecycle)
      modifies this
      ensures State() == Emitted(old(State()), rid, hook, error, lifecycle.Now())
      ensures lifecycle.Now() == old(lifecycle.Now())
      ensures annotations == old(annotations)
      ensures log == old(log) || (|log| == |old(log)| + 1 && log[..|old(log)|] == old(log))
      ensures log != old(log) <==>
                && hook && !(error.Object? && error.deny) && !lifecycle.executionStarted && !lifecycle.sharedBodyEntered
                && !(error.Object? && error in old(emitted))
      ensures log != old(log) ==>
                var known := if error.Object? && error in annotations then Some(annotations[error]) else None;
                var r := log[|old(log)|];
                r.rid == rid && r.error == error && Describes(r.event, known, lifecycle.Now())
      ensures emitted == old(emitted)
              + if hook && error.Object? && !error.deny && (lifecycle.executionStarted || !lifecycle.sharedBodyEntered)
                then {error} else {}
    {
      if !hook { return; }
      if error.IsDeny() { return; }
      if lifecycle.executionStarted {
        if error.IsWeakKey() { emitted := emitted + {error}; }
        return;
      }
      if lifecycle.sharedBodyEntered { return; }
      if error.IsWeakKey() {
        if error in emitted { return; }
        emitted := emitted + {error};
      }
      var annotation := if error.IsWeakKey() && error in annotations then Some(annotations[error]) else None;
      BuiltAsDescribed(annotation, lifecycle.Now());
      log := log + [Report(rid, error, BuildEvent(annotation, lifecycle.Now()))];
    }

    /**
     * A request through the secure wrapper whose shared body throws `error`: the
     * inner catch, then the outer one, which re-throws the original.
     */
    method SecureBodyThrows(rid: nat, hook: bool, error: Thrown, inner: Lifecycle, outer: Lifecycle) returns (e: Thrown)
      requires inner != outer && !inner.sharedBodyEntered && !outer.executionStarted
      modifies this, outer
      ensures e == error
      ensures State() == Emitted(old(State()), rid, hook, error, old(inner.Now()))
    {
      outer.sharedBodyEntered := true;
      EmitBoundaryEvent(rid, hook, error, inner);
      EmitBoundaryEvent(rid, hook, error, outer);
      return error;
    }

    /** A request through the secure wrapper that throws `error` before the shared body. */
    method SecurePreludeThrows(rid: nat, hook: bool, error: Thrown, outer: Lifecycle) returns (e: Thrown)
      requires outer.Now() == Started(TRUSTED_CONTEXT)
      modifies this
      ensures e == error
      ensures State() == Emitted(old(State()), rid, hook, error, Started(TRUSTED_CONTEXT))
    {
      EmitBoundaryEvent(rid, hook, error, outer);
      return error;
    }
  }
}

/** Whole runs of the executor: any sequence of registrations and calls. */
module LedgerRuns {
  import opened Wrappers
  import opened Grants
  import opened Requests
  import opened Execution
  import opened Sums
  import opened Ledger
  import Engine

  datatype Event<!T> =
    | Register(resource: ResourceRef, version: u64)
    | Execute(grant: VerifiedTrustGrant, request: MutationRequest, apply: Callback<T>)

  datatype EventResult<T> = Registered | Executed(result: Result<ExecutionResult<T>, ExecutionError>) {
    predicate IsApplied() {
      Executed? && WasApplied(result)
    }

    predicate IsLogged() {
      Executed? && result.Ok? && (result.value.Applied? || result.value.Denied? || result.value.Stale?)
    }
  }

  function AfterEvent<T>(s: LedgerState, e: Event<T>): LedgerState {
    match e
    case Register(resource, version) =>
      var key := ResourceKeyOf(resource);
      if key.Err? then s else s.(resourceVersions := s.resourceVersions[key.value := version])
    case Execute(grant, request, apply) => Step(s, grant, request, apply).0
  }

  function ResultOf<T>(s: LedgerState, e: Event<T>): EventResult<T> {
    match e
    case Register(_, _) => Registered
    case Execute(grant, request, apply) => Executed(Step(s, grant, request, apply).1)
  }

  function Run<T>(s: LedgerState, es: seq<Event<T>>): LedgerState {
    if es == [] then s else AfterEvent(Run(s, es[..|es| - 1]), es[|es| - 1])
  }

  function Results<T>(s: LedgerState, es: seq<Event<T>>): (rs: seq<EventResult<T>>)
    ensures |rs| == |es|
  {
    if es == [] then []
    else Results(s, es[..|es| - 1]) + [ResultOf(Run(s, es[..|es| - 1]), es[|es| - 1])]
  }

  /** Requests are completely bound, and callbacks that succeed leave the transaction as they found it. */
  ghost predicate Proper<T>(e: Event<T>) {
    e.Execute? ==> Bound(e.request) && WellBehaved(e.apply)
  }

  ghost predicate AllProper<T>(es: seq<Event<T>>) {
    forall i :: 0 <= i < |es| ==> Proper(es[i])
  }

  lemma {:induction false} ResultAt<T>(s: LedgerState, es: seq<Event<T>>, i: nat)
    requires i < |es|
    ensures Results(s, es)[i] == ResultOf(Run(s, es[..i]), es[i])
  {
    hide AfterEvent, ResultOf;
    if i < |es| - 1 {
      var front := es[..|es| - 1];
      ResultAt(s, front, i);
      assert front[..i] == es[..i];
    }
  }

  lemma {:induction false} RunSplits<T>(s: LedgerState, a: seq<Event<T>>, b: seq<Event<T>>)
    ensures Run(s, a + b) == Run(Run(s, a), b)
  {
    hide AfterEvent;
    if b == [] {
      assert a + b == a;
    } else {
      assert (a + b)[..|a + b| - 1] == a + b[..|b| - 1];
      RunSplits(s, a, b[..|b| - 1]);
    }
  }

  // ---- Quotas ----

  ghost predicate AllCarry<T>(es: seq<Event<T>>, limits: Limits) {
    forall i :: 0 <= i < |es| && es[i].Execute? ==> CarriesLimits(es[i].grant, limits)
  }

  lemma {:induction false} RunKeepsLimits<T>(s: LedgerState, es: seq<Event<T>>, limits: Limits)
    requires AllProper(es) && AllCarry(es, limits) && WithinLimits(s, limits)
    ensures WithinLimits(Run(s, es), limits)
  {
    hide Step, CarriesLimits;
    if es != [] {
      var front, e := es[..|es| - 1], es[|es| - 1];
      RunKeepsLimits(s, front, limits);
      assert Proper(e);
      if e.Execute? { StepKeepsLimits(Run(s, front), e.grant, e.request, e.apply, limits); }
    }
  }

  /** In every reachable state no total and no principal's count exceeds its limit. */
  lemma QuotaSafety<T>(es: seq<Event<T>>, limits: Limits)
    requires AllProper(es) && AllCarry(es, limits)
    ensures var s := Run(EMPTY_LEDGER, es);
            && (forall k :: UpTo(Total(s, k), limits(k).maxTotal))
            && (forall p :: UpTo(PerPrincipal(s, p), limits(p.totalKey).maxPerUser))
  {
    RunKeepsLimits(EMPTY_LEDGER, es, limits);
  }

  // ---- Conservation ----

  lemma {:induction false} RunConserves<T>(s: LedgerState, es: seq<Event<T>>, at: MintTotalKey)
    requires AllProper(es) && ConservedAt(s, at)
    ensures ConservedAt(Run(s, es), at)
  {
    hide Step, ConservedAt;
    if es != [] {
      var front, e := es[..|es| - 1], es[|es| - 1];
      RunConserves(s, front, at);
      assert Proper(e);
      match e {
        case Execute(g, m, f) => StepConserves(Run(s, front), g, m, f, at);
        case Register(resource, version) =>
          VersionsConserve(Run(s, front), AfterEvent(Run(s, front), e).resourceVersions, at);
      }
    }
  }

  /** In every reachable state total, principals, records and log account for the same mints. */
  lemma Conservation<T>(es: seq<Event<T>>)
    requires AllProper(es)
    ensures Conserved(Run(EMPTY_LEDGER, es))
  {
    forall at
      ensures ConservedAt(Run(EMPTY_LEDGER, es), at)
    {
      RunConserves(EMPTY_LEDGER, es, at);
    }
  }

  lemma PrincipalWithinTotal(s: LedgerState, p: MintPrincipalKey)
    requires ConservedAt(s, p.totalKey)
    ensures PerPrincipal(s, p) <= Total(s, p.totalKey)
  {
    if p in s.mintsForPrincipal {
      SumAtLeast<MintPrincipalKey, u64>(s.mintsForPrincipal, OfPrincipals(p.totalKey), p);
    }
  }

  // ---- Audit log ----

  /** The records the results say were logged, in order. */
  function LoggedRecords<T>(rs: seq<EventResult<T>>): seq<MutationAuthorization> {
    if rs == [] then []
    else
      var front, last := LoggedRecords(rs[..|rs| - 1]), rs[|rs| - 1];
      if last.IsLogged() then front + [last.result.value.authorization] else front
  }

  /** The log only grows, by the record of each applied, denied and stale call, in call order. */
  lemma {:induction false} AuditLogGrows<T>(s: LedgerState, es: seq<Event<T>>)
    requires AllProper(es)
    ensures Run(s, es).auditLog == s.auditLog + LoggedRecords(Results(s, es))
  {
    hide Step;
    if es != [] {
      var front, e := es[..|es| - 1], es[|es| - 1];
      AuditLogGrows(s, front);
      assert Proper(e);
      assert Results(s, es)[..|es| - 1] == Results(s, front);
      if e.Execute? { StepExtendsLog(Run(s, front), e.grant, e.request, e.apply); }
    }
  }

  // ---- Idempotency ----

  lemma EventKeepsRecords<T>(s: LedgerState, e: Event<T>)
    requires Proper(e)
    ensures var t, r := AfterEvent(s, e), ResultOf(s, e);
            && (r.IsApplied() ==> e.Execute? && e.request.intentId !in s.processed
                                  && t.processed == s.processed[e.request.intentId := r.result.value.authorization])
            && (!r.IsApplied() ==> t.processed == s.processed)
  {
    hide Step;
    if e.Execute? { StepKeepsRecords(s, e.grant, e.request, e.apply); }
  }

  /** A processed record never changes and never goes. */
  lemma {:induction false} RecordsAreFinal<T>(s: LedgerState, es: seq<Event<T>>, intent: string)
    requires AllProper(es) && intent in s.processed
    ensures intent in Run(s, es).processed && Run(s, es).processed[intent] == s.processed[intent]
  {
    hide AfterEvent, ResultOf, Proper;
    if es != [] {
      RecordsAreFinal(s, es[..|es| - 1], intent);
      EventKeepsRecords(Run(s, es[..|es| - 1]), es[|es| - 1]);
    }
  }

  lemma AppliedIsRecorded<T>(s: LedgerState, es: seq<Event<T>>, i: nat, j: nat)
    requires AllProper(es) && i < j <= |es| && Results(s, es)[i].IsApplied()
    ensures es[i].Execute? && es[i].request.intentId in Run(s, es[..j]).processed
    ensures Run(s, es[..j]).processed[es[i].request.intentId] == Results(s, es)[i].result.value.authorization
  {
    hide AfterEvent, ResultOf, Proper;
    ResultAt(s, es, i);
    EventKeepsRecords(Run(s, es[..i]), es[i]);
    var next := es[..i + 1];
    assert next[..i] == es[..i];
    assert es[..j] == next + es[i + 1..j];
    RunSplits(s, next, es[i + 1..j]);
    RecordsAreFinal(Run(s, next), es[i + 1..j], es[i].request.intentId);
  }

  /** No two applied calls of a run share an intent id. */
  lemma AppliedAtMostOnce<T>(s: LedgerState, es: seq<Event<T>>, i: nat, j: nat)
    requires AllProper(es) && i < j < |es|
    requires Results(s, es)[i].IsApplied() && Results(s, es)[j].IsApplied()
    ensures es[i].Execute? && es[j].Execute? && es[i].request.intentId != es[j].request.intentId
  {
    hide AfterEvent, ResultOf, Proper;
    AppliedIsRecorded(s, es, i, j);
    ResultAt(s, es, j);
    EventKeepsRecords(Run(s, es[..j]), es[j]);
  }

  /** An applied intent resubmitted later gives the original record for the same grant id and binding, else a conflict. */
  lemma Resubmission<T>(
    s: LedgerState, es: seq<Event<T>>, i: nat, g: VerifiedTrustGrant, m: MutationRequest, f: Callback<T>)
    requires AllProper(es) && i < |es| && Results(s, es)[i].IsApplied()
    requires es[i].Execute? && m.intentId == es[i].request.intentId
    ensures Step(Run(s, es), g, m, f) ==
            (Run(s, es),
             Ok(if g.trustgrantId == es[i].grant.trustgrantId && SameMutationIntent(es[i].request.request, m.request)
                then Duplicate(Results(s, es)[i].result.value.authorization) else IntentConflict(m.intentId)))
  {
    hide AfterEvent, SameMutationIntent, Step;
    AppliedIsRecorded(s, es, i, |es|);
    assert es[..|es|] == es;
    ResultAt(s, es, i);
    assert Proper(es[i]);
    AppliedMatchesItself(Run(s, es[..i]), es[i].grant, es[i].request, es[i].apply);
    ProcessedNeverRuns(Run(s, es), g, m, f);
    var stored := Results(s, es)[i].result.value.authorization.outcome.request;
    SameIntentEquivalence(stored, es[i].request.request, m.request, None);
    SameIntentEquivalence(es[i].request.request, stored, m.request, None);
  }

  // ---- Versions ----

  ghost predicate Touches<T>(e: Event<T>, resource: ResourceRef) {
    e.Execute? && !e.request.IsMint() && e.request.request.binding.Existing?
    && SameResource(e.request.request.binding.resource, resource)
  }

  /** The versions that the applied mutations of a resource expected, in call order. */
  ghost function AppliedVersions<T>(s: LedgerState, es: seq<Event<T>>, resource: ResourceRef): seq<u64> {
    if es == [] then []
    else
      var front, e := es[..|es| - 1], es[|es| - 1];
      var versions := AppliedVersions(s, front, resource);
      if Touches(e, resource) && ResultOf(Run(s, front), e).IsApplied()
         && e.request.request.binding.resource.expectedVersion.Some? then
        versions + [e.request.request.binding.resource.expectedVersion.value]
      else versions
  }

  ghost predicate NeverRegistered<T>(es: seq<Event<T>>, resource: ResourceRef) {
    forall i :: 0 <= i < |es| && es[i].Register? ==> !SameResource(es[i].resource, resource)
  }

  /** Setting the version of one resource leaves every other resource's as it was. */
  lemma VersionSet(s: LedgerState, t: LedgerState, set_: ResourceRef, version: u64, resource: ResourceRef)
    requires set_.resourceType.Some?
    requires t.resourceVersions == s.resourceVersions[ResourceKeyOf(set_).value := version]
    ensures ResourceVersion(t, resource) == if SameResource(set_, resource) then Some(version) else ResourceVersion(s, resource)
  {
    ResourceIdentity(set_, resource);
  }

  /** A registration sets the version of its resource and of no other. */
  lemma RegistrationSetsOne<T>(s: LedgerState, e: Event<T>, resource: ResourceRef)
    requires e.Register?
    ensures ResourceVersion(AfterEvent(s, e), resource) ==
            if SameResource(e.resource, resource) then Some(e.version) else ResourceVersion(s, resource)
  {
    if e.resource.resourceType.Some? { VersionSet(s, AfterEvent(s, e), e.resource, e.version, resource); }
  }

  lemma SameVersion(s: LedgerState, a: ResourceRef, b: ResourceRef)
    requires SameResource(a, b)
    ensures ResourceVersion(s, a) == ResourceVersion(s, b)
  {
  }

  lemma VersionsKept(s: LedgerState, t: LedgerState, resource: ResourceRef)
    requires t.resourceVersions == s.resourceVersions
    ensures ResourceVersion(t, resource) == ResourceVersion(s, resource)
  {
  }

  lemma StepVersions<T>(s: LedgerState, g: VerifiedTrustGrant, m: MutationRequest, f: Callback<T>)
    requires Bound(m) && WellBehaved(f)
    ensures var (t, r) := Step(s, g, m, f);
            if WasApplied(r) && !m.IsMint() then
              var resource := m.request.binding.resource;
              var before := ResourceVersion(s, resource);
              && m.request.binding.Existing? && resource.resourceType.Some?
              && before.Some? && before.value < U64_MAX && resource.expectedVersion == before
              && t.resourceVersions == s.resourceVersions[ResourceKeyOf(resource).value := before.value + 1]
            else t.resourceVersions == s.resourceVersions
  {
    StepIsAtomic(s, g, m, f);
    hide Step, Engine.EvaluateInner, SameMutationIntent, TotalKeyOf, PrincipalKeyOf;
    if WasApplied(Step(s, g, m, f).1) {
      if m.IsMint() { AppliedMint(s, g, m, f); } else { AppliedExisting(s, g, m, f); }
    }
  }

  /** A call advances the version of the resource it mutates by one when it is applied, and touches no other. */
  lemma CallAdvancesOne<T>(s: LedgerState, e: Event<T>, resource: ResourceRef)
    requires e.Execute? && Proper(e)
    ensures var before, after := ResourceVersion(s, resource), ResourceVersion(AfterEvent(s, e), resource);
            if Touches(e, resource) && ResultOf(s, e).IsApplied() then
              && before.Some? && before.value < U64_MAX
              && e.request.request.binding.resource.expectedVersion == before && after == Some(before.value + 1)
            else after == before
  {
    hide Step, ResourceVersion, SameResource, ResourceKeyOf;
    StepVersions(s, e.grant, e.request, e.apply);
    var t := AfterEvent(s, e);
    if ResultOf(s, e).IsApplied() && !e.request.IsMint() {
      var mutated := e.request.request.binding.resource;
      VersionSet(s, t, mutated, ResourceVersion(s, mutated).value + 1, resource);
      if SameResource(mutated, resource) { SameVersion(s, mutated, resource); }
    } else {
      VersionsKept(s, t, resource);
    }
  }

  /** Without a registration in between, applied versions are consecutive and the current version counts them. */
  lemma {:induction false} VersionsAreConsecutive<T>(s: LedgerState, es: seq<Event<T>>, resource: ResourceRef)
    requires AllProper(es) && NeverRegistered(es, resource) && ResourceVersion(s, resource).Some?
    ensures var versions, start := AppliedVersions(s, es, resource), ResourceVersion(s, resource).value;
            && ResourceVersion(Run(s, es), resource) == Some(start + |versions|)
            && (forall i :: 0 <= i < |versions| ==> versions[i] == start + i)
  {
    hide AfterEvent, ResultOf, Proper, Touches, ResourceVersion, SameResource;
    if es != [] {
      var front, e := es[..|es| - 1], es[|es| - 1];
      VersionsAreConsecutive(s, front, resource);
      assert Proper(e);
      if e.Register? {
        RegistrationSetsOne(Run(s, front), e, resource);
        NotTouched(e, resource);
      } else {
        CallAdvancesOne(Run(s, front), e, resource);
      }
    }
  }

  lemma NotTouched<T>(e: Event<T>, resource: ResourceRef)
    requires e.Register?
    ensures !Touches(e, resource)
  {
  }

  /** Between two registrations of a resource no update is lost: expected versions start at the registered one and
      never repeat, whatever happens to resources of another origin, type or id. */
  lemma NoLostUpdates<T>(
    s: LedgerState, before: seq<Event<T>>, resource: ResourceRef, version: u64, after: seq<Event<T>>)
    requires AllProper(before) && AllProper(after) && resource.resourceType.Some? && NeverRegistered(after, resource)
    ensures var start := Run(s, before + [Register(resource, version)]);
            var versions := AppliedVersions(start, after, resource);
            && ResourceVersion(Run(s, before + [Register(resource, version)] + after), resource)
               == Some(version + |versions|)
            && (forall i :: 0 <= i < |versions| ==> versions[i] == version + i)
  {
    hide ResourceVersion, AppliedVersions, AfterEvent;
    var es := before + [Register(resource, version)];
    assert es[..|es| - 1] == before;
    RegistrationSetsOne(Run(s, before), es[|es| - 1], resource);
    RunSplits(s, es, after);
    VersionsAreConsecutive(Run(s, es), after, resource);
  }

  lemma {:induction false} NeverRegisteredAbsent<T>(es: seq<Event<T>>, resource: ResourceRef)
    requires AllProper(es) && NeverRegistered(es, resource)
    ensures ResourceVersion(Run(EMPTY_LEDGER, es), resource) == None
  {
    hide AfterEvent, ResultOf, Proper, Touches, ResourceVersion, SameResource;
    if es == [] {
      NothingRegistered(resource);
    } else {
      var front, e := es[..|es| - 1], es[|es| - 1];
      NeverRegisteredAbsent(front, resource);
      assert Proper(e);
      if e.Register? {
        RegistrationSetsOne(Run(EMPTY_LEDGER, front), e, resource);
      } else {
        CallAdvancesOne(Run(EMPTY_LEDGER, front), e, resource);
      }
    }
  }

  lemma NothingRegistered(resource: ResourceRef)
    ensures ResourceVersion(EMPTY_LEDGER, resource) == None
  {
  }

  /** An allowed mutation of a resource that was never registered is refused as unknown, and nothing changes. */
  lemma UnregisteredIsUnknown<T>(es: seq<Event<T>>, g: VerifiedTrustGrant, m: MutationRequest, f: Callback<T>)
    requires AllProper(es) && Bound(m) && !m.IsMint() && NeverRegistered(es, m.request.binding.resource)
    requires m.intentId !in Run(EMPTY_LEDGER, es).processed
    requires Authorize(Run(EMPTY_LEDGER, es), g, m).outcome.decision.IsAllowed()
    ensures Step(Run(EMPTY_LEDGER, es), g, m, f) == (Run(EMPTY_LEDGER, es), Err(UnknownResource))
  {
    hide Step, Run, Authorize, ResourceVersion;
    NeverRegisteredAbsent(es, m.request.binding.resource);
    ExistingOutcome(Run(EMPTY_LEDGER, es), g, m, f);
  }
}

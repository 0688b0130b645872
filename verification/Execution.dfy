/** The atomic executor: its ledger as a value, one call as a function of that value, and the class that keeps it. */
module Execution {
  import opened Wrappers
  import opened Protocol
  import opened Grants
  import opened Requests
  import Engine
  import StableKeys

  // ---- Mutation requests ----

  datatype MutationRequest = MutationRequest(
    request: EvaluationRequest, intentId: string, actor: Option<string>, envelopeExpiresAt: Option<Timestamp>) {

    predicate IsMint() {
      request.operation == MINT
    }

    function ExistingResource(): Option<ResourceRef> {
      if request.binding.Existing? then Some(request.binding.resource) else None
    }
  }

  function CheckBinding(r: EvaluationRequest): Result<(), TrustGrantError> {
    match r.binding
    case ToMint(template) =>
      if r.operation != MINT then Err(InvalidMutationResourceBinding)
      else if template.templateId.None? then Err(MissingTemplateId)
      else Ok(())
    case Existing(resource) =>
      if r.operation == MINT then Err(InvalidMutationResourceBinding)
      else if resource.resourceType.None? then Err(MissingResourceTypeBinding)
      else if resource.resourceType.value != r.resource.resourceType then Err(ResourceTypeBindingMismatch)
      else if resource.expectedVersion.None? then Err(MissingExpectedResourceVersion)
      else Ok(())
  }

  function TryFrom(r: EvaluationRequest): Result<MutationRequest, TrustGrantError> {
    if r.intentId.None? then Err(MissingMutationIntentId)
    else
      var _ :- CheckBinding(r);
      Ok(MutationRequest(r, r.intentId.value, None, None))
  }

  /** Holds of every mutation request: mints carry a template, the others a typed, versioned resource. */
  predicate Bound(m: MutationRequest) {
    && m.request.intentId == Some(m.intentId)
    && if m.IsMint() then
         m.request.binding.ToMint? && m.request.binding.template.templateId.Some?
       else
         && m.request.binding.Existing?
         && m.request.binding.resource.resourceType == Some(m.request.resource.resourceType)
         && m.request.binding.resource.expectedVersion.Some?
  }

  /** Exactly the completely bound requests become mutation requests, and stay as they are. */
  lemma TryFromExact(r: EvaluationRequest)
    ensures TryFrom(r).Ok? <==> r.intentId.Some? && Bound(MutationRequest(r, r.intentId.value, None, None))
    ensures TryFrom(r).Ok? ==> TryFrom(r).value == MutationRequest(r, r.intentId.value, None, None)
    ensures r.intentId.None? ==> TryFrom(r) == Err(MissingMutationIntentId)
    ensures r.intentId.Some? && (r.operation == MINT) != r.binding.ToMint? ==>
              TryFrom(r) == Err(InvalidMutationResourceBinding)
    ensures r.intentId.Some? && r.operation == MINT && r.binding.ToMint? && r.binding.template.templateId.None? ==>
              TryFrom(r) == Err(MissingTemplateId)
    ensures r.intentId.Some? && r.operation != MINT && r.binding.Existing? ==>
              var resource := r.binding.resource;
              && (resource.resourceType.None? ==> TryFrom(r) == Err(MissingResourceTypeBinding))
              && (resource.resourceType.Some? && resource.resourceType != Some(r.resource.resourceType) ==>
                    TryFrom(r) == Err(ResourceTypeBindingMismatch))
              && (resource.resourceType == Some(r.resource.resourceType) && resource.expectedVersion.None? ==>
                    TryFrom(r) == Err(MissingExpectedResourceVersion))
  {
  }

  // ---- Ledger ----

  datatype MutationAuthorization = MutationAuthorization(
    outcome: Outcome, actor: Option<string>, intentId: string, envelopeExpiresAt: Option<Timestamp>)

  datatype ResourceKey = ResourceKey(originAuthority: string, resourceType: string, resourceId: string)

  datatype MintTotalKey = MintTotalKey(grantId: string, resourceType: string)

  datatype MintPrincipalKey = MintPrincipalKey(totalKey: MintTotalKey, principalContext: string)

  datatype LedgerState = LedgerState(
    resourceVersions: map<ResourceKey, u64>,
    totalMints: map<MintTotalKey, u64>,
    mintsForPrincipal: map<MintPrincipalKey, u64>,
    processed: map<string, MutationAuthorization>,
    auditLog: seq<MutationAuthorization>)

  const EMPTY_LEDGER := LedgerState(map[], map[], map[], map[], [])

  datatype ExecutionError = UnknownResource | MissingTypedResourceReference | CounterOverflow

  datatype ExecutionResult<T> =
    | Applied(authorization: MutationAuthorization, value: T)
    | Denied(authorization: MutationAuthorization)
    | Duplicate(authorization: MutationAuthorization)
    | Stale(authorization: MutationAuthorization, currentVersion: u64)
    | IntentConflict(intentId: string)

  /** What the callback leaves behind: the transaction state it was given by reference, and its result. */
  datatype CallbackOutcome<T> = CallbackOutcome(transaction: LedgerState, result: Result<T, ExecutionError>)

  type Callback<!T> = (LedgerState, MutationAuthorization) -> CallbackOutcome<T>

  function Total(s: LedgerState, k: MintTotalKey): u64 {
    if k in s.totalMints then s.totalMints[k] else 0
  }

  function PerPrincipal(s: LedgerState, p: MintPrincipalKey): u64 {
    if p in s.mintsForPrincipal then s.mintsForPrincipal[p] else 0
  }

  function ResourceKeyOf(resource: ResourceRef): Result<ResourceKey, ExecutionError> {
    if resource.resourceType.None? then Err(MissingTypedResourceReference)
    else Ok(ResourceKey(resource.originAuthority, resource.resourceType.value, resource.resourceId))
  }

  /** One resource, however it is referred to: same origin, same type, same id; the expected version plays no part. */
  predicate SameResource(a: ResourceRef, b: ResourceRef) {
    && a.resourceType.Some? && a.resourceType == b.resourceType
    && a.originAuthority == b.originAuthority && a.resourceId == b.resourceId
  }

  /** The version the ledger holds for a resource. */
  function ResourceVersion(s: LedgerState, resource: ResourceRef): Option<u64> {
    var key := ResourceKeyOf(resource);
    if key.Ok? && key.value in s.resourceVersions then Some(s.resourceVersions[key.value]) else None
  }

  /** References share a ledger key exactly when they name one resource. */
  lemma ResourceIdentity(a: ResourceRef, b: ResourceRef)
    ensures ResourceKeyOf(a).Ok? <==> a.resourceType.Some?
    ensures ResourceKeyOf(a).Ok? && ResourceKeyOf(a) == ResourceKeyOf(b) <==> SameResource(a, b)
  {
  }

  function TotalKeyOf(grant: VerifiedTrustGrant, m: MutationRequest): MintTotalKey {
    MintTotalKey(grant.trustgrantId, m.request.resource.resourceType)
  }

  function PrincipalKeyOf(grant: VerifiedTrustGrant, m: MutationRequest): MintPrincipalKey {
    MintPrincipalKey(TotalKeyOf(grant, m), StableKeys.StableKey(m.request.principalContext))
  }

  function Advance(value: u64, delta: u64): Result<u64, ExecutionError> {
    var sum := CheckedAdd(value, delta);
    if sum.Some? then Ok(sum.value) else Err(CounterOverflow)
  }

  // ---- One call ----

  function RequestedQuantity(r: EvaluationRequest): Quantity {
    if r.mintContext.Some? then r.mintContext.value.requested else 1
  }

  /** A mint is evaluated with the ledger's own counters in place of the caller's. */
  function EvaluationRequestFor(s: LedgerState, grant: VerifiedTrustGrant, m: MutationRequest): EvaluationRequest {
    if m.IsMint() then
      m.request.(mintContext := Some(MintContext(
        Total(s, TotalKeyOf(grant, m)), PerPrincipal(s, PrincipalKeyOf(grant, m)), RequestedQuantity(m.request))))
    else m.request
  }

  function Authorize(s: LedgerState, grant: VerifiedTrustGrant, m: MutationRequest): MutationAuthorization {
    MutationAuthorization(
      Engine.Evaluate(grant, EvaluationRequestFor(s, grant, m)), m.actor, m.intentId, m.envelopeExpiresAt)
  }

  predicate Matches(previous: MutationAuthorization, grantId: string, m: MutationRequest) {
    previous.outcome.decision.trustgrantId == grantId && SameMutationIntent(previous.outcome.request, m.request)
  }

  /** The stale check of an existing resource; Ok(None) lets the call go on. */
  function CheckVersion(s: LedgerState, m: MutationRequest): Result<Option<u64>, ExecutionError> {
    match m.ExistingResource()
    case None => Ok(None)
    case Some(resource) =>
      var key :- ResourceKeyOf(resource);
      if key !in s.resourceVersions then Err(UnknownResource)
      else if resource.expectedVersion.None? then Err(MissingTypedResourceReference)
      else if resource.expectedVersion.value != s.resourceVersions[key] then Ok(Some(s.resourceVersions[key]))
      else Ok(None)
  }

  /** Advances the counters of a mint, or the version of an existing resource, in the transaction. */
  function AdvanceCounters(t: LedgerState, grant: VerifiedTrustGrant, m: MutationRequest, quantity: Quantity)
    : Result<LedgerState, ExecutionError>
  {
    if m.IsMint() then
      var k, p := TotalKeyOf(grant, m), PrincipalKeyOf(grant, m);
      var total :- Advance(Total(t, k), quantity);
      var perPrincipal :- Advance(PerPrincipal(t, p), quantity);
      Ok(t.(totalMints := t.totalMints[k := total], mintsForPrincipal := t.mintsForPrincipal[p := perPrincipal]))
    else if m.request.binding.Existing? then
      var key :- ResourceKeyOf(m.request.binding.resource);
      if key !in t.resourceVersions then Err(UnknownResource)
      else
        var version :- Advance(t.resourceVersions[key], 1);
        Ok(t.(resourceVersions := t.resourceVersions[key := version]))
    else Ok(t)
  }

  function Logged(s: LedgerState, authorization: MutationAuthorization): LedgerState {
    s.(auditLog := s.auditLog + [authorization])
  }

  /** Runs the callback on a copy and commits that copy; any error leaves the ledger as it was. */
  function Commit<T>(s: LedgerState, grant: VerifiedTrustGrant, m: MutationRequest,
                     authorization: MutationAuthorization, apply: Callback<T>)
    : (LedgerState, Result<ExecutionResult<T>, ExecutionError>)
  {
    var outcome := apply(Logged(s, authorization), authorization);
    if outcome.result.Err? then (s, Err(outcome.result.error))
    else
      var advanced := AdvanceCounters(
        outcome.transaction, grant, m, RequestedQuantity(authorization.outcome.request));
      if advanced.Err? then (s, Err(advanced.error))
      else
        (advanced.value.(processed := advanced.value.processed[m.intentId := authorization]),
         Ok(Applied(authorization, outcome.result.value)))
  }

  function Step<T>(s: LedgerState, grant: VerifiedTrustGrant, m: MutationRequest, apply: Callback<T>)
    : (LedgerState, Result<ExecutionResult<T>, ExecutionError>)
  {
    if m.intentId in s.processed then
      if Matches(s.processed[m.intentId], grant.trustgrantId, m) then (s, Ok(Duplicate(s.processed[m.intentId])))
      else (s, Ok(IntentConflict(m.intentId)))
    else
      var authorization := Authorize(s, grant, m);
      if !authorization.outcome.decision.IsAllowed() then (Logged(s, authorization), Ok(Denied(authorization)))
      else Attempt(s, grant, m, authorization, apply)
  }

  /** The part of a call that follows an allowing decision. */
  function Attempt<T>(s: LedgerState, grant: VerifiedTrustGrant, m: MutationRequest,
                      authorization: MutationAuthorization, apply: Callback<T>)
    : (LedgerState, Result<ExecutionResult<T>, ExecutionError>)
  {
    var stale := CheckVersion(s, m);
    if stale.Err? then (s, Err(stale.error))
    else if stale.value.Some? then (Logged(s, authorization), Ok(Stale(authorization, stale.value.value)))
    else Commit(s, grant, m, authorization, apply)
  }

  /** A failed call, a duplicate and a conflict change nothing; a denial or stale call only logs. */
  lemma StepIsAtomic<T>(s: LedgerState, grant: VerifiedTrustGrant, m: MutationRequest, apply: Callback<T>)
    ensures var (t, r) := Step(s, grant, m, apply);
            && (r.Err? || r.value.Duplicate? || r.value.IntentConflict? ==> t == s)
            && (r.Ok? && (r.value.Denied? || r.value.Stale?) ==> t == Logged(s, r.value.authorization))
  {
  }

  // ---- The executor ----

  class InMemoryAtomicInventoryExecutor {
    var resourceVersions: map<ResourceKey, u64>
    var totalMints: map<MintTotalKey, u64>
    var mintsForPrincipal: map<MintPrincipalKey, u64>
    var processed: map<string, MutationAuthorization>
    var auditLog: seq<MutationAuthorization>

    function State(): LedgerState
      reads this
    {
      LedgerState(resourceVersions, totalMints, mintsForPrincipal, processed, auditLog)
    }

    constructor ()
      ensures State() == EMPTY_LEDGER
    {
      resourceVersions, totalMints, mintsForPrincipal := map[], map[], map[];
      processed, auditLog := map[], [];
    }

    /** Sets the version of a typed resource, whatever it was before. */
    method RegisterResource(resource: ResourceRef, version: u64) returns (r: Result<(), ExecutionError>)
      modifies this`resourceVersions
      ensures r == if resource.resourceType.None? then Err(MissingTypedResourceReference) else Ok(())
      ensures r.Err? ==> resourceVersions == old(resourceVersions)
      ensures r.Ok? ==> resourceVersions == old(resourceVersions)[ResourceKeyOf(resource).value := version]
      ensures r.Ok? ==>
                forall other: ResourceRef ::
                  ResourceVersion(State(), other)
                  == if SameResource(other, resource) then Some(version) else old(ResourceVersion(State(), other))
    {
      var key := ResourceKeyOf(resource);
      if key.Err? {
        return Err(key.error);
      }
      resourceVersions := resourceVersions[key.value := version];
      return Ok(());
    }

    /** Authorizes and executes one mutation: all of it takes effect, or none. */
    method AuthorizeAndExecute<T>(grant: VerifiedTrustGrant, request: MutationRequest, apply: Callback<T>)
      returns (r: Result<ExecutionResult<T>, ExecutionError>)
      requires Bound(request)
      modifies this
      ensures (State(), r) == Step(old(State()), grant, request, apply)
      ensures r.Err? || r.value.Duplicate? || r.value.IntentConflict? ==> State() == old(State())
      ensures r.Ok? && (r.value.Denied? || r.value.Stale?) ==>
                State() == Logged(old(State()), r.value.authorization)
    {
      hide Matches, Engine.Evaluate, TotalKeyOf, PrincipalKeyOf;
      StepIsAtomic(State(), grant, request, apply);
      var intentId := request.intentId;
      if intentId in processed {
        var previous := processed[intentId];
        if Matches(previous, grant.trustgrantId, request) {
          return Ok(Duplicate(previous));
        }
        return Ok(IntentConflict(intentId));
      }

      var k, p := TotalKeyOf(grant, request), PrincipalKeyOf(grant, request);
      var evaluationRequest := request.request;
      if request.IsMint() {
        var quantity := if request.request.mintContext.Some? then request.request.mintContext.value.requested else 1;
        var current := MintContext(
          if k in totalMints then totalMints[k] else 0, if p in mintsForPrincipal then mintsForPrincipal[p] else 0, 1);
        var mintContext := WithQuantity(current, quantity).value;
        evaluationRequest := request.request.(mintContext := Some(mintContext));
      }
      assert evaluationRequest == EvaluationRequestFor(State(), grant, request);
      var authorization := MutationAuthorization(
        Engine.Evaluate(grant, evaluationRequest), request.actor, request.intentId, request.envelopeExpiresAt);
      assert authorization == Authorize(State(), grant, request);

      if !authorization.outcome.decision.IsAllowed() {
        auditLog := auditLog + [authorization];
        return Ok(Denied(authorization));
      }

      r := AttemptMutation(grant, request, authorization, apply);
    }

    method AttemptMutation<T>(grant: VerifiedTrustGrant, request: MutationRequest,
                              authorization: MutationAuthorization, apply: Callback<T>)
      returns (r: Result<ExecutionResult<T>, ExecutionError>)
      modifies this
      ensures (State(), r) == Attempt(old(State()), grant, request, authorization, apply)
    {
      hide TotalKeyOf, PrincipalKeyOf;
      var k, p := TotalKeyOf(grant, request), PrincipalKeyOf(grant, request);
      var existing := request.ExistingResource();
      var key: Option<ResourceKey> := None;
      if existing.Some? {
        var parsed := ResourceKeyOf(existing.value);
        if parsed.Err? {
          return Err(parsed.error);
        }
        key := Some(parsed.value);
        if key.value !in resourceVersions {
          return Err(UnknownResource);
        }
        var current := resourceVersions[key.value];
        if existing.value.expectedVersion.None? {
          return Err(MissingTypedResourceReference);
        }
        if existing.value.expectedVersion.value != current {
          auditLog := auditLog + [authorization];
          return Ok(Stale(authorization, current));
        }
      }

      var transaction := Logged(State(), authorization);
      var outcome := apply(transaction, authorization);
      if outcome.result.Err? {
        return Err(outcome.result.error);
      }
      transaction := outcome.transaction;

      if request.IsMint() {
        var quantity := RequestedQuantity(authorization.outcome.request);
        var total := Advance(Total(transaction, k), quantity);
        if total.Err? {
          return Err(total.error);
        }
        transaction := transaction.(totalMints := transaction.totalMints[k := total.value]);
        var perPrincipal := Advance(PerPrincipal(transaction, p), quantity);
        if perPrincipal.Err? {
          return Err(perPrincipal.error);
        }
        transaction := transaction.(mintsForPrincipal := transaction.mintsForPrincipal[p := perPrincipal.value]);
      } else if key.Some? {
        if key.value !in transaction.resourceVersions {
          return Err(UnknownResource);
        }
        var version := Advance(transaction.resourceVersions[key.value], 1);
        if version.Err? {
          return Err(version.error);
        }
        transaction := transaction.(resourceVersions := transaction.resourceVersions[key.value := version.value]);
      }

      transaction := transaction.(processed := transaction.processed[request.intentId := authorization]);
      resourceVersions, totalMints := transaction.resourceVersions, transaction.totalMints;
      mintsForPrincipal, processed := transaction.mintsForPrincipal, transaction.processed;
      auditLog := transaction.auditLog;
      return Ok(Applied(authorization, outcome.result.value));
    }
  }
}

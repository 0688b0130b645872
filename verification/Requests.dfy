/** Evaluation requests, decisions and the comparison of mutation intents. */
module Requests {
  import opened Wrappers
  import opened Protocol
  import opened SelectorKinds
  import opened ContextValues
  import opened Grants

  datatype RequestedCapability = Recognize | Mint

  datatype RequestedOperation = Capability(capability: RequestedCapability) | Custom(name: string)

  const MINT := Capability(Mint)

  datatype ResourceRef = ResourceRef(
    originAuthority: string, resourceType: Option<string>, resourceId: string, expectedVersion: Option<u64>)

  datatype TemplateRef = TemplateRef(originAuthority: string, templateId: Option<string>)

  datatype ResourceBinding = Existing(resource: ResourceRef) | ToMint(template: TemplateRef) {
    function OriginAuthority(): string {
      if Existing? then resource.originAuthority else template.originAuthority
    }
  }

  /** A mint asks for at least one instance. */
  type Quantity = n: u64 | n >= 1 witness 1

  datatype MintContext = MintContext(currentTotal: u64, currentForAudience: u64, requested: Quantity)

  function WithQuantity(m: MintContext, quantity: u64): Result<MintContext, TrustGrantError> {
    if quantity == 0 then Err(InvalidMintQuantity) else Ok(m.(requested := quantity))
  }

  datatype ResourceContext = ResourceContext(resourceType: string, selectors: ContextValue)

  datatype EvaluationRequest = EvaluationRequest(
    operation: RequestedOperation,
    binding: ResourceBinding,
    intentId: Option<string>,
    targetAuthority: string,
    targetContext: ContextValue,
    audienceAuthority: string,
    audienceContext: ContextValue,
    principalContext: ContextValue,
    resource: ResourceContext,
    mintContext: Option<MintContext>,
    evaluatedAt: Timestamp,
    selectorsVerified: bool)

  /** The four contexts were built by inserts. */
  ghost predicate ContextsBuilt(r: EvaluationRequest) {
    WellBuilt(r.targetContext) && WellBuilt(r.audienceContext) && WellBuilt(r.principalContext)
    && WellBuilt(r.resource.selectors)
  }

  datatype DenyReason =
    | Revoked | NotYetValid | Expired | TargetDenied | TargetNotAllowed | ResourceTypeNotGranted
    | ResourceDenied | ResourceNotAllowed | AudienceDenied | AudienceNotAllowed
    | AudiencePrincipalDenied | AudiencePrincipalNotAllowed | CapabilityDisabled | OperationDenied
    | OriginAuthorityMismatch | MissingMintContext | MissingAudiencePrincipalContext
    | MintTotalLimitReached | MintPerUserLimitReached | UnverifiedSelectors | StaleRevocationData

  datatype Decision = Decision(trustgrantId: string, denyReason: Option<DenyReason>) {
    predicate IsAllowed() {
      denyReason.None?
    }
  }

  datatype Outcome = Outcome(decision: Decision, request: EvaluationRequest)

  // ---- Mutation intents ----

  /** Context equality: entry by entry, kinds as kinds compare, values in order, and the same index. */
  predicate SameContext(a: ContextValue, b: ContextValue) {
    && |a.entries| == |b.entries|
    && (forall i :: 0 <= i < |a.entries| ==>
          SameKind(a.entries[i].kind, b.entries[i].kind) && a.entries[i].values == b.entries[i].values)
    && a.kindIndex == b.kindIndex
  }

  /** Everything a mutation is bound to; intent id, counters, clock and verification flag are not part of it. */
  predicate SameMutationIntent(a: EvaluationRequest, b: EvaluationRequest) {
    && a.operation == b.operation
    && a.binding == b.binding
    && a.targetAuthority == b.targetAuthority
    && SameContext(a.targetContext, b.targetContext)
    && a.audienceAuthority == b.audienceAuthority
    && SameContext(a.audienceContext, b.audienceContext)
    && SameContext(a.principalContext, b.principalContext)
    && a.resource.resourceType == b.resource.resourceType
    && SameContext(a.resource.selectors, b.resource.selectors)
  }

  lemma SameContextEquivalence(a: ContextValue, b: ContextValue, c: ContextValue)
    ensures SameContext(a, a)
    ensures SameContext(a, b) ==> SameContext(b, a)
    ensures SameContext(a, b) && SameContext(b, c) ==> SameContext(a, c)
  {
  }

  /** Intent equality is an equivalence, and the executor's replacement of the mint context does not affect it. */
  lemma SameIntentEquivalence(a: EvaluationRequest, b: EvaluationRequest, c: EvaluationRequest, m: Option<MintContext>)
    ensures SameMutationIntent(a, a.(mintContext := m))
    ensures SameMutationIntent(a, b) ==> SameMutationIntent(b, a)
    ensures SameMutationIntent(a, b) && SameMutationIntent(b, c) ==> SameMutationIntent(a, c)
  {
    hide SameContext;
    SameContextEquivalence(a.targetContext, b.targetContext, c.targetContext);
    SameContextEquivalence(a.audienceContext, b.audienceContext, c.audienceContext);
    SameContextEquivalence(a.principalContext, b.principalContext, c.principalContext);
    SameContextEquivalence(a.resource.selectors, b.resource.selectors, c.resource.selectors);
  }
}

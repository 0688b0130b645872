/** The stateless evaluation of one grant against one request. */
module Engine {
  import opened Wrappers
  import opened SelectorExpressions
  import opened ContextValues
  import opened Grants
  import opened Requests

  datatype Verdict = Allowed | Denied(reason: DenyReason)

  /** Linear scan for a listed value. */
  predicate AnyListed(listed: seq<string>, values: seq<string>) {
    exists i :: 0 <= i < |listed| && exists j :: 0 <= j < |values| && values[j] == listed[i]
  }

  /** Lookup of listed values in a hashed set. */
  predicate AnyHashed(listed: seq<string>, hashed: set<string>) {
    exists i :: 0 <= i < |listed| && listed[i] in hashed
  }

  predicate AnyExpression(expressions: seq<SelectorExpression>, values: seq<string>) {
    exists i :: 0 <= i < |expressions| && exists j :: 0 <= j < |values| && expressions[i].Matches(values[j])
  }

  predicate SelectorMatchesContext(selector: Selector, context: ContextValue) {
    if selector.all then true
    else
      var found := ValuesForKind(context, selector.kind);
      if found.None? then false
      else if |found.value| <= 8 && AnyListed(selector.values, found.value) then true
      else if |found.value| > 8 && AnyHashed(selector.values, ToSet(found.value)) then true
      else AnyExpression(selector.expressions, found.value)
  }

  predicate AnyMatches(selectors: seq<Selector>, context: ContextValue) {
    exists i :: 0 <= i < |selectors| && SelectorMatchesContext(selectors[i], context)
  }

  /** Allow comes first; deny is always subtractive. */
  function EvaluateScopeWithReasons(scope: Scope, context: ContextValue, denied: DenyReason, notAllowed: DenyReason): Verdict {
    if !scope.all && !AnyMatches(scope.allow, context) then Denied(notAllowed)
    else if AnyMatches(scope.deny, context) then Denied(denied)
    else Allowed
  }

  /** Position of the first entry of the authority, or |entries| when there is none. */
  function FindAudience(entries: seq<AudienceEntry>, authority: string): (i: nat)
    ensures i <= |entries|
    ensures i < |entries| ==> entries[i].authorityId == authority
    ensures forall j :: 0 <= j < i ==> entries[j].authorityId != authority
  {
    if entries == [] || entries[0].authorityId == authority then 0 else 1 + FindAudience(entries[1..], authority)
  }

  function EvaluateAudience(entries: seq<AudienceEntry>, request: EvaluationRequest): Verdict {
    if entries == [] then Allowed
    else
      var i := FindAudience(entries, request.audienceAuthority);
      if i == |entries| then Denied(AudienceNotAllowed)
      else
        var verdict := EvaluateScopeWithReasons(
          entries[i].scope, request.audienceContext, AudienceDenied, AudienceNotAllowed);
        if verdict.Denied? then verdict
        else if entries[i].principalScope.None? then Allowed
        else EvaluateScopeWithReasons(
          entries[i].principalScope.value, request.principalContext,
          AudiencePrincipalDenied, AudiencePrincipalNotAllowed)
  }

  function IsCapabilityEnabled(granted: Capabilities, type_: ResourceType, operation: RequestedOperation): bool {
    match operation
    case Capability(Recognize) => type_.capabilities.recognize.UnwrapOr(granted.recognize)
    case Capability(Mint) => type_.capabilities.mint.UnwrapOr(granted.mint)
    case Custom(_) => true
  }

  function OperationName(operation: RequestedOperation): string {
    match operation
    case Capability(Recognize) => "recognize"
    case Capability(Mint) => "create"
    case Custom(name) => name
  }

  function IsOperationAllowed(type_: ResourceType, operation: RequestedOperation): Verdict {
    match type_.operations
    case None => if operation == Capability(Recognize) then Allowed else Denied(OperationDenied)
    case Some(scope) =>
      if OperationName(operation) in scope.deny then Denied(OperationDenied)
      else if OperationName(operation) in scope.allow then Allowed
      else Denied(OperationDenied)
  }

  function EvaluateMintingConstraints(limits: MintingConstraints, request: EvaluationRequest): Verdict {
    if request.operation != MINT then Allowed
    else
      match request.mintContext
      case None =>
        if limits.maxTotal.Some? || limits.maxPerUser.Some? then Denied(MissingMintContext) else Allowed
      case Some(m) =>
        if limits.maxTotal.Some? && SaturatingAdd(m.currentTotal, m.requested) > limits.maxTotal.value then
          Denied(MintTotalLimitReached)
        else if limits.maxPerUser.Some? && request.principalContext.entries == [] then
          Denied(MissingAudiencePrincipalContext)
        else if limits.maxPerUser.Some?
                && SaturatingAdd(m.currentForAudience, m.requested) > limits.maxPerUser.value then
          Denied(MintPerUserLimitReached)
        else Allowed
  }

  /** An empty type-level audience list falls back to the grant's default list. */
  function AudienceScope(document: Document, type_: ResourceType): seq<AudienceEntry> {
    if type_.audienceScope == [] then document.defaultAudienceScope else type_.audienceScope
  }

  function EvaluateResourceType(document: Document, type_: ResourceType, request: EvaluationRequest): Verdict {
    if !IsCapabilityEnabled(document.capabilities, type_, request.operation) then Denied(CapabilityDisabled)
    else
      var resource := EvaluateScopeWithReasons(
        type_.scope, request.resource.selectors, ResourceDenied, ResourceNotAllowed);
      if resource.Denied? then resource
      else
        var operation := IsOperationAllowed(type_, request.operation);
        if operation.Denied? then operation
        else
          var audience := EvaluateAudience(AudienceScope(document, type_), request);
          if audience.Denied? then audience
          else EvaluateMintingConstraints(type_.minting, request)
  }

  function EvaluateRevocation(grant: VerifiedTrustGrant, request: EvaluationRequest): Verdict {
    match grant.revocation
    case NonRevocable => Allowed
    case Checked(status, freshUntil) =>
      if request.evaluatedAt > freshUntil then Denied(StaleRevocationData)
      else if status == RevocationStatus.Revoked then
        if grant.document.revocation == Some(BlockMintingOnly) then
          (if request.operation == MINT then Denied(DenyReason.Revoked) else Allowed)
        else Denied(DenyReason.Revoked)
      else Allowed
  }

  function EvaluateTimeWindow(window: Option<TimeWindow>, request: EvaluationRequest): Verdict {
    if window.None? then Allowed
    else if request.evaluatedAt < window.value.notBefore then Denied(NotYetValid)
    else if request.evaluatedAt > window.value.notAfter then Denied(Expired)
    else Allowed
  }

  function EvaluateInner(grant: VerifiedTrustGrant, request: EvaluationRequest): Verdict {
    if request.operation == MINT && !request.selectorsVerified then Denied(UnverifiedSelectors)
    else
      var revocation := EvaluateRevocation(grant, request);
      if revocation.Denied? then revocation
      else
        var time := EvaluateTimeWindow(grant.document.timeWindow, request);
        if time.Denied? then time
        else if request.binding.OriginAuthority() != grant.document.originAuthority then
          Denied(OriginAuthorityMismatch)
        else
          var target := EvaluateScopeWithReasons(
            grant.document.targetScope, request.targetContext, TargetDenied, TargetNotAllowed);
          if target.Denied? then target
          else if request.resource.resourceType !in grant.document.resourceScope then
            Denied(ResourceTypeNotGranted)
          else
            EvaluateResourceType(
              grant.document, grant.document.resourceScope[request.resource.resourceType], request)
  }

  function Evaluate(grant: VerifiedTrustGrant, request: EvaluationRequest): Outcome {
    var verdict := EvaluateInner(grant, request);
    Outcome(Decision(grant.trustgrantId, if verdict.Denied? then Some(verdict.reason) else None), request)
  }
}

/** Verified grants, as the evaluation engine reads them. */
module Grants {
  import opened Wrappers
  import opened SelectorKinds
  import opened SelectorExpressions

  /** An instant, as a number of ticks. */
  type Timestamp = int

  datatype Selector = Selector(
    kind: SelectorKind, all: bool, values: seq<string>, expressions: seq<SelectorExpression>)

  /** Selector equality: kinds compare as kinds do, the rest exactly. */
  predicate SameSelector(a: Selector, b: Selector) {
    SameKind(a.kind, b.kind) && a.all == b.all && a.values == b.values && a.expressions == b.expressions
  }

  datatype Scope = Scope(all: bool, allow: seq<Selector>, deny: seq<Selector>)

  datatype OperationScope = OperationScope(allow: seq<string>, deny: seq<string>)

  datatype AudienceEntry = AudienceEntry(authorityId: string, scope: Scope, principalScope: Option<Scope>)

  datatype MintingConstraints = MintingConstraints(maxTotal: Option<u64>, maxPerUser: Option<u64>)

  datatype Capabilities = Capabilities(recognize: bool, mint: bool)

  datatype TypeCapabilities = TypeCapabilities(recognize: Option<bool>, mint: Option<bool>)

  datatype ResourceType = ResourceType(
    scope: Scope,
    capabilities: TypeCapabilities,
    minting: MintingConstraints,
    audienceScope: seq<AudienceEntry>,
    operations: Option<OperationScope>)

  datatype TimeWindow = TimeWindow(notBefore: Timestamp, notAfter: Timestamp)

  datatype PostRevocationEffect = BlockAll | BlockMintingOnly

  datatype Document = Document(
    originAuthority: string,
    targetScope: Scope,
    capabilities: Capabilities,
    defaultAudienceScope: seq<AudienceEntry>,
    resourceScope: map<string, ResourceType>,
    timeWindow: Option<TimeWindow>,
    revocation: Option<PostRevocationEffect>)

  datatype RevocationStatus = Active | Revoked

  datatype RevocationState = NonRevocable | Checked(status: RevocationStatus, freshUntil: Timestamp)

  datatype VerifiedTrustGrant = VerifiedTrustGrant(
    trustgrantId: string, document: Document, revocation: RevocationState)
}

/** Validation of the lists of a grant document: its target scope, default audience and resource types. */
module DocumentValidation {
  import opened Wrappers
  import opened Protocol
  import opened ContextValues
  import opened Grants
  import opened Validation

  datatype RawOperationScope = RawOperationScope(allow: Option<seq<string>>, deny: Option<seq<string>>)

  datatype RawResourceType = RawResourceType(
    all: bool,
    allow: Option<seq<RawSelector>>,
    deny: Option<seq<RawSelector>>,
    capabilities: TypeCapabilities,
    minting: MintingConstraints,
    audienceScope: Option<seq<RawAudienceEntry>>,
    operations: Option<RawOperationScope>)

  datatype RawTypeEntry = RawTypeEntry(name: string, type_: RawResourceType)

  /** The types are those of the raw map, in its key order. */
  datatype RawLists = RawLists(
    targetScope: RawScope, defaultAudienceScope: Option<seq<RawAudienceEntry>>, types: seq<RawTypeEntry>)

  datatype Lists = Lists(
    targetScope: Scope, defaultAudienceScope: seq<AudienceEntry>, resourceScope: map<string, ResourceType>)

  // ---- Operations ----

  function OperationOf(text: string): Result<string, TrustGrantError> {
    NormalizeToken("operation", text, MAX_OPERATION_NAME_BYTES)
  }

  function OperationNames(texts: seq<string>): Result<seq<string>, TrustGrantError> {
    if texts == [] then Ok([])
    else
      var front :- OperationNames(texts[..|texts| - 1]);
      var last :- OperationOf(texts[|texts| - 1]);
      Ok(front + [last])
  }

  function ValidateOperationNames(raw: Option<seq<string>>): Result<seq<string>, TrustGrantError> {
    var texts := raw.UnwrapOr([]);
    var _ :- EnsureCollectionLimit("operations", |texts|, MAX_OPERATIONS_PER_SCOPE);
    OperationNames(texts)
  }

  /** No operation name repeats. */
  predicate DistinctOperations(names: seq<string>)
    ensures DistinctOperations(names) <==> NoDuplicates(names)
  {
    forall i, j :: 0 <= i < j < |names| ==> names[i] != names[j]
  }

  function NewOperationScope(allow: seq<string>, deny: seq<string>): Result<OperationScope, TrustGrantError> {
    if allow == [] then Err(InvalidScopeShape("operations"))
    else if !DistinctOperations(allow) || !DistinctOperations(deny) then Err(DuplicateOperationName)
    else Ok(OperationScope(allow, deny))
  }

  function ValidateOperationScope(raw: RawOperationScope): Result<OperationScope, TrustGrantError> {
    var allow :- ValidateOperationNames(raw.allow);
    var deny :- ValidateOperationNames(raw.deny);
    NewOperationScope(allow, deny)
  }

  function ValidateOperations(raw: Option<RawOperationScope>): Result<Option<OperationScope>, TrustGrantError> {
    if raw.None? then Ok(None)
    else
      var scope :- ValidateOperationScope(raw.value);
      Ok(Some(scope))
  }

  // ---- Resource types ----

  const TYPES := "resource_scope.types"
  const TYPE_AUDIENCE := "resource_scope.audience_scope"

  function ValidateResourceType(raw: RawResourceType, lower: string -> string): Result<ResourceType, TrustGrantError> {
    var allow :- ValidatedSelectors(raw.allow);
    var deny :- ValidatedSelectors(raw.deny);
    var audience :- ValidatedAudience(TYPE_AUDIENCE, raw.audienceScope, lower);
    var operations :- ValidateOperations(raw.operations);
    var scope :- NewScope(TYPES, raw.all, allow, deny);
    Ok(ResourceType(scope, raw.capabilities, raw.minting, audience, operations))
  }

  /** Entries whose trimmed names collide overwrite each other, the last one staying. */
  function TypeEntries(entries: seq<RawTypeEntry>, lower: string -> string)
    : Result<map<string, ResourceType>, TrustGrantError>
  {
    if entries == [] then Ok(map[])
    else
      var front :- TypeEntries(entries[..|entries| - 1], lower);
      var last := entries[|entries| - 1];
      var name :- NormalizeToken("resource_type", last.name, MAX_RESOURCE_TYPE_NAME_BYTES);
      var type_ :- ValidateResourceType(last.type_, lower);
      Ok(front[name := type_])
  }

  function ValidateResourceScope(entries: seq<RawTypeEntry>, lower: string -> string)
    : Result<map<string, ResourceType>, TrustGrantError>
  {
    var _ :- EnsureCollectionLimit(TYPES, |entries|, MAX_RESOURCE_TYPES);
    TypeEntries(entries, lower)
  }

  // ---- The document ----

  const TARGET := "target_scope"
  const DEFAULT_AUDIENCE := "default_audience_scope"

  function ValidateLists(raw: RawLists, lower: string -> string): Result<Lists, TrustGrantError> {
    var target :- ValidateScope(TARGET, raw.targetScope);
    var audience :- ValidatedAudience(DEFAULT_AUDIENCE, raw.defaultAudienceScope, lower);
    var types :- ValidateResourceScope(raw.types, lower);
    Ok(Lists(target, audience, types))
  }

  /** The grant with its lists replaced. */
  function WithLists(g: VerifiedTrustGrant, lists: Lists): VerifiedTrustGrant {
    g.(document := g.document.(
      targetScope := lists.targetScope,
      defaultAudienceScope := lists.defaultAudienceScope,
      resourceScope := lists.resourceScope))
  }
}

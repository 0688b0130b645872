/** What a raw grant document permits: its evaluation after validation, read off the raw lists. */
module DocumentMeaning {
  import opened Wrappers
  import opened Protocol
  import opened SelectorKinds
  import opened ContextValues
  import opened Grants
  import opened Requests
  import opened Engine
  import opened EngineMeaning
  import opened Validation
  import opened DocumentValidation
  import opened RearrangedDocument
  import opened ValidationMeaning

  // ---- Audiences ----

  /** An entry is made of its authority, its scope and its principal scope, each validated for itself. */
  lemma EntryExact(scopeName: string, raw: RawAudienceEntry, lower: string -> string)
    ensures EntryOf(scopeName, raw, lower).Ok? <==>
            && NewAuthority(raw.authorityId, lower).Ok? && ValidateScope(scopeName, raw.scope).Ok?
            && (raw.principalScope.Some? ==> ValidateScope(scopeName, raw.principalScope.value).Ok?)
    ensures EntryOf(scopeName, raw, lower).Ok? ==>
              var e := EntryOf(scopeName, raw, lower).value;
              && NewAuthority(raw.authorityId, lower) == Ok(e.authorityId)
              && ValidateScope(scopeName, raw.scope) == Ok(e.scope)
              && e.principalScope.Some? == raw.principalScope.Some?
              && (raw.principalScope.Some? ==>
                    ValidateScope(scopeName, raw.principalScope.value) == Ok(e.principalScope.value))
  {
    hide NewAuthority, ValidateScope;
  }

  ghost predicate ScopePermits(raw: RawScope, m: KindValues) {
    RawPermits(raw, m) && !RawRefuses(raw, m)
  }

  /** The entry names the audience of the request and its scopes permit the audience and the principal. */
  ghost predicate EntryPermits(raw: RawAudienceEntry, lower: string -> string, r: EvaluationRequest) {
    && NewAuthority(raw.authorityId, lower) == Ok(r.audienceAuthority)
    && ScopePermits(raw.scope, Meaning(r.audienceContext))
    && (raw.principalScope.Some? ==> ScopePermits(raw.principalScope.value, Meaning(r.principalContext)))
  }

  ghost predicate AudiencePermits(raws: seq<RawAudienceEntry>, lower: string -> string, r: EvaluationRequest) {
    raws == [] || exists i :: 0 <= i < |raws| && EntryPermits(raws[i], lower, r)
  }

  lemma ScopeAllows(scopeName: string, raw: RawScope, c: ContextValue, denied: DenyReason, notAllowed: DenyReason)
    requires ValidateScope(scopeName, raw).Ok? && WellBuilt(c)
    ensures EvaluateScopeWithReasons(ValidateScope(scopeName, raw).value, c, denied, notAllowed).Allowed?
            <==> ScopePermits(raw, Meaning(c))
  {
    hide ValidateScope, RawPermits, RawRefuses, EvaluateScopeWithReasons, WellBuilt, Meaning;
    ScopeDecides(scopeName, raw, c, denied, notAllowed);
  }

  lemma EntryAllows(scopeName: string, raw: RawAudienceEntry, lower: string -> string, r: EvaluationRequest)
    requires ContextsBuilt(r) && EntryOf(scopeName, raw, lower).Ok?
    ensures EntryPermits(raw, lower, r) <==>
            && EntryOf(scopeName, raw, lower).value.authorityId == r.audienceAuthority
            && EvaluateAudience([EntryOf(scopeName, raw, lower).value], r).Allowed?
  {
    EntryExact(scopeName, raw, lower);
    hide EntryOf, NewAuthority, ValidateScope, ScopePermits, EvaluateScopeWithReasons, WellBuilt, Meaning;
    ScopeAllows(scopeName, raw.scope, r.audienceContext, AudienceDenied, AudienceNotAllowed);
    if raw.principalScope.Some? {
      ScopeAllows(scopeName, raw.principalScope.value, r.principalContext,
                  AudiencePrincipalDenied, AudiencePrincipalNotAllowed);
    }
  }

  /** Among unique authorities the one entry that names the audience decides. */
  lemma EntryDecides(entries: seq<AudienceEntry>, r: EvaluationRequest, i: nat)
    requires UniqueAuthorities(entries) && i < |entries| && entries[i].authorityId == r.audienceAuthority
    ensures EvaluateAudience(entries, r) == EvaluateAudience([entries[i]], r)
  {
    hide EvaluateScopeWithReasons;
    var j, k := FindAudience(entries, r.audienceAuthority), FindAudience([entries[i]], r.audienceAuthority);
    assert j == i && k == 0;
  }

  /** A validated audience admits exactly whom its raw entries permit. */
  lemma AudienceDecides(
    scopeName: string, raw: Option<seq<RawAudienceEntry>>, lower: string -> string, r: EvaluationRequest)
    requires ContextsBuilt(r) && ValidatedAudience(scopeName, raw, lower).Ok?
    ensures EvaluateAudience(ValidatedAudience(scopeName, raw, lower).value, r).Allowed?
            <==> AudiencePermits(raw.UnwrapOr([]), lower, r)
    ensures ValidatedAudience(scopeName, raw, lower).value == [] <==> raw.UnwrapOr([]) == []
  {
    var raws := raw.UnwrapOr([]);
    var entries := ValidatedAudience(scopeName, raw, lower).value;
    ValidatedEntriesIff(scopeName, raws, lower);
    ValidatedEntriesSound(scopeName, raws, lower);
    hide ValidatedEntries, EntryOf, Acceptable, WellBuilt, EntryPermits, UniqueAuthorities;
    var es := Entries(scopeName, raws, lower);
    if i: nat :| i < |raws| && EntryPermits(raws[i], lower, r) {
      assert es[i] == Ok(entries[i]);
      EntryAllows(scopeName, raws[i], lower, r);
      EntryDecides(entries, r, i);
    }
    if raws != [] && EvaluateAudience(entries, r).Allowed? {
      var i := FindAudience(entries, r.audienceAuthority);
      assert es[i] == Ok(entries[i]);
      EntryDecides(entries, r, i);
      EntryAllows(scopeName, raws[i], lower, r);
    }
  }

  // ---- Resource types ----

  function ScopeOf(raw: RawResourceType): RawScope {
    RawScope(raw.all, raw.allow, raw.deny)
  }

  /** A resource type is valid exactly when its scope, audience and operations are; it keeps its flags and limits. */
  lemma TypeExact(raw: RawResourceType, lower: string -> string)
    ensures ValidateResourceType(raw, lower).Ok? <==>
            && ValidateScope(TYPES, ScopeOf(raw)).Ok? && ValidatedAudience(TYPE_AUDIENCE, raw.audienceScope, lower).Ok?
            && ValidateOperations(raw.operations).Ok?
    ensures ValidateResourceType(raw, lower).Ok? ==>
              var t := ValidateResourceType(raw, lower).value;
              && ValidateScope(TYPES, ScopeOf(raw)) == Ok(t.scope)
              && t.capabilities == raw.capabilities && t.minting == raw.minting
              && ValidatedAudience(TYPE_AUDIENCE, raw.audienceScope, lower) == Ok(t.audienceScope)
              && ValidateOperations(raw.operations) == Ok(t.operations)
  {
    hide ValidatedSelectors, ValidatedAudience, ValidateOperations;
  }

  ghost predicate ChecksPass(checks: seq<Check>) {
    forall i :: 0 <= i < |checks| ==> checks[i].passes
  }

  /** Flag, scope, operation, audience (the default one without an own) and limits of a raw type permit the request. */
  ghost predicate TypePermits(
    granted: Capabilities, defaults: seq<RawAudienceEntry>, raw: RawResourceType, lower: string -> string,
    r: EvaluationRequest)
  {
    && CapabilityGranted(granted, raw.capabilities, r.operation)
    && ScopePermits(ScopeOf(raw), Meaning(r.resource.selectors))
    && RawOperationPermitted(raw.operations, r.operation)
    && AudiencePermits(if raw.audienceScope.UnwrapOr([]) == [] then defaults else raw.audienceScope.value, lower, r)
    && ChecksPass(MintChecks(raw.minting, r))
  }

  lemma TypeDecides(
    document: Document, defaults: Option<seq<RawAudienceEntry>>, raw: RawResourceType, lower: string -> string,
    r: EvaluationRequest)
    requires ContextsBuilt(r) && ValidateResourceType(raw, lower).Ok?
    requires ValidatedAudience(DEFAULT_AUDIENCE, defaults, lower) == Ok(document.defaultAudienceScope)
    ensures EvaluateResourceType(document, ValidateResourceType(raw, lower).value, r).Allowed?
            <==> TypePermits(document.capabilities, defaults.UnwrapOr([]), raw, lower, r)
  {
    TypeExact(raw, lower);
    var t := ValidateResourceType(raw, lower).value;
    hide ValidateResourceType, ValidateScope, ValidatedAudience, ValidateOperations, WellBuilt, Meaning, ScopePermits,
         AudiencePermits, RawOperationPermitted, EvaluateScopeWithReasons, EvaluateAudience, IsOperationAllowed,
         IsCapabilityEnabled, CapabilityGranted, EvaluateMintingConstraints, MintChecks, OperationPermitted;
    ScopeAllows(TYPES, ScopeOf(raw), r.resource.selectors, ResourceDenied, ResourceNotAllowed);
    OperationDecides(raw, t, r.operation);
    OperationRefines(t, r.operation);
    CapabilityRefines(document.capabilities, t, r.operation);
    AudienceDecides(TYPE_AUDIENCE, raw.audienceScope, lower, r);
    AudienceDecides(DEFAULT_AUDIENCE, defaults, lower, r);
    MintRefines(t.minting, r);
    FirstFailureExact(MintChecks(t.minting, r));
  }

  /** The raw entry that decides for a resource type: the last whose name trims to it. */
  ghost predicate Decides(entries: seq<RawTypeEntry>, i: nat, t: string) {
    && i < |entries| && TypeName(entries[i]) == Ok(t)
    && forall j :: i < j < |entries| ==> TypeName(entries[j]) != Ok(t)
  }

  function TypeName(e: RawTypeEntry): Result<string, TrustGrantError> {
    NormalizeToken("resource_type", e.name, MAX_RESOURCE_TYPE_NAME_BYTES)
  }

  /** The validated types are those of the raw entries, the last entry of a name deciding. */
  lemma {:induction false} TypesExact(entries: seq<RawTypeEntry>, lower: string -> string, t: string)
    requires TypeEntries(entries, lower).Ok?
    ensures t in TypeEntries(entries, lower).value <==> exists i: nat :: Decides(entries, i, t)
    ensures forall i: nat :: Decides(entries, i, t) ==>
              ValidateResourceType(entries[i].type_, lower) == Ok(TypeEntries(entries, lower).value[t])
  {
    hide NormalizeToken, ValidateResourceType;
    if entries != [] {
      var n := |entries| - 1;
      var front := entries[..n];
      TypesExact(front, lower, t);
      assert TypeName(entries[n]).Ok?;
      if TypeName(entries[n]) == Ok(t) {
        assert Decides(entries, n, t);
      } else {
        forall i: nat
          ensures Decides(entries, i, t) <==> Decides(front, i, t)
        {
          assert forall j :: 0 <= j < n ==> front[j] == entries[j];
        }
      }
    }
  }

  // ---- Documents ----

  /** Selectors verified, revocation, time and origin: the checks that read no list. */
  ghost predicate BesideLists(g: VerifiedTrustGrant, r: EvaluationRequest) {
    ChecksPass(GrantChecks(g, r)[..6])
  }

  /** The raw target scope permits, and so does the raw type that decides for the resource. */
  ghost predicate DocumentPermits(g: VerifiedTrustGrant, raw: RawLists, lower: string -> string, r: EvaluationRequest) {
    && ScopePermits(raw.targetScope, Meaning(r.targetContext))
    && exists i: nat ::
         && Decides(raw.types, i, r.resource.resourceType)
         && TypePermits(g.document.capabilities, raw.defaultAudienceScope.UnwrapOr([]), raw.types[i].type_, lower, r)
  }

  lemma BesideListsSame(g: VerifiedTrustGrant, lists: Lists, r: EvaluationRequest)
    ensures BesideLists(WithLists(g, lists), r) <==> BesideLists(g, r)
  {
    hide ScopeChecks, TypeChecks, Meaning;
    var a, b := GrantChecks(WithLists(g, lists), r)[..6], GrantChecks(g, r)[..6];
    assert a == b;
  }

  lemma HeadDecides(g: VerifiedTrustGrant, r: EvaluationRequest)
    requires ContextsBuilt(r)
    ensures EvaluateInner(g, r).Allowed? <==>
            && BesideLists(g, r)
            && EvaluateScopeWithReasons(g.document.targetScope, r.targetContext, TargetDenied, TargetNotAllowed).Allowed?
            && r.resource.resourceType in g.document.resourceScope
            && EvaluateResourceType(g.document, g.document.resourceScope[r.resource.resourceType], r).Allowed?
  {
    var head := GrantChecks(g, r)[..6];
    HeadRefines(g, r, head);
    FirstFailureExact(head);
    hide EvaluateScopeWithReasons, EvaluateResourceType, GrantChecks, EvaluateRevocation, EvaluateTimeWindow;
  }

  lemma DocumentDecides(g: VerifiedTrustGrant, raw: RawLists, lower: string -> string, r: EvaluationRequest)
    requires ContextsBuilt(r) && ValidateLists(raw, lower) == Ok(Lists(g.document.targetScope, g.document.defaultAudienceScope, g.document.resourceScope))
    ensures EvaluateInner(g, r).Allowed? <==> BesideLists(g, r) && DocumentPermits(g, raw, lower, r)
  {
    var t := r.resource.resourceType;
    HeadDecides(g, r);
    hide ValidateScope, ValidatedAudience, TypeEntries, EvaluateInner, BesideLists, ScopePermits, TypePermits, WellBuilt,
         Meaning, EvaluateScopeWithReasons, EvaluateResourceType, Decides;
    ScopeAllows(TARGET, raw.targetScope, r.targetContext, TargetDenied, TargetNotAllowed);
    TypesExact(raw.types, lower, t);
    forall i: nat | Decides(raw.types, i, t)
      ensures i < |raw.types|
      ensures t in g.document.resourceScope
      ensures EvaluateResourceType(g.document, g.document.resourceScope[t], r).Allowed?
              <==> TypePermits(g.document.capabilities, raw.defaultAudienceScope.UnwrapOr([]), raw.types[i].type_, lower, r)
    {
      DecidesWithin(raw.types, i, t);
      TypeDecides(g.document, raw.defaultAudienceScope, raw.types[i].type_, lower, r);
    }
  }

  lemma DecidesWithin(entries: seq<RawTypeEntry>, i: nat, t: string)
    requires Decides(entries, i, t)
    ensures i < |entries|
  {
  }

  /** A validated document allows exactly the requests its raw lists permit, the other checks passing. */
  lemma ValidatedDocumentDecides(g: VerifiedTrustGrant, raw: RawLists, lower: string -> string, r: EvaluationRequest)
    requires ContextsBuilt(r) && ValidateLists(raw, lower).Ok?
    ensures Evaluate(WithLists(g, ValidateLists(raw, lower).value), r).decision.IsAllowed()
            <==> BesideLists(g, r) && DocumentPermits(g, raw, lower, r)
  {
    hide ValidateLists, EvaluateInner, BesideLists, ContextsBuilt;
    var lists := ValidateLists(raw, lower).value;
    DocumentDecides(WithLists(g, lists), raw, lower, r);
    BesideListsSame(g, lists, r);
  }
}

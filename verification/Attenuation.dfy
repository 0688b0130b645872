/** How decisions change with the grant and the contexts: narrower grants, reordered grants, reordered inserts. */
module Attenuation {
  import opened Wrappers
  import opened SelectorKinds
  import opened ContextValues
  import opened Grants
  import opened Requests
  import opened Engine
  import opened EngineMeaning
  import opened Validation

  // ---- Selectors and scopes up to order ----

  /** Same kind and flag, and the same values and expressions in any order. */
  ghost predicate SameUpToOrder(s: Selector, t: Selector) {
    && KeyOf(s.kind) == KeyOf(t.kind) && s.all == t.all
    && ToSet(s.values) == ToSet(t.values) && ToSet(s.expressions) == ToSet(t.expressions)
  }

  /** Every selector of a occurs in b, up to order. */
  ghost predicate Within(a: seq<Selector>, b: seq<Selector>) {
    forall s :: s in a ==> exists t :: t in b && SameUpToOrder(s, t)
  }

  lemma SameHolds(s: Selector, t: Selector, m: KindValues)
    requires SameUpToOrder(s, t)
    ensures Holds(s, m) <==> Holds(t, m)
  {
    forall v
      ensures Accepts(s, v) <==> Accepts(t, v)
    {
      assert v in s.values <==> v in ToSet(s.values);
      assert v in t.values <==> v in ToSet(t.values);
      assert forall e :: e in s.expressions <==> e in ToSet(s.expressions);
      assert forall e :: e in t.expressions <==> e in ToSet(t.expressions);
    }
  }

  lemma WithinHolds(a: seq<Selector>, b: seq<Selector>, m: KindValues)
    requires Within(a, b) && SomeHolds(a, m)
    ensures SomeHolds(b, m)
  {
    hide Holds, SameUpToOrder;
    var s :| s in a && Holds(s, m);
    var t :| t in b && SameUpToOrder(s, t);
    SameHolds(s, t, m);
  }

  // ---- Attenuation ----

  /** The wider selector takes everything, or lists for the same kind whatever the narrower one lists. */
  ghost predicate NarrowerSelector(s: Selector, t: Selector) {
    t.all
    || (!s.all && KeyOf(s.kind) == KeyOf(t.kind)
        && ToSet(s.values) <= ToSet(t.values) && ToSet(s.expressions) <= ToSet(t.expressions))
  }

  /** Every selector of a is narrower than some selector of b. */
  ghost predicate CoveredBy(a: seq<Selector>, b: seq<Selector>) {
    forall s :: s in a ==> exists t :: t in b && NarrowerSelector(s, t)
  }

  lemma NarrowerHolds(s: Selector, t: Selector, m: KindValues)
    requires NarrowerSelector(s, t) && Holds(s, m)
    ensures Holds(t, m)
  {
    if !t.all {
      var v :| v in m[KeyOf(s.kind)] && Accepts(s, v);
      assert v in s.values ==> v in ToSet(s.values);
      assert forall e :: e in s.expressions ==> e in ToSet(s.expressions);
      assert Accepts(t, v);
    }
  }

  lemma CoveredHolds(a: seq<Selector>, b: seq<Selector>, m: KindValues)
    requires CoveredBy(a, b) && SomeHolds(a, m)
    ensures SomeHolds(b, m)
  {
    hide Holds, NarrowerSelector;
    var s :| s in a && Holds(s, m);
    var t :| t in b && NarrowerSelector(s, t);
    NarrowerHolds(s, t, m);
  }

  /** Narrower allow selectors and wider deny selectors; allowing everything may become a list. */
  ghost predicate NarrowerScope(n: Scope, w: Scope) {
    && (n.all ==> w.all)
    && (w.all || CoveredBy(n.allow, w.allow))
    && CoveredBy(w.deny, n.deny)
  }

  ghost predicate NarrowerPrincipal(n: Option<Scope>, w: Option<Scope>) {
    w.Some? ==> n.Some? && NarrowerScope(n.value, w.value)
  }

  /** The entry an authority finds in n is narrower than the one it finds in w; n may drop entries but not all. */
  ghost predicate NarrowerAudience(n: seq<AudienceEntry>, w: seq<AudienceEntry>) {
    w == [] || (n != [] && forall a ::
      var i, j := FindAudience(n, a), FindAudience(w, a);
      i < |n| ==> j < |w| && NarrowerScope(n[i].scope, w[j].scope)
                  && NarrowerPrincipal(n[i].principalScope, w[j].principalScope))
  }

  predicate NarrowerLimit(n: Option<u64>, w: Option<u64>) {
    w.Some? ==> n.Some? && n.value <= w.value
  }

  predicate NarrowerLimits(n: MintingConstraints, w: MintingConstraints) {
    NarrowerLimit(n.maxTotal, w.maxTotal) && NarrowerLimit(n.maxPerUser, w.maxPerUser)
  }

  predicate NarrowerOperations(n: Option<OperationScope>, w: Option<OperationScope>) {
    n == w || (n.Some? && w.Some? && ToSet(n.value.allow) <= ToSet(w.value.allow) && ToSet(w.value.deny) <= ToSet(n.value.deny))
  }

  predicate NarrowerWindow(n: Option<TimeWindow>, w: Option<TimeWindow>) {
    w.Some? ==> n.Some? && w.value.notBefore <= n.value.notBefore && n.value.notAfter <= w.value.notAfter
  }

  predicate FewerCapabilities(dn: Document, tn: ResourceType, dw: Document, tw: ResourceType) {
    && (tn.capabilities.recognize.UnwrapOr(dn.capabilities.recognize) ==>
          tw.capabilities.recognize.UnwrapOr(dw.capabilities.recognize))
    && (tn.capabilities.mint.UnwrapOr(dn.capabilities.mint) ==> tw.capabilities.mint.UnwrapOr(dw.capabilities.mint))
  }

  ghost predicate NarrowerType(dn: Document, tn: ResourceType, dw: Document, tw: ResourceType) {
    && FewerCapabilities(dn, tn, dw, tw)
    && NarrowerScope(tn.scope, tw.scope)
    && NarrowerOperations(tn.operations, tw.operations)
    && NarrowerAudience(AudienceScope(dn, tn), AudienceScope(dw, tw))
    && NarrowerLimits(tn.minting, tw.minting)
  }

  /** Grant n attenuates grant w. */
  ghost predicate Attenuates(n: VerifiedTrustGrant, w: VerifiedTrustGrant) {
    && n.document.originAuthority == w.document.originAuthority
    && n.revocation == w.revocation
    && (n.document.revocation == w.document.revocation || w.document.revocation == Some(BlockMintingOnly))
    && NarrowerWindow(n.document.timeWindow, w.document.timeWindow)
    && NarrowerScope(n.document.targetScope, w.document.targetScope)
    && n.document.resourceScope.Keys <= w.document.resourceScope.Keys
    && (forall t :: t in n.document.resourceScope ==>
          NarrowerType(n.document, n.document.resourceScope[t], w.document, w.document.resourceScope[t]))
  }

  lemma ScopeAttenuates(n: Scope, w: Scope, c: ContextValue, d: DenyReason, a: DenyReason, d': DenyReason, a': DenyReason)
    requires WellBuilt(c) && NarrowerScope(n, w)
    requires EvaluateScopeWithReasons(n, c, d, a).Allowed?
    ensures EvaluateScopeWithReasons(w, c, d', a').Allowed?
  {
    hide WellBuilt, Meaning, AnyMatches, SomeHolds, CoveredBy;
    AnyMeaning(n.allow, c);
    AnyMeaning(n.deny, c);
    AnyMeaning(w.allow, c);
    AnyMeaning(w.deny, c);
    if !w.all { CoveredHolds(n.allow, w.allow, Meaning(c)); }
    if SomeHolds(w.deny, Meaning(c)) { CoveredHolds(w.deny, n.deny, Meaning(c)); }
  }

  lemma AudienceAttenuates(n: seq<AudienceEntry>, w: seq<AudienceEntry>, r: EvaluationRequest)
    requires ContextsBuilt(r) && NarrowerAudience(n, w)
    requires EvaluateAudience(n, r).Allowed?
    ensures EvaluateAudience(w, r).Allowed?
  {
    hide WellBuilt, NarrowerScope, EvaluateScopeWithReasons;
    if w != [] {
      var i, j := FindAudience(n, r.audienceAuthority), FindAudience(w, r.audienceAuthority);
      ScopeAttenuates(n[i].scope, w[j].scope, r.audienceContext,
                      AudienceDenied, AudienceNotAllowed, AudienceDenied, AudienceNotAllowed);
      if w[j].principalScope.Some? {
        ScopeAttenuates(n[i].principalScope.value, w[j].principalScope.value, r.principalContext,
                        AudiencePrincipalDenied, AudiencePrincipalNotAllowed,
                        AudiencePrincipalDenied, AudiencePrincipalNotAllowed);
      }
    }
  }

  lemma OperationAttenuates(n: ResourceType, w: ResourceType, operation: RequestedOperation)
    requires NarrowerOperations(n.operations, w.operations) && IsOperationAllowed(n, operation).Allowed?
    ensures IsOperationAllowed(w, operation).Allowed?
  {
    hide OperationName;
    if n.operations.Some? && w.operations.Some? {
      var name := OperationName(operation);
      assert name in ToSet(n.operations.value.allow);
      assert name in w.operations.value.deny ==> name in ToSet(w.operations.value.deny);
      if n.operations != w.operations {
        assert name in ToSet(w.operations.value.allow);
      }
    }
  }

  lemma TypeAttenuates(dn: Document, tn: ResourceType, dw: Document, tw: ResourceType, r: EvaluationRequest)
    requires ContextsBuilt(r) && NarrowerType(dn, tn, dw, tw)
    requires EvaluateResourceType(dn, tn, r).Allowed?
    ensures EvaluateResourceType(dw, tw, r).Allowed?
  {
    hide WellBuilt, NarrowerScope, EvaluateScopeWithReasons, NarrowerAudience, EvaluateAudience, NarrowerOperations,
         IsOperationAllowed, AudienceScope;
    ScopeAttenuates(tn.scope, tw.scope, r.resource.selectors,
                    ResourceDenied, ResourceNotAllowed, ResourceDenied, ResourceNotAllowed);
    OperationAttenuates(tn, tw, r.operation);
    AudienceAttenuates(AudienceScope(dn, tn), AudienceScope(dw, tw), r);
  }

  /** Every request an attenuated grant allows is allowed by the grant it attenuates. */
  lemma AttenuationSound(n: VerifiedTrustGrant, w: VerifiedTrustGrant, r: EvaluationRequest)
    requires ContextsBuilt(r) && Attenuates(n, w)
    requires Evaluate(n, r).decision.IsAllowed()
    ensures Evaluate(w, r).decision.IsAllowed()
  {
    hide WellBuilt, NarrowerScope, EvaluateScopeWithReasons, NarrowerType, EvaluateResourceType;
    ScopeAttenuates(n.document.targetScope, w.document.targetScope, r.targetContext,
                    TargetDenied, TargetNotAllowed, TargetDenied, TargetNotAllowed);
    var t := r.resource.resourceType;
    assert t in n.document.resourceScope.Keys;
    TypeAttenuates(n.document, n.document.resourceScope[t], w.document, w.document.resourceScope[t], r);
  }

  function WithAudiences(g: VerifiedTrustGrant, t: string, typeList: seq<AudienceEntry>, defaults: seq<AudienceEntry>)
    : VerifiedTrustGrant
    requires t in g.document.resourceScope
  {
    var type_ := g.document.resourceScope[t].(audienceScope := typeList);
    g.(document := g.document.(
      defaultAudienceScope := defaults, resourceScope := g.document.resourceScope[t := type_]))
  }

  lemma TypeBesideAudience(d: Document, u: Document, a: ResourceType, b: ResourceType, r: EvaluationRequest)
    requires u.capabilities == d.capabilities && b == a.(audienceScope := b.audienceScope)
    requires EvaluateAudience(AudienceScope(u, b), r).Allowed?
    ensures EvaluateResourceType(d, a, r).Allowed? <==>
            EvaluateAudience(AudienceScope(d, a), r).Allowed? && EvaluateResourceType(u, b, r).Allowed?
  {
    hide EvaluateAudience, AudienceScope, EvaluateScopeWithReasons, OperationName;
  }

  /** The audience is one check among the others. */
  lemma DecisionBesideAudience(
    g: VerifiedTrustGrant, t: string, typeList: seq<AudienceEntry>, defaults: seq<AudienceEntry>, r: EvaluationRequest)
    requires t == r.resource.resourceType && t in g.document.resourceScope
    ensures Evaluate(WithAudiences(g, t, typeList, defaults), r).decision.IsAllowed() <==>
            && EvaluateAudience(if typeList == [] then defaults else typeList, r).Allowed?
            && Evaluate(WithAudiences(g, t, [], []), r).decision.IsAllowed()
  {
    var v, u := WithAudiences(g, t, typeList, defaults), WithAudiences(g, t, [], []);
    hide EvaluateAudience, EvaluateScopeWithReasons, EvaluateResourceType;
    NobodyListed(r);
    TypeBesideAudience(v.document, u.document, v.document.resourceScope[t], u.document.resourceScope[t], r);
    assert EvaluateRevocation(v, r) == EvaluateRevocation(u, r);
  }

  lemma NobodyListed(r: EvaluationRequest)
    ensures EvaluateAudience([], r).Allowed?
  {
  }

  /** Emptying a type's own audience list is no attenuation: of the requests its list refused, the grant then
      allows those that the default audience admits and the other checks pass, all of them when there is none. */
  lemma EmptiedAudienceWidens(g: VerifiedTrustGrant, r: EvaluationRequest)
    requires var t := r.resource.resourceType;
             && t in g.document.resourceScope && g.document.resourceScope[t].audienceScope != []
             && EvaluateAudience(g.document.resourceScope[t].audienceScope, r).Denied?
    ensures var t := r.resource.resourceType;
            && !Evaluate(g, r).decision.IsAllowed()
            && (Evaluate(WithAudiences(g, t, [], g.document.defaultAudienceScope), r).decision.IsAllowed() <==>
                  && EvaluateAudience(g.document.defaultAudienceScope, r).Allowed?
                  && Evaluate(WithAudiences(g, t, [], []), r).decision.IsAllowed())
  {
    hide EvaluateAudience, Evaluate;
    var t, defaults := r.resource.resourceType, g.document.defaultAudienceScope;
    DecisionBesideAudience(g, t, g.document.resourceScope[t].audienceScope, defaults, r);
    DecisionBesideAudience(g, t, [], defaults, r);
    SameAudiences(g, t);
  }

  lemma SameAudiences(g: VerifiedTrustGrant, t: string)
    requires t in g.document.resourceScope
    ensures WithAudiences(g, t, g.document.resourceScope[t].audienceScope, g.document.defaultAudienceScope) == g
  {
    var type_ := g.document.resourceScope[t];
    assert type_.(audienceScope := type_.audienceScope) == type_;
    assert g.document.resourceScope[t := type_] == g.document.resourceScope;
  }

  /** An authority missing from the type's list but taken whole by the default list is then admitted. */
  lemma DefaultAdmits(g: VerifiedTrustGrant, r: EvaluationRequest, i: nat)
    requires var t := r.resource.resourceType;
             && t in g.document.resourceScope && g.document.resourceScope[t].audienceScope != []
             && FindAudience(g.document.resourceScope[t].audienceScope, r.audienceAuthority)
                == |g.document.resourceScope[t].audienceScope|
             && Evaluate(WithAudiences(g, t, [], []), r).decision.IsAllowed()
    requires i == FindAudience(g.document.defaultAudienceScope, r.audienceAuthority) < |g.document.defaultAudienceScope|
    requires g.document.defaultAudienceScope[i].scope == Scope(true, [], [])
    requires g.document.defaultAudienceScope[i].principalScope == None
    ensures !Evaluate(g, r).decision.IsAllowed()
    ensures Evaluate(WithAudiences(g, r.resource.resourceType, [], g.document.defaultAudienceScope), r).decision.IsAllowed()
  {
    hide Evaluate;
    EmptiedAudienceWidens(g, r);
  }

  // ---- Reordered grants ----

  ghost predicate SameScope(a: Scope, b: Scope) {
    a.all == b.all && Within(a.allow, b.allow) && Within(b.allow, a.allow) && Within(a.deny, b.deny) && Within(b.deny, a.deny)
  }

  ghost predicate SameEntry(a: AudienceEntry, b: AudienceEntry) {
    && a.authorityId == b.authorityId && SameScope(a.scope, b.scope)
    && a.principalScope.Some? == b.principalScope.Some?
    && (a.principalScope.Some? ==> SameScope(a.principalScope.value, b.principalScope.value))
  }

  ghost predicate EntriesWithin(a: seq<AudienceEntry>, b: seq<AudienceEntry>) {
    forall e :: e in a ==> exists f :: f in b && SameEntry(e, f)
  }

  /** One entry per authority, as validation guarantees, and the same entries in any order. */
  ghost predicate SameAudience(a: seq<AudienceEntry>, b: seq<AudienceEntry>) {
    UniqueAuthorities(a) && UniqueAuthorities(b) && EntriesWithin(a, b) && EntriesWithin(b, a)
  }

  ghost predicate SameType(a: ResourceType, b: ResourceType) {
    && SameScope(a.scope, b.scope) && a.capabilities == b.capabilities && a.minting == b.minting
    && SameAudience(a.audienceScope, b.audienceScope)
    && a.operations.Some? == b.operations.Some?
    && (a.operations.Some? ==>
          && ToSet(a.operations.value.allow) == ToSet(b.operations.value.allow)
          && ToSet(a.operations.value.deny) == ToSet(b.operations.value.deny))
  }

  /** The grants differ only in the order of selectors, values, expressions, operations and audience entries. */
  ghost predicate Reordered(a: VerifiedTrustGrant, b: VerifiedTrustGrant) {
    && a.revocation == b.revocation
    && a.document.originAuthority == b.document.originAuthority
    && a.document.capabilities == b.document.capabilities
    && a.document.timeWindow == b.document.timeWindow
    && a.document.revocation == b.document.revocation
    && SameScope(a.document.targetScope, b.document.targetScope)
    && SameAudience(a.document.defaultAudienceScope, b.document.defaultAudienceScope)
    && a.document.resourceScope.Keys == b.document.resourceScope.Keys
    && (forall t :: t in a.document.resourceScope ==> SameType(a.document.resourceScope[t], b.document.resourceScope[t]))
  }

  lemma WithinIff(a: seq<Selector>, b: seq<Selector>, m: KindValues)
    requires Within(a, b) && Within(b, a)
    ensures SomeHolds(a, m) <==> SomeHolds(b, m)
  {
    hide Within, SomeHolds;
    if SomeHolds(a, m) { WithinHolds(a, b, m); }
    if SomeHolds(b, m) { WithinHolds(b, a, m); }
  }

  lemma SameScopeChecks(a: Scope, b: Scope, m: KindValues, d: DenyReason, n: DenyReason)
    requires SameScope(a, b)
    ensures ScopeChecks(a, m, d, n) == ScopeChecks(b, m, d, n)
  {
    hide Within, SomeHolds;
    WithinIff(a.allow, b.allow, m);
    WithinIff(a.deny, b.deny, m);
  }

  lemma EntryFound(entries: seq<AudienceEntry>, e: AudienceEntry)
    requires UniqueAuthorities(entries) && e in entries
    ensures FindAudience(entries, e.authorityId) < |entries| && entries[FindAudience(entries, e.authorityId)] == e
  {
    var k :| 0 <= k < |entries| && entries[k] == e;
    var i := FindAudience(entries, e.authorityId);
    assert i <= k;
  }

  lemma SameAudienceFinds(a: seq<AudienceEntry>, b: seq<AudienceEntry>, authority: string)
    requires SameAudience(a, b) && FindAudience(a, authority) < |a|
    ensures FindAudience(b, authority) < |b|
    ensures SameEntry(a[FindAudience(a, authority)], b[FindAudience(b, authority)])
  {
    hide SameScope;
    var e := a[FindAudience(a, authority)];
    assert e in a;
    var f :| f in b && SameEntry(e, f);
    EntryFound(b, f);
  }

  lemma EntriesWithinNonEmpty(a: seq<AudienceEntry>, b: seq<AudienceEntry>)
    requires EntriesWithin(a, b) && a != []
    ensures b != []
  {
    hide SameEntry;
    assert a[0] in a;
  }

  lemma SameEntrySymmetric(a: seq<AudienceEntry>, b: seq<AudienceEntry>)
    requires SameAudience(a, b)
    ensures SameAudience(b, a) && (a == [] <==> b == [])
  {
    hide EntriesWithin, UniqueAuthorities;
    if a != [] { EntriesWithinNonEmpty(a, b); }
    if b != [] { EntriesWithinNonEmpty(b, a); }
  }

  lemma SameAudienceChecks(a: seq<AudienceEntry>, b: seq<AudienceEntry>, r: EvaluationRequest)
    requires SameAudience(a, b)
    ensures AudienceChecks(a, r) == AudienceChecks(b, r)
  {
    hide SameScope, ScopeChecks, Meaning, SameAudience;
    SameEntrySymmetric(a, b);
    var i, j := FindAudience(a, r.audienceAuthority), FindAudience(b, r.audienceAuthority);
    if j < |b| { SameAudienceFinds(b, a, r.audienceAuthority); }
    if i < |a| {
      SameAudienceFinds(a, b, r.audienceAuthority);
      SameScopeChecks(a[i].scope, b[j].scope, Meaning(r.audienceContext), AudienceDenied, AudienceNotAllowed);
      if a[i].principalScope.Some? {
        SameScopeChecks(a[i].principalScope.value, b[j].principalScope.value, Meaning(r.principalContext),
                        AudiencePrincipalDenied, AudiencePrincipalNotAllowed);
      }
    }
  }

  lemma SameOperations(a: ResourceType, b: ResourceType, operation: RequestedOperation)
    requires SameType(a, b)
    ensures OperationPermitted(a, operation) <==> OperationPermitted(b, operation)
  {
    hide SameScope, SameAudience;
    if a.operations.Some? {
      forall name
        ensures name in a.operations.value.allow <==> name in b.operations.value.allow
        ensures name in a.operations.value.deny <==> name in b.operations.value.deny
      {
        assert name in a.operations.value.allow <==> name in ToSet(a.operations.value.allow);
        assert name in b.operations.value.allow <==> name in ToSet(b.operations.value.allow);
        assert name in a.operations.value.deny <==> name in ToSet(a.operations.value.deny);
        assert name in b.operations.value.deny <==> name in ToSet(b.operations.value.deny);
      }
    }
  }

  lemma SameTypeChecks(da: Document, a: ResourceType, db: Document, b: ResourceType, r: EvaluationRequest)
    requires SameType(a, b) && da.capabilities == db.capabilities
    requires SameAudience(da.defaultAudienceScope, db.defaultAudienceScope)
    ensures TypeChecks(da, a, r) == TypeChecks(db, b, r)
  {
    hide SameScope, ScopeChecks, Meaning, SameAudience, AudienceChecks, MintChecks, OperationPermitted;
    SameOperations(a, b, r.operation);
    SameScopeChecks(a.scope, b.scope, Meaning(r.resource.selectors), ResourceDenied, ResourceNotAllowed);
    SameEntrySymmetric(a.audienceScope, b.audienceScope);
    SameAudienceChecks(AudienceScope(da, a), AudienceScope(db, b), r);
  }

  /** Order inside a validated grant never changes a decision or its reason. */
  lemma ReorderingKeepsDecision(a: VerifiedTrustGrant, b: VerifiedTrustGrant, r: EvaluationRequest)
    requires ContextsBuilt(r) && Reordered(a, b)
    ensures EvaluateInner(a, r) == EvaluateInner(b, r)
  {
    hide WellBuilt, EvaluateInner, SameScope, ScopeChecks, Meaning, SameAudience, TypeChecks, SameType;
    EngineRefines(a, r);
    EngineRefines(b, r);
    SameScopeChecks(a.document.targetScope, b.document.targetScope, Meaning(r.targetContext), TargetDenied, TargetNotAllowed);
    var t := r.resource.resourceType;
    assert t in a.document.resourceScope.Keys <==> t in b.document.resourceScope.Keys;
    if t in a.document.resourceScope {
      SameTypeChecks(a.document, a.document.resourceScope[t], b.document, b.document.resourceScope[t], r);
    }
  }

  // ---- Reordered inserts ----

  /** The requests differ only in contexts, and those mean the same. */
  ghost predicate SameMeaning(r: EvaluationRequest, q: EvaluationRequest) {
    && q == r.(targetContext := q.targetContext, audienceContext := q.audienceContext,
               principalContext := q.principalContext,
               resource := ResourceContext(r.resource.resourceType, q.resource.selectors))
    && Meaning(r.targetContext) == Meaning(q.targetContext)
    && Meaning(r.audienceContext) == Meaning(q.audienceContext)
    && Meaning(r.principalContext) == Meaning(q.principalContext)
    && Meaning(r.resource.selectors) == Meaning(q.resource.selectors)
  }

  lemma TypeChecksReadMeaning(document: Document, type_: ResourceType, r: EvaluationRequest, q: EvaluationRequest)
    requires SameMeaning(r, q)
    ensures TypeChecks(document, type_, r) == TypeChecks(document, type_, q)
  {
    hide Meaning, ScopeChecks, AudienceScope, IsCapabilityEnabled, OperationPermitted;
    assert AudienceChecks(AudienceScope(document, type_), r) == AudienceChecks(AudienceScope(document, type_), q);
    assert MintChecks(type_.minting, r) == MintChecks(type_.minting, q);
  }

  /** Decisions read nothing of a context but its meaning. */
  lemma DecisionReadsMeaning(g: VerifiedTrustGrant, r: EvaluationRequest, q: EvaluationRequest)
    requires ContextsBuilt(r) && ContextsBuilt(q) && SameMeaning(r, q)
    ensures EvaluateInner(g, r) == EvaluateInner(g, q)
  {
    hide WellBuilt, EvaluateInner, Meaning, ScopeChecks, TypeChecks;
    EngineRefines(g, r);
    EngineRefines(g, q);
    if r.resource.resourceType in g.document.resourceScope {
      TypeChecksReadMeaning(g.document, g.document.resourceScope[r.resource.resourceType], r, q);
    }
    assert GrantChecks(g, r) == GrantChecks(g, q);
  }

  /** The order in which the selectors of a context were inserted never changes a decision. */
  lemma InsertOrderKeepsDecision(g: VerifiedTrustGrant, r: EvaluationRequest, a: seq<Pair>, b: seq<Pair>)
    requires ContextsBuilt(r) && multiset(a) == multiset(b)
    requires InsertAll(a).Ok?
    ensures InsertAll(b).Ok?
    ensures EvaluateInner(g, r.(principalContext := InsertAll(a).value))
            == EvaluateInner(g, r.(principalContext := InsertAll(b).value))
    ensures EvaluateInner(g, r.(targetContext := InsertAll(a).value))
            == EvaluateInner(g, r.(targetContext := InsertAll(b).value))
    ensures EvaluateInner(g, r.(audienceContext := InsertAll(a).value))
            == EvaluateInner(g, r.(audienceContext := InsertAll(b).value))
    ensures EvaluateInner(g, r.(resource := ResourceContext(r.resource.resourceType, InsertAll(a).value)))
            == EvaluateInner(g, r.(resource := ResourceContext(r.resource.resourceType, InsertAll(b).value)))
  {
    hide WellBuilt, EvaluateInner, Meaning, InsertAll;
    InsertionOrderIrrelevant(a, b);
    InsertAllBuilt(a);
    InsertAllBuilt(b);
    var c, d := InsertAll(a).value, InsertAll(b).value;
    DecisionReadsMeaning(g, r.(principalContext := c), r.(principalContext := d));
    DecisionReadsMeaning(g, r.(targetContext := c), r.(targetContext := d));
    DecisionReadsMeaning(g, r.(audienceContext := c), r.(audienceContext := d));
    DecisionReadsMeaning(g, r.(resource := ResourceContext(r.resource.resourceType, c)),
                         r.(resource := ResourceContext(r.resource.resourceType, d)));
  }
}

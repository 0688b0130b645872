/** The engine against its set meaning: contexts as maps from kinds to value sets, checks as an ordered list. */
module EngineMeaning {
  import opened Wrappers
  import opened SelectorKinds
  import opened SelectorExpressions
  import opened ContextValues
  import opened Grants
  import opened Requests
  import opened Engine

  type KindValues = map<KindKey, set<string>>

  // ---- Set meaning ----

  /** Some value of the selector's kind is listed, or matches an expression. */
  ghost predicate Holds(s: Selector, m: KindValues) {
    s.all || (KeyOf(s.kind) in m && exists v :: v in m[KeyOf(s.kind)] && Accepts(s, v))
  }

  ghost predicate Accepts(s: Selector, v: string) {
    v in s.values || exists e :: e in s.expressions && Describes(e, v)
  }

  ghost predicate SomeHolds(selectors: seq<Selector>, m: KindValues) {
    exists s :: s in selectors && Holds(s, m)
  }

  ghost predicate Permits(scope: Scope, m: KindValues) {
    scope.all || SomeHolds(scope.allow, m)
  }

  ghost predicate Refuses(scope: Scope, m: KindValues) {
    SomeHolds(scope.deny, m)
  }

  // ---- The checks in their fixed order ----

  datatype Check = Check(passes: bool, reason: DenyReason)

  /** The reason of the earliest failing check. */
  function FirstFailure(checks: seq<Check>): Verdict {
    if checks == [] then Allowed
    else if checks[0].passes then FirstFailure(checks[1..])
    else Denied(checks[0].reason)
  }

  ghost function ScopeChecks(scope: Scope, m: KindValues, denied: DenyReason, notAllowed: DenyReason): seq<Check> {
    [Check(Permits(scope, m), notAllowed), Check(!Refuses(scope, m), denied)]
  }

  ghost function AudienceChecks(entries: seq<AudienceEntry>, r: EvaluationRequest): seq<Check> {
    if entries == [] then []
    else
      var i := FindAudience(entries, r.audienceAuthority);
      if i == |entries| then [Check(false, AudienceNotAllowed)]
      else
        ScopeChecks(entries[i].scope, Meaning(r.audienceContext), AudienceDenied, AudienceNotAllowed)
        + match entries[i].principalScope
          case None => []
          case Some(scope) =>
            ScopeChecks(scope, Meaning(r.principalContext), AudiencePrincipalDenied, AudiencePrincipalNotAllowed)
  }

  /** Quotas over unbounded sums; a quota at the largest counter value never refuses here. */
  predicate WithinQuota(current: u64, requested: u64, limit: Option<u64>) {
    limit.Some? && limit.value < U64_MAX ==> current + requested <= limit.value
  }

  ghost function MintChecks(limits: MintingConstraints, r: EvaluationRequest): seq<Check> {
    if r.operation != MINT then []
    else if r.mintContext.None? then
      [Check(limits == MintingConstraints(None, None), MissingMintContext)]
    else
      var m := r.mintContext.value;
      [Check(WithinQuota(m.currentTotal, m.requested, limits.maxTotal), MintTotalLimitReached),
       Check(limits.maxPerUser.Some? ==> Meaning(r.principalContext) != map[], MissingAudiencePrincipalContext),
       Check(WithinQuota(m.currentForAudience, m.requested, limits.maxPerUser), MintPerUserLimitReached)]
  }

  ghost predicate OperationPermitted(type_: ResourceType, operation: RequestedOperation) {
    match type_.operations
    case None => operation == Capability(Recognize)
    case Some(scope) =>
      var name := match operation
                  case Capability(Recognize) => "recognize"
                  case Capability(Mint) => "create"
                  case Custom(custom) => custom;
      name in scope.allow && name !in scope.deny
  }

  /** The flag of the type decides, and without one the flag of the grant; custom operations need none. */
  predicate CapabilityGranted(granted: Capabilities, flags: TypeCapabilities, operation: RequestedOperation) {
    && (operation == Capability(Recognize) ==>
          flags.recognize == Some(true) || (flags.recognize == None && granted.recognize))
    && (operation == Capability(Mint) ==> flags.mint == Some(true) || (flags.mint == None && granted.mint))
  }

  ghost function TypeChecks(document: Document, type_: ResourceType, r: EvaluationRequest): seq<Check> {
    [Check(CapabilityGranted(document.capabilities, type_.capabilities, r.operation), CapabilityDisabled)]
    + (ScopeChecks(type_.scope, Meaning(r.resource.selectors), ResourceDenied, ResourceNotAllowed)
       + ([Check(OperationPermitted(type_, r.operation), OperationDenied)]
          + (AudienceChecks(if type_.audienceScope == [] then document.defaultAudienceScope else type_.audienceScope, r)
             + MintChecks(type_.minting, r))))
  }

  ghost function GrantChecks(g: VerifiedTrustGrant, r: EvaluationRequest): seq<Check> {
    var current := g.revocation.Checked? ==> r.evaluatedAt <= g.revocation.freshUntil;
    var live := g.revocation.Checked? && g.revocation.status == RevocationStatus.Revoked ==>
                  g.document.revocation == Some(BlockMintingOnly) && r.operation != MINT;
    [Check(r.operation == MINT ==> r.selectorsVerified, UnverifiedSelectors),
     Check(current, StaleRevocationData),
     Check(live, DenyReason.Revoked),
     Check(g.document.timeWindow.Some? ==> g.document.timeWindow.value.notBefore <= r.evaluatedAt, NotYetValid),
     Check(g.document.timeWindow.Some? ==> r.evaluatedAt <= g.document.timeWindow.value.notAfter, Expired),
     Check((r.binding.Existing? ==> r.binding.resource.originAuthority == g.document.originAuthority)
           && (r.binding.ToMint? ==> r.binding.template.originAuthority == g.document.originAuthority),
           OriginAuthorityMismatch)]
    + (ScopeChecks(g.document.targetScope, Meaning(r.targetContext), TargetDenied, TargetNotAllowed)
       + (if r.resource.resourceType in g.document.resourceScope then
            TypeChecks(g.document, g.document.resourceScope[r.resource.resourceType], r)
          else [Check(false, ResourceTypeNotGranted)]))
  }

  // ---- Refinement ----

  lemma ValuesMeaning(s: Selector, values: seq<string>)
    ensures AnyListed(s.values, values) <==> AnyHashed(s.values, ToSet(values))
    ensures AnyListed(s.values, values) || AnyExpression(s.expressions, values)
            <==> exists v :: v in ToSet(values) && Accepts(s, v)
  {
    hide SelectorExpression.Matches, Describes;
    forall e: SelectorExpression, v: string
      ensures e.Matches(v) <==> Describes(e, v)
    {
      MatchesDescribes(e, v);
    }
    forall v | v in ToSet(values) && Accepts(s, v)
      ensures AnyListed(s.values, values) || AnyExpression(s.expressions, values)
    {
      var j :| 0 <= j < |values| && values[j] == v;
      if v in s.values {
        var i :| 0 <= i < |s.values| && s.values[i] == v;
      } else {
        var e :| e in s.expressions && Describes(e, v);
        assert e.Matches(v);
        var i :| 0 <= i < |s.expressions| && s.expressions[i] == e;
      }
    }
    if AnyListed(s.values, values) {
      var i :| 0 <= i < |s.values| && exists j :: 0 <= j < |values| && values[j] == s.values[i];
      assert s.values[i] in ToSet(values) && Accepts(s, s.values[i]);
    }
    if AnyExpression(s.expressions, values) {
      var i :| 0 <= i < |s.expressions| && exists j :: 0 <= j < |values| && s.expressions[i].Matches(values[j]);
      var j :| 0 <= j < |values| && s.expressions[i].Matches(values[j]);
      assert s.expressions[i] in s.expressions;
      assert values[j] in ToSet(values) && Accepts(s, values[j]);
    }
  }

  /** Both lookup strategies, linear and hashed, decide the set meaning. */
  lemma SelectorMeaning(s: Selector, c: ContextValue)
    requires WellBuilt(c)
    ensures SelectorMatchesContext(s, c) <==> Holds(s, Meaning(c))
  {
    hide WellBuilt, Meaning, Accepts, AnyListed, AnyHashed, AnyExpression, ToSet;
    LookupMeaning(c, s.kind);
    var found := ValuesForKind(c, s.kind);
    if found.Some? {
      ValuesMeaning(s, found.value);
    }
  }

  lemma AnyMeaning(selectors: seq<Selector>, c: ContextValue)
    requires WellBuilt(c)
    ensures AnyMatches(selectors, c) <==> SomeHolds(selectors, Meaning(c))
  {
    hide WellBuilt, Meaning, Holds, SelectorMatchesContext;
    forall s
      ensures SelectorMatchesContext(s, c) <==> Holds(s, Meaning(c))
    {
      SelectorMeaning(s, c);
    }
  }

  lemma {:induction false} FirstFailureAppend(a: seq<Check>, b: seq<Check>)
    ensures FirstFailure(a + b) == if FirstFailure(a).Allowed? then FirstFailure(b) else FirstFailure(a)
  {
    if a == [] {
      assert a + b == b;
    } else {
      assert (a + b)[1..] == a[1..] + b;
      FirstFailureAppend(a[1..], b);
    }
  }

  lemma FirstFailureCons(c: Check, rest: seq<Check>)
    ensures FirstFailure([c] + rest) == if c.passes then FirstFailure(rest) else Denied(c.reason)
    ensures [c] + [] == [c]
    ensures forall d :: [c] + [d] == [c, d]
  {
    assert ([c] + rest)[1..] == rest;
  }

  /** FirstFailure is what its name says. */
  lemma {:induction false} FirstFailureExact(checks: seq<Check>)
    ensures FirstFailure(checks).Allowed? <==> forall i :: 0 <= i < |checks| ==> checks[i].passes
    ensures forall i :: 0 <= i < |checks| && !checks[i].passes && (forall j :: 0 <= j < i ==> checks[j].passes) ==>
              FirstFailure(checks) == Denied(checks[i].reason)
  {
    if checks != [] {
      FirstFailureExact(checks[1..]);
      assert forall i :: 1 <= i < |checks| ==> checks[i] == checks[1..][i - 1];
      forall i | 0 <= i < |checks| && !checks[i].passes && (forall j :: 0 <= j < i ==> checks[j].passes)
        ensures FirstFailure(checks) == Denied(checks[i].reason)
      {
        if i > 0 {
          assert checks[0].passes;
          assert !checks[1..][i - 1].passes;
          assert forall j :: 0 <= j < i - 1 ==> checks[1..][j] == checks[j + 1];
        }
      }
    }
  }

  lemma ScopeRefines(scope: Scope, c: ContextValue, denied: DenyReason, notAllowed: DenyReason)
    requires WellBuilt(c)
    ensures EvaluateScopeWithReasons(scope, c, denied, notAllowed)
            == FirstFailure(ScopeChecks(scope, Meaning(c), denied, notAllowed))
  {
    hide WellBuilt, Meaning, AnyMatches, SomeHolds;
    AnyMeaning(scope.allow, c);
    AnyMeaning(scope.deny, c);
    FirstFailureCons(Check(Permits(scope, Meaning(c)), notAllowed), [Check(!Refuses(scope, Meaning(c)), denied)]);
    FirstFailureCons(Check(!Refuses(scope, Meaning(c)), denied), []);
  }

  lemma AudienceRefines(entries: seq<AudienceEntry>, r: EvaluationRequest)
    requires ContextsBuilt(r)
    ensures EvaluateAudience(entries, r) == FirstFailure(AudienceChecks(entries, r))
  {
    hide WellBuilt, Meaning, ScopeChecks, EvaluateScopeWithReasons;
    var i := FindAudience(entries, r.audienceAuthority);
    if i < |entries| {
      ScopeRefines(entries[i].scope, r.audienceContext, AudienceDenied, AudienceNotAllowed);
      var first := ScopeChecks(entries[i].scope, Meaning(r.audienceContext), AudienceDenied, AudienceNotAllowed);
      match entries[i].principalScope {
        case None =>
          FirstFailureAppend(first, []);
        case Some(scope) =>
          ScopeRefines(scope, r.principalContext, AudiencePrincipalDenied, AudiencePrincipalNotAllowed);
          FirstFailureAppend(
            first,
            ScopeChecks(scope, Meaning(r.principalContext), AudiencePrincipalDenied, AudiencePrincipalNotAllowed));
      }
    }
  }

  lemma MintRefines(limits: MintingConstraints, r: EvaluationRequest)
    requires ContextsBuilt(r)
    ensures EvaluateMintingConstraints(limits, r) == FirstFailure(MintChecks(limits, r))
  {
    hide WellBuilt;
    assert r.principalContext.entries == [] <==> Meaning(r.principalContext) == map[] by {
      MeaningEmpty(r.principalContext.entries);
    }
    hide Meaning;
    var checks := MintChecks(limits, r);
    if |checks| == 3 {
      FirstFailureCons(checks[0], [checks[1], checks[2]]);
      FirstFailureCons(checks[1], [checks[2]]);
      FirstFailureCons(checks[2], []);
    }
  }

  lemma MeaningEmpty(entries: seq<SelectorValues>)
    ensures entries == [] <==> EntriesMeaning(entries) == map[]
  {
    if entries != [] {
      assert KeyOf(entries[|entries| - 1].kind) in EntriesMeaning(entries);
    }
  }

  lemma CapabilityRefines(granted: Capabilities, type_: ResourceType, operation: RequestedOperation)
    ensures IsCapabilityEnabled(granted, type_, operation)
            <==> CapabilityGranted(granted, type_.capabilities, operation)
  {
  }

  lemma OperationRefines(type_: ResourceType, operation: RequestedOperation)
    ensures IsOperationAllowed(type_, operation)
            == if OperationPermitted(type_, operation) then Allowed else Denied(OperationDenied)
  {
  }

  lemma TypeRefines(document: Document, type_: ResourceType, r: EvaluationRequest)
    requires ContextsBuilt(r)
    ensures EvaluateResourceType(document, type_, r) == FirstFailure(TypeChecks(document, type_, r))
  {
    hide WellBuilt, Meaning, ScopeChecks, EvaluateScopeWithReasons, AudienceChecks, EvaluateAudience, MintChecks,
         EvaluateMintingConstraints, CapabilityGranted, OperationPermitted;
    CapabilityRefines(document.capabilities, type_, r.operation);
    OperationRefines(type_, r.operation);
    var capability := [Check(CapabilityGranted(document.capabilities, type_.capabilities, r.operation), CapabilityDisabled)];
    var scope := ScopeChecks(type_.scope, Meaning(r.resource.selectors), ResourceDenied, ResourceNotAllowed);
    var operation := [Check(OperationPermitted(type_, r.operation), OperationDenied)];
    var audience := AudienceChecks(AudienceScope(document, type_), r);
    var mint := MintChecks(type_.minting, r);
    ScopeRefines(type_.scope, r.resource.selectors, ResourceDenied, ResourceNotAllowed);
    AudienceRefines(AudienceScope(document, type_), r);
    MintRefines(type_.minting, r);
    FirstFailureAppend(audience, mint);
    FirstFailureAppend(operation, audience + mint);
    FirstFailureAppend(scope, operation + (audience + mint));
    FirstFailureAppend(capability, scope + (operation + (audience + mint)));
  }

  /** The engine denies with the reason of the earliest failing check, and allows when all checks pass. */
  lemma EngineRefines(g: VerifiedTrustGrant, r: EvaluationRequest)
    requires ContextsBuilt(r)
    ensures EvaluateInner(g, r) == FirstFailure(GrantChecks(g, r))
    ensures Evaluate(g, r).decision.IsAllowed() <==>
            forall i :: 0 <= i < |GrantChecks(g, r)| ==> GrantChecks(g, r)[i].passes
    ensures forall i :: 0 <= i < |GrantChecks(g, r)| && !GrantChecks(g, r)[i].passes
                        && (forall j :: 0 <= j < i ==> GrantChecks(g, r)[j].passes) ==>
              Evaluate(g, r).decision.denyReason == Some(GrantChecks(g, r)[i].reason)
    ensures Evaluate(g, r).decision.trustgrantId == g.trustgrantId && Evaluate(g, r).request == r
  {
    hide WellBuilt, Meaning, ScopeChecks, EvaluateScopeWithReasons, TypeChecks, EvaluateResourceType;
    var checks := GrantChecks(g, r);
    FirstFailureExact(checks);
    var head := checks[..6];
    var target := ScopeChecks(g.document.targetScope, Meaning(r.targetContext), TargetDenied, TargetNotAllowed);
    var rest := if r.resource.resourceType in g.document.resourceScope then
                  TypeChecks(g.document, g.document.resourceScope[r.resource.resourceType], r)
                else [Check(false, ResourceTypeNotGranted)];
    assert checks == head + (target + rest);
    FirstFailureAppend(head, target + rest);
    FirstFailureAppend(target, rest);
    ScopeRefines(g.document.targetScope, r.targetContext, TargetDenied, TargetNotAllowed);
    if r.resource.resourceType in g.document.resourceScope {
      TypeRefines(g.document, g.document.resourceScope[r.resource.resourceType], r);
    }
    HeadRefines(g, r, head);
  }

  /** The checks that come before any scope. */
  lemma HeadRefines(g: VerifiedTrustGrant, r: EvaluationRequest, head: seq<Check>)
    requires head == GrantChecks(g, r)[..6]
    ensures FirstFailure(head) ==
            if r.operation == MINT && !r.selectorsVerified then Denied(UnverifiedSelectors)
            else if EvaluateRevocation(g, r).Denied? then EvaluateRevocation(g, r)
            else if EvaluateTimeWindow(g.document.timeWindow, r).Denied? then
              EvaluateTimeWindow(g.document.timeWindow, r)
            else if r.binding.OriginAuthority() != g.document.originAuthority then Denied(OriginAuthorityMismatch)
            else Allowed
  {
    hide Meaning, ScopeChecks, TypeChecks;
    var checks := GrantChecks(g, r);
    assert head == [checks[0]] + ([checks[1], checks[2]] + ([checks[3], checks[4]] + [checks[5]]));
    FirstFailureAppend([checks[0]], [checks[1], checks[2]] + ([checks[3], checks[4]] + [checks[5]]));
    FirstFailureAppend([checks[1], checks[2]], [checks[3], checks[4]] + [checks[5]]);
    FirstFailureAppend([checks[3], checks[4]], [checks[5]]);
    assert [checks[1], checks[2]][1..] == [checks[2]];
    assert [checks[3], checks[4]][1..] == [checks[4]];
  }

  /** What is allowed has its own flag: the type's, or without one the grant's; custom operations need none. */
  lemma CapabilityDecides(g: VerifiedTrustGrant, r: EvaluationRequest)
    requires r.resource.resourceType in g.document.resourceScope
    ensures var flags := g.document.resourceScope[r.resource.resourceType].capabilities;
            var decision := Evaluate(g, r).decision;
            && (r.operation == Capability(Mint) && decision.IsAllowed() ==>
                  flags.mint == Some(true) || (flags.mint == None && g.document.capabilities.mint))
            && (r.operation == Capability(Recognize) && decision.IsAllowed() ==>
                  flags.recognize == Some(true) || (flags.recognize == None && g.document.capabilities.recognize))
            && (decision.denyReason == Some(CapabilityDisabled) ==>
                  || (r.operation == Capability(Mint)
                      && (flags.mint == Some(false) || (flags.mint == None && !g.document.capabilities.mint)))
                  || (r.operation == Capability(Recognize)
                      && (flags.recognize == Some(false) || (flags.recognize == None && !g.document.capabilities.recognize))))
  {
    hide EvaluateScopeWithReasons, EvaluateMintingConstraints, EvaluateAudience, IsOperationAllowed;
    var type_ := g.document.resourceScope[r.resource.resourceType];
    OtherReasons(g.document, type_, r);
    ScopeReasons(g.document.targetScope, r.targetContext, TargetDenied, TargetNotAllowed);
    if Evaluate(g, r).decision.IsAllowed() {
      assert EvaluateResourceType(g.document, type_, r).Allowed?;
    }
  }

  lemma ScopeReasons(scope: Scope, c: ContextValue, denied: DenyReason, notAllowed: DenyReason)
    ensures EvaluateScopeWithReasons(scope, c, denied, notAllowed) in {Allowed, Denied(denied), Denied(notAllowed)}
  {
    hide AnyMatches;
  }

  lemma OtherReasons(document: Document, type_: ResourceType, r: EvaluationRequest)
    ensures EvaluateResourceType(document, type_, r) == Denied(CapabilityDisabled)
            <==> !IsCapabilityEnabled(document.capabilities, type_, r.operation)
  {
    hide EvaluateScopeWithReasons, IsCapabilityEnabled, OperationName;
    ScopeReasons(type_.scope, r.resource.selectors, ResourceDenied, ResourceNotAllowed);
    var entries := AudienceScope(document, type_);
    var i := FindAudience(entries, r.audienceAuthority);
    if i < |entries| {
      ScopeReasons(entries[i].scope, r.audienceContext, AudienceDenied, AudienceNotAllowed);
      if entries[i].principalScope.Some? {
        ScopeReasons(entries[i].principalScope.value, r.principalContext,
                     AudiencePrincipalDenied, AudiencePrincipalNotAllowed);
      }
    }
  }
}

/** What one call does to the ledger, and the invariants it keeps. */
module Ledger {
  import opened Wrappers
  import opened Grants
  import opened Requests
  import opened Execution
  import opened Sums
  import Engine
  import StableKeys

  /** The callback may fail, but on success leaves the transaction state as it found it. */
  ghost predicate WellBehaved<T>(apply: Callback<T>) {
    forall s, a :: apply(s, a).result.Ok? ==> apply(s, a).transaction == s
  }

  predicate WasApplied<T>(r: Result<ExecutionResult<T>, ExecutionError>) {
    r.Ok? && r.value.Applied?
  }

  // ---- Applied calls ----

  /** An applied mint adds its quantity to both counters, without overflow, and records its authorization. */
  lemma AppliedMint<T>(s: LedgerState, g: VerifiedTrustGrant, m: MutationRequest, f: Callback<T>)
    requires Bound(m) && WellBehaved(f) && m.IsMint() && WasApplied(Step(s, g, m, f).1)
    ensures var (t, r) := Step(s, g, m, f);
            var a, k, p, q := Authorize(s, g, m), TotalKeyOf(g, m), PrincipalKeyOf(g, m), RequestedQuantity(m.request);
            && m.intentId !in s.processed && a.outcome.decision.IsAllowed()
            && r.value.authorization == a && RequestedQuantity(a.outcome.request) == q
            && Total(s, k) + q <= U64_MAX && PerPrincipal(s, p) + q <= U64_MAX
            && t == LedgerState(
                      s.resourceVersions, s.totalMints[k := Total(s, k) + q],
                      s.mintsForPrincipal[p := PerPrincipal(s, p) + q],
                      s.processed[m.intentId := a], s.auditLog + [a])
  {
    hide Matches, Engine.EvaluateInner, TotalKeyOf, PrincipalKeyOf;
    var a := Authorize(s, g, m);
    var outcome := f(Logged(s, a), a);
  }

  /** An applied mutation of a resource expected its current version, which it advances by one. */
  lemma AppliedExisting<T>(s: LedgerState, g: VerifiedTrustGrant, m: MutationRequest, f: Callback<T>)
    requires Bound(m) && WellBehaved(f) && !m.IsMint() && WasApplied(Step(s, g, m, f).1)
    ensures var (t, r) := Step(s, g, m, f);
            var a, key := Authorize(s, g, m), ResourceKeyOf(m.request.binding.resource).value;
            && m.intentId !in s.processed && a.outcome.decision.IsAllowed() && r.value.authorization == a
            && key in s.resourceVersions && s.resourceVersions[key] < U64_MAX
            && m.request.binding.resource.expectedVersion == Some(s.resourceVersions[key])
            && t == LedgerState(
                      s.resourceVersions[key := s.resourceVersions[key] + 1], s.totalMints, s.mintsForPrincipal,
                      s.processed[m.intentId := a], s.auditLog + [a])
  {
    hide Matches, Engine.EvaluateInner, TotalKeyOf, PrincipalKeyOf;
    var a := Authorize(s, g, m);
    var outcome := f(Logged(s, a), a);
  }

  // ---- Every outcome ----

  /** What is recorded of a call: the request as evaluated, under the ledger's counters, and who asked for it. */
  lemma AuthorizationCarries(s: LedgerState, g: VerifiedTrustGrant, m: MutationRequest)
    ensures var a, r := Authorize(s, g, m), m.request;
            && a.actor == m.actor && a.intentId == m.intentId && a.envelopeExpiresAt == m.envelopeExpiresAt
            && a.outcome.decision.trustgrantId == g.trustgrantId
            && (!m.IsMint() ==> a.outcome.request == r)
            && (m.IsMint() ==>
                  a.outcome.request == r.(mintContext := Some(MintContext(
                    Total(s, MintTotalKey(g.trustgrantId, r.resource.resourceType)),
                    PerPrincipal(s, MintPrincipalKey(MintTotalKey(g.trustgrantId, r.resource.resourceType),
                                                     StableKeys.StableKey(r.principalContext))),
                    if r.mintContext.Some? then r.mintContext.value.requested else 1))))
  {
    hide Engine.EvaluateInner, StableKeys.StableKey;
  }

  /** A new intent that is not allowed is denied. */
  lemma DeniedOutcome<T>(s: LedgerState, g: VerifiedTrustGrant, m: MutationRequest, f: Callback<T>)
    requires m.intentId !in s.processed && !Authorize(s, g, m).outcome.decision.IsAllowed()
    ensures Step(s, g, m, f) == (Logged(s, Authorize(s, g, m)), Ok(Denied(Authorize(s, g, m))))
  {
    hide Engine.EvaluateInner, TotalKeyOf, PrincipalKeyOf;
  }

  /** An allowed mutation of a resource: unknown when unregistered, stale with the current version when it expected
      another, and otherwise applied unless the callback fails or the version is the largest. */
  lemma ExistingOutcome<T>(s: LedgerState, g: VerifiedTrustGrant, m: MutationRequest, f: Callback<T>)
    requires Bound(m) && !m.IsMint() && m.intentId !in s.processed && Authorize(s, g, m).outcome.decision.IsAllowed()
    ensures var a, current := Authorize(s, g, m), ResourceVersion(s, m.request.binding.resource);
            var outcome := f(Logged(s, a), a);
            && (current == None ==> Step(s, g, m, f) == (s, Err(UnknownResource)))
            && (current.Some? && current != m.request.binding.resource.expectedVersion ==>
                  Step(s, g, m, f) == (Logged(s, a), Ok(Stale(a, current.value))))
            && (current.Some? && current == m.request.binding.resource.expectedVersion && outcome.result.Err? ==>
                  Step(s, g, m, f) == (s, Err(outcome.result.error)))
            && (current.Some? && current == m.request.binding.resource.expectedVersion
                && outcome == CallbackOutcome(Logged(s, a), outcome.result) && outcome.result.Ok? ==>
                  if current.value == U64_MAX then Step(s, g, m, f) == (s, Err(CounterOverflow))
                  else Step(s, g, m, f).1 == Ok(Applied(a, outcome.result.value)))
  {
    hide Engine.EvaluateInner, TotalKeyOf, PrincipalKeyOf, Matches;
    var a := Authorize(s, g, m);
    var outcome := f(Logged(s, a), a);
  }

  /** An allowed mint: applied unless the callback fails or one of the two sums overflows. */
  lemma MintOutcome<T>(s: LedgerState, g: VerifiedTrustGrant, m: MutationRequest, f: Callback<T>)
    requires Bound(m) && m.IsMint() && m.intentId !in s.processed && Authorize(s, g, m).outcome.decision.IsAllowed()
    ensures var a := Authorize(s, g, m);
            var outcome := f(Logged(s, a), a);
            var q := if m.request.mintContext.Some? then m.request.mintContext.value.requested else 1;
            && (outcome.result.Err? ==> Step(s, g, m, f) == (s, Err(outcome.result.error)))
            && (outcome == CallbackOutcome(Logged(s, a), outcome.result) && outcome.result.Ok? ==>
                  if Total(s, TotalKeyOf(g, m)) + q > U64_MAX || PerPrincipal(s, PrincipalKeyOf(g, m)) + q > U64_MAX
                  then Step(s, g, m, f) == (s, Err(CounterOverflow))
                  else
                    && Step(s, g, m, f).1 == Ok(Applied(a, outcome.result.value))
                    && Total(Step(s, g, m, f).0, TotalKeyOf(g, m)) == Total(s, TotalKeyOf(g, m)) + q)
  {
    hide Engine.EvaluateInner, TotalKeyOf, PrincipalKeyOf, Matches;
    var a := Authorize(s, g, m);
    var outcome := f(Logged(s, a), a);
    assert RequestedQuantity(a.outcome.request) == RequestedQuantity(m.request);
  }

  // ---- Quotas ----

  /** Every grant of one id carries these limits for each of its resource types. */
  type Limits = MintTotalKey -> MintingConstraints

  ghost predicate CarriesLimits(g: VerifiedTrustGrant, limits: Limits) {
    forall t :: t in g.document.resourceScope ==>
      g.document.resourceScope[t].minting == limits(MintTotalKey(g.trustgrantId, t))
  }

  predicate UpTo(count: nat, limit: Option<u64>) {
    limit.Some? ==> count <= limit.value
  }

  ghost predicate WithinLimits(s: LedgerState, limits: Limits) {
    && (forall k :: k in s.totalMints ==> UpTo(s.totalMints[k], limits(k).maxTotal))
    && (forall p :: p in s.mintsForPrincipal ==> UpTo(s.mintsForPrincipal[p], limits(p.totalKey).maxPerUser))
  }

  /** The saturating check admits a sum over the limit only when the sum overflows and the limit is the largest. */
  lemma CheckedSumWithinLimit(current: u64, quantity: u64, limit: u64)
    ensures SaturatingAdd(current, quantity) <= limit
            <==> current + quantity <= limit || limit == U64_MAX
    ensures SaturatingAdd(current, quantity) <= limit && CheckedAdd(current, quantity).Some? ==>
              current + quantity <= limit
  {
  }

  lemma AllowedMintWithinQuota(s: LedgerState, g: VerifiedTrustGrant, m: MutationRequest)
    requires m.IsMint() && Authorize(s, g, m).outcome.decision.IsAllowed()
    ensures m.request.resource.resourceType in g.document.resourceScope
    ensures var limits := g.document.resourceScope[m.request.resource.resourceType].minting;
            var q := RequestedQuantity(m.request);
            && (limits.maxTotal.Some? ==>
                  SaturatingAdd(Total(s, TotalKeyOf(g, m)), q) <= limits.maxTotal.value)
            && (limits.maxPerUser.Some? ==>
                  SaturatingAdd(PerPrincipal(s, PrincipalKeyOf(g, m)), q) <= limits.maxPerUser.value)
  {
    hide Engine.EvaluateScopeWithReasons, Engine.EvaluateAudience, Engine.IsOperationAllowed,
         Engine.IsCapabilityEnabled, Engine.EvaluateRevocation, Engine.EvaluateTimeWindow, PrincipalKeyOf, TotalKeyOf;
    var r := EvaluationRequestFor(s, g, m);
    assert Engine.EvaluateInner(g, r).Allowed?;
    var type_ := g.document.resourceScope[r.resource.resourceType];
    assert Engine.EvaluateResourceType(g.document, type_, r).Allowed?;
    assert Engine.EvaluateMintingConstraints(type_.minting, r).Allowed?;
  }

  /** Right after an applied mint both counters respect the limits of the grant it was made under. */
  lemma AppliedMintWithinLimits<T>(s: LedgerState, g: VerifiedTrustGrant, m: MutationRequest, f: Callback<T>)
    requires Bound(m) && WellBehaved(f) && m.IsMint() && WasApplied(Step(s, g, m, f).1)
    ensures m.request.resource.resourceType in g.document.resourceScope
    ensures var t := Step(s, g, m, f).0;
            var limits := g.document.resourceScope[m.request.resource.resourceType].minting;
            && UpTo(Total(t, TotalKeyOf(g, m)), limits.maxTotal)
            && UpTo(PerPrincipal(t, PrincipalKeyOf(g, m)), limits.maxPerUser)
  {
    hide Step, Authorize, TotalKeyOf, PrincipalKeyOf;
    AppliedMint(s, g, m, f);
    AllowedMintWithinQuota(s, g, m);
  }

  /** A mint the engine allows but whose sum overflows fails at commit and changes nothing. */
  lemma OverflowStopsAtCommit<T>(s: LedgerState, g: VerifiedTrustGrant, m: MutationRequest, f: Callback<T>)
    requires Bound(m) && WellBehaved(f) && m.IsMint() && m.intentId !in s.processed
    requires Authorize(s, g, m).outcome.decision.IsAllowed()
    requires f(Logged(s, Authorize(s, g, m)), Authorize(s, g, m)).result.Ok?
    requires Total(s, TotalKeyOf(g, m)) + RequestedQuantity(m.request) > U64_MAX
    ensures Step(s, g, m, f) == (s, Err(CounterOverflow))
    ensures var limits := g.document.resourceScope[m.request.resource.resourceType].minting;
            limits.maxTotal.None? || limits.maxTotal.value == U64_MAX
  {
    hide Matches, Engine.EvaluateInner, TotalKeyOf, PrincipalKeyOf;
    AllowedMintWithinQuota(s, g, m);
    var a := Authorize(s, g, m);
    var outcome := f(Logged(s, a), a);
    assert RequestedQuantity(a.outcome.request) == RequestedQuantity(m.request);
  }

  /** The ledger after a mint of q under key k by principal p, recorded as a. */
  function AfterMint(s: LedgerState, k: MintTotalKey, p: MintPrincipalKey, q: Quantity, a: MutationAuthorization)
    : LedgerState
    requires Total(s, k) + q <= U64_MAX && PerPrincipal(s, p) + q <= U64_MAX
  {
    LedgerState(
      s.resourceVersions, s.totalMints[k := Total(s, k) + q], s.mintsForPrincipal[p := PerPrincipal(s, p) + q],
      s.processed[a.intentId := a], s.auditLog + [a])
  }

  lemma MintKeepsLimits(
    s: LedgerState, k: MintTotalKey, p: MintPrincipalKey, q: Quantity, a: MutationAuthorization, limits: Limits)
    requires WithinLimits(s, limits)
    requires Total(s, k) + q <= U64_MAX && PerPrincipal(s, p) + q <= U64_MAX
    requires UpTo(Total(s, k) + q, limits(k).maxTotal) && UpTo(PerPrincipal(s, p) + q, limits(p.totalKey).maxPerUser)
    ensures WithinLimits(AfterMint(s, k, p, q, a), limits)
  {
  }

  /** Every call keeps both counters within the limits. */
  lemma StepKeepsLimits<T>(s: LedgerState, g: VerifiedTrustGrant, m: MutationRequest, f: Callback<T>, limits: Limits)
    requires Bound(m) && WellBehaved(f) && CarriesLimits(g, limits) && WithinLimits(s, limits)
    ensures WithinLimits(Step(s, g, m, f).0, limits)
  {
    hide Step, TotalKeyOf, PrincipalKeyOf, Authorize;
    StepIsAtomic(s, g, m, f);
    if WasApplied(Step(s, g, m, f).1) {
      if m.IsMint() {
        AppliedMint(s, g, m, f);
        AppliedMintWithinLimits(s, g, m, f);
        var k, p := TotalKeyOf(g, m), PrincipalKeyOf(g, m);
        MintKeysOf(g, m);
        AuthorizedIntent(s, g, m);
        MintKeepsLimits(s, k, p, RequestedQuantity(m.request), Authorize(s, g, m), limits);
      } else {
        AppliedExisting(s, g, m, f);
      }
    }
  }

  lemma AuthorizedIntent(s: LedgerState, g: VerifiedTrustGrant, m: MutationRequest)
    ensures Authorize(s, g, m).intentId == m.intentId
  {
  }

  lemma MintKeysOf(g: VerifiedTrustGrant, m: MutationRequest)
    ensures PrincipalKeyOf(g, m).totalKey == TotalKeyOf(g, m)
    ensures TotalKeyOf(g, m) == MintTotalKey(g.trustgrantId, m.request.resource.resourceType)
  {
  }

  // ---- Conservation ----

  /** The quantity an authorization contributes to the mints of k. */
  function MintedBy(a: MutationAuthorization, k: MintTotalKey): nat {
    if a.outcome.decision.IsAllowed() && a.outcome.request.operation == MINT
       && MintTotalKey(a.outcome.decision.trustgrantId, a.outcome.request.resource.resourceType) == k
    then RequestedQuantity(a.outcome.request) else 0
  }

  function OfPrincipals(k: MintTotalKey): (MintPrincipalKey, u64) -> nat {
    (p: MintPrincipalKey, n: u64) => if p.totalKey == k then n else 0
  }

  function OfRecords(k: MintTotalKey): (string, MutationAuthorization) -> nat {
    (i: string, a: MutationAuthorization) => MintedBy(a, k)
  }

  function OfLog(k: MintTotalKey): MutationAuthorization -> nat {
    (a: MutationAuthorization) => MintedBy(a, k)
  }

  /** The total of k, the sum over its principals, over processed records, and over the audit log all agree. */
  ghost predicate ConservedAt(s: LedgerState, k: MintTotalKey) {
    && Total(s, k) == SumOver(s.mintsForPrincipal, OfPrincipals(k))
    && Total(s, k) == SumOver(s.processed, OfRecords(k))
    && Total(s, k) == SumSeq(s.auditLog, OfLog(k))
  }

  ghost predicate Conserved(s: LedgerState) {
    forall k :: ConservedAt(s, k)
  }

  lemma AuthorizedQuantity(s: LedgerState, g: VerifiedTrustGrant, m: MutationRequest, k: MintTotalKey)
    ensures MintedBy(Authorize(s, g, m), k) ==
            if Authorize(s, g, m).outcome.decision.IsAllowed() && m.IsMint() && TotalKeyOf(g, m) == k
            then RequestedQuantity(m.request) else 0
  {
    hide Engine.EvaluateInner, StableKeys.StableKey;
  }

  lemma MintConserves(
    s: LedgerState, k: MintTotalKey, p: MintPrincipalKey, q: Quantity, a: MutationAuthorization, at: MintTotalKey)
    requires ConservedAt(s, at) && a.intentId !in s.processed && p.totalKey == k
    requires MintedBy(a, at) == if k == at then q else 0
    requires Total(s, k) + q <= U64_MAX && PerPrincipal(s, p) + q <= U64_MAX
    ensures ConservedAt(AfterMint(s, k, p, q, a), at)
  {
    hide MintedBy;
    SumSeqAppend(s.auditLog, OfLog(at), a);
    SumUpdate(s.processed, OfRecords(at), a.intentId, a);
    SumUpdate<MintPrincipalKey, u64>(s.mintsForPrincipal, OfPrincipals(at), p, PerPrincipal(s, p) + q);
  }

  /** Records that mint nothing, logged or also processed, change no sum. */
  lemma OthersConserve(s: LedgerState, a: MutationAuthorization, at: MintTotalKey)
    requires ConservedAt(s, at) && MintedBy(a, at) == 0
    ensures ConservedAt(Logged(s, a), at)
    ensures a.intentId !in s.processed ==>
              ConservedAt(Logged(s, a).(processed := s.processed[a.intentId := a]), at)
  {
    hide MintedBy;
    SumSeqAppend(s.auditLog, OfLog(at), a);
    SumUpdate(s.processed, OfRecords(at), a.intentId, a);
  }

  lemma VersionsConserve(s: LedgerState, versions: map<ResourceKey, u64>, at: MintTotalKey)
    requires ConservedAt(s, at)
    ensures ConservedAt(s.(resourceVersions := versions), at)
  {
  }

  /** Every call keeps the four counts of minted instances equal. */
  lemma StepConserves<T>(s: LedgerState, g: VerifiedTrustGrant, m: MutationRequest, f: Callback<T>, at: MintTotalKey)
    requires Bound(m) && WellBehaved(f) && ConservedAt(s, at)
    ensures ConservedAt(Step(s, g, m, f).0, at)
  {
    hide Step, Authorize, PrincipalKeyOf, TotalKeyOf, ConservedAt, MintedBy;
    var a := Authorize(s, g, m);
    AuthorizedIntent(s, g, m);
    StepIsAtomic(s, g, m, f);
    LoggedIsAuthorized(s, g, m, f);
    MintKeysOf(g, m);
    AuthorizedQuantity(s, g, m, at);
    var r := Step(s, g, m, f).1;
    if WasApplied(r) {
      if m.IsMint() {
        AppliedMint(s, g, m, f);
        MintConserves(s, TotalKeyOf(g, m), PrincipalKeyOf(g, m), RequestedQuantity(m.request), a, at);
      } else {
        AppliedExisting(s, g, m, f);
        OthersConserve(s, a, at);
        VersionsConserve(Logged(s, a).(processed := s.processed[a.intentId := a]), Step(s, g, m, f).0.resourceVersions, at);
      }
    } else if r.Ok? && (r.value.Denied? || r.value.Stale?) {
      OthersConserve(s, a, at);
    }
  }

  /** A call that only logs, logs a denied mint or an allowed non-mint. */
  lemma LoggedIsAuthorized<T>(s: LedgerState, g: VerifiedTrustGrant, m: MutationRequest, f: Callback<T>)
    requires Bound(m)
    ensures var r := Step(s, g, m, f).1;
            r.Ok? && (r.value.Denied? || r.value.Stale?) ==>
              && r.value.authorization == Authorize(s, g, m)
              && (r.value.Denied? ==> !r.value.authorization.outcome.decision.IsAllowed())
              && (r.value.Stale? ==> !m.IsMint())
  {
    hide Matches, Engine.EvaluateInner, TotalKeyOf, PrincipalKeyOf;
  }

  // ---- Records ----

  /** A call keeps every processed record, and adds one exactly when it is applied. */
  lemma StepKeepsRecords<T>(s: LedgerState, g: VerifiedTrustGrant, m: MutationRequest, f: Callback<T>)
    requires Bound(m) && WellBehaved(f)
    ensures var (t, r) := Step(s, g, m, f);
            && (WasApplied(r) ==> m.intentId !in s.processed
                                  && t.processed == s.processed[m.intentId := r.value.authorization])
            && (!WasApplied(r) ==> t.processed == s.processed)
  {
    StepIsAtomic(s, g, m, f);
    if WasApplied(Step(s, g, m, f).1) {
      hide Step;
      if m.IsMint() { AppliedMint(s, g, m, f); } else { AppliedExisting(s, g, m, f); }
    }
  }

  /** Calls that log append exactly one record; the others leave the log alone. */
  lemma StepExtendsLog<T>(s: LedgerState, g: VerifiedTrustGrant, m: MutationRequest, f: Callback<T>)
    requires Bound(m) && WellBehaved(f)
    ensures var (t, r) := Step(s, g, m, f);
            t.auditLog == if r.Ok? && (r.value.Applied? || r.value.Denied? || r.value.Stale?)
                          then s.auditLog + [r.value.authorization] else s.auditLog
  {
    StepIsAtomic(s, g, m, f);
    if WasApplied(Step(s, g, m, f).1) {
      hide Step;
      if m.IsMint() { AppliedMint(s, g, m, f); } else { AppliedExisting(s, g, m, f); }
    }
  }

  /** The stored request differs from the submitted one only in its mint context. */
  lemma AppliedMatchesItself<T>(s: LedgerState, g: VerifiedTrustGrant, m: MutationRequest, f: Callback<T>)
    requires Bound(m) && WellBehaved(f) && WasApplied(Step(s, g, m, f).1)
    ensures var a := Step(s, g, m, f).1.value.authorization;
            && a.outcome.decision.trustgrantId == g.trustgrantId
            && SameMutationIntent(a.outcome.request, m.request)
  {
    if m.IsMint() { AppliedMint(s, g, m, f); } else { AppliedExisting(s, g, m, f); }
    hide Step, Engine.EvaluateInner, SameMutationIntent, TotalKeyOf, PrincipalKeyOf;
    var r := EvaluationRequestFor(s, g, m);
    SameIntentEquivalence(m.request, r, r, r.mintContext);
    assert r == m.request.(mintContext := r.mintContext);
  }

  /** A processed intent never runs again: it is a duplicate exactly for the same grant id and binding. */
  lemma ProcessedNeverRuns<T>(s: LedgerState, g: VerifiedTrustGrant, m: MutationRequest, f: Callback<T>)
    requires m.intentId in s.processed
    ensures var previous := s.processed[m.intentId];
            Step(s, g, m, f) ==
            (s, Ok(if previous.outcome.decision.trustgrantId == g.trustgrantId
                      && SameMutationIntent(previous.outcome.request, m.request)
                   then Duplicate(previous) else IntentConflict(m.intentId)))
  {
    hide SameMutationIntent;
  }

  // ---- A callback outside the assumption ----

  /** A callback that replaces the transaction by a new one erases every record but its own. */
  lemma ReplacedTransactionForgets(s: LedgerState, g: VerifiedTrustGrant, m: MutationRequest, earlier: string)
    requires Bound(m) && m.IsMint() && m.intentId !in s.processed && earlier in s.processed
    requires Authorize(s, g, m).outcome.decision.IsAllowed()
    ensures var f := (t: LedgerState, a: MutationAuthorization) => CallbackOutcome(EMPTY_LEDGER, Ok(()));
            var (t, r) := Step(s, g, m, f);
            WasApplied(r) && earlier !in t.processed && t.auditLog == []
  {
    hide Matches, Engine.EvaluateInner, TotalKeyOf, PrincipalKeyOf;
  }
}

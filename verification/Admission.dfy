/** How many mints of a batch are admitted under a total quota. */
module Admission {
  import opened Wrappers
  import opened Grants
  import opened Requests
  import opened Execution
  import opened Ledger
  import opened LedgerRuns
  import Engine

  /** The grant with the mint limits of one type removed. */
  function Unlimited(g: VerifiedTrustGrant, t: string): VerifiedTrustGrant
    requires t in g.document.resourceScope
  {
    var type_ := g.document.resourceScope[t].(minting := MintingConstraints(None, None));
    g.(document := g.document.(resourceScope := g.document.resourceScope[t := type_]))
  }

  lemma TypeBesideLimits(d: Document, u: Document, type_: ResourceType, r: EvaluationRequest, m: Option<MintContext>)
    requires u.capabilities == d.capabilities && u.defaultAudienceScope == d.defaultAudienceScope
    ensures Engine.EvaluateResourceType(d, type_, r).Allowed? <==>
            && Engine.EvaluateResourceType(u, type_.(minting := MintingConstraints(None, None)), r.(mintContext := m)).Allowed?
            && Engine.EvaluateMintingConstraints(type_.minting, r).Allowed?
  {
    hide Engine.EvaluateScopeWithReasons, Engine.OperationName;
    var q := r.(mintContext := m);
    var free := type_.(minting := MintingConstraints(None, None));
    assert Engine.EvaluateAudience(Engine.AudienceScope(u, free), q)
        == Engine.EvaluateAudience(Engine.AudienceScope(d, type_), r);
    assert Engine.EvaluateMintingConstraints(free.minting, q).Allowed?;
  }

  /** The limits are one check among the others: the engine allows when the others and the limits do. */
  lemma DecisionBesideLimits(g: VerifiedTrustGrant, r: EvaluationRequest, m: Option<MintContext>)
    requires r.resource.resourceType in g.document.resourceScope
    ensures var t := r.resource.resourceType;
            Engine.EvaluateInner(g, r).Allowed? <==>
            && Engine.EvaluateInner(Unlimited(g, t), r.(mintContext := m)).Allowed?
            && Engine.EvaluateMintingConstraints(g.document.resourceScope[t].minting, r).Allowed?
  {
    var t := r.resource.resourceType;
    var u, q := Unlimited(g, t), r.(mintContext := m);
    TypeBesideLimits(g.document, u.document, g.document.resourceScope[t], r, m);
    hide Engine.EvaluateScopeWithReasons, Engine.EvaluateResourceType, Engine.EvaluateMintingConstraints;
    assert Engine.EvaluateRevocation(u, q) == Engine.EvaluateRevocation(g, r);
    assert Engine.EvaluateTimeWindow(u.document.timeWindow, q) == Engine.EvaluateTimeWindow(g.document.timeWindow, r);
  }

  ghost predicate Succeeds<T>(f: Callback<T>) {
    forall s, a :: f(s, a).result.Ok?
  }

  /** A mint of one instance of type t under g that everything but the quota permits. */
  ghost predicate Candidate<T>(e: Event<T>, g: VerifiedTrustGrant, t: string) {
    && e.Execute? && e.grant == g && Proper(e) && Succeeds(e.apply)
    && e.request.IsMint() && RequestedQuantity(e.request.request) == 1
    && e.request.request.resource.resourceType == t && t in g.document.resourceScope
    && Engine.EvaluateInner(Unlimited(g, t), e.request.request).Allowed?
  }

  /** Candidates with intents that are new and pairwise different. */
  ghost predicate Batch<T>(s: LedgerState, es: seq<Event<T>>, g: VerifiedTrustGrant, t: string) {
    && (forall i :: 0 <= i < |es| ==> Candidate(es[i], g, t) && es[i].request.intentId !in s.processed)
    && (forall i, j :: 0 <= i < j < |es| ==> es[i].request.intentId != es[j].request.intentId)
  }

  function CountApplied<T>(rs: seq<EventResult<T>>): nat {
    if rs == [] then 0
    else CountApplied(rs[..|rs| - 1]) + if rs[|rs| - 1].IsApplied() then 1 else 0
  }

  ghost predicate TotalOnly(g: VerifiedTrustGrant, t: string, max: u64) {
    t in g.document.resourceScope && g.document.resourceScope[t].minting == MintingConstraints(Some(max), None)
  }

  lemma CandidateAuthorized<T>(s: LedgerState, e: Event<T>, g: VerifiedTrustGrant, t: string, max: u64)
    requires Candidate(e, g, t) && TotalOnly(g, t, max)
    ensures Authorize(s, g, e.request).outcome.decision.IsAllowed()
            <==> SaturatingAdd(Total(s, MintTotalKey(g.trustgrantId, t)), 1) <= max
  {
    hide Engine.EvaluateInner;
    var m := e.request;
    var r := EvaluationRequestFor(s, g, m);
    DecisionBesideLimits(g, r, m.request.mintContext);
    assert r.(mintContext := m.request.mintContext) == m.request;
  }

  /** A candidate is applied exactly when there is room, and then takes one place. */
  lemma CandidateAdmitted<T>(s: LedgerState, e: Event<T>, g: VerifiedTrustGrant, t: string, max: u64)
    requires Candidate(e, g, t) && TotalOnly(g, t, max) && e.request.intentId !in s.processed
    requires var k := MintTotalKey(g.trustgrantId, t); ConservedAt(s, k) && Total(s, k) <= max
    ensures var k := MintTotalKey(g.trustgrantId, t);
            && (ResultOf(s, e).IsApplied() <==> Total(s, k) < max)
            && Total(AfterEvent(s, e), k) == Total(s, k) + if ResultOf(s, e).IsApplied() then 1 else 0
  {
    var m, k, a := e.request, MintTotalKey(g.trustgrantId, t), Authorize(s, g, e.request);
    MintKeysOf(g, m);
    CandidateAuthorized(s, e, g, t, max);
    PrincipalWithinTotal(s, PrincipalKeyOf(g, m));
    StepIsAtomic(s, g, m, e.apply);
    CandidateStep(s, e, g, t);
    hide Step, Authorize, TotalKeyOf, PrincipalKeyOf, ConservedAt, Candidate;
    if ResultOf(s, e).IsApplied() {
      assert Proper(e) by { CandidateProper(e, g, t); }
      AppliedMint(s, g, m, e.apply);
    }
  }

  lemma CandidateProper<T>(e: Event<T>, g: VerifiedTrustGrant, t: string)
    requires Candidate(e, g, t)
    ensures Proper(e) && e.Execute? && e.grant == g && e.request.IsMint()
  {
  }

  /** A candidate is applied when it is authorized and neither counter overflows. */
  lemma CandidateStep<T>(s: LedgerState, e: Event<T>, g: VerifiedTrustGrant, t: string)
    requires Candidate(e, g, t) && e.request.intentId !in s.processed
    ensures ResultOf(s, e).IsApplied() <==>
            && Authorize(s, g, e.request).outcome.decision.IsAllowed()
            && Total(s, TotalKeyOf(g, e.request)) + 1 <= U64_MAX
            && PerPrincipal(s, PrincipalKeyOf(g, e.request)) + 1 <= U64_MAX
  {
    hide Matches, Engine.EvaluateInner, TotalKeyOf, PrincipalKeyOf;
    var m := e.request;
    var a := Authorize(s, g, m);
    var outcome := e.apply(Logged(s, a), a);
    assert RequestedQuantity(a.outcome.request) == 1;
  }

  lemma {:induction false} ProcessedByBatch<T>(s: LedgerState, es: seq<Event<T>>, intent: string)
    requires AllProper(es) && intent in Run(s, es).processed
    ensures intent in s.processed || exists i :: 0 <= i < |es| && es[i].Execute? && es[i].request.intentId == intent
  {
    hide AfterEvent, ResultOf, Proper;
    if es != [] {
      var front := es[..|es| - 1];
      EventKeepsRecords(Run(s, front), es[|es| - 1]);
      if intent in Run(s, front).processed {
        ProcessedByBatch(s, front, intent);
      }
    }
  }

  /** Of n candidates exactly min(n, room) are applied, however they are ordered. */
  lemma {:induction false} ExactAdmission<T>(s: LedgerState, es: seq<Event<T>>, g: VerifiedTrustGrant, t: string, max: u64)
    requires Batch(s, es, g, t) && TotalOnly(g, t, max)
    requires var k := MintTotalKey(g.trustgrantId, t); ConservedAt(s, k) && Total(s, k) <= max
    ensures var k := MintTotalKey(g.trustgrantId, t);
            var admitted := CountApplied(Results(s, es));
            && admitted == (if |es| <= max - Total(s, k) then |es| else max - Total(s, k))
            && Total(Run(s, es), k) == Total(s, k) + admitted
  {
    hide AfterEvent, ResultOf, Candidate, ConservedAt, Proper;
    var k := MintTotalKey(g.trustgrantId, t);
    if es != [] {
      var front, e := es[..|es| - 1], es[|es| - 1];
      assert Batch(s, front, g, t);
      ExactAdmission(s, front, g, t, max);
      forall i | 0 <= i < |es|
        ensures Proper(es[i])
      {
        CandidateProper(es[i], g, t);
      }
      RunConserves(s, front, k);
      CandidateProper(e, g, t);
      if e.request.intentId in Run(s, front).processed {
        ProcessedByBatch(s, front, e.request.intentId);
      }
      CandidateAdmitted(Run(s, front), e, g, t, max);
      assert Results(s, es)[..|es| - 1] == Results(s, front);
    }
  }

  /** From an empty ledger, after any run under the same limits, a batch and its reorderings admit the same number. */
  lemma AdmissionOrderFree<T>(
    before: seq<Event<T>>, es: seq<Event<T>>, order: seq<nat>, g: VerifiedTrustGrant, t: string, max: u64, limits: Limits)
    requires AllProper(before) && AllCarry(before, limits)
    requires CarriesLimits(g, limits) && TotalOnly(g, t, max)
    requires var s := Run(EMPTY_LEDGER, before); Batch(s, es, g, t)
    requires |order| == |es| && (forall i :: 0 <= i < |order| ==> order[i] < |es|)
    requires forall i, j :: 0 <= i < j < |order| ==> order[i] != order[j]
    ensures var s, k := Run(EMPTY_LEDGER, before), MintTotalKey(g.trustgrantId, t);
            var reordered := seq(|es|, i requires 0 <= i < |es| => es[order[i]]);
            && CountApplied(Results(s, es)) == CountApplied(Results(s, reordered))
            && CountApplied(Results(s, es)) == (if |es| <= max - Total(s, k) then |es| else max - Total(s, k))
  {
    hide AfterEvent, ResultOf, Candidate, ConservedAt, Proper, CarriesLimits;
    var s, k := Run(EMPTY_LEDGER, before), MintTotalKey(g.trustgrantId, t);
    var reordered := seq(|es|, i requires 0 <= i < |es| => es[order[i]]);
    QuotaSafety(before, limits);
    assert limits(k) == g.document.resourceScope[t].minting by { LimitsOf(g, t, limits); }
    Conservation(before);
    forall i | 0 <= i < |es|
      ensures es[i].Execute?
    {
      CandidateProper(es[i], g, t);
    }
    forall i, j | 0 <= i < j < |reordered|
      ensures reordered[i].request.intentId != reordered[j].request.intentId
    {
      assert order[i] < order[j] || order[j] < order[i];
    }
    assert Batch(s, reordered, g, t);
    ExactAdmission(s, es, g, t, max);
    ExactAdmission(s, reordered, g, t, max);
  }

  lemma LimitsOf(g: VerifiedTrustGrant, t: string, limits: Limits)
    requires CarriesLimits(g, limits) && t in g.document.resourceScope
    ensures limits(MintTotalKey(g.trustgrantId, t)) == g.document.resourceScope[t].minting
  {
  }
}

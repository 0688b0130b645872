/** What the ledger credits to a principal, and when the per-principal limit bounds what a principal mints. */
module Principals {
  import opened Wrappers
  import opened SelectorKinds
  import opened ContextValues
  import opened StableKeys
  import opened Grants
  import opened Requests
  import opened Execution
  import opened Sums
  import opened Ledger
  import opened LedgerRuns
  import opened EngineMeaning
  import Admission
  import Attenuation
  import Engine

  // ---- Credits ----

  /** The quantity an authorization contributes to the mints under a principal key. */
  function MintedUnder(a: MutationAuthorization, p: MintPrincipalKey): nat {
    if StableKey(a.outcome.request.principalContext) == p.principalContext then MintedBy(a, p.totalKey) else 0
  }

  function OfKeyRecords(p: MintPrincipalKey): (string, MutationAuthorization) -> nat {
    (i: string, a: MutationAuthorization) => MintedUnder(a, p)
  }

  function OfKeyLog(p: MintPrincipalKey): MutationAuthorization -> nat {
    (a: MutationAuthorization) => MintedUnder(a, p)
  }

  /** The counter of a key is what the processed records, and what the log, minted under that key. */
  ghost predicate CreditedAt(s: LedgerState, p: MintPrincipalKey) {
    && PerPrincipal(s, p) == SumOver(s.processed, OfKeyRecords(p))
    && PerPrincipal(s, p) == SumSeq(s.auditLog, OfKeyLog(p))
  }

  lemma AuthorizedUnder(s: LedgerState, g: VerifiedTrustGrant, m: MutationRequest, p: MintPrincipalKey)
    ensures MintedUnder(Authorize(s, g, m), p) ==
            if Authorize(s, g, m).outcome.decision.IsAllowed() && m.IsMint() && PrincipalKeyOf(g, m) == p
            then RequestedQuantity(m.request) else 0
  {
    hide Engine.EvaluateInner, StableKey;
    AuthorizedQuantity(s, g, m, p.totalKey);
  }

  lemma MintCredits(
    s: LedgerState, k: MintTotalKey, p: MintPrincipalKey, q: Quantity, a: MutationAuthorization, at: MintPrincipalKey)
    requires CreditedAt(s, at) && a.intentId !in s.processed
    requires MintedUnder(a, at) == if p == at then q else 0
    requires Total(s, k) + q <= U64_MAX && PerPrincipal(s, p) + q <= U64_MAX
    ensures CreditedAt(AfterMint(s, k, p, q, a), at)
  {
    hide MintedUnder;
    SumSeqAppend(s.auditLog, OfKeyLog(at), a);
    SumUpdate(s.processed, OfKeyRecords(at), a.intentId, a);
  }

  lemma OthersCredit(s: LedgerState, a: MutationAuthorization, at: MintPrincipalKey)
    requires CreditedAt(s, at) && MintedUnder(a, at) == 0
    ensures CreditedAt(Logged(s, a), at)
    ensures a.intentId !in s.processed ==>
              CreditedAt(Logged(s, a).(processed := s.processed[a.intentId := a]), at)
  {
    hide MintedUnder;
    SumSeqAppend(s.auditLog, OfKeyLog(at), a);
    SumUpdate(s.processed, OfKeyRecords(at), a.intentId, a);
  }

  lemma VersionsCredit(s: LedgerState, versions: map<ResourceKey, u64>, at: MintPrincipalKey)
    requires CreditedAt(s, at)
    ensures CreditedAt(s.(resourceVersions := versions), at)
  {
  }

  /** Every call credits the key of the request it mints for, and no other. */
  lemma StepCredits<T>(s: LedgerState, g: VerifiedTrustGrant, m: MutationRequest, f: Callback<T>, at: MintPrincipalKey)
    requires Bound(m) && WellBehaved(f) && CreditedAt(s, at)
    ensures CreditedAt(Step(s, g, m, f).0, at)
  {
    hide Step, Authorize, PrincipalKeyOf, TotalKeyOf, CreditedAt, MintedUnder;
    var a := Authorize(s, g, m);
    AuthorizedIntent(s, g, m);
    StepIsAtomic(s, g, m, f);
    LoggedIsAuthorized(s, g, m, f);
    AuthorizedUnder(s, g, m, at);
    var r := Step(s, g, m, f).1;
    if WasApplied(r) {
      if m.IsMint() {
        AppliedMint(s, g, m, f);
        MintCredits(s, TotalKeyOf(g, m), PrincipalKeyOf(g, m), RequestedQuantity(m.request), a, at);
      } else {
        AppliedExisting(s, g, m, f);
        OthersCredit(s, a, at);
        VersionsCredit(Logged(s, a).(processed := s.processed[a.intentId := a]), Step(s, g, m, f).0.resourceVersions, at);
      }
    } else if r.Ok? && (r.value.Denied? || r.value.Stale?) {
      OthersCredit(s, a, at);
    }
  }

  lemma {:induction false} RunCredits<T>(s: LedgerState, es: seq<Event<T>>, at: MintPrincipalKey)
    requires AllProper(es) && CreditedAt(s, at)
    ensures CreditedAt(Run(s, es), at)
  {
    hide Step, CreditedAt;
    if es != [] {
      var front, e := es[..|es| - 1], es[|es| - 1];
      RunCredits(s, front, at);
      assert Proper(e);
      match e {
        case Execute(g, m, f) => StepCredits(Run(s, front), g, m, f, at);
        case Register(resource, version) =>
          VersionsCredit(Run(s, front), AfterEvent(Run(s, front), e).resourceVersions, at);
      }
    }
  }

  /** In every reachable state each principal key is credited exactly the mints recorded and logged under it. */
  lemma Credits<T>(es: seq<Event<T>>, p: MintPrincipalKey)
    requires AllProper(es)
    ensures CreditedAt(Run(EMPTY_LEDGER, es), p)
  {
    RunCredits(EMPTY_LEDGER, es, p);
  }

  // ---- What a principal mints ----

  /** The event is a mint of k for a principal whose context means who. */
  ghost predicate MintsFor<T>(e: Event<T>, k: MintTotalKey, who: KindValues) {
    && e.Execute? && e.request.IsMint() && TotalKeyOf(e.grant, e.request) == k
    && Meaning(e.request.request.principalContext) == who
  }

  /** The summed quantities of the applied mints of k for one principal, however its context is spelled. */
  ghost function MintedFor<T>(s: LedgerState, es: seq<Event<T>>, k: MintTotalKey, who: KindValues): nat {
    if es == [] then 0
    else
      var front, e := es[..|es| - 1], es[|es| - 1];
      MintedFor(s, front, k, who)
      + if MintsFor(e, k, who) && ResultOf(Run(s, front), e).IsApplied() then RequestedQuantity(e.request.request) else 0
  }

  /** Contexts are built by inserts, and those that mean who and mint k spell their kinds alike. */
  ghost predicate OneSpelling<T>(es: seq<Event<T>>, k: MintTotalKey, who: KindValues) {
    && (forall i :: 0 <= i < |es| && MintsFor(es[i], k, who) ==>
          WellBuilt(es[i].request.request.principalContext) && Genuine(es[i].request.request.principalContext))
    && (forall i, j :: 0 <= i < |es| && 0 <= j < |es| && MintsFor(es[i], k, who) && MintsFor(es[j], k, who) ==>
          SpellingsAgree(es[i].request.request.principalContext, es[j].request.request.principalContext))
  }

  ghost predicate OneKey<T>(es: seq<Event<T>>, k: MintTotalKey, who: KindValues, p: MintPrincipalKey) {
    && p.totalKey == k
    && forall i :: 0 <= i < |es| && MintsFor(es[i], k, who) ==> PrincipalKeyOf(es[i].grant, es[i].request) == p
  }

  /** One event adds to the counter of a key at least what it mints for a principal with that key. */
  lemma EventCounts<T>(s: LedgerState, e: Event<T>, k: MintTotalKey, who: KindValues, p: MintPrincipalKey)
    requires Proper(e) && (MintsFor(e, k, who) ==> PrincipalKeyOf(e.grant, e.request) == p)
    ensures PerPrincipal(AfterEvent(s, e), p) >= PerPrincipal(s, p)
            + if MintsFor(e, k, who) && ResultOf(s, e).IsApplied() then RequestedQuantity(e.request.request) else 0
  {
    hide Step, PrincipalKeyOf, TotalKeyOf, Meaning;
    if e.Execute? {
      StepIsAtomic(s, e.grant, e.request, e.apply);
      if ResultOf(s, e).IsApplied() {
        if e.request.IsMint() {
          AppliedMint(s, e.grant, e.request, e.apply);
        } else {
          AppliedExisting(s, e.grant, e.request, e.apply);
        }
      }
    }
  }

  lemma {:induction false} RunCounts<T>(
    s: LedgerState, es: seq<Event<T>>, k: MintTotalKey, who: KindValues, p: MintPrincipalKey)
    requires AllProper(es) && OneKey(es, k, who, p)
    ensures PerPrincipal(Run(s, es), p) >= PerPrincipal(s, p) + MintedFor(s, es, k, who)
  {
    hide AfterEvent, ResultOf, Proper, MintsFor, PrincipalKeyOf;
    if es != [] {
      var front, e := es[..|es| - 1], es[|es| - 1];
      RunCounts(s, front, k, who, p);
      EventCounts(Run(s, front), e, k, who, p);
    }
  }

  lemma {:induction false} NobodyMints<T>(s: LedgerState, es: seq<Event<T>>, k: MintTotalKey, who: KindValues)
    requires forall i :: 0 <= i < |es| ==> !MintsFor(es[i], k, who)
    ensures MintedFor(s, es, k, who) == 0
  {
    hide MintsFor, ResultOf, Run;
    if es != [] {
      assert !MintsFor(es[|es| - 1], k, who);
      NobodyMints(s, es[..|es| - 1], k, who);
    }
  }

  lemma SpelledOnce<T>(es: seq<Event<T>>, k: MintTotalKey, who: KindValues, i: nat)
    requires OneSpelling(es, k, who) && i < |es| && MintsFor(es[i], k, who)
    ensures OneKey(es, k, who, PrincipalKeyOf(es[i].grant, es[i].request))
  {
    hide WellBuilt, Genuine, SpellingsAgree, Meaning, StableKey;
    forall j | 0 <= j < |es| && MintsFor(es[j], k, who)
      ensures PrincipalKeyOf(es[j].grant, es[j].request) == PrincipalKeyOf(es[i].grant, es[i].request)
    {
      KeyFollowsSpelling(es[j].request.request.principalContext, es[i].request.request.principalContext);
    }
  }

  /** As long as a principal is spelled one way, all it mints of a type stays within the per-principal limit. */
  lemma PrincipalQuota<T>(es: seq<Event<T>>, limits: Limits, k: MintTotalKey, who: KindValues)
    requires AllProper(es) && AllCarry(es, limits) && OneSpelling(es, k, who)
    ensures UpTo(MintedFor(EMPTY_LEDGER, es, k, who), limits(k).maxPerUser)
  {
    hide OneSpelling, AllCarry, PrincipalKeyOf, TotalKeyOf, OneKey;
    if i: nat :| i < |es| && MintsFor(es[i], k, who) {
      var p := PrincipalKeyOf(es[i].grant, es[i].request);
      SpelledOnce(es, k, who, i);
      OneKeyTotal(es, k, who, p);
      QuotaSafety(es, limits);
      RunCounts(EMPTY_LEDGER, es, k, who, p);
    } else {
      NobodyMints(EMPTY_LEDGER, es, k, who);
    }
  }

  lemma OneKeyTotal<T>(es: seq<Event<T>>, k: MintTotalKey, who: KindValues, p: MintPrincipalKey)
    requires OneKey(es, k, who, p)
    ensures p.totalKey == k
  {
  }

  // ---- Two spellings pass the limit ----

  /** A mint the engine allows is applied when its callback succeeds and neither sum overflows. */
  lemma AllowedMintApplies<T>(s: LedgerState, g: VerifiedTrustGrant, m: MutationRequest, f: Callback<T>)
    requires Bound(m) && WellBehaved(f) && Admission.Succeeds(f) && m.IsMint() && m.intentId !in s.processed
    requires Authorize(s, g, m).outcome.decision.IsAllowed()
    requires Total(s, TotalKeyOf(g, m)) + RequestedQuantity(m.request) <= U64_MAX
    requires PerPrincipal(s, PrincipalKeyOf(g, m)) + RequestedQuantity(m.request) <= U64_MAX
    ensures WasApplied(Step(s, g, m, f).1)
  {
    hide Matches, Engine.EvaluateInner, TotalKeyOf, PrincipalKeyOf;
    var a := Authorize(s, g, m);
    var outcome := f(Logged(s, a), a);
    assert RequestedQuantity(a.outcome.request) == RequestedQuantity(m.request);
  }

  /** Everything but the limits permits this mint, and its context is not empty. */
  ghost predicate Admissible(g: VerifiedTrustGrant, m: MutationRequest) {
    && Bound(m) && m.IsMint() && ContextsBuilt(m.request) && m.request.principalContext.entries != []
    && m.request.resource.resourceType in g.document.resourceScope
    && Engine.EvaluateInner(Admission.Unlimited(g, m.request.resource.resourceType), m.request).Allowed?
  }

  /** An admissible mint is allowed as long as both sums stay within the limits. */
  lemma WithinLimitsAllowed(s: LedgerState, g: VerifiedTrustGrant, m: MutationRequest)
    requires Admissible(g, m)
    requires var limits := g.document.resourceScope[m.request.resource.resourceType].minting;
             var q := RequestedQuantity(m.request);
             && UpTo(Total(s, TotalKeyOf(g, m)) + q, limits.maxTotal)
             && UpTo(PerPrincipal(s, PrincipalKeyOf(g, m)) + q, limits.maxPerUser)
    ensures Authorize(s, g, m).outcome.decision.IsAllowed()
  {
    hide Engine.EvaluateInner, ContextsBuilt, TotalKeyOf, PrincipalKeyOf;
    var r := EvaluationRequestFor(s, g, m);
    Admission.DecisionBesideLimits(g, r, m.request.mintContext);
    assert r.(mintContext := m.request.mintContext) == m.request;
  }

  /** The request made by a principal with another context, for another quantity and under another intent. */
  function MintAs(m: MutationRequest, c: ContextValue, q: Quantity, intent: string): MutationRequest {
    m.(intentId := intent,
       request := m.request.(intentId := Some(intent), principalContext := c, mintContext := Some(MintContext(0, 0, q))))
  }

  lemma MintAdmissible(g: VerifiedTrustGrant, m: MutationRequest, c: BuiltContext, q: Quantity, intent: string)
    requires Admissible(g, m) && Meaning(m.request.principalContext) == Meaning(c)
    ensures Admissible(g, MintAs(m, c, q, intent))
  {
    var t, n := m.request.resource.resourceType, MintAs(m, c, q, intent);
    var u := Admission.Unlimited(g, t);
    assert c.entries != [] by { SameEmptiness(m.request.principalContext, c); }
    hide WellBuilt, Genuine, Meaning, Engine.EvaluateInner;
    Admission.DecisionBesideLimits(g, m.request, m.request.mintContext);
    IntentUnread(u, m.request, n.request.intentId, n.request.mintContext);
    var r := m.request.(intentId := n.request.intentId, mintContext := n.request.mintContext);
    Attenuation.DecisionReadsMeaning(u, r, n.request);
  }

  lemma SameEmptiness(a: ContextValue, b: ContextValue)
    requires Meaning(a) == Meaning(b) && a.entries != []
    ensures b.entries != []
  {
    MeaningKeys(a.entries, KeyOf(a.entries[0].kind));
    MeaningKeys(b.entries, KeyOf(a.entries[0].kind));
  }

  /** Without limits the decision reads neither the intent nor the mint context. */
  lemma IntentUnread(
    u: VerifiedTrustGrant, r: EvaluationRequest, intent: Option<string>, mintContext: Option<MintContext>)
    requires r.resource.resourceType in u.document.resourceScope
    requires u.document.resourceScope[r.resource.resourceType].minting == MintingConstraints(None, None)
    ensures Engine.EvaluateInner(u, r) == Engine.EvaluateInner(u, r.(intentId := intent, mintContext := mintContext))
  {
    hide Engine.EvaluateScopeWithReasons, Engine.OperationName;
    var q := r.(intentId := intent, mintContext := mintContext);
    var type_ := u.document.resourceScope[r.resource.resourceType];
    assert Engine.EvaluateAudience(Engine.AudienceScope(u.document, type_), q)
        == Engine.EvaluateAudience(Engine.AudienceScope(u.document, type_), r);
    assert Engine.EvaluateMintingConstraints(type_.minting, q) == Engine.EvaluateMintingConstraints(type_.minting, r);
    assert Engine.EvaluateResourceType(u.document, type_, q) == Engine.EvaluateResourceType(u.document, type_, r);
  }

  function Keep(t: LedgerState, a: MutationAuthorization): CallbackOutcome<()> {
    CallbackOutcome(t, Ok(()))
  }

  /** First the whole limit under one context, then one more under the other. */
  function TwoMints(g: VerifiedTrustGrant, m: MutationRequest, a: ContextValue, b: ContextValue, max: Quantity)
    : seq<Event<()>>
  {
    [Execute(g, MintAs(m, a, max, "first"), Keep), Execute(g, MintAs(m, b, 1, "second"), Keep)]
  }

  /** The limit is max per principal, below the largest number, and the total has room for one more. */
  ghost predicate PerPrincipalLimit(g: VerifiedTrustGrant, t: string, max: Quantity) {
    && t in g.document.resourceScope && g.document.resourceScope[t].minting.maxPerUser == Some(max)
    && max < U64_MAX && UpTo(max + 1, g.document.resourceScope[t].minting.maxTotal)
  }

  lemma DifferentKeys(g: VerifiedTrustGrant, m: MutationRequest, a: BuiltContext, b: BuiltContext, max: Quantity)
    requires Meaning(a) == Meaning(b) && !SpellingsAgree(a, b)
    ensures PrincipalKeyOf(g, MintAs(m, a, max, "first")) != PrincipalKeyOf(g, MintAs(m, b, 1, "second"))
    ensures TotalKeyOf(g, MintAs(m, a, max, "first")) == TotalKeyOf(g, m) == TotalKeyOf(g, MintAs(m, b, 1, "second"))
  {
    hide WellBuilt, Genuine, Meaning, StableKey, SpellingsAgree;
    KeyFollowsSpelling(a, b);
  }

  lemma FirstApplies(g: VerifiedTrustGrant, m: MutationRequest, a: BuiltContext, max: Quantity)
    requires Admissible(g, m) && Meaning(m.request.principalContext) == Meaning(a)
    requires PerPrincipalLimit(g, m.request.resource.resourceType, max)
    ensures WasApplied(Step(EMPTY_LEDGER, g, MintAs(m, a, max, "first"), Keep).1)
  {
    hide WellBuilt, Genuine, Meaning, StableKey, Step, Authorize;
    var n := MintAs(m, a, max, "first");
    MintAdmissible(g, m, a, max, "first");
    WithinLimitsAllowed(EMPTY_LEDGER, g, n);
    AllowedMintApplies(EMPTY_LEDGER, g, n, Keep);
  }

  lemma SecondApplies(
    s: LedgerState, g: VerifiedTrustGrant, m: MutationRequest, b: BuiltContext, max: Quantity)
    requires Admissible(g, m) && Meaning(m.request.principalContext) == Meaning(b)
    requires PerPrincipalLimit(g, m.request.resource.resourceType, max)
    requires var n := MintAs(m, b, 1, "second");
             && Total(s, TotalKeyOf(g, n)) == max && PerPrincipal(s, PrincipalKeyOf(g, n)) == 0
             && "second" !in s.processed
    ensures WasApplied(Step(s, g, MintAs(m, b, 1, "second"), Keep).1)
  {
    hide WellBuilt, Genuine, Meaning, Step, Authorize, TotalKeyOf, PrincipalKeyOf;
    var n := MintAs(m, b, 1, "second");
    MintAdmissible(g, m, b, 1, "second");
    WithinLimitsAllowed(s, g, n);
    AllowedMintApplies(s, g, n, Keep);
  }

  /** Two contexts of one meaning spelled differently mint more than the per-principal limit. */
  lemma TwoSpellingsPassLimit(g: VerifiedTrustGrant, m: MutationRequest, a: BuiltContext, b: BuiltContext, max: Quantity)
    requires Admissible(g, m) && Meaning(m.request.principalContext) == Meaning(a) == Meaning(b)
    requires PerPrincipalLimit(g, m.request.resource.resourceType, max) && !SpellingsAgree(a, b)
    ensures AllProper(TwoMints(g, m, a, b, max))
    ensures forall r :: r in Results(EMPTY_LEDGER, TwoMints(g, m, a, b, max)) ==> r.IsApplied()
    ensures MintedFor(EMPTY_LEDGER, TwoMints(g, m, a, b, max), TotalKeyOf(g, m), Meaning(a)) == max + 1
  {
    hide WellBuilt, Genuine, Meaning, StableKey, SpellingsAgree, Step, TotalKeyOf, PrincipalKeyOf, Authorize;
    var first, second := MintAs(m, a, max, "first"), MintAs(m, b, 1, "second");
    var es := TwoMints(g, m, a, b, max);
    FirstApplies(g, m, a, max);
    DifferentKeys(g, m, a, b, max);
    AppliedMint(EMPTY_LEDGER, g, first, Keep);
    assert "first"[0] != "second"[0];
    var s := Step(EMPTY_LEDGER, g, first, Keep).0;
    SecondApplies(s, g, m, b, max);
    assert es[..1] == [Execute(g, first, Keep)] && es[..1][..0] == [] && es[..|es| - 1] == es[..1];
    assert Run(EMPTY_LEDGER, es[..1]) == s;
    TwoResults(es);
    TwoSum(es, TotalKeyOf(g, m), Meaning(a));
  }

  lemma TwoResults<T>(es: seq<Event<T>>)
    requires |es| == 2
    ensures Results(EMPTY_LEDGER, es) == [ResultOf(EMPTY_LEDGER, es[0]), ResultOf(Run(EMPTY_LEDGER, es[..1]), es[1])]
  {
    hide ResultOf, AfterEvent;
    ResultAt(EMPTY_LEDGER, es, 0);
    ResultAt(EMPTY_LEDGER, es, 1);
    assert es[..0] == [];
  }

  lemma TwoSum<T>(es: seq<Event<T>>, k: MintTotalKey, who: KindValues)
    requires |es| == 2 && MintsFor(es[0], k, who) && MintsFor(es[1], k, who)
    requires ResultOf(EMPTY_LEDGER, es[0]).IsApplied() && ResultOf(Run(EMPTY_LEDGER, es[..1]), es[1]).IsApplied()
    ensures MintedFor(EMPTY_LEDGER, es, k, who)
            == RequestedQuantity(es[0].request.request) + RequestedQuantity(es[1].request.request)
  {
    hide ResultOf, AfterEvent, TotalKeyOf, Meaning;
    assert es[..|es| - 1] == es[..1] && es[..1][..0] == [];
    assert MintedFor(EMPTY_LEDGER, es[..1], k, who) == RequestedQuantity(es[0].request.request);
  }

  // ---- Exactly then ----

  /** Runs under one grant in which mints name their principal by one of two contexts. */
  ghost predicate NamesBy(es: seq<Event<()>>, g: VerifiedTrustGrant, a: ContextValue, b: ContextValue) {
    && AllProper(es)
    && forall i :: 0 <= i < |es| && es[i].Execute? ==>
         && es[i].grant == g
         && (es[i].request.IsMint() ==> es[i].request.request.principalContext in [a, b])
  }

  function LimitsFrom(g: VerifiedTrustGrant): Limits {
    (k: MintTotalKey) =>
      if k.grantId == g.trustgrantId && k.resourceType in g.document.resourceScope then
        g.document.resourceScope[k.resourceType].minting
      else MintingConstraints(None, None)
  }

  lemma SpellsItself(a: BuiltContext)
    ensures SpellingsAgree(a, a)
  {
    forall e, f | e in a.entries && f in a.entries && KeyOf(e.kind) == KeyOf(f.kind)
      ensures e.kind.value == f.kind.value
    {
      var i :| 0 <= i < |a.entries| && a.entries[i] == e;
      var j :| 0 <= j < |a.entries| && a.entries[j] == f;
    }
  }

  lemma SpellingsSymmetric(a: ContextValue, b: ContextValue)
    ensures SpellingsAgree(a, b) ==> SpellingsAgree(b, a)
  {
  }

  lemma EventCountsTotal<T>(s: LedgerState, e: Event<T>, k: MintTotalKey, who: KindValues)
    requires Proper(e)
    ensures Total(AfterEvent(s, e), k) >= Total(s, k)
            + if MintsFor(e, k, who) && ResultOf(s, e).IsApplied() then RequestedQuantity(e.request.request) else 0
  {
    hide Step, PrincipalKeyOf, TotalKeyOf, Meaning;
    if e.Execute? {
      StepIsAtomic(s, e.grant, e.request, e.apply);
      if ResultOf(s, e).IsApplied() {
        if e.request.IsMint() {
          AppliedMint(s, e.grant, e.request, e.apply);
        } else {
          AppliedExisting(s, e.grant, e.request, e.apply);
        }
      }
    }
  }

  lemma {:induction false} RunCountsTotal<T>(s: LedgerState, es: seq<Event<T>>, k: MintTotalKey, who: KindValues)
    requires AllProper(es)
    ensures Total(Run(s, es), k) >= Total(s, k) + MintedFor(s, es, k, who)
  {
    hide AfterEvent, ResultOf, Proper, MintsFor;
    if es != [] {
      var front, e := es[..|es| - 1], es[|es| - 1];
      RunCountsTotal(s, front, k, who);
      EventCountsTotal(Run(s, front), e, k, who);
    }
  }

  /** Under a limit of none nobody mints. */
  lemma {:induction false} NoneMinted<T>(es: seq<Event<T>>, limits: Limits, k: MintTotalKey, who: KindValues)
    requires AllProper(es) && AllCarry(es, limits) && limits(k).maxPerUser == Some(0)
    ensures MintedFor(EMPTY_LEDGER, es, k, who) == 0
  {
    hide AfterEvent, ResultOf, Proper, CarriesLimits, PrincipalKeyOf, TotalKeyOf, Meaning;
    if es != [] {
      var front, e := es[..|es| - 1], es[|es| - 1];
      NoneMinted(front, limits, k, who);
      if MintsFor(e, k, who) {
        var p := PrincipalKeyOf(e.grant, e.request);
        MintKeysOf(e.grant, e.request);
        EventCounts(Run(EMPTY_LEDGER, front), e, k, who, p);
        QuotaSafety(es, limits);
        assert UpTo(PerPrincipal(Run(EMPTY_LEDGER, es), p), limits(p.totalKey).maxPerUser);
      }
    }
  }

  /** The limit is never passed where the total limit or the counters are no larger, or where it is none. */
  ghost predicate Unpassable(g: VerifiedTrustGrant, t: string, max: u64)
    requires t in g.document.resourceScope
  {
    var total := g.document.resourceScope[t].minting.maxTotal;
    max == 0 || max == U64_MAX || (total.Some? && total.value <= max)
  }

  lemma NamesCarry(es: seq<Event<()>>, g: VerifiedTrustGrant, a: ContextValue, b: ContextValue)
    requires NamesBy(es, g, a, b)
    ensures AllProper(es) && AllCarry(es, LimitsFrom(g))
  {
  }

  lemma UnpassableHolds(
    es: seq<Event<()>>, g: VerifiedTrustGrant, t: string, who: KindValues, max: u64, a: ContextValue, b: ContextValue)
    requires NamesBy(es, g, a, b) && t in g.document.resourceScope && Unpassable(g, t, max)
    requires g.document.resourceScope[t].minting.maxPerUser == Some(max)
    ensures MintedFor(EMPTY_LEDGER, es, MintTotalKey(g.trustgrantId, t), who) <= max
  {
    hide MintedFor, NamesBy, AllProper, AllCarry;
    var k := MintTotalKey(g.trustgrantId, t);
    NamesCarry(es, g, a, b);
    QuotaSafety(es, LimitsFrom(g));
    RunCountsTotal(EMPTY_LEDGER, es, k, who);
    if max == 0 { NoneMinted(es, LimitsFrom(g), k, who); }
  }

  lemma AgreeingNames(
    es: seq<Event<()>>, g: VerifiedTrustGrant, t: string, a: BuiltContext, b: BuiltContext, max: u64)
    requires NamesBy(es, g, a, b) && SpellingsAgree(a, b) && t in g.document.resourceScope
    requires g.document.resourceScope[t].minting.maxPerUser == Some(max)
    ensures MintedFor(EMPTY_LEDGER, es, MintTotalKey(g.trustgrantId, t), Meaning(a)) <= max
  {
    hide WellBuilt, Genuine, Meaning, SpellingsAgree, MintedFor;
    var k := MintTotalKey(g.trustgrantId, t);
    SpellsItself(a);
    SpellsItself(b);
    SpellingsSymmetric(a, b);
    assert OneSpelling(es, k, Meaning(a));
    NamesCarry(es, g, a, b);
    PrincipalQuota(es, LimitsFrom(g), k, Meaning(a));
  }

  lemma TwoMintsName(g: VerifiedTrustGrant, m: MutationRequest, a: ContextValue, b: ContextValue, max: Quantity)
    requires AllProper(TwoMints(g, m, a, b, max))
    ensures NamesBy(TwoMints(g, m, a, b, max), g, a, b)
  {
  }

  /** Every run that names a principal by a and b keeps what it mints within max. */
  ghost predicate LimitHolds(g: VerifiedTrustGrant, t: string, a: ContextValue, b: ContextValue, max: u64) {
    forall es :: NamesBy(es, g, a, b) ==>
      MintedFor(EMPTY_LEDGER, es, MintTotalKey(g.trustgrantId, t), Meaning(a)) <= max
  }

  /** Exactly when its two names are spelled alike, or nobody could pass it, does the limit bound a principal. */
  lemma PrincipalQuotaExact(g: VerifiedTrustGrant, m: MutationRequest, a: BuiltContext, b: BuiltContext, max: u64)
    requires Admissible(g, m) && Meaning(m.request.principalContext) == Meaning(a) == Meaning(b)
    requires g.document.resourceScope[m.request.resource.resourceType].minting.maxPerUser == Some(max)
    ensures LimitHolds(g, m.request.resource.resourceType, a, b, max)
            <==> SpellingsAgree(a, b) || Unpassable(g, m.request.resource.resourceType, max)
  {
    hide WellBuilt, Genuine, Meaning, SpellingsAgree, MintedFor, NamesBy, TwoMints, AllProper, Engine.EvaluateInner,
         ContextsBuilt;
    var t := m.request.resource.resourceType;
    if SpellingsAgree(a, b) || Unpassable(g, t, max) {
      forall es | NamesBy(es, g, a, b)
        ensures MintedFor(EMPTY_LEDGER, es, MintTotalKey(g.trustgrantId, t), Meaning(a)) <= max
      {
        if Unpassable(g, t, max) {
          UnpassableHolds(es, g, t, Meaning(a), max, a, b);
        } else {
          AgreeingNames(es, g, t, a, b, max);
        }
      }
    } else {
      TwoSpellingsPassLimit(g, m, a, b, max);
      TwoMintsName(g, m, a, b, max);
      assert MintedFor(EMPTY_LEDGER, TwoMints(g, m, a, b, max), MintTotalKey(g.trustgrantId, t), Meaning(a)) == max + 1;
    }
  }

  // ---- A run ----

  const EVERYTHING := Scope(true, [], [])

  /** Everybody may mint thing, each principal one. */
  function OneEach(): VerifiedTrustGrant {
    var thing := ResourceType(
      EVERYTHING, TypeCapabilities(None, None), MintingConstraints(None, Some(1)), [],
      Some(OperationScope(["create"], [])));
    VerifiedTrustGrant(
      "grant",
      Document("a:o", EVERYTHING, Capabilities(true, true), [], map["thing" := thing], None, None),
      NonRevocable)
  }

  function MintThing(principal: ContextValue): MutationRequest {
    MutationRequest(
      EvaluationRequest(
        MINT, ToMint(TemplateRef("a:o", Some("template"))), Some("intent"), "a:t", EMPTY, "a:p", EMPTY, principal,
        ResourceContext("thing", EMPTY), None, 0, true),
      "intent", None, None)
  }

  lemma MintThingAdmissible(c: BuiltContext)
    requires c.entries != []
    ensures Admissible(OneEach(), MintThing(c)) && PerPrincipalLimit(OneEach(), "thing", 1)
  {
    hide Meaning;
    EmptyWellBuilt();
    var g, m := OneEach(), MintThing(c);
    var u := Admission.Unlimited(g, "thing");
    var thing := u.document.resourceScope["thing"];
    assert thing.operations.value.allow[0] == "create";
    assert Engine.IsOperationAllowed(thing, MINT).Allowed?;
    assert Engine.EvaluateScopeWithReasons(EVERYTHING, EMPTY, ResourceDenied, ResourceNotAllowed).Allowed?;
    assert Engine.EvaluateResourceType(u.document, thing, m.request).Allowed?;
  }

  /** One actor, named once as actor and once as Actor, mints two things under a limit of one per principal. */
  lemma ActorMintsTwice() returns (a: BuiltContext, b: BuiltContext)
    ensures a.entries == [SelectorValues(SelectorKind(Actor, "actor"), ["p"])]
    ensures b.entries == [SelectorValues(SelectorKind(Actor, "Actor"), ["p"])]
    ensures Meaning(a) == Meaning(b) && OneEach().document.resourceScope["thing"].minting.maxPerUser == Some(1)
    ensures var es := TwoMints(OneEach(), MintThing(a), a, b, 1);
            && AllProper(es) && (forall r :: r in Results(EMPTY_LEDGER, es) ==> r.IsApplied())
            && MintedFor(EMPTY_LEDGER, es, MintTotalKey("grant", "thing"), Meaning(a)) == 2
  {
    hide WellBuilt, Genuine, Meaning, StableKey, Admissible, PerPrincipalLimit, AllProper, TwoMints, MintedFor, Results;
    a, b := SameMeaningTwoKeys();
    KeyFollowsSpelling(a, b);
    MintThingAdmissible(a);
    TwoSpellingsPassLimit(OneEach(), MintThing(a), a, b, 1);
  }
}

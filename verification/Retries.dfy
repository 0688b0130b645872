/** Intent equality against the meaning of contexts: what a retry with rebuilt contexts gets. */
module Retries {
  import opened Wrappers
  import opened SelectorKinds
  import opened ContextValues
  import opened Requests
  import opened Execution
  import opened LedgerRuns

  lemma {:induction false} SameEntriesMeaning(a: seq<SelectorValues>, b: seq<SelectorValues>)
    requires |a| == |b|
    requires forall i :: 0 <= i < |a| ==> SameKind(a[i].kind, b[i].kind) && a[i].values == b[i].values
    ensures EntriesMeaning(a) == EntriesMeaning(b)
  {
    if a != [] {
      var n := |a| - 1;
      SameEntriesMeaning(a[..n], b[..n]);
      KindsAgree(a[n].kind, b[n].kind, b[n].kind);
    }
  }

  /** Contexts that are equal as intents mean the same. */
  lemma SameContextMeaning(a: ContextValue, b: ContextValue)
    requires SameContext(a, b)
    ensures Meaning(a) == Meaning(b)
  {
    SameEntriesMeaning(a.entries, b.entries);
  }

  /** The converse fails: two values of one kind inserted in either order. */
  lemma InsertOrderShows() returns (a: BuiltContext, b: BuiltContext)
    ensures var k := SelectorKind(Other, "k");
            && InsertItems([Item(k, "a"), Item(k, "b")]) == Ok(a)
            && InsertItems([Item(k, "b"), Item(k, "a")]) == Ok(b)
            && Meaning(a) == Meaning(b) && !SameContext(a, b)
  {
    hide InsertItems, WellBuilt, Genuine, Meaning, KeyOf, SameKind, Classify;
    var k := SelectorKind(Other, "k");
    KindOfLetter();
    assert "a"[0] != "b"[0];
    a := TwoValues(k, "a", "b");
    b := TwoValues(k, "b", "a");
    assert a.entries[0].values[0] == "a" && b.entries[0].values[0] == "b";
    assert {"a", "b"} == {"b", "a"};
  }

  lemma KindOfLetter()
    ensures Classify("k") == Other
  {
    assert Lower("k") == "k";
    assert "k"[0] != "authority"[0] && "k"[0] != "namespace"[0] && "k"[0] != "actor"[0];
  }

  /** A context of one user-defined kind. */
  function OneKind(k: SelectorKind, values: seq<string>): ContextValue {
    ContextValue([SelectorValues(k, values)], EMPTY.kindIndex)
  }

  lemma FirstInsert(k: SelectorKind, x: string)
    requires k.classification == Other
    ensures InsertItem(EMPTY, Item(k, x)) == Ok(OneKind(k, [x]))
  {
    assert FindEntry(EMPTY.entries, k) == 0;
    assert EMPTY.entries + [SelectorValues(k, [x])] == [SelectorValues(k, [x])];
  }

  lemma SecondInsert(k: SelectorKind, x: string, y: string)
    requires k.classification == Other && x != y
    ensures InsertItem(OneKind(k, [x]), Item(k, y)) == Ok(OneKind(k, [x, y]))
  {
    var entries := OneKind(k, [x]).entries;
    assert FindEntry(entries, k) == 0;
    assert entries[0].values + [y] == [x, y];
    assert entries[0 := SelectorValues(k, [x, y])] == [SelectorValues(k, [x, y])];
  }

  lemma OneKindMeaning(k: SelectorKind, values: seq<string>)
    ensures Meaning(OneKind(k, values)) == map[KeyOf(k) := ToSet(values)]
  {
    var entries := OneKind(k, values).entries;
    assert entries[..|entries| - 1] == [] && EntriesMeaning([]) == map[];
    assert entries[|entries| - 1] == SelectorValues(k, values);
  }

  lemma TwoValues(k: SelectorKind, x: string, y: string) returns (c: BuiltContext)
    requires Classified(k) && k.classification == Other && x != y
    ensures InsertItems([Item(k, x), Item(k, y)]) == Ok(c) && c == OneKind(k, [x, y])
    ensures Meaning(c) == map[KeyOf(k) := {x, y}]
  {
    hide InsertItem, WellBuilt, Genuine, Meaning, Classified, OneKind;
    var i, j := Item(k, x), Item(k, y);
    assert [i, j][..1] == [i] && [i][..0] == [];
    FirstInsert(k, x);
    SecondInsert(k, x, y);
    EmptyWellBuilt();
    InsertKeepsWellBuilt(EMPTY, i);
    InsertKeepsGenuine(EMPTY, i);
    InsertKeepsWellBuilt(OneKind(k, [x]), j);
    InsertKeepsGenuine(OneKind(k, [x]), j);
    c := OneKind(k, [x, y]);
    assert InsertItems([]) == Ok(EMPTY);
    assert InsertItems([i]) == Ok(OneKind(k, [x]));
    OneKindMeaning(k, [x, y]);
    assert ToSet([x, y]) == {x, y};
  }

  /** The request with its contexts built anew. */
  function Rebuilt(
    r: EvaluationRequest, target: ContextValue, audience: ContextValue, principal: ContextValue, resource: ContextValue)
    : EvaluationRequest
  {
    r.(targetContext := target, audienceContext := audience, principalContext := principal,
       resource := ResourceContext(r.resource.resourceType, resource))
  }

  /** A retry with rebuilt contexts is a duplicate exactly when every context was built in the same order;
      otherwise, even if all mean the same, it is a conflict. */
  lemma RetryExact<T>(
    s: LedgerState, es: seq<Event<T>>, i: nat, f: Callback<T>,
    target: ContextValue, audience: ContextValue, principal: ContextValue, resource: ContextValue)
    requires AllProper(es) && i < |es| && Results(s, es)[i].IsApplied() && es[i].Execute?
    ensures var r := es[i].request.request;
            var m := es[i].request.(request := Rebuilt(r, target, audience, principal, resource));
            Step(Run(s, es), es[i].grant, m, f) ==
            (Run(s, es),
             Ok(if SameContext(r.targetContext, target) && SameContext(r.audienceContext, audience)
                   && SameContext(r.principalContext, principal) && SameContext(r.resource.selectors, resource)
                then Duplicate(Results(s, es)[i].result.value.authorization) else IntentConflict(m.intentId)))
  {
    hide Step, SameContext, AfterEvent;
    var r := es[i].request.request;
    var m := es[i].request.(request := Rebuilt(r, target, audience, principal, resource));
    Resubmission(s, es, i, es[i].grant, m, f);
  }

  // ---- What intent equality compares ----

  /** Built contexts are equal entry by entry: kinds as kinds compare, values in order; their index adds nothing. */
  lemma SameContextExact(a: ContextValue, b: ContextValue)
    requires WellBuilt(a) && WellBuilt(b)
    ensures SameContext(a, b) <==>
            && |a.entries| == |b.entries|
            && forall i :: 0 <= i < |a.entries| ==>
                 KeyOf(a.entries[i].kind) == KeyOf(b.entries[i].kind) && a.entries[i].values == b.entries[i].values
  {
    forall i | 0 <= i < |a.entries| && i < |b.entries|
      ensures SameKind(a.entries[i].kind, b.entries[i].kind) <==> KeyOf(a.entries[i].kind) == KeyOf(b.entries[i].kind)
    {
      KindsAgree(a.entries[i].kind, b.entries[i].kind, b.entries[i].kind);
    }
    if |a.entries| == |b.entries|
       && (forall i :: 0 <= i < |a.entries| ==>
             KeyOf(a.entries[i].kind) == KeyOf(b.entries[i].kind) && a.entries[i].values == b.entries[i].values) {
      SameIndex(a, b);
    }
  }

  lemma SameIndex(a: ContextValue, b: ContextValue)
    requires IndexExact(a) && IndexExact(b) && |a.entries| == |b.entries|
    requires forall i :: 0 <= i < |a.entries| ==> KeyOf(a.entries[i].kind) == KeyOf(b.entries[i].kind)
    ensures a.kindIndex == b.kindIndex
  {
    forall s | 0 <= s < 4
      ensures a.kindIndex[s] == b.kindIndex[s]
    {
      SlotFollows(a, b, s);
      SlotFollows(b, a, s);
    }
  }

  lemma SlotFollows(a: ContextValue, b: ContextValue, s: nat)
    requires IndexExact(a) && IndexExact(b) && |a.entries| == |b.entries| && s < 4
    requires forall i :: 0 <= i < |a.entries| ==> KeyOf(a.entries[i].kind) == KeyOf(b.entries[i].kind)
    ensures a.kindIndex[s].Some? ==> b.kindIndex[s] == a.kindIndex[s]
  {
    if a.kindIndex[s].Some? {
      var i := a.kindIndex[s].value;
      assert KeyOf(b.entries[i].kind) == Builtin(s);
      assert KindIndex(b.entries[i].kind) == Some(s);
    }
  }

  /** Two requests are one intent exactly when they differ in nothing but intent id, mint context, clock,
      verification flag, and contexts that are equal as contexts compare. */
  lemma SameIntentExact(a: EvaluationRequest, b: EvaluationRequest)
    ensures SameMutationIntent(a, b) <==>
            && SameContext(a.targetContext, b.targetContext) && SameContext(a.audienceContext, b.audienceContext)
            && SameContext(a.principalContext, b.principalContext)
            && SameContext(a.resource.selectors, b.resource.selectors)
            && b == Rebuilt(a, b.targetContext, b.audienceContext, b.principalContext, b.resource.selectors).(
                      intentId := b.intentId, mintContext := b.mintContext, evaluatedAt := b.evaluatedAt,
                      selectorsVerified := b.selectorsVerified)
  {
    hide SameContext;
  }
}

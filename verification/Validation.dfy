/** Validation of selectors, scopes, audiences and operations. */
module Validation {
  import opened Wrappers
  import opened Text
  import opened Protocol
  import opened SelectorKinds
  import opened SelectorExpressions
  import opened ContextValues
  import opened Grants

  datatype RawSelector = RawSelector(
    kind: string, all: bool, values: Option<seq<string>>, expressions: Option<seq<string>>)

  datatype RawScope = RawScope(all: bool, allow: Option<seq<RawSelector>>, deny: Option<seq<RawSelector>>)

  datatype RawAudienceEntry = RawAudienceEntry(authorityId: string, scope: RawScope, principalScope: Option<RawScope>)

  // ---- Values ----

  function NormalizeAll(values: seq<string>): Result<seq<string>, TrustGrantError> {
    if values == [] then Ok([])
    else
      var front :- NormalizeAll(values[..|values| - 1]);
      var last :- NormalizeBounded("selector.value", values[|values| - 1], MAX_SELECTOR_VALUE_BYTES);
      Ok(front + [last])
  }

  /** The elements of s at their first positions, in order. */
  function FirstOccurrences(s: seq<string>): seq<string> {
    if s == [] then []
    else
      var front, last := s[..|s| - 1], s[|s| - 1];
      FirstOccurrences(front) + if last in front then [] else [last]
  }

  function NormalizedValues(raw: Option<seq<string>>): Result<seq<string>, TrustGrantError> {
    var values := raw.UnwrapOr([]);
    var _ :- EnsureCollectionLimit("selector.values", |values|, MAX_SELECTOR_VALUES_PER_SELECTOR);
    var normalized :- NormalizeAll(values);
    Ok(FirstOccurrences(normalized))
  }

  /** Normalizes each value, then keeps those not seen before. */
  method NormalizeNonEmptyStrings(raw: Option<seq<string>>) returns (r: Result<seq<string>, TrustGrantError>)
    ensures r == NormalizedValues(raw)
    ensures r.Ok? ==> NoDuplicates(r.value) && NormalizedValues(Some(r.value)) == r
  {
    hide NormalizeBounded;
    var values := raw.UnwrapOr([]);
    if NormalizedValues(raw).Ok? { NormalizedValuesIdempotent(raw); }
    var limit := EnsureCollectionLimit("selector.values", |values|, MAX_SELECTOR_VALUES_PER_SELECTOR);
    if limit.Err? {
      return Err(limit.error);
    }
    var normalized := [];
    for i := 0 to |values|
      invariant NormalizeAll(values[..i]) == Ok(normalized)
    {
      assert values[..i + 1][..i] == values[..i];
      var value := NormalizeBounded("selector.value", values[i], MAX_SELECTOR_VALUE_BYTES);
      if value.Err? {
        NormalizeAllStops(values, i + 1);
        return Err(value.error);
      }
      normalized := normalized + [value.value];
    }
    assert values[..|values|] == values;
    var seen, kept := {}, [];
    for i := 0 to |normalized|
      invariant seen == ToSet(normalized[..i])
      invariant kept == FirstOccurrences(normalized[..i])
    {
      assert normalized[..i + 1][..i] == normalized[..i];
      if normalized[i] !in seen {
        kept := kept + [normalized[i]];
      }
      seen := seen + {normalized[i]};
    }
    assert normalized[..|normalized|] == normalized;
    return Ok(kept);
  }

  lemma {:induction false} NormalizeAllStops(values: seq<string>, n: nat)
    requires n <= |values| && NormalizeAll(values[..n]).Err?
    ensures NormalizeAll(values) == NormalizeAll(values[..n])
  {
    if n == |values| {
      assert values[..n] == values;
    } else {
      var front := values[..|values| - 1];
      assert front[..n] == values[..n];
      NormalizeAllStops(front, n);
    }
  }

  /** Position of the first x. */
  function FirstIndex(s: seq<string>, x: string): (i: nat)
    requires x in s
    ensures i < |s| && s[i] == x && x !in s[..i]
  {
    if s[0] == x then 0
    else
      var i := 1 + FirstIndex(s[1..], x);
      assert s[..i] == [s[0]] + s[1..][..i - 1];
      i
  }

  lemma {:induction false} FirstIndexAt(s: seq<string>, x: string, i: nat)
    requires i < |s| && s[i] == x && x !in s[..i]
    ensures FirstIndex(s, x) == i
  {
    if i > 0 {
      assert s[..i][0] == s[0] && s[1..][..i - 1] == s[..i][1..];
      FirstIndexAt(s[1..], x, i - 1);
    }
  }

  lemma FirstIndexIn(front: seq<string>, last: string, x: string)
    requires x in front + [last]
    ensures FirstIndex(front + [last], x) == if x in front then FirstIndex(front, x) else |front|
  {
    var i := if x in front then FirstIndex(front, x) else |front|;
    assert (front + [last])[..i] == front[..i];
    FirstIndexAt(front + [last], x, i);
  }

  /** Exactly the elements, each once, ordered by first position. */
  lemma {:induction false} FirstOccurrencesExact(s: seq<string>)
    ensures var r := FirstOccurrences(s);
            && NoDuplicates(r)
            && (forall x :: x in r <==> x in s)
            && (forall i, j :: 0 <= i < j < |r| ==> r[i] in s && r[j] in s && FirstIndex(s, r[i]) < FirstIndex(s, r[j]))
  {
    if s != [] {
      var front, last := s[..|s| - 1], s[|s| - 1];
      assert s == front + [last];
      FirstOccurrencesExact(front);
      var r, f := FirstOccurrences(s), FirstOccurrences(front);
      forall x
        ensures x in r <==> x in s
      {
      }
      forall i, j | 0 <= i < j < |r|
        ensures r[i] != r[j] && FirstIndex(s, r[i]) < FirstIndex(s, r[j])
      {
        assert r[i] == f[i] && f[i] in f;
        FirstIndexIn(front, last, r[i]);
        FirstIndexIn(front, last, r[j]);
        if j < |f| {
          assert r[j] == f[j] && f[j] in f;
        }
      }
    }
  }

  lemma {:induction false} FirstOccurrencesDistinct(s: seq<string>)
    requires NoDuplicates(s)
    ensures FirstOccurrences(s) == s
  {
    if s != [] {
      FirstOccurrencesDistinct(s[..|s| - 1]);
      assert s[|s| - 1] !in s[..|s| - 1];
    }
  }

  lemma {:induction false} NormalizeAllMembers(values: seq<string>)
    requires NormalizeAll(values).Ok?
    ensures |NormalizeAll(values).value| == |values|
    ensures forall i :: 0 <= i < |values| ==>
              NormalizeBounded("selector.value", values[i], MAX_SELECTOR_VALUE_BYTES) == Ok(NormalizeAll(values).value[i])
  {
    hide NormalizeBounded;
    if values != [] {
      NormalizeAllMembers(values[..|values| - 1]);
    }
  }

  lemma {:induction false} NormalizeAllFixed(values: seq<string>)
    requires forall i :: 0 <= i < |values| ==>
               NormalizeBounded("selector.value", values[i], MAX_SELECTOR_VALUE_BYTES) == Ok(values[i])
    ensures NormalizeAll(values) == Ok(values)
  {
    hide NormalizeBounded;
    if values != [] {
      NormalizeAllFixed(values[..|values| - 1]);
      assert values == values[..|values| - 1] + [values[|values| - 1]];
    }
  }

  lemma {:induction false} FirstOccurrencesShrinks(s: seq<string>)
    ensures |FirstOccurrences(s)| <= |s|
  {
    if s != [] { FirstOccurrencesShrinks(s[..|s| - 1]); }
  }

  lemma NormalizeBoundedIdempotent(field: string, value: string, maxBytes: nat)
    requires NormalizeBounded(field, value, maxBytes).Ok?
    ensures var v := NormalizeBounded(field, value, maxBytes).value; NormalizeBounded(field, v, maxBytes) == Ok(v)
  {
  }

  /** Normalizing twice is normalizing once. */
  lemma NormalizedValuesIdempotent(raw: Option<seq<string>>)
    requires NormalizedValues(raw).Ok?
    ensures NoDuplicates(NormalizedValues(raw).value)
    ensures NormalizedValues(Some(NormalizedValues(raw).value)) == NormalizedValues(raw)
  {
    hide NormalizeBounded;
    var values := raw.UnwrapOr([]);
    var normalized := NormalizeAll(values).value;
    var r := FirstOccurrences(normalized);
    NormalizeAllMembers(values);
    FirstOccurrencesExact(normalized);
    FirstOccurrencesShrinks(normalized);
    forall i | 0 <= i < |r|
      ensures NormalizeBounded("selector.value", r[i], MAX_SELECTOR_VALUE_BYTES) == Ok(r[i])
    {
      assert r[i] in normalized;
      var j :| 0 <= j < |normalized| && normalized[j] == r[i];
      NormalizeBoundedIdempotent("selector.value", values[j], MAX_SELECTOR_VALUE_BYTES);
    }
    NormalizeAllFixed(r);
    FirstOccurrencesDistinct(r);
  }

  // ---- Selectors ----

  function ParseExpressions(texts: seq<string>): Result<seq<SelectorExpression>, TrustGrantError> {
    if texts == [] then Ok([])
    else
      var front :- ParseExpressions(texts[..|texts| - 1]);
      var text :- NormalizeBounded(FIELD, texts[|texts| - 1], MAX_SELECTOR_EXPRESSION_BYTES);
      var last :- Parse(text);
      Ok(front + [last])
  }

  function ValidateExpressions(raw: Option<seq<string>>): Result<seq<SelectorExpression>, TrustGrantError> {
    var texts := raw.UnwrapOr([]);
    var _ :- EnsureCollectionLimit(FIELD, |texts|, MAX_SELECTOR_EXPRESSIONS_PER_SELECTOR);
    ParseExpressions(texts)
  }

  /** `all` stands alone; otherwise some value or expression is needed. */
  predicate SelectorShape(s: Selector) {
    s.all <==> s.values == [] && s.expressions == []
  }

  function ValidateSelector(raw: RawSelector): Result<Selector, TrustGrantError> {
    var kind :- New(raw.kind);
    var values :- NormalizedValues(raw.values);
    var expressions :- ValidateExpressions(raw.expressions);
    if raw.all && (values != [] || expressions != []) then Err(InvalidSelectorShape)
    else if !raw.all && values == [] && expressions == [] then Err(InvalidSelectorShape)
    else Ok(Selector(kind, raw.all, values, expressions))
  }

  /** What the set of seen selectors compares. */
  datatype SelectorKey = SelectorKey(
    kind: KindKey, all: bool, values: seq<string>, expressions: seq<SelectorExpression>)

  function KeyOfSelector(s: Selector): SelectorKey {
    SelectorKey(KeyOf(s.kind), s.all, s.values, s.expressions)
  }

  ghost predicate DistinctSelectors(s: seq<Selector>) {
    forall i, j :: 0 <= i < j < |s| ==> !SameSelector(s[i], s[j])
  }

  /** The outcome for the selectors taken in order, up to the first that is invalid or repeats one. */
  function ValidatedEach(raws: seq<RawSelector>): Result<seq<Selector>, TrustGrantError> {
    if raws == [] then Ok([])
    else
      var front :- ValidatedEach(raws[..|raws| - 1]);
      var last :- ValidateSelector(raws[|raws| - 1]);
      if exists i :: 0 <= i < |front| && SameSelector(front[i], last) then Err(DuplicateSelector)
      else Ok(front + [last])
  }

  function ValidatedSelectors(raw: Option<seq<RawSelector>>): Result<seq<Selector>, TrustGrantError> {
    var raws := raw.UnwrapOr([]);
    var _ :- EnsureCollectionLimit("scope.selectors", |raws|, MAX_SELECTORS_PER_SCOPE);
    ValidatedEach(raws)
  }

  /** Validates selector by selector, refusing one that equals an earlier one. */
  method ValidateSelectors(raw: Option<seq<RawSelector>>) returns (r: Result<seq<Selector>, TrustGrantError>)
    ensures r == ValidatedSelectors(raw)
    ensures r.Ok? <==>
            var raws := raw.UnwrapOr([]);
            && |raws| <= MAX_SELECTORS_PER_SCOPE
            && (forall i :: 0 <= i < |raws| ==> ValidateSelector(raws[i]).Ok?)
            && (forall i, j :: 0 <= i < j < |raws| ==>
                  !SameSelector(ValidateSelector(raws[i]).value, ValidateSelector(raws[j]).value))
  {
    hide ValidateSelector, SameSelector;
    var raws := raw.UnwrapOr([]);
    ValidatedEachIff(raws);
    var limit := EnsureCollectionLimit("scope.selectors", |raws|, MAX_SELECTORS_PER_SCOPE);
    if limit.Err? {
      return Err(limit.error);
    }
    var seen: set<SelectorKey>, validated := {}, [];
    for i := 0 to |raws|
      invariant ValidatedEach(raws[..i]) == Ok(validated)
      invariant seen == set s | s in validated :: KeyOfSelector(s)
    {
      assert raws[..i + 1][..i] == raws[..i];
      var selector := ValidateSelector(raws[i]);
      if selector.Err? {
        ValidatedEachStops(raws, i + 1);
        return Err(selector.error);
      }
      SeenMeansRepeated(validated, selector.value);
      if KeyOfSelector(selector.value) in seen {
        ValidatedEachStops(raws, i + 1);
        return Err(DuplicateSelector);
      }
      seen := seen + {KeyOfSelector(selector.value)};
      validated := validated + [selector.value];
    }
    assert raws[..|raws|] == raws;
    return Ok(validated);
  }

  lemma SeenMeansRepeated(validated: seq<Selector>, s: Selector)
    ensures KeyOfSelector(s) in (set v | v in validated :: KeyOfSelector(v))
            <==> exists i :: 0 <= i < |validated| && SameSelector(validated[i], s)
  {
    forall i | 0 <= i < |validated|
      ensures SameSelector(validated[i], s) <==> KeyOfSelector(validated[i]) == KeyOfSelector(s)
    {
      KindsAgree(validated[i].kind, s.kind, s.kind);
    }
  }

  lemma {:induction false} ValidatedEachStops(raws: seq<RawSelector>, n: nat)
    requires n <= |raws| && ValidatedEach(raws[..n]).Err?
    ensures ValidatedEach(raws) == ValidatedEach(raws[..n])
  {
    hide ValidateSelector, SameSelector;
    if n == |raws| {
      assert raws[..n] == raws;
    } else {
      assert raws[..|raws| - 1][..n] == raws[..n];
      ValidatedEachStops(raws[..|raws| - 1], n);
    }
  }

  /** Success means every selector is valid and no two are equal; the result keeps their order. */
  lemma {:induction false} ValidatedEachIff(raws: seq<RawSelector>)
    ensures ValidatedEach(raws).Ok? <==>
            && (forall i :: 0 <= i < |raws| ==> ValidateSelector(raws[i]).Ok?)
            && (forall i, j :: 0 <= i < j < |raws| ==>
                  !SameSelector(ValidateSelector(raws[i]).value, ValidateSelector(raws[j]).value))
    ensures ValidatedEach(raws).Ok? ==>
              && |ValidatedEach(raws).value| == |raws|
              && (forall i :: 0 <= i < |raws| ==> ValidateSelector(raws[i]) == Ok(ValidatedEach(raws).value[i]))
  {
    hide ValidateSelector, SameSelector;
    if raws != [] {
      var n := |raws| - 1;
      ValidatedEachIff(raws[..n]);
    }
  }

  // ---- Scopes ----

  function ValidateScopeShape(scopeName: string, all: bool, allowIsEmpty: bool, allowPresent: bool)
    : Result<(), TrustGrantError>
  {
    if all && !allowIsEmpty then Err(InvalidScopeShape(scopeName))
    else if !all && !allowPresent then Err(InvalidScopeShape(scopeName))
    else Ok(())
  }

  function NewScope(scopeName: string, all: bool, allow: seq<Selector>, deny: seq<Selector>)
    : Result<Scope, TrustGrantError>
  {
    var _ :- ValidateScopeShape(scopeName, all, allow == [], allow != []);
    Ok(Scope(all, allow, deny))
  }

  function ValidateScope(scopeName: string, raw: RawScope): Result<Scope, TrustGrantError> {
    var allow :- ValidatedSelectors(raw.allow);
    var deny :- ValidatedSelectors(raw.deny);
    NewScope(scopeName, raw.all, allow, deny)
  }

  /** A scope allows everything or lists what it allows, never both, and repeats no selector. */
  ghost predicate ValidScope(s: Scope) {
    && (s.all <==> s.allow == [])
    && DistinctSelectors(s.allow) && DistinctSelectors(s.deny)
    && (forall x :: x in s.allow || x in s.deny ==> SelectorShape(x) && NoDuplicates(x.values))
  }

  lemma ValidateSelectorShape(raw: RawSelector)
    requires ValidateSelector(raw).Ok?
    ensures SelectorShape(ValidateSelector(raw).value) && NoDuplicates(ValidateSelector(raw).value.values)
  {
    hide NormalizedValues, ValidateExpressions, New;
    NormalizedValuesIdempotent(raw.values);
  }

  lemma ValidatedSelectorsShape(raw: Option<seq<RawSelector>>)
    requires ValidatedSelectors(raw).Ok?
    ensures DistinctSelectors(ValidatedSelectors(raw).value)
    ensures forall x :: x in ValidatedSelectors(raw).value ==> SelectorShape(x) && NoDuplicates(x.values)
  {
    hide ValidateSelector, SameSelector, SelectorShape, NoDuplicates;
    var raws := raw.UnwrapOr([]);
    ValidatedEachIff(raws);
    var validated := ValidatedEach(raws).value;
    forall x | x in validated
      ensures SelectorShape(x) && NoDuplicates(x.values)
    {
      var i :| 0 <= i < |raws| && validated[i] == x;
      ValidateSelectorShape(raws[i]);
    }
  }

  /** Whatever validation lets through has the shape the engine relies on. */
  lemma ValidateScopeGives(scopeName: string, raw: RawScope)
    requires ValidateScope(scopeName, raw).Ok?
    ensures ValidScope(ValidateScope(scopeName, raw).value)
  {
    hide ValidatedSelectors, SelectorShape, NoDuplicates;
    ValidatedSelectorsShape(raw.allow);
    ValidatedSelectorsShape(raw.deny);
  }

  // ---- Audiences ----

  /** Authority identifiers; lower-casing is the library's, passed in as a function. */
  function NewAuthority(raw: string, lower: string -> string): Result<string, TrustGrantError> {
    var trimmed := Trim(raw);
    if trimmed == [] then Err(EmptyAuthorityId)
    else
      var _ :- EnsureStringLimit("authority_id", trimmed, MAX_AUTHORITY_ID_BYTES);
      var i := FirstForbidden(trimmed);
      if i < |trimmed| then Err(InvalidAuthorityIdCharacter(trimmed[i]))
      else
        var lowered := lower(trimmed);
        var _ :- EnsureStringLimit("authority_id", lowered, MAX_AUTHORITY_ID_BYTES);
        var colon := Find(lowered, ':');
        if colon == |lowered| || colon == 0 then Err(InvalidAuthorityIdMissingScheme) else Ok(lowered)
  }

  function ValidatePrincipalScope(scopeName: string, raw: Option<RawScope>): Result<Option<Scope>, TrustGrantError> {
    if raw.None? then Ok(None)
    else
      var scope :- ValidateScope(scopeName, raw.value);
      Ok(Some(scope))
  }

  function ValidatedEntries(scopeName: string, raws: seq<RawAudienceEntry>, lower: string -> string)
    : Result<seq<AudienceEntry>, TrustGrantError>
  {
    if raws == [] then Ok([])
    else
      var front :- ValidatedEntries(scopeName, raws[..|raws| - 1], lower);
      var raw := raws[|raws| - 1];
      var authority :- NewAuthority(raw.authorityId, lower);
      if authority in Authorities(front) then Err(DuplicateAudienceAuthority)
      else
        var scope :- ValidateScope(scopeName, raw.scope);
        var principalScope :- ValidatePrincipalScope(scopeName, raw.principalScope);
        Ok(front + [AudienceEntry(authority, scope, principalScope)])
  }

  function Authorities(entries: seq<AudienceEntry>): set<string> {
    set e | e in entries :: e.authorityId
  }

  ghost predicate UniqueAuthorities(entries: seq<AudienceEntry>) {
    forall i, j :: 0 <= i < j < |entries| ==> entries[i].authorityId != entries[j].authorityId
  }

  function ValidatedAudience(scopeName: string, raw: Option<seq<RawAudienceEntry>>, lower: string -> string)
    : Result<seq<AudienceEntry>, TrustGrantError>
  {
    var raws := raw.UnwrapOr([]);
    var _ :- EnsureCollectionLimit(scopeName, |raws|, MAX_AUDIENCE_ENTRIES);
    ValidatedEntries(scopeName, raws, lower)
  }

  /** Validates entry by entry, refusing an authority seen before. */
  method ValidateAudienceEntries(scopeName: string, raw: Option<seq<RawAudienceEntry>>, lower: string -> string)
    returns (r: Result<seq<AudienceEntry>, TrustGrantError>)
    ensures r == ValidatedAudience(scopeName, raw, lower)
    ensures r.Ok? ==>
              && UniqueAuthorities(r.value) && |r.value| == |raw.UnwrapOr([])|
              && (forall i :: 0 <= i < |r.value| ==>
                    NewAuthority(raw.UnwrapOr([])[i].authorityId, lower) == Ok(r.value[i].authorityId))
              && (forall e :: e in r.value ==>
                    ValidScope(e.scope) && (e.principalScope.Some? ==> ValidScope(e.principalScope.value)))
  {
    hide NewAuthority, ValidateScope, ValidatePrincipalScope, ValidScope, UniqueAuthorities;
    var raws := raw.UnwrapOr([]);
    var limit := EnsureCollectionLimit(scopeName, |raws|, MAX_AUDIENCE_ENTRIES);
    if limit.Err? {
      return Err(limit.error);
    }
    var seen, entries := {}, [];
    for i := 0 to |raws|
      invariant ValidatedEntries(scopeName, raws[..i], lower) == Ok(entries)
      invariant seen == Authorities(entries)
    {
      assert raws[..i + 1][..i] == raws[..i];
      var authority := NewAuthority(raws[i].authorityId, lower);
      if authority.Err? {
        ValidatedEntriesStops(scopeName, raws, lower, i + 1);
        return Err(authority.error);
      }
      if authority.value in seen {
        ValidatedEntriesStops(scopeName, raws, lower, i + 1);
        return Err(DuplicateAudienceAuthority);
      }
      seen := seen + {authority.value};
      var scope := ValidateScope(scopeName, raws[i].scope);
      if scope.Err? {
        ValidatedEntriesStops(scopeName, raws, lower, i + 1);
        return Err(scope.error);
      }
      var principalScope := ValidatePrincipalScope(scopeName, raws[i].principalScope);
      if principalScope.Err? {
        ValidatedEntriesStops(scopeName, raws, lower, i + 1);
        return Err(principalScope.error);
      }
      entries := entries + [AudienceEntry(authority.value, scope.value, principalScope.value)];
    }
    assert raws[..|raws|] == raws;
    ValidatedEntriesSound(scopeName, raws, lower);
    return Ok(entries);
  }

  lemma {:induction false} ValidatedEntriesStops(
    scopeName: string, raws: seq<RawAudienceEntry>, lower: string -> string, n: nat)
    requires n <= |raws| && ValidatedEntries(scopeName, raws[..n], lower).Err?
    ensures ValidatedEntries(scopeName, raws, lower) == ValidatedEntries(scopeName, raws[..n], lower)
  {
    hide NewAuthority, ValidateScope, ValidatePrincipalScope;
    if n == |raws| {
      assert raws[..n] == raws;
    } else {
      assert raws[..|raws| - 1][..n] == raws[..n];
      ValidatedEntriesStops(scopeName, raws[..|raws| - 1], lower, n);
    }
  }

  /** What validation makes of one audience entry. */
  function EntryOf(scopeName: string, raw: RawAudienceEntry, lower: string -> string)
    : Result<AudienceEntry, TrustGrantError>
  {
    var authority :- NewAuthority(raw.authorityId, lower);
    var scope :- ValidateScope(scopeName, raw.scope);
    var principalScope :- ValidatePrincipalScope(scopeName, raw.principalScope);
    Ok(AudienceEntry(authority, scope, principalScope))
  }

  lemma ValidatedEntriesLast(scopeName: string, raws: seq<RawAudienceEntry>, lower: string -> string)
    requires raws != []
    ensures var r, front := ValidatedEntries(scopeName, raws, lower), ValidatedEntries(scopeName, raws[..|raws| - 1], lower);
            var last := EntryOf(scopeName, raws[|raws| - 1], lower);
            && (r.Ok? <==> front.Ok? && last.Ok? && last.value.authorityId !in Authorities(front.value))
            && (r.Ok? ==> r.value == front.value + [last.value])
  {
    hide NewAuthority, ValidateScope, ValidatePrincipalScope, Authorities;
  }

  /** A valid entry has the normalized authority and valid scopes. */
  lemma EntrySound(scopeName: string, raw: RawAudienceEntry, lower: string -> string)
    requires EntryOf(scopeName, raw, lower).Ok?
    ensures var e := EntryOf(scopeName, raw, lower).value;
            && NewAuthority(raw.authorityId, lower) == Ok(e.authorityId)
            && ValidScope(e.scope) && (e.principalScope.Some? ==> ValidScope(e.principalScope.value))
  {
    hide NewAuthority, ValidateScope, ValidScope;
    ValidateScopeGives(scopeName, raw.scope);
    if raw.principalScope.Some? {
      ValidateScopeGives(scopeName, raw.principalScope.value);
    }
  }

  lemma UniqueAuthoritiesAppend(front: seq<AudienceEntry>, last: AudienceEntry)
    requires UniqueAuthorities(front) && last.authorityId !in Authorities(front)
    ensures UniqueAuthorities(front + [last])
  {
    assert forall i :: 0 <= i < |front| ==> front[i].authorityId in Authorities(front);
  }

  /** Validated audiences have one entry per authority, in the order given, with valid scopes. */
  lemma {:induction false} ValidatedEntriesSound(
    scopeName: string, raws: seq<RawAudienceEntry>, lower: string -> string)
    ensures var r := ValidatedEntries(scopeName, raws, lower);
            r.Ok? ==>
              && UniqueAuthorities(r.value) && |r.value| == |raws|
              && (forall i :: 0 <= i < |raws| ==>
                    NewAuthority(raws[i].authorityId, lower) == Ok(r.value[i].authorityId))
              && (forall e :: e in r.value ==>
                    ValidScope(e.scope) && (e.principalScope.Some? ==> ValidScope(e.principalScope.value)))
  {
    hide NewAuthority, ValidateScope, ValidScope, EntryOf, Authorities;
    var r := ValidatedEntries(scopeName, raws, lower);
    if raws != [] && r.Ok? {
      var n := |raws| - 1;
      ValidatedEntriesSound(scopeName, raws[..n], lower);
      ValidatedEntriesLast(scopeName, raws, lower);
      hide ValidatedEntries, UniqueAuthorities;
      var front, last := ValidatedEntries(scopeName, raws[..n], lower).value, EntryOf(scopeName, raws[n], lower).value;
      EntrySound(scopeName, raws[n], lower);
      UniqueAuthoritiesAppend(front, last);
      assert forall i :: 0 <= i < n ==> raws[..n][i] == raws[i];
    }
  }

  // ---- Operations ----

  /** Grows the set of seen names until one repeats. */
  method EnsureNoDuplicateOperations(operations: seq<string>) returns (r: Result<(), TrustGrantError>)
    ensures r == if NoDuplicates(operations) then Ok(()) else Err(DuplicateOperationName)
  {
    var seen := {};
    for i := 0 to |operations|
      invariant seen == ToSet(operations[..i])
      invariant NoDuplicates(operations[..i])
    {
      if operations[i] in seen {
        var j :| 0 <= j < i && operations[..i][j] == operations[i];
        assert operations[j] == operations[i];
        return Err(DuplicateOperationName);
      }
      seen := seen + {operations[i]};
      assert operations[..i + 1] == operations[..i] + [operations[i]];
    }
    assert operations[..|operations|] == operations;
    return Ok(());
  }
}

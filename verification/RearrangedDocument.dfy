/** Rearranging the lists of a whole document: when it stays valid, and that decisions stay the same. */
module RearrangedDocument {
  import opened Wrappers
  import opened Protocol
  import opened ContextValues
  import opened Grants
  import opened Requests
  import opened Engine
  import opened Validation
  import opened DocumentValidation
  import opened Attenuation
  import opened Permutations
  import opened RearrangedInput

  // ---- Scopes ----

  ghost predicate RearrangedScope(a: RawScope, b: RawScope) {
    && a.all == b.all
    && RearrangedList(a.allow.UnwrapOr([]), b.allow.UnwrapOr([]))
    && RearrangedList(a.deny.UnwrapOr([]), b.deny.UnwrapOr([]))
  }

  /** No two allow selectors and no two deny selectors are alike. */
  ghost predicate SteadyScope(s: Scope) {
    NoneAlike(s.allow) && NoneAlike(s.deny)
  }

  lemma ListLength(a: seq<RawSelector>, b: seq<RawSelector>)
    requires RearrangedList(a, b)
    ensures |a| == |b|
  {
    hide Rearranged;
    var c :| Permutes(a, c) && Pointwise(c, b);
    PermutedMembers(a, c);
  }

  lemma ListItself(a: seq<RawSelector>)
    ensures RearrangedList(a, a)
  {
    hide Rearranged;
    forall i | 0 <= i < |a|
      ensures Rearranged(a[i], a[i])
    {
      RearrangedItself(a[i]);
    }
    assert Permutes(a, a) && Pointwise(a, a);
  }

  /** Both lists being valid, each selector of one is in the other up to order. */
  lemma ListsWithin(a: seq<RawSelector>, b: seq<RawSelector>)
    requires RearrangedList(a, b) && ValidatedEach(a).Ok? && ValidatedEach(b).Ok?
    ensures Within(ValidatedEach(a).value, ValidatedEach(b).value)
    ensures Within(ValidatedEach(b).value, ValidatedEach(a).value)
  {
    hide ValidatedEach, ValidateSelector, SameUpToOrder, Rearranged;
    var c :| Permutes(a, c) && Pointwise(c, b);
    PermutedMembers(a, c);
    ValidatedEachIff(a);
    ValidatedEachIff(b);
    var v, w := ValidatedEach(a).value, ValidatedEach(b).value;
    forall s | s in v
      ensures exists t :: t in w && SameUpToOrder(s, t)
    {
      var k :| 0 <= k < |a| && v[k] == s;
      assert a[k] in c;
      var i :| 0 <= i < |c| && c[i] == a[k];
      RearrangedSelector(c[i], b[i]);
      assert w[i] in w && SameUpToOrder(s, w[i]);
    }
    forall t | t in w
      ensures exists s :: s in v && SameUpToOrder(t, s)
    {
      var i :| 0 <= i < |b| && w[i] == t;
      assert c[i] in a;
      var k :| 0 <= k < |a| && a[k] == c[i];
      RearrangedSelector(c[i], b[i]);
      OrderSymmetric(v[k], w[i]);
      assert v[k] in v && SameUpToOrder(t, v[k]);
    }
  }

  lemma OrderSymmetric(s: Selector, t: Selector)
    ensures SameUpToOrder(s, t) <==> SameUpToOrder(t, s)
  {
  }

  lemma SelectorsValid(a: Option<seq<RawSelector>>, b: Option<seq<RawSelector>>)
    requires RearrangedList(a.UnwrapOr([]), b.UnwrapOr([])) && ValidatedSelectors(a).Ok?
    ensures |a.UnwrapOr([])| == |b.UnwrapOr([])|
    ensures ValidatedSelectors(b).Ok? <==> ValidatedEach(b.UnwrapOr([])).Ok?
    ensures ValidatedSelectors(b).Ok? ==>
              && (ValidatedSelectors(a).value == [] <==> ValidatedSelectors(b).value == [])
              && Within(ValidatedSelectors(a).value, ValidatedSelectors(b).value)
              && Within(ValidatedSelectors(b).value, ValidatedSelectors(a).value)
    ensures NoneAlike(ValidatedSelectors(a).value) ==>
              ValidatedSelectors(b).Ok? && NoneAlike(ValidatedSelectors(b).value)
  {
    hide ValidatedEach, RearrangedList, NoneAlike, Within;
    ListLength(a.UnwrapOr([]), b.UnwrapOr([]));
    ValidatedEachLength(a.UnwrapOr([]));
    ValidatedEachLength(b.UnwrapOr([]));
    if ValidatedEach(b.UnwrapOr([])).Ok? { ListsWithin(a.UnwrapOr([]), b.UnwrapOr([])); }
    if NoneAlike(ValidatedSelectors(a).value) { SteadyList(a.UnwrapOr([]), b.UnwrapOr([])); }
  }

  lemma ValidatedEachLength(a: seq<RawSelector>)
    ensures ValidatedEach(a).Ok? ==> |ValidatedEach(a).value| == |a|
  {
    hide ValidatedEach;
    ValidatedEachIff(a);
  }

  lemma ScopesValid(scopeName: string, a: RawScope, b: RawScope)
    requires RearrangedScope(a, b) && ValidateScope(scopeName, a).Ok?
    ensures ValidateScope(scopeName, b).Ok? ==>
              SameScope(ValidateScope(scopeName, a).value, ValidateScope(scopeName, b).value)
    ensures SteadyScope(ValidateScope(scopeName, a).value) ==>
              ValidateScope(scopeName, b).Ok? && SteadyScope(ValidateScope(scopeName, b).value)
  {
    hide ValidatedSelectors, RearrangedList, Within, NoneAlike;
    SelectorsValid(a.allow, b.allow);
    SelectorsValid(a.deny, b.deny);
  }

  lemma ScopeItself(a: RawScope)
    ensures RearrangedScope(a, a)
  {
    hide RearrangedList;
    ListItself(a.allow.UnwrapOr([]));
    ListItself(a.deny.UnwrapOr([]));
  }

  /** An unsteady list of a valid scope has a rearrangement that is refused. */
  lemma UnsteadySelectors(a: Option<seq<RawSelector>>) returns (b: Option<seq<RawSelector>>)
    requires ValidatedSelectors(a).Ok? && !NoneAlike(ValidatedSelectors(a).value)
    ensures RearrangedList(a.UnwrapOr([]), b.UnwrapOr([])) && ValidatedSelectors(b).Err?
  {
    hide ValidatedEach, RearrangedList, NoneAlike;
    var list := UnsteadyList(a.UnwrapOr([]));
    b := Some(list);
  }

  lemma UnsteadyScope(scopeName: string, a: RawScope) returns (b: RawScope)
    requires ValidateScope(scopeName, a).Ok? && !SteadyScope(ValidateScope(scopeName, a).value)
    ensures RearrangedScope(a, b) && ValidateScope(scopeName, b).Err?
  {
    hide ValidatedSelectors, RearrangedList, NoneAlike;
    ListItself(a.allow.UnwrapOr([]));
    ListItself(a.deny.UnwrapOr([]));
    if !NoneAlike(ValidatedSelectors(a.allow).value) {
      var allow := UnsteadySelectors(a.allow);
      b := a.(allow := allow);
    } else {
      var deny := UnsteadySelectors(a.deny);
      b := a.(deny := deny);
    }
  }

  // ---- Audiences ----

  ghost predicate RearrangedEntry(a: RawAudienceEntry, b: RawAudienceEntry) {
    && a.authorityId == b.authorityId && RearrangedScope(a.scope, b.scope)
    && a.principalScope.Some? == b.principalScope.Some?
    && (a.principalScope.Some? ==> RearrangedScope(a.principalScope.value, b.principalScope.value))
  }

  lemma AuthorityAbsent(entries: seq<AudienceEntry>, authority: string)
    ensures authority !in Authorities(entries) <==> forall i :: 0 <= i < |entries| ==> entries[i].authorityId != authority
  {
    forall i | 0 <= i < |entries|
      ensures entries[i].authorityId in Authorities(entries)
    {
      assert entries[i] in entries;
    }
  }

  /** What validation makes of each entry. */
  function Entries(scopeName: string, raws: seq<RawAudienceEntry>, lower: string -> string)
    : (es: seq<Result<AudienceEntry, TrustGrantError>>)
    ensures |es| == |raws| && forall i :: 0 <= i < |raws| ==> es[i] == EntryOf(scopeName, raws[i], lower)
  {
    seq(|raws|, i requires 0 <= i < |raws| => EntryOf(scopeName, raws[i], lower))
  }

  ghost predicate Acceptable(es: seq<Result<AudienceEntry, TrustGrantError>>) {
    && (forall i :: 0 <= i < |es| ==> es[i].Ok?)
    && (forall i, j :: 0 <= i < j < |es| ==> es[i].value.authorityId != es[j].value.authorityId)
  }

  lemma AcceptableStep(es: seq<Result<AudienceEntry, TrustGrantError>>, front: seq<AudienceEntry>)
    requires es != [] && |front| == |es| - 1 && forall i :: 0 <= i < |front| ==> es[i] == Ok(front[i])
    requires Acceptable(es[..|es| - 1])
    ensures Acceptable(es) <==>
            es[|es| - 1].Ok? && es[|es| - 1].value.authorityId !in Authorities(front)
  {
    var n := |es| - 1;
    if es[n].Ok? {
      AuthorityAbsent(front, es[n].value.authorityId);
      assert forall i :: 0 <= i < n ==> es[..n][i] == es[i];
      assert es[n].value.authorityId !in Authorities(front)
        <==> forall i :: 0 <= i < n ==> es[i].value.authorityId != es[n].value.authorityId;
    }
  }

  lemma AcceptableFront(es: seq<Result<AudienceEntry, TrustGrantError>>, n: nat)
    requires n <= |es| && Acceptable(es)
    ensures Acceptable(es[..n])
  {
  }

  lemma {:induction false} ValidatedEntriesAt(scopeName: string, raws: seq<RawAudienceEntry>, lower: string -> string)
    requires ValidatedEntries(scopeName, raws, lower).Ok?
    ensures var v, es := ValidatedEntries(scopeName, raws, lower).value, Entries(scopeName, raws, lower);
            |v| == |raws| && forall i :: 0 <= i < |raws| ==> es[i] == Ok(v[i])
  {
    var n := |raws| - 1;
    if n >= 0 {
      hide ValidatedEntries, EntryOf, Authorities;
      ValidatedEntriesLast(scopeName, raws, lower);
      ValidatedEntriesAt(scopeName, raws[..n], lower);
      EntriesFront(scopeName, raws, lower);
      var v, es := ValidatedEntries(scopeName, raws, lower).value, Entries(scopeName, raws, lower);
      forall i | 0 <= i <= n ensures es[i] == Ok(v[i]) {
        if i < n { assert es[..n][i] == Ok(v[i]); }
      }
    }
  }

  lemma EntriesFront(scopeName: string, raws: seq<RawAudienceEntry>, lower: string -> string)
    requires raws != []
    ensures Entries(scopeName, raws, lower)[..|raws| - 1] == Entries(scopeName, raws[..|raws| - 1], lower)
  {
    hide EntryOf;
  }

  lemma {:induction false} ValidatedEntriesAcceptable(
    scopeName: string, raws: seq<RawAudienceEntry>, lower: string -> string)
    ensures ValidatedEntries(scopeName, raws, lower).Ok? <==> Acceptable(Entries(scopeName, raws, lower))
  {
    if raws == [] {
      assert Entries(scopeName, raws, lower) == [];
      NothingAcceptable();
    } else {
      hide ValidatedEntries, Acceptable, EntryOf, Authorities;
      var n := |raws| - 1;
      ValidatedEntriesAcceptable(scopeName, raws[..n], lower);
      ValidatedEntriesLast(scopeName, raws, lower);
      EntriesFront(scopeName, raws, lower);
      var es, front := Entries(scopeName, raws, lower), ValidatedEntries(scopeName, raws[..n], lower);
      if front.Ok? {
        ValidatedEntriesAt(scopeName, raws[..n], lower);
        AcceptableStep(es, front.value);
      } else if Acceptable(es) {
        AcceptableFront(es, n);
      }
    }
  }

  /** An audience is valid exactly when its entries are and no two name one authority. */
  lemma ValidatedEntriesIff(scopeName: string, raws: seq<RawAudienceEntry>, lower: string -> string)
    ensures var r, es := ValidatedEntries(scopeName, raws, lower), Entries(scopeName, raws, lower);
            && (r.Ok? <==> Acceptable(es))
            && (r.Ok? ==> |r.value| == |raws| && forall i :: 0 <= i < |raws| ==> es[i] == Ok(r.value[i]))
  {
    hide ValidatedEntries, EntryOf, Acceptable;
    ValidatedEntriesAcceptable(scopeName, raws, lower);
    if ValidatedEntries(scopeName, raws, lower).Ok? { ValidatedEntriesAt(scopeName, raws, lower); }
  }

  lemma NothingAcceptable()
    ensures Acceptable([])
  {
  }

  /** An audience is valid in every order of its entries or in none. */
  lemma PermutedAudience(scopeName: string, a: seq<RawAudienceEntry>, b: seq<RawAudienceEntry>, lower: string -> string)
    requires multiset(a) == multiset(b)
    ensures ValidatedEntries(scopeName, a, lower).Ok? <==> ValidatedEntries(scopeName, b, lower).Ok?
  {
    hide ValidatedEntries, EntryOf;
    if ValidatedEntries(scopeName, a, lower).Ok? { PermutedAudienceFrom(scopeName, a, b, lower); }
    if ValidatedEntries(scopeName, b, lower).Ok? { PermutedAudienceFrom(scopeName, b, a, lower); }
  }

  lemma PermutedAudienceFrom(
    scopeName: string, a: seq<RawAudienceEntry>, b: seq<RawAudienceEntry>, lower: string -> string)
    requires multiset(a) == multiset(b) && ValidatedEntries(scopeName, a, lower).Ok?
    ensures ValidatedEntries(scopeName, b, lower).Ok?
  {
    hide ValidatedEntries, EntryOf;
    ValidatedEntriesIff(scopeName, a, lower);
    ValidatedEntriesIff(scopeName, b, lower);
    PermutedMembers(a, b);
    var es, fs := Entries(scopeName, a, lower), Entries(scopeName, b, lower);
    forall i | 0 <= i < |b|
      ensures fs[i].Ok?
    {
      assert b[i] in a;
      var k :| 0 <= k < |a| && a[k] == b[i];
      assert es[k].Ok?;
    }
    forall i, j | 0 <= i < j < |b|
      ensures fs[i].value.authorityId != fs[j].value.authorityId
    {
      var k, l := PermutedPlaces(a, b, i, j);
      assert es[k] == fs[i] && es[l] == fs[j];
    }
  }

  ghost predicate EntriesPermute(a: seq<RawAudienceEntry>, c: seq<RawAudienceEntry>) {
    multiset(a) == multiset(c)
  }

  ghost predicate EntriesPointwise(c: seq<RawAudienceEntry>, b: seq<RawAudienceEntry>) {
    |c| == |b| && forall i :: 0 <= i < |c| ==> RearrangedEntry(c[i], b[i])
  }

  ghost predicate RearrangedAudience(a: seq<RawAudienceEntry>, b: seq<RawAudienceEntry>) {
    exists c: seq<RawAudienceEntry> :: EntriesPermute(a, c) && EntriesPointwise(c, b)
  }

  ghost predicate SteadyEntry(e: AudienceEntry) {
    SteadyScope(e.scope) && (e.principalScope.Some? ==> SteadyScope(e.principalScope.value))
  }

  ghost predicate SteadyAudience(entries: seq<AudienceEntry>) {
    forall i :: 0 <= i < |entries| ==> SteadyEntry(entries[i])
  }

  lemma EntriesValid(scopeName: string, a: RawAudienceEntry, b: RawAudienceEntry, lower: string -> string)
    requires RearrangedEntry(a, b) && EntryOf(scopeName, a, lower).Ok?
    ensures EntryOf(scopeName, b, lower).Ok? ==>
              SameEntry(EntryOf(scopeName, a, lower).value, EntryOf(scopeName, b, lower).value)
    ensures SteadyEntry(EntryOf(scopeName, a, lower).value) ==>
              EntryOf(scopeName, b, lower).Ok? && SteadyEntry(EntryOf(scopeName, b, lower).value)
  {
    hide NewAuthority, ValidateScope, RearrangedScope, SameScope, SteadyScope;
    ScopesValid(scopeName, a.scope, b.scope);
    if a.principalScope.Some? { ScopesValid(scopeName, a.principalScope.value, b.principalScope.value); }
  }

  lemma EntryItself(a: RawAudienceEntry)
    ensures RearrangedEntry(a, a)
  {
    hide RearrangedScope;
    ScopeItself(a.scope);
    if a.principalScope.Some? { ScopeItself(a.principalScope.value); }
  }

  lemma UnsteadyEntry(scopeName: string, a: RawAudienceEntry, lower: string -> string) returns (b: RawAudienceEntry)
    requires EntryOf(scopeName, a, lower).Ok? && !SteadyEntry(EntryOf(scopeName, a, lower).value)
    ensures RearrangedEntry(a, b) && EntryOf(scopeName, b, lower).Err?
  {
    hide NewAuthority, ValidateScope, RearrangedScope, SteadyScope;
    ScopeItself(a.scope);
    if a.principalScope.Some? { ScopeItself(a.principalScope.value); }
    if !SteadyScope(EntryOf(scopeName, a, lower).value.scope) {
      var scope := UnsteadyScope(scopeName, a.scope);
      b := a.(scope := scope);
    } else {
      var scope := UnsteadyScope(scopeName, a.principalScope.value);
      b := a.(principalScope := Some(scope));
    }
  }

  lemma SteadyEntries(scopeName: string, a: seq<RawAudienceEntry>, b: seq<RawAudienceEntry>, lower: string -> string)
    requires RearrangedAudience(a, b) && ValidatedEntries(scopeName, a, lower).Ok?
    requires SteadyAudience(ValidatedEntries(scopeName, a, lower).value)
    ensures ValidatedEntries(scopeName, b, lower).Ok?
    ensures SteadyAudience(ValidatedEntries(scopeName, b, lower).value)
  {
    hide ValidatedEntries, EntryOf, RearrangedEntry, SteadyEntry;
    var c :| EntriesPermute(a, c) && EntriesPointwise(c, b);
    PermutedMembers(a, c);
    ValidatedEntriesIff(scopeName, a, lower);
    ValidatedEntriesIff(scopeName, b, lower);
    var es, fs := Entries(scopeName, a, lower), Entries(scopeName, b, lower);
    forall i | 0 <= i < |b|
      ensures fs[i].Ok? && SteadyEntry(fs[i].value) && EntryOf(scopeName, c[i], lower).Ok?
      ensures fs[i].value.authorityId == EntryOf(scopeName, c[i], lower).value.authorityId
    {
      assert c[i] in a;
      var k :| 0 <= k < |a| && a[k] == c[i];
      assert es[k].Ok? && SteadyEntry(es[k].value);
      EntriesValid(scopeName, c[i], b[i], lower);
    }
    forall i, j | 0 <= i < j < |b|
      ensures fs[i].value.authorityId != fs[j].value.authorityId
    {
      var k, l := PermutedPlaces(a, c, i, j);
      assert es[k] == EntryOf(scopeName, c[i], lower) && es[l] == EntryOf(scopeName, c[j], lower);
    }
  }

  lemma EntriesForth(
    scopeName: string, a: seq<RawAudienceEntry>, c: seq<RawAudienceEntry>, b: seq<RawAudienceEntry>,
    lower: string -> string)
    requires EntriesPermute(a, c) && EntriesPointwise(c, b)
    requires ValidatedEntries(scopeName, a, lower).Ok? && ValidatedEntries(scopeName, b, lower).Ok?
    ensures EntriesWithin(ValidatedEntries(scopeName, a, lower).value, ValidatedEntries(scopeName, b, lower).value)
  {
    hide ValidatedEntries, EntryOf, RearrangedEntry, SameEntry, Acceptable;
    PermutedMembers(a, c);
    ValidatedEntriesIff(scopeName, a, lower);
    ValidatedEntriesIff(scopeName, b, lower);
    var es, fs := Entries(scopeName, a, lower), Entries(scopeName, b, lower);
    var v, w := ValidatedEntries(scopeName, a, lower).value, ValidatedEntries(scopeName, b, lower).value;
    forall e | e in v
      ensures exists f :: f in w && SameEntry(e, f)
    {
      var k :| 0 <= k < |a| && v[k] == e;
      assert es[k] == Ok(e) && a[k] in c;
      var i :| 0 <= i < |c| && c[i] == a[k];
      assert fs[i] == Ok(w[i]);
      EntriesValid(scopeName, c[i], b[i], lower);
      assert w[i] in w && SameEntry(e, w[i]);
    }
  }

  lemma EntriesBack(
    scopeName: string, a: seq<RawAudienceEntry>, c: seq<RawAudienceEntry>, b: seq<RawAudienceEntry>,
    lower: string -> string)
    requires EntriesPermute(a, c) && EntriesPointwise(c, b)
    requires ValidatedEntries(scopeName, a, lower).Ok? && ValidatedEntries(scopeName, b, lower).Ok?
    ensures EntriesWithin(ValidatedEntries(scopeName, b, lower).value, ValidatedEntries(scopeName, a, lower).value)
  {
    hide ValidatedEntries, EntryOf, RearrangedEntry, SameEntry, Acceptable;
    PermutedMembers(a, c);
    ValidatedEntriesIff(scopeName, a, lower);
    ValidatedEntriesIff(scopeName, b, lower);
    var es, fs := Entries(scopeName, a, lower), Entries(scopeName, b, lower);
    var v, w := ValidatedEntries(scopeName, a, lower).value, ValidatedEntries(scopeName, b, lower).value;
    forall f | f in w
      ensures exists e :: e in v && SameEntry(f, e)
    {
      var i :| 0 <= i < |b| && w[i] == f;
      assert fs[i] == Ok(f) && c[i] in a;
      var k :| 0 <= k < |a| && a[k] == c[i];
      assert es[k] == Ok(v[k]);
      EntriesValid(scopeName, c[i], b[i], lower);
      EntrySymmetric(v[k], f);
      assert v[k] in v && SameEntry(f, v[k]);
    }
  }

  lemma AudiencesWithin(scopeName: string, a: seq<RawAudienceEntry>, b: seq<RawAudienceEntry>, lower: string -> string)
    requires RearrangedAudience(a, b)
    requires ValidatedEntries(scopeName, a, lower).Ok? && ValidatedEntries(scopeName, b, lower).Ok?
    ensures SameAudience(ValidatedEntries(scopeName, a, lower).value, ValidatedEntries(scopeName, b, lower).value)
  {
    hide ValidatedEntries, EntriesPermute, EntriesPointwise, EntriesWithin, UniqueAuthorities;
    var c :| EntriesPermute(a, c) && EntriesPointwise(c, b);
    EntriesForth(scopeName, a, c, b, lower);
    EntriesBack(scopeName, a, c, b, lower);
    ValidatedEntriesSound(scopeName, a, lower);
    ValidatedEntriesSound(scopeName, b, lower);
  }

  lemma EntrySymmetric(e: AudienceEntry, f: AudienceEntry)
    ensures SameEntry(e, f) <==> SameEntry(f, e)
  {
    hide Within;
  }

  lemma AudienceLength(a: seq<RawAudienceEntry>, b: seq<RawAudienceEntry>)
    requires RearrangedAudience(a, b)
    ensures |a| == |b|
  {
    hide RearrangedEntry;
    var c :| EntriesPermute(a, c) && EntriesPointwise(c, b);
    PermutedMembers(a, c);
  }

  lemma AudienceItself(a: seq<RawAudienceEntry>)
    ensures RearrangedAudience(a, a)
  {
    hide RearrangedEntry;
    forall i | 0 <= i < |a|
      ensures RearrangedEntry(a[i], a[i])
    {
      EntryItself(a[i]);
    }
    assert EntriesPermute(a, a) && EntriesPointwise(a, a);
  }

  lemma AudiencesValid(
    scopeName: string, a: Option<seq<RawAudienceEntry>>, b: Option<seq<RawAudienceEntry>>, lower: string -> string)
    requires RearrangedAudience(a.UnwrapOr([]), b.UnwrapOr([])) && ValidatedAudience(scopeName, a, lower).Ok?
    ensures ValidatedAudience(scopeName, b, lower).Ok? ==>
              SameAudience(ValidatedAudience(scopeName, a, lower).value, ValidatedAudience(scopeName, b, lower).value)
    ensures SteadyAudience(ValidatedAudience(scopeName, a, lower).value) ==>
              && ValidatedAudience(scopeName, b, lower).Ok?
              && SteadyAudience(ValidatedAudience(scopeName, b, lower).value)
  {
    hide ValidatedEntries, RearrangedAudience, SameAudience, SteadyAudience;
    AudienceLength(a.UnwrapOr([]), b.UnwrapOr([]));
    if ValidatedAudience(scopeName, b, lower).Ok? {
      AudiencesWithin(scopeName, a.UnwrapOr([]), b.UnwrapOr([]), lower);
    }
    if SteadyAudience(ValidatedAudience(scopeName, a, lower).value) {
      SteadyEntries(scopeName, a.UnwrapOr([]), b.UnwrapOr([]), lower);
    }
  }

  lemma UnsteadyAudience(scopeName: string, a: Option<seq<RawAudienceEntry>>, lower: string -> string)
    returns (b: Option<seq<RawAudienceEntry>>)
    requires ValidatedAudience(scopeName, a, lower).Ok?
    requires !SteadyAudience(ValidatedAudience(scopeName, a, lower).value)
    ensures RearrangedAudience(a.UnwrapOr([]), b.UnwrapOr([])) && ValidatedAudience(scopeName, b, lower).Err?
  {
    hide ValidatedEntries, EntryOf, RearrangedEntry, SteadyEntry;
    var raws := a.UnwrapOr([]);
    ValidatedEntriesIff(scopeName, raws, lower);
    var v := ValidatedAudience(scopeName, a, lower).value;
    var i :| 0 <= i < |v| && !SteadyEntry(v[i]);
    assert Entries(scopeName, raws, lower)[i] == Ok(v[i]);
    var x := UnsteadyEntry(scopeName, raws[i], lower);
    var list := raws[i := x];
    forall k | 0 <= k < |raws|
      ensures RearrangedEntry(raws[k], list[k])
    {
      EntryItself(raws[k]);
    }
    assert EntriesPermute(raws, raws) && EntriesPointwise(raws, list);
    ValidatedEntriesIff(scopeName, list, lower);
    assert Entries(scopeName, list, lower)[i].Err?;
    b := Some(list);
  }

  // ---- Operations ----

  ghost predicate RearrangedOperations(a: Option<RawOperationScope>, b: Option<RawOperationScope>) {
    && a.Some? == b.Some?
    && (a.Some? ==>
          && multiset(a.value.allow.UnwrapOr([])) == multiset(b.value.allow.UnwrapOr([]))
          && multiset(a.value.deny.UnwrapOr([])) == multiset(b.value.deny.UnwrapOr([])))
  }

  lemma {:induction false} OperationNamesIff(texts: seq<string>)
    ensures OperationNames(texts).Ok? <==> forall i :: 0 <= i < |texts| ==> OperationOf(texts[i]).Ok?
    ensures OperationNames(texts).Ok? ==>
              && |OperationNames(texts).value| == |texts|
              && forall i :: 0 <= i < |texts| ==> OperationOf(texts[i]) == Ok(OperationNames(texts).value[i])
  {
    hide OperationOf;
    if texts != [] { OperationNamesIff(texts[..|texts| - 1]); }
  }

  lemma PermutedDistinct<T>(a: seq<T>, b: seq<T>)
    requires multiset(a) == multiset(b) && NoDuplicates(a)
    ensures NoDuplicates(b)
  {
    forall i, j | 0 <= i < j < |b|
      ensures b[i] != b[j]
    {
      var k, l := PermutedPlaces(a, b, i, j);
    }
  }

  lemma NamesValid(a: Option<seq<string>>, b: Option<seq<string>>)
    requires multiset(a.UnwrapOr([])) == multiset(b.UnwrapOr([])) && ValidateOperationNames(a).Ok?
    ensures ValidateOperationNames(b).Ok?
    ensures var v, w := ValidateOperationNames(a).value, ValidateOperationNames(b).value;
            (NoDuplicates(v) ==> NoDuplicates(w)) && ToSet(v) == ToSet(w) && (v == [] <==> w == [])
  {
    hide OperationOf, OperationNames;
    var x, y := a.UnwrapOr([]), b.UnwrapOr([]);
    PermutedMembers(x, y);
    OperationNamesIff(x);
    OperationNamesIff(y);
    forall i | 0 <= i < |y|
      ensures OperationOf(y[i]).Ok?
    {
      assert y[i] in x;
    }
    var v, w := OperationNames(x).value, OperationNames(y).value;
    ImagesPermute(x, v, y, w, OperationOf);
    PermutedMembers(v, w);
    if NoDuplicates(v) { PermutedDistinct(v, w); }
  }

  /** Permuted operation lists stay valid and allow and deny the same names. */
  lemma OperationsValid(a: Option<RawOperationScope>, b: Option<RawOperationScope>)
    requires RearrangedOperations(a, b) && ValidateOperations(a).Ok?
    ensures ValidateOperations(b).Ok?
    ensures var v, w := ValidateOperations(a).value, ValidateOperations(b).value;
            && v.Some? == w.Some?
            && (v.Some? ==> ToSet(v.value.allow) == ToSet(w.value.allow) && ToSet(v.value.deny) == ToSet(w.value.deny))
  {
    hide ValidateOperationNames;
    if a.Some? {
      NamesValid(a.value.allow, b.value.allow);
      NamesValid(a.value.deny, b.value.deny);
    }
  }

  // ---- Resource types ----

  ghost predicate RearrangedType(a: RawResourceType, b: RawResourceType) {
    && a.all == b.all && a.capabilities == b.capabilities && a.minting == b.minting
    && RearrangedList(a.allow.UnwrapOr([]), b.allow.UnwrapOr([]))
    && RearrangedList(a.deny.UnwrapOr([]), b.deny.UnwrapOr([]))
    && RearrangedAudience(a.audienceScope.UnwrapOr([]), b.audienceScope.UnwrapOr([]))
    && RearrangedOperations(a.operations, b.operations)
  }

  ghost predicate SteadyType(t: ResourceType) {
    SteadyScope(t.scope) && SteadyAudience(t.audienceScope)
  }

  lemma TypesValid(a: RawResourceType, b: RawResourceType, lower: string -> string)
    requires RearrangedType(a, b) && ValidateResourceType(a, lower).Ok?
    ensures ValidateResourceType(b, lower).Ok? ==>
              SameType(ValidateResourceType(a, lower).value, ValidateResourceType(b, lower).value)
    ensures SteadyType(ValidateResourceType(a, lower).value) ==>
              ValidateResourceType(b, lower).Ok? && SteadyType(ValidateResourceType(b, lower).value)
  {
    hide ValidatedSelectors, ValidatedAudience, ValidateOperations, RearrangedList, RearrangedAudience,
         RearrangedOperations, Within, NoneAlike, SteadyAudience, SameAudience;
    SelectorsValid(a.allow, b.allow);
    SelectorsValid(a.deny, b.deny);
    AudiencesValid(TYPE_AUDIENCE, a.audienceScope, b.audienceScope, lower);
    OperationsValid(a.operations, b.operations);
  }

  lemma TypeItself(a: RawResourceType)
    ensures RearrangedType(a, a)
  {
    hide RearrangedList, RearrangedAudience;
    ListItself(a.allow.UnwrapOr([]));
    ListItself(a.deny.UnwrapOr([]));
    AudienceItself(a.audienceScope.UnwrapOr([]));
  }

  lemma UnsteadyType(a: RawResourceType, lower: string -> string) returns (b: RawResourceType)
    requires ValidateResourceType(a, lower).Ok? && !SteadyType(ValidateResourceType(a, lower).value)
    ensures RearrangedType(a, b) && ValidateResourceType(b, lower).Err?
  {
    hide ValidatedSelectors, ValidatedAudience, ValidateOperations, RearrangedList, RearrangedAudience,
         NoneAlike, SteadyAudience;
    TypeItself(a);
    var v := ValidateResourceType(a, lower).value;
    if !NoneAlike(v.scope.allow) {
      var allow := UnsteadySelectors(a.allow);
      b := a.(allow := allow);
    } else if !NoneAlike(v.scope.deny) {
      var deny := UnsteadySelectors(a.deny);
      b := a.(deny := deny);
    } else {
      var audience := UnsteadyAudience(TYPE_AUDIENCE, a.audienceScope, lower);
      b := a.(audienceScope := audience);
    }
  }

  ghost predicate RearrangedTypes(a: seq<RawTypeEntry>, b: seq<RawTypeEntry>) {
    |a| == |b| && forall i :: 0 <= i < |a| ==> a[i].name == b[i].name && RearrangedType(a[i].type_, b[i].type_)
  }

  ghost predicate SteadyTypes(a: seq<RawTypeEntry>, lower: string -> string) {
    forall i :: 0 <= i < |a| && ValidateResourceType(a[i].type_, lower).Ok? ==>
      SteadyType(ValidateResourceType(a[i].type_, lower).value)
  }

  lemma {:induction false} TypeEntriesIff(a: seq<RawTypeEntry>, lower: string -> string)
    ensures TypeEntries(a, lower).Ok? <==>
            forall i :: 0 <= i < |a| ==>
              && NormalizeToken("resource_type", a[i].name, MAX_RESOURCE_TYPE_NAME_BYTES).Ok?
              && ValidateResourceType(a[i].type_, lower).Ok?
  {
    hide NormalizeToken, ValidateResourceType;
    if a != [] { TypeEntriesIff(a[..|a| - 1], lower); }
  }

  /** Rearranged types have the same names, each with the same lists up to order. */
  lemma {:induction false} TypeEntriesSame(a: seq<RawTypeEntry>, b: seq<RawTypeEntry>, lower: string -> string)
    requires RearrangedTypes(a, b) && TypeEntries(a, lower).Ok? && TypeEntries(b, lower).Ok?
    ensures var v, w := TypeEntries(a, lower).value, TypeEntries(b, lower).value;
            v.Keys == w.Keys && forall t :: t in v ==> SameType(v[t], w[t])
  {
    hide NormalizeToken, ValidateResourceType, RearrangedType, SameType;
    if a != [] {
      var n := |a| - 1;
      TypeEntriesSame(a[..n], b[..n], lower);
      TypesValid(a[n].type_, b[n].type_, lower);
    }
  }

  lemma TypeEntriesSteady(a: seq<RawTypeEntry>, b: seq<RawTypeEntry>, lower: string -> string)
    requires RearrangedTypes(a, b) && TypeEntries(a, lower).Ok? && SteadyTypes(a, lower)
    ensures TypeEntries(b, lower).Ok?
  {
    hide TypeEntries, NormalizeToken, ValidateResourceType, RearrangedType, SteadyType;
    TypeEntriesIff(a, lower);
    TypeEntriesIff(b, lower);
    forall i | 0 <= i < |b|
      ensures ValidateResourceType(b[i].type_, lower).Ok?
    {
      TypesValid(a[i].type_, b[i].type_, lower);
    }
  }

  lemma TypesItself(a: seq<RawTypeEntry>)
    ensures RearrangedTypes(a, a)
  {
    hide RearrangedType;
    forall i | 0 <= i < |a|
      ensures RearrangedType(a[i].type_, a[i].type_)
    {
      TypeItself(a[i].type_);
    }
  }

  lemma UnsteadyTypes(a: seq<RawTypeEntry>, lower: string -> string) returns (b: seq<RawTypeEntry>)
    requires TypeEntries(a, lower).Ok? && !SteadyTypes(a, lower)
    ensures RearrangedTypes(a, b) && TypeEntries(b, lower).Err?
  {
    hide TypeEntries, NormalizeToken, ValidateResourceType, RearrangedType, SteadyType;
    var i :| 0 <= i < |a| && ValidateResourceType(a[i].type_, lower).Ok?
             && !SteadyType(ValidateResourceType(a[i].type_, lower).value);
    var x := UnsteadyType(a[i].type_, lower);
    b := a[i := a[i].(type_ := x)];
    TypesItself(a);
    TypeEntriesIff(b, lower);
    assert ValidateResourceType(b[i].type_, lower).Err?;
  }

  // ---- Documents ----

  /** The documents differ only in the order of audience entries, selectors, values, expressions and operations. */
  ghost predicate RearrangedLists(a: RawLists, b: RawLists) {
    && RearrangedScope(a.targetScope, b.targetScope)
    && RearrangedAudience(a.defaultAudienceScope.UnwrapOr([]), b.defaultAudienceScope.UnwrapOr([]))
    && RearrangedTypes(a.types, b.types)
  }

  /** No list of selectors in the document holds two that are alike. */
  ghost predicate SteadyLists(a: RawLists, lower: string -> string)
    requires ValidateLists(a, lower).Ok?
  {
    && SteadyScope(ValidateLists(a, lower).value.targetScope)
    && SteadyAudience(ValidateLists(a, lower).value.defaultAudienceScope)
    && SteadyTypes(a.types, lower)
  }

  lemma SteadyListsValid(a: RawLists, b: RawLists, lower: string -> string)
    requires RearrangedLists(a, b) && ValidateLists(a, lower).Ok? && SteadyLists(a, lower)
    ensures ValidateLists(b, lower).Ok?
  {
    hide ValidateScope, ValidatedAudience, TypeEntries, RearrangedScope, RearrangedAudience, SteadyScope,
         SteadyAudience, SteadyTypes;
    ScopesValid(TARGET, a.targetScope, b.targetScope);
    AudiencesValid(DEFAULT_AUDIENCE, a.defaultAudienceScope, b.defaultAudienceScope, lower);
    TypeEntriesSteady(a.types, b.types, lower);
  }

  lemma UnsteadyLists(a: RawLists, lower: string -> string) returns (b: RawLists)
    requires ValidateLists(a, lower).Ok? && !SteadyLists(a, lower)
    ensures RearrangedLists(a, b) && ValidateLists(b, lower).Err?
  {
    hide ValidateScope, ValidatedAudience, TypeEntries, RearrangedScope, RearrangedAudience, RearrangedTypes,
         SteadyScope, SteadyAudience, SteadyTypes;
    var v := ValidateLists(a, lower).value;
    ScopeItself(a.targetScope);
    AudienceItself(a.defaultAudienceScope.UnwrapOr([]));
    TypesItself(a.types);
    if !SteadyScope(v.targetScope) {
      var target := UnsteadyScope(TARGET, a.targetScope);
      b := a.(targetScope := target);
    } else if !SteadyAudience(v.defaultAudienceScope) {
      var audience := UnsteadyAudience(DEFAULT_AUDIENCE, a.defaultAudienceScope, lower);
      b := a.(defaultAudienceScope := audience);
    } else {
      var types := UnsteadyTypes(a.types, lower);
      b := a.(types := types);
    }
  }

  /** Exactly when no selector list of a valid document holds two alike does every rearrangement stay valid. */
  lemma RearrangedDocumentsValid(a: RawLists, lower: string -> string)
    requires ValidateLists(a, lower).Ok?
    ensures (forall b :: RearrangedLists(a, b) ==> ValidateLists(b, lower).Ok?) <==> SteadyLists(a, lower)
  {
    hide ValidateLists, RearrangedLists, SteadyLists;
    if SteadyLists(a, lower) {
      forall b | RearrangedLists(a, b)
        ensures ValidateLists(b, lower).Ok?
      {
        SteadyListsValid(a, b, lower);
      }
    } else {
      var b := UnsteadyLists(a, lower);
    }
  }

  lemma RearrangedGrants(g: VerifiedTrustGrant, a: RawLists, b: RawLists, lower: string -> string)
    requires RearrangedLists(a, b) && ValidateLists(a, lower).Ok? && ValidateLists(b, lower).Ok?
    ensures Reordered(WithLists(g, ValidateLists(a, lower).value), WithLists(g, ValidateLists(b, lower).value))
  {
    hide ValidateScope, ValidatedAudience, TypeEntries, RearrangedScope, RearrangedAudience, RearrangedTypes,
         SameScope, SameAudience, SameType;
    ScopesValid(TARGET, a.targetScope, b.targetScope);
    AudiencesValid(DEFAULT_AUDIENCE, a.defaultAudienceScope, b.defaultAudienceScope, lower);
    TypeEntriesSame(a.types, b.types, lower);
  }

  /** Rearranging a document whose lists are steady keeps it valid, and rearranging never changes a decision. */
  lemma RearrangingKeepsDecision(
    g: VerifiedTrustGrant, a: RawLists, b: RawLists, lower: string -> string, r: EvaluationRequest)
    requires ContextsBuilt(r) && ValidateLists(a, lower).Ok? && RearrangedLists(a, b)
    ensures SteadyLists(a, lower) ==> ValidateLists(b, lower).Ok?
    ensures ValidateLists(b, lower).Ok? ==>
              EvaluateInner(WithLists(g, ValidateLists(a, lower).value), r)
              == EvaluateInner(WithLists(g, ValidateLists(b, lower).value), r)
  {
    hide ValidateLists, WithLists, EvaluateInner, ContextsBuilt, RearrangedLists, SteadyLists, Reordered;
    if SteadyLists(a, lower) { SteadyListsValid(a, b, lower); }
    if ValidateLists(b, lower).Ok? {
      RearrangedGrants(g, a, b, lower);
      ReorderingKeepsDecision(
        WithLists(g, ValidateLists(a, lower).value), WithLists(g, ValidateLists(b, lower).value), r);
    }
  }
}

/** Ownership transition documents, their JSON trees, and those trees with members in canonical order. */
module TransitionDocuments {
  import opened Wrappers
  import opened Text
  import opened Ordering
  import opened Utf16Key
  import opened JsonTrees
  import opened CanonicalForms

  datatype Selector = Selector(
    kind: string, all: bool, values: Option<seq<string>>, expressions: Option<seq<string>>)

  datatype ResourceType = ResourceType(all: bool, allow: Option<seq<Selector>>, deny: Option<seq<Selector>>)

  datatype TypeEntry = TypeEntry(name: string, type_: ResourceType)

  /** Times are carried as the text the date library renders. */
  datatype TimeWindow = TimeWindow(notBefore: string, notAfter: string)

  datatype GlobalConstraints = GlobalConstraints(time: Option<TimeWindow>)

  datatype Signature = Signature(keyId: string, signature: string)

  datatype Acceptance = Acceptance(acceptedAt: string, keyId: string, signature: string)

  type u8 = n: int | 0 <= n < 256

  datatype TransitionDocument = TransitionDocument(
    transitionId: string,
    version: u8,
    transitionSeriesId: string,
    revision: u64,
    supersedesTransitionId: Option<string>,
    originAuthority: string,
    fromAuthority: string,
    toAuthority: string,
    types: seq<TypeEntry>,
    globalConstraints: Option<GlobalConstraints>,
    effectiveAt: string,
    predecessorSignature: Signature,
    successorAcceptance: Acceptance)

  predicate PlainTime(s: string) {
    forall i :: 0 <= i < |s| ==> EscapeJsonChar(s[i]) == [s[i]]
  }

  ghost predicate TypesAscending(entries: seq<TypeEntry>) {
    forall i :: 0 <= i < |entries| - 1 ==> KeyBefore(entries[i].name, entries[i + 1].name)
  }

  /** What the types of the fields guarantee: rendered times need no escape, and the map of resource types
      is kept in UTF-16 key order. */
  ghost predicate WellTyped(d: TransitionDocument) {
    && TypesAscending(d.types)
    && PlainTime(d.effectiveAt) && PlainTime(d.successorAcceptance.acceptedAt)
    && (d.globalConstraints.Some? && d.globalConstraints.value.time.Some? ==>
          PlainTime(d.globalConstraints.value.time.value.notBefore)
          && PlainTime(d.globalConstraints.value.time.value.notAfter))
  }

  // ---- Trees, members in declaration order ----

  function Texts(ss: seq<string>): (r: seq<Json>)
    ensures |r| == |ss| && forall i :: 0 <= i < |ss| ==> r[i] == Str(ss[i])
  {
    seq(|ss|, i requires 0 <= i < |ss| => Str(ss[i]))
  }

  function OptionalText(o: Option<string>): Json {
    if o.None? then Null else Str(o.value)
  }

  function OptionalTexts(o: Option<seq<string>>): Json {
    if o.None? then Null else Array(Texts(o.value))
  }

  function SelectorJson(s: Selector): Json {
    Object([Member("kind", Str(s.kind)), Member("all", Bool(s.all)), Member("values", OptionalTexts(s.values)),
            Member("expressions", OptionalTexts(s.expressions))])
  }

  function SelectorsJson(o: Option<seq<Selector>>): Json {
    if o.None? then Null
    else Array(seq(|o.value|, i requires 0 <= i < |o.value| => SelectorJson(o.value[i])))
  }

  function ResourceTypeJson(t: ResourceType): Json {
    Object([Member("all", Bool(t.all)), Member("allow", SelectorsJson(t.allow)), Member("deny", SelectorsJson(t.deny))])
  }

  function TypesJson(entries: seq<TypeEntry>): Json {
    Object(seq(|entries|, i requires 0 <= i < |entries| => Member(entries[i].name, ResourceTypeJson(entries[i].type_))))
  }

  function ScopeJson(entries: seq<TypeEntry>): Json {
    Object([Member("types", TypesJson(entries))])
  }

  function WindowJson(o: Option<TimeWindow>): Json {
    if o.None? then Null
    else Object([Member("not_before", Str(o.value.notBefore)), Member("not_after", Str(o.value.notAfter))])
  }

  function ConstraintsJson(o: Option<GlobalConstraints>): Json {
    if o.None? then Null else Object([Member("time", WindowJson(o.value.time))])
  }

  /** The document without both signature sections. */
  function ProposalJson(d: TransitionDocument): Json {
    Object([
      Member("transition_id", Str(d.transitionId)),
      Member("version", Number(d.version)),
      Member("transition_series_id", Str(d.transitionSeriesId)),
      Member("revision", Number(d.revision)),
      Member("supersedes_transition_id", OptionalText(d.supersedesTransitionId)),
      Member("origin_authority", Str(d.originAuthority)),
      Member("from_authority", Str(d.fromAuthority)),
      Member("to_authority", Str(d.toAuthority)),
      Member("canonical_resource_scope", ScopeJson(d.types)),
      Member("global_constraints", ConstraintsJson(d.globalConstraints)),
      Member("effective_at", Str(d.effectiveAt))])
  }

  function SignatureTree(s: Signature): Json {
    Object([Member("key_id", Str(s.keyId)), Member("signature", Str(s.signature))])
  }

  /** The acceptance without the successor's signature. */
  function AcceptanceSection(a: Acceptance): Json {
    Object([Member("accepted_at", Str(a.acceptedAt)), Member("key_id", Str(a.keyId))])
  }

  /** The document without the successor's signature. */
  function AcceptanceJson(d: TransitionDocument): Json {
    Object([
      Member("transition_id", Str(d.transitionId)),
      Member("version", Number(d.version)),
      Member("transition_series_id", Str(d.transitionSeriesId)),
      Member("revision", Number(d.revision)),
      Member("supersedes_transition_id", OptionalText(d.supersedesTransitionId)),
      Member("origin_authority", Str(d.originAuthority)),
      Member("from_authority", Str(d.fromAuthority)),
      Member("to_authority", Str(d.toAuthority)),
      Member("canonical_resource_scope", ScopeJson(d.types)),
      Member("global_constraints", ConstraintsJson(d.globalConstraints)),
      Member("effective_at", Str(d.effectiveAt)),
      Member("predecessor_signature", SignatureTree(d.predecessorSignature)),
      Member("successor_acceptance", AcceptanceSection(d.successorAcceptance))])
  }

  // ---- Trees, members in canonical order ----

  function SelectorTree(s: Selector): Json {
    Object([Member("all", Bool(s.all)), Member("expressions", OptionalTexts(s.expressions)),
            Member("kind", Str(s.kind)), Member("values", OptionalTexts(s.values))])
  }

  function SelectorTrees(ss: seq<Selector>): (r: seq<Json>)
    ensures |r| == |ss| && forall i :: 0 <= i < |ss| ==> r[i] == SelectorTree(ss[i])
  {
    seq(|ss|, i requires 0 <= i < |ss| => SelectorTree(ss[i]))
  }

  function SelectorsTree(o: Option<seq<Selector>>): Json {
    if o.None? then Null else Array(SelectorTrees(o.value))
  }

  function ResourceTypeTree(t: ResourceType): Json {
    Object([Member("all", Bool(t.all)), Member("allow", SelectorsTree(t.allow)), Member("deny", SelectorsTree(t.deny))])
  }

  function TypeMembers(entries: seq<TypeEntry>): (r: seq<Member>)
    ensures |r| == |entries|
    ensures forall i :: 0 <= i < |r| ==> r[i] == Member(entries[i].name, ResourceTypeTree(entries[i].type_))
  {
    seq(|entries|, i requires 0 <= i < |entries| => Member(entries[i].name, ResourceTypeTree(entries[i].type_)))
  }

  function ScopeTree(entries: seq<TypeEntry>): Json {
    Object([Member("types", Object(TypeMembers(entries)))])
  }

  function WindowTree(o: Option<TimeWindow>): Json {
    if o.None? then Null
    else Object([Member("not_after", Str(o.value.notAfter)), Member("not_before", Str(o.value.notBefore))])
  }

  function ConstraintsTree(o: Option<GlobalConstraints>): Json {
    if o.None? then Null else Object([Member("time", WindowTree(o.value.time))])
  }

  /** The fields both payloads start and end with, in canonical order. */
  function LeadingMembers(d: TransitionDocument): (ms: seq<Member>)
    ensures |ms| == 5
  {
    [Member("canonical_resource_scope", ScopeTree(d.types)),
     Member("effective_at", Str(d.effectiveAt)),
     Member("from_authority", Str(d.fromAuthority)),
     Member("global_constraints", ConstraintsTree(d.globalConstraints)),
     Member("origin_authority", Str(d.originAuthority))]
  }

  function TrailingMembers(d: TransitionDocument): (ms: seq<Member>)
    ensures |ms| == 5
  {
    [Member("supersedes_transition_id", OptionalText(d.supersedesTransitionId)),
     Member("to_authority", Str(d.toAuthority)),
     Member("transition_id", Str(d.transitionId)),
     Member("transition_series_id", Str(d.transitionSeriesId)),
     Member("version", Number(d.version))]
  }

  function ProposalMembers(d: TransitionDocument): seq<Member> {
    LeadingMembers(d) + [Member("revision", Number(d.revision))] + TrailingMembers(d)
  }

  function AcceptanceMembers(d: TransitionDocument): seq<Member> {
    LeadingMembers(d)
    + [Member("predecessor_signature", SignatureTree(d.predecessorSignature)),
       Member("revision", Number(d.revision)),
       Member("successor_acceptance", AcceptanceSection(d.successorAcceptance))]
    + TrailingMembers(d)
  }

  lemma ProposalParts(d: TransitionDocument)
    ensures var ms := ProposalMembers(d);
            |ms| == 11 && ms[..5] == LeadingMembers(d) && ms[6..] == TrailingMembers(d)
            && ms[5].value == Number(d.revision)
  {
    hide LeadingMembers, TrailingMembers;
  }

  lemma AcceptanceParts(d: TransitionDocument)
    ensures var ms := AcceptanceMembers(d);
            |ms| == 13 && ms[..5] == LeadingMembers(d) && ms[8..] == TrailingMembers(d)
            && ms[5].value == SignatureTree(d.predecessorSignature) && ms[6].value == Number(d.revision)
            && ms[7].value == AcceptanceSection(d.successorAcceptance)
  {
    hide LeadingMembers, TrailingMembers, SignatureTree, AcceptanceSection;
  }

  // ---- Canonical order of field names ----

  /** Names that agree up to i and then hold characters c < d order by those. */
  lemma NameBeforeAt(a: string, b: string, i: nat)
    requires i < |a| && i < |b| && a[..i] == b[..i] && a[i] as int < b[i] as int < 0xD800
    ensures KeyBefore(a, b)
  {
    var p, x, y := a[..i], a[i + 1..], b[i + 1..];
    Utf16Split(a, i);
    Utf16Split(b, i);
    CompareCommonPrefix(Utf16(p), Utf16Char(a[i]) + Utf16(x), Utf16Char(b[i]) + Utf16(y));
    CompareDecided(Utf16Char(a[i]), Utf16(x), Utf16Char(b[i]), Utf16(y), 0);
  }

  lemma {:induction false} Utf16Split(s: string, i: nat)
    requires i < |s|
    ensures Utf16(s) == Utf16(s[..i]) + (Utf16Char(s[i]) + Utf16(s[i + 1..]))
  {
    if i > 0 {
      Utf16Split(s[1..], i - 1);
      assert s[..i] == [s[0]] + s[1..][..i - 1];
      assert s[1..][i..] == s[i + 1..];
    }
  }

  lemma PrefixBefore(a: string, b: string)
    requires a < b
    ensures KeyBefore(a, b)
  {
    Utf16Prefix(a, b);
    CompareCommonPrefix(Utf16(a), [], Utf16(b[|a|..]));
    assert Utf16(a) + [] == Utf16(a);
  }

  lemma {:induction false} Utf16Prefix(a: string, b: string)
    requires a <= b
    ensures Utf16(b) == Utf16(a) + Utf16(b[|a|..])
  {
    if a != [] {
      Utf16Prefix(a[1..], b[1..]);
      assert b[1..][|a| - 1..] == b[|a|..];
    }
  }

  lemma SelectorNames(s: Selector)
    ensures SelectorTree(s).Object? && NamesAscending(SelectorTree(s).members)
  {
    hide KeyBefore;
    NameBeforeAt("all", "expressions", 0);
    NameBeforeAt("expressions", "kind", 0);
    NameBeforeAt("kind", "values", 0);
  }

  lemma ResourceTypeNames(t: ResourceType)
    ensures ResourceTypeTree(t).Object? && NamesAscending(ResourceTypeTree(t).members)
  {
    hide KeyBefore;
    PrefixBefore("all", "allow");
    NameBeforeAt("allow", "deny", 0);
  }

  lemma WindowNames()
    ensures KeyBefore("not_after", "not_before")
  {
    assert "not_after"[..4] == "not_" == "not_before"[..4];
    NameBeforeAt("not_after", "not_before", 4);
  }

  lemma SectionNames()
    ensures KeyBefore("key_id", "signature") && KeyBefore("accepted_at", "key_id")
  {
    NameBeforeAt("key_id", "signature", 0);
    NameBeforeAt("accepted_at", "key_id", 0);
  }

  lemma EarlyNames()
    ensures KeyBefore("canonical_resource_scope", "effective_at")
    ensures KeyBefore("effective_at", "from_authority")
    ensures KeyBefore("from_authority", "global_constraints")
    ensures KeyBefore("global_constraints", "origin_authority")
    ensures KeyBefore("origin_authority", "revision")
    ensures KeyBefore("origin_authority", "predecessor_signature")
    ensures KeyBefore("predecessor_signature", "revision")
  {
    hide KeyBefore;
    NameBeforeAt("canonical_resource_scope", "effective_at", 0);
    NameBeforeAt("effective_at", "from_authority", 0);
    NameBeforeAt("from_authority", "global_constraints", 0);
    NameBeforeAt("global_constraints", "origin_authority", 0);
    NameBeforeAt("origin_authority", "revision", 0);
    NameBeforeAt("origin_authority", "predecessor_signature", 0);
    NameBeforeAt("predecessor_signature", "revision", 0);
  }

  lemma LateNames()
    ensures KeyBefore("revision", "supersedes_transition_id")
    ensures KeyBefore("revision", "successor_acceptance")
    ensures KeyBefore("successor_acceptance", "supersedes_transition_id")
    ensures KeyBefore("supersedes_transition_id", "to_authority")
    ensures KeyBefore("to_authority", "transition_id")
    ensures KeyBefore("transition_id", "transition_series_id")
    ensures KeyBefore("transition_series_id", "version")
  {
    hide KeyBefore;
    NameBeforeAt("revision", "supersedes_transition_id", 0);
    NameBeforeAt("revision", "successor_acceptance", 0);
    assert "successor_acceptance"[..2] == "su" == "supersedes_transition_id"[..2];
    NameBeforeAt("successor_acceptance", "supersedes_transition_id", 2);
    NameBeforeAt("supersedes_transition_id", "to_authority", 0);
    assert "to_authority"[..1] == "t" == "transition_id"[..1];
    NameBeforeAt("to_authority", "transition_id", 1);
    assert "transition_id"[..11] == "transition_" == "transition_series_id"[..11];
    NameBeforeAt("transition_id", "transition_series_id", 11);
    NameBeforeAt("transition_series_id", "version", 0);
  }

  // ---- Normalizing gives the canonical order ----

  /** An object whose members, moved to these positions and normalized, ascend, normalizes to that arrangement. */
  lemma NormalizesTo(ms: seq<Member>, target: seq<Member>, pos: seq<nat>, inv: seq<nat>)
    requires |ms| == |target| == |pos| && Arrangement(pos, inv)
    requires forall i :: 0 <= i < |ms| ==> target[pos[i]] == Member(ms[i].name, Normalize(ms[i].value))
    requires NamesAscending(target)
    ensures Normalize(Object(ms)) == Object(target)
  {
    hide Normalize, KeyBefore;
    var nm := NormalizeMembers(ms);
    forall i | 0 <= i < |ms|
      ensures |nm| == |ms| && nm[i] == target[pos[i]]
    {
      NormalizedMember(ms, i);
    }
    if ms == [] { assert nm == []; }
    var ks, kt := KeyedMembers(nm), KeyedMembers(target);
    forall i, j | 0 <= i < j < |kt|
      ensures Before(kt[i].key, kt[j].key)
    {
      AdjacentAscends(target, i, j);
      assert KeyBefore(target[i].name, target[j].name);
      KeyBeforeIsBefore(target[i].name, target[j].name);
    }
    forall i, j | 0 <= i < j < |ks|
      ensures ks[i].key != ks[j].key
    {
      var p, q := pos[i], pos[j];
      assert ks[i] == kt[p] && ks[j] == kt[q] && p != q;
      CompareEqual(kt[p].key, kt[q].key);
      CompareEqual(kt[q].key, kt[p].key);
    }
    forall x
      ensures x in ks <==> x in kt
    {
      if x in ks {
        var i :| 0 <= i < |ks| && ks[i] == x;
        assert kt[pos[i]] == x;
      }
      if x in kt {
        var i :| 0 <= i < |kt| && kt[i] == x;
        assert ks[inv[i]] == x;
      }
    }
    SortIs(ks, kt);
    assert StripMembers(kt) == target;
    NormalizeObject(ms);
  }

  lemma NormalizeTexts(o: Option<seq<string>>)
    ensures Normalize(OptionalTexts(o)) == OptionalTexts(o)
  {
    if o.Some? {
      var items := Texts(o.value);
      forall i | 0 <= i < |items|
        ensures |NormalizeItems(items)| == |items| && NormalizeItems(items)[i] == items[i]
      {
        NormalizedItem(items, i);
      }
      if items == [] { assert NormalizeItems(items) == []; }
      assert NormalizeItems(items) == items;
    }
  }

  lemma NormalizeSelector(s: Selector)
    ensures Normalize(SelectorJson(s)) == SelectorTree(s)
  {
    SelectorNames(s);
    NormalizeTexts(s.values);
    NormalizeTexts(s.expressions);
    assert Normalize(Str(s.kind)) == Str(s.kind) && Normalize(Bool(s.all)) == Bool(s.all);
    hide Normalize, OptionalTexts, NamesAscending;
    NormalizesTo(SelectorJson(s).members, SelectorTree(s).members, [2, 0, 3, 1], [1, 3, 0, 2]);
  }

  lemma NormalizeSelectors(o: Option<seq<Selector>>)
    ensures Normalize(SelectorsJson(o)) == SelectorsTree(o)
  {
    hide SelectorJson, SelectorTree;
    if o.Some? {
      var items := SelectorsJson(o).items;
      var n := NormalizeItems(items);
      forall i | 0 <= i < |items|
        ensures |n| == |items| && n[i] == SelectorTree(o.value[i])
      {
        NormalizedItem(items, i);
        NormalizeSelector(o.value[i]);
      }
      if items == [] { assert n == []; }
      assert n == SelectorTrees(o.value);
    }
  }

  lemma NormalizeResourceType(t: ResourceType)
    ensures Normalize(ResourceTypeJson(t)) == ResourceTypeTree(t)
  {
    ResourceTypeNames(t);
    NormalizeSelectors(t.allow);
    NormalizeSelectors(t.deny);
    assert Normalize(Bool(t.all)) == Bool(t.all);
    hide Normalize, SelectorsJson, SelectorsTree, NamesAscending;
    NormalizesTo(ResourceTypeJson(t).members, ResourceTypeTree(t).members, [0, 1, 2], [0, 1, 2]);
  }

  lemma NormalizeTypes(entries: seq<TypeEntry>)
    requires TypesAscending(entries)
    ensures Normalize(TypesJson(entries)) == Object(TypeMembers(entries))
  {
    hide Normalize, ResourceTypeJson, ResourceTypeTree, KeyBefore;
    var same := seq(|entries|, i requires 0 <= i < |entries| => i as nat);
    forall i | 0 <= i < |entries|
      ensures TypeMembers(entries)[same[i]]
              == Member(TypesJson(entries).members[i].name, Normalize(TypesJson(entries).members[i].value))
    {
      NormalizeResourceType(entries[i].type_);
    }
    NormalizesTo(TypesJson(entries).members, TypeMembers(entries), same, same);
  }

  lemma NormalizeSingle(name: string, value: Json, normal: Json)
    requires Normalize(value) == normal
    ensures Normalize(Object([Member(name, value)])) == Object([Member(name, normal)])
  {
    hide Normalize;
    NormalizesTo([Member(name, value)], [Member(name, normal)], [0], [0]);
  }

  lemma NormalizeScope(entries: seq<TypeEntry>)
    requires TypesAscending(entries)
    ensures Normalize(ScopeJson(entries)) == ScopeTree(entries)
  {
    hide TypesJson, Normalize;
    NormalizeTypes(entries);
    NormalizeSingle("types", TypesJson(entries), Object(TypeMembers(entries)));
  }

  lemma NormalizeLeaf(j: Json)
    requires !j.Array? && !j.Object?
    ensures Normalize(j) == j
  {
  }

  lemma NormalizePair(a: string, x: string, b: string, y: string)
    requires KeyBefore(a, b)
    ensures Normalize(Object([Member(a, Str(x)), Member(b, Str(y))])) == Object([Member(a, Str(x)), Member(b, Str(y))])
    ensures Normalize(Object([Member(b, Str(y)), Member(a, Str(x))])) == Object([Member(a, Str(x)), Member(b, Str(y))])
  {
    hide Normalize, KeyBefore;
    NormalizeLeaf(Str(x));
    NormalizeLeaf(Str(y));
    var target := [Member(a, Str(x)), Member(b, Str(y))];
    NormalizesTo(target, target, [0, 1], [0, 1]);
    NormalizesTo([Member(b, Str(y)), Member(a, Str(x))], target, [1, 0], [1, 0]);
  }

  lemma NormalizeConstraints(o: Option<GlobalConstraints>)
    ensures Normalize(ConstraintsJson(o)) == ConstraintsTree(o)
  {
    hide Normalize, KeyBefore;
    NormalizeLeaf(Null);
    if o.Some? {
      if o.value.time.Some? {
        WindowNames();
        NormalizePair("not_after", o.value.time.value.notAfter, "not_before", o.value.time.value.notBefore);
      }
      NormalizeSingle("time", WindowJson(o.value.time), WindowTree(o.value.time));
    }
  }

  lemma NormalizeSections(d: TransitionDocument)
    ensures Normalize(SignatureTree(d.predecessorSignature)) == SignatureTree(d.predecessorSignature)
    ensures Normalize(AcceptanceSection(d.successorAcceptance)) == AcceptanceSection(d.successorAcceptance)
  {
    hide Normalize, KeyBefore;
    SectionNames();
    NormalizePair("key_id", d.predecessorSignature.keyId, "signature", d.predecessorSignature.signature);
    NormalizePair("accepted_at", d.successorAcceptance.acceptedAt, "key_id", d.successorAcceptance.keyId);
  }

  /** Normalizing the values of the proposal: the fields both payloads share. */
  lemma NormalizeShared(d: TransitionDocument)
    requires TypesAscending(d.types)
    ensures Normalize(ScopeJson(d.types)) == ScopeTree(d.types)
    ensures Normalize(ConstraintsJson(d.globalConstraints)) == ConstraintsTree(d.globalConstraints)
    ensures Normalize(OptionalText(d.supersedesTransitionId)) == OptionalText(d.supersedesTransitionId)
    ensures Normalize(Number(d.revision)) == Number(d.revision) && Normalize(Number(d.version)) == Number(d.version)
    ensures forall s: string :: Normalize(Str(s)) == Str(s)
  {
    NormalizeScope(d.types);
    NormalizeConstraints(d.globalConstraints);
  }

  lemma ProposalNames(d: TransitionDocument)
    ensures NamesAscending(ProposalMembers(d))
  {
    hide KeyBefore, ScopeTree, ConstraintsTree, OptionalText;
    EarlyNames();
    LateNames();
  }

  const PROPOSAL_POSITIONS: seq<nat> := [8, 10, 9, 5, 6, 4, 2, 7, 0, 3, 1]
  const PROPOSAL_SOURCES: seq<nat> := [8, 10, 6, 9, 5, 3, 4, 7, 0, 2, 1]

  lemma ProposalMoved(d: TransitionDocument, i: nat)
    requires TypesAscending(d.types) && i < 11
    ensures |ProposalJson(d).members| == |ProposalMembers(d)| == 11
    ensures var m := ProposalJson(d).members[i];
            ProposalMembers(d)[PROPOSAL_POSITIONS[i]] == Member(m.name, Normalize(m.value))
  {
    hide Normalize, ScopeJson, ScopeTree, ConstraintsJson, ConstraintsTree, OptionalText;
    NormalizeShared(d);
  }

  /** The hand-ordered proposal members are the sorted, normalized document. */
  lemma NormalizeProposal(d: TransitionDocument)
    requires TypesAscending(d.types)
    ensures Normalize(ProposalJson(d)) == Object(ProposalMembers(d))
  {
    ProposalMoved(d, 0);
    ProposalNames(d);
    assert Arrangement(PROPOSAL_POSITIONS, PROPOSAL_SOURCES);
    var ms := ProposalJson(d).members;
    assert ProposalJson(d) == Object(ms);
    hide Normalize, ProposalJson, ProposalMembers, NamesAscending, Arrangement;
    forall i | 0 <= i < 11
      ensures ProposalMembers(d)[PROPOSAL_POSITIONS[i]] == Member(ms[i].name, Normalize(ms[i].value))
    {
      ProposalMoved(d, i);
    }
    NormalizesTo(ms, ProposalMembers(d), PROPOSAL_POSITIONS, PROPOSAL_SOURCES);
  }

  lemma AcceptanceNames(d: TransitionDocument)
    ensures NamesAscending(AcceptanceMembers(d))
  {
    hide KeyBefore, ScopeTree, ConstraintsTree, OptionalText, SignatureTree, AcceptanceSection;
    EarlyNames();
    LateNames();
  }

  const ACCEPTANCE_POSITIONS: seq<nat> := [10, 12, 11, 6, 8, 4, 2, 9, 0, 3, 1, 5, 7]
  const ACCEPTANCE_SOURCES: seq<nat> := [8, 10, 6, 9, 5, 11, 3, 12, 4, 7, 0, 2, 1]

  lemma AcceptanceMoved(d: TransitionDocument, i: nat)
    requires TypesAscending(d.types) && i < 13
    ensures |AcceptanceJson(d).members| == |AcceptanceMembers(d)| == 13
    ensures var m := AcceptanceJson(d).members[i];
            AcceptanceMembers(d)[ACCEPTANCE_POSITIONS[i]] == Member(m.name, Normalize(m.value))
  {
    hide Normalize, ScopeJson, ScopeTree, ConstraintsJson, ConstraintsTree, OptionalText, SignatureTree,
         AcceptanceSection;
    NormalizeShared(d);
    NormalizeSections(d);
  }

  /** The hand-ordered acceptance members are the sorted, normalized document. */
  lemma NormalizeAcceptance(d: TransitionDocument)
    requires TypesAscending(d.types)
    ensures Normalize(AcceptanceJson(d)) == Object(AcceptanceMembers(d))
  {
    AcceptanceMoved(d, 0);
    AcceptanceNames(d);
    assert Arrangement(ACCEPTANCE_POSITIONS, ACCEPTANCE_SOURCES);
    var ms := AcceptanceJson(d).members;
    assert AcceptanceJson(d) == Object(ms);
    hide Normalize, AcceptanceJson, AcceptanceMembers, NamesAscending, Arrangement;
    forall i | 0 <= i < 13
      ensures AcceptanceMembers(d)[ACCEPTANCE_POSITIONS[i]] == Member(ms[i].name, Normalize(ms[i].value))
    {
      AcceptanceMoved(d, i);
    }
    NormalizesTo(ms, AcceptanceMembers(d), ACCEPTANCE_POSITIONS, ACCEPTANCE_SOURCES);
  }

  // ---- The hand-ordered trees are the sorted forms of the documents ----

  lemma ArrangedDiffer(ms: seq<Member>, target: seq<Member>, pos: seq<nat>, inv: seq<nat>)
    requires |ms| == |target| == |pos| && Arrangement(pos, inv) && NamesAscending(target)
    requires forall i :: 0 <= i < |ms| ==> target[pos[i]].name == ms[i].name
    ensures NamesDiffer(ms)
  {
    hide KeyBefore, NamesAscending;
    forall i, j | 0 <= i < j < |ms|
      ensures ms[i].name != ms[j].name
    {
      assert inv[pos[i]] == i && inv[pos[j]] == j;
      NamesApart(target, pos[i], pos[j]);
    }
  }

  lemma NamesApart(ms: seq<Member>, i: nat, j: nat)
    requires NamesAscending(ms) && i < |ms| && j < |ms| && i != j
    ensures ms[i].name != ms[j].name
  {
    hide KeyBefore;
    if i < j { AdjacentAscends(ms, i, j); } else { AdjacentAscends(ms, j, i); }
    TotalOrder(ms[i].name, ms[j].name, ms[i].name);
    TotalOrder(ms[j].name, ms[i].name, ms[j].name);
  }

  lemma TextsDistinct(o: Option<seq<string>>)
    ensures DistinctNames(OptionalTexts(o))
  {
    if o.Some? {
      var items := OptionalTexts(o).items;
      assert forall i :: 0 <= i < |items| ==> items[i] == Str(o.value[i]);
    }
  }

  lemma SelectorDistinct(s: Selector)
    ensures DistinctNames(SelectorJson(s))
  {
    hide OptionalTexts, KeyBefore;
    TextsDistinct(s.values);
    TextsDistinct(s.expressions);
    SelectorNames(s);
    ArrangedDiffer(SelectorJson(s).members, SelectorTree(s).members, [2, 0, 3, 1], [1, 3, 0, 2]);
  }

  lemma SelectorsDistinct(o: Option<seq<Selector>>)
    ensures DistinctNames(SelectorsJson(o))
  {
    hide SelectorJson;
    if o.Some? {
      forall i | 0 <= i < |o.value|
        ensures DistinctNames(SelectorsJson(o).items[i])
      {
        SelectorDistinct(o.value[i]);
      }
    }
  }

  lemma ResourceTypeDistinct(t: ResourceType)
    ensures DistinctNames(ResourceTypeJson(t))
  {
    hide SelectorsJson, SelectorsTree, KeyBefore;
    SelectorsDistinct(t.allow);
    SelectorsDistinct(t.deny);
    ResourceTypeNames(t);
    ArrangedDiffer(ResourceTypeJson(t).members, ResourceTypeTree(t).members, [0, 1, 2], [0, 1, 2]);
  }

  lemma ScopeDistinct(entries: seq<TypeEntry>)
    requires TypesAscending(entries)
    ensures DistinctNames(ScopeJson(entries))
  {
    hide ResourceTypeJson, KeyBefore;
    var ms := TypesJson(entries).members;
    var same := seq(|entries|, i requires 0 <= i < |entries| => i as nat);
    ArrangedDiffer(ms, ms, same, same);
    forall i | 0 <= i < |ms|
      ensures DistinctNames(ms[i].value)
    {
      ResourceTypeDistinct(entries[i].type_);
    }
    assert DistinctNames(TypesJson(entries));
  }

  lemma ConstraintsDistinct(o: Option<GlobalConstraints>)
    ensures DistinctNames(ConstraintsJson(o))
  {
    if o.Some? {
      assert "not_before"[4] != "not_after"[4];
      assert DistinctNames(WindowJson(o.value.time));
    }
  }

  lemma SectionsDistinct(s: Signature, a: Acceptance)
    ensures DistinctNames(SignatureTree(s)) && DistinctNames(AcceptanceSection(a))
  {
    assert "key_id"[0] != "signature"[0] && "accepted_at"[0] != "key_id"[0];
  }

  lemma OptionalDistinct(o: Option<string>)
    ensures DistinctNames(OptionalText(o))
  {
  }

  lemma ProposalNamesDiffer(d: TransitionDocument)
    requires TypesAscending(d.types)
    ensures |ProposalJson(d).members| == 11 && NamesDiffer(ProposalJson(d).members)
  {
    ProposalNames(d);
    ProposalMoved(d, 0);
    assert Arrangement(PROPOSAL_POSITIONS, PROPOSAL_SOURCES);
    hide KeyBefore, NamesAscending, NamesDiffer, ProposalJson, ProposalMembers, Arrangement, Normalize;
    forall i | 0 <= i < 11
      ensures ProposalMembers(d)[PROPOSAL_POSITIONS[i]].name == ProposalJson(d).members[i].name
    {
      ProposalMoved(d, i);
    }
    ArrangedDiffer(ProposalJson(d).members, ProposalMembers(d), PROPOSAL_POSITIONS, PROPOSAL_SOURCES);
  }

  lemma ProposalDistinct(d: TransitionDocument)
    requires TypesAscending(d.types)
    ensures DistinctNames(ProposalJson(d))
  {
    hide KeyBefore, NamesAscending, NamesDiffer, ScopeJson, ConstraintsJson, OptionalText;
    ScopeDistinct(d.types);
    ConstraintsDistinct(d.globalConstraints);
    OptionalDistinct(d.supersedesTransitionId);
    ProposalNamesDiffer(d);
  }

  lemma AcceptanceNamesDiffer(d: TransitionDocument)
    requires TypesAscending(d.types)
    ensures |AcceptanceJson(d).members| == 13 && NamesDiffer(AcceptanceJson(d).members)
  {
    AcceptanceNames(d);
    AcceptanceMoved(d, 0);
    assert Arrangement(ACCEPTANCE_POSITIONS, ACCEPTANCE_SOURCES);
    hide KeyBefore, NamesAscending, NamesDiffer, AcceptanceJson, AcceptanceMembers, Arrangement, Normalize;
    forall i | 0 <= i < 13
      ensures AcceptanceMembers(d)[ACCEPTANCE_POSITIONS[i]].name == AcceptanceJson(d).members[i].name
    {
      AcceptanceMoved(d, i);
    }
    ArrangedDiffer(AcceptanceJson(d).members, AcceptanceMembers(d), ACCEPTANCE_POSITIONS, ACCEPTANCE_SOURCES);
  }

  lemma AcceptanceDistinct(d: TransitionDocument)
    requires TypesAscending(d.types)
    ensures DistinctNames(AcceptanceJson(d))
  {
    hide KeyBefore, NamesAscending, NamesDiffer, ScopeJson, ConstraintsJson, OptionalText, SignatureTree, AcceptanceSection;
    ScopeDistinct(d.types);
    ConstraintsDistinct(d.globalConstraints);
    OptionalDistinct(d.supersedesTransitionId);
    SectionsDistinct(d.predecessorSignature, d.successorAcceptance);
    AcceptanceNamesDiffer(d);
  }

  /** What is written is sorted at every depth and otherwise the document without its signature sections. */
  lemma ProposalSorted(d: TransitionDocument)
    requires TypesAscending(d.types)
    ensures SortedDeep(Object(ProposalMembers(d)))
    ensures SameUpToMemberOrder(ProposalJson(d), Object(ProposalMembers(d)))
  {
    hide Normalize, ProposalJson, ProposalMembers, SortedDeep, SameUpToMemberOrder;
    ProposalDistinct(d);
    NormalizeProposal(d);
    NormalizeSorts(ProposalJson(d));
  }

  lemma AcceptanceSorted(d: TransitionDocument)
    requires TypesAscending(d.types)
    ensures SortedDeep(Object(AcceptanceMembers(d)))
    ensures SameUpToMemberOrder(AcceptanceJson(d), Object(AcceptanceMembers(d)))
  {
    hide Normalize, AcceptanceJson, AcceptanceMembers, SortedDeep, SameUpToMemberOrder;
    AcceptanceDistinct(d);
    NormalizeAcceptance(d);
    NormalizeSorts(AcceptanceJson(d));
  }
}

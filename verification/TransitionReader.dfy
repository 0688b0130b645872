/** Reading a payload back by the names of its members. */
module TransitionReaders {
  import opened Wrappers
  import opened Utf16Key
  import opened JsonTrees
  import opened JsonReaders
  import opened CanonicalForms
  import opened TransitionDocuments

  // ---- Looking members up ----

  function Named(ms: seq<Member>, name: string): Option<Json> {
    if ms == [] then None else if ms[0].name == name then Some(ms[0].value) else Named(ms[1..], name)
  }

  /** The value of an object under a name. */
  function Field(j: Json, name: string): Option<Json> {
    if j.Object? then Named(j.members, name) else None
  }

  function Path(j: Json, outer: string, inner: string): Option<Json> {
    var o := Field(j, outer);
    if o.Some? then Field(o.value, inner) else None
  }

  lemma {:induction false} NamedAt(ms: seq<Member>, i: nat)
    requires NamesDiffer(ms) && i < |ms|
    ensures Named(ms, ms[i].name) == Some(ms[i].value)
  {
    if i > 0 {
      assert ms[0].name != ms[i].name;
      assert forall j :: 0 <= j < |ms[1..]| ==> ms[1..][j] == ms[j + 1];
      NamedAt(ms[1..], i - 1);
    }
  }

  lemma {:induction false} NamedNowhere(ms: seq<Member>, name: string)
    requires forall i :: 0 <= i < |ms| ==> ms[i].name != name
    ensures Named(ms, name) == None
  {
    if ms != [] {
      assert forall j :: 0 <= j < |ms[1..]| ==> ms[1..][j] == ms[j + 1];
      NamedNowhere(ms[1..], name);
    }
  }

  /** A name that sorts between two neighbours is no member's. */
  lemma NamedBetween(ms: seq<Member>, i: nat, name: string)
    requires NamesAscending(ms) && i + 1 < |ms| && KeyBefore(ms[i].name, name) && KeyBefore(name, ms[i + 1].name)
    ensures Named(ms, name) == None
  {
    hide KeyBefore, NamesAscending;
    forall j | 0 <= j < |ms|
      ensures ms[j].name != name
    {
      if j < i {
        AdjacentAscends(ms, j, i);
        TotalOrder(ms[j].name, ms[i].name, name);
      }
      if j > i + 1 {
        AdjacentAscends(ms, i + 1, j);
        TotalOrder(name, ms[i + 1].name, ms[j].name);
      }
      TotalOrder(ms[j].name, name, name);
      TotalOrder(name, ms[j].name, name);
    }
    NamedNowhere(ms, name);
  }

  lemma AscendingDiffer(ms: seq<Member>)
    requires NamesAscending(ms)
    ensures NamesDiffer(ms)
  {
    hide NamesAscending, KeyBefore;
    forall i, j | 0 <= i < j < |ms|
      ensures ms[i].name != ms[j].name
    {
      NamesApart(ms, i, j);
    }
  }

  // ---- Reading values ----

  function AsText(o: Option<Json>): Option<string> {
    if o.Some? && o.value.Str? then Some(o.value.text) else None
  }

  function AsNumber(o: Option<Json>): Option<nat> {
    if o.Some? && o.value.Number? then Some(o.value.n) else None
  }

  function AsBool(o: Option<Json>): Option<bool> {
    if o.Some? && o.value.Bool? then Some(o.value.flag) else None
  }

  /** A text or null. */
  function AsOptionalText(o: Option<Json>): Option<Option<string>> {
    if o == Some(Null) then Some(None) else if AsText(o).Some? then Some(AsText(o)) else None
  }

  function ReadTexts(items: seq<Json>): Option<seq<string>> {
    if forall i :: 0 <= i < |items| ==> items[i].Str? then
      Some(seq(|items|, i requires 0 <= i < |items| => items[i].text))
    else None
  }

  /** A list of texts or null. */
  function AsOptionalTexts(o: Option<Json>): Option<Option<seq<string>>> {
    if o == Some(Null) then Some(None)
    else if o.Some? && o.value.Array? && ReadTexts(o.value.items).Some? then Some(ReadTexts(o.value.items))
    else None
  }

  function ReadSelector(j: Json): Option<Selector> {
    var kind, all := AsText(Field(j, "kind")), AsBool(Field(j, "all"));
    var values, expressions := AsOptionalTexts(Field(j, "values")), AsOptionalTexts(Field(j, "expressions"));
    if kind.Some? && all.Some? && values.Some? && expressions.Some? then
      Some(Selector(kind.value, all.value, values.value, expressions.value))
    else None
  }

  function ReadSelectors(items: seq<Json>): Option<seq<Selector>> {
    if forall i :: 0 <= i < |items| ==> ReadSelector(items[i]).Some? then
      Some(seq(|items|, i requires 0 <= i < |items| => ReadSelector(items[i]).value))
    else None
  }

  function AsOptionalSelectors(o: Option<Json>): Option<Option<seq<Selector>>> {
    if o == Some(Null) then Some(None)
    else if o.Some? && o.value.Array? && ReadSelectors(o.value.items).Some? then Some(ReadSelectors(o.value.items))
    else None
  }

  function ReadType(j: Json): Option<ResourceType> {
    var all := AsBool(Field(j, "all"));
    var allow, deny := AsOptionalSelectors(Field(j, "allow")), AsOptionalSelectors(Field(j, "deny"));
    if all.Some? && allow.Some? && deny.Some? then Some(ResourceType(all.value, allow.value, deny.value)) else None
  }

  /** The entries of a map, in the order of its members. */
  function ReadTypes(ms: seq<Member>): Option<seq<TypeEntry>> {
    if forall i :: 0 <= i < |ms| ==> ReadType(ms[i].value).Some? then
      Some(seq(|ms|, i requires 0 <= i < |ms| => TypeEntry(ms[i].name, ReadType(ms[i].value).value)))
    else None
  }

  function AsTypes(o: Option<Json>): Option<seq<TypeEntry>> {
    if o.Some? && o.value.Object? then ReadTypes(o.value.members) else None
  }

  function AsWindow(o: Option<Json>): Option<Option<TimeWindow>> {
    if o == Some(Null) then Some(None)
    else if o.None? then None
    else
      var notBefore, notAfter := AsText(Field(o.value, "not_before")), AsText(Field(o.value, "not_after"));
      if notBefore.Some? && notAfter.Some? then Some(Some(TimeWindow(notBefore.value, notAfter.value))) else None
  }

  function AsConstraints(o: Option<Json>): Option<Option<GlobalConstraints>> {
    if o == Some(Null) then Some(None)
    else if o.None? then None
    else
      var window := AsWindow(Field(o.value, "time"));
      if window.Some? then Some(Some(GlobalConstraints(window.value))) else None
  }

  // ---- What is written under each name ----

  lemma TextsRead(o: Option<seq<string>>)
    ensures AsOptionalTexts(Some(OptionalTexts(o))) == Some(o)
  {
    if o.Some? {
      var items := Texts(o.value);
      assert ReadTexts(items).value == o.value;
    }
  }

  /** A selector is read back with every field under its own name. */
  lemma SelectorRead(s: Selector)
    ensures ReadSelector(SelectorTree(s)) == Some(s)
  {
    hide KeyBefore, OptionalTexts, AsOptionalTexts, Named, NamesAscending;
    SelectorNames(s);
    var ms := SelectorTree(s).members;
    AscendingDiffer(ms);
    NamedAt(ms, 0);
    NamedAt(ms, 1);
    NamedAt(ms, 2);
    NamedAt(ms, 3);
    TextsRead(s.values);
    TextsRead(s.expressions);
  }

  lemma SelectorsRead(o: Option<seq<Selector>>)
    ensures AsOptionalSelectors(Some(SelectorsTree(o))) == Some(o)
  {
    hide SelectorTree, ReadSelector;
    if o.Some? {
      var items := SelectorTrees(o.value);
      forall i | 0 <= i < |items|
        ensures ReadSelector(items[i]) == Some(o.value[i])
      {
        SelectorRead(o.value[i]);
      }
      assert ReadSelectors(items).value == o.value;
    }
  }

  lemma TypeRead(t: ResourceType)
    ensures ReadType(ResourceTypeTree(t)) == Some(t)
  {
    hide KeyBefore, SelectorsTree, AsOptionalSelectors, Named, NamesAscending;
    ResourceTypeNames(t);
    var ms := ResourceTypeTree(t).members;
    AscendingDiffer(ms);
    NamedAt(ms, 0);
    NamedAt(ms, 1);
    NamedAt(ms, 2);
    SelectorsRead(t.allow);
    SelectorsRead(t.deny);
  }

  lemma ScopeRead(entries: seq<TypeEntry>)
    ensures AsTypes(Field(ScopeTree(entries), "types")) == Some(entries)
  {
    hide ResourceTypeTree, ReadType;
    var ms := TypeMembers(entries);
    forall i | 0 <= i < |ms|
      ensures ReadType(ms[i].value) == Some(entries[i].type_)
    {
      TypeRead(entries[i].type_);
    }
    assert ReadTypes(ms).value == entries;
  }

  lemma ConstraintsRead(o: Option<GlobalConstraints>)
    ensures AsConstraints(Some(ConstraintsTree(o))) == Some(o)
  {
    if o.Some? {
      WindowRead(o.value.time);
      hide AsWindow, WindowTree;
    }
  }

  lemma WindowRead(o: Option<TimeWindow>)
    ensures AsWindow(Some(WindowTree(o))) == Some(o)
  {
    hide KeyBefore, Named;
    if o.Some? {
      WindowNames();
      var ms := WindowTree(o).members;
      PairDiffers(ms[0], ms[1]);
      NamedAt(ms, 0);
      NamedAt(ms, 1);
    }
  }

  lemma PairDiffers(m: Member, n: Member)
    requires KeyBefore(m.name, n.name)
    ensures NamesDiffer([m, n])
  {
    hide KeyBefore;
    TotalOrder(m.name, n.name, m.name);
    TotalOrder(n.name, m.name, n.name);
  }

  /** The fields both payloads carry, each read under its own name. */
  ghost predicate CarriesTransfer(j: Json, d: TransitionDocument) {
    && AsText(Field(j, "transition_id")) == Some(d.transitionId)
    && AsNumber(Field(j, "version")) == Some(d.version)
    && AsText(Field(j, "transition_series_id")) == Some(d.transitionSeriesId)
    && AsNumber(Field(j, "revision")) == Some(d.revision)
    && AsOptionalText(Field(j, "supersedes_transition_id")) == Some(d.supersedesTransitionId)
    && AsText(Field(j, "origin_authority")) == Some(d.originAuthority)
    && AsText(Field(j, "from_authority")) == Some(d.fromAuthority)
    && AsText(Field(j, "to_authority")) == Some(d.toAuthority)
    && AsTypes(Path(j, "canonical_resource_scope", "types")) == Some(d.types)
    && AsConstraints(Field(j, "global_constraints")) == Some(d.globalConstraints)
    && AsText(Field(j, "effective_at")) == Some(d.effectiveAt)
  }

  ghost predicate CarriesLeading(ms: seq<Member>, d: TransitionDocument) {
    && Named(ms, "canonical_resource_scope") == Some(ScopeTree(d.types))
    && Named(ms, "effective_at") == Some(Str(d.effectiveAt))
    && Named(ms, "from_authority") == Some(Str(d.fromAuthority))
    && Named(ms, "global_constraints") == Some(ConstraintsTree(d.globalConstraints))
    && Named(ms, "origin_authority") == Some(Str(d.originAuthority))
  }

  ghost predicate CarriesTrailing(ms: seq<Member>, d: TransitionDocument) {
    && Named(ms, "supersedes_transition_id") == Some(OptionalText(d.supersedesTransitionId))
    && Named(ms, "to_authority") == Some(Str(d.toAuthority))
    && Named(ms, "transition_id") == Some(Str(d.transitionId))
    && Named(ms, "transition_series_id") == Some(Str(d.transitionSeriesId))
    && Named(ms, "version") == Some(Number(d.version))
  }

  lemma LeadingRead(ms: seq<Member>, d: TransitionDocument)
    requires NamesDiffer(ms) && |ms| >= 5 && ms[..5] == LeadingMembers(d)
    ensures CarriesLeading(ms, d)
  {
    hide Named, ScopeTree, ConstraintsTree, NamesDiffer;
    assert forall i :: 0 <= i < 5 ==> ms[i] == ms[..5][i];
    NamedAt(ms, 0);
    NamedAt(ms, 1);
    NamedAt(ms, 2);
    NamedAt(ms, 3);
    NamedAt(ms, 4);
  }

  lemma TrailingRead(ms: seq<Member>, d: TransitionDocument, at: nat)
    requires NamesDiffer(ms) && |ms| == at + 5 && ms[at..] == TrailingMembers(d)
    ensures CarriesTrailing(ms, d)
  {
    hide Named, OptionalText, NamesDiffer;
    assert forall i :: 0 <= i < 5 ==> ms[at + i] == ms[at..][i];
    NamedAt(ms, at);
    NamedAt(ms, at + 1);
    NamedAt(ms, at + 2);
    NamedAt(ms, at + 3);
    NamedAt(ms, at + 4);
  }

  lemma TransferRead(ms: seq<Member>, d: TransitionDocument)
    requires CarriesLeading(ms, d) && CarriesTrailing(ms, d) && Named(ms, "revision") == Some(Number(d.revision))
    ensures CarriesTransfer(Object(ms), d)
  {
    hide Named, ScopeTree, ConstraintsTree, AsTypes, AsConstraints;
    ScopeRead(d.types);
    ConstraintsRead(d.globalConstraints);
  }

  lemma SectionsAbsent(ms: seq<Member>)
    requires NamesAscending(ms) && |ms| >= 7
    requires ms[4].name == "origin_authority" && ms[5].name == "revision" && ms[6].name == "supersedes_transition_id"
    ensures Named(ms, "predecessor_signature") == None && Named(ms, "successor_acceptance") == None
  {
    hide KeyBefore, NamesAscending, Named;
    EarlyNames();
    LateNames();
    NamedBetween(ms, 4, "predecessor_signature");
    NamedBetween(ms, 5, "successor_acceptance");
  }

  /** A proposal carries every field under its own name and no part of either signature section. */
  lemma ProposalRead(d: TransitionDocument)
    ensures CarriesTransfer(Object(ProposalMembers(d)), d)
    ensures Field(Object(ProposalMembers(d)), "predecessor_signature") == None
    ensures Field(Object(ProposalMembers(d)), "successor_acceptance") == None
  {
    var ms := ProposalMembers(d);
    ProposalNames(d);
    ProposalParts(d);
    ProposalMiddle(d);
    hide KeyBefore, NamesAscending, NamesDiffer, Named, ProposalMembers, LeadingMembers, TrailingMembers, CarriesLeading,
         CarriesTrailing, CarriesTransfer;
    AscendingDiffer(ms);
    LeadingRead(ms, d);
    TrailingRead(ms, d, 6);
    NamedAt(ms, 5);
    TransferRead(ms, d);
    SectionsAbsent(ms);
  }

  lemma ProposalMiddle(d: TransitionDocument)
    ensures var ms := ProposalMembers(d);
            |ms| == 11 && ms[4].name == "origin_authority" && ms[5].name == "revision"
            && ms[6].name == "supersedes_transition_id"
  {
    hide ScopeTree, ConstraintsTree, OptionalText;
  }

  /** An acceptance carries every field under its own name, the predecessor's key and signature and the successor's
      time and key under theirs, and no successor signature. */
  lemma AcceptanceRead(d: TransitionDocument)
    ensures var j := Object(AcceptanceMembers(d));
            && CarriesTransfer(j, d)
            && AsText(Path(j, "predecessor_signature", "key_id")) == Some(d.predecessorSignature.keyId)
            && AsText(Path(j, "predecessor_signature", "signature")) == Some(d.predecessorSignature.signature)
            && AsText(Path(j, "successor_acceptance", "accepted_at")) == Some(d.successorAcceptance.acceptedAt)
            && AsText(Path(j, "successor_acceptance", "key_id")) == Some(d.successorAcceptance.keyId)
            && Path(j, "successor_acceptance", "signature") == None
  {
    var ms := AcceptanceMembers(d);
    AcceptanceNames(d);
    AcceptanceParts(d);
    assert ms[5].name == "predecessor_signature" && ms[6].name == "revision" && ms[7].name == "successor_acceptance";
    hide KeyBefore, NamesAscending, NamesDiffer, Named, AcceptanceMembers, LeadingMembers, TrailingMembers,
         CarriesLeading, CarriesTrailing, CarriesTransfer, SignatureTree, AcceptanceSection;
    AscendingDiffer(ms);
    LeadingRead(ms, d);
    TrailingRead(ms, d, 8);
    NamedAt(ms, 5);
    NamedAt(ms, 6);
    NamedAt(ms, 7);
    TransferRead(ms, d);
    SectionsRead(d.predecessorSignature, d.successorAcceptance);
  }

  lemma SectionsRead(s: Signature, a: Acceptance)
    ensures AsText(Field(SignatureTree(s), "key_id")) == Some(s.keyId)
    ensures AsText(Field(SignatureTree(s), "signature")) == Some(s.signature)
    ensures AsText(Field(AcceptanceSection(a), "accepted_at")) == Some(a.acceptedAt)
    ensures AsText(Field(AcceptanceSection(a), "key_id")) == Some(a.keyId)
    ensures Field(AcceptanceSection(a), "signature") == None
  {
    hide KeyBefore, Named;
    SectionNames();
    var m, n := SignatureTree(s).members, AcceptanceSection(a).members;
    PairDiffers(m[0], m[1]);
    PairDiffers(n[0], n[1]);
    NamedAt(m, 0);
    NamedAt(m, 1);
    NamedAt(n, 0);
    NamedAt(n, 1);
    TotalOrder("accepted_at", "key_id", "signature");
    TotalOrder("accepted_at", "signature", "accepted_at");
    TotalOrder("key_id", "signature", "key_id");
    NamedNowhere(n, "signature");
  }

  // ---- The trees in declaration order read the same ----

  lemma SelectorJsonRead(s: Selector)
    ensures ReadSelector(SelectorJson(s)) == Some(s)
  {
    SelectorDistinct(s);
    hide OptionalTexts, AsOptionalTexts, Named, NamesDiffer;
    var ms := SelectorJson(s).members;
    NamedAt(ms, 0);
    NamedAt(ms, 1);
    NamedAt(ms, 2);
    NamedAt(ms, 3);
    TextsRead(s.values);
    TextsRead(s.expressions);
  }

  lemma SelectorsJsonRead(o: Option<seq<Selector>>)
    ensures AsOptionalSelectors(Some(SelectorsJson(o))) == Some(o)
  {
    hide SelectorJson, ReadSelector;
    if o.Some? {
      var items := SelectorsJson(o).items;
      forall i | 0 <= i < |items|
        ensures ReadSelector(items[i]) == Some(o.value[i])
      {
        SelectorJsonRead(o.value[i]);
      }
      assert ReadSelectors(items).value == o.value;
    }
  }

  lemma TypeJsonRead(t: ResourceType)
    ensures ReadType(ResourceTypeJson(t)) == Some(t)
  {
    ResourceTypeDistinct(t);
    hide SelectorsJson, AsOptionalSelectors, Named, NamesDiffer;
    var ms := ResourceTypeJson(t).members;
    NamedAt(ms, 0);
    NamedAt(ms, 1);
    NamedAt(ms, 2);
    SelectorsJsonRead(t.allow);
    SelectorsJsonRead(t.deny);
  }

  lemma ScopeJsonRead(entries: seq<TypeEntry>)
    ensures AsTypes(Field(ScopeJson(entries), "types")) == Some(entries)
  {
    hide ResourceTypeJson, ReadType;
    var ms := TypesJson(entries).members;
    forall i | 0 <= i < |ms|
      ensures ReadType(ms[i].value) == Some(entries[i].type_)
    {
      TypeJsonRead(entries[i].type_);
    }
    assert ReadTypes(ms).value == entries;
  }

  lemma WindowJsonRead(o: Option<TimeWindow>)
    ensures AsWindow(Some(WindowJson(o))) == Some(o)
  {
    hide Named;
    if o.Some? {
      var ms := WindowJson(o).members;
      assert "not_before"[4] != "not_after"[4];
      NamedAt(ms, 0);
      NamedAt(ms, 1);
    }
  }

  lemma ConstraintsJsonRead(o: Option<GlobalConstraints>)
    ensures AsConstraints(Some(ConstraintsJson(o))) == Some(o)
  {
    if o.Some? {
      WindowJsonRead(o.value.time);
      hide AsWindow, WindowJson;
    }
  }

  /** Eleven fields in declaration order, whatever follows them. */
  lemma DeclaredRead(ms: seq<Member>, d: TransitionDocument)
    requires NamesDiffer(ms) && |ms| >= 11 && ms[..11] == ProposalJson(d).members
    ensures CarriesTransfer(Object(ms), d)
  {
    hide Named, ScopeJson, ConstraintsJson, OptionalText, AsTypes, AsConstraints, NamesDiffer;
    assert forall i :: 0 <= i < 11 ==> ms[i] == ms[..11][i];
    ScopeJsonRead(d.types);
    ConstraintsJsonRead(d.globalConstraints);
    OptionalTextRead(d.supersedesTransitionId);
    NamedAt(ms, 0);
    NamedAt(ms, 1);
    NamedAt(ms, 2);
    NamedAt(ms, 3);
    NamedAt(ms, 4);
    NamedAt(ms, 5);
    NamedAt(ms, 6);
    NamedAt(ms, 7);
    NamedAt(ms, 8);
    NamedAt(ms, 9);
    NamedAt(ms, 10);
  }

  lemma OptionalTextRead(o: Option<string>)
    ensures AsOptionalText(Some(OptionalText(o))) == Some(o)
  {
  }

  lemma ProposalJsonRead(d: TransitionDocument)
    requires TypesAscending(d.types)
    ensures CarriesTransfer(ProposalJson(d), d)
  {
    var ms := ProposalJson(d).members;
    assert ProposalJson(d) == Object(ms);
    hide ProposalJson, NamesDiffer, CarriesTransfer;
    ProposalNamesDiffer(d);
    assert ms[..11] == ms;
    DeclaredRead(ms, d);
  }

  lemma AcceptanceJsonRead(d: TransitionDocument)
    requires TypesAscending(d.types)
    ensures var j := AcceptanceJson(d);
            && CarriesTransfer(j, d)
            && AsText(Path(j, "predecessor_signature", "key_id")) == Some(d.predecessorSignature.keyId)
            && AsText(Path(j, "predecessor_signature", "signature")) == Some(d.predecessorSignature.signature)
            && AsText(Path(j, "successor_acceptance", "accepted_at")) == Some(d.successorAcceptance.acceptedAt)
            && AsText(Path(j, "successor_acceptance", "key_id")) == Some(d.successorAcceptance.keyId)
            && Path(j, "successor_acceptance", "signature") == None
  {
    var ms := AcceptanceJson(d).members;
    AcceptanceDeclared(d);
    hide AcceptanceJson, ProposalJson, NamesDiffer, CarriesTransfer, SignatureTree, AcceptanceSection, Named;
    AcceptanceNamesDiffer(d);
    DeclaredRead(ms, d);
    NamedAt(ms, 11);
    NamedAt(ms, 12);
    SectionsRead(d.predecessorSignature, d.successorAcceptance);
  }

  lemma AcceptanceDeclared(d: TransitionDocument)
    ensures var j := AcceptanceJson(d);
            && j == Object(j.members) && |j.members| == 13 && j.members[..11] == ProposalJson(d).members
            && j.members[11] == Member("predecessor_signature", SignatureTree(d.predecessorSignature))
            && j.members[12] == Member("successor_acceptance", AcceptanceSection(d.successorAcceptance))
  {
    hide ScopeJson, ConstraintsJson, OptionalText, SignatureTree, AcceptanceSection;
  }

  // ---- From the written text ----

  /** Reading the text of a proposal gives a tree that carries its fields and neither signature section. */
  lemma ProposalTextRead(d: TransitionDocument)
    ensures var r := ReadValue(Plain(Object(ProposalMembers(d))));
            && r.Some? && r.value.rest == "" && CarriesTransfer(r.value.value, d)
            && Field(r.value.value, "predecessor_signature") == None
            && Field(r.value.value, "successor_acceptance") == None
  {
    hide Plain, ReadValue, CarriesTransfer, ProposalMembers, Named;
    TreeRead(Object(ProposalMembers(d)));
    ProposalRead(d);
  }

  /** Reading the text of an acceptance gives a tree that carries its fields but not the successor's signature. */
  lemma AcceptanceTextRead(d: TransitionDocument)
    ensures var r := ReadValue(Plain(Object(AcceptanceMembers(d))));
            && r.Some? && r.value.rest == "" && CarriesTransfer(r.value.value, d)
            && AsText(Path(r.value.value, "predecessor_signature", "key_id")) == Some(d.predecessorSignature.keyId)
            && AsText(Path(r.value.value, "predecessor_signature", "signature"))
               == Some(d.predecessorSignature.signature)
            && AsText(Path(r.value.value, "successor_acceptance", "accepted_at"))
               == Some(d.successorAcceptance.acceptedAt)
            && AsText(Path(r.value.value, "successor_acceptance", "key_id")) == Some(d.successorAcceptance.keyId)
            && Path(r.value.value, "successor_acceptance", "signature") == None
  {
    hide Plain, ReadValue, CarriesTransfer, AcceptanceMembers, Named;
    TreeRead(Object(AcceptanceMembers(d)));
    AcceptanceRead(d);
  }
}

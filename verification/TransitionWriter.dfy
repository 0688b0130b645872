/** The streaming canonical writer for ownership transitions, and what its bytes determine. */
module TransitionWriter {
  import opened Wrappers
  import opened Text
  import opened JsonTrees
  import opened JsonReaders
  import opened JsonNumbers
  import opened CanonicalForms
  import opened TransitionDocuments

  // ---- Objects and lists written piece by piece ----

  /** An object after its opening brace and the given members. */
  function Opened(ms: seq<Member>): string {
    ['{'] + PlainMembers(ms)
  }

  lemma {:induction false} MoreMembersSnoc(ms: seq<Member>, m: Member)
    ensures MoreMembers(ms + [m]) == MoreMembers(ms) + ([','] + PlainMember(m))
  {
    hide PlainMember;
    if ms == [] {
      assert [m][1..] == [];
      assert ms + [m] == [m];
    } else {
      assert (ms + [m])[1..] == ms[1..] + [m];
      MoreMembersSnoc(ms[1..], m);
      assert (ms + [m])[0] == ms[0];
    }
  }

  lemma MembersSnoc(ms: seq<Member>, m: Member)
    ensures PlainMembers(ms + [m]) == PlainMembers(ms) + (if ms == [] then [] else [',']) + PlainMember(m)
  {
    hide PlainMember;
    if ms == [] {
      assert ms + [m] == [m] && [m][1..] == [];
    } else {
      assert (ms + [m])[1..] == ms[1..] + [m] && (ms + [m])[0] == ms[0];
      MoreMembersSnoc(ms[1..], m);
    }
  }

  /** Writing member i, after a comma unless it is the first, extends the object written so far. */
  lemma NextMember(start: string, ms: seq<Member>, i: nat)
    requires i < |ms|
    ensures start + Opened(ms[..i]) + (if i == 0 then [] else [',']) + PlainMember(ms[i]) == start + Opened(ms[..i + 1])
  {
    hide PlainMember, PlainMembers;
    MembersSnoc(ms[..i], ms[i]);
    assert ms[..i + 1] == ms[..i] + [ms[i]];
  }

  lemma NoMember(start: string, ms: seq<Member>)
    ensures start + ['{'] == start + Opened(ms[..0])
  {
  }

  lemma Closed(start: string, ms: seq<Member>)
    ensures start + Opened(ms[..|ms|]) + ['}'] == start + Plain(Object(ms))
  {
    hide PlainMembers;
    assert ms[..|ms|] == ms;
  }

  lemma {:induction false} MoreItemsSnoc(items: seq<Json>, j: Json)
    ensures MoreItems(items + [j]) == MoreItems(items) + ([','] + Plain(j))
  {
    hide Plain;
    if items == [] {
      assert [j][1..] == [];
      assert items + [j] == [j];
    } else {
      assert (items + [j])[1..] == items[1..] + [j];
      MoreItemsSnoc(items[1..], j);
      assert (items + [j])[0] == items[0];
    }
  }

  lemma ItemsSnoc(items: seq<Json>, j: Json)
    ensures PlainItems(items + [j]) == PlainItems(items) + (if items == [] then [] else [',']) + Plain(j)
  {
    hide Plain;
    if items == [] {
      assert items + [j] == [j] && [j][1..] == [];
    } else {
      assert (items + [j])[1..] == items[1..] + [j] && (items + [j])[0] == items[0];
      MoreItemsSnoc(items[1..], j);
    }
  }

  /** A list after its opening bracket and the given items. */
  function Listed(items: seq<Json>): string {
    ['['] + PlainItems(items)
  }

  lemma NextItem(start: string, items: seq<Json>, i: nat)
    requires i < |items|
    ensures start + Listed(items[..i]) + (if i == 0 then [] else [',']) + Plain(items[i]) == start + Listed(items[..i + 1])
  {
    hide Plain, PlainItems;
    ItemsSnoc(items[..i], items[i]);
    assert items[..i + 1] == items[..i] + [items[i]];
  }

  lemma NoItem(start: string, items: seq<Json>)
    ensures start + ['['] == start + Listed(items[..0])
  {
  }

  lemma ClosedList(start: string, items: seq<Json>)
    ensures start + Listed(items[..|items|]) + [']'] == start + Plain(Array(items))
  {
    hide PlainItems;
    assert items[..|items|] == items;
  }

  /** A field name, a colon and a value make a member. */
  lemma NamedValue(before: string, name: string, j: Json)
    ensures before + (JsonString(name) + [':']) + Plain(j) == before + PlainMember(Member(name, j))
  {
    hide JsonString, Plain;
  }

  lemma {:induction false} PlainTimeVerbatim(s: string)
    requires PlainTime(s)
    ensures EscapeJson(s) == s
  {
    if s != [] {
      PlainTimeVerbatim(s[1..]);
      assert s == [s[0]] + s[1..];
    }
  }

  lemma PlainTimeQuoted(s: string)
    requires PlainTime(s)
    ensures JsonString(s) == ['"'] + s + ['"']
  {
    PlainTimeVerbatim(s);
  }

  // ---- The writer ----

  class CanonicalWriter {
    var buffer: seq<Byte>
    ghost var text: string

    /** The buffer holds the UTF-8 bytes of the text written so far. */
    ghost predicate Valid()
      reads this
    {
      buffer == Utf8(text)
    }

    constructor ()
      ensures Valid() && text == []
    {
      buffer, text := [], [];
    }

    method WriteBytes(piece: string)
      requires Valid()
      modifies this
      ensures Valid() && text == old(text) + piece
    {
      Utf8Concat(text, piece);
      buffer := buffer + Utf8(piece);
      text := text + piece;
    }

    method WriteNull()
      requires Valid()
      modifies this
      ensures Valid() && text == old(text) + Plain(Null)
    {
      WriteBytes("null");
    }

    method WriteBool(value: bool)
      requires Valid()
      modifies this
      ensures Valid() && text == old(text) + Plain(Bool(value))
    {
      if value {
        WriteBytes("true");
      } else {
        WriteBytes("false");
      }
    }

    method WriteNumber(value: nat)
      requires Valid()
      modifies this
      ensures Valid() && text == old(text) + Plain(Number(value))
    {
      WriteBytes(Decimal(value));
    }

    method WriteJsonString(value: string)
      requires Valid()
      modifies this
      ensures Valid() && text == old(text) + JsonString(value)
    {
      WriteBytes(JsonString(value));
    }

    method WriteFieldName(name: string)
      requires Valid()
      modifies this
      ensures Valid() && text == old(text) + (JsonString(name) + [':'])
    {
      WriteJsonString(name);
      WriteBytes(":");
    }

    method WriteJsonStringField(name: string, value: string)
      requires Valid()
      modifies this
      ensures Valid() && text == old(text) + PlainMember(Member(name, Str(value)))
    {
      hide JsonString;
      WriteFieldName(name);
      WriteJsonString(value);
    }

    method WriteOptionalStringField(name: string, value: Option<string>)
      requires Valid()
      modifies this
      ensures Valid() && text == old(text) + PlainMember(Member(name, OptionalText(value)))
    {
      hide JsonString;
      WriteFieldName(name);
      if value.None? {
        WriteNull();
      } else {
        WriteJsonString(value.value);
      }
    }

    method WriteNumberField(name: string, value: nat)
      requires Valid()
      modifies this
      ensures Valid() && text == old(text) + PlainMember(Member(name, Number(value)))
    {
      hide JsonString, Decimal;
      WriteFieldName(name);
      WriteNumber(value);
    }

    method WriteBoolField(name: string, value: bool)
      requires Valid()
      modifies this
      ensures Valid() && text == old(text) + PlainMember(Member(name, Bool(value)))
    {
      hide JsonString;
      WriteFieldName(name);
      WriteBool(value);
    }

    /** Quotes the rendered time without escaping it. */
    method WriteDateTimeField(name: string, rendered: string)
      requires Valid() && PlainTime(rendered)
      modifies this
      ensures Valid() && text == old(text) + PlainMember(Member(name, Str(rendered)))
    {
      hide JsonString;
      PlainTimeQuoted(rendered);
      WriteFieldName(name);
      ghost var named := text;
      WriteBytes("\"");
      WriteBytes(rendered);
      WriteBytes("\"");
      assert text == named + JsonString(rendered);
    }

    method WriteStringArrayField(name: string, values: Option<seq<string>>)
      requires Valid()
      modifies this
      ensures Valid() && text == old(text) + PlainMember(Member(name, OptionalTexts(values)))
    {
      hide Listed, PlainMember, Plain, JsonString;
      ghost var before := text;
      WriteFieldName(name);
      NamedValue(before, name, Null);
      if values.None? {
        WriteNull();
        return;
      }
      ghost var start, items := text, Texts(values.value);
      NoItem(start, items);
      WriteBytes("[");
      for i := 0 to |values.value|
        invariant Valid() && text == start + Listed(items[..i])
      {
        NextItem(start, items, i);
        if i > 0 {
          WriteBytes(",");
        }
        assert Plain(items[i]) == JsonString(values.value[i]) by { StringText(values.value[i]); }
        WriteJsonString(values.value[i]);
      }
      ClosedList(start, items);
      WriteBytes("]");
      NamedValue(before, name, OptionalTexts(values));
    }

    method WriteSelector(selector: Selector)
      requires Valid()
      modifies this
      ensures Valid() && text == old(text) + Plain(SelectorTree(selector))
    {
      hide Opened, PlainMember, Plain, OptionalTexts;
      ghost var start, ms := text, SelectorTree(selector).members;
      NoMember(start, ms);
      WriteBytes("{");
      WriteBoolField("all", selector.all);
      NextMember(start, ms, 0);
      assert text == start + Opened(ms[..1]);
      WriteBytes(",");
      WriteStringArrayField("expressions", selector.expressions);
      NextMember(start, ms, 1);
      assert text == start + Opened(ms[..2]);
      WriteBytes(",");
      WriteJsonStringField("kind", selector.kind);
      NextMember(start, ms, 2);
      assert text == start + Opened(ms[..3]);
      WriteBytes(",");
      WriteStringArrayField("values", selector.values);
      NextMember(start, ms, 3);
      assert text == start + Opened(ms[..4]);
      Closed(start, ms);
      WriteBytes("}");
    }

    method WriteSelectorsField(name: string, selectors: Option<seq<Selector>>)
      requires Valid()
      modifies this
      ensures Valid() && text == old(text) + PlainMember(Member(name, SelectorsTree(selectors)))
    {
      hide Listed, PlainMember, Plain, JsonString, SelectorTree;
      ghost var before := text;
      WriteFieldName(name);
      NamedValue(before, name, Null);
      if selectors.None? {
        WriteNull();
        return;
      }
      ghost var start, items := text, SelectorTrees(selectors.value);
      NoItem(start, items);
      WriteBytes("[");
      for i := 0 to |selectors.value|
        invariant Valid() && text == start + Listed(items[..i])
      {
        NextItem(start, items, i);
        if i > 0 {
          WriteBytes(",");
        }
        WriteSelector(selectors.value[i]);
      }
      ClosedList(start, items);
      WriteBytes("]");
      NamedValue(before, name, SelectorsTree(selectors));
    }

    method WriteResourceType(resourceType: ResourceType)
      requires Valid()
      modifies this
      ensures Valid() && text == old(text) + Plain(ResourceTypeTree(resourceType))
    {
      hide Opened, PlainMember, Plain, SelectorsTree;
      ghost var start, ms := text, ResourceTypeTree(resourceType).members;
      NoMember(start, ms);
      WriteBytes("{");
      WriteBoolField("all", resourceType.all);
      NextMember(start, ms, 0);
      assert text == start + Opened(ms[..1]);
      WriteBytes(",");
      WriteSelectorsField("allow", resourceType.allow);
      NextMember(start, ms, 1);
      assert text == start + Opened(ms[..2]);
      WriteBytes(",");
      WriteSelectorsField("deny", resourceType.deny);
      NextMember(start, ms, 2);
      assert text == start + Opened(ms[..3]);
      Closed(start, ms);
      WriteBytes("}");
    }

    /** Writes the map entries in the key order the map keeps them in. */
    method WriteResourceTypeMapField(name: string, types: seq<TypeEntry>)
      requires Valid()
      modifies this
      ensures Valid() && text == old(text) + PlainMember(Member(name, Object(TypeMembers(types))))
    {
      hide Opened, PlainMember, Plain, JsonString, ResourceTypeTree;
      ghost var before := text;
      WriteFieldName(name);
      ghost var start, ms := text, TypeMembers(types);
      NoMember(start, ms);
      WriteBytes("{");
      for i := 0 to |types|
        invariant Valid() && text == start + Opened(ms[..i])
      {
        if i > 0 {
          WriteBytes(",");
        }
        ghost var at := text;
        WriteJsonString(types[i].name);
        WriteBytes(":");
        WriteResourceType(types[i].type_);
        NamedValue(at, types[i].name, ResourceTypeTree(types[i].type_));
        assert text == at + PlainMember(ms[i]);
        NextMember(start, ms, i);
      }
      Closed(start, ms);
      WriteBytes("}");
      NamedValue(before, name, Object(ms));
    }

    method WriteResourceScopeField(name: string, types: seq<TypeEntry>)
      requires Valid()
      modifies this
      ensures Valid() && text == old(text) + PlainMember(Member(name, ScopeTree(types)))
    {
      hide Opened, PlainMember, Plain, JsonString, TypeMembers;
      ghost var before := text;
      WriteFieldName(name);
      ghost var start, ms := text, ScopeTree(types).members;
      NoMember(start, ms);
      WriteBytes("{");
      WriteResourceTypeMapField("types", types);
      NextMember(start, ms, 0);
      assert text == start + Opened(ms[..1]);
      Closed(start, ms);
      WriteBytes("}");
      NamedValue(before, name, ScopeTree(types));
    }

    method WriteTimeWindowField(name: string, window: Option<TimeWindow>)
      requires Valid()
      requires window.Some? ==> PlainTime(window.value.notBefore) && PlainTime(window.value.notAfter)
      modifies this
      ensures Valid() && text == old(text) + PlainMember(Member(name, WindowTree(window)))
    {
      hide Opened, PlainMember, Plain, JsonString;
      ghost var before := text;
      WriteFieldName(name);
      NamedValue(before, name, Null);
      if window.None? {
        WriteNull();
        return;
      }
      ghost var start, ms := text, WindowTree(window).members;
      NoMember(start, ms);
      WriteBytes("{");
      WriteDateTimeField("not_after", window.value.notAfter);
      NextMember(start, ms, 0);
      assert text == start + Opened(ms[..1]);
      WriteBytes(",");
      WriteDateTimeField("not_before", window.value.notBefore);
      NextMember(start, ms, 1);
      assert text == start + Opened(ms[..2]);
      Closed(start, ms);
      WriteBytes("}");
      NamedValue(before, name, WindowTree(window));
    }

    method WriteGlobalConstraintsField(name: string, constraints: Option<GlobalConstraints>)
      requires Valid()
      requires constraints.Some? && constraints.value.time.Some? ==>
                 PlainTime(constraints.value.time.value.notBefore) && PlainTime(constraints.value.time.value.notAfter)
      modifies this
      ensures Valid() && text == old(text) + PlainMember(Member(name, ConstraintsTree(constraints)))
    {
      hide Opened, PlainMember, Plain, JsonString, WindowTree;
      ghost var before := text;
      WriteFieldName(name);
      NamedValue(before, name, Null);
      if constraints.None? {
        WriteNull();
        return;
      }
      ghost var start, ms := text, ConstraintsTree(constraints).members;
      NoMember(start, ms);
      WriteBytes("{");
      WriteTimeWindowField("time", constraints.value.time);
      NextMember(start, ms, 0);
      assert text == start + Opened(ms[..1]);
      Closed(start, ms);
      WriteBytes("}");
      NamedValue(before, name, ConstraintsTree(constraints));
    }

    method WriteSignatureField(name: string, signature: Signature)
      requires Valid()
      modifies this
      ensures Valid() && text == old(text) + PlainMember(Member(name, SignatureTree(signature)))
    {
      hide Opened, PlainMember, Plain, JsonString;
      ghost var before := text;
      WriteFieldName(name);
      ghost var start, ms := text, SignatureTree(signature).members;
      NoMember(start, ms);
      WriteBytes("{");
      WriteJsonStringField("key_id", signature.keyId);
      NextMember(start, ms, 0);
      assert text == start + Opened(ms[..1]);
      WriteBytes(",");
      WriteJsonStringField("signature", signature.signature);
      NextMember(start, ms, 1);
      assert text == start + Opened(ms[..2]);
      Closed(start, ms);
      WriteBytes("}");
      NamedValue(before, name, SignatureTree(signature));
    }

    method WriteAcceptanceField(name: string, acceptance: Acceptance)
      requires Valid() && PlainTime(acceptance.acceptedAt)
      modifies this
      ensures Valid() && text == old(text) + PlainMember(Member(name, AcceptanceSection(acceptance)))
    {
      hide Opened, PlainMember, Plain, JsonString;
      ghost var before := text;
      WriteFieldName(name);
      ghost var start, ms := text, AcceptanceSection(acceptance).members;
      NoMember(start, ms);
      WriteBytes("{");
      WriteDateTimeField("accepted_at", acceptance.acceptedAt);
      NextMember(start, ms, 0);
      assert text == start + Opened(ms[..1]);
      WriteBytes(",");
      WriteJsonStringField("key_id", acceptance.keyId);
      NextMember(start, ms, 1);
      assert text == start + Opened(ms[..2]);
      Closed(start, ms);
      WriteBytes("}");
      NamedValue(before, name, AcceptanceSection(acceptance));
    }

    /** The fields both payloads start with. */
    method WriteLeadingFields(d: TransitionDocument, ghost start: string, ghost ms: seq<Member>)
      requires Valid() && WellTyped(d) && text == start + ['{']
      requires |ms| >= 5 && ms[..5] == LeadingMembers(d)
      modifies this
      ensures Valid() && text == start + Opened(ms[..5])
    {
      hide Opened, PlainMember, Plain, OptionalText, ScopeTree, ConstraintsTree, SignatureTree, AcceptanceSection, Utf8;
      assert forall i :: 0 <= i < 5 ==> ms[i] == LeadingMembers(d)[i] by {
        assert forall i :: 0 <= i < 5 ==> ms[i] == ms[..5][i];
      }
      NoMember(start, ms);
      WriteResourceScopeField("canonical_resource_scope", d.types);
      NextMember(start, ms, 0);
      assert text == start + Opened(ms[..1]);
      WriteBytes(",");
      WriteDateTimeField("effective_at", d.effectiveAt);
      NextMember(start, ms, 1);
      assert text == start + Opened(ms[..2]);
      WriteBytes(",");
      WriteJsonStringField("from_authority", d.fromAuthority);
      NextMember(start, ms, 2);
      assert text == start + Opened(ms[..3]);
      WriteBytes(",");
      WriteGlobalConstraintsField("global_constraints", d.globalConstraints);
      NextMember(start, ms, 3);
      assert text == start + Opened(ms[..4]);
      WriteBytes(",");
      WriteJsonStringField("origin_authority", d.originAuthority);
      NextMember(start, ms, 4);
      assert text == start + Opened(ms[..5]);
    }

    /** The fields both payloads end with. */
    method WriteTrailingFields(d: TransitionDocument, ghost start: string, ghost ms: seq<Member>, ghost at: nat)
      requires Valid() && 0 < at && |ms| == at + 5 && text == start + Opened(ms[..at])
      requires ms[at..] == TrailingMembers(d)
      modifies this
      ensures Valid() && text == start + Opened(ms)
    {
      hide Opened, PlainMember, Plain, OptionalText, ScopeTree, ConstraintsTree, SignatureTree, AcceptanceSection, Utf8;
      assert forall i :: 0 <= i < 5 ==> ms[at + i] == TrailingMembers(d)[i] by {
        assert forall i :: 0 <= i < 5 ==> ms[at + i] == ms[at..][i];
      }
      WriteBytes(",");
      WriteOptionalStringField("supersedes_transition_id", d.supersedesTransitionId);
      NextMember(start, ms, at);
      assert text == start + Opened(ms[..at + 1]);
      WriteBytes(",");
      WriteJsonStringField("to_authority", d.toAuthority);
      NextMember(start, ms, at + 1);
      assert text == start + Opened(ms[..at + 2]);
      WriteBytes(",");
      WriteJsonStringField("transition_id", d.transitionId);
      NextMember(start, ms, at + 2);
      assert text == start + Opened(ms[..at + 3]);
      WriteBytes(",");
      WriteJsonStringField("transition_series_id", d.transitionSeriesId);
      NextMember(start, ms, at + 3);
      assert text == start + Opened(ms[..at + 4]);
      WriteBytes(",");
      WriteNumberField("version", d.version);
      NextMember(start, ms, at + 4);
      assert text == start + Opened(ms[..at + 5]);
      assert ms[..at + 5] == ms;
    }

    method WriteTransitionProposal(d: TransitionDocument)
      requires Valid() && WellTyped(d)
      modifies this
      ensures Valid() && text == old(text) + Plain(Object(ProposalMembers(d)))
    {
      hide Opened, PlainMember, Plain, OptionalText, ScopeTree, ConstraintsTree, SignatureTree,
           AcceptanceSection, LeadingMembers, TrailingMembers;
      ghost var start, ms := text, ProposalMembers(d);
      ProposalParts(d);
      WriteBytes("{");
      WriteLeadingFields(d, start, ms);
      WriteBytes(",");
      WriteNumberField("revision", d.revision);
      NextMember(start, ms, 5);
      WriteTrailingFields(d, start, ms, 6);
      assert ms[..|ms|] == ms;
      Closed(start, ms);
      WriteBytes("}");
    }

    /** The revision between what an acceptance keeps of the two signature sections. */
    method WriteSectionFields(d: TransitionDocument, ghost start: string, ghost ms: seq<Member>)
      requires |ms| == 13 && ms == AcceptanceMembers(d)
      requires Valid() && WellTyped(d) && text == start + Opened(ms[..5])
      modifies this
      ensures Valid() && text == start + Opened(ms[..8])
    {
      hide Opened, PlainMember, Plain, SignatureTree, AcceptanceSection, LeadingMembers, TrailingMembers;
      WriteBytes(",");
      WriteSignatureField("predecessor_signature", d.predecessorSignature);
      NextMember(start, ms, 5);
      assert text == start + Opened(ms[..6]);
      WriteBytes(",");
      WriteNumberField("revision", d.revision);
      NextMember(start, ms, 6);
      assert text == start + Opened(ms[..7]);
      WriteBytes(",");
      WriteAcceptanceField("successor_acceptance", d.successorAcceptance);
      NextMember(start, ms, 7);
    }

    method WriteTransitionAcceptance(d: TransitionDocument)
      requires Valid() && WellTyped(d)
      modifies this
      ensures Valid() && text == old(text) + Plain(Object(AcceptanceMembers(d)))
    {
      hide Opened, PlainMember, Plain, OptionalText, ScopeTree, ConstraintsTree, SignatureTree,
           AcceptanceSection, LeadingMembers, TrailingMembers;
      ghost var start, ms := text, AcceptanceMembers(d);
      AcceptanceParts(d);
      WriteBytes("{");
      WriteLeadingFields(d, start, ms);
      WriteSectionFields(d, start, ms);
      WriteTrailingFields(d, start, ms, 8);
      assert ms[..|ms|] == ms;
      Closed(start, ms);
      WriteBytes("}");
    }
  }

  lemma StringText(s: string)
    ensures Plain(Str(s)) == JsonString(s)
  {
  }

  // ---- Entry points ----

  function ProposalBytes(d: TransitionDocument): seq<Byte> {
    Utf8(Plain(Object(ProposalMembers(d))))
  }

  function AcceptanceBytes(d: TransitionDocument): seq<Byte> {
    Utf8(Plain(Object(AcceptanceMembers(d))))
  }

  /** The bytes the predecessor signs: the RFC 8785 form of the document without the signature sections,
      exactly when the revision is a number that prints as itself. */
  method CanonicalizeTransitionProposal(d: TransitionDocument) returns (bytes: seq<Byte>)
    requires WellTyped(d)
    ensures bytes == ProposalBytes(d)
    ensures AllNumbers(ProposalJson(d), Is64Bit)
    ensures bytes == Canonical(ProposalJson(d)) <==> RfcNumber(d.revision) == d.revision
    ensures d.revision < SAFE_INTEGERS ==> bytes == Canonical(ProposalJson(d))
  {
    hide Plain, Normalize, AllNumbers, ProposalMembers, ProposalJson, Canonical, RfcNumber;
    ProposalNumbers(d, Is64Bit);
    ProposalNumbers(d, PrintsExactly);
    CanonicalExact(ProposalJson(d));
    SafeIntegersPrint(d.version);
    if d.revision < SAFE_INTEGERS { SafeIntegersPrint(d.revision); }
    NormalizeProposal(d);
    var writer := new CanonicalWriter();
    writer.WriteTransitionProposal(d);
    assert [] + Plain(Object(ProposalMembers(d))) == Plain(Object(ProposalMembers(d)));
    bytes := writer.buffer;
  }

  /** The bytes the successor signs: the RFC 8785 form of the document without the successor's signature,
      exactly when the revision is a number that prints as itself. */
  method CanonicalizeTransitionAcceptance(d: TransitionDocument) returns (bytes: seq<Byte>)
    requires WellTyped(d)
    ensures bytes == AcceptanceBytes(d)
    ensures AllNumbers(AcceptanceJson(d), Is64Bit)
    ensures bytes == Canonical(AcceptanceJson(d)) <==> RfcNumber(d.revision) == d.revision
    ensures d.revision < SAFE_INTEGERS ==> bytes == Canonical(AcceptanceJson(d))
  {
    hide Plain, Normalize, AllNumbers, AcceptanceMembers, AcceptanceJson, Canonical, RfcNumber;
    AcceptanceNumbers(d, Is64Bit);
    AcceptanceNumbers(d, PrintsExactly);
    CanonicalExact(AcceptanceJson(d));
    SafeIntegersPrint(d.version);
    if d.revision < SAFE_INTEGERS { SafeIntegersPrint(d.revision); }
    NormalizeAcceptance(d);
    var writer := new CanonicalWriter();
    writer.WriteTransitionAcceptance(d);
    assert [] + Plain(Object(AcceptanceMembers(d))) == Plain(Object(AcceptanceMembers(d)));
    bytes := writer.buffer;
  }

  /** From 2^53 on no odd revision is signed in its RFC 8785 form; the first such revision is 2^53 + 1. */
  lemma OddRevisionsDepart(d: TransitionDocument)
    requires WellTyped(d) && d.revision >= SAFE_INTEGERS && d.revision % 2 == 1
    ensures AllNumbers(ProposalJson(d), Is64Bit) && ProposalBytes(d) != Canonical(ProposalJson(d))
    ensures AllNumbers(AcceptanceJson(d), Is64Bit) && AcceptanceBytes(d) != Canonical(AcceptanceJson(d))
  {
    hide Plain, Normalize, AllNumbers, ProposalMembers, ProposalJson, AcceptanceMembers, AcceptanceJson, Canonical,
         RfcNumber;
    OddNeverPrints(d.revision);
    ProposalNumbers(d, Is64Bit);
    ProposalNumbers(d, PrintsExactly);
    CanonicalExact(ProposalJson(d));
    NormalizeProposal(d);
    AcceptanceNumbers(d, Is64Bit);
    AcceptanceNumbers(d, PrintsExactly);
    CanonicalExact(AcceptanceJson(d));
    NormalizeAcceptance(d);
  }

  lemma TextsNumbers(o: Option<seq<string>>, p: nat -> bool)
    ensures AllNumbers(OptionalTexts(o), p)
  {
    if o.Some? {
      var items := OptionalTexts(o).items;
      assert forall i :: 0 <= i < |items| ==> items[i] == Str(o.value[i]);
    }
  }

  lemma SelectorNumbers(s: Selector, p: nat -> bool)
    ensures AllNumbers(SelectorJson(s), p)
  {
    hide OptionalTexts;
    TextsNumbers(s.values, p);
    TextsNumbers(s.expressions, p);
  }

  lemma SelectorsNumbers(o: Option<seq<Selector>>, p: nat -> bool)
    ensures AllNumbers(SelectorsJson(o), p)
  {
    hide SelectorJson;
    if o.Some? {
      forall i | 0 <= i < |o.value|
        ensures AllNumbers(SelectorsJson(o).items[i], p)
      {
        SelectorNumbers(o.value[i], p);
      }
    }
  }

  lemma SharedNumbers(d: TransitionDocument, p: nat -> bool)
    ensures AllNumbers(ScopeJson(d.types), p) && AllNumbers(ConstraintsJson(d.globalConstraints), p)
    ensures AllNumbers(OptionalText(d.supersedesTransitionId), p)
  {
    forall i | 0 <= i < |d.types|
      ensures AllNumbers(ResourceTypeJson(d.types[i].type_), p)
    {
      SelectorsNumbers(d.types[i].type_.allow, p);
      SelectorsNumbers(d.types[i].type_.deny, p);
    }
    assert AllNumbers(TypesJson(d.types), p);
    if d.globalConstraints.Some? {
      assert AllNumbers(WindowJson(d.globalConstraints.value.time), p);
    }
  }

  /** The only numbers of a payload are the revision and the version. */
  lemma ProposalNumbers(d: TransitionDocument, p: nat -> bool)
    ensures AllNumbers(ProposalJson(d), p) <==> p(d.revision) && p(d.version)
  {
    SharedNumbers(d, p);
    var ms := ProposalJson(d).members;
    assert ms[3].value == Number(d.revision) && ms[1].value == Number(d.version);
    hide ScopeJson, ConstraintsJson, OptionalText;
  }

  lemma AcceptanceNumbers(d: TransitionDocument, p: nat -> bool)
    ensures AllNumbers(AcceptanceJson(d), p) <==> p(d.revision) && p(d.version)
  {
    SharedNumbers(d, p);
    var ms := AcceptanceJson(d).members;
    assert ms[3].value == Number(d.revision) && ms[1].value == Number(d.version);
    assert AllNumbers(SignatureTree(d.predecessorSignature), p);
    assert AllNumbers(AcceptanceSection(d.successorAcceptance), p);
    hide ScopeJson, ConstraintsJson, OptionalText, SignatureTree, AcceptanceSection;
  }

  // ---- What the bytes determine ----

  lemma TextsInjective(a: Option<seq<string>>, b: Option<seq<string>>)
    requires OptionalTexts(a) == OptionalTexts(b)
    ensures a == b
  {
    if a.Some? && b.Some? {
      var m, n := Texts(a.value), Texts(b.value);
      assert m == n;
      forall i | 0 <= i < |a.value|
        ensures a.value[i] == b.value[i]
      {
        assert m[i] == n[i];
      }
      assert a.value == b.value;
    }
  }

  lemma SelectorInjective(a: Selector, b: Selector)
    requires SelectorTree(a) == SelectorTree(b)
    ensures a == b
  {
    hide OptionalTexts;
    var m, n := SelectorTree(a).members, SelectorTree(b).members;
    assert m[0] == n[0] && m[1] == n[1] && m[2] == n[2] && m[3] == n[3];
    TextsInjective(a.values, b.values);
    TextsInjective(a.expressions, b.expressions);
  }

  lemma SelectorsInjective(a: Option<seq<Selector>>, b: Option<seq<Selector>>)
    requires SelectorsTree(a) == SelectorsTree(b)
    ensures a == b
  {
    hide SelectorTree;
    if a.Some? && b.Some? {
      var m, n := SelectorTrees(a.value), SelectorTrees(b.value);
      assert m == n;
      forall i | 0 <= i < |a.value|
        ensures a.value[i] == b.value[i]
      {
        assert m[i] == n[i];
        SelectorInjective(a.value[i], b.value[i]);
      }
      assert a.value == b.value;
    }
  }

  lemma ResourceTypeInjective(a: ResourceType, b: ResourceType)
    requires ResourceTypeTree(a) == ResourceTypeTree(b)
    ensures a == b
  {
    hide SelectorsTree;
    var m, n := ResourceTypeTree(a).members, ResourceTypeTree(b).members;
    assert m[0] == n[0] && m[1] == n[1] && m[2] == n[2];
    SelectorsInjective(a.allow, b.allow);
    SelectorsInjective(a.deny, b.deny);
  }

  lemma ScopeInjective(a: seq<TypeEntry>, b: seq<TypeEntry>)
    requires ScopeTree(a) == ScopeTree(b)
    ensures a == b
  {
    hide ResourceTypeTree;
    var m, n := TypeMembers(a), TypeMembers(b);
    assert ScopeTree(a).members[0] == ScopeTree(b).members[0];
    assert m == n;
    forall i | 0 <= i < |a|
      ensures a[i] == b[i]
    {
      assert m[i] == n[i];
      ResourceTypeInjective(a[i].type_, b[i].type_);
    }
  }

  lemma ConstraintsInjective(a: Option<GlobalConstraints>, b: Option<GlobalConstraints>)
    requires ConstraintsTree(a) == ConstraintsTree(b)
    ensures a == b
  {
    if a.Some? {
      var v, w := a.value.time, b.value.time;
      assert ConstraintsTree(a).members[0] == ConstraintsTree(b).members[0];
      assert WindowTree(v) == WindowTree(w);
      if v.Some? {
        var m, n := WindowTree(v).members, WindowTree(w).members;
        assert m[0] == n[0] && m[1] == n[1];
      }
    }
  }

  lemma LeadingInjective(a: TransitionDocument, b: TransitionDocument)
    requires LeadingMembers(a) == LeadingMembers(b)
    ensures a.types == b.types && a.effectiveAt == b.effectiveAt && a.fromAuthority == b.fromAuthority
    ensures a.globalConstraints == b.globalConstraints && a.originAuthority == b.originAuthority
  {
    hide ScopeTree, ConstraintsTree;
    var m, n := LeadingMembers(a), LeadingMembers(b);
    assert m[0] == n[0] && m[1] == n[1] && m[2] == n[2] && m[3] == n[3] && m[4] == n[4];
    ScopeInjective(a.types, b.types);
    ConstraintsInjective(a.globalConstraints, b.globalConstraints);
  }

  lemma TrailingInjective(a: TransitionDocument, b: TransitionDocument)
    requires TrailingMembers(a) == TrailingMembers(b)
    ensures a.supersedesTransitionId == b.supersedesTransitionId && a.toAuthority == b.toAuthority
    ensures a.transitionId == b.transitionId && a.transitionSeriesId == b.transitionSeriesId && a.version == b.version
  {
    var m, n := TrailingMembers(a), TrailingMembers(b);
    assert m[0] == n[0] && m[1] == n[1] && m[2] == n[2] && m[3] == n[3] && m[4] == n[4];
  }

  /** Everything outside the two signature sections. */
  predicate SameTransfer(a: TransitionDocument, b: TransitionDocument) {
    b == a.(predecessorSignature := b.predecessorSignature, successorAcceptance := b.successorAcceptance)
  }

  /** Proposal bytes are equal exactly when every field outside the signature sections is. */
  lemma ProposalInjective(a: TransitionDocument, b: TransitionDocument)
    ensures ProposalBytes(a) == ProposalBytes(b) <==> SameTransfer(a, b)
  {
    hide Plain, Utf8, ScopeTree, ConstraintsTree, OptionalText;
    if ProposalBytes(a) == ProposalBytes(b) {
      var m, n := ProposalMembers(a), ProposalMembers(b);
      BytesInjective(Object(m), Object(n));
      ProposalParts(a);
      ProposalParts(b);
      LeadingInjective(a, b);
      TrailingInjective(a, b);
    }
  }

  lemma SignatureUnread(d: TransitionDocument, signature: string)
    ensures AcceptanceMembers(d.(successorAcceptance := d.successorAcceptance.(signature := signature)))
            == AcceptanceMembers(d)
  {
  }

  /** Acceptance bytes are equal exactly when every field but the successor's signature is. */
  lemma AcceptanceInjective(a: TransitionDocument, b: TransitionDocument)
    ensures AcceptanceBytes(a) == AcceptanceBytes(b) <==>
            b == a.(successorAcceptance := a.successorAcceptance.(signature := b.successorAcceptance.signature))
  {
    hide Plain, Utf8, LeadingMembers, TrailingMembers, SignatureTree, AcceptanceSection;
    if AcceptanceBytes(a) == AcceptanceBytes(b) {
      var m, n := AcceptanceMembers(a), AcceptanceMembers(b);
      BytesInjective(Object(m), Object(n));
      AcceptanceParts(a);
      AcceptanceParts(b);
      LeadingInjective(a, b);
      TrailingInjective(a, b);
      SectionsInjective(a, b);
    } else if b == a.(successorAcceptance := a.successorAcceptance.(signature := b.successorAcceptance.signature)) {
      SignatureUnread(a, b.successorAcceptance.signature);
    }
  }

  lemma SectionsInjective(a: TransitionDocument, b: TransitionDocument)
    requires SignatureTree(a.predecessorSignature) == SignatureTree(b.predecessorSignature)
    requires AcceptanceSection(a.successorAcceptance) == AcceptanceSection(b.successorAcceptance)
    ensures a.predecessorSignature == b.predecessorSignature
    ensures a.successorAcceptance.acceptedAt == b.successorAcceptance.acceptedAt
    ensures a.successorAcceptance.keyId == b.successorAcceptance.keyId
  {
    var m, n := SignatureTree(a.predecessorSignature).members, SignatureTree(b.predecessorSignature).members;
    var v, w := AcceptanceSection(a.successorAcceptance).members, AcceptanceSection(b.successorAcceptance).members;
    assert m[0] == n[0] && m[1] == n[1] && v[0] == w[0] && v[1] == w[1];
  }

  /** No document's proposal has the bytes of any document's acceptance. */
  lemma DomainsSeparate(a: TransitionDocument, b: TransitionDocument)
    ensures ProposalBytes(a) != AcceptanceBytes(b)
  {
    assert |ProposalMembers(a)| == 11 && |AcceptanceMembers(b)| == 13;
    if ProposalBytes(a) == AcceptanceBytes(b) {
      BytesInjective(Object(ProposalMembers(a)), Object(AcceptanceMembers(b)));
    }
  }
}

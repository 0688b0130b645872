/** What validation accepts and makes of raw documents, and what the validated grants then permit. */
module ValidationMeaning {
  import opened Wrappers
  import opened Text
  import opened Protocol
  import opened SelectorKinds
  import opened SelectorExpressions
  import opened ContextValues
  import opened Grants
  import opened Requests
  import opened Engine
  import opened EngineMeaning
  import opened Validation
  import opened DocumentValidation
  import opened Permutations
  import opened RearrangedInput
  import opened RearrangedDocument

  // ---- Texts ----

  /** The text is v with whitespace around it, and v has none at its ends. */
  ghost predicate Padded(text: string, v: string) {
    Trimmed(v) && exists before: string, after: string ::
      AllWhitespace(before) && AllWhitespace(after) && text == before + v + after
  }

  lemma TrimExact(text: string, v: string)
    ensures Trim(text) == v <==> Padded(text, v)
  {
    var b, a := TrimSplits(text);
    if before: string, after: string :|
      Trimmed(v) && AllWhitespace(before) && AllWhitespace(after) && text == before + v + after {
      TrimPadded(before, v, after);
    }
  }

  /** A bounded value is what is left between surrounding whitespace, non-empty and within the limit. */
  lemma BoundedExact(field: string, text: string, maxBytes: nat, v: string)
    ensures NormalizeBounded(field, text, maxBytes) == Ok(v)
            <==> Padded(text, v) && v != [] && |Utf8(v)| <= maxBytes
  {
    hide Trim, Utf8, Padded;
    TrimExact(text, v);
  }

  lemma BoundedIs(field: string, text: string, maxBytes: nat, bounded: string, v: string)
    requires NormalizeBounded(field, text, maxBytes) == Ok(bounded)
    ensures bounded == v <==> v != [] && Padded(text, v)
  {
    hide Padded, Utf8;
    BoundedExact(field, text, maxBytes, bounded);
    TrimExact(text, bounded);
    TrimExact(text, v);
  }

  ghost predicate Plainly(v: string) {
    forall i :: 0 <= i < |v| ==> !IsControl(v[i]) && !IsWhitespace(v[i])
  }

  /** A token is a bounded value without whitespace or control characters. */
  lemma TokenExact(field: string, text: string, maxBytes: nat, v: string)
    ensures NormalizeToken(field, text, maxBytes) == Ok(v)
            <==> Padded(text, v) && v != [] && |Utf8(v)| <= maxBytes && Plainly(v)
  {
    hide Utf8, Padded;
    BoundedExact(field, text, maxBytes, v);
    hide NormalizeBounded;
  }

  /** A kind keeps the text it was given, without the whitespace around it. */
  lemma KindExact(text: string, k: SelectorKind)
    ensures New(text) == Ok(k)
            <==> && k.classification == Classify(k.value)
                 && Padded(text, k.value) && k.value != [] && |Utf8(k.value)| <= MAX_SELECTOR_KIND_BYTES && Plainly(k.value)
  {
    hide Utf8, Padded, Classify, NormalizeToken;
    TokenExact("selector.kind", text, MAX_SELECTOR_KIND_BYTES, k.value);
  }

  /** What an insert resolves to: the kind and the value as given, without the whitespace around them. */
  lemma ResolveExact(kind: string, value: string, item: Item)
    ensures Resolve(kind, value) == Ok(item)
            <==> && New(kind) == Ok(item.kind)
                 && Padded(value, item.value) && item.value != []
                 && |Utf8(item.value)| <= MAX_REQUEST_SELECTOR_VALUE_BYTES
  {
    hide Utf8, Padded, New, NormalizeBounded;
    BoundedExact("selector_context.value", value, MAX_REQUEST_SELECTOR_VALUE_BYTES, item.value);
  }

  /** An authority is the lower-cased text without the whitespace around it, with a scheme before its first colon. */
  lemma AuthorityExact(text: string, lower: string -> string, a: string)
    ensures NewAuthority(text, lower) == Ok(a)
            <==> exists v: string ::
                   && Padded(text, v) && v != [] && |Utf8(v)| <= MAX_AUTHORITY_ID_BYTES && Plainly(v)
                   && a == lower(v) && |Utf8(a)| <= MAX_AUTHORITY_ID_BYTES && ':' in a && a[0] != ':'
  {
    hide Utf8, Padded;
    var trimmed := Trim(text);
    TrimExact(text, trimmed);
    forall v: string | Padded(text, v)
      ensures v == trimmed
    {
      TrimExact(text, v);
    }
    hide Trim;
    ColonFound(lower(trimmed));
    hide Find;
    if NewAuthority(text, lower) == Ok(a) {
      assert Padded(text, trimmed);
    }
  }

  lemma ColonFound(a: string)
    ensures ':' in a && a[0] != ':' <==> 0 < Find(a, ':') < |a|
  {
    var i := Find(a, ':');
    if i == |a| { assert a[..i] == a; }
  }

  // ---- Selectors ----

  /** The values of a validated selector: each raw value without the whitespace around it. */
  lemma ValuesExact(raw: Option<seq<string>>)
    requires NormalizedValues(raw).Ok?
    ensures forall v :: v in NormalizedValues(raw).value <==>
              v != [] && exists i :: 0 <= i < |raw.UnwrapOr([])| && Padded(raw.UnwrapOr([])[i], v)
    ensures NormalizedValues(raw).value == [] <==> raw.UnwrapOr([]) == []
  {
    hide Padded, FirstOccurrences, NormalizeBounded;
    var values := raw.UnwrapOr([]);
    var normalized := NormalizeAll(values).value;
    NormalizeAllMembers(values);
    FirstOccurrencesExact(normalized);
    var r := FirstOccurrences(normalized);
    forall v
      ensures v in r <==> v != [] && exists i :: 0 <= i < |values| && Padded(values[i], v)
    {
      if v in normalized {
        var i :| 0 <= i < |values| && normalized[i] == v;
        BoundedIs("selector.value", values[i], MAX_SELECTOR_VALUE_BYTES, normalized[i], v);
      }
      if i :| 0 <= i < |values| && v != [] && Padded(values[i], v) {
        BoundedIs("selector.value", values[i], MAX_SELECTOR_VALUE_BYTES, normalized[i], v);
      }
    }
    if values != [] { assert normalized[0] in r; }
    if r != [] { assert r[0] in normalized; }
  }

  lemma {:induction false} TrimTwice(s: string)
    ensures Trim(Trim(s)) == Trim(s)
  {
    assert "" + Trim(s) + "" == Trim(s);
    TrimPadded("", Trim(s), "");
  }

  lemma ExpressionParsed(text: string)
    ensures ExpressionOf(text).Ok? ==> ExpressionOf(text) == Parse(text)
  {
    hide QuotedArgument, ParsePredicate, Utf8, Trim;
    TrimTwice(text);
  }

  /** Expressions keep their order, each as its text parses. */
  lemma ExpressionsExact(raw: Option<seq<string>>)
    requires ValidateExpressions(raw).Ok?
    ensures var texts, es := raw.UnwrapOr([]), ValidateExpressions(raw).value;
            |es| == |texts| && forall i :: 0 <= i < |texts| ==> Parse(texts[i]) == Ok(es[i])
  {
    hide ExpressionOf, ParseExpressions, Parse;
    ParseExpressionsAt(raw.UnwrapOr([]));
    forall i | 0 <= i < |raw.UnwrapOr([])|
      ensures ExpressionOf(raw.UnwrapOr([])[i]).Ok? ==> ExpressionOf(raw.UnwrapOr([])[i]) == Parse(raw.UnwrapOr([])[i])
    {
      ExpressionParsed(raw.UnwrapOr([])[i]);
    }
  }

  /** A selector is valid exactly when its parts are and it either stands for all or lists something. */
  lemma SelectorExact(raw: RawSelector)
    ensures ValidateSelector(raw).Ok? <==>
            && New(raw.kind).Ok? && NormalizedValues(raw.values).Ok? && ValidateExpressions(raw.expressions).Ok?
            && (raw.all <==> raw.values.UnwrapOr([]) == [] && raw.expressions.UnwrapOr([]) == [])
    ensures ValidateSelector(raw).Ok? ==>
              var s := ValidateSelector(raw).value;
              && New(raw.kind) == Ok(s.kind) && s.all == raw.all
              && NormalizedValues(raw.values) == Ok(s.values) && ValidateExpressions(raw.expressions) == Ok(s.expressions)
  {
    if NormalizedValues(raw.values).Ok? { ValuesExact(raw.values); }
    if ValidateExpressions(raw.expressions).Ok? { ExpressionsExact(raw.expressions); }
    hide New, NormalizedValues, ValidateExpressions;
  }

  /** Some value of the selector's kind is one of its raw values, or as one of its raw expressions says. */
  ghost predicate RawHolds(raw: RawSelector, m: KindValues) {
    raw.all || exists k: SelectorKind, v: string ::
      && New(raw.kind) == Ok(k) && KeyOf(k) in m && v in m[KeyOf(k)]
      && RawAccepts(raw, v)
  }

  ghost predicate RawAccepts(raw: RawSelector, v: string) {
    || (v != [] && exists i :: 0 <= i < |raw.values.UnwrapOr([])| && Padded(raw.values.UnwrapOr([])[i], v))
    || exists i :: 0 <= i < |raw.expressions.UnwrapOr([])| && RawDescribes(raw.expressions.UnwrapOr([])[i], v)
  }

  ghost predicate RawDescribes(text: string, v: string) {
    Parse(text).Ok? && Describes(Parse(text).value, v)
  }

  lemma SelectorAccepts(raw: RawSelector, v: string)
    requires ValidateSelector(raw).Ok?
    ensures Accepts(ValidateSelector(raw).value, v) <==> RawAccepts(raw, v)
  {
    SelectorExact(raw);
    hide ValidateSelector, NormalizedValues, ValidateExpressions, Padded, Describes, Parse;
    var s := ValidateSelector(raw).value;
    ValuesExact(raw.values);
    ExpressionsExact(raw.expressions);
    var texts := raw.expressions.UnwrapOr([]);
    if e :| e in s.expressions && Describes(e, v) {
      var i :| 0 <= i < |s.expressions| && s.expressions[i] == e;
      assert RawDescribes(texts[i], v);
    }
    if i :| 0 <= i < |texts| && RawDescribes(texts[i], v) {
      assert s.expressions[i] in s.expressions;
    }
  }

  /** A validated selector holds of exactly the contexts its raw form speaks of. */
  lemma SelectorHolds(raw: RawSelector, m: KindValues)
    requires ValidateSelector(raw).Ok?
    ensures Holds(ValidateSelector(raw).value, m) <==> RawHolds(raw, m)
  {
    SelectorExact(raw);
    hide ValidateSelector, NormalizedValues, ValidateExpressions, RawAccepts, Accepts, New, KeyOf;
    var s := ValidateSelector(raw).value;
    forall v
      ensures Accepts(s, v) <==> RawAccepts(raw, v)
    {
      SelectorAccepts(raw, v);
    }
  }

  // ---- Scopes ----

  /** Few enough selectors, each valid, none repeated. */
  ghost predicate ListValid(raws: seq<RawSelector>) {
    && |raws| <= MAX_SELECTORS_PER_SCOPE
    && (forall i :: 0 <= i < |raws| ==> ValidateSelector(raws[i]).Ok?)
    && (forall i, j :: 0 <= i < j < |raws| ==>
          !SameSelector(ValidateSelector(raws[i]).value, ValidateSelector(raws[j]).value))
  }

  /** The validated selectors are the raw ones, each validated, in order. */
  ghost predicate Validates(raws: seq<RawSelector>, selectors: seq<Selector>) {
    |selectors| == |raws| && forall i :: 0 <= i < |raws| ==> ValidateSelector(raws[i]) == Ok(selectors[i])
  }

  lemma ListExact(raw: Option<seq<RawSelector>>)
    ensures ValidatedSelectors(raw).Ok? <==> ListValid(raw.UnwrapOr([]))
    ensures ValidatedSelectors(raw).Ok? ==> Validates(raw.UnwrapOr([]), ValidatedSelectors(raw).value)
  {
    hide ValidatedEach, ValidateSelector, SameSelector;
    ValidatedEachIff(raw.UnwrapOr([]));
  }

  /** A scope is valid exactly when both lists are and it allows all exactly when it lists nothing to allow;
      allowed and denied selectors are the validated raw ones, and the flag is the raw one. */
  lemma ScopeExact(scopeName: string, raw: RawScope)
    ensures ValidateScope(scopeName, raw).Ok? <==>
            ListValid(raw.allow.UnwrapOr([])) && ListValid(raw.deny.UnwrapOr([]))
            && (raw.all <==> raw.allow.UnwrapOr([]) == [])
    ensures ListValid(raw.allow.UnwrapOr([])) && ListValid(raw.deny.UnwrapOr([])) && ValidateScope(scopeName, raw).Err? ==>
              ValidateScope(scopeName, raw) == Err(InvalidScopeShape(scopeName))
    ensures ValidateScope(scopeName, raw).Ok? ==>
              var s := ValidateScope(scopeName, raw).value;
              && s.all == raw.all && Validates(raw.allow.UnwrapOr([]), s.allow) && Validates(raw.deny.UnwrapOr([]), s.deny)
  {
    ListExact(raw.allow);
    ListExact(raw.deny);
    hide ValidatedSelectors, ListValid, ValidateSelector;
  }

  ghost predicate SomeRawHolds(raws: seq<RawSelector>, m: KindValues) {
    exists i :: 0 <= i < |raws| && RawHolds(raws[i], m)
  }

  ghost predicate RawPermits(raw: RawScope, m: KindValues) {
    raw.all || SomeRawHolds(raw.allow.UnwrapOr([]), m)
  }

  ghost predicate RawRefuses(raw: RawScope, m: KindValues) {
    SomeRawHolds(raw.deny.UnwrapOr([]), m)
  }

  lemma ListHolds(raws: seq<RawSelector>, selectors: seq<Selector>, m: KindValues)
    requires Validates(raws, selectors)
    ensures SomeHolds(selectors, m) <==> SomeRawHolds(raws, m)
  {
    hide ValidateSelector, Holds, RawHolds;
    if s :| s in selectors && Holds(s, m) {
      var i :| 0 <= i < |raws| && selectors[i] == s;
      SelectorHolds(raws[i], m);
    }
    if i :| 0 <= i < |raws| && RawHolds(raws[i], m) {
      SelectorHolds(raws[i], m);
      assert selectors[i] in selectors;
    }
  }

  /** A validated scope admits what its raw allow list speaks of, and refuses what its raw deny list does. */
  lemma ScopeMeaning(scopeName: string, raw: RawScope, m: KindValues)
    requires ValidateScope(scopeName, raw).Ok?
    ensures Permits(ValidateScope(scopeName, raw).value, m) <==> RawPermits(raw, m)
    ensures Refuses(ValidateScope(scopeName, raw).value, m) <==> RawRefuses(raw, m)
  {
    ScopeExact(scopeName, raw);
    hide ValidateScope, Validates, ListValid, SomeHolds, SomeRawHolds;
    var s := ValidateScope(scopeName, raw).value;
    ListHolds(raw.allow.UnwrapOr([]), s.allow, m);
    ListHolds(raw.deny.UnwrapOr([]), s.deny, m);
  }

  /** Allow first, then deny, over the raw lists. */
  lemma ScopeDecides(scopeName: string, raw: RawScope, c: ContextValue, denied: DenyReason, notAllowed: DenyReason)
    requires ValidateScope(scopeName, raw).Ok? && WellBuilt(c)
    ensures EvaluateScopeWithReasons(ValidateScope(scopeName, raw).value, c, denied, notAllowed) ==
            if !RawPermits(raw, Meaning(c)) then Denied(notAllowed)
            else if RawRefuses(raw, Meaning(c)) then Denied(denied)
            else Allowed
  {
    hide WellBuilt, Meaning, ValidateScope, RawPermits, RawRefuses, Permits, Refuses, EvaluateScopeWithReasons;
    var s := ValidateScope(scopeName, raw).value;
    ScopeMeaning(scopeName, raw, Meaning(c));
    ScopeRefines(s, c, denied, notAllowed);
    var admitted, passed := Check(Permits(s, Meaning(c)), notAllowed), Check(!Refuses(s, Meaning(c)), denied);
    FirstFailureCons(admitted, [passed]);
    FirstFailureCons(passed, []);
  }

  // ---- Operations ----

  ghost predicate NamesValidated(raws: seq<string>, names: seq<string>) {
    |names| == |raws| && forall i :: 0 <= i < |raws| ==> OperationOf(raws[i]) == Ok(names[i])
  }

  lemma NamesExact(raw: Option<seq<string>>)
    ensures ValidateOperationNames(raw).Ok? <==>
            && |raw.UnwrapOr([])| <= MAX_OPERATIONS_PER_SCOPE
            && forall i :: 0 <= i < |raw.UnwrapOr([])| ==> OperationOf(raw.UnwrapOr([])[i]).Ok?
    ensures ValidateOperationNames(raw).Ok? ==> NamesValidated(raw.UnwrapOr([]), ValidateOperationNames(raw).value)
  {
    hide OperationOf, OperationNames;
    OperationNamesIff(raw.UnwrapOr([]));
  }

  lemma DistinctExact(names: seq<string>)
    ensures DistinctOperations(names) <==> NoDuplicates(names)
  {
  }

  /** Operations are valid exactly when some are allowed, each name is a token, and neither list repeats one. */
  lemma OperationsExact(raw: RawOperationScope)
    ensures ValidateOperationScope(raw).Ok? <==>
            && ValidateOperationNames(raw.allow).Ok? && ValidateOperationNames(raw.deny).Ok?
            && raw.allow.UnwrapOr([]) != []
            && NoDuplicates(ValidateOperationNames(raw.allow).value) && NoDuplicates(ValidateOperationNames(raw.deny).value)
    ensures ValidateOperationScope(raw).Ok? ==>
              && NamesValidated(raw.allow.UnwrapOr([]), ValidateOperationScope(raw).value.allow)
              && NamesValidated(raw.deny.UnwrapOr([]), ValidateOperationScope(raw).value.deny)
  {
    NamesExact(raw.allow);
    NamesExact(raw.deny);
    hide ValidateOperationNames, OperationOf, NoDuplicates, DistinctOperations;
    if ValidateOperationNames(raw.allow).Ok? { DistinctExact(ValidateOperationNames(raw.allow).value); }
    if ValidateOperationNames(raw.deny).Ok? { DistinctExact(ValidateOperationNames(raw.deny).value); }
  }

  /** The raw list names the operation, up to whitespace around it. */
  ghost predicate RawNames(raws: seq<string>, name: string) {
    exists i :: 0 <= i < |raws| && OperationOf(raws[i]) == Ok(name)
  }

  lemma NamedIn(raws: seq<string>, names: seq<string>, name: string)
    requires NamesValidated(raws, names)
    ensures name in names <==> RawNames(raws, name)
  {
    hide OperationOf;
    if name in names {
      var i :| 0 <= i < |names| && names[i] == name;
      assert OperationOf(raws[i]) == Ok(name);
    }
    if i :| 0 <= i < |raws| && OperationOf(raws[i]) == Ok(name) {
      assert names[i] == name;
    }
  }

  ghost predicate RawOperationPermitted(raw: Option<RawOperationScope>, operation: RequestedOperation) {
    match raw
    case None => operation == Capability(Recognize)
    case Some(scope) =>
      var name := match operation
                  case Capability(Recognize) => "recognize"
                  case Capability(Mint) => "create"
                  case Custom(custom) => custom;
      RawNames(scope.allow.UnwrapOr([]), name) && !RawNames(scope.deny.UnwrapOr([]), name)
  }

  lemma OperationDecides(raw: RawResourceType, type_: ResourceType, operation: RequestedOperation)
    requires ValidateOperations(raw.operations) == Ok(type_.operations)
    ensures OperationPermitted(type_, operation) <==> RawOperationPermitted(raw.operations, operation)
  {
    if raw.operations.Some? {
      OperationsExact(raw.operations.value);
      hide ValidateOperationScope, NamesValidated, RawNames;
      var allow, deny := raw.operations.value.allow.UnwrapOr([]), raw.operations.value.deny.UnwrapOr([]);
      var name := match operation
                  case Capability(Recognize) => "recognize"
                  case Capability(Mint) => "create"
                  case Custom(custom) => custom;
      NamedIn(allow, type_.operations.value.allow, name);
      NamedIn(deny, type_.operations.value.deny, name);
    }
  }
}

/** Selector expressions such as `startsWith("vip_")`: parser, printer and matching. */
module SelectorExpressions {
  import opened Wrappers
  import opened Text
  import opened Protocol

  datatype SelectorPredicate = Equals | StartsWith | EndsWith | Contains

  datatype SelectorExpression = SelectorExpression(op: SelectorPredicate, argument: string) {
    predicate Matches(candidate: string) {
      match op
      case Equals => candidate == argument
      case StartsWith => argument <= candidate
      case EndsWith => |argument| <= |candidate| && candidate[|candidate| - |argument|..] == argument
      case Contains => exists i :: 0 <= i <= |candidate| && OccursAt(argument, candidate, i)
    }
  }

  predicate OccursAt(part: string, whole: string, i: nat) {
    i + |part| <= |whole| && whole[i..i + |part|] == part
  }

  /** What an expression says of a candidate, with its argument at the start, at the end, or anywhere. */
  ghost predicate Describes(e: SelectorExpression, candidate: string) {
    match e.op
    case Equals => candidate == e.argument
    case StartsWith => exists rest: string :: candidate == e.argument + rest
    case EndsWith => exists head: string :: candidate == head + e.argument
    case Contains => exists head: string, rest: string :: candidate == head + e.argument + rest
  }

  lemma StartsExact(argument: string, candidate: string)
    ensures SelectorExpression(StartsWith, argument).Matches(candidate)
            <==> exists rest: string :: candidate == argument + rest
  {
    if argument <= candidate {
      assert candidate == argument + candidate[|argument|..];
    }
  }

  lemma EndsExact(argument: string, candidate: string)
    ensures SelectorExpression(EndsWith, argument).Matches(candidate)
            <==> exists head: string :: candidate == head + argument
  {
    if SelectorExpression(EndsWith, argument).Matches(candidate) {
      assert candidate == candidate[..|candidate| - |argument|] + argument;
    }
    forall head: string | candidate == head + argument
      ensures SelectorExpression(EndsWith, argument).Matches(candidate)
    {
      assert candidate[|candidate| - |argument|..] == argument;
    }
  }

  lemma OccursBetween(argument: string, candidate: string, i: nat)
    requires i <= |candidate| && OccursAt(argument, candidate, i)
    ensures candidate == candidate[..i] + argument + candidate[i + |argument|..]
  {
  }

  lemma BetweenOccurs(head: string, argument: string, rest: string)
    ensures OccursAt(argument, head + argument + rest, |head|)
  {
    assert (head + argument + rest)[|head|..|head| + |argument|] == argument;
  }

  lemma ContainsExact(argument: string, candidate: string)
    ensures SelectorExpression(Contains, argument).Matches(candidate)
            <==> exists head: string, rest: string :: candidate == head + argument + rest
  {
    hide OccursAt;
    if i: nat :| i <= |candidate| && OccursAt(argument, candidate, i) {
      OccursBetween(argument, candidate, i);
      assert exists head: string, rest: string :: candidate == head + argument + rest;
    }
    if head: string, rest: string :| candidate == head + argument + rest {
      BetweenOccurs(head, argument, rest);
      assert SelectorExpression(Contains, argument).Matches(candidate);
    }
  }

  /** Matching is exactly what each predicate is named for. */
  lemma MatchesExact(argument: string, candidate: string)
    ensures SelectorExpression(Equals, argument).Matches(candidate) <==> candidate == argument
    ensures SelectorExpression(StartsWith, argument).Matches(candidate)
            <==> exists rest: string :: candidate == argument + rest
    ensures SelectorExpression(EndsWith, argument).Matches(candidate)
            <==> exists head: string :: candidate == head + argument
    ensures SelectorExpression(Contains, argument).Matches(candidate)
            <==> exists head: string, rest: string :: candidate == head + argument + rest
  {
    EqualsExact(argument, candidate);
    hide SelectorExpression.Matches;
    StartsExact(argument, candidate);
    EndsExact(argument, candidate);
    ContainsExact(argument, candidate);
  }

  lemma EqualsExact(argument: string, candidate: string)
    ensures SelectorExpression(Equals, argument).Matches(candidate) <==> candidate == argument
  {
  }

  lemma MatchesDescribes(e: SelectorExpression, candidate: string)
    ensures e.Matches(candidate) <==> Describes(e, candidate)
  {
    MatchesExact(e.argument, candidate);
  }

  const FIELD := "selector.expression"

  // ---- Parsing ----

  function ParsePredicate(value: string): Result<SelectorPredicate, TrustGrantError> {
    if value == "equals" then Ok(Equals)
    else if value == "startsWith" then Ok(StartsWith)
    else if value == "endsWith" then Ok(EndsWith)
    else if value == "contains" then Ok(Contains)
    else Err(UnsupportedSelectorExpressionPredicate(value))
  }

  /** Index of the first c, or |s| when there is none. */
  function Find(s: string, c: char): (i: nat)
    ensures i <= |s|
    ensures i < |s| ==> s[i] == c
    ensures c !in s[..i]
  {
    if s == [] || s[0] == c then 0
    else
      var i := 1 + Find(s[1..], c);
      assert s[..i] == [s[0]] + s[1..][..i - 1];
      i
  }

  lemma {:induction false} FindAt(s: string, c: char, i: nat)
    requires i < |s| && s[i] == c && c !in s[..i]
    ensures Find(s, c) == i
  {
    if i > 0 {
      assert s[0] == s[..i][0];
      assert s[1..][..i - 1] == s[..i][1..];
      FindAt(s[1..], c, i - 1);
    }
  }

  function UnescapeChar(escaped: char): Option<char> {
    match escaped
    case '\\' => Some('\\')
    case '"' => Some('"')
    case 'n' => Some('\n')
    case 'r' => Some('\r')
    case 't' => Some('\t')
    case _ => None
  }

  function Prepend(c: char, rest: Option<string>): Option<string> {
    if rest.Some? then Some([c] + rest.value) else None
  }

  /** The text between the quotes with its escapes resolved; None when it is malformed. */
  function Unescape(inner: string): Option<string> {
    if inner == [] then Some([])
    else if inner[0] == '"' then None
    else if inner[0] == '\\' then
      if |inner| < 2 || UnescapeChar(inner[1]).None? then None
      else Prepend(UnescapeChar(inner[1]).value, Unescape(inner[2..]))
    else if IsControl(inner[0]) then None
    else Prepend(inner[0], Unescape(inner[1..]))
  }

  function Extend(parsed: string, rest: Option<string>): Option<string> {
    if rest.Some? then Some(parsed + rest.value) else None
  }

  lemma ExtendStep(parsed: string, c: char, rest: Option<string>)
    ensures Extend(parsed, Prepend(c, rest)) == Extend(parsed + [c], rest)
  {
    if rest.Some? {
      assert parsed + ([c] + rest.value) == (parsed + [c]) + rest.value;
    }
  }

  predicate Quoted(value: string) {
    |value| >= 2 && value[0] == '"' && value[|value| - 1] == '"'
  }

  function QuotedArgument(value: string): Result<string, TrustGrantError> {
    if !Quoted(value) then Err(InvalidSelectorExpressionSyntax)
    else
      var parsed := Unescape(value[1..|value| - 1]);
      if parsed.None? then Err(InvalidSelectorExpressionSyntax)
      else
        var _ :- EnsureStringLimit(FIELD, parsed.value, MAX_SELECTOR_EXPRESSION_BYTES);
        Ok(parsed.value)
  }

  /** Reads the characters between the quotes one by one, resolving escapes as they come. */
  method ParseQuotedArgument(value: string) returns (r: Result<string, TrustGrantError>)
    ensures r == QuotedArgument(value)
    ensures r.Ok? <==> exists argument :: QuotedOf(value, argument)
    ensures r.Ok? ==> QuotedOf(value, r.value)
  {
    QuotedArgumentInverse(value);
    if QuotedArgument(value).Ok? { QuotedArgumentGives(value); }
    if !Quoted(value) {
      return Err(InvalidSelectorExpressionSyntax);
    }
    var inner := value[1..|value| - 1];
    var chars, parsed := inner, "";
    assert Unescape(inner).Some? ==> parsed + Unescape(inner).value == Unescape(inner).value;
    while chars != []
      invariant Unescape(inner) == Extend(parsed, Unescape(chars))
      decreases |chars|
    {
      var character := chars[0];
      chars := chars[1..];
      if character == '"' {
        return Err(InvalidSelectorExpressionSyntax);
      }
      if character == '\\' {
        if chars == [] {
          return Err(InvalidSelectorExpressionSyntax);
        }
        var unescaped := UnescapeChar(chars[0]);
        chars := chars[1..];
        if unescaped.None? {
          return Err(InvalidSelectorExpressionSyntax);
        }
        ExtendStep(parsed, unescaped.value, Unescape(chars));
        parsed := parsed + [unescaped.value];
        continue;
      }
      if IsControl(character) {
        return Err(InvalidSelectorExpressionSyntax);
      }
      ExtendStep(parsed, character, Unescape(chars));
      parsed := parsed + [character];
    }
    assert parsed + [] == parsed;
    var limit := EnsureStringLimit(FIELD, parsed, MAX_SELECTOR_EXPRESSION_BYTES);
    if limit.Err? {
      return Err(limit.error);
    }
    return Ok(parsed);
  }

  /** The trimmed predicate name and the trimmed content of the parentheses. */
  datatype Parts = Parts(name: string, quoted: string)

  function Split(value: string): Result<Parts, TrustGrantError> {
    var text := Trim(value);
    if text == [] then Err(EmptyStringField(FIELD))
    else
      var _ :- EnsureStringLimit(FIELD, text, MAX_SELECTOR_EXPRESSION_BYTES);
      var open := Find(text, '(');
      if open == |text| || text[|text| - 1] != ')' then Err(InvalidSelectorExpressionSyntax)
      else Ok(Parts(Trim(text[..open]), Trim(text[open + 1..|text| - 1])))
  }

  function Parse(value: string): Result<SelectorExpression, TrustGrantError> {
    var parts :- Split(value);
    var op :- ParsePredicate(parts.name);
    var argument :- QuotedArgument(parts.quoted);
    Ok(SelectorExpression(op, argument))
  }

  // ---- Printing ----

  function PredicateText(p: SelectorPredicate): string {
    match p
    case Equals => "equals"
    case StartsWith => "startsWith"
    case EndsWith => "endsWith"
    case Contains => "contains"
  }

  function EscapeChar(c: char): string {
    match c
    case '\\' => "\\\\"
    case '"' => "\\\""
    case '\n' => "\\n"
    case '\r' => "\\r"
    case '\t' => "\\t"
    case _ => [c]
  }

  function Escape(s: string): string {
    if s == [] then [] else EscapeChar(s[0]) + Escape(s[1..])
  }

  function Print(e: SelectorExpression): string {
    PredicateText(e.op) + "(\"" + Escape(e.argument) + "\")"
  }

  /** Writes the expression character by character. */
  method Display(e: SelectorExpression) returns (text: string)
    ensures text == Print(e)
    ensures PrintableText(e.argument) && |Utf8(text)| <= MAX_SELECTOR_EXPRESSION_BYTES ==> Parse(text) == Ok(e)
  {
    text := PredicateText(e.op) + "(\"";
    ghost var opening := text;
    var rest := e.argument;
    assert text + Escape(rest) == opening + Escape(e.argument);
    while rest != []
      invariant text + Escape(rest) == opening + Escape(e.argument)
      decreases |rest|
    {
      var character := rest[0];
      assert Escape(rest) == EscapeChar(character) + Escape(rest[1..]);
      text := text + EscapeChar(character);
      rest := rest[1..];
    }
    assert text == opening + Escape(e.argument);
    text := text + "\")";
    assert text == Print(e);
    ParsePrinted(e);
  }

  // ---- They undo each other ----

  /** The printer has an escape for only three control characters; the parser takes no raw one. */
  predicate PrintableText(s: string) {
    forall i :: 0 <= i < |s| ==> IsControl(s[i]) ==> s[i] in "\n\r\t"
  }

  lemma {:induction false} UnescapeEscape(s: string)
    ensures Unescape(Escape(s)) == if PrintableText(s) then Some(s) else None
  {
    if s != [] {
      var c, rest := s[0], Escape(s[1..]);
      var t := Escape(s);
      UnescapeEscape(s[1..]);
      assert s == [c] + s[1..];
      assert PrintableText(s) <==> (IsControl(c) ==> c in "\n\r\t") && PrintableText(s[1..]);
      if EscapeChar(c) == [c] {
        assert t[0] == c && t[1..] == rest;
      } else {
        assert t[0] == '\\' && t[1] == EscapeChar(c)[1] && t[2..] == rest;
      }
    }
  }

  lemma EscapeFront(c: char, rest: string)
    requires PrintableText(rest) && (IsControl(c) ==> c in "\n\r\t")
    ensures Escape([c] + rest) == EscapeChar(c) + Escape(rest) && PrintableText([c] + rest)
  {
    var s := [c] + rest;
    assert s[0] == c && s[1..] == rest;
    assert forall i :: 0 < i < |s| ==> s[i] == rest[i - 1];
  }

  lemma {:induction false} EscapeUnescape(inner: string)
    requires Unescape(inner).Some?
    ensures Escape(Unescape(inner).value) == inner
    ensures PrintableText(Unescape(inner).value)
  {
    if inner != [] {
      if inner[0] == '\\' {
        var c := UnescapeChar(inner[1]).value;
        EscapeUnescape(inner[2..]);
        EscapeFront(c, Unescape(inner[2..]).value);
        assert EscapeChar(c) == [inner[0], inner[1]];
        assert inner == [inner[0], inner[1]] + inner[2..];
      } else {
        EscapeUnescape(inner[1..]);
        EscapeFront(inner[0], Unescape(inner[1..]).value);
        assert inner == [inner[0]] + inner[1..];
      }
    }
  }

  lemma {:induction false} EscapeNeverShrinks(s: string)
    ensures |Utf8(s)| <= |Utf8(Escape(s))|
  {
    if s != [] {
      EscapeNeverShrinks(s[1..]);
      Utf8Concat(EscapeChar(s[0]), Escape(s[1..]));
      assert EscapeChar(s[0])[1..] == [] || |EscapeChar(s[0])| == 2;
    }
  }

  /** value is the escaped argument between quotes, and the argument is one the parser takes. */
  ghost predicate QuotedOf(value: string, argument: string) {
    && value == "\"" + Escape(argument) + "\""
    && PrintableText(argument) && |Utf8(argument)| <= MAX_SELECTOR_EXPRESSION_BYTES
  }

  lemma QuotedArgumentGives(value: string)
    requires QuotedArgument(value).Ok?
    ensures QuotedOf(value, QuotedArgument(value).value)
  {
    hide Escape, Unescape, PrintableText, Utf8, Quoted;
    QuotedArgumentValue(value);
    Unwrapped(value);
    EscapeUnescape(value[1..|value| - 1]);
  }

  lemma QuotedArgumentValue(value: string)
    requires QuotedArgument(value).Ok?
    ensures Quoted(value) && Unescape(value[1..|value| - 1]) == Some(QuotedArgument(value).value)
    ensures |Utf8(QuotedArgument(value).value)| <= MAX_SELECTOR_EXPRESSION_BYTES
  {
    hide Unescape, Utf8;
  }

  lemma Unwrapped(value: string)
    requires Quoted(value)
    ensures value == "\"" + value[1..|value| - 1] + "\""
  {
    assert value == ['"'] + value[1..|value| - 1] + ['"'];
  }

  lemma QuotedArgumentInverse(value: string)
    ensures QuotedArgument(value).Ok? <==> exists argument :: QuotedOf(value, argument)
  {
    if QuotedArgument(value).Ok? {
      QuotedArgumentGives(value);
    }
    forall argument | QuotedOf(value, argument)
      ensures QuotedArgument(value).Ok?
    {
      QuotedArgumentOf(argument);
    }
  }

  lemma QuotedArgumentOf(argument: string)
    requires |Utf8(argument)| <= MAX_SELECTOR_EXPRESSION_BYTES
    ensures QuotedArgument("\"" + Escape(argument) + "\"")
            == if PrintableText(argument) then Ok(argument) else Err(InvalidSelectorExpressionSyntax)
  {
    var value := "\"" + Escape(argument) + "\"";
    assert value[1..|value| - 1] == Escape(argument);
    UnescapeEscape(argument);
  }

  /** The whitespace an accepted text may carry: around it, around the predicate, inside the parentheses. */
  datatype Padding = Padding(before: string, beforeOpen: string, afterOpen: string, beforeClose: string, after: string) {
    predicate Blank() {
      && AllWhitespace(before) && AllWhitespace(beforeOpen) && AllWhitespace(afterOpen)
      && AllWhitespace(beforeClose) && AllWhitespace(after)
    }

    /** The trimmed text these parts are spaced out to. */
    function Inner(parts: Parts): string {
      (parts.name + beforeOpen) + "(" + (afterOpen + parts.quoted + beforeClose) + ")"
    }

    function Layout(parts: Parts): string {
      before + Inner(parts) + after
    }
  }

  predicate ProperParts(parts: Parts) {
    parts.name != [] && Trimmed(parts.name) && '(' !in parts.name && Trimmed(parts.quoted)
  }

  lemma InnerShape(p: Padding, parts: Parts)
    requires p.Blank() && ProperParts(parts)
    ensures Trimmed(p.Inner(parts)) && p.Inner(parts) != []
    ensures Find(p.Inner(parts), '(') == |parts.name + p.beforeOpen|
  {
    var c, head := p.Inner(parts), parts.name + p.beforeOpen;
    assert c[|head|] == '(' && c[|c| - 1] == ')';
    assert c[0] == parts.name[0];
    assert c[..|head|] == head;
    FindAt(c, '(', |head|);
  }

  lemma SplitLayout(p: Padding, parts: Parts)
    requires p.Blank() && ProperParts(parts)
    ensures Trim(p.Layout(parts)) == p.Inner(parts)
    ensures Split(p.Layout(parts)) ==
            if |Utf8(p.Inner(parts))| > MAX_SELECTOR_EXPRESSION_BYTES then
              Err(StringTooLong(FIELD, MAX_SELECTOR_EXPRESSION_BYTES))
            else Ok(parts)
  {
    var c := p.Inner(parts);
    InnerShape(p, parts);
    TrimPadded(p.before, c, p.after);
    var open := Find(c, '(');
    assert c[..open] == "" + parts.name + p.beforeOpen;
    TrimPadded("", parts.name, p.beforeOpen);
    assert c[open + 1..|c| - 1] == p.afterOpen + parts.quoted + p.beforeClose;
    TrimPadded(p.afterOpen, parts.quoted, p.beforeClose);
  }

  lemma CutAtParentheses(text: string, open: nat)
    requires open + 1 < |text| && text[open] == '(' && text[|text| - 1] == ')'
    ensures text == text[..open] + "(" + text[open + 1..|text| - 1] + ")"
  {
  }

  lemma SpacedOut(text: string, open: nat) returns (beforeOpen: string, afterOpen: string, beforeClose: string)
    requires Trimmed(text) && open + 1 < |text| && text[open] == '(' && text[|text| - 1] == ')'
    ensures AllWhitespace(beforeOpen) && AllWhitespace(afterOpen) && AllWhitespace(beforeClose)
    ensures var name, quoted := Trim(text[..open]), Trim(text[open + 1..|text| - 1]);
            text == (name + beforeOpen) + "(" + (afterOpen + quoted + beforeClose) + ")"
  {
    var blank;
    blank, beforeOpen := TrimSplits(text[..open]);
    afterOpen, beforeClose := TrimSplits(text[open + 1..|text| - 1]);
    CutAtParentheses(text, open);
    assert text[..open] == Trim(text[..open]) + beforeOpen;
  }

  lemma SplitInverse(value: string) returns (p: Padding)
    requires Split(value).Ok?
    ensures p.Blank() && value == p.Layout(Split(value).value)
  {
    var text := Trim(value);
    var before, after := TrimSplits(value);
    var beforeOpen, afterOpen, beforeClose := SpacedOut(text, Find(text, '('));
    p := Padding(before, beforeOpen, afterOpen, beforeClose, after);
  }

  /** How e is spelled before spacing. */
  function Spelling(e: SelectorExpression): Parts {
    Parts(PredicateText(e.op), "\"" + Escape(e.argument) + "\"")
  }

  lemma SpellingProper(e: SelectorExpression)
    ensures ProperParts(Spelling(e)) && ParsePredicate(Spelling(e).name) == Ok(e.op)
  {
  }

  lemma ParseNames(name: string)
    requires ParsePredicate(name).Ok?
    ensures PredicateText(ParsePredicate(name).value) == name
  {
  }

  lemma ArgumentFits(e: SelectorExpression, p: Padding)
    ensures |Utf8(e.argument)| <= |Utf8(p.Inner(Spelling(e)))|
  {
    hide Utf8, Escape;
    var parts := Spelling(e);
    EscapeNeverShrinks(e.argument);
    var l := parts.name + p.beforeOpen + "(" + p.afterOpen + "\"";
    var r := "\"" + p.beforeClose + ")";
    assert p.Inner(parts) == l + (Escape(e.argument) + r);
    Utf8Concat(l, Escape(e.argument) + r);
    Utf8Concat(Escape(e.argument), r);
  }

  /** Parsing any spaced-out spelling of e: the outcome in every case. */
  lemma ParseLayout(e: SelectorExpression, p: Padding)
    requires p.Blank()
    ensures Parse(p.Layout(Spelling(e))) ==
            if |Utf8(p.Inner(Spelling(e)))| > MAX_SELECTOR_EXPRESSION_BYTES then
              Err(StringTooLong(FIELD, MAX_SELECTOR_EXPRESSION_BYTES))
            else if !PrintableText(e.argument) then Err(InvalidSelectorExpressionSyntax)
            else Ok(e)
  {
    SpellingProper(e);
    SplitLayout(p, Spelling(e));
    ArgumentFits(e, p);
    if |Utf8(e.argument)| <= MAX_SELECTOR_EXPRESSION_BYTES {
      QuotedArgumentOf(e.argument);
    }
  }

  ghost predicate Spells(value: string, e: SelectorExpression, p: Padding) {
    p.Blank() && value == p.Layout(Spelling(e))
  }

  lemma ParsedSpells(value: string) returns (p: Padding)
    requires Parse(value).Ok?
    ensures Spells(value, Parse(value).value, p)
    ensures PrintableText(Parse(value).value.argument)
  {
    p := SplitInverse(value);
    var parts := Split(value).value;
    ParseNames(parts.name);
    QuotedArgumentGives(parts.quoted);
  }

  /** The accepted language: the parser yields e exactly on the spaced-out spellings of e. */
  lemma AcceptedTexts(value: string, e: SelectorExpression)
    ensures Parse(value) == Ok(e) <==>
            && (exists p :: Spells(value, e, p))
            && PrintableText(e.argument) && |Utf8(Trim(value))| <= MAX_SELECTOR_EXPRESSION_BYTES
  {
    if Parse(value) == Ok(e) {
      var p := ParsedSpells(value);
    }
    forall p | Spells(value, e, p)
      ensures Parse(value) == Ok(e) <==>
              PrintableText(e.argument) && |Utf8(Trim(value))| <= MAX_SELECTOR_EXPRESSION_BYTES
    {
      ParseLayout(e, p);
      SpellingProper(e);
      SplitLayout(p, Spelling(e));
    }
  }

  /** Parsing a printed expression: the outcome for every expression, success or not. */
  lemma ParsePrinted(e: SelectorExpression)
    ensures Parse(Print(e)) ==
            if |Utf8(Print(e))| > MAX_SELECTOR_EXPRESSION_BYTES then
              Err(StringTooLong(FIELD, MAX_SELECTOR_EXPRESSION_BYTES))
            else if !PrintableText(e.argument) then Err(InvalidSelectorExpressionSyntax)
            else Ok(e)
  {
    var p := Padding("", "", "", "", "");
    PrintIsInner(e);
    assert p.Layout(Spelling(e)) == p.Inner(Spelling(e));
    ParseLayout(e, p);
  }

  lemma PrintIsInner(e: SelectorExpression)
    ensures Print(e) == Padding("", "", "", "", "").Inner(Spelling(e))
    ensures Print(e) == Spelling(e).name + "(" + Spelling(e).quoted + ")"
  {
    hide Escape, PredicateText;
    var parts := Spelling(e);
    assert parts.name + "" == parts.name && "" + parts.quoted + "" == parts.quoted;
    assert Print(e) == parts.name + "(" + parts.quoted + ")";
  }

  /** Printing what was parsed gives the text back with only the padding removed. */
  lemma PrintParsed(value: string) returns (p: Padding, parts: Parts)
    requires Parse(value).Ok?
    ensures p.Blank() && value == p.Layout(parts)
    ensures Print(Parse(value).value) == parts.name + "(" + parts.quoted + ")"
  {
    p := ParsedSpells(value);
    parts := Spelling(Parse(value).value);
    PrintIsInner(Parse(value).value);
  }

  // ---- What the texts say ----

  /** The escapes: a backslash before backslash, quote, n, r or t stands for that character or line control. */
  lemma EscapesExact(c: char)
    ensures UnescapeChar(c) ==
            if c == '\\' then Some(0x5C as char)
            else if c == '"' then Some(0x22 as char)
            else if c == 'n' then Some(0x0A as char)
            else if c == 'r' then Some(0x0D as char)
            else if c == 't' then Some(0x09 as char)
            else None
    ensures |EscapeChar(c)| == (if c as int in [0x5C, 0x22, 0x0A, 0x0D, 0x09] then 2 else 1)
    ensures |EscapeChar(c)| == 2 ==> EscapeChar(c)[0] == '\\' && UnescapeChar(EscapeChar(c)[1]) == Some(c)
    ensures |EscapeChar(c)| == 1 ==> EscapeChar(c) == [c]
  {
  }

  /** The text of an expression with this predicate name and escaped argument. */
  function Written(name: string, argument: string): string {
    name + "(\"" + Escape(argument) + "\")"
  }

  ghost predicate Writable(name: string, argument: string) {
    PrintableText(argument) && |Utf8(Written(name, argument))| <= MAX_SELECTOR_EXPRESSION_BYTES
  }

  lemma ParsedName(op: SelectorPredicate, argument: string)
    requires Writable(PredicateText(op), argument)
    ensures Parse(Written(PredicateText(op), argument)) == Ok(SelectorExpression(op, argument))
  {
    hide Escape, Utf8;
    var e := SelectorExpression(op, argument);
    ParsePrinted(e);
    assert Print(e) == Written(PredicateText(op), argument);
  }

  /** What each written predicate matches, from its text to the candidates. */
  lemma TextsMatch(argument: string, candidate: string)
    ensures Writable("equals", argument) ==>
              && Parse(Written("equals", argument)).Ok?
              && (Parse(Written("equals", argument)).value.Matches(candidate) <==> candidate == argument)
    ensures Writable("startsWith", argument) ==>
              && Parse(Written("startsWith", argument)).Ok?
              && (Parse(Written("startsWith", argument)).value.Matches(candidate)
                  <==> exists rest: string :: candidate == argument + rest)
    ensures Writable("endsWith", argument) ==>
              && Parse(Written("endsWith", argument)).Ok?
              && (Parse(Written("endsWith", argument)).value.Matches(candidate)
                  <==> exists head: string :: candidate == head + argument)
    ensures Writable("contains", argument) ==>
              && Parse(Written("contains", argument)).Ok?
              && (Parse(Written("contains", argument)).value.Matches(candidate)
                  <==> exists head: string, rest: string :: candidate == head + argument + rest)
  {
    hide Parse, Written, Writable, SelectorExpression.Matches;
    MatchesExact(argument, candidate);
    if Writable("equals", argument) { ParsedName(Equals, argument); }
    if Writable("startsWith", argument) { ParsedName(StartsWith, argument); }
    if Writable("endsWith", argument) { ParsedName(EndsWith, argument); }
    if Writable("contains", argument) { ParsedName(Contains, argument); }
  }
}

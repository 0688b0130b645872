/** JSON trees and their canonical form (sections 3.2.2 and 3.2.3 of RFC 8785). */
module JsonTrees {
  import opened Text
  import opened Ordering

  datatype Json =
    | Null
    | Bool(flag: bool)
    | Number(n: nat)
    | Str(text: string)
    | Array(items: seq<Json>)
    | Object(members: seq<Member>)

  datatype Member = Member(name: string, value: Json)

  // ---- Strings ----

  function HexDigit(n: nat): char
    requires n < 16
  {
    "0123456789abcdef"[n]
  }

  function EscapeJsonChar(c: char): string {
    if c == '"' then "\\\""
    else if c == '\\' then "\\\\"
    else if c == '\U{08}' then "\\b"
    else if c == '\t' then "\\t"
    else if c == '\n' then "\\n"
    else if c == '\U{0C}' then "\\f"
    else if c == '\r' then "\\r"
    else if c as int < 0x20 then ['\\', 'u', '0', '0', HexDigit(c as int / 16), HexDigit(c as int % 16)]
    else [c]
  }

  function EscapeJson(s: string): string {
    if s == [] then [] else EscapeJsonChar(s[0]) + EscapeJson(s[1..])
  }

  function JsonString(s: string): string {
    ['"'] + EscapeJson(s) + ['"']
  }

  // ---- Serialization ----

  function Plain(j: Json): string
    decreases j, 1
  {
    match j
    case Null => "null"
    case Bool(flag) => if flag then "true" else "false"
    case Number(n) => Decimal(n)
    case Str(text) => JsonString(text)
    case Array(items) => ['['] + PlainItems(items) + [']']
    case Object(members) => ['{'] + PlainMembers(members) + ['}']
  }

  function PlainItems(items: seq<Json>): string
    decreases items, 0
  {
    if items == [] then [] else Plain(items[0]) + MoreItems(items[1..])
  }

  function MoreItems(items: seq<Json>): string
    decreases items, 0
  {
    if items == [] then [] else [','] + Plain(items[0]) + MoreItems(items[1..])
  }

  function PlainMember(m: Member): string
    decreases m, 2
  {
    JsonString(m.name) + [':'] + Plain(m.value)
  }

  function PlainMembers(members: seq<Member>): string
    decreases members, 0
  {
    if members == [] then [] else PlainMember(members[0]) + MoreMembers(members[1..])
  }

  function MoreMembers(members: seq<Member>): string
    decreases members, 0
  {
    if members == [] then [] else [','] + PlainMember(members[0]) + MoreMembers(members[1..])
  }

  // ---- Canonical form ----

  function KeyedMembers(members: seq<Member>): (r: seq<Keyed<Member>>)
    ensures |r| == |members| && forall i :: 0 <= i < |r| ==> r[i] == Keyed(Utf16(members[i].name), members[i])
  {
    seq(|members|, i requires 0 <= i < |members| => Keyed(Utf16(members[i].name), members[i]))
  }

  function StripMembers(ks: seq<Keyed<Member>>): (r: seq<Member>)
    ensures |r| == |ks| && forall i :: 0 <= i < |r| ==> r[i] == ks[i].item
  {
    seq(|ks|, i requires 0 <= i < |ks| => ks[i].item)
  }

  function SortMembers(members: seq<Member>): seq<Member> {
    StripMembers(Sort(KeyedMembers(members)))
  }

  /** The tree with the members of every object sorted by UTF-16 order of their names. */
  function Normalize(j: Json): Json
    decreases j, 1
  {
    match j
    case Array(items) => Array(NormalizeItems(items))
    case Object(members) => Object(SortMembers(NormalizeMembers(members)))
    case _ => j
  }

  function NormalizeItems(items: seq<Json>): seq<Json>
    decreases items, 0
  {
    if items == [] then [] else [Normalize(items[0])] + NormalizeItems(items[1..])
  }

  function NormalizeMembers(members: seq<Member>): seq<Member>
    decreases members, 0
  {
    if members == [] then []
    else [Member(members[0].name, Normalize(members[0].value))] + NormalizeMembers(members[1..])
  }

  // ---- How serializations start and end ----

  /** What may follow a value: nothing, or a character no value continues with. */
  predicate Ends(x: string) {
    x == [] || x[0] in ",]}"
  }

  /** What a value starts with. */
  function Sign(j: Json): char {
    match j
    case Null => 'n'
    case Bool(flag) => if flag then 't' else 'f'
    case Number(_) => '0'
    case Str(_) => '"'
    case Array(_) => '['
    case Object(_) => '{'
  }

  lemma PlainStarts(j: Json)
    ensures Plain(j) != []
    ensures Plain(j)[0] == Sign(j) || (j.Number? && IsDigit(Plain(j)[0]))
    ensures !Ends([Plain(j)[0]])
  {
  }

  lemma MoreItemsStarts(a: seq<Json>, x: string)
    requires x != [] && x[0] == ']'
    ensures MoreItems(a) + x != [] && (MoreItems(a) + x)[0] == (if a == [] then ']' else ',')
  {
  }

  lemma MoreMembersStarts(a: seq<Member>, x: string)
    requires x != [] && x[0] == '}'
    ensures MoreMembers(a) + x != [] && (MoreMembers(a) + x)[0] == (if a == [] then '}' else ',')
  {
  }

  lemma MembersStart(a: seq<Member>, x: string)
    requires x != [] && x[0] == '}'
    ensures PlainMembers(a) + x != []
    ensures if a == [] then PlainMembers(a) + x == x else (PlainMembers(a) + x)[0] == '"'
  {
  }
}

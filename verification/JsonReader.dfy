/** A reader for serialized JSON (RFC 8259, without insignificant whitespace), and that it reads back what is written. */
module JsonReaders {
  import opened Wrappers
  import opened Text
  import opened JsonTrees

  datatype Read<+T> = Read(value: T, rest: string)

  // ---- The reader ----

  function DigitsValue(t: string, value: nat): (r: Read<nat>)
    ensures |r.rest| <= |t|
  {
    if t != [] && '0' <= t[0] <= '9' then DigitsValue(t[1..], 10 * value + (t[0] as int - 48)) else Read(value, t)
  }

  function HexValue(c: char): Option<nat> {
    if '0' <= c <= '9' then Some(c as int - 48)
    else if 'a' <= c <= 'f' then Some(c as int - 87)
    else if 'A' <= c <= 'F' then Some(c as int - 55)
    else None
  }

  /** The character of an escape, after its backslash, with what follows it. */
  function ReadEscape(t: string): (r: Option<Read<char>>)
    ensures r.Some? ==> |r.value.rest| < |t|
  {
    if t == [] then None
    else if t[0] == '"' then Some(Read(0x22 as char, t[1..]))
    else if t[0] == '\\' then Some(Read(0x5C as char, t[1..]))
    else if t[0] == '/' then Some(Read(0x2F as char, t[1..]))
    else if t[0] == 'b' then Some(Read(0x08 as char, t[1..]))
    else if t[0] == 'f' then Some(Read(0x0C as char, t[1..]))
    else if t[0] == 'n' then Some(Read(0x0A as char, t[1..]))
    else if t[0] == 'r' then Some(Read(0x0D as char, t[1..]))
    else if t[0] == 't' then Some(Read(0x09 as char, t[1..]))
    else if t[0] == 'u' && |t| >= 5 && HexValue(t[1]).Some? && HexValue(t[2]).Some? && HexValue(t[3]).Some?
            && HexValue(t[4]).Some? then
      var n := ((HexValue(t[1]).value * 16 + HexValue(t[2]).value) * 16 + HexValue(t[3]).value) * 16 + HexValue(t[4]).value;
      if n < 0xD800 then Some(Read(n as char, t[5..])) else None
    else None
  }

  /** The rest of a string after its opening quote. */
  function ReadString(t: string): (r: Option<Read<string>>)
    ensures r.Some? ==> |r.value.rest| < |t|
    decreases |t|
  {
    if t == [] || t[0] as int < 0x20 then None
    else if t[0] == '"' then Some(Read("", t[1..]))
    else
      var first := if t[0] == '\\' then ReadEscape(t[1..]) else Some(Read(t[0], t[1..]));
      if first.None? then None
      else
        var others := ReadString(first.value.rest);
        if others.None? then None else Some(Read([first.value.value] + others.value.value, others.value.rest))
  }

  function ReadValue(t: string): (r: Option<Read<Json>>)
    ensures r.Some? ==> |r.value.rest| < |t|
    decreases |t|, 2
  {
    if t == [] then None
    else if "null" <= t then Some(Read(Null, t[4..]))
    else if "true" <= t then Some(Read(Bool(true), t[4..]))
    else if "false" <= t then Some(Read(Bool(false), t[5..]))
    else if '0' <= t[0] <= '9' then
      var digits := DigitsValue(t[1..], t[0] as int - 48);
      Some(Read(Number(digits.value), digits.rest))
    else if t[0] == '"' then
      var s := ReadString(t[1..]);
      if s.None? then None else Some(Read(Str(s.value.value), s.value.rest))
    else if t[0] == '[' then
      var items := if "[]" <= t then Some(Read([], t[2..])) else ReadItems(t[1..]);
      if items.None? then None else Some(Read(Array(items.value.value), items.value.rest))
    else if t[0] == '{' then
      var members := if "{}" <= t then Some(Read([], t[2..])) else ReadMembers(t[1..]);
      if members.None? then None else Some(Read(Object(members.value.value), members.value.rest))
    else None
  }

  /** Items up to the closing bracket. */
  function ReadItems(t: string): (r: Option<Read<seq<Json>>>)
    ensures r.Some? ==> |r.value.rest| < |t|
    decreases |t|, 3
  {
    var item := ReadValue(t);
    if item.None? || item.value.rest == [] then None
    else if item.value.rest[0] == ']' then Some(Read([item.value.value], item.value.rest[1..]))
    else if item.value.rest[0] == ',' then
      var others := ReadItems(item.value.rest[1..]);
      if others.None? then None else Some(Read([item.value.value] + others.value.value, others.value.rest))
    else None
  }

  /** A quoted name, a colon and a value. */
  function ReadMember(t: string): (r: Option<Read<Member>>)
    ensures r.Some? ==> |r.value.rest| < |t|
    decreases |t|, 3
  {
    if t == [] || t[0] != '"' then None
    else
      var name := ReadString(t[1..]);
      if name.None? || name.value.rest == [] || name.value.rest[0] != ':' then None
      else
        var value := ReadValue(name.value.rest[1..]);
        if value.None? then None else Some(Read(Member(name.value.value, value.value.value), value.value.rest))
  }

  /** Members up to the closing brace. */
  function ReadMembers(t: string): (r: Option<Read<seq<Member>>>)
    ensures r.Some? ==> |r.value.rest| < |t|
    decreases |t|, 4
  {
    var member := ReadMember(t);
    if member.None? || member.value.rest == [] then None
    else if member.value.rest[0] == '}' then Some(Read([member.value.value], member.value.rest[1..]))
    else if member.value.rest[0] == ',' then
      var others := ReadMembers(member.value.rest[1..]);
      if others.None? then None else Some(Read([member.value.value] + others.value.value, others.value.rest))
    else None
  }

  // ---- What is written is read back ----

  lemma {:induction false} DigitsSplit(d: string, x: string, value: nat)
    requires AllDigits(d) && !StartsWithDigit(x)
    ensures DigitsValue(d + x, value) == Read(DigitsValue(d, value).value, x)
    decreases |d|
  {
    if d == [] {
      assert d + x == x;
    } else {
      assert (d + x)[1..] == d[1..] + x;
      DigitsSplit(d[1..], x, 10 * value + (d[0] as int - 48));
    }
  }

  lemma {:induction false} DigitsAppend(d: string, c: char, value: nat)
    requires AllDigits(d) && IsDigit(c)
    ensures DigitsValue(d + [c], value).value == 10 * DigitsValue(d, value).value + (c as int - 48)
    decreases |d|
  {
    if d == [] {
      assert d + [c] == [c] && [c][1..] == [];
    } else {
      assert (d + [c])[1..] == d[1..] + [c];
      DigitsAppend(d[1..], c, 10 * value + (d[0] as int - 48));
    }
  }

  /** The decimal digits of a number have that number as their value. */
  lemma {:induction false} DecimalValue(n: nat)
    ensures DigitsValue(Decimal(n), 0).value == n
    ensures n > 0 ==> Decimal(n)[0] != '0'
  {
    var digit := ('0' as int + n % 10) as char;
    if n < 10 {
      assert Decimal(n) == [] + [digit];
      DigitsAppend([], digit, 0);
    } else {
      DecimalValue(n / 10);
      DigitsAppend(Decimal(n / 10), digit, 0);
      assert Decimal(n) == Decimal(n / 10) + [digit];
      assert Decimal(n)[0] == Decimal(n / 10)[0];
    }
  }

  lemma HexDigitValue(n: nat)
    requires n < 16
    ensures HexValue(HexDigit(n)) == Some(n)
  {
  }

  /** Every character is read back from its written form. */
  lemma EscapeCharRead(c: char, x: string)
    ensures var w := EscapeJsonChar(c) + x;
            && w[0] as int >= 0x20 && w[0] != '"'
            && (w[0] == '\\' ==> ReadEscape(w[1..]) == Some(Read(c, x)))
            && (w[0] != '\\' ==> w[0] == c && w[1..] == x)
  {
    var w := EscapeJsonChar(c) + x;
    if c as int < 0x20 {
      HexDigitValue(c as int / 16);
      HexDigitValue(c as int % 16);
      HexDigitValue(0);
    }
    if |EscapeJsonChar(c)| == 6 {
      assert w[1..][5..] == x;
    } else if |EscapeJsonChar(c)| == 2 {
      assert w[1..][1..] == x;
    } else {
      assert w[1..] == x;
    }
  }

  lemma {:induction false} StringRead(s: string, x: string)
    ensures ReadString(EscapeJson(s) + (['"'] + x)) == Some(Read(s, x))
    decreases |s|
  {
    hide EscapeJsonChar, ReadEscape;
    if s == [] {
      assert EscapeJson(s) + (['"'] + x) == ['"'] + x;
      assert (['"'] + x)[1..] == x;
    } else {
      var rest := EscapeJson(s[1..]) + (['"'] + x);
      assert EscapeJson(s) + (['"'] + x) == EscapeJsonChar(s[0]) + rest;
      EscapeCharRead(s[0], rest);
      StringRead(s[1..], x);
      assert s == [s[0]] + s[1..];
    }
  }

  /** Reading a serialized tree gives the tree, and leaves what follows it. */
  lemma {:induction false} ValueRead(j: Json, x: string)
    requires Ends(x)
    ensures ReadValue(Plain(j) + x) == Some(Read(j, x))
    decreases j, 1
  {
    hide ReadItems, ReadMembers, ReadString, DigitsValue, JsonString, Decimal;
    var t := Plain(j) + x;
    match j {
      case Null =>
        assert t[4..] == x;
      case Bool(flag) =>
        if flag { assert t[4..] == x; } else { assert t[5..] == x; }
      case Number(n) =>
        NumberRead(n, x);
      case Str(text) =>
        TextRead(text, x);
      case Array(items) =>
        ArrayRead(items, x);
      case Object(members) =>
        ObjectRead(members, x);
    }
  }

  lemma NumberRead(n: nat, x: string)
    requires Ends(x)
    ensures ReadValue(Decimal(n) + x) == Some(Read(Number(n), x))
  {
    var d := Decimal(n);
    DecimalValue(n);
    DigitsSplit(d, x, 0);
    hide Decimal;
    assert (d + x)[0] == d[0];
  }

  lemma TextRead(s: string, x: string)
    ensures ReadValue(JsonString(s) + x) == Some(Read(Str(s), x))
  {
    hide EscapeJson, ReadString;
    var t := JsonString(s) + x;
    assert t[0] == '"' && t[1..] == EscapeJson(s) + (['"'] + x);
    StringRead(s, x);
  }

  lemma {:induction false} ArrayRead(items: seq<Json>, x: string)
    ensures ReadValue(['['] + PlainItems(items) + [']'] + x) == Some(Read(Array(items), x))
    decreases items, 2
  {
    hide ReadItems, Plain;
    var t := ['['] + PlainItems(items) + [']'] + x;
    assert t[0] == '[';
    if items == [] {
      assert t == "[]" + x && t[2..] == x;
    } else {
      assert t[1..] == PlainItems(items) + ([']'] + x);
      PlainStarts(items[0]);
      assert t[1] == Plain(items[0])[0];
      ItemsRead(items, x);
    }
  }

  lemma {:induction false} ItemsRead(items: seq<Json>, x: string)
    requires items != []
    ensures ReadItems(PlainItems(items) + ([']'] + x)) == Some(Read(items, x))
    decreases items, 0
  {
    hide Plain, ReadValue;
    var rest := MoreItems(items[1..]) + ([']'] + x);
    assert PlainItems(items) + ([']'] + x) == Plain(items[0]) + rest;
    MoreItemsStarts(items[1..], [']'] + x);
    ValueRead(items[0], rest);
    if |items| == 1 {
      assert rest == [']'] + x && rest[1..] == x;
      assert items == [items[0]];
    } else {
      assert rest[1..] == PlainItems(items[1..]) + ([']'] + x);
      ItemsRead(items[1..], x);
      assert items == [items[0]] + items[1..];
    }
  }

  lemma {:induction false} MemberRead(m: Member, x: string)
    requires Ends(x)
    ensures ReadMember(PlainMember(m) + x) == Some(Read(m, x))
    decreases m, 2
  {
    hide Plain, ReadValue, ReadString, EscapeJson;
    var rest := [':'] + (Plain(m.value) + x);
    var t := PlainMember(m) + x;
    assert t[0] == '"' && t[1..] == EscapeJson(m.name) + (['"'] + rest);
    StringRead(m.name, rest);
    assert rest[1..] == Plain(m.value) + x;
    ValueRead(m.value, x);
  }

  lemma {:induction false} ObjectRead(members: seq<Member>, x: string)
    ensures ReadValue(['{'] + PlainMembers(members) + ['}'] + x) == Some(Read(Object(members), x))
    decreases members, 4
  {
    hide ReadMembers, PlainMember;
    var t := ['{'] + PlainMembers(members) + ['}'] + x;
    assert t[0] == '{';
    if members == [] {
      assert t == "{}" + x && t[2..] == x;
    } else {
      assert t[1..] == PlainMembers(members) + (['}'] + x);
      MembersStart(members, ['}'] + x);
      MembersRead(members, x);
    }
  }

  lemma {:induction false} MembersRead(members: seq<Member>, x: string)
    requires members != []
    ensures ReadMembers(PlainMembers(members) + (['}'] + x)) == Some(Read(members, x))
    decreases members, 3
  {
    hide PlainMember, ReadMember;
    var rest := MoreMembers(members[1..]) + (['}'] + x);
    assert PlainMembers(members) + (['}'] + x) == PlainMember(members[0]) + rest;
    MoreMembersStarts(members[1..], ['}'] + x);
    MemberRead(members[0], rest);
    if |members| == 1 {
      assert rest == ['}'] + x && rest[1..] == x;
      assert members == [members[0]];
    } else {
      assert rest[1..] == PlainMembers(members[1..]) + (['}'] + x);
      MembersRead(members[1..], x);
      assert members == [members[0]] + members[1..];
    }
  }

  /** A serialized tree is read back whole. */
  lemma TreeRead(j: Json)
    ensures ReadValue(Plain(j)) == Some(Read(j, ""))
  {
    assert Plain(j) + "" == Plain(j);
    ValueRead(j, "");
  }

  /** A value's text determines the value, and where it stops. */
  lemma PlainPrefix(a: Json, x: string, b: Json, y: string)
    requires Plain(a) + x == Plain(b) + y && Ends(x) && Ends(y)
    ensures a == b && x == y
  {
    hide Plain, ReadValue;
    ValueRead(a, x);
    ValueRead(b, y);
  }

  /** The bytes of a tree determine it. */
  lemma BytesInjective(a: Json, b: Json)
    requires Utf8(Plain(a)) == Utf8(Plain(b))
    ensures a == b
  {
    hide Plain, ReadValue, Utf8;
    Utf8Injective(Plain(a), Plain(b));
    TreeRead(a);
    TreeRead(b);
  }
}

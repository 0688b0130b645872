/** Rust strings as sequences of Unicode scalar values: trimming, UTF-8, UTF-16 and decimal digits. */
module Text {

  type Byte = b: int | 0 <= b < 256

  /** The Unicode White_Space property. */
  predicate IsWhitespace(c: char) {
    var n := c as int;
    || 0x09 <= n <= 0x0D || n == 0x20 || n == 0x85 || n == 0xA0 || n == 0x1680
    || 0x2000 <= n <= 0x200A || n == 0x2028 || n == 0x2029 || n == 0x202F || n == 0x205F || n == 0x3000
  }

  /** The Unicode general category Cc. */
  predicate IsControl(c: char) {
    var n := c as int;
    n < 0x20 || 0x7F <= n < 0xA0
  }

  predicate AllWhitespace(s: string) {
    forall i :: 0 <= i < |s| ==> IsWhitespace(s[i])
  }

  /** Neither end of the string is whitespace. */
  predicate Trimmed(s: string) {
    s != [] ==> !IsWhitespace(s[0]) && !IsWhitespace(s[|s| - 1])
  }

  function Trim(s: string): (r: string)
    ensures Trimmed(r)
  {
    if s != [] && IsWhitespace(s[0]) then Trim(s[1..])
    else if s != [] && IsWhitespace(s[|s| - 1]) then Trim(s[..|s| - 1])
    else s
  }

  /** Trimming removes exactly the surrounding whitespace. */
  lemma {:induction false} TrimPadded(before: string, core: string, after: string)
    requires AllWhitespace(before) && AllWhitespace(after) && Trimmed(core)
    ensures Trim(before + core + after) == core
    decreases |before| + |core| + |after|
  {
    var s := before + core + after;
    if core == [] {
      TrimBlank(s);
    } else if before != [] {
      assert s[1..] == before[1..] + core + after;
      TrimPadded(before[1..], core, after);
    } else if after != [] {
      assert s[0] == core[0];
      assert s[..|s| - 1] == before + core + after[..|after| - 1];
      TrimPadded(before, core, after[..|after| - 1]);
    } else {
      assert s == core;
    }
  }

  lemma {:induction false} TrimBlank(s: string)
    requires AllWhitespace(s)
    ensures Trim(s) == []
  {
    if s != [] { TrimBlank(s[1..]); }
  }

  /** Every string is its trimmed core inside whitespace. */
  lemma {:induction false} TrimSplits(s: string) returns (before: string, after: string)
    ensures AllWhitespace(before) && AllWhitespace(after)
    ensures s == before + Trim(s) + after
    ensures s == [] || !IsWhitespace(s[0]) ==> before == []
  {
    if s != [] && IsWhitespace(s[0]) {
      before, after := TrimSplits(s[1..]);
      before := [s[0]] + before;
    } else if s != [] && IsWhitespace(s[|s| - 1]) {
      before, after := TrimSplits(s[..|s| - 1]);
      after := after + [s[|s| - 1]];
    } else {
      before, after := [], [];
    }
  }

  // ---- UTF-8 (section 3 of RFC 3629) ----

  function Utf8Char(c: char): (r: seq<Byte>)
    ensures 1 <= |r| <= 4
  {
    var n := c as int;
    if n < 0x80 then [n]
    else if n < 0x800 then [0xC0 + n / 64, 0x80 + n % 64]
    else if n < 0x1_0000 then [0xE0 + n / 64 / 64, 0x80 + n / 64 % 64, 0x80 + n % 64]
    else [0xF0 + n / 64 / 64 / 64, 0x80 + n / 64 / 64 % 64, 0x80 + n / 64 % 64, 0x80 + n % 64]
  }

  function Utf8(s: string): seq<Byte> {
    if s == [] then [] else Utf8Char(s[0]) + Utf8(s[1..])
  }

  lemma {:induction false} Utf8Concat(a: string, b: string)
    ensures Utf8(a + b) == Utf8(a) + Utf8(b)
  {
    if a == [] {
      assert a + b == b;
    } else {
      assert (a + b)[1..] == a[1..] + b;
      Utf8Concat(a[1..], b);
    }
  }

  /** The first byte fixes the length of an encoded character, and the bytes fix the character. */
  lemma Utf8CharDecodes(c: char)
    ensures var u: seq<int>, n := Utf8Char(c), c as int;
            if u[0] < 0x80 then |u| == 1 && n == u[0]
            else if u[0] < 0xE0 then |u| == 2 && n == (u[0] - 0xC0) * 64 + u[1] - 0x80
            else if u[0] < 0xF0 then
              |u| == 3 && n == ((u[0] - 0xE0) * 64 + u[1] - 0x80) * 64 + u[2] - 0x80
            else
              |u| == 4 && n == (((u[0] - 0xF0) * 64 + u[1] - 0x80) * 64 + u[2] - 0x80) * 64 + u[3] - 0x80
  {
    var n := c as int;
    assert n < 0x11_0000;
    assert n / 64 / 64 / 64 < 5;
    assert n < 0x1_0000 ==> n / 64 / 64 < 16;
    assert n < 0x800 ==> n / 64 < 32;
  }

  /** No encoded character is a prefix of another's encoding. */
  lemma Utf8CharPrefixFree(c: char, d: char, x: seq<Byte>, y: seq<Byte>)
    requires Utf8Char(c) + x == Utf8Char(d) + y
    ensures c == d && x == y
  {
    var u, v := Utf8Char(c), Utf8Char(d);
    Utf8CharDecodes(c);
    Utf8CharDecodes(d);
    assert u[0] == (u + x)[0] == (v + y)[0] == v[0];
    assert |u| == |v|;
    assert u == (u + x)[..|u|] == v;
    assert x == (u + x)[|u|..] == y;
    assert c as int == d as int;
  }

  lemma {:induction false} Utf8Injective(a: string, b: string)
    requires Utf8(a) == Utf8(b)
    ensures a == b
  {
    if a != [] && b != [] {
      Utf8CharPrefixFree(a[0], b[0], Utf8(a[1..]), Utf8(b[1..]));
      Utf8Injective(a[1..], b[1..]);
    }
  }

  /** Two prefixes of one text with the same encoded length are the same prefix. */
  lemma {:induction false} SameLengthPrefix(a: string, x: string, b: string, y: string)
    requires a + x == b + y && |Utf8(a)| == |Utf8(b)|
    ensures a == b && x == y
  {
    if a != [] && b != [] {
      assert a[0] == (a + x)[0] == (b + y)[0] == b[0];
      assert a[1..] + x == (a + x)[1..] == (b + y)[1..] == b[1..] + y;
      SameLengthPrefix(a[1..], x, b[1..], y);
    } else {
      assert a == [] && b == [];
      assert x == a + x && y == b + y;
    }
  }

  // ---- UTF-16 (section 2.1 of RFC 2781) ----

  function Utf16Char(c: char): (r: seq<int>)
    ensures 1 <= |r| <= 2
  {
    var n := c as int;
    if n < 0x1_0000 then [n]
    else [0xD800 + (n - 0x1_0000) / 1024, 0xDC00 + (n - 0x1_0000) % 1024]
  }

  function Utf16(s: string): seq<int> {
    if s == [] then [] else Utf16Char(s[0]) + Utf16(s[1..])
  }

  // ---- Decimal digits ----

  predicate IsDigit(c: char) { '0' <= c <= '9' }

  predicate AllDigits(s: string) {
    forall i :: 0 <= i < |s| ==> IsDigit(s[i])
  }

  function Decimal(n: nat): (r: string)
    ensures r != [] && AllDigits(r)
  {
    var digit := [('0' as int + n % 10) as char];
    if n < 10 then digit else Decimal(n / 10) + digit
  }

  lemma {:induction false} DecimalInjective(a: nat, b: nat)
    requires Decimal(a) == Decimal(b)
    ensures a == b
  {
    var x, y := Decimal(a), Decimal(b);
    assert x[|x| - 1] as int - 48 == a % 10;
    assert y[|y| - 1] as int - 48 == b % 10;
    if a >= 10 && b >= 10 {
      assert Decimal(a / 10) == x[..|x| - 1] == y[..|y| - 1] == Decimal(b / 10);
      DecimalInjective(a / 10, b / 10);
    } else {
      assert a < 10 <==> |x| == 1;
      assert b < 10 <==> |y| == 1;
    }
  }

  predicate StartsWithDigit(s: string) { s != [] && IsDigit(s[0]) }

  /** A number ends where the digits end. */
  lemma {:induction false} DigitsEnd(a: string, x: string, b: string, y: string)
    requires AllDigits(a) && AllDigits(b) && !StartsWithDigit(x) && !StartsWithDigit(y)
    requires a + x == b + y
    ensures a == b && x == y
  {
    if a != [] && b != [] {
      assert a[0] == (a + x)[0] == (b + y)[0] == b[0];
      assert a[1..] + x == (a + x)[1..] == (b + y)[1..] == b[1..] + y;
      DigitsEnd(a[1..], x, b[1..], y);
    } else {
      assert a == [] ==> x == a + x == b + y;
      assert b == [] ==> y == b + y == a + x;
    }
  }
}

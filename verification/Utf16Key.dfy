/** The key order of canonical JSON: strings compared by UTF-16 code units. */
module Utf16Key {
  import opened Text
  import opened Ordering

  /** Advances two code-unit iterators in step until they disagree or run out. */
  method Cmp(a: string, b: string) returns (r: Ordering)
    ensures r == Compare(Utf16(a), Utf16(b))
    ensures r == Less <==> exists i: nat :: PartsAt(Utf16(a), Utf16(b), i)
    ensures r == Equal <==> a == b
  {
    var left, right := Utf16(a), Utf16(b);
    ghost var whole := Compare(left, right);
    assert whole == Less <==> exists i: nat :: PartsAt(Utf16(a), Utf16(b), i) by {
      if whole == Less {
        var i := BeforeParts(Utf16(a), Utf16(b));
      }
      forall i: nat | PartsAt(Utf16(a), Utf16(b), i)
        ensures whole == Less
      {
        PartsAtBefore(Utf16(a), Utf16(b), i);
      }
    }
    EqualOnlyOnEqualStrings(a, b);
    while true
      invariant Compare(left, right) == whole
      decreases |left|
    {
      if left != [] && right != [] {
        var l, r := left[0], right[0];
        left, right := left[1..], right[1..];
        match CompareInts(l, r) {
          case Equal =>
          case Less => return Less;
          case Greater => return Greater;
        }
      } else if right != [] {
        return Less;
      } else if left != [] {
        return Greater;
      } else {
        return Equal;
      }
    }
  }

  // ---- A total order, exact on strings ----

  /** The first unit of a pair is a high surrogate, which no single-unit character is. */
  lemma Utf16CharPrefixFree(c: char, d: char, x: seq<int>, y: seq<int>)
    requires Utf16Char(c) + x == Utf16Char(d) + y
    ensures c == d && x == y
  {
    var u, v := Utf16Char(c), Utf16Char(d);
    assert u[0] == (u + x)[0] == (v + y)[0] == v[0];
    assert c as int < 0x11_0000 && d as int < 0x11_0000;
    assert |u| == |v|;
    assert u == (u + x)[..|u|] == v;
    assert x == (u + x)[|u|..] == y;
    assert c as int == d as int;
  }

  lemma {:induction false} Utf16Injective(a: string, b: string)
    requires Utf16(a) == Utf16(b)
    ensures a == b
  {
    if a != [] && b != [] {
      Utf16CharPrefixFree(a[0], b[0], Utf16(a[1..]), Utf16(b[1..]));
      Utf16Injective(a[1..], b[1..]);
    }
  }

  lemma EqualOnlyOnEqualStrings(a: string, b: string)
    ensures Compare(Utf16(a), Utf16(b)) == Equal <==> a == b
  {
    CompareEqual(Utf16(a), Utf16(b));
    if Utf16(a) == Utf16(b) {
      Utf16Injective(a, b);
    }
  }

  predicate KeyBefore(a: string, b: string) {
    Before(Utf16(a), Utf16(b))
  }

  /** Exactly one of before, equal and after holds, and before is transitive. */
  lemma TotalOrder(a: string, b: string, c: string)
    ensures KeyBefore(a, b) <==> !KeyBefore(b, a) && a != b
    ensures KeyBefore(a, b) && KeyBefore(b, c) ==> KeyBefore(a, c)
  {
    CompareFlips(Utf16(a), Utf16(b));
    EqualOnlyOnEqualStrings(a, b);
    if KeyBefore(a, b) && KeyBefore(b, c) {
      BeforeTransitive(Utf16(a), Utf16(b), Utf16(c));
    }
  }

  // ---- Comparison with byte order ----

  /** The strings first differ at i, in one character of U+E000..U+FFFF and one at or above U+10000. */
  predicate SurrogateClash(a: string, b: string, i: nat) {
    && i < |a| && i < |b| && a[..i] == b[..i]
    && (|| (0xE000 <= a[i] as int < 0x1_0000 <= b[i] as int)
        || (0xE000 <= b[i] as int < 0x1_0000 <= a[i] as int))
  }

  lemma ClashAgreesBefore(a: string, b: string, i: nat)
    requires SurrogateClash(a, b, i) && i > 0
    ensures a[0] == b[0]
  {
    assert a[0] == a[..i][0] == b[..i][0] == b[0];
  }

  lemma Utf16CharsDiffer(c: char, d: char, x: seq<int>, y: seq<int>)
    requires c != d
    ensures Compare(Utf16Char(c) + x, Utf16Char(d) + y)
            == if SurrogateClash([c], [d], 0) then CompareInts(d as int, c as int)
               else CompareInts(c as int, d as int)
  {
    var u, v := Utf16Char(c), Utf16Char(d);
    assert c as int < 0x11_0000 && d as int < 0x11_0000;
    if u[0] != v[0] {
      CompareDecided(u, x, v, y, 0);
    } else {
      assert |u| == 2 && |v| == 2;
      assert u[..1] == [u[0]] && v[..1] == [v[0]];
      CompareDecided(u, x, v, y, 1);
    }
  }

  lemma Utf8CharsDiffer(c: char, d: char, x: seq<int>, y: seq<int>)
    requires c != d
    ensures Compare(Utf8Char(c) + x, Utf8Char(d) + y) == CompareInts(c as int, d as int)
  {
    var u: seq<int>, v: seq<int> := Utf8Char(c), Utf8Char(d);
    Utf8CharDecodes(c);
    Utf8CharDecodes(d);
    if u[0] != v[0] {
      CompareDecided(u, x, v, y, 0);
    } else if u[1] != v[1] {
      CompareDecided(u, x, v, y, 1);
    } else if u[2] != v[2] {
      CompareDecided(u, x, v, y, 2);
    } else {
      CompareDecided(u, x, v, y, 3);
    }
  }

  /** UTF-16 order is byte order except where the strings part in a surrogate clash. */
  lemma {:induction false} DiffersFromByteOrder(a: string, b: string)
    ensures Compare(Utf16(a), Utf16(b)) != Compare(Utf8(a), Utf8(b)) <==> exists i: nat :: SurrogateClash(a, b, i)
  {
    if a == [] || b == [] {
    } else if a[0] != b[0] {
      hide SurrogateClash, Utf16Char, Utf8Char, CompareInts;
      Utf16CharsDiffer(a[0], b[0], Utf16(a[1..]), Utf16(b[1..]));
      Utf8CharsDiffer(a[0], b[0], Utf8(a[1..]), Utf8(b[1..]));
      ClashAtOnce(a, b);
      OrdersOpposed(a[0] as int, b[0] as int);
    } else {
      hide SurrogateClash, Utf16Char, Utf8Char;
      CompareCommonPrefix(Utf16Char(a[0]), Utf16(a[1..]), Utf16(b[1..]));
      CompareCommonPrefix(Utf8Char(a[0]), Utf8(a[1..]), Utf8(b[1..]));
      DiffersFromByteOrder(a[1..], b[1..]);
      ClashLater(a, b);
    }
  }

  lemma OrdersOpposed(c: int, d: int)
    requires c != d
    ensures CompareInts(c, d) != CompareInts(d, c)
  {
  }

  lemma ClashAtOnce(a: string, b: string)
    requires a != [] && b != [] && a[0] != b[0]
    ensures (exists i: nat :: SurrogateClash(a, b, i)) <==> SurrogateClash([a[0]], [b[0]], 0)
  {
    forall i: nat | SurrogateClash(a, b, i)
      ensures i == 0
    {
      if i > 0 { ClashAgreesBefore(a, b, i); }
    }
    assert SurrogateClash(a, b, 0) <==> SurrogateClash([a[0]], [b[0]], 0);
  }

  lemma ClashLater(a: string, b: string)
    requires a != [] && b != [] && a[0] == b[0]
    ensures (exists i: nat :: SurrogateClash(a, b, i)) <==> exists i: nat :: SurrogateClash(a[1..], b[1..], i)
  {
    forall i: nat | SurrogateClash(a[1..], b[1..], i)
      ensures SurrogateClash(a, b, i + 1)
    {
      assert a[..i + 1] == [a[0]] + a[1..][..i] && b[..i + 1] == [b[0]] + b[1..][..i];
    }
    forall i: nat | SurrogateClash(a, b, i)
      ensures i > 0 && SurrogateClash(a[1..], b[1..], i - 1)
    {
      assert a[1..][..i - 1] == a[..i][1..] && b[1..][..i - 1] == b[..i][1..];
    }
  }

  /** Below U+10000 the unit is the character; above, a high and a low surrogate carry ten bits each. */
  lemma Utf16CharDecodes(c: char)
    ensures var u, n := Utf16Char(c), c as int;
            if n < 0x1_0000 then u == [n]
            else
              && |u| == 2 && 0xD800 <= u[0] < 0xDC00 && 0xDC00 <= u[1] < 0xE000
              && n == 0x1_0000 + (u[0] - 0xD800) * 0x400 + (u[1] - 0xDC00)
  {
    var n := c as int;
    assert n < 0x11_0000;
  }
}

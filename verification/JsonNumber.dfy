/** How RFC 8785 prints an integer: as the shortest digits of its nearest binary64 number (section 3.2.2.3). */
module JsonNumbers {
  import opened Wrappers

  // ---- Binary64 ----

  /** Below 2^53 every integer is a binary64 number. */
  const SAFE_INTEGERS: nat := 0x20_0000_0000_0000

  const HALF_SAFE: nat := 0x10_0000_0000_0000

  /** The distance of the binary64 numbers around n. */
  function Ulp(n: nat): (u: nat)
    ensures u >= 1 && (n < SAFE_INTEGERS ==> u == 1)
    ensures n >= SAFE_INTEGERS ==> u >= 2 && u % 2 == 0 && HALF_SAFE * u <= n < SAFE_INTEGERS * u
  {
    if n < SAFE_INTEGERS then 1 else 2 * Ulp(n / 2)
  }

  /** Rounding to the nearest binary64 number, ties to even. */
  function NearestDouble(n: nat): nat {
    var u := Ulp(n);
    var q := n / u;
    if RoundsUp(q, n % u, u) then (q + 1) * u else q * u
  }

  predicate RoundsUp(q: nat, r: nat, u: nat) {
    2 * r > u || (2 * r == u && q % 2 == 1)
  }

  predicate PowerOfTwo(u: nat) {
    u == 1 || (u > 1 && u % 2 == 0 && PowerOfTwo(u / 2))
  }

  lemma {:induction false} UlpPower(n: nat)
    ensures PowerOfTwo(Ulp(n))
  {
    if n >= SAFE_INTEGERS { UlpPower(n / 2); }
  }

  lemma {:induction false} NextPower(u: nat, v: nat)
    requires PowerOfTwo(u) && PowerOfTwo(v) && u < v
    ensures 2 * u <= v
  {
    if u > 1 { NextPower(u / 2, v / 2); }
  }

  lemma {:induction false} UlpMonotone(a: nat, b: nat)
    requires a <= b
    ensures Ulp(a) <= Ulp(b)
  {
    if a >= SAFE_INTEGERS { UlpMonotone(a / 2, b / 2); }
  }

  lemma Quotient(n: nat, u: nat)
    requires u >= 1
    ensures n == n / u * u + n % u && n % u < u
  {
  }

  lemma LessFactor(j: int, k: int, u: nat)
    requires j <= k
    ensures j * u <= k * u
  {
    assert (k - j) * u >= 0;
    assert k * u == j * u + (k - j) * u;
  }

  lemma BigProduct(d: int, u: nat)
    requires d != 0
    ensures d * u >= u || d * u + u <= 0
  {
    if d > 0 { LessFactor(1, d, u); } else { LessFactor(1, -d, u); }
  }

  lemma UniqueQuotient(k: nat, r: nat, j: nat, s: nat, u: nat)
    requires k * u + r == j * u + s && r < u && s < u
    ensures k == j && r == s
  {
    assert (k - j) * u == k * u - j * u;
    if k != j { BigProduct(k - j, u); }
  }

  lemma Multiple(k: nat, u: nat)
    requires u >= 1
    ensures (k * u) % u == 0 && (k * u) / u == k
  {
    var n := k * u;
    Quotient(n, u);
    UniqueQuotient(k, 0, n / u, n % u, u);
  }

  /** A rounded number is a multiple of the distance. */
  lemma NearestMultiple(n: nat) returns (k: nat)
    ensures NearestDouble(n) == k * Ulp(n) && n / Ulp(n) <= k <= n / Ulp(n) + 1
    ensures n - Ulp(n) < NearestDouble(n) < n + Ulp(n)
  {
    var u := Ulp(n);
    var q, r := n / u, n % u;
    Quotient(n, u);
    assert (q + 1) * u == q * u + u;
    k := if RoundsUp(q, r, u) then q + 1 else q;
  }

  /** It stays in the range its distance covers. */
  lemma NearestRange(n: nat)
    ensures n < SAFE_INTEGERS ==> NearestDouble(n) == n
    ensures n >= SAFE_INTEGERS ==> HALF_SAFE * Ulp(n) <= NearestDouble(n) <= SAFE_INTEGERS * Ulp(n)
  {
    var k := NearestMultiple(n);
    hide NearestDouble;
    var u := Ulp(n);
    var q := n / u;
    Quotient(n, u);
    assert (q + 1) * u == q * u + u;
    if n >= SAFE_INTEGERS {
      if q < HALF_SAFE { LessFactor(q + 1, HALF_SAFE, u); }
      if q >= SAFE_INTEGERS { LessFactor(SAFE_INTEGERS, q, u); }
      LessFactor(HALF_SAFE, k, u);
      LessFactor(k, SAFE_INTEGERS, u);
    }
  }

  lemma MultipleIsDouble(x: nat)
    requires x % Ulp(x) == 0
    ensures NearestDouble(x) == x
  {
    Quotient(x, Ulp(x));
  }

  /** A rounded number is a binary64 number. */
  lemma NearestIdempotent(n: nat)
    ensures NearestDouble(NearestDouble(n)) == NearestDouble(n)
  {
    var k := NearestMultiple(n);
    NearestRange(n);
    hide NearestDouble;
    var x, u := NearestDouble(n), Ulp(n);
    if n >= SAFE_INTEGERS {
      var v := Ulp(x);
      UlpPower(n);
      UlpPower(x);
      if v < u { NextPower(v, u); }
      if u < v { NextPower(u, v); }
      if u == v {
        Multiple(k, u);
      } else {
        assert v == 2 * u && x == HALF_SAFE * v;
        Multiple(HALF_SAFE, v);
      }
      MultipleIsDouble(x);
    }
  }

  lemma NearestMonotone(a: nat, b: nat)
    requires a <= b
    ensures NearestDouble(a) <= NearestDouble(b)
  {
    NearestRange(a);
    NearestRange(b);
    UlpMonotone(a, b);
    var u, v := Ulp(a), Ulp(b);
    if u == v {
      NearestMonotoneWithin(a, b, u);
    } else {
      UlpPower(a);
      UlpPower(b);
      NextPower(u, v);
      if a >= SAFE_INTEGERS {
        assert NearestDouble(a) <= SAFE_INTEGERS * u <= HALF_SAFE * v <= NearestDouble(b);
      }
    }
  }

  lemma NearestMonotoneWithin(a: nat, b: nat, u: nat)
    requires a <= b && Ulp(a) == u == Ulp(b)
    ensures NearestDouble(a) <= NearestDouble(b)
  {
    hide NearestDouble, Ulp;
    var j := NearestFactor(a);
    var k := NearestFactor(b);
    QuotientMonotone(a, b, u);
    LessFactor(j, k, u);
  }

  lemma NearestFactor(n: nat) returns (k: nat)
    ensures NearestDouble(n) == k * Ulp(n)
    ensures k == if RoundsUp(n / Ulp(n), n % Ulp(n), Ulp(n)) then n / Ulp(n) + 1 else n / Ulp(n)
  {
    var u := Ulp(n);
    k := if RoundsUp(n / u, n % u, u) then n / u + 1 else n / u;
  }

  lemma QuotientMonotone(a: nat, b: nat, u: nat)
    requires a <= b && u >= 1
    ensures a / u < b / u || (a / u == b / u && a % u <= b % u)
  {
    Quotient(a, u);
    Quotient(b, u);
    var p, q := a / u, b / u;
    assert (q + 1) * u == q * u + u;
    if p > q { LessFactor(q + 1, p, u); }
  }

  // ---- Shortest digits ----

  predicate PowerOfTen(p: nat) {
    p == 1 || (p > 1 && p % 10 == 0 && PowerOfTen(p / 10))
  }

  /** c ends in the zeros of p and has the binary64 number x. */
  predicate Stands(x: nat, p: nat, c: nat)
    requires p >= 1
  {
    c % p == 0 && NearestDouble(c) == x
  }

  function Gap(x: nat, c: nat): nat {
    if x <= c then c - x else x - c
  }

  /** Of two candidates the closer one; of equally close ones that with even digits before the zeros. */
  predicate Better(x: nat, p: nat, d: nat, c: nat)
    requires p >= 1
  {
    Gap(x, d) < Gap(x, c) || (Gap(x, d) == Gap(x, c) && (d / p) % 2 == 0)
  }

  /** The digits ECMAScript prints for x: as many final zeros as possible, then as close to x as possible. */
  ghost predicate EcmaDigits(x: nat, d: nat) {
    exists p: nat :: PowerOfTen(p) && Chosen(x, p, d)
  }

  ghost predicate Chosen(x: nat, p: nat, d: nat)
    requires p >= 1
  {
    && Stands(x, p, d)
    && (forall c :: Stands(x, p, c) && c != d ==> Better(x, p, d, c))
    && (forall c :: !Stands(x, 10 * p, c))
  }

  /** The greatest multiple of p up to x. */
  function Floor(x: nat, p: nat): (f: nat)
    requires p >= 1
    ensures f <= x < f + p
  {
    Quotient(x, p);
    x - x % p
  }

  lemma FloorMultiple(x: nat, p: nat)
    requires p >= 1
    ensures Floor(x, p) == x / p * p && Floor(x, p) % p == 0 && (Floor(x, p) + p) % p == 0
  {
    var q := x / p;
    Quotient(x, p);
    Multiple(q, p);
    Multiple(q + 1, p);
    assert (q + 1) * p == q * p + p;
  }

  /** The candidates next to x, from the coarsest power of ten down. */
  function Shortest(x: nat, p: nat): nat
    requires PowerOfTen(p)
    decreases p
  {
    var lo := Floor(x, p);
    var hi := lo + p;
    if p == 1 then x
    else if Stands(x, p, lo) && (!Stands(x, p, hi) || Better(x, p, lo, hi)) then lo
    else if Stands(x, p, hi) then hi
    else Shortest(x, p / 10)
  }

  const LARGEST_POWER: nat := 10_000_000_000_000_000_000

  /** What RFC 8785 prints for a 64-bit integer. */
  function RfcNumber(n: nat): nat {
    LargestPowerOfTen();
    Shortest(NearestDouble(n), LARGEST_POWER)
  }

  lemma LargestPowerOfTen()
    ensures PowerOfTen(LARGEST_POWER)
  {
    assert PowerOfTen(10_000);
    assert PowerOfTen(10_000_000);
    assert PowerOfTen(10_000_000_000);
    assert PowerOfTen(10_000_000_000_000);
    assert PowerOfTen(10_000_000_000_000_000);
  }

  /** Below 2^53 the digits are those of the integer. */
  lemma {:induction false} SafeShortest(x: nat, p: nat)
    requires x < SAFE_INTEGERS && PowerOfTen(p)
    ensures Shortest(x, p) == x
    decreases p
  {
    hide NearestDouble, Floor, Better;
    OnlySafeStands(x, p, Floor(x, p));
    OnlySafeStands(x, p, Floor(x, p) + p);
    if p > 1 { SafeShortest(x, p / 10); }
  }

  lemma OnlySafeStands(x: nat, p: nat, c: nat)
    requires x < SAFE_INTEGERS && p >= 1
    ensures Stands(x, p, c) ==> c == x
  {
    NearestRange(c);
  }

  /** A revision below 2^53 prints as itself. */
  lemma SafeIntegersPrint(n: u64)
    requires n < SAFE_INTEGERS
    ensures RfcNumber(n) == n
  {
    hide NearestDouble, Shortest;
    NearestRange(n);
    LargestPowerOfTen();
    SafeShortest(n, LARGEST_POWER);
  }

  // ---- The printed digits are the ECMAScript ones ----

  lemma FloorGreatest(x: nat, p: nat, c: nat)
    requires p >= 1 && c % p == 0
    ensures c <= x ==> c <= Floor(x, p)
    ensures c > x ==> c >= Floor(x, p) + p
  {
    FloorMultiple(x, p);
    hide Floor;
    Quotient(c, p);
    var k, q := c / p, x / p;
    assert (q + 1) * p == q * p + p && (k + 1) * p == k * p + p;
    if k <= q { LessFactor(k, q, p); } else { LessFactor(q + 1, k, p); }
  }

  /** Between a binary64 number and a candidate for it every multiple is a candidate. */
  lemma Squeeze(x: nat, p: nat, m: nat, c: nat)
    requires p >= 1 && NearestDouble(x) == x && Stands(x, p, c) && m % p == 0
    requires c <= m <= x || x <= m <= c
    ensures Stands(x, p, m)
  {
    hide NearestDouble;
    if m <= x {
      if c <= m {
        NearestMonotone(c, m);
        NearestMonotone(m, x);
      }
    } else {
      NearestMonotone(x, m);
      NearestMonotone(m, c);
    }
  }

  lemma LowerOrUpper(x: nat, p: nat, c: nat)
    requires p >= 1 && NearestDouble(x) == x && Stands(x, p, c)
    ensures if c <= x then c <= Floor(x, p) && Stands(x, p, Floor(x, p))
            else c >= Floor(x, p) + p && Stands(x, p, Floor(x, p) + p)
  {
    FloorMultiple(x, p);
    FloorGreatest(x, p, c);
    hide NearestDouble, Floor;
    if c <= x { Squeeze(x, p, Floor(x, p), c); } else { Squeeze(x, p, Floor(x, p) + p, c); }
  }

  lemma NextHalves(x: nat, p: nat)
    requires p >= 1
    ensures (Floor(x, p) + p) / p == Floor(x, p) / p + 1
  {
    FloorMultiple(x, p);
    var q := x / p;
    Multiple(q, p);
    Multiple(q + 1, p);
    assert (q + 1) * p == q * p + p;
  }

  lemma LowerChosen(x: nat, p: nat, c: nat)
    requires p >= 1 && NearestDouble(x) == x && Stands(x, p, c) && c != Floor(x, p)
    requires !Stands(x, p, Floor(x, p) + p) || Better(x, p, Floor(x, p), Floor(x, p) + p)
    ensures Better(x, p, Floor(x, p), c)
  {
    LowerOrUpper(x, p, c);
    hide Stands;
  }

  lemma NextBetter(x: nat, p: nat)
    requires p >= 1 && !Better(x, p, Floor(x, p), Floor(x, p) + p)
    ensures Gap(x, Floor(x, p) + p) <= Gap(x, Floor(x, p)) && Better(x, p, Floor(x, p) + p, Floor(x, p))
  {
    NextHalves(x, p);
    hide Floor;
  }

  lemma CloserIsBetter(x: nat, p: nat, d: nat, c: nat)
    requires p >= 1 && Gap(x, d) < Gap(x, c)
    ensures Better(x, p, d, c)
  {
  }

  lemma UpperChosen(x: nat, p: nat, c: nat)
    requires p >= 1 && NearestDouble(x) == x && Stands(x, p, c) && c != Floor(x, p) + p
    requires !Stands(x, p, Floor(x, p)) || !Better(x, p, Floor(x, p), Floor(x, p) + p)
    ensures Better(x, p, Floor(x, p) + p, c)
  {
    hide Stands, Floor, Better;
    LowerOrUpper(x, p, c);
    if c <= x { NextBetter(x, p); }
    if c != Floor(x, p) { CloserIsBetter(x, p, Floor(x, p) + p, c); }
  }

  /** Going down from a power that is too coarse, Shortest finds the ECMAScript digits. */
  lemma {:induction false} ShortestIsEcma(x: nat, p: nat)
    requires NearestDouble(x) == x && PowerOfTen(p) && forall c :: !Stands(x, 10 * p, c)
    ensures EcmaDigits(x, Shortest(x, p))
    decreases p
  {
    hide NearestDouble, Floor, Better;
    var d := Shortest(x, p);
    if p == 1 {
      OneStands(x);
      assert Chosen(x, 1, x);
    } else if Stands(x, p, Floor(x, p)) && (!Stands(x, p, Floor(x, p) + p) || Better(x, p, Floor(x, p), Floor(x, p) + p)) {
      forall c | Stands(x, p, c) && c != d
        ensures Better(x, p, d, c)
      {
        LowerChosen(x, p, c);
      }
      assert Chosen(x, p, d);
    } else if Stands(x, p, Floor(x, p) + p) {
      forall c | Stands(x, p, c) && c != d
        ensures Better(x, p, d, c)
      {
        UpperChosen(x, p, c);
      }
      assert Chosen(x, p, d);
    } else {
      forall c
        ensures !Stands(x, p, c)
      {
        if Stands(x, p, c) { LowerOrUpper(x, p, c); }
      }
      assert 10 * (p / 10) == p;
      ShortestIsEcma(x, p / 10);
    }
  }

  lemma OneStands(x: nat)
    requires NearestDouble(x) == x
    ensures Stands(x, 1, x) && forall c :: c != x ==> Better(x, 1, x, c)
  {
  }

  lemma SmallRemainder(c: nat, p: nat)
    requires c < p
    ensures c % p == c
  {
    Quotient(c, p);
    UniqueQuotient(0, c, c / p, c % p, p);
  }

  lemma NearestWithin(n: nat)
    requires n > 0
    ensures n <= 2 * NearestDouble(n) && NearestDouble(n) <= 2 * n
  {
    NearestRange(n);
    var k := NearestMultiple(n);
    hide NearestDouble, Ulp;
  }

  lemma NothingCoarser(n: u64, c: nat)
    requires n > 0
    ensures !Stands(NearestDouble(n), 10 * LARGEST_POWER, c)
  {
    var p := 10 * LARGEST_POWER;
    NearestRange(0);
    hide NearestDouble;
    NearestWithin(n);
    if c >= p { NearestWithin(c); } else { SmallRemainder(c, p); }
  }

  /** What is printed for a 64-bit integer is what ECMAScript prints for its binary64 number. */
  lemma RfcIsEcma(n: u64)
    requires n > 0
    ensures EcmaDigits(NearestDouble(n), RfcNumber(n))
  {
    hide NearestDouble, Shortest, EcmaDigits;
    NearestIdempotent(n);
    LargestPowerOfTen();
    forall c
      ensures !Stands(NearestDouble(n), 10 * LARGEST_POWER, c)
    {
      NothingCoarser(n, c);
    }
    ShortestIsEcma(NearestDouble(n), LARGEST_POWER);
  }

  lemma {:induction false} PowersDivide(p: nat, q: nat)
    requires PowerOfTen(p) && PowerOfTen(q) && p < q
    ensures q % (10 * p) == 0
  {
    if p > 1 {
      PowersDivide(p / 10, q / 10);
      var m := 10 * (p / 10);
      var k := (q / 10) / m;
      Quotient(q / 10, m);
      assert q == 10 * (q / 10) && m == p;
      assert q == k * (10 * p) by { assert 10 * (k * p) == k * (10 * p); }
      Multiple(k, 10 * p);
    }
  }

  lemma DividesThrough(e: nat, q: nat, m: nat)
    requires q >= 1 && m >= 1 && e % q == 0 && q % m == 0
    ensures e % m == 0
  {
    Quotient(e, q);
    Quotient(q, m);
    var j, k := e / q, q / m;
    assert e == (j * k) * m by { assert j * (k * m) == (j * k) * m; }
    Multiple(j * k, m);
  }

  lemma StandsCoarser(x: nat, p: nat, q: nat, e: nat)
    requires PowerOfTen(p) && PowerOfTen(q) && p < q && Stands(x, q, e)
    ensures Stands(x, 10 * p, e)
  {
    PowersDivide(p, q);
    DividesThrough(e, q, 10 * p);
  }

  lemma SamePower(x: nat, p: nat, d: nat, q: nat, e: nat)
    requires PowerOfTen(p) && PowerOfTen(q) && Chosen(x, p, d) && Chosen(x, q, e)
    ensures p >= q
  {
    hide NearestDouble, Better, Stands;
    if p < q { StandsCoarser(x, p, q, e); }
  }

  lemma FactorLess(j: int, k: int, u: nat)
    requires j * u < k * u
    ensures j < k
  {
    if k <= j { LessFactor(k, j, u); }
  }

  lemma NextFactors(j: int, u: nat)
    ensures (j + 1) * u == j * u + u && (j + 2) * u == j * u + 2 * u
  {
  }

  /** Two multiples with even digits have a multiple between them. */
  lemma BetweenEvens(p: nat, d: nat, e: nat)
    requires p >= 1 && d % p == 0 && e % p == 0 && d < e && (d / p) % 2 == 0 && (e / p) % 2 == 0
    ensures d + p < e && (d + p) % p == 0
  {
    var j, k := d / p, e / p;
    Quotient(d, p);
    Quotient(e, p);
    FactorLess(j, k, p);
    LessFactor(j + 2, k, p);
    NextFactors(j, p);
    Multiple(j + 1, p);
  }

  /** Neither of two equally close candidates with even digits can be closest: a closer one lies between. */
  lemma TieBroken(x: nat, p: nat, d: nat, e: nat)
    requires p >= 1 && NearestDouble(x) == x && Stands(x, p, d) && Stands(x, p, e) && d < e
    requires Gap(x, d) == Gap(x, e) && (d / p) % 2 == 0 && (e / p) % 2 == 0
    ensures Stands(x, p, d + p) && d + p != d && !Better(x, p, d, d + p)
  {
    BetweenEvens(p, d, e);
    hide NearestDouble;
    if d + p <= x { Squeeze(x, p, d + p, d); } else { Squeeze(x, p, d + p, e); }
    hide Stands;
  }

  lemma OneChosen(x: nat, p: nat, d: nat, e: nat)
    requires p >= 1 && NearestDouble(x) == x && Chosen(x, p, d) && Chosen(x, p, e)
    ensures d >= e
  {
    hide NearestDouble, Stands;
    if d < e { TieBroken(x, p, d, e); }
  }

  /** A binary64 number has one printed form. */
  lemma EcmaUnique(x: nat, d: nat, e: nat)
    requires NearestDouble(x) == x && EcmaDigits(x, d) && EcmaDigits(x, e)
    ensures d == e
  {
    hide NearestDouble, Chosen;
    var p: nat :| PowerOfTen(p) && Chosen(x, p, d);
    var q: nat :| PowerOfTen(q) && Chosen(x, q, e);
    SamePower(x, p, d, q, e);
    SamePower(x, q, e, p, d);
    OneChosen(x, p, d, e);
    OneChosen(x, p, e, d);
  }

  /** Exactly then is an integer printed as its own digits. */
  lemma PrintsItself(n: u64)
    requires n > 0
    ensures RfcNumber(n) == n <==> EcmaDigits(NearestDouble(n), n)
  {
    hide NearestDouble, EcmaDigits, RfcNumber;
    RfcIsEcma(n);
    NearestIdempotent(n);
    if EcmaDigits(NearestDouble(n), n) { EcmaUnique(NearestDouble(n), n, RfcNumber(n)); }
  }

  lemma EvenPower(p: nat, n: nat)
    requires PowerOfTen(p) && n % p == 0 && n % 2 == 1
    ensures p == 1
  {
    if p > 1 { DividesThrough(n, p, 2); }
  }

  lemma EvenProduct(k: nat, h: nat)
    ensures (k * (2 * h)) % 2 == 0
  {
    assert k * (2 * h) == 2 * (k * h);
  }

  lemma NearestEven(n: nat)
    requires n >= SAFE_INTEGERS
    ensures NearestDouble(n) % 2 == 0
  {
    var k := NearestMultiple(n);
    hide NearestDouble, Ulp;
    EvenProduct(k, Ulp(n) / 2);
    assert 2 * (Ulp(n) / 2) == Ulp(n);
  }

  /** From 2^53 on no odd integer is: its binary64 number is even. */
  lemma OddNeverPrints(n: u64)
    requires n >= SAFE_INTEGERS && n % 2 == 1
    ensures RfcNumber(n) != n
  {
    var x := NearestDouble(n);
    hide NearestDouble, RfcNumber, Chosen, Stands;
    NearestEven(n);
    NearestIdempotent(n);
    PrintsItself(n);
    if EcmaDigits(x, n) {
      var p: nat :| PowerOfTen(p) && Chosen(x, p, n);
      ChosenMultiple(x, p, n);
      EvenPower(p, n);
      OneStands(x);
      OneChosenSelf(x, n);
    }
  }

  lemma ChosenMultiple(x: nat, p: nat, n: nat)
    requires p >= 1 && Chosen(x, p, n)
    ensures n % p == 0
  {
  }

  lemma OneChosenSelf(x: nat, n: nat)
    requires Chosen(x, 1, n) && Stands(x, 1, x)
    ensures n == x
  {
    hide NearestDouble, Stands;
  }

  /** A revision whose digits RFC 8785 does not print: the first one that is no binary64 number. */
  lemma FirstLost()
    ensures NearestDouble(9_007_199_254_740_993) == 9_007_199_254_740_992
    ensures RfcNumber(9_007_199_254_740_993) != 9_007_199_254_740_993
  {
    OddNeverPrints(9_007_199_254_740_993);
  }

  // ---- Rounding gives a nearest binary64 number ----

  /** The integers that are binary64 numbers: 53 significant bits and a power of two. */
  ghost predicate IsDouble(y: nat) {
    exists m: nat, e: nat :: IsScaled(y, m, e)
  }

  predicate IsScaled(y: nat, m: nat, e: nat) {
    m < SAFE_INTEGERS && PowerOfTwo(e) && y == m * e
  }

  lemma {:induction false} TwoPowersDivide(u: nat, e: nat)
    requires PowerOfTwo(u) && PowerOfTwo(e) && u <= e
    ensures e % u == 0
  {
    if u > 1 {
      TwoPowersDivide(u / 2, e / 2);
      var h := u / 2;
      var k := (e / 2) / h;
      Quotient(e / 2, h);
      assert e == k * u by { assert 2 * (k * h) == k * (2 * h); }
      Multiple(k, u);
    }
  }

  lemma NearestIsDouble(n: nat)
    ensures IsDouble(NearestDouble(n))
  {
    var x, u := NearestDouble(n), Ulp(n);
    var k := NearestMultiple(n);
    NearestRange(n);
    UlpPower(n);
    hide NearestDouble, Ulp;
    if n < SAFE_INTEGERS {
      assert IsScaled(x, n, 1);
    } else {
      FactorRange(k, u);
      if k < SAFE_INTEGERS {
        assert IsScaled(x, k, u);
      } else {
        assert PowerOfTwo(2 * u);
        assert IsScaled(x, HALF_SAFE, 2 * u);
      }
    }
  }

  lemma FactorRange(k: nat, u: nat)
    requires u >= 1 && k * u <= SAFE_INTEGERS * u
    ensures k <= SAFE_INTEGERS
  {
    if k > SAFE_INTEGERS { LessFactor(SAFE_INTEGERS + 1, k, u); }
  }

  lemma MultipleTimes(m: nat, e: nat, u: nat)
    requires u >= 1 && e % u == 0
    ensures (m * e) % u == 0
  {
    var j := e / u;
    Quotient(e, u);
    assert m * e == (m * j) * u by { assert m * (j * u) == (m * j) * u; }
    Multiple(m * j, u);
  }

  /** Every binary64 number is a multiple of the distance around n, or lies below the whole range of n. */
  lemma DoubleApart(n: nat, m: nat, e: nat)
    requires n >= SAFE_INTEGERS && m < SAFE_INTEGERS && PowerOfTwo(e)
    ensures (m * e) % Ulp(n) == 0 || m * e < HALF_SAFE * Ulp(n)
  {
    var u := Ulp(n);
    UlpPower(n);
    hide Ulp;
    if u <= e {
      TwoPowersDivide(u, e);
      MultipleTimes(m, e, u);
    } else {
      NextPower(e, u);
      LessFactor(m, SAFE_INTEGERS - 1, e);
    }
  }

  /** Of the multiples around n = low + r the rounded one is nearest, and only a tie leaves another as near. */
  lemma NearestOfTwo(n: nat, low: nat, u: nat, r: nat, up: bool, y: nat)
    requires n == low + r && r < u && (2 * r < u ==> !up) && (2 * r > u ==> up)
    requires y <= low || y >= low + u
    ensures var x := if up then low + u else low;
            Gap(n, x) <= Gap(n, y) && (Gap(n, x) == Gap(n, y) && y != x ==> 2 * r == u)
  {
  }

  lemma MultipleOutside(q: nat, j: nat, u: nat)
    ensures j * u <= q * u || j * u >= q * u + u
  {
    NextFactors(q, u);
    if j <= q { LessFactor(j, q, u); } else { LessFactor(q + 1, j, u); }
  }

  /** The two multiples around n, the one taken, and which of them a tie takes. */
  lemma TakenMultiple(n: nat) returns (low: nat, up: bool)
    ensures n == low + n % Ulp(n) && low == n / Ulp(n) * Ulp(n)
    ensures NearestDouble(n) == if up then low + Ulp(n) else low
    ensures up == RoundsUp(n / Ulp(n), n % Ulp(n), Ulp(n))
    ensures 2 * (n % Ulp(n)) == Ulp(n) ==> (NearestDouble(n) / Ulp(n)) % 2 == 0
  {
    var u := Ulp(n);
    var q, r := n / u, n % u;
    NextFactors(q, u);
    Quotient(n, u);
    low, up := q * u, RoundsUp(q, r, u);
    Multiple(q, u);
    Multiple(q + 1, u);
  }

  /** A multiple of the distance is no nearer than the rounded number, and as near only where that one is even. */
  lemma MultipleFarther(n: nat, y: nat)
    requires y % Ulp(n) == 0
    ensures Gap(n, NearestDouble(n)) <= Gap(n, y)
    ensures Gap(n, NearestDouble(n)) == Gap(n, y) && y != NearestDouble(n) ==> (NearestDouble(n) / Ulp(n)) % 2 == 0
  {
    hide NearestDouble, Ulp, Gap;
    var low, up := TakenMultiple(n);
    var u := Ulp(n);
    Quotient(y, u);
    MultipleOutside(n / u, y / u, u);
    NearestOfTwo(n, low, u, n % u, up, y);
  }

  /** No binary64 number is nearer to n than the one it rounds to, and of two equally near ones the even one is taken. */
  lemma NearestIsNearest(n: nat, y: nat)
    requires IsDouble(y)
    ensures IsDouble(NearestDouble(n))
    ensures Gap(n, NearestDouble(n)) <= Gap(n, y)
    ensures Gap(n, NearestDouble(n)) == Gap(n, y) && y != NearestDouble(n) ==> (NearestDouble(n) / Ulp(n)) % 2 == 0
  {
    NearestIsDouble(n);
    NearestRange(n);
    var m: nat, e: nat :| IsScaled(y, m, e);
    if n >= SAFE_INTEGERS {
      DoubleApart(n, m, e);
      if y % Ulp(n) == 0 {
        MultipleFarther(n, y);
      } else {
        BelowFarther(n, y);
      }
    }
  }

  lemma BelowFarther(n: nat, y: nat)
    requires n >= SAFE_INTEGERS && y < HALF_SAFE * Ulp(n)
    ensures Gap(n, NearestDouble(n)) < Gap(n, y)
  {
    var u := Ulp(n);
    Multiple(HALF_SAFE, u);
    MultipleFarther(n, HALF_SAFE * u);
    hide NearestDouble, Ulp;
  }
}

/** Lexicographic order on code units, and sorting by such keys. */
module Ordering {

  datatype Ordering = Less | Equal | Greater {
    function Flip(): Ordering {
      match this
      case Less => Greater
      case Equal => Equal
      case Greater => Less
    }
  }

  function CompareInts(a: int, b: int): Ordering {
    if a < b then Less else if a > b then Greater else Equal
  }

  function Compare(a: seq<int>, b: seq<int>): Ordering {
    if a == [] then (if b == [] then Equal else Less)
    else if b == [] then Greater
    else if a[0] == b[0] then Compare(a[1..], b[1..])
    else CompareInts(a[0], b[0])
  }

  predicate Before(a: seq<int>, b: seq<int>) {
    Compare(a, b) == Less
  }

  /** Where two sequences part: behind the common prefix, one ends or holds the smaller unit. */
  predicate PartsAt(a: seq<int>, b: seq<int>, i: nat) {
    && i <= |a| && i <= |b| && a[..i] == b[..i]
    && i < |b| && (i == |a| || a[i] < b[i])
  }

  lemma {:induction false} PartsAtBefore(a: seq<int>, b: seq<int>, i: nat)
    requires PartsAt(a, b, i)
    ensures Before(a, b)
  {
    if i > 0 {
      assert a[0] == a[..i][0] == b[..i][0] == b[0];
      assert a[1..][..i - 1] == a[..i][1..] == b[..i][1..] == b[1..][..i - 1];
      PartsAtBefore(a[1..], b[1..], i - 1);
    }
  }

  lemma {:induction false} BeforeParts(a: seq<int>, b: seq<int>) returns (i: nat)
    requires Before(a, b)
    ensures PartsAt(a, b, i)
  {
    if a != [] && a[0] == b[0] {
      var k := BeforeParts(a[1..], b[1..]);
      i := k + 1;
      assert a[..i] == [a[0]] + a[1..][..k] == [b[0]] + b[1..][..k] == b[..i];
    } else {
      i := 0;
    }
  }

  lemma {:induction false} CompareFlips(a: seq<int>, b: seq<int>)
    ensures Compare(b, a) == Compare(a, b).Flip()
  {
    if a != [] && b != [] {
      CompareFlips(a[1..], b[1..]);
    }
  }

  lemma {:induction false} CompareEqual(a: seq<int>, b: seq<int>)
    ensures Compare(a, b) == Equal <==> a == b
  {
    if a != [] && b != [] {
      CompareEqual(a[1..], b[1..]);
      assert a == [a[0]] + a[1..] && b == [b[0]] + b[1..];
    }
  }

  lemma {:induction false} BeforeTransitive(a: seq<int>, b: seq<int>, c: seq<int>)
    requires Before(a, b) && Before(b, c)
    ensures Before(a, c)
  {
    if a != [] && a[0] == b[0] == c[0] {
      BeforeTransitive(a[1..], b[1..], c[1..]);
    }
  }

  lemma {:induction false} CompareCommonPrefix(p: seq<int>, x: seq<int>, y: seq<int>)
    ensures Compare(p + x, p + y) == Compare(x, y)
  {
    if p == [] {
      assert p + x == x && p + y == y;
    } else {
      assert (p + x)[1..] == p[1..] + x && (p + y)[1..] == p[1..] + y;
      CompareCommonPrefix(p[1..], x, y);
    }
  }

  /** The first differing unit decides, whatever follows. */
  lemma CompareDecided(p: seq<int>, x: seq<int>, q: seq<int>, y: seq<int>, i: nat)
    requires i < |p| && i < |q| && p[..i] == q[..i] && p[i] != q[i]
    ensures Compare(p + x, q + y) == CompareInts(p[i], q[i])
  {
    var l, r := (p + x)[i..], (q + y)[i..];
    assert p + x == p[..i] + l && q + y == p[..i] + r;
    CompareCommonPrefix(p[..i], l, r);
    assert l[0] == p[i] && r[0] == q[i];
  }

  // ---- Sorting ----

  datatype Keyed<T> = Keyed(key: seq<int>, item: T)

  ghost predicate StrictlyAscending<T>(s: seq<Keyed<T>>) {
    forall i, j :: 0 <= i < j < |s| ==> Before(s[i].key, s[j].key)
  }

  ghost predicate DistinctKeys<T>(s: seq<Keyed<T>>) {
    forall i, j :: 0 <= i < j < |s| ==> s[i].key != s[j].key
  }

  function Place<T>(x: Keyed<T>, s: seq<Keyed<T>>): (r: seq<Keyed<T>>)
    ensures |r| == |s| + 1
    ensures multiset(r) == multiset(s) + multiset{x}
  {
    if s == [] || Compare(x.key, s[0].key) != Greater then
      [x] + s
    else
      assert s == [s[0]] + s[1..];
      [s[0]] + Place(x, s[1..])
  }

  function Sort<T>(s: seq<Keyed<T>>): (r: seq<Keyed<T>>)
    ensures |r| == |s|
    ensures multiset(r) == multiset(s)
  {
    if s == [] then []
    else
      assert s == [s[0]] + s[1..];
      Place(s[0], Sort(s[1..]))
  }

  lemma SameElements<T>(a: seq<T>, b: seq<T>, x: T)
    requires multiset(a) == multiset(b)
    ensures x in a <==> x in b
  {
    assert x in a <==> x in multiset(a);
    assert x in b <==> x in multiset(b);
  }

  /** A strictly ascending sequence is fixed by its elements. */
  lemma {:induction false} StrictlyAscendingUnique<T>(a: seq<Keyed<T>>, b: seq<Keyed<T>>)
    requires StrictlyAscending(a) && StrictlyAscending(b)
    requires forall x :: x in a <==> x in b
    ensures a == b
  {
    if a == [] {
      assert forall i :: 0 <= i < |b| ==> b[i] in b;
    } else {
      assert a[0] in b;
      var j :| 0 <= j < |b| && b[j] == a[0];
      assert b[0] in a;
      var i :| 0 <= i < |a| && a[i] == b[0];
      CompareFlips(a[0].key, b[0].key);
      CompareEqual(a[0].key, b[0].key);
      assert j == 0 && i == 0;
      forall x
        ensures x in a[1..] <==> x in b[1..]
      {
        StrictTailMembers(a, x);
        StrictTailMembers(b, x);
      }
      StrictlyAscendingUnique(a[1..], b[1..]);
      assert a == [a[0]] + a[1..] && b == [b[0]] + b[1..];
    }
  }

  lemma StrictTailMembers<T>(a: seq<Keyed<T>>, x: Keyed<T>)
    requires StrictlyAscending(a) && a != []
    ensures x in a[1..] <==> x in a && x != a[0]
  {
    CompareEqual(a[0].key, x.key);
    if x in a && x != a[0] {
      var i :| 0 <= i < |a| && a[i] == x;
      assert a[1..][i - 1] == x;
    }
  }

  lemma {:induction false} PlaceAscends<T>(x: Keyed<T>, s: seq<Keyed<T>>)
    requires StrictlyAscending(s)
    requires forall y :: y in s ==> y.key != x.key
    ensures StrictlyAscending(Place(x, s))
  {
    var r := Place(x, s);
    if s != [] {
      CompareEqual(x.key, s[0].key);
      CompareFlips(x.key, s[0].key);
      if Before(x.key, s[0].key) {
        forall j | 1 <= j < |s|
          ensures Before(x.key, s[j].key)
        {
          BeforeTransitive(x.key, s[0].key, s[j].key);
        }
      } else {
        PlaceAscends(x, s[1..]);
        var t := Place(x, s[1..]);
        forall j | 0 <= j < |t|
          ensures Before(s[0].key, t[j].key)
        {
          assert t[j] in multiset(t);
          assert t[j] == x || t[j] in s[1..];
        }
      }
    }
  }

  /** Sorting items with distinct keys gives the one strictly ascending arrangement. */
  lemma {:induction false} SortAscends<T>(s: seq<Keyed<T>>)
    requires DistinctKeys(s)
    ensures StrictlyAscending(Sort(s))
  {
    if s != [] {
      SortAscends(s[1..]);
      forall y | y in Sort(s[1..])
        ensures y.key != s[0].key
      {
        SameElements(Sort(s[1..]), s[1..], y);
        var k :| 0 <= k < |s[1..]| && s[1..][k] == y;
        assert s[k + 1] == y;
      }
      PlaceAscends(s[0], Sort(s[1..]));
    }
  }

  /** Any strictly ascending arrangement of the same elements is the sorted one. */
  lemma SortIs<T>(s: seq<Keyed<T>>, target: seq<Keyed<T>>)
    requires DistinctKeys(s)
    requires StrictlyAscending(target)
    requires forall x :: x in s <==> x in target
    ensures Sort(s) == target
  {
    SortAscends(s);
    forall x
      ensures x in Sort(s) <==> x in target
    {
      SameElements(Sort(s), s, x);
    }
    StrictlyAscendingUnique(Sort(s), target);
  }
}

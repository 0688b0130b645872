/** The canonical form of a JSON tree: members sorted at every depth, numbers as binary64 numbers print. */
module CanonicalForms {
  import opened Wrappers
  import opened Text
  import opened Ordering
  import opened Utf16Key
  import opened JsonTrees
  import opened JsonReaders
  import opened JsonNumbers

  // ---- Numbers ----

  /** Every number in the tree satisfies p. */
  predicate AllNumbers(j: Json, p: nat -> bool)
    decreases j
  {
    match j
    case Number(n) => p(n)
    case Array(items) => forall i :: 0 <= i < |items| ==> AllNumbers(items[i], p)
    case Object(members) => forall i :: 0 <= i < |members| ==> AllNumbers(members[i].value, p)
    case _ => true
  }

  predicate Is64Bit(n: nat) {
    n <= U64_MAX
  }

  predicate PrintsExactly(n: nat) {
    Is64Bit(n) && RfcNumber(n) == n
  }

  /** The tree with every number replaced by the one RFC 8785 prints for it. */
  function Rounded(j: Json): (r: Json)
    requires AllNumbers(j, Is64Bit)
    decreases j
  {
    match j
    case Number(n) => Number(RfcNumber(n))
    case Array(items) => Array(seq(|items|, i requires 0 <= i < |items| => Rounded(items[i])))
    case Object(members) =>
      Object(seq(|members|, i requires 0 <= i < |members| => Member(members[i].name, Rounded(members[i].value))))
    case _ => j
  }

  /** A tree is its rounded form exactly when all its numbers print as themselves. */
  lemma {:induction false} RoundedExact(j: Json)
    requires AllNumbers(j, Is64Bit)
    ensures Rounded(j) == j <==> AllNumbers(j, PrintsExactly)
    decreases j
  {
    hide RfcNumber;
    match j {
      case Array(items) =>
        forall i | 0 <= i < |items|
          ensures Rounded(items[i]) == items[i] <==> AllNumbers(items[i], PrintsExactly)
        {
          RoundedExact(items[i]);
        }
        if AllNumbers(j, PrintsExactly) {
          assert Rounded(j).items == items;
        }
        if Rounded(j) == j {
          assert forall i :: 0 <= i < |items| ==> Rounded(j).items[i] == items[i];
        }
      case Object(members) =>
        forall i | 0 <= i < |members|
          ensures Rounded(members[i].value) == members[i].value <==> AllNumbers(members[i].value, PrintsExactly)
        {
          RoundedExact(members[i].value);
        }
        if AllNumbers(j, PrintsExactly) {
          assert Rounded(j).members == members;
        }
        if Rounded(j) == j {
          assert forall i :: 0 <= i < |members| ==> Rounded(j).members[i] == members[i];
        }
      case _ =>
    }
  }

  // ---- Canonical bytes ----

  lemma {:induction false} NormalizedMember(ms: seq<Member>, i: nat)
    requires i < |ms|
    ensures |NormalizeMembers(ms)| == |ms|
    ensures NormalizeMembers(ms)[i] == Member(ms[i].name, Normalize(ms[i].value))
    decreases |ms|
  {
    hide Normalize;
    if |ms| > 1 {
      NormalizedMember(ms[1..], if i == 0 then 0 else i - 1);
    }
  }

  lemma {:induction false} NormalizedItem(items: seq<Json>, i: nat)
    requires i < |items|
    ensures |NormalizeItems(items)| == |items|
    ensures NormalizeItems(items)[i] == Normalize(items[i])
    decreases |items|
  {
    hide Normalize;
    if |items| > 1 {
      NormalizedItem(items[1..], if i == 0 then 0 else i - 1);
    }
  }

  lemma {:induction false} AdjacentAscends(ms: seq<Member>, i: nat, j: nat)
    requires NamesAscending(ms) && i < j < |ms|
    ensures KeyBefore(ms[i].name, ms[j].name)
  {
    hide KeyBefore;
    if i + 1 < j {
      AdjacentAscends(ms, i, j - 1);
      TotalOrder(ms[i].name, ms[j - 1].name, ms[j].name);
    }
  }

  /** pos and inv are inverse arrangements of the same length. */
  predicate Arrangement(pos: seq<nat>, inv: seq<nat>) {
    && |pos| == |inv|
    && (forall i :: 0 <= i < |pos| ==> pos[i] < |pos| && inv[pos[i]] == i)
    && (forall i :: 0 <= i < |inv| ==> inv[i] < |inv| && pos[inv[i]] == i)
  }

  lemma KeyBeforeIsBefore(a: string, b: string)
    ensures KeyBefore(a, b) <==> Before(Utf16(a), Utf16(b))
  {
  }

  lemma NormalizeObject(ms: seq<Member>)
    ensures Normalize(Object(ms)) == Object(SortMembers(NormalizeMembers(ms)))
  {
  }

  lemma SortedMember(ms: seq<Member>, m: Member)
    ensures m in SortMembers(ms) <==> m in ms
  {
    var ks := KeyedMembers(ms);
    var s := Sort(ks);
    if m in ms {
      var i :| 0 <= i < |ms| && ms[i] == m;
      SameElements(s, ks, ks[i]);
      assert ks[i] in ks;
      var j :| 0 <= j < |s| && s[j] == ks[i];
      assert SortMembers(ms)[j] == m;
    }
    if m in SortMembers(ms) {
      var j :| 0 <= j < |s| && s[j].item == m;
      assert s[j] in s;
      SameElements(s, ks, s[j]);
      var i :| 0 <= i < |ks| && ks[i] == s[j];
      assert ms[i] == m;
    }
  }

  /** Sorting neither adds nor removes a number. */
  lemma {:induction false} NormalizeNumbers(j: Json, p: nat -> bool)
    ensures AllNumbers(Normalize(j), p) <==> AllNumbers(j, p)
    decreases j
  {
    match j {
      case Array(items) =>
        NormalizedItems(items);
        forall i | 0 <= i < |items|
          ensures AllNumbers(Normalize(items[i]), p) <==> AllNumbers(items[i], p)
        {
          NormalizeNumbers(items[i], p);
        }
        hide Normalize;
        assert AllNumbers(Array(NormalizeItems(items)), p) <==> AllNumbers(j, p);
        NormalizeArray(items);
      case Object(members) =>
        forall i | 0 <= i < |members|
          ensures AllNumbers(Normalize(members[i].value), p) <==> AllNumbers(members[i].value, p)
        {
          NormalizeNumbers(members[i].value, p);
        }
        hide Normalize;
        ObjectNumbers(members, p);
        NormalizeObject(members);
      case _ =>
    }
  }

  lemma NormalizeArray(items: seq<Json>)
    ensures Normalize(Array(items)) == Array(NormalizeItems(items))
  {
  }

  lemma NormalizedItems(items: seq<Json>)
    ensures |NormalizeItems(items)| == |items|
    ensures forall i :: 0 <= i < |items| ==> NormalizeItems(items)[i] == Normalize(items[i])
  {
    hide Normalize;
    forall i | 0 <= i < |items|
      ensures |NormalizeItems(items)| == |items| && NormalizeItems(items)[i] == Normalize(items[i])
    {
      NormalizedItem(items, i);
    }
  }

  lemma NormalizedMembers(ms: seq<Member>)
    ensures |NormalizeMembers(ms)| == |ms|
    ensures forall i :: 0 <= i < |ms| ==> NormalizeMembers(ms)[i] == Member(ms[i].name, Normalize(ms[i].value))
  {
    hide Normalize;
    forall i | 0 <= i < |ms|
      ensures |NormalizeMembers(ms)| == |ms|
      ensures NormalizeMembers(ms)[i] == Member(ms[i].name, Normalize(ms[i].value))
    {
      NormalizedMember(ms, i);
    }
  }

  lemma ObjectNumbers(ms: seq<Member>, p: nat -> bool)
    requires forall i :: 0 <= i < |ms| ==> (AllNumbers(Normalize(ms[i].value), p) <==> AllNumbers(ms[i].value, p))
    ensures AllNumbers(Object(SortMembers(NormalizeMembers(ms))), p) <==> AllNumbers(Object(ms), p)
  {
    hide Normalize, NormalizeMembers, SortMembers;
    NormalizedMembers(ms);
    var nm, sorted := NormalizeMembers(ms), SortMembers(NormalizeMembers(ms));
    if AllNumbers(Object(ms), p) {
      forall i | 0 <= i < |sorted|
        ensures AllNumbers(sorted[i].value, p)
      {
        SortedMember(nm, sorted[i]);
        assert sorted[i] in nm;
        var k :| 0 <= k < |nm| && nm[k] == sorted[i];
      }
    }
    if AllNumbers(Object(sorted), p) {
      forall k | 0 <= k < |ms|
        ensures AllNumbers(ms[k].value, p)
      {
        SortedMember(nm, nm[k]);
        assert nm[k] in nm;
        var i :| 0 <= i < |sorted| && sorted[i] == nm[k];
      }
    }
  }

  /** The RFC 8785 serialization of a tree. */
  function Canonical(j: Json): seq<Byte>
    requires AllNumbers(j, Is64Bit)
  {
    NormalizeNumbers(j, Is64Bit);
    Utf8(Plain(Rounded(Normalize(j))))
  }

  /** Plain bytes of the sorted tree are canonical exactly when every number prints as itself. */
  lemma CanonicalExact(j: Json)
    requires AllNumbers(j, Is64Bit)
    ensures Canonical(j) == Utf8(Plain(Normalize(j))) <==> AllNumbers(j, PrintsExactly)
  {
    hide Plain, Utf8, Normalize, Rounded;
    NormalizeNumbers(j, Is64Bit);
    NormalizeNumbers(j, PrintsExactly);
    RoundedExact(Normalize(j));
    if Canonical(j) == Utf8(Plain(Normalize(j))) {
      BytesInjective(Rounded(Normalize(j)), Normalize(j));
    }
  }

  // ---- What the sorted form is ----

  ghost predicate NamesAscending(ms: seq<Member>) {
    forall i :: 0 <= i < |ms| - 1 ==> KeyBefore(ms[i].name, ms[i + 1].name)
  }

  /** The members of every object ascend strictly. */
  ghost predicate SortedDeep(j: Json)
    decreases j
  {
    match j
    case Array(items) => forall i :: 0 <= i < |items| ==> SortedDeep(items[i])
    case Object(members) =>
      NamesAscending(members) && forall i :: 0 <= i < |members| ==> SortedDeep(members[i].value)
    case _ => true
  }

  ghost predicate NamesDiffer(ms: seq<Member>) {
    forall i, j :: 0 <= i < j < |ms| ==> ms[i].name != ms[j].name
  }

  /** No object has two members of one name. */
  ghost predicate DistinctNames(j: Json)
    decreases j
  {
    match j
    case Array(items) => forall i :: 0 <= i < |items| ==> DistinctNames(items[i])
    case Object(members) =>
      NamesDiffer(members) && forall i :: 0 <= i < |members| ==> DistinctNames(members[i].value)
    case _ => true
  }

  /** The same tree but for the order of members, at every depth. */
  ghost predicate SameUpToMemberOrder(a: Json, b: Json)
    decreases a
  {
    match a
    case Array(items) =>
      && b.Array? && |items| == |b.items|
      && forall i :: 0 <= i < |items| ==> SameUpToMemberOrder(items[i], b.items[i])
    case Object(members) =>
      && b.Object? && |members| == |b.members|
      && exists pos: seq<nat>, inv: seq<nat> ::
           && Arrangement(pos, inv) && |pos| == |members|
           && forall i :: 0 <= i < |members| ==>
                && members[i].name == b.members[pos[i]].name
                && SameUpToMemberOrder(members[i].value, b.members[pos[i]].value)
    case _ => a == b
  }

  /** Members of a moved to their places in b. */
  ghost predicate Moved(a: seq<Member>, b: seq<Member>, pos: seq<nat>, inv: seq<nat>) {
    && |a| == |b| == |pos| && Arrangement(pos, inv)
    && forall i :: 0 <= i < |a| ==>
         a[i].name == b[pos[i]].name && SameUpToMemberOrder(a[i].value, b[pos[i]].value)
  }

  lemma MovedObjects(a: seq<Member>, b: seq<Member>)
    ensures SameUpToMemberOrder(Object(a), Object(b)) <==>
            exists pos: seq<nat>, inv: seq<nat> :: Moved(a, b, pos, inv)
  {
    if pos: seq<nat>, inv: seq<nat> :| Moved(a, b, pos, inv) {
      assert SameUpToMemberOrder(Object(a), Object(b));
    }
    if SameUpToMemberOrder(Object(a), Object(b)) {
      var pos: seq<nat>, inv: seq<nat> :|
        && Arrangement(pos, inv) && |pos| == |a|
        && forall i :: 0 <= i < |a| ==> a[i].name == b[pos[i]].name && SameUpToMemberOrder(a[i].value, b[pos[i]].value);
      assert Moved(a, b, pos, inv);
    }
  }

  lemma {:induction false} SameSymmetric(a: Json, b: Json)
    requires SameUpToMemberOrder(a, b)
    ensures SameUpToMemberOrder(b, a)
    decreases a
  {
    match a {
      case Array(items) =>
        forall i | 0 <= i < |items|
          ensures SameUpToMemberOrder(b.items[i], items[i])
        {
          SameSymmetric(items[i], b.items[i]);
        }
      case Object(members) =>
        MovedObjects(members, b.members);
        var pos: seq<nat>, inv: seq<nat> :| Moved(members, b.members, pos, inv);
        forall i | 0 <= i < |members|
          ensures b.members[i].name == members[inv[i]].name
          ensures SameUpToMemberOrder(b.members[i].value, members[inv[i]].value)
        {
          assert pos[inv[i]] == i;
          SameSymmetric(members[inv[i]].value, b.members[i].value);
        }
        assert Moved(b.members, members, inv, pos);
        MovedObjects(b.members, members);
      case _ =>
    }
  }

  lemma MovedTwice(
    a: seq<Member>, b: seq<Member>, c: seq<Member>, pos: seq<nat>, inv: seq<nat>, q: seq<nat>, r: seq<nat>)
    requires Moved(a, b, pos, inv) && Moved(b, c, q, r)
    requires forall i :: 0 <= i < |a| ==> SameUpToMemberOrder(a[i].value, c[q[pos[i]]].value)
    ensures exists there: seq<nat>, back: seq<nat> :: Moved(a, c, there, back)
  {
    hide SameUpToMemberOrder;
    var n := |a|;
    var there: seq<nat> := seq(n, i requires 0 <= i < n => q[pos[i]]);
    var back: seq<nat> := seq(n, i requires 0 <= i < n => inv[r[i]]);
    assert Moved(a, c, there, back);
  }

  lemma {:induction false} SameTransitive(a: Json, b: Json, c: Json)
    requires SameUpToMemberOrder(a, b) && SameUpToMemberOrder(b, c)
    ensures SameUpToMemberOrder(a, c)
    decreases a
  {
    match a {
      case Array(items) =>
        forall i | 0 <= i < |items|
          ensures SameUpToMemberOrder(items[i], c.items[i])
        {
          SameTransitive(items[i], b.items[i], c.items[i]);
        }
      case Object(members) =>
        MovedObjects(members, b.members);
        MovedObjects(b.members, c.members);
        var pos: seq<nat>, inv: seq<nat> :| Moved(members, b.members, pos, inv);
        var q: seq<nat>, r: seq<nat> :| Moved(b.members, c.members, q, r);
        forall i | 0 <= i < |members|
          ensures SameUpToMemberOrder(members[i].value, c.members[q[pos[i]]].value)
        {
          SameTransitive(members[i].value, b.members[pos[i]].value, c.members[q[pos[i]]].value);
        }
        MovedTwice(members, b.members, c.members, pos, inv, q, r);
        MovedObjects(members, c.members);
      case _ =>
    }
  }

  // ---- Sorted trees are unique ----

  lemma Injective(pos: seq<nat>, inv: seq<nat>, i: nat, k: nat)
    requires Arrangement(pos, inv) && i < |pos| && k < |pos| && pos[i] == pos[k]
    ensures i == k
  {
  }

  lemma {:induction false} AscendingInPlace(a: seq<Member>, b: seq<Member>, pos: seq<nat>, inv: seq<nat>, i: nat)
    requires NamesAscending(a) && NamesAscending(b) && Moved(a, b, pos, inv) && i < |a|
    ensures pos[i] == i
    decreases i
  {
    hide KeyBefore, SameUpToMemberOrder;
    forall k | 0 <= k < i
      ensures pos[k] == k
    {
      AscendingInPlace(a, b, pos, inv, k);
    }
    var j := inv[i];
    assert pos[j] == i;
    if pos[i] < i {
      Injective(pos, inv, i, pos[i]);
    } else if pos[i] > i {
      AdjacentAscends(a, i, j);
      AdjacentAscends(b, i, pos[i]);
      TotalOrder(a[i].name, a[j].name, a[i].name);
    }
  }

  /** Two sorted trees that agree up to the order of members are the same tree. */
  lemma {:induction false} SortedUnique(a: Json, b: Json)
    requires SortedDeep(a) && SortedDeep(b) && SameUpToMemberOrder(a, b)
    ensures a == b
    decreases a
  {
    match a {
      case Array(items) =>
        forall i | 0 <= i < |items|
          ensures items[i] == b.items[i]
        {
          SortedUnique(items[i], b.items[i]);
        }
        assert items == b.items;
      case Object(members) =>
        MovedObjects(members, b.members);
        var pos: seq<nat>, inv: seq<nat> :| Moved(members, b.members, pos, inv);
        forall i | 0 <= i < |members|
          ensures members[i] == b.members[i]
        {
          AscendingInPlace(members, b.members, pos, inv, i);
          SortedUnique(members[i].value, b.members[i].value);
        }
        assert members == b.members;
      case _ =>
    }
  }

  // ---- Normalizing sorts ----

  function IndexOf<T(==)>(s: seq<T>, x: T): (i: nat)
    requires x in s
    ensures i < |s| && s[i] == x
  {
    if s[0] == x then 0 else 1 + IndexOf(s[1..], x)
  }

  /** Sequences without repetition and with the same elements are arrangements of each other. */
  lemma ArrangementOf<T>(a: seq<T>, b: seq<T>) returns (pos: seq<nat>, inv: seq<nat>)
    requires |a| == |b| && forall x :: x in a <==> x in b
    requires forall i, j :: 0 <= i < j < |a| ==> a[i] != a[j]
    requires forall i, j :: 0 <= i < j < |b| ==> b[i] != b[j]
    ensures Arrangement(pos, inv) && |pos| == |a| && forall i :: 0 <= i < |a| ==> b[pos[i]] == a[i]
  {
    assert forall i :: 0 <= i < |a| ==> a[i] in b;
    assert forall i :: 0 <= i < |b| ==> b[i] in a;
    pos := seq(|a|, i requires 0 <= i < |a| => IndexOf(b, a[i]));
    inv := seq(|b|, i requires 0 <= i < |b| => IndexOf(a, b[i]));
  }

  lemma MembersDiffer(ms: seq<Member>)
    requires NamesDiffer(ms)
    ensures DistinctKeys(KeyedMembers(ms))
    ensures forall i, j :: 0 <= i < j < |ms| ==> ms[i] != ms[j]
  {
    forall i, j | 0 <= i < j < |ms|
      ensures Utf16(ms[i].name) != Utf16(ms[j].name)
    {
      if Utf16(ms[i].name) == Utf16(ms[j].name) { Utf16Injective(ms[i].name, ms[j].name); }
    }
  }

  /** Sorted members ascend, and hold the same members. */
  lemma SortedAscends(ms: seq<Member>)
    requires NamesDiffer(ms)
    ensures |SortMembers(ms)| == |ms| && NamesAscending(SortMembers(ms)) && NamesDiffer(SortMembers(ms))
    ensures forall m :: m in SortMembers(ms) <==> m in ms
  {
    var ks := KeyedMembers(ms);
    var s := Sort(ks);
    MembersDiffer(ms);
    SortAscends(ks);
    forall i | 0 <= i < |s|
      ensures s[i].key == Utf16(SortMembers(ms)[i].name)
    {
      assert s[i] in s;
      SameElements(s, ks, s[i]);
      var k :| 0 <= k < |ks| && ks[k] == s[i];
    }
    forall i, j | 0 <= i < j < |s|
      ensures KeyBefore(SortMembers(ms)[i].name, SortMembers(ms)[j].name)
      ensures SortMembers(ms)[i].name != SortMembers(ms)[j].name
    {
      KeyBeforeIsBefore(SortMembers(ms)[i].name, SortMembers(ms)[j].name);
      TotalOrder(SortMembers(ms)[i].name, SortMembers(ms)[j].name, SortMembers(ms)[i].name);
    }
    forall m
      ensures m in SortMembers(ms) <==> m in ms
    {
      SortedMember(ms, m);
    }
  }

  /** The canonical form of a tree without repeated names is sorted at every depth and the same up to member order. */
  lemma {:induction false} NormalizeSorts(j: Json)
    requires DistinctNames(j)
    ensures SortedDeep(Normalize(j)) && SameUpToMemberOrder(j, Normalize(j))
    decreases j
  {
    match j {
      case Array(items) =>
        NormalizedItems(items);
        forall i | 0 <= i < |items|
          ensures SortedDeep(Normalize(items[i])) && SameUpToMemberOrder(items[i], Normalize(items[i]))
        {
          NormalizeSorts(items[i]);
        }
        hide Normalize;
        NormalizeArray(items);
      case Object(members) =>
        forall i | 0 <= i < |members|
          ensures SortedDeep(Normalize(members[i].value))
          ensures SameUpToMemberOrder(members[i].value, Normalize(members[i].value))
        {
          NormalizeSorts(members[i].value);
        }
        hide Normalize;
        NormalizeObject(members);
        SortsObject(members);
      case _ =>
    }
  }

  lemma NormalizedDiffer(ms: seq<Member>)
    requires NamesDiffer(ms)
    ensures NamesDiffer(NormalizeMembers(ms))
  {
    hide Normalize, NormalizeMembers;
    NormalizedMembers(ms);
  }

  lemma DifferingArranged(a: seq<Member>, b: seq<Member>) returns (pos: seq<nat>, inv: seq<nat>)
    requires |a| == |b| && NamesDiffer(a) && NamesDiffer(b) && forall m :: m in a <==> m in b
    ensures Arrangement(pos, inv) && |pos| == |a|
    ensures forall i :: 0 <= i < |a| ==> pos[i] < |b| && b[pos[i]] == a[i]
  {
    pos, inv := ArrangementOf(a, b);
  }

  lemma AllSorted(a: seq<Member>, b: seq<Member>)
    requires forall m :: m in b ==> m in a
    requires forall k :: 0 <= k < |a| ==> SortedDeep(a[k].value)
    ensures forall i :: 0 <= i < |b| ==> SortedDeep(b[i].value)
  {
    forall i | 0 <= i < |b|
      ensures SortedDeep(b[i].value)
    {
      assert b[i] in a;
      var k :| 0 <= k < |a| && a[k] == b[i];
    }
  }

  lemma SortsObject(ms: seq<Member>)
    requires NamesDiffer(ms)
    requires forall i :: 0 <= i < |ms| ==>
               SortedDeep(Normalize(ms[i].value)) && SameUpToMemberOrder(ms[i].value, Normalize(ms[i].value))
    ensures var sorted := Object(SortMembers(NormalizeMembers(ms)));
            SortedDeep(sorted) && SameUpToMemberOrder(Object(ms), sorted)
  {
    hide Normalize, NormalizeMembers, SortMembers, NamesAscending, SameUpToMemberOrder, Arrangement, NamesDiffer;
    assert NamesDiffer(NormalizeMembers(ms)) by { NormalizedDiffer(ms); }
    NormalizedMembers(ms);
    var nm := NormalizeMembers(ms);
    var sorted := SortMembers(nm);
    SortedAscends(nm);
    assert forall k :: 0 <= k < |nm| ==> SortedDeep(nm[k].value);
    AllSorted(nm, sorted);
    var pos, inv := DifferingArranged(nm, sorted);
    assert Moved(ms, sorted, pos, inv);
    MovedObjects(ms, sorted);
  }

  /** Trees without repeated names have one canonical form exactly when they agree up to member order. */
  lemma SameForm(a: Json, b: Json)
    requires DistinctNames(a) && DistinctNames(b)
    ensures Normalize(a) == Normalize(b) <==> SameUpToMemberOrder(a, b)
  {
    hide Normalize, SameUpToMemberOrder, SortedDeep, DistinctNames;
    NormalizeSorts(a);
    NormalizeSorts(b);
    SameSymmetric(a, Normalize(a));
    SameSymmetric(b, Normalize(b));
    if Normalize(a) == Normalize(b) { SameTransitive(a, Normalize(a), b); }
    if SameUpToMemberOrder(a, b) {
      SameTransitive(Normalize(a), a, b);
      SameTransitive(Normalize(a), b, Normalize(b));
      SortedUnique(Normalize(a), Normalize(b));
    }
  }

  /** Canonical bytes of such trees, their numbers exact, are equal exactly when they agree up to member order. */
  lemma CanonicalInjective(a: Json, b: Json)
    requires AllNumbers(a, PrintsExactly) && AllNumbers(b, PrintsExactly)
    requires AllNumbers(a, Is64Bit) && AllNumbers(b, Is64Bit)
    requires DistinctNames(a) && DistinctNames(b)
    ensures Canonical(a) == Canonical(b) <==> SameUpToMemberOrder(a, b)
  {
    hide Normalize, SameUpToMemberOrder, DistinctNames, Canonical, Plain, Utf8;
    CanonicalExact(a);
    CanonicalExact(b);
    SameForm(a, b);
    if Canonical(a) == Canonical(b) { BytesInjective(Normalize(a), Normalize(b)); }
  }

  /** With a repeated name member order is seen: sorting keeps the members of one name as they stand. */
  lemma RepeatedNameKeepsOrder()
    ensures var a, b := Object([Member("x", Null), Member("x", Bool(true))]), Object([Member("x", Bool(true)), Member("x", Null)]);
            SameUpToMemberOrder(a, b) && Normalize(a) != Normalize(b) && !DistinctNames(a)
  {
    var u, v := Member("x", Null), Member("x", Bool(true));
    SwappedMembers(u, v);
    NormalizePairKept(u, v);
    NormalizePairKept(v, u);
    assert [u, v][0] != [v, u][0];
    assert !NamesDiffer([u, v]);
  }

  lemma SwappedMembers(u: Member, v: Member)
    requires SameUpToMemberOrder(u.value, u.value) && SameUpToMemberOrder(v.value, v.value)
    ensures SameUpToMemberOrder(Object([u, v]), Object([v, u]))
  {
    hide SameUpToMemberOrder;
    var pos: seq<nat> := [1, 0];
    assert Moved([u, v], [v, u], pos, pos);
    MovedObjects([u, v], [v, u]);
  }

  lemma NormalizePairKept(u: Member, v: Member)
    requires u.name == v.name && Normalize(u.value) == u.value && Normalize(v.value) == v.value
    ensures Normalize(Object([u, v])) == Object([u, v])
  {
    hide Normalize, NormalizeMembers, SortMembers;
    var ms := [u, v];
    NormalizeObject(ms);
    NormalizedMembers(ms);
    assert NormalizeMembers(ms) == ms;
    SortedPairKept(u, v);
  }

  lemma SortedPairKept(u: Member, v: Member)
    requires u.name == v.name
    ensures SortMembers([u, v]) == [u, v]
  {
    hide Utf16;
    var x, y := Keyed(Utf16(u.name), u), Keyed(Utf16(v.name), v);
    assert KeyedMembers([u, v]) == [x, y];
    SortPair(x, y);
  }

  lemma SortPair<T>(x: Keyed<T>, y: Keyed<T>)
    requires x.key == y.key
    ensures Sort([x, y]) == [x, y]
  {
    CompareEqual(x.key, y.key);
    hide Compare;
    assert [x, y][1..] == [y] && [y][1..] == [];
    assert Sort([y]) == [y];
  }
}

/** The state of a selector context as a value, the effect of inserts on it, and what it means. */
module ContextValues {
  import opened Wrappers
  import opened Protocol
  import opened Ordering
  import opened SelectorKinds

  datatype SelectorValues = SelectorValues(kind: SelectorKind, values: seq<string>)

  datatype ContextValue = ContextValue(entries: seq<SelectorValues>, kindIndex: seq<Option<nat>>)

  const EMPTY := ContextValue([], [None, None, None, None])

  // ---- Invariant ----

  ghost predicate NoDuplicates<T>(s: seq<T>) {
    forall i, j :: 0 <= i < j < |s| ==> s[i] != s[j]
  }

  ghost predicate DistinctKinds(entries: seq<SelectorValues>) {
    forall i, j :: 0 <= i < j < |entries| ==> KeyOf(entries[i].kind) != KeyOf(entries[j].kind)
  }

  /** Slot s of the index names exactly the entry whose kind has index s. */
  ghost predicate IndexExact(c: ContextValue) {
    && |c.kindIndex| == 4
    && (forall s :: 0 <= s < 4 && c.kindIndex[s].Some? ==>
          c.kindIndex[s].value < |c.entries| && KindIndex(c.entries[c.kindIndex[s].value].kind) == Some(s))
    && (forall i :: 0 <= i < |c.entries| ==> KindIndex(c.entries[i].kind).Some? ==>
          c.kindIndex[KindIndex(c.entries[i].kind).value] == Some(i))
  }

  ghost predicate WellBuilt(c: ContextValue) {
    && |c.entries| <= MAX_REQUEST_SELECTOR_KINDS
    && DistinctKinds(c.entries)
    && IndexExact(c)
    && (forall i :: 0 <= i < |c.entries| ==>
          && 1 <= |c.entries[i].values| <= MAX_REQUEST_VALUES_PER_KIND
          && NoDuplicates(c.entries[i].values))
  }

  ghost predicate Genuine(c: ContextValue) {
    forall i :: 0 <= i < |c.entries| ==> Classified(c.entries[i].kind)
  }

  /** Holds of every context reached by inserts from the empty one. */
  type BuiltContext = c: ContextValue | WellBuilt(c) && Genuine(c) witness EMPTY

  // ---- Insert and lookup ----

  /** Position of the first entry of the same kind, or |entries| when there is none. */
  function FindEntry(entries: seq<SelectorValues>, kind: SelectorKind): (i: nat)
    ensures i <= |entries|
    ensures i < |entries| ==> KeyOf(entries[i].kind) == KeyOf(kind)
    ensures forall j :: 0 <= j < i ==> KeyOf(entries[j].kind) != KeyOf(kind)
  {
    if entries == [] || SameKind(entries[0].kind, kind) then 0 else 1 + FindEntry(entries[1..], kind)
  }

  /** The entries after adding one value, when no limit is exceeded. */
  function InsertEntry(entries: seq<SelectorValues>, kind: SelectorKind, value: string)
    : Result<seq<SelectorValues>, TrustGrantError>
  {
    var i := FindEntry(entries, kind);
    if i < |entries| then
      var values := entries[i].values;
      if value in values then Ok(entries)
      else
        var _ :- EnsureCollectionLimit("request.selector_values", |values| + 1, MAX_REQUEST_VALUES_PER_KIND);
        Ok(entries[i := SelectorValues(entries[i].kind, values + [value])])
    else
      var _ :- EnsureCollectionLimit("request.selector_kinds", |entries| + 1, MAX_REQUEST_SELECTOR_KINDS);
      Ok(entries + [SelectorValues(kind, [value])])
  }

  /** A new entry of a built-in kind is recorded in its slot. */
  function UpdateIndex(c: ContextValue, kind: SelectorKind): seq<Option<nat>> {
    if FindEntry(c.entries, kind) == |c.entries| && KindIndex(kind).Some? && KindIndex(kind).value < |c.kindIndex|
    then c.kindIndex[KindIndex(kind).value := Some(|c.entries|)]
    else c.kindIndex
  }

  function NormalizeValue(value: string): Result<string, TrustGrantError> {
    NormalizeBounded("selector_context.value", value, MAX_REQUEST_SELECTOR_VALUE_BYTES)
  }

  /** A validated kind and value. */
  datatype Item = Item(kind: SelectorKind, value: string)

  function Resolve(kind: string, value: string): Result<Item, TrustGrantError> {
    var k :- New(kind);
    var v :- NormalizeValue(value);
    Ok(Item(k, v))
  }

  function InsertItem(c: ContextValue, item: Item): Result<ContextValue, TrustGrantError> {
    var entries :- InsertEntry(c.entries, item.kind, item.value);
    Ok(ContextValue(entries, UpdateIndex(c, item.kind)))
  }

  function Insert(c: ContextValue, kind: string, value: string): Result<ContextValue, TrustGrantError> {
    var item :- Resolve(kind, value);
    InsertItem(c, item)
  }

  function Scan(entries: seq<SelectorValues>, kind: SelectorKind): Option<seq<string>> {
    var i := FindEntry(entries, kind);
    if i < |entries| then Some(entries[i].values) else None
  }

  /** The indexed lookup, with the scan as its fallback. */
  function ValuesForKind(c: ContextValue, kind: SelectorKind): Option<seq<string>> {
    var slot := KindIndex(kind);
    if slot.Some? && slot.value < |c.kindIndex| && c.kindIndex[slot.value].Some?
       && c.kindIndex[slot.value].value < |c.entries| then
      Some(c.entries[c.kindIndex[slot.value].value].values)
    else Scan(c.entries, kind)
  }

  lemma EmptyWellBuilt()
    ensures WellBuilt(EMPTY) && Genuine(EMPTY)
  {
  }

  lemma InsertKeepsIndex(c: ContextValue, item: Item)
    requires IndexExact(c) && DistinctKinds(c.entries)
    ensures var r := InsertItem(c, item); r.Ok? ==> IndexExact(r.value)
  {
    var r, i := InsertItem(c, item), FindEntry(c.entries, item.kind);
    if r.Ok? && i < |c.entries| {
      assert forall j :: 0 <= j < |c.entries| ==> r.value.entries[j].kind == c.entries[j].kind;
    } else if r.Ok? {
      AppendKeepsIndex(c, item);
    }
  }

  lemma AppendKeepsIndex(c: ContextValue, item: Item)
    requires IndexExact(c) && FindEntry(c.entries, item.kind) == |c.entries|
    ensures IndexExact(ContextValue(c.entries + [SelectorValues(item.kind, [item.value])], UpdateIndex(c, item.kind)))
  {
    hide KindIndex;
    var entries, index := c.entries + [SelectorValues(item.kind, [item.value])], UpdateIndex(c, item.kind);
    var slot := KindIndex(item.kind);
    forall s | 0 <= s < 4 && index[s].Some?
      ensures index[s].value < |entries| && KindIndex(entries[index[s].value].kind) == Some(s)
    {
      if Some(s) != slot {
        assert index[s] == c.kindIndex[s];
      }
    }
    forall j | 0 <= j < |entries| && KindIndex(entries[j].kind).Some?
      ensures index[KindIndex(entries[j].kind).value] == Some(j)
    {
      if j < |c.entries| {
        assert KeyOf(c.entries[j].kind) != KeyOf(item.kind);
        assert entries[j] == c.entries[j];
      }
    }
  }

  lemma InsertKeepsSizes(c: ContextValue, item: Item)
    requires WellBuilt(c)
    ensures var r := InsertItem(c, item);
            r.Ok? ==>
              && |r.value.entries| <= MAX_REQUEST_SELECTOR_KINDS
              && (forall i :: 0 <= i < |r.value.entries| ==>
                    && 1 <= |r.value.entries[i].values| <= MAX_REQUEST_VALUES_PER_KIND
                    && NoDuplicates(r.value.entries[i].values))
  {
    var i := FindEntry(c.entries, item.kind);
    if i < |c.entries| && item.value !in c.entries[i].values {
      assert NoDuplicates(c.entries[i].values + [item.value]);
    }
  }

  lemma InsertKeepsKinds(c: ContextValue, item: Item)
    requires DistinctKinds(c.entries)
    ensures var r := InsertItem(c, item); r.Ok? ==> DistinctKinds(r.value.entries)
  {
    hide KeyOf;
    var r := InsertItem(c, item);
    if r.Ok? {
      assert forall j :: 0 <= j < |c.entries| ==> r.value.entries[j].kind == c.entries[j].kind;
    }
  }

  /** A successful insert keeps kinds distinct, values duplicate-free, sizes bounded and the index exact. */
  lemma InsertKeepsWellBuilt(c: ContextValue, item: Item)
    requires WellBuilt(c)
    ensures var r := InsertItem(c, item); r.Ok? ==> WellBuilt(r.value)
  {
    hide InsertItem, IndexExact, DistinctKinds, NoDuplicates;
    InsertKeepsIndex(c, item);
    InsertKeepsSizes(c, item);
    InsertKeepsKinds(c, item);
  }

  lemma InsertKeepsGenuine(c: ContextValue, item: Item)
    requires Genuine(c) && Classified(item.kind)
    ensures var r := InsertItem(c, item); r.Ok? ==> Genuine(r.value)
  {
    var r := InsertItem(c, item);
    if r.Ok? {
      forall j | 0 <= j < |r.value.entries|
        ensures r.value.entries[j].kind == item.kind || (j < |c.entries| && r.value.entries[j].kind == c.entries[j].kind)
      {
      }
    }
  }

  lemma ResolveClassifies(kind: string, value: string)
    ensures Resolve(kind, value).Ok? ==> Classified(Resolve(kind, value).value.kind)
  {
  }

  /** The cached index always gives what the linear scan gives. */
  lemma IndexMatchesScan(c: ContextValue, kind: SelectorKind)
    requires WellBuilt(c)
    ensures ValuesForKind(c, kind) == Scan(c.entries, kind)
  {
    var slot := KindIndex(kind);
    var i := FindEntry(c.entries, kind);
    if slot.Some? && c.kindIndex[slot.value].Some? {
      var e := c.kindIndex[slot.value].value;
      assert KeyOf(c.entries[e].kind) == KeyOf(kind);
      assert i == e;
    }
  }

  // ---- Meaning ----

  function ToSet<T>(s: seq<T>): set<T> {
    set x | x in s
  }

  /** A context read as a map from kinds to value sets. */
  function EntriesMeaning(entries: seq<SelectorValues>): map<KindKey, set<string>> {
    if entries == [] then map[]
    else
      var last := entries[|entries| - 1];
      EntriesMeaning(entries[..|entries| - 1])[KeyOf(last.kind) := ToSet(last.values)]
  }

  function Meaning(c: ContextValue): map<KindKey, set<string>> {
    EntriesMeaning(c.entries)
  }

  lemma {:induction false} MeaningKeys(entries: seq<SelectorValues>, k: KindKey)
    ensures k in EntriesMeaning(entries) <==> exists i :: 0 <= i < |entries| && KeyOf(entries[i].kind) == k
  {
    if entries != [] {
      var n := |entries| - 1;
      MeaningKeys(entries[..n], k);
      if i :| 0 <= i < |entries| && KeyOf(entries[i].kind) == k {
        assert i < n ==> entries[..n][i] == entries[i];
      }
    }
  }

  lemma {:induction false} MeaningAt(entries: seq<SelectorValues>, i: nat)
    requires DistinctKinds(entries) && i < |entries|
    ensures KeyOf(entries[i].kind) in EntriesMeaning(entries)
    ensures EntriesMeaning(entries)[KeyOf(entries[i].kind)] == ToSet(entries[i].values)
  {
    var n := |entries| - 1;
    if i < n {
      MeaningAt(entries[..n], i);
      assert entries[..n][i] == entries[i];
    }
  }

  /** Lookup reads the meaning: present exactly for the kinds of the map, with that kind's values. */
  lemma LookupMeaning(c: ContextValue, kind: SelectorKind)
    requires WellBuilt(c)
    ensures ValuesForKind(c, kind).Some? <==> KeyOf(kind) in Meaning(c)
    ensures ValuesForKind(c, kind).Some? ==> ToSet(ValuesForKind(c, kind).value) == Meaning(c)[KeyOf(kind)]
  {
    IndexMatchesScan(c, kind);
    MeaningKeys(c.entries, KeyOf(kind));
    var i := FindEntry(c.entries, kind);
    if i < |c.entries| {
      MeaningAt(c.entries, i);
    }
  }

  // ---- Sequences of inserts ----

  function InsertItems(items: seq<Item>): Result<ContextValue, TrustGrantError> {
    if items == [] then Ok(EMPTY)
    else
      var c :- InsertItems(items[..|items| - 1]);
      InsertItem(c, items[|items| - 1])
  }

  /** The kinds a list of items names. */
  function WantedKinds(items: seq<Item>): set<KindKey> {
    set x | x in items :: KeyOf(x.kind)
  }

  /** The values a list of items gives one kind. */
  function WantedValues(items: seq<Item>, k: KindKey): set<string> {
    set x | x in items && KeyOf(x.kind) == k :: x.value
  }

  function Wanted(items: seq<Item>): map<KindKey, set<string>> {
    map k | k in WantedKinds(items) :: WantedValues(items, k)
  }

  /** The final sets are within the limits. */
  ghost predicate Fits(items: seq<Item>) {
    && |WantedKinds(items)| <= MAX_REQUEST_SELECTOR_KINDS
    && (forall k :: k in WantedKinds(items) ==> |WantedValues(items, k)| <= MAX_REQUEST_VALUES_PER_KIND)
  }

  lemma SubsetSize<T>(a: set<T>, b: set<T>)
    requires a <= b
    ensures |a| <= |b|
  {
    assert b == a + (b - a);
  }

  lemma {:induction false} DistinctSize<T>(s: seq<T>)
    requires NoDuplicates(s)
    ensures |ToSet(s)| == |s|
  {
    if s != [] {
      var n := |s| - 1;
      DistinctSize(s[..n]);
      assert ToSet(s) == ToSet(s[..n]) + {s[n]};
      assert s[n] !in s[..n];
    }
  }

  lemma {:induction false} MeaningSize(entries: seq<SelectorValues>)
    requires DistinctKinds(entries)
    ensures |EntriesMeaning(entries).Keys| == |entries|
  {
    if entries != [] {
      var n := |entries| - 1;
      MeaningSize(entries[..n]);
      MeaningKeys(entries[..n], KeyOf(entries[n].kind));
      assert EntriesMeaning(entries).Keys == EntriesMeaning(entries[..n]).Keys + {KeyOf(entries[n].kind)};
    }
  }

  lemma {:induction false} MeaningOfUpdate(entries: seq<SelectorValues>, i: nat, values: seq<string>)
    requires DistinctKinds(entries) && i < |entries|
    ensures EntriesMeaning(entries[i := SelectorValues(entries[i].kind, values)])
            == EntriesMeaning(entries)[KeyOf(entries[i].kind) := ToSet(values)]
  {
    var n := |entries| - 1;
    var updated := entries[i := SelectorValues(entries[i].kind, values)];
    if i < n {
      MeaningOfUpdate(entries[..n], i, values);
      assert updated[..n] == entries[..n][i := SelectorValues(entries[i].kind, values)];
      assert KeyOf(entries[i].kind) != KeyOf(entries[n].kind);
    } else {
      assert updated[..n] == entries[..n];
    }
  }

  function ValuesOf(m: map<KindKey, set<string>>, k: KindKey): set<string> {
    if k in m then m[k] else {}
  }

  /** An insert adds the value to its kind's set, and succeeds exactly when the grown sets are within the limits. */
  ghost predicate InsertsMeaning(c: ContextValue, item: Item) {
    var r, k := InsertItem(c, item), KeyOf(item.kind);
    var after := Meaning(c)[k := ValuesOf(Meaning(c), k) + {item.value}];
    && (r.Ok? <==> |after.Keys| <= MAX_REQUEST_SELECTOR_KINDS && |after[k]| <= MAX_REQUEST_VALUES_PER_KIND)
    && (r.Ok? ==> Meaning(r.value) == after)
  }

  lemma InsertMeaning(c: ContextValue, item: Item)
    requires WellBuilt(c)
    ensures InsertsMeaning(c, item)
  {
    if FindEntry(c.entries, item.kind) < |c.entries| {
      InsertMeaningOld(c, item);
    } else {
      InsertMeaningNew(c, item);
    }
  }

  lemma InsertMeaningOld(c: ContextValue, item: Item)
    requires WellBuilt(c) && FindEntry(c.entries, item.kind) < |c.entries|
    ensures InsertsMeaning(c, item)
  {
    var k, v, m, i := KeyOf(item.kind), item.value, Meaning(c), FindEntry(c.entries, item.kind);
    var after := m[k := ValuesOf(m, k) + {v}];
    MeaningSize(c.entries);
    var values := c.entries[i].values;
    MeaningAt(c.entries, i);
    DistinctSize(values);
    assert after.Keys == m.Keys;
    if v in values {
      assert ToSet(values) + {v} == ToSet(values);
      assert after == m;
    } else {
      MeaningOfUpdate(c.entries, i, values + [v]);
      assert ToSet(values + [v]) == ToSet(values) + {v};
      assert |ToSet(values) + {v}| == |values| + 1;
    }
  }

  lemma InsertMeaningNew(c: ContextValue, item: Item)
    requires WellBuilt(c) && FindEntry(c.entries, item.kind) == |c.entries|
    ensures InsertsMeaning(c, item)
  {
    var k, v, m := KeyOf(item.kind), item.value, Meaning(c);
    var after := m[k := ValuesOf(m, k) + {v}];
    MeaningKeys(c.entries, k);
    MeaningSize(c.entries);
    assert after.Keys == m.Keys + {k};
    assert |after.Keys| == |c.entries| + 1;
    assert after[k] == {v};
    var added := c.entries + [SelectorValues(item.kind, [v])];
    assert added[..|added| - 1] == c.entries;
    assert ToSet([v]) == {v};
  }

  lemma WantedKindsStep(items: seq<Item>, last: Item)
    ensures WantedKinds(items + [last]) == WantedKinds(items) + {KeyOf(last.kind)}
  {
    assert forall x :: x in items + [last] <==> x in items || x == last;
    assert last in items + [last];
  }

  lemma WantedValuesStep(items: seq<Item>, last: Item, k: KindKey)
    ensures WantedValues(items + [last], k)
            == WantedValues(items, k) + if k == KeyOf(last.kind) then {last.value} else {}
  {
    assert forall x :: x in items + [last] <==> x in items || x == last;
    assert last in items + [last];
  }

  lemma WantedStep(items: seq<Item>, last: Item)
    ensures var k := KeyOf(last.kind);
            Wanted(items + [last]) == Wanted(items)[k := ValuesOf(Wanted(items), k) + {last.value}]
  {
    var all, k := items + [last], KeyOf(last.kind);
    var l, r := Wanted(all), Wanted(items)[k := ValuesOf(Wanted(items), k) + {last.value}];
    WantedKindsStep(items, last);
    assert l.Keys == r.Keys;
    forall j | j in l
      ensures l[j] == r[j]
    {
      WantedValuesStep(items, last, j);
      assert j !in WantedKinds(items) ==> WantedValues(items, j) == {};
    }
  }

  lemma FitsFront(front: seq<Item>, last: Item)
    ensures Fits(front + [last]) <==>
            && Fits(front)
            && |WantedKinds(front + [last])| <= MAX_REQUEST_SELECTOR_KINDS
            && |WantedValues(front + [last], KeyOf(last.kind))| <= MAX_REQUEST_VALUES_PER_KIND
  {
    var all, k := front + [last], KeyOf(last.kind);
    WantedKindsStep(front, last);
    SubsetSize(WantedKinds(front), WantedKinds(all));
    assert k in WantedKinds(all);
    forall j | j in WantedKinds(all)
      ensures |WantedValues(front, j)| <= |WantedValues(all, j)|
      ensures j != k ==> WantedValues(front, j) == WantedValues(all, j)
    {
      WantedValuesStep(front, last, j);
      SubsetSize(WantedValues(front, j), WantedValues(all, j));
    }
  }

  /** Inserting a whole list succeeds exactly when its sets fit, and then the context means those sets. */
  lemma {:induction false} InsertItemsMeaning(items: seq<Item>)
    ensures InsertItems(items).Ok? <==> Fits(items)
    ensures InsertItems(items).Ok? ==>
              WellBuilt(InsertItems(items).value) && Meaning(InsertItems(items).value) == Wanted(items)
  {
    if items == [] {
      EmptyWellBuilt();
    } else {
      var front, last := items[..|items| - 1], items[|items| - 1];
      assert items == front + [last];
      InsertItemsMeaning(front);
      WantedStep(front, last);
      FitsFront(front, last);
      if Fits(front) {
        var c := InsertItems(front).value;
        InsertMeaning(c, last);
        InsertKeepsWellBuilt(c, last);
        assert Wanted(items).Keys == WantedKinds(items);
        assert Wanted(items)[KeyOf(last.kind)] == WantedValues(items, KeyOf(last.kind));
      }
    }
  }

  lemma WantedOrderIrrelevant(a: seq<Item>, b: seq<Item>)
    requires forall x :: x in a <==> x in b
    ensures WantedKinds(a) == WantedKinds(b)
    ensures forall k :: WantedValues(a, k) == WantedValues(b, k)
    ensures Wanted(a) == Wanted(b)
  {
    assert WantedKinds(a) == WantedKinds(b);
    forall k
      ensures WantedValues(a, k) == WantedValues(b, k)
    {
    }
  }

  // ---- Lists of texts ----

  datatype Pair = Pair(kind: string, value: string)

  /** Calls `insert` with each pair in turn, stopping at the first error. */
  function InsertAll(pairs: seq<Pair>): Result<ContextValue, TrustGrantError> {
    if pairs == [] then Ok(EMPTY)
    else
      var c :- InsertAll(pairs[..|pairs| - 1]);
      Insert(c, pairs[|pairs| - 1].kind, pairs[|pairs| - 1].value)
  }

  predicate WellFormed(p: Pair) {
    Resolve(p.kind, p.value).Ok?
  }

  ghost predicate AllWellFormed(pairs: seq<Pair>) {
    forall p :: p in pairs ==> WellFormed(p)
  }

  function Items(pairs: seq<Pair>): (r: seq<Item>)
    requires AllWellFormed(pairs)
  {
    if pairs == [] then []
    else
      var front, last := pairs[..|pairs| - 1], pairs[|pairs| - 1];
      assert forall p :: p in front ==> p in pairs;
      assert last in pairs;
      Items(front) + [Resolve(last.kind, last.value).value]
  }

  lemma {:induction false} InsertAllResolves(pairs: seq<Pair>)
    ensures InsertAll(pairs).Ok? ==> AllWellFormed(pairs)
    ensures AllWellFormed(pairs) ==> InsertAll(pairs) == InsertItems(Items(pairs))
  {
    hide Resolve, InsertItem;
    if pairs != [] {
      var front, last := pairs[..|pairs| - 1], pairs[|pairs| - 1];
      InsertAllResolves(front);
      assert forall p :: p in pairs <==> p in front || p == last;
      if AllWellFormed(pairs) {
        var items := Items(pairs);
        assert last in pairs;
        assert items[..|items| - 1] == Items(front);
        assert items[|items| - 1] == Resolve(last.kind, last.value).value;
      }
    }
  }

  lemma {:induction false} ItemsCount(pairs: seq<Pair>, item: Item)
    requires AllWellFormed(pairs)
    ensures item in Items(pairs) <==> exists p :: p in pairs && Resolve(p.kind, p.value).value == item
  {
    if pairs != [] {
      var front, last := pairs[..|pairs| - 1], pairs[|pairs| - 1];
      assert forall p :: p in pairs <==> p in front || p == last;
      ItemsCount(front, item);
    }
  }

  /** The order of inserts does not matter: neither for success nor for the value sets. */
  lemma InsertionOrderIrrelevant(a: seq<Pair>, b: seq<Pair>)
    requires multiset(a) == multiset(b)
    ensures InsertAll(a).Ok? <==> InsertAll(b).Ok?
    ensures InsertAll(a).Ok? ==> Meaning(InsertAll(a).value) == Meaning(InsertAll(b).value)
  {
    forall p
      ensures p in a <==> p in b
    {
      SameElements(a, b, p);
    }
    InsertAllResolves(a);
    InsertAllResolves(b);
    if AllWellFormed(a) {
      forall x
        ensures x in Items(a) <==> x in Items(b)
      {
        ItemsCount(a, x);
        ItemsCount(b, x);
      }
      WantedOrderIrrelevant(Items(a), Items(b));
      InsertItemsMeaning(Items(a));
      InsertItemsMeaning(Items(b));
    }
  }

  lemma {:induction false} InsertAllBuilt(pairs: seq<Pair>)
    requires InsertAll(pairs).Ok?
    ensures WellBuilt(InsertAll(pairs).value) && Genuine(InsertAll(pairs).value)
  {
    hide Resolve, InsertItem, WellBuilt, Genuine;
    if pairs == [] {
      EmptyWellBuilt();
    } else {
      var front, last := pairs[..|pairs| - 1], pairs[|pairs| - 1];
      InsertAllBuilt(front);
      var c, item := InsertAll(front).value, Resolve(last.kind, last.value).value;
      ResolveClassifies(last.kind, last.value);
      InsertKeepsWellBuilt(c, item);
      InsertKeepsGenuine(c, item);
    }
  }
}

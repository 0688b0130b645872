/** What a context keeps of the inserts that built it beside its value sets: spellings and orders. */
module InsertOrders {
  import opened Wrappers
  import opened SelectorKinds
  import opened ContextValues

  predicate Ascending(pos: seq<nat>) {
    forall a, b :: 0 <= a < b < |pos| ==> pos[a] < pos[b]
  }

  /** Item i is the first of its kind. */
  predicate FirstOfKind(items: seq<Item>, i: nat) {
    i < |items| && forall j :: 0 <= j < i ==> KeyOf(items[j].kind) != KeyOf(items[i].kind)
  }

  /** Item i is the first of this kind with its value. */
  predicate FirstOfValue(items: seq<Item>, kind: SelectorKind, i: nat) {
    && i < |items| && KeyOf(items[i].kind) == KeyOf(kind)
    && forall j :: 0 <= j < i && items[j].value == items[i].value ==> KeyOf(items[j].kind) != KeyOf(kind)
  }

  lemma InsertedEntries(c: ContextValue, item: Item)
    requires InsertItem(c, item).Ok?
    ensures var r, at := InsertItem(c, item).value.entries, FindEntry(c.entries, item.kind);
            if at == |c.entries| then r == c.entries + [SelectorValues(item.kind, [item.value])]
            else
              var e := c.entries[at];
              r == c.entries[at := SelectorValues(
                     e.kind, if item.value in e.values then e.values else e.values + [item.value])]
  {
  }

  /** Entry a is of the kind first inserted at pos[a], as it was spelled there, and every item has its entry. */
  ghost predicate Opens(entries: seq<SelectorValues>, items: seq<Item>, pos: seq<nat>) {
    && |pos| == |entries| && Ascending(pos)
    && (forall a :: 0 <= a < |pos| ==> FirstOfKind(items, pos[a]) && items[pos[a]].kind == entries[a].kind)
    && (forall i :: 0 <= i < |items| ==> FindEntry(entries, items[i].kind) < |entries|)
  }

  lemma FirstOfKindLater(front: seq<Item>, last: Item, i: nat)
    requires FirstOfKind(front, i)
    ensures FirstOfKind(front + [last], i)
  {
  }

  lemma NewKindOpens(entries: seq<SelectorValues>, front: seq<Item>, last: Item, pos: seq<nat>)
    requires Opens(entries, front, pos) && FindEntry(entries, last.kind) == |entries|
    ensures Opens(entries + [SelectorValues(last.kind, [last.value])], front + [last], pos + [|front|])
  {
    hide FindEntry, KeyOf;
    var n, items, all := |front|, front + [last], entries + [SelectorValues(last.kind, [last.value])];
    forall i | 0 <= i <= n
      ensures FindEntry(all, items[i].kind) < |all|
    {
      FindsOwn(all, items[i].kind, if i < n then FindEntry(entries, front[i].kind) else |entries|);
    }
    forall j | 0 <= j < n
      ensures KeyOf(front[j].kind) != KeyOf(last.kind)
    {
      if KeyOf(front[j].kind) == KeyOf(last.kind) { FindsAlike(entries, front[j].kind, last.kind); }
    }
    forall a | 0 <= a < |pos|
      ensures FirstOfKind(items, pos[a])
    {
      FirstOfKindLater(front, last, pos[a]);
    }
  }

  lemma FindsOwn(entries: seq<SelectorValues>, kind: SelectorKind, i: nat)
    requires i < |entries| && KeyOf(entries[i].kind) == KeyOf(kind)
    ensures FindEntry(entries, kind) < |entries|
  {
  }

  lemma FindsAlike(entries: seq<SelectorValues>, a: SelectorKind, b: SelectorKind)
    requires KeyOf(a) == KeyOf(b)
    ensures FindEntry(entries, a) == FindEntry(entries, b)
  {
  }

  lemma OldKindOpens(entries: seq<SelectorValues>, all: seq<SelectorValues>, front: seq<Item>, last: Item, pos: seq<nat>)
    requires Opens(entries, front, pos) && FindEntry(entries, last.kind) < |entries|
    requires |all| == |entries| && forall a :: 0 <= a < |all| ==> all[a].kind == entries[a].kind
    ensures Opens(all, front + [last], pos)
  {
    hide FindEntry, KeyOf;
    var items := front + [last];
    forall i | 0 <= i <= |front|
      ensures FindEntry(all, items[i].kind) < |all|
    {
      FindsOwn(all, items[i].kind, FindEntry(entries, items[i].kind));
    }
    forall a | 0 <= a < |pos|
      ensures FirstOfKind(items, pos[a])
    {
      FirstOfKindLater(front, last, pos[a]);
    }
  }

  lemma NothingOpens()
    ensures Opens([], [], [])
  {
  }

  lemma KindsStep(c: ContextValue, front: seq<Item>, last: Item, pos: seq<nat>) returns (next: seq<nat>)
    requires Opens(c.entries, front, pos) && InsertItem(c, last).Ok?
    ensures Opens(InsertItem(c, last).value.entries, front + [last], next)
  {
    hide InsertItem, FindEntry, KeyOf, Opens;
    InsertedEntries(c, last);
    if FindEntry(c.entries, last.kind) == |c.entries| {
      NewKindOpens(c.entries, front, last, pos);
      next := pos + [|front|];
    } else {
      OldKindOpens(c.entries, InsertItem(c, last).value.entries, front, last, pos);
      next := pos;
    }
  }

  /** Entries stand in the order in which their kinds were first inserted, and keep the spelling of that insert. */
  lemma {:induction false} KindsInOrder(items: seq<Item>) returns (pos: seq<nat>)
    requires InsertItems(items).Ok?
    ensures Opens(InsertItems(items).value.entries, items, pos)
  {
    hide InsertItem, Opens;
    pos := [];
    NothingOpens();
    if items != [] {
      var n := |items| - 1;
      pos := KindsInOrder(items[..n]);
      pos := KindsStep(InsertItems(items[..n]).value, items[..n], items[n], pos);
      assert items[..n] + [items[n]] == items;
    }
  }

  // ---- Values ----

  /** The values of one kind, each where it was first inserted for that kind. */
  ghost predicate Gives(values: seq<string>, items: seq<Item>, kind: SelectorKind, pos: seq<nat>) {
    && |pos| == |values| && Ascending(pos)
    && (forall a :: 0 <= a < |pos| ==> FirstOfValue(items, kind, pos[a]) && items[pos[a]].value == values[a])
    && (forall i :: 0 <= i < |items| && KeyOf(items[i].kind) == KeyOf(kind) ==> items[i].value in values)
  }

  function ValuesOfKind(entries: seq<SelectorValues>, kind: SelectorKind): seq<string> {
    Scan(entries, kind).UnwrapOr([])
  }

  lemma InsertedValues(c: ContextValue, item: Item, kind: SelectorKind)
    requires InsertItem(c, item).Ok?
    ensures var before, after := ValuesOfKind(c.entries, kind), ValuesOfKind(InsertItem(c, item).value.entries, kind);
            after == if KeyOf(item.kind) != KeyOf(kind) || item.value in before then before else before + [item.value]
  {
    hide InsertItem, FindEntry, KeyOf;
    InsertedEntries(c, item);
    var all, i := InsertItem(c, item).value.entries, FindEntry(c.entries, kind);
    if KeyOf(item.kind) == KeyOf(kind) { FindsAlike(c.entries, item.kind, kind); }
    if i < |c.entries| {
      FindsFirst(all, kind, i);
    } else if KeyOf(item.kind) == KeyOf(kind) {
      FindsFirst(all, kind, i);
    } else if FindEntry(all, kind) < |all| {
      FindsOwn(c.entries, kind, FindEntry(all, kind));
    }
  }

  lemma FindsFirst(entries: seq<SelectorValues>, kind: SelectorKind, i: nat)
    requires i < |entries| && KeyOf(entries[i].kind) == KeyOf(kind)
    requires forall j :: 0 <= j < i ==> KeyOf(entries[j].kind) != KeyOf(kind)
    ensures FindEntry(entries, kind) == i
  {
  }

  lemma SameValuesGiven(values: seq<string>, front: seq<Item>, last: Item, kind: SelectorKind, pos: seq<nat>)
    requires Gives(values, front, kind, pos)
    requires KeyOf(last.kind) == KeyOf(kind) ==> last.value in values
    ensures Gives(values, front + [last], kind, pos)
  {
    hide KeyOf;
  }

  lemma NewValueGiven(values: seq<string>, front: seq<Item>, last: Item, kind: SelectorKind, pos: seq<nat>)
    requires Gives(values, front, kind, pos) && KeyOf(last.kind) == KeyOf(kind) && last.value !in values
    ensures Gives(values + [last.value], front + [last], kind, pos + [|front|])
  {
    hide KeyOf;
  }

  lemma NothingGiven(kind: SelectorKind)
    ensures Gives(ValuesOfKind([], kind), [], kind, [])
  {
  }

  lemma ValuesStep(c: ContextValue, front: seq<Item>, last: Item, kind: SelectorKind, pos: seq<nat>)
    returns (next: seq<nat>)
    requires InsertItem(c, last).Ok? && Gives(ValuesOfKind(c.entries, kind), front, kind, pos)
    ensures Gives(ValuesOfKind(InsertItem(c, last).value.entries, kind), front + [last], kind, next)
  {
    hide InsertItem, Gives, KeyOf, ValuesOfKind;
    InsertedValues(c, last, kind);
    var before := ValuesOfKind(c.entries, kind);
    if KeyOf(last.kind) != KeyOf(kind) || last.value in before {
      SameValuesGiven(before, front, last, kind, pos);
      next := pos;
    } else {
      NewValueGiven(before, front, last, kind, pos);
      next := pos + [|front|];
    }
  }

  /** The values of a kind stand in the order in which they were first inserted for it. */
  lemma {:induction false} ValuesInOrder(items: seq<Item>, kind: SelectorKind) returns (pos: seq<nat>)
    requires InsertItems(items).Ok?
    ensures Gives(ValuesOfKind(InsertItems(items).value.entries, kind), items, kind, pos)
  {
    hide InsertItem, Gives, KeyOf, ValuesOfKind;
    pos := [];
    NothingGiven(kind);
    if items != [] {
      var n := |items| - 1;
      pos := ValuesInOrder(items[..n], kind);
      pos := ValuesStep(InsertItems(items[..n]).value, items[..n], items[n], kind, pos);
      assert items[..n] + [items[n]] == items;
    }
  }
}

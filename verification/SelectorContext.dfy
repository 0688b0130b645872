/** The mutable selector context, proved against the value functions. */
module SelectorContexts {
  import opened Wrappers
  import opened Text
  import opened Protocol
  import opened Ordering
  import opened SelectorKinds
  import opened ContextValues
  import StableKeys

  class SelectorContext {
    var entries: seq<SelectorValues>
    const kindIndex: array<Option<nat>>

    ghost predicate Valid()
      reads this, kindIndex
    {
      WellBuilt(Value()) && Genuine(Value())
    }

    ghost function Value(): ContextValue
      reads this, kindIndex
    {
      ContextValue(entries, kindIndex[..])
    }

    constructor ()
      ensures Valid() && fresh(kindIndex)
      ensures Value() == EMPTY
    {
      entries := [];
      kindIndex := new Option<nat>[4](_ => None);
      new;
      assert kindIndex[..] == [None, None, None, None];
      EmptyWellBuilt();
    }

    /** Adds a value under a kind; an error leaves the context as it was. */
    method Insert(kindText: string, valueText: string) returns (r: Result<(), TrustGrantError>)
      requires Valid()
      modifies this`entries, kindIndex
      ensures Valid()
      ensures var spec := ContextValues.Insert(old(Value()), kindText, valueText);
              if r.Ok? then spec == Ok(Value()) else spec == Err(r.error) && Value() == old(Value())
      ensures r.Ok? ==>
                var item := Resolve(kindText, valueText).value;
                var before := old(Meaning(Value()));
                Meaning(Value()) == before[KeyOf(item.kind) := ValuesOf(before, KeyOf(item.kind)) + {item.value}]
    {
      var kind := New(kindText);
      if kind.Err? {
        return Err(kind.error);
      }
      var value := NormalizeValue(valueText);
      if value.Err? {
        return Err(value.error);
      }
      ghost var before, item := Value(), Item(kind.value, value.value);
      InsertKeepsWellBuilt(before, item);
      InsertMeaning(before, item);
      ResolveClassifies(kindText, valueText);
      InsertKeepsGenuine(before, item);
      r := Place(kind.value, value.value);
    }

    /** The part of Insert that runs once kind and value are accepted. */
    method Place(kind: SelectorKind, value: string) returns (r: Result<(), TrustGrantError>)
      requires kindIndex.Length == 4
      modifies this`entries, kindIndex
      ensures var spec := InsertItem(old(Value()), Item(kind, value));
              if r.Ok? then spec == Ok(Value()) else spec == Err(r.error) && Value() == old(Value())
    {
      var i := FindEntry(entries, kind);
      if i < |entries| {
        var values := entries[i].values;
        if value !in values {
          var limit := EnsureCollectionLimit("request.selector_values", |values| + 1, MAX_REQUEST_VALUES_PER_KIND);
          if limit.Err? {
            return Err(limit.error);
          }
          entries := entries[i := SelectorValues(entries[i].kind, values + [value])];
        }
        return Ok(());
      }
      var limit := EnsureCollectionLimit("request.selector_kinds", |entries| + 1, MAX_REQUEST_SELECTOR_KINDS);
      if limit.Err? {
        return Err(limit.error);
      }
      var slot := KindIndex(kind);
      entries := entries + [SelectorValues(kind, [value])];
      if slot.Some? {
        kindIndex[slot.value] := Some(|entries| - 1);
      }
      return Ok(());
    }

    /** The indexed lookup: it gives what the scan gives, and reads the meaning. */
    method LookUp(kind: SelectorKind) returns (r: Option<seq<string>>)
      requires Valid()
      ensures r == Scan(entries, kind)
      ensures r.Some? <==> KeyOf(kind) in Meaning(Value())
      ensures r.Some? ==> ToSet(r.value) == Meaning(Value())[KeyOf(kind)]
    {
      IndexMatchesScan(Value(), kind);
      LookupMeaning(Value(), kind);
      var slot := KindIndex(kind);
      if slot.Some? && kindIndex[slot.value].Some? {
        return Some(entries[kindIndex[slot.value].value].values);
      }
      var i := FindEntry(entries, kind);
      return if i < |entries| then Some(entries[i].values) else None;
    }

    /** Collects the rows, sorts them, and appends each to the key. */
    method StableKey() returns (key: string)
      ensures key == StableKeys.StableKey(Value())
    {
      hide Utf8, Sort, StableKeys.SortedTexts, StableKeys.Strip, StableKeys.Encode;
      var collected: seq<Keyed<StableKeys.Row>> := [];
      for i := 0 to |entries|
        invariant collected == StableKeys.RowsOf(entries)[..i]
      {
        var values := StableKeys.SortedTexts(entries[i].values);
        var kind := entries[i].kind.value;
        collected := collected + [Keyed(Utf8(kind), StableKeys.Row(kind, values))];
        assert collected == StableKeys.RowsOf(entries)[..i] + [StableKeys.RowsOf(entries)[i]];
      }
      assert collected == StableKeys.RowsOf(entries);
      key := EncodeRows(StableKeys.Strip(Sort(collected)));
    }

    static method EncodeRows(rows: seq<StableKeys.Row>) returns (key: string)
      ensures key == StableKeys.Encode(rows)
    {
      hide StableKeys.EncodeRow;
      key := "";
      for i := 0 to |rows|
        invariant key + StableKeys.Encode(rows[i..]) == StableKeys.Encode(rows)
      {
        assert rows[i..][0] == rows[i] && rows[i..][1..] == rows[i + 1..];
        var appended := AppendRow(key, rows[i]);
        assert key + StableKeys.Encode(rows[i..]) == appended + StableKeys.Encode(rows[i + 1..]);
        key := appended;
      }
      assert key + "" == key;
    }

    static method AppendRow(start: string, row: StableKeys.Row) returns (key: string)
      ensures key == start + StableKeys.EncodeRow(row)
    {
      hide Decimal, Utf8;
      key := start + Decimal(|Utf8(row.kind)|);
      key := key + ":";
      key := key + row.kind;
      ghost var values := StableKeys.EncodeValues(row.values);
      ghost var head := key;
      assert head == start + StableKeys.Sized(row.kind);
      for j := 0 to |row.values|
        invariant key + StableKeys.EncodeValues(row.values[j..]) == head + values
      {
        var value := row.values[j];
        assert row.values[j..][0] == value && row.values[j..][1..] == row.values[j + 1..];
        ghost var rest, at := StableKeys.EncodeValues(row.values[j + 1..]), key;
        key := key + "|";
        key := key + Decimal(|Utf8(value)|);
        key := key + ":";
        key := key + value;
        assert key + rest == at + ("|" + StableKeys.Sized(value) + rest);
      }
      assert key == head + values;
      key := key + ";";
    }
  }
}

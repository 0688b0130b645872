/** The ledger key of a context: a sorted, length-prefixed encoding of its kinds and values. */
module StableKeys {
  import opened Text
  import opened Ordering
  import opened SelectorKinds
  import opened ContextValues

  // ---- Encoding ----

  /** A text preceded by its byte length. */
  function Sized(s: string): string {
    Decimal(|Utf8(s)|) + ":" + s
  }

  function EncodeValues(values: seq<string>): string {
    if values == [] then "" else "|" + Sized(values[0]) + EncodeValues(values[1..])
  }

  datatype Row = Row(kind: string, values: seq<string>)

  function EncodeRow(row: Row): string {
    Sized(row.kind) + EncodeValues(row.values) + ";"
  }

  function Encode(rows: seq<Row>): string {
    if rows == [] then "" else EncodeRow(rows[0]) + Encode(rows[1..])
  }

  // ---- Sorted rows ----

  function KeyedText(s: string): Keyed<string> {
    Keyed(Utf8(s), s)
  }

  function KeyedTexts(ss: seq<string>): (r: seq<Keyed<string>>)
    ensures |r| == |ss| && forall i :: 0 <= i < |ss| ==> r[i] == KeyedText(ss[i])
  {
    seq(|ss|, i requires 0 <= i < |ss| => KeyedText(ss[i]))
  }

  function Strip<T>(ks: seq<Keyed<T>>): (r: seq<T>)
    ensures |r| == |ks| && forall i :: 0 <= i < |ks| ==> r[i] == ks[i].item
  {
    seq(|ks|, i requires 0 <= i < |ks| => ks[i].item)
  }

  function SortedTexts(ss: seq<string>): seq<string> {
    Strip(Sort(KeyedTexts(ss)))
  }

  function RowOf(e: SelectorValues): Keyed<Row> {
    Keyed(Utf8(e.kind.value), Row(e.kind.value, SortedTexts(e.values)))
  }

  function RowsOf(entries: seq<SelectorValues>): (r: seq<Keyed<Row>>)
    ensures |r| == |entries| && forall i :: 0 <= i < |entries| ==> r[i] == RowOf(entries[i])
  {
    seq(|entries|, i requires 0 <= i < |entries| => RowOf(entries[i]))
  }

  function SortedRows(entries: seq<SelectorValues>): seq<Row> {
    Strip(Sort(RowsOf(entries)))
  }

  function StableKey(c: ContextValue): string {
    Encode(SortedRows(c.entries))
  }

  // ---- The encoding can be read back ----

  lemma SizedPrefix(s: string, x: string, t: string, y: string)
    requires Sized(s) + x == Sized(t) + y
    ensures s == t && x == y
  {
    var m, n := Decimal(|Utf8(s)|), Decimal(|Utf8(t)|);
    assert Sized(s) + x == m + (":" + s + x) && Sized(t) + y == n + (":" + t + y);
    DigitsEnd(m, ":" + s + x, n, ":" + t + y);
    DecimalInjective(|Utf8(s)|, |Utf8(t)|);
    assert s + x == (":" + s + x)[1..] == (":" + t + y)[1..] == t + y;
    SameLengthPrefix(s, x, t, y);
  }

  lemma {:induction false} ValuesPrefix(vs: seq<string>, x: string, ws: seq<string>, y: string)
    requires EncodeValues(vs) + x == EncodeValues(ws) + y
    requires x != "" && x[0] == ';' && y != "" && y[0] == ';'
    ensures vs == ws && x == y
  {
    hide Sized;
    var l, r := EncodeValues(vs) + x, EncodeValues(ws) + y;
    assert l[0] == if vs == [] then ';' else '|';
    assert r[0] == if ws == [] then ';' else '|';
    if vs == [] {
      assert x == l == r == y;
    } else {
      var v, w := EncodeValues(vs[1..]) + x, EncodeValues(ws[1..]) + y;
      assert l[1..] == Sized(vs[0]) + v && r[1..] == Sized(ws[0]) + w;
      SizedPrefix(vs[0], v, ws[0], w);
      ValuesPrefix(vs[1..], x, ws[1..], y);
      assert vs == [vs[0]] + vs[1..] && ws == [ws[0]] + ws[1..];
    }
  }

  lemma RowPrefix(a: Row, x: string, b: Row, y: string)
    requires EncodeRow(a) + x == EncodeRow(b) + y
    ensures a == b && x == y
  {
    hide Sized, EncodeValues;
    var v, w := EncodeValues(a.values) + (";" + x), EncodeValues(b.values) + (";" + y);
    assert EncodeRow(a) + x == Sized(a.kind) + v && EncodeRow(b) + y == Sized(b.kind) + w;
    SizedPrefix(a.kind, v, b.kind, w);
    ValuesPrefix(a.values, ";" + x, b.values, ";" + y);
    assert x == (";" + x)[1..] == (";" + y)[1..] == y;
  }

  /** The encoding separates rows without ambiguity, whatever characters kinds and values hold. */
  lemma {:induction false} EncodeInjective(a: seq<Row>, b: seq<Row>)
    requires Encode(a) == Encode(b)
    ensures a == b
  {
    assert forall r: Row :: |EncodeRow(r)| > 0;
    hide EncodeRow;
    if a != [] && b != [] {
      RowPrefix(a[0], Encode(a[1..]), b[0], Encode(b[1..]));
      EncodeInjective(a[1..], b[1..]);
      assert a == [a[0]] + a[1..] && b == [b[0]] + b[1..];
    }
  }

  // ---- Sorting forgets the order of inserts ----

  lemma KeyedTextsDistinct(ss: seq<string>)
    requires NoDuplicates(ss)
    ensures DistinctKeys(KeyedTexts(ss))
  {
    var ks := KeyedTexts(ss);
    forall i, j | 0 <= i < j < |ks|
      ensures ks[i].key != ks[j].key
    {
      if ks[i].key == ks[j].key { Utf8Injective(ss[i], ss[j]); }
    }
  }

  lemma KeyedTextsMembers(ss: seq<string>, k: Keyed<string>)
    ensures k in KeyedTexts(ss) <==> k.item in ss && k == KeyedText(k.item)
  {
    if k.item in ss && k == KeyedText(k.item) {
      var i :| 0 <= i < |ss| && ss[i] == k.item;
      assert KeyedTexts(ss)[i] == k;
    }
  }

  /** The sorted values hold the same elements. */
  lemma SortedTextsMembers(ss: seq<string>, s: string)
    ensures s in SortedTexts(ss) <==> s in ss
  {
    var ks := Sort(KeyedTexts(ss));
    forall k
      ensures k in ks <==> k.item in ss && k == KeyedText(k.item)
    {
      SameElements(ks, KeyedTexts(ss), k);
      KeyedTextsMembers(ss, k);
    }
    if s in ss {
      assert KeyedText(s) in ks;
      var i :| 0 <= i < |ks| && ks[i] == KeyedText(s);
      assert SortedTexts(ss)[i] == s;
    }
    if s in SortedTexts(ss) {
      var i :| 0 <= i < |ks| && ks[i].item == s;
      assert ks[i] in ks;
    }
  }

  /** Equal value sets sort to equal lists, and only those. */
  lemma SortedTextsCanonical(ss: seq<string>, ts: seq<string>)
    requires NoDuplicates(ss) && NoDuplicates(ts)
    ensures SortedTexts(ss) == SortedTexts(ts) <==> ToSet(ss) == ToSet(ts)
  {
    if ToSet(ss) == ToSet(ts) {
      KeyedTextsDistinct(ss);
      KeyedTextsDistinct(ts);
      SortAscends(KeyedTexts(ts));
      forall k
        ensures k in KeyedTexts(ss) <==> k in Sort(KeyedTexts(ts))
      {
        SameElements(Sort(KeyedTexts(ts)), KeyedTexts(ts), k);
        KeyedTextsMembers(ss, k);
        KeyedTextsMembers(ts, k);
        assert k.item in ss <==> k.item in ToSet(ss);
        assert k.item in ts <==> k.item in ToSet(ts);
      }
      SortIs(KeyedTexts(ss), Sort(KeyedTexts(ts)));
    }
    if SortedTexts(ss) == SortedTexts(ts) {
      forall s
        ensures s in ToSet(ss) <==> s in ToSet(ts)
      {
        SortedTextsMembers(ss, s);
        SortedTextsMembers(ts, s);
      }
    }
  }

  /** Entries with equal kind text and equal value sets, up to order. */
  ghost predicate SameSpelling(e: SelectorValues, f: SelectorValues) {
    e.kind.value == f.kind.value && ToSet(e.values) == ToSet(f.values)
  }

  /** Every entry of one is spelled in the other. */
  ghost predicate SpelledIn(a: ContextValue, b: ContextValue) {
    forall e :: e in a.entries ==> exists f :: f in b.entries && SameSpelling(e, f)
  }

  /** The same kind texts, each with the same value set. */
  ghost predicate SameSpelledSets(a: ContextValue, b: ContextValue) {
    SpelledIn(a, b) && SpelledIn(b, a)
  }

  lemma RowsMatch(e: SelectorValues, f: SelectorValues)
    requires NoDuplicates(e.values) && NoDuplicates(f.values)
    ensures RowOf(e) == RowOf(f) <==> SameSpelling(e, f)
    ensures RowOf(e).item == RowOf(f).item <==> SameSpelling(e, f)
  {
    SortedTextsCanonical(e.values, f.values);
  }

  lemma RowsDistinct(c: BuiltContext)
    ensures DistinctKeys(RowsOf(c.entries))
  {
    var rows := RowsOf(c.entries);
    forall i, j | 0 <= i < j < |rows|
      ensures rows[i].key != rows[j].key
    {
      var k, l := c.entries[i].kind, c.entries[j].kind;
      KindsAgree(k, l, l);
      if rows[i].key == rows[j].key { Utf8Injective(k.value, l.value); }
    }
  }

  lemma EntryNoDuplicates(c: BuiltContext, e: SelectorValues)
    requires e in c.entries
    ensures NoDuplicates(e.values)
  {
  }

  lemma SpelledRows(a: BuiltContext, b: BuiltContext, r: Keyed<Row>)
    requires SpelledIn(a, b) && r in RowsOf(a.entries)
    ensures r in RowsOf(b.entries)
  {
    var i :| 0 <= i < |a.entries| && RowsOf(a.entries)[i] == r;
    var e := a.entries[i];
    assert e in a.entries;
    var f :| f in b.entries && SameSpelling(e, f);
    EntryNoDuplicates(a, e);
    EntryNoDuplicates(b, f);
    RowsMatch(e, f);
    var j :| 0 <= j < |b.entries| && b.entries[j] == f;
    assert RowsOf(b.entries)[j] == r;
  }

  lemma SameRowsSpelled(a: BuiltContext, b: BuiltContext)
    requires SortedRows(a.entries) == SortedRows(b.entries)
    ensures SpelledIn(a, b)
  {
    hide WellBuilt, Genuine, RowOf, Sort, SameSpelling;
    var ra, rb := RowsOf(a.entries), RowsOf(b.entries);
    forall e | e in a.entries
      ensures exists f :: f in b.entries && SameSpelling(e, f)
    {
      var i :| 0 <= i < |a.entries| && a.entries[i] == e;
      assert ra[i] in ra;
      SameElements(Sort(ra), ra, ra[i]);
      var j :| 0 <= j < |ra| && Sort(ra)[j] == ra[i];
      assert SortedRows(b.entries)[j] == Sort(rb)[j].item;
      assert Sort(rb)[j] in Sort(rb);
      SameElements(Sort(rb), rb, Sort(rb)[j]);
      var l :| 0 <= l < |rb| && rb[l] == Sort(rb)[j];
      var f := b.entries[l];
      EntryNoDuplicates(a, e);
      EntryNoDuplicates(b, f);
      RowsMatch(e, f);
    }
  }

  /** Two contexts have one key exactly when they have the same kind texts with the same value sets. */
  lemma StableKeyCanonical(a: BuiltContext, b: BuiltContext)
    ensures StableKey(a) == StableKey(b) <==> SameSpelledSets(a, b)
  {
    var ra, rb := RowsOf(a.entries), RowsOf(b.entries);
    if SameSpelledSets(a, b) {
      RowsDistinct(a);
      RowsDistinct(b);
      SortAscends(rb);
      forall r
        ensures r in ra <==> r in Sort(rb)
      {
        SameElements(Sort(rb), rb, r);
        if r in ra { SpelledRows(a, b, r); }
        if r in rb { SpelledRows(b, a, r); }
      }
      SortIs(ra, Sort(rb));
    }
    if StableKey(a) == StableKey(b) {
      EncodeInjective(SortedRows(a.entries), SortedRows(b.entries));
      SameRowsSpelled(a, b);
      SameRowsSpelled(b, a);
    }
  }

  // ---- Key equality against kind equality ----

  /** Entries of the same kind spell it alike. */
  ghost predicate SpellingsAgree(a: ContextValue, b: ContextValue) {
    forall e, f :: e in a.entries && f in b.entries && KeyOf(e.kind) == KeyOf(f.kind) ==> e.kind.value == f.kind.value
  }

  lemma MeaningFinds(a: BuiltContext, b: BuiltContext, e: SelectorValues) returns (f: SelectorValues)
    requires Meaning(a) == Meaning(b) && e in a.entries
    ensures f in b.entries && KeyOf(e.kind) == KeyOf(f.kind) && ToSet(e.values) == ToSet(f.values)
  {
    var i :| 0 <= i < |a.entries| && a.entries[i] == e;
    MeaningAt(a.entries, i);
    MeaningKeys(b.entries, KeyOf(e.kind));
    var j :| 0 <= j < |b.entries| && KeyOf(b.entries[j].kind) == KeyOf(e.kind);
    MeaningAt(b.entries, j);
    f := b.entries[j];
  }

  lemma SpelledAlike(a: BuiltContext, b: BuiltContext, e: SelectorValues, f: SelectorValues)
    requires SpelledIn(a, b) && e in a.entries && f in b.entries && KeyOf(e.kind) == KeyOf(f.kind)
    ensures e.kind.value == f.kind.value
  {
    var g :| g in b.entries && SameSpelling(e, g);
    var i :| 0 <= i < |a.entries| && a.entries[i] == e;
    var j :| 0 <= j < |b.entries| && b.entries[j] == f;
    var l :| 0 <= l < |b.entries| && b.entries[l] == g;
    KindsAgree(e.kind, g.kind, g.kind);
    assert KeyOf(b.entries[l].kind) == KeyOf(b.entries[j].kind);
    assert l == j;
  }

  lemma AgreeingSpelledIn(a: BuiltContext, b: BuiltContext)
    requires Meaning(a) == Meaning(b) && SpellingsAgree(a, b)
    ensures SpelledIn(a, b)
  {
    hide WellBuilt, Genuine, Meaning, KeyOf;
    forall e | e in a.entries
      ensures exists f :: f in b.entries && SameSpelling(e, f)
    {
      var f := MeaningFinds(a, b, e);
    }
  }

  lemma SpelledAgree(a: BuiltContext, b: BuiltContext)
    requires SpelledIn(a, b)
    ensures SpellingsAgree(a, b)
  {
    hide WellBuilt, Genuine, SpelledIn;
    forall e, f | e in a.entries && f in b.entries && KeyOf(e.kind) == KeyOf(f.kind)
      ensures e.kind.value == f.kind.value
    {
      SpelledAlike(a, b, e, f);
    }
  }

  /** Contexts that mean the same have one key exactly when they spell their kinds alike. */
  lemma KeyFollowsSpelling(a: BuiltContext, b: BuiltContext)
    requires Meaning(a) == Meaning(b)
    ensures StableKey(a) == StableKey(b) <==> SpellingsAgree(a, b)
  {
    hide WellBuilt, Genuine, SpelledIn, StableKey, Meaning;
    StableKeyCanonical(a, b);
    if SpellingsAgree(a, b) {
      assert SpellingsAgree(b, a);
      AgreeingSpelledIn(a, b);
      AgreeingSpelledIn(b, a);
    }
    if SameSpelledSets(a, b) {
      SpelledAgree(a, b);
    }
  }

  /** Kind equality ignores letter case but the key does not: one principal can have two keys. */
  lemma SameMeaningTwoKeys() returns (a: BuiltContext, b: BuiltContext)
    ensures a.entries == [SelectorValues(SelectorKind(Actor, "actor"), ["p"])]
    ensures b.entries == [SelectorValues(SelectorKind(Actor, "Actor"), ["p"])]
    ensures Meaning(a) == Meaning(b) && StableKey(a) != StableKey(b)
  {
    hide WellBuilt, Genuine, StableKey, OneValue, Meaning, Classify;
    var k, l := SelectorKind(Actor, "actor"), SelectorKind(Actor, "Actor");
    LowerActor();
    a, b := OneValue(k, "p"), OneValue(l, "p");
    OneValueMeaning(k, "p");
    OneValueMeaning(l, "p");
    KeyFollowsSpelling(a, b);
    assert SpellingsAgree(a, b) ==> k.value == l.value by {
      assert a.entries[0] in a.entries && b.entries[0] in b.entries;
    }
    assert k.value[0] != l.value[0];
  }

  ghost function OneValue(kind: SelectorKind, value: string): BuiltContext
    requires Classified(kind)
  {
    InsertKeepsWellBuilt(EMPTY, Item(kind, value));
    InsertKeepsGenuine(EMPTY, Item(kind, value));
    InsertItem(EMPTY, Item(kind, value)).value
  }

  lemma OneValueMeaning(kind: SelectorKind, value: string)
    requires Classified(kind)
    ensures OneValue(kind, value).entries == [SelectorValues(kind, [value])]
    ensures Meaning(OneValue(kind, value)) == map[KeyOf(kind) := {value}]
  {
    InsertMeaning(EMPTY, Item(kind, value));
  }

  lemma LowerActor()
    ensures Classify("actor") == Actor && Classify("Actor") == Actor
  {
    assert Lower("actor") == "actor";
    assert Lower("Actor") == "actor";
  }

  // ---- The layout ----

  lemma OneRow(kind: SelectorKind, value: string)
    requires Classified(kind)
    ensures StableKey(OneValue(kind, value)) == Encode([Row(kind.value, [value])])
  {
    hide WellBuilt, Genuine, Meaning, Encode, Classified, Utf8;
    OneValueMeaning(kind, value);
    var c := OneValue(kind, value);
    hide OneValue;
    SortedOne(KeyedText(value));
    assert KeyedTexts([value]) == [KeyedText(value)];
    assert SortedTexts([value]) == [value];
    var row := Keyed(Utf8(kind.value), Row(kind.value, [value]));
    SortedOne(row);
    assert RowsOf(c.entries) == [row];
    assert SortedRows(c.entries) == [row.item];
  }

  lemma SortedOne<T>(x: Keyed<T>)
    ensures Sort([x]) == [x]
  {
    assert [x][1..] == [];
  }

  lemma OneRowEncoded(kind: string, value: string)
    ensures Encode([Row(kind, [value])])
            == Decimal(|Utf8(kind)|) + ":" + kind + "|" + Decimal(|Utf8(value)|) + ":" + value + ";"
  {
    hide Decimal, Utf8;
    var row := Row(kind, [value]);
    assert [row][1..] == [] && [value][1..] == [];
    assert EncodeValues([value]) == "|" + Sized(value);
    assert Encode([row]) == EncodeRow(row);
  }

  /** The layout of a key: kind and value, each after its byte length in decimal. */
  lemma OneKindKey(kind: SelectorKind, value: string)
    requires Classified(kind)
    ensures StableKey(OneValue(kind, value))
            == Decimal(|Utf8(kind.value)|) + ":" + kind.value + "|" + Decimal(|Utf8(value)|) + ":" + value + ";"
  {
    hide Decimal, Utf8, OneValue, StableKey, Encode;
    OneRow(kind, value);
    OneRowEncoded(kind.value, value);
  }

  lemma ActorText()
    ensures "5" + ":" + "actor" + "|" + "1" + ":" + "p" + ";" == "5:actor|1:p;"
  {
  }

  lemma ActorLengths()
    ensures Decimal(|Utf8("actor")|) == "5" && Decimal(|Utf8("p")|) == "1"
  {
    AsciiLength("actor");
    AsciiLength("p");
    hide Utf8;
  }

  /** The key of an actor p. */
  lemma ActorKey()
    ensures Classified(SelectorKind(Actor, "actor"))
    ensures StableKey(OneValue(SelectorKind(Actor, "actor"), "p")) == "5:actor|1:p;"
  {
    hide OneValue, StableKey, Utf8, Decimal, Classify;
    LowerActor();
    var kind := SelectorKind(Actor, "actor");
    OneKindKey(kind, "p");
    ActorLengths();
    ActorText();
  }

  lemma {:induction false} AsciiLength(s: string)
    requires forall i :: 0 <= i < |s| ==> s[i] as int < 0x80
    ensures |Utf8(s)| == |s|
  {
    if s != [] { AsciiLength(s[1..]); }
  }
}

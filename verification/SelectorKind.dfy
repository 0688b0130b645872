/** Selector kinds: three built-in kinds recognized in any letter case, and user-defined kinds. */
module SelectorKinds {
  import opened Wrappers
  import opened Text
  import opened Protocol
  import opened Ordering

  datatype Classification = Authority | Namespace | Actor | Other

  datatype SelectorKind = SelectorKind(classification: Classification, value: string)

  /** Holds of every kind `New` builds: the classification is that of the text. */
  predicate Classified(k: SelectorKind) {
    k.classification == Classify(k.value)
  }

  /** Among all characters only ASCII letters lower-case to the letters of the built-in names. */
  function LowerChar(c: char): char {
    if 'A' <= c <= 'Z' then (c as int + 32) as char else c
  }

  function Lower(s: string): string {
    if s == [] then [] else [LowerChar(s[0])] + Lower(s[1..])
  }

  function Classify(value: string): Classification {
    var lowered := Lower(value);
    if lowered == "authority" then Authority
    else if lowered == "namespace" then Namespace
    else if lowered == "actor" then Actor
    else Other
  }

  function New(value: string): Result<SelectorKind, TrustGrantError> {
    var text :- NormalizeToken("selector.kind", value, MAX_SELECTOR_KIND_BYTES);
    Ok(SelectorKind(Classify(text), text))
  }

  predicate SameKind(a: SelectorKind, b: SelectorKind) {
    if a.classification == Other && b.classification == Other then a.value == b.value
    else a.classification == b.classification
  }

  /** The slot of a built-in kind in a context's index. */
  function KindIndex(k: SelectorKind): (slot: Option<nat>)
    ensures slot.Some? ==> slot.value < 3
  {
    match k.classification
    case Authority => Some(0)
    case Namespace => Some(1)
    case Actor => Some(2)
    case Other => None
  }

  function Rank(c: Classification): int {
    match c
    case Authority => 0
    case Namespace => 1
    case Actor => 2
    case Other => 3
  }

  function Cmp(a: SelectorKind, b: SelectorKind): Ordering {
    match CompareInts(Rank(a.classification), Rank(b.classification))
    case Equal => if a.classification == Other then Compare(Utf8(a.value), Utf8(b.value)) else Equal
    case Less => Less
    case Greater => Greater
  }

  /** What a kind is compared by: its slot, or its text when it is user-defined. */
  datatype KindKey = Builtin(slot: nat) | Named(name: string)

  function KeyOf(k: SelectorKind): KindKey {
    if KindIndex(k).Some? then Builtin(KindIndex(k).value) else Named(k.value)
  }

  /** Kind equality, the index slots and the order all agree on which kinds are the same. */
  lemma KindsAgree(a: SelectorKind, b: SelectorKind, c: SelectorKind)
    ensures SameKind(a, b) <==> KeyOf(a) == KeyOf(b)
    ensures SameKind(a, b) <==> Cmp(a, b) == Equal
    ensures Cmp(b, a) == Cmp(a, b).Flip()
    ensures Cmp(a, b) == Less && Cmp(b, c) == Less ==> Cmp(a, c) == Less
    ensures Classified(a) && Classified(b) && a.value == b.value ==> SameKind(a, b)
  {
    CompareFlips(Utf8(a.value), Utf8(b.value));
    CompareEqual(Utf8(a.value), Utf8(b.value));
    if Utf8(a.value) == Utf8(b.value) {
      Utf8Injective(a.value, b.value);
    }
    if Before(Utf8(a.value), Utf8(b.value)) && Before(Utf8(b.value), Utf8(c.value)) {
      BeforeTransitive(Utf8(a.value), Utf8(b.value), Utf8(c.value));
    }
  }

  /** Lower-casing changes the 26 capital letters of ASCII, each to the letter 32 places on, and nothing else. */
  lemma {:induction false} LowerExact(s: string)
    ensures |Lower(s)| == |s|
    ensures forall i :: 0 <= i < |s| ==>
              Lower(s)[i] as int == if 0x41 <= s[i] as int <= 0x5A then s[i] as int + 32 else s[i] as int
  {
    if s != [] {
      LowerExact(s[1..]);
      assert forall i :: 1 <= i < |s| ==> Lower(s)[i] == Lower(s[1..])[i - 1];
    }
  }

  /** Kinds are the same exactly when their texts are, or both spell one built-in name in any letter case;
      the built-in names have their own slots. */
  lemma KindsExact(a: SelectorKind, b: SelectorKind)
    requires Classified(a) && Classified(b)
    ensures SameKind(a, b) <==>
            a.value == b.value || (Lower(a.value) == Lower(b.value) && Lower(a.value) in {"authority", "namespace", "actor"})
    ensures KindIndex(a) == if Lower(a.value) == "authority" then Some(0)
                            else if Lower(a.value) == "namespace" then Some(1)
                            else if Lower(a.value) == "actor" then Some(2)
                            else None
  {
    hide Lower;
    assert "authority"[1] != "namespace"[1] && "authority"[1] != "actor"[1] && "namespace"[1] != "actor"[1];
  }

  /** Authority, namespace and actor come in this order and before all user-defined kinds, which go by their bytes. */
  lemma KindOrderExact(a: SelectorKind, b: SelectorKind)
    ensures KindIndex(a).Some? && KindIndex(b).Some? ==>
              Cmp(a, b) == CompareInts(KindIndex(a).value, KindIndex(b).value)
    ensures KindIndex(a).Some? && KindIndex(b).None? ==> Cmp(a, b) == Less
    ensures KindIndex(a).None? && KindIndex(b).None? ==> Cmp(a, b) == Compare(Utf8(a.value), Utf8(b.value))
  {
  }
}

/** Rearranging the lists a document gives: what validation accepts, and what the engine decides, stay the same. */
module RearrangedInput {
  import opened Wrappers
  import opened Text
  import opened Protocol
  import opened SelectorKinds
  import opened SelectorExpressions
  import opened ContextValues
  import opened Permutations
  import opened Grants
  import opened Validation
  import opened Attenuation

  // ---- Values and expressions ----

  function ValueOf(v: string): Result<string, TrustGrantError> {
    NormalizeBounded("selector.value", v, MAX_SELECTOR_VALUE_BYTES)
  }

  lemma {:induction false} NormalizeAllIff(values: seq<string>)
    ensures NormalizeAll(values).Ok? <==> forall v :: v in values ==> ValueOf(v).Ok?
    ensures NormalizeAll(values).Ok? ==>
              forall x :: x in NormalizeAll(values).value <==> exists v :: v in values && ValueOf(v) == Ok(x)
  {
    hide NormalizeBounded;
    if values != [] {
      var front, last := values[..|values| - 1], values[|values| - 1];
      NormalizeAllIff(front);
      assert forall v :: v in values <==> v in front || v == last;
      assert ValueOf(last) == NormalizeBounded("selector.value", last, MAX_SELECTOR_VALUE_BYTES);
    }
  }

  lemma RearrangedValues(a: seq<string>, b: seq<string>)
    requires multiset(a) == multiset(b)
    ensures NormalizedValues(Some(a)).Ok? <==> NormalizedValues(Some(b)).Ok?
    ensures NormalizedValues(Some(a)).Ok? ==>
              ToSet(NormalizedValues(Some(a)).value) == ToSet(NormalizedValues(Some(b)).value)
  {
    hide NormalizeAll, FirstOccurrences, ValueOf;
    PermutedMembers(a, b);
    NormalizeAllIff(a);
    NormalizeAllIff(b);
    if NormalizedValues(Some(a)).Ok? {
      FirstOccurrencesExact(NormalizeAll(a).value);
      FirstOccurrencesExact(NormalizeAll(b).value);
    }
  }

  function ExpressionOf(text: string): Result<SelectorExpression, TrustGrantError> {
    var bounded :- NormalizeBounded(FIELD, text, MAX_SELECTOR_EXPRESSION_BYTES);
    Parse(bounded)
  }

  function JoinLast(
    front: Result<seq<SelectorExpression>, TrustGrantError>, last: Result<SelectorExpression, TrustGrantError>)
    : Result<seq<SelectorExpression>, TrustGrantError>
  {
    var xs :- front;
    var x :- last;
    Ok(xs + [x])
  }

  lemma {:induction false} ParseExpressionsIff(texts: seq<string>)
    ensures ParseExpressions(texts).Ok? <==> forall t :: t in texts ==> ExpressionOf(t).Ok?
    ensures ParseExpressions(texts).Ok? ==>
              && |ParseExpressions(texts).value| == |texts|
              && forall x :: x in ParseExpressions(texts).value <==> exists t :: t in texts && ExpressionOf(t) == Ok(x)
  {
    hide NormalizeBounded, Parse;
    if texts != [] {
      var front, last := texts[..|texts| - 1], texts[|texts| - 1];
      ParseExpressionsIff(front);
      assert forall t :: t in texts <==> t in front || t == last;
      assert ParseExpressions(texts) == JoinLast(ParseExpressions(front), ExpressionOf(last));
    }
  }

  lemma RearrangedExpressions(a: seq<string>, b: seq<string>)
    requires multiset(a) == multiset(b)
    ensures ValidateExpressions(Some(a)).Ok? <==> ValidateExpressions(Some(b)).Ok?
    ensures ValidateExpressions(Some(a)).Ok? ==>
              ToSet(ValidateExpressions(Some(a)).value) == ToSet(ValidateExpressions(Some(b)).value)
  {
    hide ParseExpressions, ExpressionOf;
    PermutedMembers(a, b);
    ParseExpressionsIff(a);
    ParseExpressionsIff(b);
  }

  // ---- Selectors ----

  /** The raw selectors differ only in the order of their values and expressions. */
  ghost predicate Rearranged(a: RawSelector, b: RawSelector) {
    && a.kind == b.kind && a.all == b.all
    && multiset(a.values.UnwrapOr([])) == multiset(b.values.UnwrapOr([]))
    && multiset(a.expressions.UnwrapOr([])) == multiset(b.expressions.UnwrapOr([]))
  }

  lemma EmptySet<T>(s: seq<T>)
    ensures s == [] <==> ToSet(s) == {}
  {
    if s != [] {
      assert s[0] in ToSet(s);
    }
  }

  /** Rearranging a selector keeps it valid, with the same values and expressions. */
  lemma RearrangedSelector(a: RawSelector, b: RawSelector)
    requires Rearranged(a, b)
    ensures ValidateSelector(a).Ok? <==> ValidateSelector(b).Ok?
    ensures ValidateSelector(a).Ok? ==> SameUpToOrder(ValidateSelector(a).value, ValidateSelector(b).value)
  {
    hide New, ToSet, KeyOf;
    var v, w := a.values.UnwrapOr([]), b.values.UnwrapOr([]);
    var e, f := a.expressions.UnwrapOr([]), b.expressions.UnwrapOr([]);
    RearrangedValues(v, w);
    RearrangedExpressions(e, f);
    assert NormalizedValues(a.values) == NormalizedValues(Some(v));
    assert NormalizedValues(b.values) == NormalizedValues(Some(w));
    assert ValidateExpressions(a.expressions) == ValidateExpressions(Some(e));
    assert ValidateExpressions(b.expressions) == ValidateExpressions(Some(f));
    hide NormalizedValues, ValidateExpressions;
    if NormalizedValues(Some(v)).Ok? && ValidateExpressions(Some(e)).Ok? {
      EmptySet(NormalizedValues(Some(v)).value);
      EmptySet(NormalizedValues(Some(w)).value);
      EmptySet(ValidateExpressions(Some(e)).value);
      EmptySet(ValidateExpressions(Some(f)).value);
    }
  }

  /** A list of selectors is valid in every order or in none, and gives the same selectors. */
  lemma PermutedSelectors(a: seq<RawSelector>, b: seq<RawSelector>)
    requires multiset(a) == multiset(b)
    ensures ValidatedEach(a).Ok? <==> ValidatedEach(b).Ok?
    ensures ValidatedEach(a).Ok? ==>
              forall s :: s in ValidatedEach(a).value <==> s in ValidatedEach(b).value
  {
    hide ValidatedEach, ValidateSelector, SameSelector;
    if ValidatedEach(a).Ok? { PermutedSelectorsFrom(a, b); }
    if ValidatedEach(b).Ok? { PermutedSelectorsFrom(b, a); }
  }

  lemma PermutedSelectorsFrom(a: seq<RawSelector>, b: seq<RawSelector>)
    requires multiset(a) == multiset(b) && ValidatedEach(a).Ok?
    ensures ValidatedEach(b).Ok?
    ensures forall s :: s in ValidatedEach(b).value ==> s in ValidatedEach(a).value
  {
    hide ValidatedEach, ValidateSelector, SameSelector;
    ValidatedEachIff(a);
    ValidatedEachIff(b);
    PermutedMembers(a, b);
    forall i | 0 <= i < |b|
      ensures ValidateSelector(b[i]).Ok?
    {
      assert b[i] in a;
    }
    forall i, j | 0 <= i < j < |b|
      ensures !SameSelector(ValidateSelector(b[i]).value, ValidateSelector(b[j]).value)
    {
      var k, l := PermutedPlaces(a, b, i, j);
      SelectorsSymmetric(ValidateSelector(a[k]).value, ValidateSelector(a[l]).value);
    }
    forall s | s in ValidatedEach(b).value
      ensures s in ValidatedEach(a).value
    {
      var i :| 0 <= i < |b| && ValidatedEach(b).value[i] == s;
      assert b[i] in a;
      var k :| 0 <= k < |a| && a[k] == b[i];
      assert ValidatedEach(a).value[k] == s;
    }
  }

  lemma SelectorsSymmetric(s: Selector, t: Selector)
    ensures SameSelector(s, t) <==> SameSelector(t, s)
  {
  }

  // ---- Lists of selectors ----

  /** The raw lists differ only in the order of selectors, and of values and expressions within them. */
  ghost predicate RearrangedList(a: seq<RawSelector>, b: seq<RawSelector>) {
    exists c: seq<RawSelector> :: Permutes(a, c) && Pointwise(c, b)
  }

  ghost predicate Permutes(a: seq<RawSelector>, c: seq<RawSelector>) {
    multiset(a) == multiset(c)
  }

  ghost predicate Pointwise(c: seq<RawSelector>, b: seq<RawSelector>) {
    |c| == |b| && forall i :: 0 <= i < |c| ==> Rearranged(c[i], b[i])
  }

  /** Some arrangement of values and expressions makes the two selectors equal. */
  ghost predicate Alike(s: Selector, t: Selector) {
    && KeyOf(s.kind) == KeyOf(t.kind) && s.all == t.all
    && ToSet(s.values) == ToSet(t.values) && multiset(s.expressions) == multiset(t.expressions)
  }

  ghost predicate NoneAlike(ss: seq<Selector>) {
    forall i, j :: 0 <= i < j < |ss| ==> !Alike(ss[i], ss[j])
  }

  lemma AlikeRelation(s: Selector, t: Selector, u: Selector)
    ensures Alike(s, t) ==> Alike(t, s)
    ensures Alike(s, t) && Alike(t, u) ==> Alike(s, u)
    ensures SameSelector(s, t) ==> Alike(s, t)
  {
    KindsAgree(s.kind, t.kind, u.kind);
  }

  /** Rearranged selectors validate to selectors that are alike. */
  lemma RearrangedAlike(a: RawSelector, b: RawSelector)
    requires Rearranged(a, b) && ValidateSelector(a).Ok?
    ensures ValidateSelector(b).Ok? && Alike(ValidateSelector(a).value, ValidateSelector(b).value)
  {
    hide NormalizedValues, ValidateExpressions, ToSet, KeyOf, New;
    RearrangedSelector(a, b);
    SameExpressions(a.expressions);
    SameExpressions(b.expressions);
    RearrangedParses(a.expressions.UnwrapOr([]), b.expressions.UnwrapOr([]));
  }

  lemma SameExpressions(o: Option<seq<string>>)
    ensures ValidateExpressions(o) == ValidateExpressions(Some(o.UnwrapOr([])))
  {
  }

  lemma SameValues(o: Option<seq<string>>)
    ensures NormalizedValues(o) == NormalizedValues(Some(o.UnwrapOr([])))
  {
  }

  lemma PermutedListAlike(c: seq<RawSelector>, b: seq<RawSelector>, i: nat, j: nat)
    requires Pointwise(c, b) && i < j < |b| && ValidateSelector(c[i]).Ok? && ValidateSelector(c[j]).Ok?
    requires !Alike(ValidateSelector(c[i]).value, ValidateSelector(c[j]).value)
    ensures ValidateSelector(b[i]).Ok? && ValidateSelector(b[j]).Ok?
    ensures !Alike(ValidateSelector(b[i]).value, ValidateSelector(b[j]).value)
  {
    hide Alike, ValidateSelector, Rearranged;
    RearrangedAlike(c[i], b[i]);
    RearrangedAlike(c[j], b[j]);
    var s, t, u, v := ValidateSelector(c[i]).value, ValidateSelector(b[i]).value,
                      ValidateSelector(b[j]).value, ValidateSelector(c[j]).value;
    AlikeRelation(s, t, u);
    AlikeRelation(s, u, v);
    AlikeRelation(v, u, s);
  }

  /** Without alike selectors every rearrangement of a valid list is valid, and has none alike either. */
  lemma SteadyList(a: seq<RawSelector>, b: seq<RawSelector>)
    requires ValidatedEach(a).Ok? && NoneAlike(ValidatedEach(a).value) && RearrangedList(a, b)
    ensures ValidatedEach(b).Ok? && NoneAlike(ValidatedEach(b).value)
  {
    hide ValidatedEach, ValidateSelector, Alike, Rearranged, SameSelector, Pointwise;
    var c :| Permutes(a, c) && Pointwise(c, b);
    PermutedSelectors(a, c);
    ValidatedEachIff(a);
    ValidatedEachIff(b);
    ValidatedEachIff(c);
    assert |c| == |b| by { PointwiseAt(c, b); }
    forall i, j | 0 <= i < j < |b|
      ensures ValidateSelector(b[i]).Ok? && ValidateSelector(b[j]).Ok?
      ensures !Alike(ValidateSelector(b[i]).value, ValidateSelector(b[j]).value)
      ensures !SameSelector(ValidateSelector(b[i]).value, ValidateSelector(b[j]).value)
    {
      var k, l := PermutedPlaces(a, c, i, j);
      AlikeRelation(ValidateSelector(a[k]).value, ValidateSelector(a[l]).value, ValidateSelector(a[k]).value);
      AlikeRelation(ValidateSelector(a[l]).value, ValidateSelector(a[k]).value, ValidateSelector(a[l]).value);
      PermutedListAlike(c, b, i, j);
      AlikeRelation(ValidateSelector(b[i]).value, ValidateSelector(b[j]).value, ValidateSelector(b[i]).value);
    }
    forall i | 0 <= i < |b|
      ensures ValidateSelector(b[i]).Ok?
    {
      PointwiseAt(c, b);
      RearrangedAlike(c[i], b[i]);
    }
  }

  lemma PointwiseAt(c: seq<RawSelector>, b: seq<RawSelector>)
    requires Pointwise(c, b)
    ensures |c| == |b| && forall i :: 0 <= i < |c| ==> Rearranged(c[i], b[i])
  {
  }

  // ---- Alike selectors can be made equal ----

  lemma {:induction false} FirstOccurrencesLead(front: seq<string>, rest: seq<string>)
    requires NoDuplicates(front) && forall x :: x in rest ==> x in front
    ensures FirstOccurrences(front + rest) == front
    decreases |rest|
  {
    if rest == [] {
      assert front + rest == front;
      FirstOccurrencesDistinct(front);
    } else {
      var n := |rest| - 1;
      assert (front + rest)[..|front + rest| - 1] == front + rest[..n];
      assert rest[n] in rest && forall x :: x in rest[..n] ==> x in rest;
      FirstOccurrencesLead(front, rest[..n]);
    }
  }

  /** The values of a list can be arranged to normalize to any order of their set. */
  lemma ArrangeValues(values: seq<string>, target: seq<string>) returns (r: seq<string>)
    requires NormalizedValues(Some(values)).Ok? && NoDuplicates(target)
    requires ToSet(NormalizedValues(Some(values)).value) == ToSet(target)
    ensures multiset(r) == multiset(values) && NormalizedValues(Some(r)) == Ok(target)
  {
    hide NormalizeBounded, FirstOccurrences, NormalizeAll;
    var images := NormalizeAll(values).value;
    NormalizeAllMembers(values);
    FirstOccurrencesExact(images);
    forall x
      ensures x in target <==> x in images
    {
      assert x in target <==> x in ToSet(target);
      assert x in images <==> x in ToSet(NormalizedValues(Some(values)).value);
    }
    var rest := Leading(images, target);
    r := Lift(values, images, target + rest, ValueOf);
    PermutedMembers(images, target + rest);
    PermutedMembers(values, r);
    NormalizeAllIs(r, target + rest);
    forall x | x in rest
      ensures x in target
    {
      assert x in target + rest;
    }
    FirstOccurrencesLead(target, rest);
  }

  lemma {:induction false} NormalizeAllIs(values: seq<string>, target: seq<string>)
    requires |values| == |target| && forall i :: 0 <= i < |values| ==> ValueOf(values[i]) == Ok(target[i])
    ensures NormalizeAll(values) == Ok(target)
  {
    hide NormalizeBounded;
    if values != [] {
      var n := |values| - 1;
      NormalizeAllIs(values[..n], target[..n]);
      assert ValueOf(values[n]) == NormalizeBounded("selector.value", values[n], MAX_SELECTOR_VALUE_BYTES);
      assert target == target[..n] + [target[n]];
    } else {
      assert target == [];
    }
  }

  lemma ArrangeExpressions(texts: seq<string>, target: seq<SelectorExpression>) returns (r: seq<string>)
    requires ValidateExpressions(Some(texts)).Ok?
    requires multiset(ValidateExpressions(Some(texts)).value) == multiset(target)
    ensures multiset(r) == multiset(texts) && ValidateExpressions(Some(r)) == Ok(target)
  {
    hide ParseExpressions, ExpressionOf;
    var images := ParseExpressions(texts).value;
    ParseExpressionsAt(texts);
    r := Lift(texts, images, target, ExpressionOf);
    PermutedMembers(images, target);
    ParseExpressionsIs(r, target);
  }

  lemma {:induction false} ParseExpressionsAt(texts: seq<string>)
    requires ParseExpressions(texts).Ok?
    ensures |ParseExpressions(texts).value| == |texts|
    ensures forall i :: 0 <= i < |texts| ==> ExpressionOf(texts[i]) == Ok(ParseExpressions(texts).value[i])
  {
    hide NormalizeBounded, Parse;
    if texts != [] {
      var n := |texts| - 1;
      assert ParseExpressions(texts) == JoinLast(ParseExpressions(texts[..n]), ExpressionOf(texts[n]));
      ParseExpressionsAt(texts[..n]);
    }
  }

  lemma {:induction false} ParseExpressionsIs(texts: seq<string>, target: seq<SelectorExpression>)
    requires |texts| == |target| && forall i :: 0 <= i < |texts| ==> ExpressionOf(texts[i]) == Ok(target[i])
    ensures ParseExpressions(texts) == Ok(target)
  {
    hide NormalizeBounded, Parse;
    if texts != [] {
      var n := |texts| - 1;
      ParseExpressionsIs(texts[..n], target[..n]);
      assert ParseExpressions(texts) == JoinLast(ParseExpressions(texts[..n]), ExpressionOf(texts[n]));
      assert target == target[..n] + [target[n]];
    } else {
      assert target == [];
    }
  }

  /** Expressions that are permuted parse to permuted expressions. */
  lemma RearrangedParses(a: seq<string>, b: seq<string>)
    requires multiset(a) == multiset(b) && ValidateExpressions(Some(a)).Ok?
    ensures ValidateExpressions(Some(b)).Ok?
    ensures multiset(ValidateExpressions(Some(a)).value) == multiset(ValidateExpressions(Some(b)).value)
  {
    RearrangedExpressions(a, b);
    hide ExpressionOf, ParseExpressions;
    ParseExpressionsAt(a);
    ParseExpressionsAt(b);
    ImagesPermute(a, ParseExpressions(a).value, b, ParseExpressions(b).value, ExpressionOf);
  }

  /** A selector that is alike another can be rearranged to equal it. */
  lemma ArrangeAlike(a: RawSelector, s: Selector) returns (b: RawSelector)
    requires ValidateSelector(a).Ok? && Alike(ValidateSelector(a).value, s) && NoDuplicates(s.values)
    ensures Rearranged(a, b) && ValidateSelector(b).Ok? && SameSelector(ValidateSelector(b).value, s)
  {
    hide NormalizedValues, ValidateExpressions, ToSet, NoDuplicates, New;
    var t := ValidateSelector(a).value;
    SameValues(a.values);
    SameExpressions(a.expressions);
    var values := ArrangeValues(a.values.UnwrapOr([]), s.values);
    var expressions := ArrangeExpressions(a.expressions.UnwrapOr([]), s.expressions);
    b := RawSelector(a.kind, a.all, Some(values), Some(expressions));
    RearrangedSelector(a, b);
    KindsAgree(t.kind, s.kind, s.kind);
  }

  lemma RearrangedItself(a: RawSelector)
    ensures Rearranged(a, a)
  {
  }

  /** Two alike selectors of a valid list can be made to repeat. */
  lemma UnsteadyList(a: seq<RawSelector>) returns (b: seq<RawSelector>)
    requires ValidatedEach(a).Ok? && !NoneAlike(ValidatedEach(a).value)
    ensures RearrangedList(a, b) && ValidatedEach(b).Err?
  {
    hide ValidatedEach, ValidateSelector, Alike, Rearranged, SameSelector;
    ValidatedEachIff(a);
    var v := ValidatedEach(a).value;
    var i, j :| 0 <= i < j < |v| && Alike(v[i], v[j]);
    AlikeRelation(v[i], v[j], v[i]);
    ValidateSelectorShape(a[i]);
    var x := ArrangeAlike(a[j], v[i]);
    b := a[j := x];
    forall k | 0 <= k < |a|
      ensures Rearranged(a[k], b[k])
    {
      RearrangedItself(a[k]);
    }
    assert Permutes(a, a) && Pointwise(a, b);
    SelectorsSymmetric(ValidateSelector(x).value, v[i]);
    assert b[i] == a[i] && b[j] == x;
    ValidatedEachIff(b);
  }

  /** Exactly when no two selectors of a valid list are alike does every rearrangement of it stay valid. */
  lemma RearrangedListsValid(a: seq<RawSelector>)
    requires ValidatedEach(a).Ok?
    ensures (forall b :: RearrangedList(a, b) ==> ValidatedEach(b).Ok?) <==> NoneAlike(ValidatedEach(a).value)
  {
    hide ValidatedEach, NoneAlike, RearrangedList;
    if NoneAlike(ValidatedEach(a).value) {
      forall b | RearrangedList(a, b)
        ensures ValidatedEach(b).Ok?
      {
        SteadyList(a, b);
      }
    } else {
      var b := UnsteadyList(a);
    }
  }

  // ---- An input ----

  lemma LetterNormalizes(c: char)
    requires 'a' <= c <= 'z'
    ensures ValueOf([c]) == Ok([c]) && New([c]).Ok?
  {
    assert Trim([c]) == [c];
    assert |Utf8([c])| == 1;
  }

  lemma LettersNormalize(c: char, d: char)
    requires 'a' <= c <= 'z' && 'a' <= d <= 'z' && c != d
    ensures NormalizedValues(Some([[c], [d]])) == Ok([[c], [d]])
  {
    hide NormalizeBounded;
    var values: seq<string> := [[c], [d]];
    LetterNormalizes(c);
    LetterNormalizes(d);
    assert values[0] == [c] && values[1] == [d] && values[0][0] != values[1][0];
    NormalizeAllFixed(values);
    FirstOccurrencesDistinct(values);
  }

  lemma LetterSelector(c: char, d: char)
    requires 'a' <= c <= 'z' && 'a' <= d <= 'z' && c != d
    ensures var r := ValidateSelector(RawSelector("k", false, Some([[c], [d]]), None));
            r.Ok? && r.value.values == [[c], [d]]
  {
    hide NormalizedValues, New;
    LettersNormalize(c, d);
    LetterNormalizes('k');
    assert ['k'] == "k";
    assert ValidateExpressions(None) == Ok([]);
  }

  lemma PairRepeats(x: RawSelector, y: RawSelector)
    requires ValidateSelector(x).Ok? && ValidateSelector(y).Ok? && Rearranged(y, x)
    requires !SameSelector(ValidateSelector(x).value, ValidateSelector(y).value)
    ensures ValidatedEach([x, y]).Ok? && RearrangedList([x, y], [x, x]) && ValidatedEach([x, x]).Err?
  {
    hide ValidateSelector, Rearranged, ValidatedEach, SameSelector;
    var a, b := [x, y], [x, x];
    RearrangedItself(x);
    assert Permutes(a, a) && Pointwise(a, b);
    ValidatedEachIff(a);
    ValidatedEachIff(b);
    SameSelectorItself(ValidateSelector(x).value);
    assert b[0] == x && b[1] == x;
  }

  lemma SameSelectorItself(s: Selector)
    ensures SameSelector(s, s)
  {
  }

  lemma SwappedPair(a: string, b: string)
    ensures multiset([a, b]) == multiset([b, a])
  {
    assert [a, b] == [a] + [b] && [b, a] == [b] + [a];
  }

  /** Two values in both orders are two selectors; rearranging the second one repeats the first. */
  lemma RearrangingRepeats()
    ensures var x := RawSelector("k", false, Some(["a", "b"]), None);
            var y := RawSelector("k", false, Some(["b", "a"]), None);
            ValidatedEach([x, y]).Ok? && RearrangedList([x, y], [x, x]) && ValidatedEach([x, x]).Err?
  {
    hide ValidateSelector, ValidatedEach, RearrangedList;
    var x := RawSelector("k", false, Some(["a", "b"]), None);
    var y := RawSelector("k", false, Some(["b", "a"]), None);
    LetterSelector('a', 'b');
    LetterSelector('b', 'a');
    SwappedPair("a", "b");
    assert ValidateSelector(x).value.values[0][0] != ValidateSelector(y).value.values[0][0];
    PairRepeats(x, y);
  }
}

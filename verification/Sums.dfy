/** Sums of weights over the entries of a map and over a sequence. */
module Sums {

  ghost function SumOver<K(!new), V(!new)>(m: map<K, V>, w: (K, V) -> nat): nat
    decreases m.Keys
  {
    if m == map[] then 0
    else
      var k :| k in m;
      assert (m - {k}).Keys == m.Keys - {k};
      w(k, m[k]) + SumOver(m - {k}, w)
  }

  lemma {:induction false} SumRemove<K(!new), V(!new)>(m: map<K, V>, w: (K, V) -> nat, k: K)
    requires k in m
    ensures SumOver(m, w) == w(k, m[k]) + SumOver(m - {k}, w)
    decreases m.Keys
  {
    var j :| j in m && SumOver(m, w) == w(j, m[j]) + SumOver(m - {j}, w);
    if j != k {
      assert (m - {j}).Keys == m.Keys - {j};
      assert (m - {k}).Keys == m.Keys - {k};
      SumRemove(m - {j}, w, k);
      SumRemove(m - {k}, w, j);
      assert m - {j} - {k} == m - {k} - {j};
    }
  }

  /** Setting one entry changes the sum by the difference of its weights. */
  lemma SumUpdate<K(!new), V(!new)>(m: map<K, V>, w: (K, V) -> nat, k: K, v: V)
    ensures SumOver(m[k := v], w) == SumOver(m, w) - (if k in m then w(k, m[k]) else 0) + w(k, v)
  {
    SumRemove(m[k := v], w, k);
    assert m[k := v] - {k} == m - {k};
    if k in m {
      SumRemove(m, w, k);
    } else {
      assert m - {k} == m;
    }
  }

  /** Entries without weight do not count. */
  lemma {:induction false} SumAtLeast<K(!new), V(!new)>(m: map<K, V>, w: (K, V) -> nat, k: K)
    requires k in m
    ensures w(k, m[k]) <= SumOver(m, w)
  {
    SumRemove(m, w, k);
  }

  ghost function SumSeq<V(!new)>(s: seq<V>, w: V -> nat): nat {
    if s == [] then 0 else SumSeq(s[..|s| - 1], w) + w(s[|s| - 1])
  }

  lemma SumSeqAppend<V(!new)>(s: seq<V>, w: V -> nat, v: V)
    ensures SumSeq(s + [v], w) == SumSeq(s, w) + w(v)
  {
    assert (s + [v])[..|s|] == s;
  }
}

/** Sequences with the same elements in another order. */
module Permutations {
  import opened Wrappers
  import opened Protocol
  import opened ContextValues

  lemma PermutedMembers<T>(a: seq<T>, b: seq<T>)
    requires multiset(a) == multiset(b)
    ensures |a| == |b| && forall x :: x in a <==> x in b
  {
    assert |multiset(a)| == |multiset(b)|;
    assert forall x :: x in a <==> x in multiset(a);
    assert forall x :: x in b <==> x in multiset(b);
  }

  function Without<T>(s: seq<T>, i: nat): seq<T>
    requires i < |s|
  {
    s[..i] + s[i + 1..]
  }

  lemma WithoutOne<T>(s: seq<T>, i: nat)
    requires i < |s|
    ensures multiset(Without(s, i)) == multiset(s) - multiset{s[i]}
  {
    assert s == s[..i] + [s[i]] + s[i + 1..];
  }

  lemma WithoutAt<T>(s: seq<T>, i: nat, x: T) returns (l: nat)
    requires i < |s| && x in Without(s, i)
    ensures l < |s| && l != i && s[l] == x
  {
    var at: nat :| at < |Without(s, i)| && Without(s, i)[at] == x;
    l := if at < i then at else at + 1;
  }

  /** Two places of a permuted list are two places of the list. */
  lemma PermutedPlaces<T>(a: seq<T>, b: seq<T>, i: nat, j: nat) returns (k: nat, l: nat)
    requires multiset(a) == multiset(b) && i < |b| && j < |b| && i != j
    ensures k < |a| && l < |a| && k != l && a[k] == b[i] && a[l] == b[j]
  {
    PermutedMembers(a, b);
    assert b[i] in a;
    k :| k < |a| && a[k] == b[i];
    WithoutOne(a, k);
    WithoutOne(b, i);
    PermutedMembers(Without(a, k), Without(b, i));
    assert b[j] == Without(b, i)[if j < i then j else j - 1];
    l := WithoutAt(a, k, b[j]);
  }

  lemma WithoutMembers<T>(s: seq<T>, k: nat, x: T)
    requires k < |s| && x in s && x != s[k]
    ensures x in Without(s, k)
  {
    var l: nat :| l < |s| && s[l] == x;
    assert Without(s, k)[if l < k then l else l - 1] == x;
  }

  lemma WithoutImages<T, U>(s: seq<T>, images: seq<U>, k: nat, f: T -> Result<U, TrustGrantError>)
    requires |images| == |s| && k < |s| && forall i :: 0 <= i < |s| ==> f(s[i]) == Ok(images[i])
    ensures |Without(s, k)| == |Without(images, k)| == |s| - 1
    ensures forall i :: 0 <= i < |s| - 1 ==> f(Without(s, k)[i]) == Ok(Without(images, k)[i])
  {
  }

  /** Putting an element in front of a permutation of the others permutes the whole. */
  lemma FirstOfAll<T>(s: seq<T>, k: nat, rest: seq<T>)
    requires k < |s| && multiset(rest) == multiset(Without(s, k))
    ensures multiset([s[k]] + rest) == multiset(s)
  {
    hide Without;
    WithoutOne(s, k);
  }

  /** Where the first element of a permutation stands, and what is left without it. */
  lemma FirstPlace<T>(s: seq<T>, target: seq<T>) returns (k: nat)
    requires multiset(s) == multiset(target) && target != []
    ensures k < |s| && s[k] == target[0] && multiset(Without(s, k)) == multiset(target[1..])
  {
    PermutedMembers(s, target);
    assert target[0] in s;
    k :| k < |s| && s[k] == target[0];
    WithoutOne(s, k);
    WithoutOne(target, 0);
    assert Without(target, 0) == target[1..];
  }

  /** Arranges s so that f gives the target, when f of s is a permutation of the target. */
  lemma {:induction false} Lift<T, U(!new)>(
    s: seq<T>, images: seq<U>, target: seq<U>, f: T -> Result<U, TrustGrantError>) returns (r: seq<T>)
    requires |images| == |s| && forall i :: 0 <= i < |s| ==> f(s[i]) == Ok(images[i])
    requires multiset(images) == multiset(target)
    ensures multiset(r) == multiset(s) && |r| == |target| && forall i :: 0 <= i < |r| ==> f(r[i]) == Ok(target[i])
    decreases |target|
  {
    hide Without;
    if target == [] {
      PermutedMembers(images, target);
      r := s;
    } else {
      var k := FirstPlace(images, target);
      WithoutImages(s, images, k, f);
      var rest := Lift(Without(s, k), Without(images, k), target[1..], f);
      FirstOfAll(s, k, rest);
      r := [s[k]] + rest;
    }
  }

  /** The images of a permutation are a permutation of the images. */
  lemma {:induction false} ImagesPermute<T, U(!new)>(
    a: seq<T>, x: seq<U>, b: seq<T>, y: seq<U>, f: T -> Result<U, TrustGrantError>)
    requires multiset(a) == multiset(b) && |x| == |a| && |y| == |b|
    requires forall i :: 0 <= i < |a| ==> f(a[i]) == Ok(x[i])
    requires forall i :: 0 <= i < |b| ==> f(b[i]) == Ok(y[i])
    ensures multiset(x) == multiset(y)
    decreases |a|
  {
    hide Without;
    if a == [] {
      PermutedMembers(a, b);
      assert x == [] && y == [];
    } else {
      var k := FirstPlace(b, a);
      WithoutImages(b, y, k, f);
      ImagesPermute(a[1..], x[1..], Without(b, k), Without(y, k), f);
      assert f(a[0]) == Ok(x[0]) && f(b[k]) == Ok(y[k]);
      FirstOfAll(y, k, x[1..]);
      assert x == [y[k]] + x[1..];
    }
  }

  /** Moves distinct elements of s to its front. */
  lemma {:induction false} Leading<T>(s: seq<T>, front: seq<T>) returns (rest: seq<T>)
    requires NoDuplicates(front) && forall i :: 0 <= i < |front| ==> front[i] in s
    ensures multiset(front + rest) == multiset(s)
    decreases |front|
  {
    if front == [] {
      rest := s;
      assert front + rest == s;
    } else {
      hide Without;
      var k: nat :| k < |s| && s[k] == front[0];
      var tail := front[1..];
      forall i | 0 <= i < |tail|
        ensures tail[i] in Without(s, k)
      {
        assert tail[i] == front[i + 1];
        WithoutMembers(s, k, front[i + 1]);
      }
      rest := Leading(Without(s, k), tail);
      FirstOfAll(s, k, tail + rest);
      assert front + rest == [s[k]] + (tail + rest);
    }
  }
}

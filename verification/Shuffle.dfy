/** The Fisher-Yates shuffle of getKern (libprogpow/ProgPow.cpp). */
module Shuffle {
  function Swapped(s: seq<nat>, i: nat, j: nat): (r: seq<nat>)
    requires i < |s| && j < |s|
    ensures |r| == |s| && r[i] == s[j] && r[j] == s[i]
    ensures forall k :: 0 <= k < |s| && k != i && k != j ==> r[k] == s[k]
  {
    s[i := s[j]][j := s[i]]
  }

  /** The choice for position i is at most i, that for position i - 1 at most i - 1, and so on. */
  predicate AreChoices(js: seq<nat>, i: nat) {
    |js| == i && forall k :: 0 <= k < i ==> js[k] <= i - k
  }

  /** Position i is swapped with the first choice, position i - 1 with the second, down to position 1. */
  function Shuffled(s: seq<nat>, i: nat, js: seq<nat>): (r: seq<nat>)
    requires i < |s| && AreChoices(js, i)
    ensures |r| == |s|
    decreases i
  {
    if i == 0 then s else Shuffled(Swapped(s, i, js[0]), i - 1, js[1..])
  }

  lemma SwapKeepsContents(s: seq<nat>, i: nat, j: nat)
    requires i < |s| && j < |s|
    ensures multiset(Swapped(s, i, j)) == multiset(s)
  {
    hide Swapped;
    var r := Swapped(s, i, j);
    assert r == s[i := s[j]][j := s[i]];
  }

  /** Shuffling permutes, and leaves alone what is above the first position. */
  lemma {:induction false} ShuffledIsPermutation(s: seq<nat>, i: nat, js: seq<nat>)
    requires i < |s| && AreChoices(js, i)
    ensures multiset(Shuffled(s, i, js)) == multiset(s)
    ensures forall k :: i < k < |s| ==> Shuffled(s, i, js)[k] == s[k]
    decreases i
  {
    if i > 0 {
      SwapKeepsContents(s, i, js[0]);
      ShuffledIsPermutation(Swapped(s, i, js[0]), i - 1, js[1..]);
    }
  }

  predicate Distinct(s: seq<nat>) {
    forall i, j :: 0 <= i < j < |s| ==> s[i] != s[j]
  }

  lemma SwapKeepsDistinct(s: seq<nat>, i: nat, j: nat)
    requires i < |s| && j < |s| && Distinct(s)
    ensures Distinct(Swapped(s, i, j))
  {
    hide Swapped;
    var r := Swapped(s, i, j);
    forall a, b | 0 <= a < b < |r| ensures r[a] != r[b] {
      var a' := if a == i then j else if a == j then i else a;
      var b' := if b == i then j else if b == j then i else b;
      assert r[a] == s[a'] && r[b] == s[b'] && a' != b';
    }
  }

  /** Different choices give different permutations. */
  lemma {:induction false} ShuffledInjective(s: seq<nat>, i: nat, js: seq<nat>, ks: seq<nat>)
    requires i < |s| && Distinct(s) && AreChoices(js, i) && AreChoices(ks, i)
    ensures Shuffled(s, i, js) == Shuffled(s, i, ks) <==> js == ks
    decreases i
  {
    if i > 0 && Shuffled(s, i, js) == Shuffled(s, i, ks) {
      var t, u := Swapped(s, i, js[0]), Swapped(s, i, ks[0]);
      ShuffledIsPermutation(t, i - 1, js[1..]);
      ShuffledIsPermutation(u, i - 1, ks[1..]);
      assert s[js[0]] == t[i] == u[i] == s[ks[0]];
      assert js[0] == ks[0];
      SwapKeepsDistinct(s, i, js[0]);
      ShuffledInjective(t, i - 1, js[1..], ks[1..]);
      assert js == [js[0]] + js[1..] && ks == [ks[0]] + ks[1..];
    }
  }

  /** 0, 1, ..., n - 1. */
  function Identity(n: nat): (s: seq<nat>)
    ensures |s| == n && Distinct(s) && forall i :: 0 <= i < n ==> s[i] == i
  {
    seq(n, i requires 0 <= i < n => i)
  }

  /** Every register once. */
  ghost predicate IsPermutation(s: seq<nat>, n: nat) {
    multiset(s) == multiset(Identity(n))
  }

  lemma PermutationCovers(s: seq<nat>, n: nat)
    requires IsPermutation(s, n)
    ensures |s| == n && Distinct(s)
    ensures forall v: nat :: v in s <==> v < n
  {
    assert |s| == |multiset(s)| == |multiset(Identity(n))| == n;
    forall v: nat ensures v in s <==> v < n {
      assert v in s <==> v in multiset(s);
      assert v in Identity(n) <==> v in multiset(Identity(n));
      if v < n {
        assert Identity(n)[v] == v;
      }
    }
    forall i, j | 0 <= i < j < |s| ensures s[i] != s[j] {
      if s[i] == s[j] {
        CountsTwice(s, i, j);
        IdentityCountsOnce(n, s[i]);
      }
    }
  }

  lemma CountsTwice(s: seq<nat>, i: nat, j: nat)
    requires i < j < |s| && s[i] == s[j]
    ensures multiset(s)[s[i]] >= 2
  {
    assert s == s[..j] + s[j..];
    assert multiset(s) == multiset(s[..j]) + multiset(s[j..]);
    assert s[..j][i] == s[i] && s[j..][0] == s[j];
    assert s[i] in multiset(s[..j]) && s[j] in multiset(s[j..]);
  }

  lemma {:induction false} IdentityCountsOnce(n: nat, v: nat)
    ensures multiset(Identity(n))[v] <= 1
  {
    if n == 0 {
      assert Identity(n) == [];
    } else {
      IdentityCountsOnce(n - 1, v);
      assert Identity(n) == Identity(n - 1) + [n - 1];
      if v >= n - 1 {
        assert v !in Identity(n - 1);
        assert multiset(Identity(n - 1))[v] == 0;
      }
    }
  }

  // ----- the loop

  method Swap(a: array<nat>, i: nat, j: nat)
    requires i < a.Length && j < a.Length
    modifies a
    ensures a[..] == Swapped(old(a[..]), i, j)
  {
    hide Swapped;
    var t := a[i];
    a[i] := a[j];
    a[j] := t;
    assert a[..] == old(a[..])[i := old(a[j])][j := old(a[i])];
    SwappedIsUpdate(old(a[..]), i, j);
  }

  lemma SwappedIsUpdate(s: seq<nat>, i: nat, j: nat)
    requires i < |s| && j < |s|
    ensures Swapped(s, i, j) == s[i := s[j]][j := s[i]]
  {
  }
}

/**
 The final shuffle of the generator. The standard library's shuffle is a
 Fisher–Yates pass: for i from the last index down to 1 it swaps position i
 with a position j drawn uniformly from 0..i. The draws are abstracted as an
 oracle `swap`: step i swaps position i with `Below(swap(i), i + 1)`. The module
 proves that the pass only permutes, and that every permutation is reachable,
 so the pass is exactly "some permutation of its input".
 */
module Shuffling {
  import opened Oracles

  /** Exchange the elements at positions `i` and `j`. */
  function Swap<T>(xs: seq<T>, i: nat, j: nat): (r: seq<T>)
    requires i < |xs| && j < |xs|
    ensures |r| == |xs|
  {
    xs[i := xs[j]][j := xs[i]]
  }

  /** Steps i, i - 1, ..., 1 of the Fisher–Yates pass. */
  function Steps<T>(xs: seq<T>, i: nat, swap: nat -> nat): (r: seq<T>)
    requires i < |xs|
    ensures |r| == |xs|
    decreases i
  {
    if i == 0 then xs
    else Steps(Swap(xs, i, Below(swap(i), i + 1)), i - 1, swap)
  }

  /** The whole pass; lists of fewer than two elements are left as they are. */
  function Shuffle<T>(xs: seq<T>, swap: nat -> nat): (r: seq<T>)
    ensures |r| == |xs|
    ensures multiset(r) == multiset(xs)
  {
    if |xs| == 0 then xs
    else
      StepsPermute(xs, |xs| - 1, swap);
      Steps(xs, |xs| - 1, swap)
  }

  lemma SwapPermutes<T>(xs: seq<T>, i: nat, j: nat)
    requires i < |xs| && j < |xs|
    ensures multiset(Swap(xs, i, j)) == multiset(xs)
  {
  }

  /** Whatever the draws, the steps keep every element with its multiplicity. */
  lemma {:induction false} StepsPermute<T>(xs: seq<T>, i: nat, swap: nat -> nat)
    requires i < |xs|
    ensures multiset(Steps(xs, i, swap)) == multiset(xs)
    decreases i
  {
    if i > 0 {
      var xs' := Swap(xs, i, Below(swap(i), i + 1));
      SwapPermutes(xs, i, Below(swap(i), i + 1));
      StepsPermute(xs', i - 1, swap);
    }
  }

  /** Steps i down to 1 read only the draws numbered 0..i. */
  lemma {:induction false} StepsReadOnlyTheirDraws<T>(xs: seq<T>, i: nat, s: nat -> nat, t: nat -> nat)
    requires i < |xs|
    requires forall k: nat :: k <= i ==> s(k) == t(k)
    ensures Steps(xs, i, s) == Steps(xs, i, t)
    decreases i
  {
    if i > 0 {
      var xs' := Swap(xs, i, Below(s(i), i + 1));
      assert xs' == Swap(xs, i, Below(t(i), i + 1));
      assert Steps(xs, i, s) == Steps(xs', i - 1, s);
      assert Steps(xs, i, t) == Steps(xs', i - 1, t);
      StepsReadOnlyTheirDraws(xs', i - 1, s, t);
    }
  }

  /**
   Steps i down to 1 can turn `xs` into any `ys` that agrees with it above
   position i and holds the same elements at positions 0..i.
   */
  lemma {:induction false} StepsReach<T>(xs: seq<T>, ys: seq<T>, i: nat) returns (swap: nat -> nat)
    requires i < |xs| && |ys| == |xs|
    requires xs[i + 1..] == ys[i + 1..]
    requires multiset(xs[..i + 1]) == multiset(ys[..i + 1])
    ensures Steps(xs, i, swap) == ys
    decreases i
  {
    if i == 0 {
      SameSingleton(xs, ys);
      swap := k => 0;
      assert Steps(xs, 0, swap) == xs;
    } else {
      var j := PlaceLast(xs, ys, i);
      var xs' := Swap(xs, i, j);
      var inner := StepsReach(xs', ys, i - 1);
      swap := Override(inner, i, j);
      FirstStep(xs, i, swap);
      StepsReadOnlyTheirDraws(xs', i - 1, swap, inner);
    }
  }

  /** Step i swaps with the position its draw names; the rest is steps i - 1 down to 1. */
  lemma FirstStep<T>(xs: seq<T>, i: nat, swap: nat -> nat)
    requires 0 < i < |xs| && swap(i) <= i
    ensures Steps(xs, i, swap) == Steps(Swap(xs, i, swap(i)), i - 1, swap)
  {
    assert Below(swap(i), i + 1) == swap(i);
  }

  lemma SameSingleton<T>(xs: seq<T>, ys: seq<T>)
    requires 0 < |xs| == |ys|
    requires xs[1..] == ys[1..]
    requires multiset(xs[..1]) == multiset(ys[..1])
    ensures xs == ys
  {
    assert xs[..1] == [xs[0]] && ys[..1] == [ys[0]];
    assert xs[0] in multiset(ys[..1]);
    assert xs == xs[..1] + xs[1..] && ys == ys[..1] + ys[1..];
  }

  /**
   A position j <= i whose swap with i puts `ys[i]` in place, leaving the
   prefix before i a rearrangement of the prefix of `ys`.
   */
  lemma PlaceLast<T>(xs: seq<T>, ys: seq<T>, i: nat) returns (j: nat)
    requires 0 < i < |xs| && |ys| == |xs|
    requires xs[i + 1..] == ys[i + 1..]
    requires multiset(xs[..i + 1]) == multiset(ys[..i + 1])
    ensures j <= i
    ensures Swap(xs, i, j)[i..] == ys[i..]
    ensures multiset(Swap(xs, i, j)[..i]) == multiset(ys[..i])
  {
    assert ys[i] in multiset(xs[..i + 1]) by {
      assert ys[..i + 1][i] == ys[i];
    }
    assert ys[i] in xs[..i + 1];
    j :| 0 <= j <= i && xs[..i + 1][j] == ys[i];
    SwapPrefixMultiset(xs, i, j, i + 1);
    DropLast(Swap(xs, i, j), i);
    DropLast(ys, i);
    SwapSuffix(xs, ys, i, j);
  }

  lemma SwapSuffix<T>(xs: seq<T>, ys: seq<T>, i: nat, j: nat)
    requires j <= i < |xs| && |ys| == |xs|
    requires xs[i + 1..] == ys[i + 1..]
    requires xs[j] == ys[i]
    ensures Swap(xs, i, j)[i..] == ys[i..]
  {
    var xs' := Swap(xs, i, j);
    assert forall k :: i < k < |xs| ==> xs'[k] == xs[k] == xs[i + 1..][k - i - 1];
  }

  lemma SwapPrefixMultiset<T>(xs: seq<T>, i: nat, j: nat, n: nat)
    requires i < n && j < n && n <= |xs|
    ensures multiset(Swap(xs, i, j)[..n]) == multiset(xs[..n])
  {
    assert Swap(xs, i, j)[..n] == Swap(xs[..n], i, j);
  }

  lemma DropLast<T>(s: seq<T>, i: nat)
    requires i < |s|
    ensures multiset(s[..i]) == multiset(s[..i + 1]) - multiset{s[i]}
  {
    assert s[..i + 1] == s[..i] + [s[i]];
  }

  /**
   The pass produces exactly the permutations of its input: whatever the
   draws, the elements are kept with their multiplicities, and for every
   rearrangement there are draws that produce it.
   */
  lemma ShuffleOutcomes<T>(xs: seq<T>, ys: seq<T>)
    ensures (exists swap :: Shuffle(xs, swap) == ys) <==> multiset(xs) == multiset(ys)
  {
    if multiset(xs) == multiset(ys) {
      var swap := ShuffleReachesPermutation(xs, ys);
      assert Shuffle(xs, swap) == ys;
    }
  }

  lemma ShuffleReachesPermutation<T>(xs: seq<T>, ys: seq<T>) returns (swap: nat -> nat)
    requires multiset(xs) == multiset(ys)
    ensures Shuffle(xs, swap) == ys
  {
    SameLength(xs, ys);
    if |xs| > 0 {
      var i := |xs| - 1;
      assert xs[..i + 1] == xs && ys[..i + 1] == ys;
      swap := StepsReach(xs, ys, i);
      assert Shuffle(xs, swap) == Steps(xs, i, swap);
    } else {
      swap := k => 0;
    }
  }

  lemma SameLength<T>(xs: seq<T>, ys: seq<T>)
    requires multiset(xs) == multiset(ys)
    ensures |xs| == |ys|
  {
    assert |xs| == |multiset(xs)| && |ys| == |multiset(ys)|;
  }
}

/**
 The converse of the password properties: every good password (the
 requested length, only enabled classes, every enabled class) is produced
 by some draws. Together with
 PasswordProperties.GeneratedIsValid this pins down the set of possible
 passwords exactly.
 */
module Reachability {
  import opened Alphabets
  import opened ClassPools
  import opened Oracles
  import opened Shuffling
  import opened Generator
  import opened PasswordProperties

  /** The first position of `ch` in `s`. */
  function IndexOf(s: string, ch: char): (i: nat)
    requires ch in s
    ensures i < |s| && s[i] == ch
  {
    if s[0] == ch then 0 else 1 + IndexOf(s[1..], ch)
  }

  /** The alphabet position t of the drawn list is picked from. */
  function PoolFor(pools: seq<string>, t: nat): string
  {
    if t < |pools| then pools[t] else Concat(pools)
  }

  /** Draws that name, at every position, the index of the wanted character. */
  function Steering(pools: seq<string>, chars: string): (draw: nat -> nat)
    requires Drawable(pools, |chars|, chars)
    ensures forall t :: 0 <= t < |chars| ==>
              draw(t) < |PoolFor(pools, t)| && PoolFor(pools, t)[draw(t)] == chars[t]
  {
    (t: nat) => if t < |chars| then IndexOf(PoolFor(pools, t), chars[t]) else 0
  }

  /** Every list the seed and the fill may produce is produced by some draws. */
  lemma DrawsReach(pools: seq<string>, length: int, chars: string) returns (draw: nat -> nat)
    requires NonEmptyPools(pools) && 0 < |pools| <= length
    requires Drawable(pools, length, chars)
    ensures Unshuffled(pools, length, draw) == chars
  {
    draw := Steering(pools, chars);
    var seed := Seed(pools, draw);
    var r := Unshuffled(pools, length, draw);
    assert r == Fill(seed, Concat(pools), length, draw);
    forall t | 0 <= t < length
      ensures r[t] == chars[t]
    {
      if t < |pools| {
        assert r[t] == r[..|seed|][t] == seed[t];
        assert seed[t] == Choice(pools[t], draw(t));
      } else {
        assert r[t] == Choice(Concat(pools), draw(t));
      }
    }
  }

  /** The list covers the pools i..k-1 at or after position i, and holds only combined-alphabet characters. */
  ghost predicate CoversFrom(pools: seq<string>, chars: string, i: nat)
  {
    && i <= |pools| <= |chars|
    && (forall m :: 0 <= m < i ==> chars[m] in pools[m])
    && (forall t :: 0 <= t < |chars| ==> chars[t] in Concat(pools))
    && (forall j :: i <= j < |pools| ==> OccursFrom(chars, i, pools[j]))
  }

  /**
   Rearranging a list that covers the pools from position i on: swap into
   each position i..k-1 a character of its pool, keeping the multiset.
   */
  lemma {:induction false} ArrangeFrom(pools: seq<string>, chars: string, i: nat) returns (out: string)
    requires PairwiseDisjoint(pools)
    requires CoversFrom(pools, chars, i)
    ensures multiset(out) == multiset(chars)
    ensures Drawable(pools, |chars|, out)
    decreases |pools| - i
  {
    if i == |pools| {
      out := chars;
      CoveredIsDrawable(pools, chars);
    } else {
      var next := PlaceOne(pools, chars, i);
      out := ArrangeFrom(pools, next, i + 1);
    }
  }

  lemma CoveredIsDrawable(pools: seq<string>, chars: string)
    requires CoversFrom(pools, chars, |pools|)
    ensures Drawable(pools, |chars|, chars)
  {
  }

  /** One step of the rearrangement: a character of pool i is swapped into position i. */
  lemma PlaceOne(pools: seq<string>, chars: string, i: nat) returns (next: string)
    requires PairwiseDisjoint(pools)
    requires CoversFrom(pools, chars, i) && i < |pools|
    ensures CoversFrom(pools, next, i + 1)
    ensures multiset(next) == multiset(chars) && |next| == |chars|
  {
    assert OccursFrom(chars, i, pools[i]);
    var p :| i <= p < |chars| && chars[p] in pools[i];
    next := Swap(chars, i, p);
    SwapPermutes(chars, i, p);
    SwapKeepsMembers(chars, i, p, Concat(pools));
    SwapPlacesPrefix(pools, chars, i, p);
    SwapKeepsCover(pools, chars, i, p);
  }

  lemma SwapKeepsMembers(s: string, i: nat, p: nat, all: string)
    requires i < |s| && p < |s|
    requires forall t :: 0 <= t < |s| ==> s[t] in all
    ensures forall t :: 0 <= t < |s| ==> Swap(s, i, p)[t] in all
  {
    forall t | 0 <= t < |s|
      ensures Swap(s, i, p)[t] in all
    {
      var u := if t == i then p else if t == p then i else t;
      assert Swap(s, i, p)[t] == s[u];
    }
  }

  lemma SwapPlacesPrefix(pools: seq<string>, chars: string, i: nat, p: nat)
    requires i < |pools| <= |chars| && i <= p < |chars|
    requires forall m :: 0 <= m < i ==> chars[m] in pools[m]
    requires chars[p] in pools[i]
    ensures forall m :: 0 <= m < i + 1 ==> Swap(chars, i, p)[m] in pools[m]
  {
    forall m | 0 <= m < i + 1
      ensures Swap(chars, i, p)[m] in pools[m]
    {
      if m < i {
        assert Swap(chars, i, p)[m] == chars[m];
      }
    }
  }

  lemma SwapKeepsCover(pools: seq<string>, chars: string, i: nat, p: nat)
    requires PairwiseDisjoint(pools)
    requires i < |pools| <= |chars| && i <= p < |chars|
    requires chars[p] in pools[i]
    requires forall j :: i <= j < |pools| ==> OccursFrom(chars, i, pools[j])
    ensures forall j :: i + 1 <= j < |pools| ==> OccursFrom(Swap(chars, i, p), i + 1, pools[j])
  {
    forall j | i + 1 <= j < |pools|
      ensures OccursFrom(Swap(chars, i, p), i + 1, pools[j])
    {
      var q :| i <= q < |chars| && chars[q] in pools[j];
      assert chars[p] !in pools[j];
      var w := if q == i then p else q;
      assert chars[i] in pools[i] ==> q != i;
      assert i + 1 <= w < |chars| && Swap(chars, i, p)[w] == chars[q];
    }
  }

  /** Every string that fits pairwise disjoint pools is a rearrangement of a drawable list. */
  lemma FitsIsDrawable(pools: seq<string>, length: int, pw: string) returns (chars: string)
    requires PairwiseDisjoint(pools)
    requires |pools| <= length
    requires FitsPools(pools, length, pw)
    ensures Drawable(pools, length, chars)
    ensures multiset(chars) == multiset(pw)
  {
    chars := ArrangeFrom(pools, pw, 0);
  }

  /**
   For pools that passed the generator's checks and share no character, the
   strings that some draws turn into a password are exactly the strings that
   fit the pools.
   */
  lemma DrawOutcomes(pools: seq<string>, length: int, pw: string)
    requires NonEmptyPools(pools) && PairwiseDisjoint(pools)
    requires 0 < |pools| <= length
    ensures (exists draw, swap :: Shuffle(Unshuffled(pools, length, draw), swap) == pw)
            <==> FitsPools(pools, length, pw)
  {
    if exists draw, swap :: Shuffle(Unshuffled(pools, length, draw), swap) == pw {
      var draw, swap :| Shuffle(Unshuffled(pools, length, draw), swap) == pw;
      RearrangedDrawFits(pools, length, Unshuffled(pools, length, draw), pw);
    }
    if FitsPools(pools, length, pw) {
      var chars := FitsIsDrawable(pools, length, pw);
      var draw := DrawsReach(pools, length, chars);
      var swap := ShuffleReachesPermutation(chars, pw);
      assert Shuffle(Unshuffled(pools, length, draw), swap) == pw;
    }
  }

  /**
   For an accepted configuration, the passwords the generator can return
   are exactly the strings of the requested length that use only enabled
   classes and every one of them.
   */
  lemma GenerateOutcomes(length: int, f: Flags, pw: string)
    requires Accepted(length, f)
    ensures (exists draw, swap :: GeneratePassword(length, f, draw, swap) == Ok(pw))
            <==> ValidPassword(length, f, pw)
  {
    var pools := Pools(f);
    PoolsNonEmpty(f);
    PoolsPairwiseDisjoint(f);
    DrawOutcomes(pools, length, pw);
    FitsPoolsMeansValid(length, f, pw);
    if exists draw, swap :: GeneratePassword(length, f, draw, swap) == Ok(pw) {
      var draw, swap :| GeneratePassword(length, f, draw, swap) == Ok(pw);
      assert Shuffle(Unshuffled(pools, length, draw), swap) == pw;
    }
    if ValidPassword(length, f, pw) {
      var draw, swap :| Shuffle(Unshuffled(pools, length, draw), swap) == pw;
      assert GeneratePassword(length, f, draw, swap) == Ok(pw);
    }
  }
}

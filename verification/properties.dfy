/**
 What every generated password satisfies, and the proof that this
 description is exact: for an accepted configuration, the passwords some draws
 can produce are precisely the strings of the requested length that use
 only enabled classes and use every one of them.
 */
module PasswordProperties {
  import opened Alphabets
  import opened ClassPools
  import opened Oracles
  import opened Shuffling
  import opened Generator

  /**
   A good password, stated with classes only:
   the requested length, every character from an enabled class, every
   enabled class present.
   */
  ghost predicate ValidPassword(length: int, f: Flags, pw: string)
  {
    && |pw| == length
    && (forall p :: 0 <= p < |pw| ==> InEnabledClass(f, pw[p]))
    && (forall c :: Enabled(f, c) ==> exists p :: 0 <= p < |pw| && pw[p] in Alphabet(c))
  }

  /** Some position at or after `lo` holds a character of `pool`. */
  ghost predicate OccursFrom(chars: string, lo: nat, pool: string)
  {
    exists p :: lo <= p < |chars| && chars[p] in pool
  }

  /**
   The same description stated with pools: the requested length, every
   character from the joined pools, every pool present.
   */
  ghost predicate FitsPools(pools: seq<string>, length: int, pw: string)
  {
    && |pw| == length
    && (forall p :: 0 <= p < |pw| ==> pw[p] in Concat(pools))
    && (forall i :: 0 <= i < |pools| ==> OccursFrom(pw, 0, pools[i]))
  }

  /** An element of a sequence sits at some position. */
  lemma InSeq(s: string, ch: char) returns (p: nat)
    requires ch in multiset(s)
    ensures p < |s| && s[p] == ch
  {
    assert ch in s;
    p :| 0 <= p < |s| && s[p] == ch;
  }

  /**
   Any rearrangement of a drawn list fits the pools: the seed puts every
   pool in, and seed and fill only take characters of the joined pools.
   */
  lemma RearrangedDrawFits(pools: seq<string>, length: int, chars: string, pw: string)
    requires Drawable(pools, length, chars)
    requires multiset(pw) == multiset(chars)
    ensures FitsPools(pools, length, pw)
  {
    SameLength(pw, chars);
    forall p | 0 <= p < |pw|
      ensures pw[p] in Concat(pools)
    {
      assert pw[p] in multiset(chars);
      var t := InSeq(chars, pw[p]);
      if t < |pools| {
        assert chars[t] in pools[t];
      }
    }
    forall i | 0 <= i < |pools|
      ensures OccursFrom(pw, 0, pools[i])
    {
      assert chars[i] in multiset(pw);
      var p := InSeq(pw, chars[i]);
    }
  }

  /** For the generator's pools, the pool description and the class description agree. */
  lemma FitsPoolsMeansValid(length: int, f: Flags, pw: string)
    ensures FitsPools(Pools(f), length, pw) <==> ValidPassword(length, f, pw)
  {
    JoinedMeansEnabled(f, pw);
    EveryPoolMeansEveryClass(f, pw);
  }

  lemma JoinedMeansEnabled(f: Flags, pw: string)
    ensures (forall p :: 0 <= p < |pw| ==> pw[p] in Concat(Pools(f)))
            <==> (forall p :: 0 <= p < |pw| ==> InEnabledClass(f, pw[p]))
  {
    forall p | 0 <= p < |pw|
      ensures pw[p] in Concat(Pools(f)) <==> InEnabledClass(f, pw[p])
    {
      CombinedAlphabet(f, pw[p]);
    }
  }

  lemma EveryPoolMeansEveryClass(f: Flags, pw: string)
    ensures (forall i :: 0 <= i < |Pools(f)| ==> OccursFrom(pw, 0, Pools(f)[i]))
            <==> (forall c :: Enabled(f, c) ==> exists p :: 0 <= p < |pw| && pw[p] in Alphabet(c))
  {
    var pools, cs := Pools(f), EnabledClasses(f);
    if forall i :: 0 <= i < |pools| ==> OccursFrom(pw, 0, pools[i]) {
      forall c | Enabled(f, c)
        ensures exists p :: 0 <= p < |pw| && pw[p] in Alphabet(c)
      {
        var i :| 0 <= i < |cs| && cs[i] == c;
        assert OccursFrom(pw, 0, pools[i]);
      }
    }
    if forall c :: Enabled(f, c) ==> exists p :: 0 <= p < |pw| && pw[p] in Alphabet(c) {
      forall i | 0 <= i < |pools|
        ensures OccursFrom(pw, 0, pools[i])
      {
        assert Enabled(f, cs[i]);
      }
    }
  }

  /** Every enabled class is present in a generated password. */
  lemma CoversEveryEnabledClass(length: int, f: Flags, draw: nat -> nat, swap: nat -> nat)
    requires Accepted(length, f)
    ensures var pw := GeneratePassword(length, f, draw, swap).value;
            forall c :: Enabled(f, c) ==> exists p :: 0 <= p < |pw| && pw[p] in Alphabet(c)
  {
    GeneratedIsValid(length, f, draw, swap);
  }

  /** A generated password holds characters of enabled classes only. */
  lemma OnlyEnabledClasses(length: int, f: Flags, draw: nat -> nat, swap: nat -> nat)
    requires Accepted(length, f)
    ensures var pw := GeneratePassword(length, f, draw, swap).value;
            forall p :: 0 <= p < |pw| ==> InEnabledClass(f, pw[p])
    ensures var pw := GeneratePassword(length, f, draw, swap).value;
            forall p, c :: 0 <= p < |pw| && !Enabled(f, c) ==> pw[p] !in Alphabet(c)
  {
    var pw := GeneratePassword(length, f, draw, swap).value;
    GeneratedIsValid(length, f, draw, swap);
    forall p | 0 <= p < |pw|
      ensures forall c :: !Enabled(f, c) ==> pw[p] !in Alphabet(c)
    {
      CombinedAlphabet(f, pw[p]);
    }
  }

  /** A generated password is a good password. */
  lemma GeneratedIsValid(length: int, f: Flags, draw: nat -> nat, swap: nat -> nat)
    requires Accepted(length, f)
    ensures ValidPassword(length, f, GeneratePassword(length, f, draw, swap).value)
  {
    var pw := GeneratePassword(length, f, draw, swap).value;
    PoolsNonEmpty(f);
    RearrangedDrawFits(Pools(f), length, Unshuffled(Pools(f), length, draw), pw);
    FitsPoolsMeansValid(length, f, pw);
  }

  /**
   When the length equals the number of enabled classes the fill adds
   nothing: the password is the seed, one pick per pool, in some order, and
   each enabled class occurs exactly once.
   */
  lemma OnePerClassAtMinimalLength(length: int, f: Flags, draw: nat -> nat, swap: nat -> nat)
    requires Accepted(length, f)
    requires length == NumEnabled(f)
    ensures var pw := GeneratePassword(length, f, draw, swap).value;
            multiset(pw) == multiset(Seed(Pools(f), draw))
    ensures var pw := GeneratePassword(length, f, draw, swap).value;
            forall c :: Enabled(f, c) ==>
              exists p :: 0 <= p < |pw| && pw[p] in Alphabet(c)
                && forall q :: 0 <= q < |pw| && q != p ==> pw[q] !in Alphabet(c)
  {
    var pw := GeneratePassword(length, f, draw, swap).value;
    PoolsNonEmpty(f);
    var chars := Unshuffled(Pools(f), length, draw);
    assert chars == Seed(Pools(f), draw);
    forall c | Enabled(f, c)
      ensures exists p :: 0 <= p < |pw| && pw[p] in Alphabet(c)
                && forall q :: 0 <= q < |pw| && q != p ==> pw[q] !in Alphabet(c)
    {
      ExactlyOnce(f, chars, pw, c);
    }
  }

  /** In a rearrangement of a minimal drawn list, an enabled class sits at exactly one position. */
  lemma ExactlyOnce(f: Flags, chars: string, pw: string, c: CharClass)
    requires Drawable(Pools(f), NumEnabled(f), chars)
    requires multiset(pw) == multiset(chars)
    requires Enabled(f, c)
    ensures exists p :: 0 <= p < |pw| && pw[p] in Alphabet(c)
              && forall q :: 0 <= q < |pw| && q != p ==> pw[q] !in Alphabet(c)
  {
    var cs := EnabledClasses(f);
    var m :| 0 <= m < |cs| && cs[m] == c;
    assert chars[m] in multiset(pw);
    var p := InSeq(pw, chars[m]);
    assert pw[p] in Pools(f)[m];
    forall q | 0 <= q < |pw| && q != p
      ensures pw[q] !in Alphabet(c)
    {
      SingleOccurrence(f, chars, pw, m, p, q);
    }
  }

  /**
   A rearrangement of a minimal drawn list has no two positions holding
   characters of the same pool.
   */
  lemma SingleOccurrence(f: Flags, chars: string, pw: string, m: nat, p: nat, q: nat)
    requires Drawable(Pools(f), NumEnabled(f), chars)
    requires multiset(pw) == multiset(chars)
    requires m < NumEnabled(f) && p < |pw| && q < |pw| && p != q
    requires pw[p] in Pools(f)[m]
    ensures pw[q] !in Pools(f)[m]
  {
    if pw[q] in Pools(f)[m] {
      assert pw[p] in multiset(chars) && pw[q] in multiset(chars);
      OnlyPositionOfClass(f, chars, m, pw[p]);
      OnlyPositionOfClass(f, chars, m, pw[q]);
      TwoPositions(pw, p, q);
      AtMostOnce(chars, m);
    }
  }

  /**
   In a drawn list of minimal length, position m is the only one holding a
   character of class m; so any such character of the list is `chars[m]`.
   */
  lemma OnlyPositionOfClass(f: Flags, chars: string, m: nat, ch: char)
    requires Drawable(Pools(f), NumEnabled(f), chars)
    requires m < NumEnabled(f)
    requires ch in multiset(chars) && ch in Pools(f)[m]
    ensures ch == chars[m]
    ensures forall t :: 0 <= t < |chars| && t != m ==> chars[t] != ch
  {
    PoolsPairwiseDisjoint(f);
    var t := InSeq(chars, ch);
  }

  lemma TwoPositions(s: string, p: nat, q: nat)
    requires p < |s| && q < |s| && p != q && s[p] == s[q]
    ensures multiset(s)[s[p]] >= 2
  {
    var lo, hi := if p < q then p else q, if p < q then q else p;
    assert s == s[..hi] + [s[hi]] + s[hi + 1..];
    assert s[..hi][lo] == s[p];
    assert multiset(s[..hi])[s[p]] >= 1;
  }

  lemma AtMostOnce(s: string, m: nat)
    requires m < |s|
    requires forall t :: 0 <= t < |s| && t != m ==> s[t] != s[m]
    ensures multiset(s)[s[m]] == 1
  {
    assert s == s[..m] + [s[m]] + s[m + 1..];
    assert s[m] !in s[..m];
    assert s[m] !in s[m + 1..];
  }
}

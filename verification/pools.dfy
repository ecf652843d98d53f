/**
 The pools of the password generator: one alphabet per enabled character
 class, always in the canonical order upper, lower, digits, symbols, and the
 combined alphabet that filler characters are drawn from.
 */
module ClassPools {
  import opened Alphabets

  /** The four switches of the generator; every class is enabled by default. */
  datatype Flags = Flags(useUpper: bool, useLower: bool, useDigits: bool, useSymbols: bool)

  const AllEnabled := Flags(true, true, true, true)

  /** Whether the switch of class `c` is on. */
  predicate Enabled(f: Flags, c: CharClass)
  {
    match c
    case Upper => f.useUpper
    case Lower => f.useLower
    case Digit => f.useDigits
    case Symbol => f.useSymbols
  }

  /** How many switches are on. */
  function NumEnabled(f: Flags): (n: nat)
    ensures n <= 4
    ensures n == 0 <==> forall c :: !Enabled(f, c)
  {
    assert Enabled(f, Upper) == f.useUpper && Enabled(f, Lower) == f.useLower;
    assert Enabled(f, Digit) == f.useDigits && Enabled(f, Symbol) == f.useSymbols;
    (if f.useUpper then 1 else 0) + (if f.useLower then 1 else 0)
    + (if f.useDigits then 1 else 0) + (if f.useSymbols then 1 else 0)
  }

  /** True when the ranks of `cs` strictly increase, so no class repeats. */
  ghost predicate StrictlyOrdered(cs: seq<CharClass>)
  {
    forall i, j :: 0 <= i < j < |cs| ==> Rank(cs[i]) < Rank(cs[j])
  }

  /** `[c]` when `on`, else nothing. */
  function OptionalClass(on: bool, c: CharClass): seq<CharClass>
  {
    if on then [c] else []
  }

  /**
   The enabled classes, appended in the order the generator appends their
   pools: upper, lower, digits, symbols. So they come in canonical order.
   */
  function EnabledClasses(f: Flags): (cs: seq<CharClass>)
    ensures forall c :: c in cs <==> Enabled(f, c)
    ensures StrictlyOrdered(cs)
    ensures |cs| == NumEnabled(f)
  {
    var cu, cl := OptionalClass(f.useUpper, Upper), OptionalClass(f.useLower, Lower);
    var cd, cs := OptionalClass(f.useDigits, Digit), OptionalClass(f.useSymbols, Symbol);
    AppendOptional([], f.useUpper, Upper);
    AppendOptional(cu, f.useLower, Lower);
    AppendOptional(cu + cl, f.useDigits, Digit);
    AppendOptional(cu + cl + cd, f.useSymbols, Symbol);
    EnabledMembership(f, cu + cl + cd + cs);
    OptionalsCount(f);
    assert [] + cu == cu;
    cu + cl + cd + cs
  }

  /**
   Appending the optional class `c` to an ordered sequence of lower-ranked
   classes keeps it ordered and adds `c` exactly when `on`.
   */
  lemma AppendOptional(cs: seq<CharClass>, on: bool, c: CharClass)
    requires StrictlyOrdered(cs)
    requires forall d :: d in cs ==> Rank(d) < Rank(c)
    ensures StrictlyOrdered(cs + OptionalClass(on, c))
    ensures forall d :: d in cs + OptionalClass(on, c) <==> d in cs || (on && d == c)
    ensures forall d :: d in cs + OptionalClass(on, c) ==> Rank(d) <= Rank(c)
  {
    var r := cs + OptionalClass(on, c);
    forall i, j | 0 <= i < j < |r|
      ensures Rank(r[i]) < Rank(r[j])
    {
      assert r[i] == cs[i];
      if j >= |cs| {
        assert r[j] == c && cs[i] in cs;
      } else {
        assert r[j] == cs[j];
      }
    }
  }

  /** The four optional appends hold exactly the enabled classes. */
  lemma EnabledMembership(f: Flags, cs: seq<CharClass>)
    requires forall d :: d in cs <==>
               || (f.useUpper && d == Upper) || (f.useLower && d == Lower)
               || (f.useDigits && d == Digit) || (f.useSymbols && d == Symbol)
    ensures forall c :: c in cs <==> Enabled(f, c)
  {
    forall c
      ensures c in cs <==> Enabled(f, c)
    {
      match c
      case Upper =>
      case Lower =>
      case Digit =>
      case Symbol =>
    }
  }

  lemma OptionalsCount(f: Flags)
    ensures |OptionalClass(f.useUpper, Upper) + OptionalClass(f.useLower, Lower)
             + OptionalClass(f.useDigits, Digit) + OptionalClass(f.useSymbols, Symbol)| == NumEnabled(f)
  {
  }

  /** `pools[i]` is the alphabet of `cs[i]`, position by position. */
  ghost predicate Aligned(pools: seq<string>, cs: seq<CharClass>)
  {
    |pools| == |cs| && forall i :: 0 <= i < |cs| ==> pools[i] == Alphabet(cs[i])
  }

  lemma AlignedAppend(p: seq<string>, c: seq<CharClass>, q: seq<string>, d: seq<CharClass>)
    requires Aligned(p, c) && Aligned(q, d)
    ensures Aligned(p + q, c + d)
  {
    forall i | 0 <= i < |c + d|
      ensures (p + q)[i] == Alphabet((c + d)[i])
    {
      if i >= |c| {
        assert (p + q)[i] == q[i - |c|];
        assert (c + d)[i] == d[i - |c|];
      }
    }
  }

  /**
   The pools exactly as the generator builds them: the alphabet of each
   enabled switch appended in the order upper, lower, digits, symbols.
   The result is the alphabet of each enabled class, in canonical order.
   */
  function Pools(f: Flags): (pools: seq<string>)
    ensures Aligned(pools, EnabledClasses(f))
    ensures |pools| == NumEnabled(f)
  {
    PoolsAligned(f);
    Optional(f.useUpper, Upper) + Optional(f.useLower, Lower)
    + Optional(f.useDigits, Digit) + Optional(f.useSymbols, Symbol)
  }

  lemma PoolsAligned(f: Flags)
    ensures Aligned(Optional(f.useUpper, Upper) + Optional(f.useLower, Lower)
                    + Optional(f.useDigits, Digit) + Optional(f.useSymbols, Symbol),
                    EnabledClasses(f))
  {
    var cu, cl := OptionalClass(f.useUpper, Upper), OptionalClass(f.useLower, Lower);
    var cd, cs := OptionalClass(f.useDigits, Digit), OptionalClass(f.useSymbols, Symbol);
    var pu, pl := Optional(f.useUpper, Upper), Optional(f.useLower, Lower);
    var pd, ps := Optional(f.useDigits, Digit), Optional(f.useSymbols, Symbol);
    AlignedAppend(pu, cu, pl, cl);
    AlignedAppend(pu + pl, cu + cl, pd, cd);
    AlignedAppend(pu + pl + pd, cu + cl + cd, ps, cs);
  }

  /** No character belongs to two of the pools. */
  ghost predicate PairwiseDisjoint(pools: seq<string>)
  {
    forall i, j, ch :: 0 <= i < |pools| && 0 <= j < |pools| && i != j && ch in pools[i]
      ==> ch !in pools[j]
  }

  /** The generator's pools share no character, because distinct classes do not. */
  lemma PoolsPairwiseDisjoint(f: Flags)
    ensures PairwiseDisjoint(Pools(f))
  {
    var pools, cs := Pools(f), EnabledClasses(f);
    forall i, j, ch | 0 <= i < |pools| && 0 <= j < |pools| && i != j && ch in pools[i]
      ensures ch !in pools[j]
    {
      if i < j {
        assert Rank(cs[i]) < Rank(cs[j]);
      } else {
        assert Rank(cs[j]) < Rank(cs[i]);
      }
      AlphabetsDisjoint(cs[i], cs[j], ch);
    }
  }

  /** The one-element pool list `[Alphabet(c)]` when `on`, else nothing. */
  function Optional(on: bool, c: CharClass): (p: seq<string>)
    ensures Aligned(p, OptionalClass(on, c))
  {
    if on then [Alphabet(c)] else []
  }

  /**
   The enabled classes are determined by the switches and the canonical order
   alone: any ordered sequence holding exactly the enabled classes is this one.
   */
  lemma EnabledClassesUnique(f: Flags, cs: seq<CharClass>)
    requires forall c :: c in cs <==> Enabled(f, c)
    requires StrictlyOrdered(cs)
    ensures cs == EnabledClasses(f)
  {
    SameOrderedSequences(cs, EnabledClasses(f));
  }

  lemma {:induction false} SameOrderedSequences(a: seq<CharClass>, b: seq<CharClass>)
    requires StrictlyOrdered(a) && StrictlyOrdered(b)
    requires forall c :: c in a <==> c in b
    ensures a == b
  {
    assert a != [] ==> a[0] in b;
    assert b != [] ==> b[0] in a;
    if a != [] && b != [] {
      OrderedTail(a);
      OrderedTail(b);
      RankInjective(a[0], b[0]);
      SameOrderedSequences(a[1..], b[1..]);
      assert a == [a[0]] + a[1..];
      assert b == [b[0]] + b[1..];
    }
  }

  /**
   The head of an ordered sequence has the least rank, and the tail is
   ordered and holds everything but the head.
   */
  lemma OrderedTail(a: seq<CharClass>)
    requires StrictlyOrdered(a) && a != []
    ensures StrictlyOrdered(a[1..])
    ensures forall c :: c in a ==> Rank(a[0]) <= Rank(c)
    ensures forall c :: c in a[1..] <==> c in a && c != a[0]
  {
    forall c | c in a
      ensures Rank(a[0]) <= Rank(c)
      ensures c != a[0] ==> c in a[1..]
    {
      var k :| 0 <= k < |a| && a[k] == c;
      if k > 0 {
        assert a[1..][k - 1] == c;
      }
    }
    forall c | c in a[1..]
      ensures c in a && c != a[0]
    {
      var k :| 0 <= k < |a[1..]| && a[1..][k] == c;
      assert a[k + 1] == c;
    }
  }

  /** The combined alphabet: the pools joined end to end. */
  function Concat(pools: seq<string>): (all: string)
    ensures forall ch :: ch in all <==> exists i :: 0 <= i < |pools| && ch in pools[i]
  {
    if pools == [] then "" else pools[0] + Concat(pools[1..])
  }

  /** `ch` belongs to the alphabet of an enabled class (the four classes spelled out). */
  ghost predicate InEnabledClass(f: Flags, ch: char)
  {
    || (f.useUpper && ch in Alphabet(Upper))
    || (f.useLower && ch in Alphabet(Lower))
    || (f.useDigits && ch in Alphabet(Digit))
    || (f.useSymbols && ch in Alphabet(Symbol))
  }

  lemma InEnabledClassMeans(f: Flags, ch: char)
    ensures InEnabledClass(f, ch) <==> exists c :: Enabled(f, c) && ch in Alphabet(c)
  {
    if exists c :: Enabled(f, c) && ch in Alphabet(c) {
      var c :| Enabled(f, c) && ch in Alphabet(c);
      match c
      case Upper =>
      case Lower =>
      case Digit =>
      case Symbol =>
    }
  }

  /**
   A character is in the combined alphabet exactly when some enabled class
   owns it; so characters of disabled classes never enter it.
   */
  lemma CombinedAlphabet(f: Flags, ch: char)
    ensures ch in Concat(Pools(f)) <==> InEnabledClass(f, ch)
    ensures ch in Concat(Pools(f)) ==> forall c :: !Enabled(f, c) ==> ch !in Alphabet(c)
  {
    AlignedConcat(Pools(f), EnabledClasses(f), ch);
    InEnabledClassMeans(f, ch);
  }

  lemma AlignedConcat(pools: seq<string>, cs: seq<CharClass>, ch: char)
    requires Aligned(pools, cs)
    ensures ch in Concat(pools) <==> exists c :: c in cs && ch in Alphabet(c)
    ensures ch in Concat(pools) ==> forall c :: c !in cs ==> ch !in Alphabet(c)
  {
    if ch in Concat(pools) {
      var i :| 0 <= i < |pools| && ch in pools[i];
      assert cs[i] in cs && ch in Alphabet(cs[i]);
      forall c | c !in cs
        ensures ch !in Alphabet(c)
      {
        AlphabetsDisjoint(c, cs[i], ch);
      }
    }
    if exists c :: c in cs && ch in Alphabet(c) {
      var c :| c in cs && ch in Alphabet(c);
      var i :| 0 <= i < |cs| && cs[i] == c;
      assert ch in pools[i];
    }
  }
}

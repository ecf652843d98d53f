/**
 The password generator. It builds the pools from the four switches, checks
 that at least one class is enabled and that the length leaves room for one
 character per class, draws one character from each pool, fills up to the
 requested length from the combined alphabet, and shuffles the result.

 Both random sources are oracles (see module Oracles). Draw number t of
 `draw` picks the character at position t before the shuffle: draws
 0..k-1 seed one character per pool, draws k..length-1 fill. `swap`
 drives the shuffle.
 */
module Generator {
  import opened Alphabets
  import opened ClassPools
  import opened Oracles
  import opened Shuffling

  /** The two ways the generator refuses its configuration. */
  datatype GenError =
    | NoClassEnabled
    | LengthTooSmall(length: int, classes: nat)

  datatype Result<T> = Ok(value: T) | Err(error: GenError)

  /** The length the generator uses when none is given. */
  const DefaultLength: int := 16

  /** One uniform pick from a non-empty alphabet: the character at a drawn index. */
  function Choice(alphabet: string, draw: nat): (ch: char)
    requires |alphabet| > 0
    ensures ch in alphabet
  {
    alphabet[Below(draw, |alphabet|)]
  }

  ghost predicate NonEmptyPools(pools: seq<string>)
  {
    forall i :: 0 <= i < |pools| ==> |pools[i]| > 0
  }

  lemma PoolsNonEmpty(f: Flags)
    ensures NonEmptyPools(Pools(f))
  {
  }

  /** Non-empty pools, at least one of them, join to a non-empty alphabet. */
  lemma CombinedNonEmpty(pools: seq<string>)
    requires NonEmptyPools(pools) && |pools| > 0
    ensures |Concat(pools)| > 0
  {
    assert pools[0][0] in pools[0];
  }

  /** The seed: one character from each pool, pool i read by draw i. */
  function Seed(pools: seq<string>, draw: nat -> nat): (chars: string)
    requires NonEmptyPools(pools)
    ensures |chars| == |pools|
    ensures forall i :: 0 <= i < |pools| ==> chars[i] in pools[i]
  {
    var chars := seq(|pools|, i requires 0 <= i < |pools| => Choice(pools[i], draw(i)));
    assert forall i :: 0 <= i < |pools| ==> chars[i] == Choice(pools[i], draw(i));
    chars
  }

  /**
   The fill loop: while the list is shorter than `length`, append a pick
   from the combined alphabet, the pick at position t being read by draw t.
   */
  function Fill(chars: string, all: string, length: int, draw: nat -> nat): (r: string)
    requires |all| > 0
    ensures |r| == if length <= |chars| then |chars| else length
    ensures r[..|chars|] == chars
    ensures forall t :: |chars| <= t < |r| ==> r[t] == Choice(all, draw(t))
    decreases length - |chars|
  {
    if |chars| >= length then chars
    else Fill(chars + [Choice(all, draw(|chars|))], all, length, draw)
  }

  /**
   What a draw sequence may produce before the shuffle: `length`
   characters, the first k taken one from each of the k pools in order, the
   rest from the combined alphabet.
   */
  ghost predicate Drawable(pools: seq<string>, length: int, chars: string)
  {
    && |chars| == length
    && |pools| <= |chars|
    && (forall i :: 0 <= i < |pools| ==> chars[i] in pools[i])
    && (forall t :: |pools| <= t < |chars| ==> chars[t] in Concat(pools))
  }

  /** True when the generator accepts the configuration. */
  ghost predicate Accepted(length: int, f: Flags)
  {
    0 < NumEnabled(f) <= length
  }

  /**
   The character list just before the shuffle, for pools that passed the
   generator's two checks: the seed, then the fill from the joined pools.
   */
  function Unshuffled(pools: seq<string>, length: int, draw: nat -> nat): (chars: string)
    requires NonEmptyPools(pools) && 0 < |pools| <= length
    ensures Drawable(pools, length, chars)
  {
    CombinedNonEmpty(pools);
    Fill(Seed(pools, draw), Concat(pools), length, draw)
  }

  /**
   The generator. The empty class set is refused first, so it wins over a
   length that is also too small; then a length below the number of enabled
   classes is refused, zero and negative lengths included. Otherwise the
   password has exactly `length` characters and is a rearrangement of the
   drawn list.
   */
  function GeneratePassword(length: int, f: Flags, draw: nat -> nat, swap: nat -> nat): (r: Result<string>)
    ensures (forall c :: !Enabled(f, c)) ==> r == Err(NoClassEnabled)
    ensures ((exists c :: Enabled(f, c)) && length < NumEnabled(f))
            ==> r == Err(LengthTooSmall(length, NumEnabled(f)))
    ensures r.Ok? <==> Accepted(length, f)
    ensures r.Ok? ==> |r.value| == length
    ensures r.Ok? ==> multiset(r.value) == multiset(Unshuffled(Pools(f), length, draw))
  {
    var pools := Pools(f);
    if |pools| == 0 then Err(NoClassEnabled)
    else if length < |pools| then Err(LengthTooSmall(length, |pools|))
    else
      PoolsNonEmpty(f);
      Ok(Shuffle(Unshuffled(pools, length, draw), swap))
  }
}

# Password generator model

This project models `generate_password` from the repository's command-line
password generator. The function takes a length and four switches
(uppercase, lowercase, digits, symbols). It works in four steps:

1. It builds one pool per enabled switch, always in the order upper, lower,
   digits, symbols.
2. It refuses an empty class set, then a length smaller than the number of
   pools.
3. It draws one character from each pool, then draws from the concatenated
   alphabet until the list is `length` long.
4. It shuffles the list and joins it into a string.

The model is a set of pure functions. For an accepted configuration, the set
of passwords some draws can produce is proved to be exactly the strings
that:

- have the requested length;
- use only characters of enabled classes;
- contain every enabled class at least once.

This is an outcome set only: the program's claim to be secure concerns the
quality of its random sources, which the model does not describe.

Modules, in dependency order:

- `Alphabets`: the four classes, their literal alphabets, and an independent
  description of each (character ranges and the symbol set).
- `ClassPools`: the switches, the enabled classes, the pools, and the
  combined alphabet.
- `Oracles`: how random draws are represented.
- `Shuffling`: the Fisher–Yates pass behind the standard library's
  `shuffle`. It is proved to produce exactly the permutations of its input.
- `Generator`: the generator itself, and its result and error types.
- `PasswordProperties`: what every generated password satisfies.
- `Reachability`: the converse. Every such string is produced by some
  draws.
- `Scenarios`: defaults and particular configurations.

Randomness is passed in as parameters. `secrets.choice` becomes the draw
oracle `draw: nat -> nat`. Draw number `t` picks the character at position
`t` of the list before the shuffle: positions `0..k-1` are the one-per-pool
seed and the rest are the fill. `SystemRandom().shuffle` becomes a second
oracle `swap: nat -> nat`. Its step `i` exchanges position `i` with position
`swap(i)` reduced into `0..i`. The final `''.join` is the identity on a
sequence of characters, so a password is a `string`.

Points where the program's behaviour is easy to misread:

- `length` is any integer. With at least one class enabled, a zero or
  negative length is refused as too small, because it is below the class
  count (password_generator.py:38-39).
- The two `ValueError`s (password_generator.py:36 and :39) become
  `NoClassEnabled` and `LengthTooSmall`. `LengthTooSmall` carries the two
  numbers its message prints.
- When both refusals apply, the empty class set wins, because it is checked
  first (password_generator.py:35).
- The symbol set is the 25-character literal at password_generator.py:33.

## Model

| member | source | states |
|---|---|---|
| Alphabets.AlphabetMembership | Scripts/library/Utils/password_generator.py:25-33 | each literal alphabet holds exactly the characters of its class: `A`–`Z`, `a`–`z`, `0`–`9`, or one of the 25 listed symbols |
| Alphabets.AlphabetsDisjoint | Scripts/library/Utils/password_generator.py:25-33 | no character belongs to the alphabets of two different classes |
| ClassPools.NumEnabled | Scripts/library/Utils/password_generator.py:24-35 | the number of pools is at most four, and it is zero exactly when every switch is off |
| ClassPools.EnabledClasses | Scripts/library/Utils/password_generator.py:24-33 | the classes that get a pool are exactly the enabled ones, each once, in the order upper, lower, digits, symbols, one per switch that is on |
| ClassPools.Pools | Scripts/library/Utils/password_generator.py:24-33 | pool `i` is the alphabet of the `i`-th enabled class in that order, and there is one pool per switch that is on |
| ClassPools.EnabledClassesUnique | Scripts/library/Utils/password_generator.py:24-33 | any ordered list of exactly the enabled classes is the pool order, so the pool list does not depend on anything but the switches |
| ClassPools.Concat | Scripts/library/Utils/password_generator.py:45 | a character is in the joined alphabet exactly when it is in one of the pools |
| ClassPools.CombinedAlphabet | Scripts/library/Utils/password_generator.py:45 | a character is in the joined alphabet exactly when an enabled class owns it, so no character of a disabled class is in it |
| Oracles.Below | Scripts/library/Utils/password_generator.py:42-51 | a draw reduced into `0..n-1` stays in range, and every index in range is hit by some draw |
| Generator.Choice | Scripts/library/Utils/password_generator.py:42-47 | a pick from a non-empty alphabet is one of its characters |
| Generator.Seed | Scripts/library/Utils/password_generator.py:42 | the seed has one character per pool, and character `i` comes from pool `i` |
| Generator.Fill | Scripts/library/Utils/password_generator.py:44-47 | the loop keeps the list it starts from, stops at exactly `length` characters (or adds nothing when the list is already that long), and each added character at position `t` is the pick of draw `t` from the joined alphabet |
| Generator.Unshuffled | Scripts/library/Utils/password_generator.py:41-47 | for non-empty pools, at least one of them and no more than `length`, the list before the shuffle has `length` characters, its first `k` from the `k` pools in order and the rest from the joined pools |
| Generator.GeneratePassword | Scripts/library/Utils/password_generator.py:22-52 | an empty class set is refused first; otherwise a length below the class count is refused, zero and negative lengths included; a password is returned exactly when neither applies, it has `length` characters, and it is a rearrangement of the drawn list |
| Shuffling.Shuffle | Scripts/library/Utils/password_generator.py:50-51 | the shuffle keeps the length and every character with its multiplicity |
| Shuffling.StepsPermute | Scripts/library/Utils/password_generator.py:51 | whatever the draws, the swap steps only rearrange the list |
| Shuffling.StepsReadOnlyTheirDraws | Scripts/library/Utils/password_generator.py:51 | the swap steps from position `i` down read only the draws numbered `0..i` |
| Shuffling.StepsReach | Scripts/library/Utils/password_generator.py:51 | the swap steps from position `i` down can produce any rearrangement of positions `0..i` that leaves the rest alone |
| Shuffling.ShuffleReachesPermutation | Scripts/library/Utils/password_generator.py:50-51 | for every rearrangement of the input there are draws that make the shuffle produce it |
| Shuffling.ShuffleOutcomes | Scripts/library/Utils/password_generator.py:50-51 | the shuffle's possible outcomes are exactly the rearrangements of its input |
| PasswordProperties.RearrangedDrawFits | Scripts/library/Utils/password_generator.py:42-51 | any rearrangement of a drawn list has the requested length, uses only characters of the joined pools, and holds a character of every pool |
| PasswordProperties.FitsPoolsMeansValid | Scripts/library/Utils/password_generator.py:24-51 | for the generator's pools, using only joined-pool characters and every pool is the same as using only enabled classes and every enabled class |
| PasswordProperties.CoversEveryEnabledClass | Scripts/library/Utils/password_generator.py:41-51 | every enabled class has a character somewhere in a generated password |
| PasswordProperties.OnlyEnabledClasses | Scripts/library/Utils/password_generator.py:42-51 | every character of a generated password belongs to an enabled class, and none belongs to a disabled one |
| PasswordProperties.GeneratedIsValid | Scripts/library/Utils/password_generator.py:22-52 | a generated password has the requested length, uses only enabled classes, and uses all of them |
| PasswordProperties.OnePerClassAtMinimalLength | Scripts/library/Utils/password_generator.py:38-46 | when the length equals the number of enabled classes the fill adds nothing: the password rearranges the seed, and each enabled class occurs at exactly one position |
| PasswordProperties.ExactlyOnce | Scripts/library/Utils/password_generator.py:42-46 | in any rearrangement of a minimal drawn list, each enabled class sits at exactly one position |
| Reachability.DrawsReach | Scripts/library/Utils/password_generator.py:41-47 | every list of `length` characters whose first `k` come one from each pool in order and whose rest come from the joined pools is the list some draws produce before the shuffle |
| Reachability.ArrangeFrom | Scripts/library/Utils/password_generator.py:42-47 | a list of joined-alphabet characters that covers every pool can be rearranged so that its first `k` characters come one from each pool in order |
| Reachability.FitsIsDrawable | Scripts/library/Utils/password_generator.py:42-51 | for pools that share no character, every string of the requested length that uses only the joined pools and every pool is a rearrangement of a list the draws may produce |
| Reachability.DrawOutcomes | Scripts/library/Utils/password_generator.py:41-51 | for pools that share no character, some draws and shuffle yield a string exactly when it has the requested length, uses only the joined pools, and uses every pool |
| Reachability.GenerateOutcomes | Scripts/library/Utils/password_generator.py:22-52 | for an accepted configuration, some draws produce a password exactly when it has the requested length, uses only enabled classes, and uses every one of them |
| Scenarios.DefaultsAccepted | Scripts/library/Utils/password_generator.py:22-23 | with the default length 16 and every class enabled, a 16-character password is produced |
| Scenarios.NothingEnabled | Scripts/library/Utils/password_generator.py:35-36 | with every switch off the empty class set is reported, whatever the length |
| Scenarios.ThreeClassesInTwo | Scripts/library/Utils/password_generator.py:38-39 | a length of 2 with three classes enabled is refused as too small for 3 classes |
| Scenarios.OneDigit | Scripts/library/Utils/password_generator.py:22-52 | length 1 with only digits enabled gives a single decimal digit |

## Left out

- `main` and its argument parsing, printing, and the conversion of errors
  into a usage message and exit code (password_generator.py:55-79). These
  are command-line input and output.
- The quality of the random sources is not modelled: their uniformity,
  unpredictability and cryptographic strength. Draws are arbitrary naturals
  and only the set of possible outcomes is described. Statistical claims,
  such as two calls differing with high probability, are outside this model.
- Oracles.Below: reduces a draw with a remainder, whereas the standard
  library rejects out-of-range random bits and draws again. Both reach
  exactly the indices `0..n-1`, so the outcome sets agree; the distributions
  are not modelled.
- Shuffling.Shuffle: follows the standard library's `shuffle`, a Fisher–Yates
  pass from the last index down to 1. What the model relies on is only
  proved: every outcome is a permutation and every permutation is an
  outcome.
- The exact error message text. The two errors are told apart, and the
  too-small error keeps the length and class count its message prints.
- Python's dynamic typing: a non-integer length or non-boolean switch is
  not modelled. The length is an unbounded integer and the switches are
  booleans.

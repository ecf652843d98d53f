/**
 The four character classes of the password generator and their fixed
 alphabets. The alphabets are written out literally: uppercase and lowercase
 ASCII letters, the ten decimal digits, and the generator's own conservative
 symbol set.
 */
module Alphabets {

  const UpperAlphabet: string := "ABCDEFGHIJKLMNOPQRSTUVWXYZ"
  const LowerAlphabet: string := "abcdefghijklmnopqrstuvwxyz"
  const DigitAlphabet: string := "0123456789"
  const SymbolAlphabet: string := "!@#$%^&*()-_=+[]{};:,.<>?"

  /** A character class, listed in the generator's canonical order. */
  datatype CharClass = Upper | Lower | Digit | Symbol

  /** Position of a class in the canonical order upper, lower, digits, symbols. */
  function Rank(c: CharClass): (r: nat)
    ensures r < 4
  {
    match c
    case Upper => 0
    case Lower => 1
    case Digit => 2
    case Symbol => 3
  }

  /** Distinct classes have distinct ranks. */
  lemma RankInjective(c: CharClass, d: CharClass)
    requires Rank(c) == Rank(d)
    ensures c == d
  {
  }

  /** The alphabet a class draws from. */
  function Alphabet(c: CharClass): (a: string)
    ensures |a| > 0
  {
    match c
    case Upper => UpperAlphabet
    case Lower => LowerAlphabet
    case Digit => DigitAlphabet
    case Symbol => SymbolAlphabet
  }

  /** Each literal alphabet holds exactly the characters of its class's description. */
  lemma AlphabetMembership(c: CharClass, ch: char)
    ensures ch in Alphabet(c) <==> InClass(c, ch)
  {
    match c
    case Upper => UpperAlphabetIsAToZ();
    case Lower => LowerAlphabetIsLowerAToZ();
    case Digit => DigitAlphabetIsZeroToNine();
    case Symbol => SymbolAlphabetIsSymbolSet();
  }

  /** Independent description of each class: a character range, or the symbol set. */
  ghost predicate InClass(c: CharClass, ch: char)
  {
    match c
    case Upper => 'A' <= ch <= 'Z'
    case Lower => 'a' <= ch <= 'z'
    case Digit => '0' <= ch <= '9'
    case Symbol => ch in {'!', '@', '#', '$', '%', '^', '&', '*', '(', ')', '-', '_', '=',
                          '+', '[', ']', '{', '}', ';', ':', ',', '.', '<', '>', '?'}
  }

  /** The uppercase literal is the range `A`..`Z`, and so on for the other three. */
  lemma UpperAlphabetIsAToZ()
    ensures forall ch :: ch in UpperAlphabet <==> 'A' <= ch <= 'Z'
  {
  }

  lemma LowerAlphabetIsLowerAToZ()
    ensures forall ch :: ch in LowerAlphabet <==> 'a' <= ch <= 'z'
  {
  }

  lemma DigitAlphabetIsZeroToNine()
    ensures forall ch :: ch in DigitAlphabet <==> '0' <= ch <= '9'
  {
  }

  lemma SymbolAlphabetIsSymbolSet()
    ensures forall ch :: ch in SymbolAlphabet <==> InClass(Symbol, ch)
  {
  }

  /** No character belongs to two classes. */
  lemma AlphabetsDisjoint(c: CharClass, d: CharClass, ch: char)
    requires c != d
    ensures !(ch in Alphabet(c) && ch in Alphabet(d))
  {
    AlphabetMembership(c, ch);
    AlphabetMembership(d, ch);
  }
}

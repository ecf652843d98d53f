/**
 The generator's behaviour on particular configurations: its defaults, the
 two refusals, and the smallest accepted request.
 */
module Scenarios {
  import opened Alphabets
  import opened ClassPools
  import opened Generator
  import opened PasswordProperties

  /** With the default length and every class enabled, a 16-character password is produced. */
  lemma DefaultsAccepted(draw: nat -> nat, swap: nat -> nat)
    ensures GeneratePassword(DefaultLength, AllEnabled, draw, swap).Ok?
    ensures |GeneratePassword(DefaultLength, AllEnabled, draw, swap).value| == 16
  {
  }

  /** With every class disabled the empty class set is reported, whatever the length. */
  lemma NothingEnabled(length: int, draw: nat -> nat, swap: nat -> nat)
    ensures GeneratePassword(length, Flags(false, false, false, false), draw, swap) == Err(NoClassEnabled)
  {
  }

  /** Three classes do not fit into two characters. */
  lemma ThreeClassesInTwo(draw: nat -> nat, swap: nat -> nat)
    ensures GeneratePassword(2, Flags(true, true, true, false), draw, swap) == Err(LengthTooSmall(2, 3))
  {
  }

  /** Length one with digits only gives a single decimal digit. */
  lemma OneDigit(draw: nat -> nat, swap: nat -> nat)
    ensures var r := GeneratePassword(1, Flags(false, false, true, false), draw, swap);
            r.Ok? && |r.value| == 1 && '0' <= r.value[0] <= '9'
  {
    var f := Flags(false, false, true, false);
    OnlyEnabledClasses(1, f, draw, swap);
    var pw := GeneratePassword(1, f, draw, swap).value;
    assert InEnabledClass(f, pw[0]);
    AlphabetMembership(Digit, pw[0]);
  }
}

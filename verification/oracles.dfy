/**
 The random sources of the generator, abstracted. A source is an oracle
 `nat -> nat`: the n-th draw is `oracle(n)`, an arbitrary natural number that
 the consumer reduces into the range it needs. Nothing is assumed about the
 distribution; the model only speaks about which outcomes are possible.
 */
module Oracles {

  /**
   A draw `x` reduced into 0..n-1, as the standard library's uniform index
   draw is. Every value of the range is reached, by the draw equal to it.
   */
  function Below(x: nat, n: nat): (r: nat)
    requires n > 0
    ensures r < n
    ensures x < n ==> r == x
  {
    x % n
  }

  /** The oracle `f` with draw number `i` replaced by `j`. */
  function Override(f: nat -> nat, i: nat, j: nat): (g: nat -> nat)
    ensures g(i) == j
    ensures forall k: nat :: k != i ==> g(k) == f(k)
  {
    k => if k == i then j else f(k)
  }
}

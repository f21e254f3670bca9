/** The bitwise operators of constant-time comparisons. */
module Bitwise {
  /** JavaScript's `|` on non-negative numbers, lowest bit first. */
  function BitOr(a: nat, b: nat): nat
    decreases a + b
  {
    if a == 0 && b == 0 then 0
    else 2 * BitOr(a / 2, b / 2) + if a % 2 == 0 && b % 2 == 0 then 0 else 1
  }

  /** JavaScript's `^` on non-negative numbers, lowest bit first. */
  function BitXor(a: nat, b: nat): nat
    decreases a + b
  {
    if a == 0 && b == 0 then 0
    else 2 * BitXor(a / 2, b / 2) + if a % 2 == b % 2 then 0 else 1
  }

  lemma {:induction false} OrIsZero(a: nat, b: nat)
    ensures BitOr(a, b) == 0 <==> a == 0 && b == 0
    decreases a + b
  {
    if a != 0 || b != 0 {
      OrIsZero(a / 2, b / 2);
    }
  }

  lemma {:induction false} XorIsZero(a: nat, b: nat)
    ensures BitXor(a, b) == 0 <==> a == b
    decreases a + b
  {
    if a != 0 || b != 0 {
      XorIsZero(a / 2, b / 2);
    }
  }
}

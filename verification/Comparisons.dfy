/** The comparison operators of conditions and index scans. */
module Comparisons {

  datatype CompOp = EQUAL_TO | LESS_EQUAL | NOT_EQUAL | LESS_THAN | GREAT_EQUAL | GREAT_THAN
                  | IS | IS_NOT | IN_OP | NOT_IN_OP | NO_OP

  /** `a` stands in relation `op` to `v`. */
  predicate Satisfies(op: CompOp, a: int, v: int) {
    match op
    case EQUAL_TO => a == v
    case LESS_EQUAL => a <= v
    case NOT_EQUAL => a != v
    case LESS_THAN => a < v
    case GREAT_EQUAL => a >= v
    case GREAT_THAN => a > v
    case _ => false
  }

  /** The operator with its operands exchanged. */
  function SymmetricOp(op: CompOp): CompOp {
    match op
    case LESS_EQUAL => GREAT_EQUAL
    case LESS_THAN => GREAT_THAN
    case GREAT_EQUAL => LESS_EQUAL
    case GREAT_THAN => LESS_THAN
    case _ => op
  }

  lemma SymmetricOpExchanges(op: CompOp, a: int, b: int)
    ensures Satisfies(op, a, b) <==> Satisfies(SymmetricOp(op), b, a)
    ensures SymmetricOp(SymmetricOp(op)) == op
  {
  }

  /** The difference of two 32-bit integers, as the machine computes it. */
  function Subtract32(a: int, b: int): (r: int)
    ensures -0x8000_0000 <= r < 0x8000_0000
  {
    (a - b + 0x8000_0000) % 0x1_0000_0000 - 0x8000_0000
  }

  /** Comparing by subtraction, and then with zero, is comparing: if and only if the
      difference fits in 32 bits, or the operator does not ask which is larger. */
  lemma ComparingBySubtraction(a: int, b: int)
    requires -0x8000_0000 <= a < 0x8000_0000 && -0x8000_0000 <= b < 0x8000_0000
    ensures (forall op :: Satisfies(op, Subtract32(a, b), 0) <==> Satisfies(op, a, b)) <==> -0x8000_0000 <= a - b < 0x8000_0000
    ensures Satisfies(EQUAL_TO, Subtract32(a, b), 0) <==> a == b
  {
    if a - b >= 0x8000_0000 {
      assert Subtract32(a, b) == a - b - 0x1_0000_0000;
      assert Satisfies(GREAT_THAN, a, b) && !Satisfies(GREAT_THAN, Subtract32(a, b), 0);
    } else if a - b < -0x8000_0000 {
      assert Subtract32(a, b) == a - b + 0x1_0000_0000;
      assert Satisfies(LESS_THAN, a, b) && !Satisfies(LESS_THAN, Subtract32(a, b), 0);
    } else {
      assert Subtract32(a, b) == a - b;
    }
  }
}

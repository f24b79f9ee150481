/**
 * The type rules LogicalVisitor applies to `||`, `&&`, equality and
 * relational chains: every operand of a logical operator must be
 * boolean, both sides of a comparison must have the same known type, and
 * both sides of an ordering must be integer.
 */
module LogicalRules {
  import opened Types
  import opened Errors
  import VariableRules

  function BooleanOperandMessage(isLeft: bool, op: string, t: string): string {
    LogicalMessage(op, Show(t), isLeft)
  }

  /** The message for one operand that is not boolean, if it is not. */
  function BooleanCheck(isLeft: bool, op: string, t: string): (r: seq<string>)
    ensures r == [] <==> t == BOOLEAN
  {
    if t != BOOLEAN then [BooleanOperandMessage(isLeft, op, t)] else []
  }

  /** One `||` or `&&` step: boolean exactly when both sides are. */
  function LogicStep(op: string, left: string, right: string): (r: StepResult)
    ensures r.ty == BOOLEAN <==> left == BOOLEAN && right == BOOLEAN
    ensures r.ty != BOOLEAN ==> r.ty == UNKNOWN
    ensures |r.msgs| == (if left != BOOLEAN then 1 else 0) + (if right != BOOLEAN then 1 else 0)
    ensures r.msgs == [] <==> r.ty == BOOLEAN
  {
    StepResult(
      if left == BOOLEAN && right == BOOLEAN then BOOLEAN else UNKNOWN,
      BooleanCheck(true, op, left) + BooleanCheck(false, op, right))
  }

  function DifferentTypesMessage(op: string, left: string, right: string): string {
    "No se pueden comparar tipos diferentes: '" + Show(left) + "' " + op + " '" + Show(right) + "'"
  }

  /** One `==`/`!=` step: always boolean; an error when two known types differ. */
  function LogicEqualityStep(op: string, left: string, right: string): (r: StepResult)
    ensures r.ty == BOOLEAN
    ensures |r.msgs| <= 1
    ensures r.msgs != [] <==> left != right && left != UNKNOWN && right != UNKNOWN
  {
    StepResult(BOOLEAN,
      if left != right && left != UNKNOWN && right != UNKNOWN then [DifferentTypesMessage(op, left, right)] else [])
  }

  /** One `<`/`>`/`<=`/`>=` step: always boolean; each non-integer side reported. */
  function LogicRelationalStep(op: string, left: string, right: string): (r: StepResult)
    ensures r.ty == BOOLEAN
    ensures |r.msgs| == (if left != INTEGER then 1 else 0) + (if right != INTEGER then 1 else 0)
    ensures r.msgs == [] <==> left == INTEGER && right == INTEGER
  {
    StepResult(BOOLEAN,
      VariableRules.IntegerCheck(true, op, left) + VariableRules.IntegerCheck(false, op, right))
  }

  /** The equality rule is symmetric in whether it reports. */
  lemma LogicEqualitySymmetric(op: string, a: string, b: string)
    ensures |LogicEqualityStep(op, a, b).msgs| == |LogicEqualityStep(op, b, a).msgs|
  {
  }
}

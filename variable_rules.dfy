/**
 * The type rules VariableVisitor applies: arithmetic steps, unary
 * operators, literals and the declared type of `let` and `const`.
 */
module VariableRules {
  import opened Options
  import opened Strings
  import opened Types
  import opened Errors

  /** "Operando izquierdo/derecho de 'op' debe ser integer, encontrado: t". */
  function IntegerOperandMessage(isLeft: bool, op: string, t: string): string {
    "Operando " + (if isLeft then "izquierdo" else "derecho") + " de '" + op + "' debe ser integer, encontrado: " + Show(t)
  }

  /** The message for one operand that is not integer, if it is not. */
  function IntegerCheck(isLeft: bool, op: string, t: string): (r: seq<string>)
    ensures r == [] <==> t == INTEGER
  {
    if t != INTEGER then [IntegerOperandMessage(isLeft, op, t)] else []
  }

  /** The division-by-zero message, for a `/` whose right operand is written `0`. */
  function DivisionCheck(op: string, rightText: string, division: bool): (r: seq<string>)
    ensures r != [] <==> division && op == "/" && rightText == "0"
  {
    if division && op == "/" && rightText == "0" then [DivisionByZeroMessage()] else []
  }

  /**
   * One step of a `+`/`-` chain (division false) or of a `*`/`/`/`%`
   * chain (division true): left and right are checked independently,
   * then a `/` whose right operand is written `0` is reported.
   */
  function ArithStep(op: string, left: string, right: string, rightText: string, division: bool): (r: StepResult)
    ensures r.ty == INTEGER <==> left == INTEGER && right == INTEGER
    ensures r.ty != INTEGER ==> r.ty == UNKNOWN
    ensures |r.msgs| == (if left != INTEGER then 1 else 0) + (if right != INTEGER then 1 else 0)
                        + (if division && op == "/" && rightText == "0" then 1 else 0)
    ensures left != INTEGER ==> r.msgs[0] == IntegerOperandMessage(true, op, left)
    ensures division && op == "/" && rightText == "0" ==> r.msgs[|r.msgs| - 1] == DivisionByZeroMessage()
  {
    var msgs := IntegerCheck(true, op, left) + IntegerCheck(false, op, right) + DivisionCheck(op, rightText, division);
    StepResult(if left == INTEGER && right == INTEGER then INTEGER else UNKNOWN, msgs)
  }

  /** VariableVisitor writes this text inline; it is the static builder's. */
  function NegationMessage(t: string): string {
    UnaryArithmeticMessage("-", Show(t))
  }

  function NotMessage(t: string): string {
    UnaryLogicalMessage("!", Show(t))
  }

  /** `-e` is always integer and `!e` always boolean; a wrong operand adds one message. */
  function NegationResult(t: string): StepResult {
    StepResult(INTEGER, if t != INTEGER then [NegationMessage(t)] else [])
  }

  function NotResult(t: string): StepResult {
    StepResult(BOOLEAN, if t != BOOLEAN then [NotMessage(t)] else [])
  }

  /** Type of a literal token. */
  function LiteralType(text: string): (t: string)
    ensures t in {INTEGER, STRING, BOOLEAN, NULL, UNKNOWN}
  {
    if |text| > 0 && AllDigits(text) then INTEGER
    else if StartsWith(text, "\"") && EndsWith(text, "\"") then STRING
    else if text == "true" || text == "false" then BOOLEAN
    else if text == "null" then NULL
    else UNKNOWN
  }

  /** Literal typing agrees with how each kind of literal is written. */
  lemma LiteralTypeOfWrittenValues(n: nat, body: string)
    ensures LiteralType(NatToString(n)) == INTEGER
    ensures LiteralType("\"" + body + "\"") == STRING
    ensures LiteralType("true") == BOOLEAN && LiteralType("false") == BOOLEAN
    ensures LiteralType("null") == NULL
  {
    var q := "\"" + body + "\"";
    assert q[0] == '"' && !IsDigit(q[0]) && !AllDigits(q);
    assert q[..1] == "\"" && q[|q| - 1..] == "\"";
    assert !IsDigit("true"[0]) && !AllDigits("true");
    assert !IsDigit("false"[0]) && !AllDigits("false");
    assert !IsDigit("null"[0]) && !AllDigits("null");
  }

  /**
   * Type recorded for `let x[: ann] [= init]`: the annotation, else the
   * initializer's type, and "desconocido" when neither gives one.
   */
  function VariableType(ann: Option<string>, init: Option<string>): (t: string)
    ensures ann.Some? ==> t == ann.value
    ensures ann.None? ==> t != NO_TYPE
    ensures ann.None? && init.Some? && init.value != NO_TYPE ==> t == init.value
    ensures ann.None? && init.None? ==> t == UNKNOWN
  {
    if ann.Some? then ann.value
    else if init.Some? && init.value != NO_TYPE then init.value
    else UNKNOWN
  }

  /** An annotated declaration whose initializer has a different, known type. */
  predicate InitMismatch(ann: Option<string>, init: Option<string>) {
    ann.Some? && init.Some? && ann.value != init.value && init.value != UNKNOWN
  }

  function VariableMismatchMessage(name: string, declared: string, found: string): string {
    "No se puede inicializar variable '" + name + "' de tipo '" + declared + "' con expresión de tipo '" + Show(found) + "'"
  }

  function ConstantMismatchMessage(name: string, declared: string, found: string): string {
    "No se puede inicializar constante '" + name + "' de tipo '" + declared + "' con expresión de tipo '" + Show(found) + "'"
  }

  /**
   * Type recorded for a statement-level `const`: an annotation of
   * "desconocido" (or none) is replaced by the initializer's type.
   */
  function ConstantType(ann: Option<string>, init: Option<string>): (t: string)
    ensures t != NO_TYPE
    ensures ann.Some? && ann.value != UNKNOWN && ann.value != NO_TYPE ==> t == ann.value
    ensures (ann.None? || ann.value == UNKNOWN) && init.Some? && init.value != NO_TYPE ==> t == init.value
    ensures init.None? && (ann.None? || ann.value == NO_TYPE) ==> t == UNKNOWN
  {
    var declared := if ann.Some? then ann.value else UNKNOWN;
    var t := if init.Some? && declared == UNKNOWN then init.value else declared;
    if t == NO_TYPE then UNKNOWN else t
  }

  /** The statement-level constant check, which treats an annotation of "desconocido" as absent. */
  predicate ConstantMismatch(ann: Option<string>, init: Option<string>) {
    ann.Some? && ann.value != UNKNOWN && InitMismatch(ann, init)
  }

  /** Without a mismatch report, an annotated variable's initializer has its type or is unknown. */
  lemma NoMismatchMeansAgreement(ann: Option<string>, init: Option<string>)
    requires ann.Some? && init.Some? && ann.value != NO_TYPE
    ensures !InitMismatch(ann, init) <==> (init.value == VariableType(ann, init) || init.value == UNKNOWN)
    ensures ann.value != UNKNOWN ==>
      (!ConstantMismatch(ann, init) <==> (init.value == ConstantType(ann, init) || init.value == UNKNOWN))
  {
  }

  function DuplicateMemberMessage(name: string, className: string): string {
    "Miembro '" + name + "' ya declarado en la clase '" + className + "'"
  }

  function DuplicateVariableMessage(name: string): string {
    "Variable '" + name + "' ya declarada en este scope"
  }

  function UninitializedConstantMessage(name: string): string {
    "La constante '" + name + "' debe inicializarse"
  }

  function DuplicateConstantMessage(name: string): string {
    "Constante '" + name + "' ya declarada en este scope"
  }

  function UndeclaredAssignmentMessage(name: string): string {
    "Variable '" + name + "' no declarada"
  }

  function ConstantAssignmentMessage(name: string): string {
    "No se puede asignar a la constante '" + name + "'"
  }

  function AssignmentMismatchMessage(name: string, declared: string, found: string): string {
    "No se puede asignar valor de tipo '" + Show(found) + "' a variable '" + name + "' de tipo '" + Show(declared) + "'"
  }

  /** An assignment is reported when the value's known type differs from the variable's. */
  predicate AssignmentMismatch(declared: string, found: string) {
    declared != found && found != UNKNOWN
  }
}

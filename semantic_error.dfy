/**
 * Diagnostics: an immutable (message, line, column) record, the static
 * message builders, and the append-only error list of the checker.
 */
module Errors {
  import opened Strings

  datatype SemanticError = SemanticError(message: string, line: int, column: int)
  {
    /** `[ERROR SEMÁNTICO] msg (línea L, columna C)`. */
    function ToString(): (r: string)
      ensures StartsWith(r, "[ERROR SEMÁNTICO] " + message)
      ensures EndsWith(r, " (línea " + IntToString(line) + ", columna " + IntToString(column) + ")")
      ensures |r| == |"[ERROR SEMÁNTICO] " + message| + |" (línea " + IntToString(line) + ", columna " + IntToString(column) + ")"|
    {
      var head := "[ERROR SEMÁNTICO] " + message;
      var tail := " (línea " + IntToString(line) + ", columna " + IntToString(column) + ")";
      assert (head + tail)[..|head|] == head;
      assert (head + tail)[|head + tail| - |tail|..] == tail;
      head + tail
    }
  }

  function ArithmeticMessage(op: string, left: string, right: string): string {
    "Operación '" + op + "' no válida entre tipos: '" + left + "' y '" + right + "'"
  }

  function UnaryArithmeticMessage(op: string, t: string): string {
    "Operador '" + op + "' unario requiere operando integer, encontrado: " + t
  }

  function DivisionByZeroMessage(): string {
    "División por cero detectada"
  }

  function LogicalMessage(op: string, t: string, isLeft: bool): string {
    "Operando " + (if isLeft then "izquierdo" else "derecho") + " de '" + op + "' debe ser boolean, encontrado: " + t
  }

  function UnaryLogicalMessage(op: string, t: string): string {
    "Operador '" + op + "' requiere operando boolean, encontrado: " + t
  }

  function ComparisonMessage(op: string, left: string, right: string): string {
    "No se pueden comparar tipos incompatibles: '" + left + "' " + op + " '" + right + "'"
  }

  function RelationalMessage(op: string, left: string, right: string): string {
    "Operación relacional '" + op + "' no válida entre tipos: '" + left + "' y '" + right + "'"
  }

  function NonOrderableMessage(op: string, t: string): string {
    "Operación relacional '" + op + "' no soportada para tipo: '" + t + "'"
  }

  /** The side word is the only difference between the two logical messages. */
  lemma LogicalMessageSides(op: string, t: string)
    ensures LogicalMessage(op, t, true) != LogicalMessage(op, t, false)
    ensures StartsWith(LogicalMessage(op, t, true), "Operando izquierdo")
    ensures StartsWith(LogicalMessage(op, t, false), "Operando derecho")
    ensures LogicalMessage(op, t, true)[|"Operando izquierdo"|..]
         == LogicalMessage(op, t, false)[|"Operando derecho"|..]
  {
    var rest := " de '" + op + "' debe ser boolean, encontrado: " + t;
    assert LogicalMessage(op, t, true) == "Operando izquierdo" + rest;
    assert LogicalMessage(op, t, false) == "Operando derecho" + rest;
    assert LogicalMessage(op, t, true)[9] != LogicalMessage(op, t, false)[9];
  }

  /** The checker's error list; errors are only ever appended. */
  class ErrorLog {
    var items: seq<SemanticError>

    constructor ()
      ensures items == []
    {
      items := [];
    }

    method Add(message: string, line: int, column: int)
      modifies this
      ensures items == old(items) + [SemanticError(message, line, column)]
    {
      items := items + [SemanticError(message, line, column)];
    }
  }
}

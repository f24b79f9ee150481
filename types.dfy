/**
 * Types of the checker are plain strings compared by equality. The names
 * below are the ones the visitors produce or exempt. A Java `null` type
 * (the value of a `this` expression, of a class symbol, of a constant
 * whose initializer had no type) is represented by NO_TYPE, which is
 * rendered as "null" when concatenated into a message.
 */
module Types {
  const INTEGER: string := "integer"
  const STRING: string := "string"
  const BOOLEAN: string := "boolean"
  const NULL: string := "null"
  const VOID: string := "void"
  const UNKNOWN: string := "desconocido"
  const ERROR: string := "ERROR"
  const OBJECT: string := "OBJECT"
  const NO_TYPE: string := ""

  /** Java string concatenation of a possibly-null type. */
  function Show(t: string): string {
    if t == NO_TYPE then NULL else t
  }

  /**
   * Two types render alike exactly when they are equal or both read as
   * "null": a message cannot tell a Java null type from the type "null".
   */
  lemma ShowEqualIff(a: string, b: string)
    ensures Show(a) == Show(b) <==> a == b || (a in {NO_TYPE, NULL} && b in {NO_TYPE, NULL})
  {
  }

  /** The type one operator step yields and the messages it reports, in order. */
  datatype StepResult = StepResult(ty: string, msgs: seq<string>)
}

/**
 * The checks FunctionsVisitor makes around declarations, calls and
 * returns, and the type names it builds for parameters.
 */
module FunctionRules {
  import opened Options
  import opened Strings
  import opened Types
  import opened Syntax
  import opened Scopes

  /** An argument type fits a parameter type when equal, or when it is already an error. */
  predicate TypesCompatible(actual: string, expected: string) {
    (if actual == NO_TYPE then VOID else actual) == expected || actual == ERROR
  }

  /** The type a `return` yields: the expression's, with no value or a null type read as "void". */
  function ReturnedType(value: Option<string>): (t: string)
    ensures t != NO_TYPE
    ensures value.Some? && value.value != NO_TYPE ==> t == value.value
    ensures value.None? ==> t == VOID
  {
    if value.None? || value.value == NO_TYPE then VOID else value.value
  }

  /**
   * A `return` is reported exactly when typesCompatible rejects its value,
   * except for an ERROR value: typesCompatible accepts it, the return check
   * reports it.
   */
  lemma ReturnCheckAgreesWithCompatibility(value: Option<string>, expected: string)
    requires expected != ERROR
    ensures value.Some? && value.value != ERROR ==>
      (ReturnedType(value) != expected <==> !TypesCompatible(value.value, expected))
    ensures value == Some(ERROR) ==> ReturnedType(value) != expected && TypesCompatible(ERROR, expected)
  {
  }

  function DuplicateFunctionMessage(name: string): string {
    "Función '" + name + "' ya fue declarada en este ámbito"
  }

  function ReturnOutsideMessage(): string {
    "return fuera de una función"
  }

  function ReturnMismatchMessage(expected: string, found: string): string {
    "Tipo de retorno incorrecto: esperado " + Show(expected) + ", encontrado " + Show(found)
  }

  function UndeclaredFunctionMessage(name: string): string {
    "Función '" + name + "' no declarada"
  }

  function NotAFunctionMessage(name: string): string {
    "'" + name + "' no es una función"
  }

  function ArityMessage(name: string, expected: nat, found: nat): string {
    "Función '" + name + "' espera " + NatToString(expected) + " argumentos, pero recibe " + NatToString(found)
  }

  function ArgumentMessage(index: nat, name: string, expected: string, found: string): string {
    "Argumento " + NatToString(index + 1) + " en función '" + name + "': esperado " + Show(expected) + ", encontrado " + Show(found)
  }

  function CapturedMissingMessage(name: string): string {
    "Variable capturada '" + name + "' no existe en ámbitos externos"
  }

  /** A base type name followed by `dims` array brackets. */
  function ArrayTypeName(base: string, dims: nat): (r: string)
    ensures StartsWith(r, base)
    ensures |r| == |base| + 2 * dims
  {
    base + Repeat("[]", dims)
  }

  /**
   * The parameter type FunctionsVisitor records: "OBJECT" without an
   * annotation, else the base type with one "[]" per child after it.
   */
  method GetTypeFromContext(t: Option<TypeSyntax>) returns (r: string)
    ensures t.None? ==> r == OBJECT
    ensures t.Some? ==> r == ArrayTypeName(t.value.base, |t.value.suffix|)
  {
    if t.None? {
      return OBJECT;
    }
    var dims := |t.value.suffix|;
    r := t.value.base;
    var i := 0;
    while i < dims
      invariant 0 <= i <= dims
      invariant r == t.value.base + Repeat("[]", i)
    {
      assert Repeat("[]", i + 1) == Repeat("[]", i) + "[]";
      r := r + "[]";
      i := i + 1;
    }
  }

  /** The parameter type recorded for an optional annotation (what GetTypeFromContext builds). */
  function ParameterTypeName(t: Option<TypeSyntax>): string {
    if t.None? then OBJECT else ArrayTypeName(t.value.base, |t.value.suffix|)
  }

  /** The recorded return type: the written type's text, else "void". */
  function ReturnTypeName(t: Option<TypeSyntax>): string {
    if t.Some? then TypeText(t.value) else VOID
  }

  lemma {:induction false} ConcatOfBrackets(parts: seq<string>)
    requires forall k :: 0 <= k < |parts| ==> parts[k] == "[]"
    ensures Concat(parts) == Repeat("[]", |parts|)
  {
    if parts != [] {
      ConcatOfBrackets(parts[..|parts| - 1]);
    }
  }

  /** When each child after the base is a whole "[]", the built name is the annotation's text. */
  lemma ArrayTypeMatchesText(t: TypeSyntax)
    requires forall k :: 0 <= k < |t.suffix| ==> t.suffix[k] == "[]"
    ensures ArrayTypeName(t.base, |t.suffix|) == TypeText(t)
  {
    ConcatOfBrackets(t.suffix);
  }

  /** d bracket pairs written as separate "[" and "]" children. */
  function BracketTokens(d: nat): (r: seq<string>)
    ensures |r| == 2 * d
  {
    if d == 0 then [] else BracketTokens(d - 1) + ["[", "]"]
  }

  lemma {:induction false} ConcatOfBracketTokens(d: nat)
    ensures Concat(BracketTokens(d)) == Repeat("[]", d)
  {
    if d > 0 {
      ConcatOfBracketTokens(d - 1);
      var p := BracketTokens(d - 1);
      var q := p + ["["];
      assert BracketTokens(d) == q + ["]"];
      assert (q + ["]"])[..|q|] == q;
      assert q[..|p|] == p;
      assert Concat(q) == Concat(p) + "[";
      assert Concat(BracketTokens(d)) == Concat(p) + "[" + "]";
      AppendBrackets(Concat(p));
      assert Repeat("[]", d) == Repeat("[]", d - 1) + "[]";
    }
  }

  lemma AppendBrackets(a: string)
    ensures a + "[" + "]" == a + "[]"
  {
    assert "[" + "]" == "[]";
  }

  /**
   * When each bracket is its own child, the built name has twice the
   * dimensions the annotation's text shows.
   */
  lemma BracketTokensDoubleDimensions(base: string, d: nat)
    requires d > 0
    ensures TypeText(TypeSyntax(base, BracketTokens(d))) == ArrayTypeName(base, d)
    ensures ArrayTypeName(base, |BracketTokens(d)|) != TypeText(TypeSyntax(base, BracketTokens(d)))
  {
    ConcatOfBracketTokens(d);
  }

  /**
   * A name read in a nested function's body is captured when it is not
   * local to the function's scope but is visible from the enclosing one.
   */
  predicate Captured(s: seq<Scope>, cur: nat, name: string)
    requires WellFormed(s) && cur < |s|
  {
    !ExistsLocal(s, cur, name) && s[cur].parent.Some? && ExistsGlobal(s, s[cur].parent.value, name)
  }

  /** The names of `names` that are captured. */
  function CapturedVariables(s: seq<Scope>, cur: nat, names: seq<string>): set<string>
    requires WellFormed(s) && cur < |s|
  {
    set n | n in names && Captured(s, cur, n)
  }
}

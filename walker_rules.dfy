/**
 * The messages and the per-statement rules of SemanticVisitor's statement
 * walk, and the two ways a statement may change the scope tree: a
 * statement may declare names in the current scope and open new scopes
 * (Extends), while a block-shaped statement leaves every existing scope
 * exactly as it was (Sealed).
 */
module WalkerRules {
  import opened Options
  import opened Strings
  import opened Types
  import opened Errors
  import opened Syntax
  import opened Symbols
  import opened Scopes
  import opened ExprTypes
  import opened FunctionRules

  function BreakMessage(): string {
    "'break' fuera de un ciclo o switch"
  }

  function ContinueMessage(): string {
    "'continue' fuera de un ciclo"
  }

  /** construct is "if", "while", "for" or "do-while". */
  function ConditionMessage(construct: string, t: string): string {
    "Condición del " + construct + " debe ser boolean, encontrada: " + Show(t)
  }

  function IterationMessage(name: string, t: string): string {
    "No se puede iterar sobre '" + name + "' de tipo '" + Show(t) + "'"
  }

  function CaseMessage(caseType: string, switchType: string): string {
    "Tipo del case '" + Show(caseType) + "' no coincide con tipo del switch '" + Show(switchType) + "'"
  }

  /** `break` is reported outside every loop and every switch case. */
  predicate BreakMisplaced(loopDepth: nat, switchDepth: nat) {
    loopDepth == 0 && switchDepth == 0
  }

  /** `continue` is reported outside every loop, even inside a switch case. */
  predicate ContinueMisplaced(loopDepth: nat) {
    loopDepth == 0
  }

  /** A `continue` is misplaced wherever a `break` is, and also in a switch case outside any loop. */
  lemma ContinueStricterThanBreak(loopDepth: nat, switchDepth: nat)
    ensures BreakMisplaced(loopDepth, switchDepth) ==> ContinueMisplaced(loopDepth)
    ensures ContinueMisplaced(loopDepth) && !BreakMisplaced(loopDepth, switchDepth) <==> loopDepth == 0 && switchDepth > 0
  {
  }

  /**
   * The errors of an optional condition typed by ComparisonVisitor: the
   * expression's own errors, then one error at the statement when its
   * type is not boolean.
   */
  ghost function ConditionErrors(construct: string, s: seq<Scope>, cur: nat, syms: set<Symbol>, at: Pos, cond: Option<Expr>): (r: seq<SemanticError>)
    requires Ready(s, cur, syms)
    reads syms`params, syms`enclosingClassName
  {
    if cond.None? then []
    else
      var c := TypeOf(ComparisonV, s, cur, syms, cond.value);
      c.errs + (if c.ty == BOOLEAN then [] else [SemanticError(ConditionMessage(construct, c.ty), at.line, at.column)])
  }

  /** A present condition adds exactly one error of its own, at the statement, unless it is boolean. */
  lemma ConditionErrorsShape(construct: string, s: seq<Scope>, cur: nat, syms: set<Symbol>, at: Pos, cond: Expr)
    requires Ready(s, cur, syms)
    ensures var c := TypeOf(ComparisonV, s, cur, syms, cond);
      var r := ConditionErrors(construct, s, cur, syms, at, Some(cond));
      && r[..|c.errs|] == c.errs
      && (|r| == |c.errs| <==> c.ty == BOOLEAN)
      && (c.ty != BOOLEAN ==> r[|r| - 1] == SemanticError(ConditionMessage(construct, c.ty), at.line, at.column))
  {
    var c := TypeOf(ComparisonV, s, cur, syms, cond);
    var r := ConditionErrors(construct, s, cur, syms, at, Some(cond));
    assert r[..|c.errs|] == c.errs;
  }

  /** The element type of an array type: the type with its last "[]" removed. */
  function ElementType(t: string): (r: string)
    requires EndsWith(t, "[]")
    ensures |r| == |t| - 2 && r + "[]" == t
  {
    t[..|t| - 2]
  }

  /** Iterating over an array of d + 1 dimensions binds elements of d dimensions. */
  lemma ElementOfArrayType(base: string, d: nat)
    ensures EndsWith(ArrayTypeName(base, d + 1), "[]")
    ensures ElementType(ArrayTypeName(base, d + 1)) == ArrayTypeName(base, d)
  {
    assert Repeat("[]", d + 1) == Repeat("[]", d) + "[]";
    assert ArrayTypeName(base, d + 1) == ArrayTypeName(base, d) + "[]";
  }

  /** A type not ending in "[]", such as every type name without brackets, cannot be iterated. */
  lemma ScalarTypesNotIterable(t: string)
    requires t in {INTEGER, STRING, BOOLEAN, NULL, VOID, UNKNOWN, ERROR, OBJECT, NO_TYPE}
    ensures !EndsWith(t, "[]")
  {
  }

  /**
   * b grew from a while the current scope was cur: old scopes keep their
   * parent, and only scope cur may have gained or replaced declarations.
   */
  ghost predicate Extends(a: seq<Scope>, b: seq<Scope>, cur: nat) {
    && |a| <= |b|
    && (forall j :: 0 <= j < |a| ==> b[j].parent == a[j].parent)
    && (forall j :: 0 <= j < |a| && j != cur ==> b[j].symbols == a[j].symbols)
  }

  /** b grew from a without touching any scope of a. */
  ghost predicate Sealed(a: seq<Scope>, b: seq<Scope>) {
    && |a| <= |b|
    && (forall j :: 0 <= j < |a| ==> b[j].parent == a[j].parent && b[j].symbols == a[j].symbols)
  }

  lemma ExtendsTransitive(a: seq<Scope>, b: seq<Scope>, c: seq<Scope>, cur: nat)
    requires Extends(a, b, cur) && Extends(b, c, cur)
    ensures Extends(a, c, cur)
  {
  }

  /** Declaring in scope i extends the arena from i. */
  lemma AddToExtends(s: seq<Scope>, i: nat, sym: Symbol)
    requires i < |s|
    ensures Extends(s, AddTo(s, i, sym), i)
  {
  }

  /** Declaring a run of symbols in scope i extends the arena from i. */
  lemma {:induction false} AddAllToExtends(s: seq<Scope>, i: nat, syms: seq<Symbol>)
    requires i < |s|
    ensures Extends(s, AddAllTo(s, i, syms), i)
  {
    if syms != [] {
      var init := syms[..|syms| - 1];
      AddAllToExtends(s, i, init);
      AddToExtends(AddAllTo(s, i, init), i, syms[|syms| - 1]);
      ExtendsTransitive(s, AddAllTo(s, i, init), AddAllTo(s, i, syms), i);
    }
  }

  /**
   * The arena while a function body runs: the function's parameters
   * declared in a new child of scope i.
   */
  function ParameterArena(s: seq<Scope>, i: nat, ps: seq<Symbol>): (t: seq<Scope>)
    requires i < |s|
    ensures |t| == |s| + 1 && t[|s|].parent == Some(i)
    ensures WellFormed(s) ==> WellFormed(t)
  {
    AddAllToShape(Entered(s, i), |s|, ps);
    AddAllTo(Entered(s, i), |s|, ps)
  }

  lemma SealedTransitive(a: seq<Scope>, b: seq<Scope>, c: seq<Scope>)
    requires Sealed(a, b) && Sealed(b, c)
    ensures Sealed(a, c)
  {
  }

  /** A sealed change is an extension from any current scope. */
  lemma SealedExtends(a: seq<Scope>, b: seq<Scope>, cur: nat)
    requires Sealed(a, b)
    ensures Extends(a, b, cur)
  {
  }

  /** After a sealed change every lookup from an old scope finds what it found before. */
  lemma SealedLookups(a: seq<Scope>, b: seq<Scope>, i: nat, n: string)
    requires WellFormed(a) && WellFormed(b) && Sealed(a, b) && i < |a|
    ensures Obtain(b, i, n) == Obtain(a, i, n)
    ensures ExistsLocal(b, i, n) == ExistsLocal(a, i, n)
  {
    ObtainFramed(a, b, |a|, i, n);
  }

  /**
   * A scope opened below i at the end of the arena, then extended while
   * it was current, leaves every scope of a as it was, and its parent is
   * still i.
   */
  lemma EnteredThenExtended(a: seq<Scope>, i: nat, b: seq<Scope>)
    requires i < |a| && Extends(Entered(a, i), b, |a|)
    ensures Sealed(a, b)
    ensures |a| < |b| && b[|a|].parent == Some(i)
  {
    var e := Entered(a, i);
    forall j | 0 <= j < |a|
      ensures b[j].parent == a[j].parent && b[j].symbols == a[j].symbols
    {
      assert e[j].parent == a[j].parent && e[j].symbols == a[j].symbols;
    }
    assert e[|a|].parent == Some(i);
  }

  /**
   * A function body that leaves sealed the arena holding its parameters in
   * a new child of cur leaves every older scope sealed, and the child's
   * parent is still cur.
   */
  lemma FunctionArenaSealed(a: seq<Scope>, cur: nat, ps: seq<Symbol>, b: seq<Scope>)
    requires cur < |a| && Sealed(ParameterArena(a, cur, ps), b)
    ensures Sealed(a, b)
    ensures |a| < |b| && b[|a|].parent == Some(cur)
  {
    var inside := ParameterArena(a, cur, ps);
    AddAllToExtends(Entered(a, cur), |a|, ps);
    SealedExtends(inside, b, |a|);
    ExtendsTransitive(Entered(a, cur), inside, b, |a|);
    EnteredThenExtended(a, cur, b);
  }
}

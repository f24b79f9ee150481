/**
 * The type each of the three expression visitors gives an expression, and
 * the errors it reports while doing so, as a function of the scope tree
 * and the symbols it reaches.
 *
 * VariableVisitor types arithmetic, unary, primary and literal levels and
 * only forwards the first operand of `||`, `&&`, equality and relational
 * levels. LogicalVisitor and ComparisonVisitor apply their own rule to
 * the levels they override and hand every lower level to VariableVisitor;
 * where ComparisonVisitor overrides nothing (`||`, `&&`, `?:`) the parser's
 * default child aggregation visits every child and keeps the last one's type.
 */
module ExprTypes {
  import opened Options
  import opened Strings
  import opened Types
  import opened Errors
  import opened Syntax
  import opened Symbols
  import opened Scopes
  import VariableRules
  import LogicalRules
  import ComparisonRules
  import FunctionRules

  datatype Visitor = VariableV | ComparisonV | LogicalV

  /** A type together with the errors reported while computing it, in order. */
  datatype Typed = Typed(ty: string, errs: seq<SemanticError>)

  /** The per-step rule a chain is folded with. */
  datatype Rule =
    | AdditiveRule
    | MultiplicativeRule
    | LogicOpRule
    | LogicEqualityRule
    | LogicRelationalRule
    | CompareEqualityRule
    | CompareRelationalRule
    | LastOperandRule

  /** The rule a visitor applies at a level; None when it only forwards the first operand. */
  function ChainRule(vis: Visitor, level: Level): (r: Option<Rule>)
    ensures r.None? <==> vis == VariableV && level != AddLevel && level != MulLevel
  {
    if level == AddLevel then Some(AdditiveRule)
    else if level == MulLevel then Some(MultiplicativeRule)
    else if vis == VariableV then None
    else if level == EqLevel then Some(if vis == ComparisonV then CompareEqualityRule else LogicEqualityRule)
    else if level == RelLevel then Some(if vis == ComparisonV then CompareRelationalRule else LogicRelationalRule)
    else Some(if vis == ComparisonV then LastOperandRule else LogicOpRule)
  }

  /** Arithmetic levels are always typed by VariableVisitor, operands included. */
  function OperandVisitor(vis: Visitor, level: Level): Visitor {
    if level == AddLevel || level == MulLevel then VariableV else vis
  }

  function StepOf(rule: Rule, op: string, left: string, right: string, rightText: string): (r: StepResult)
    ensures rule in {LogicEqualityRule, LogicRelationalRule, CompareEqualityRule, CompareRelationalRule} ==> r.ty == BOOLEAN
  {
    match rule
    case AdditiveRule => VariableRules.ArithStep(op, left, right, rightText, false)
    case MultiplicativeRule => VariableRules.ArithStep(op, left, right, rightText, true)
    case LogicOpRule => LogicalRules.LogicStep(op, left, right)
    case LogicEqualityRule => LogicalRules.LogicEqualityStep(op, left, right)
    case LogicRelationalRule => LogicalRules.LogicRelationalStep(op, left, right)
    case CompareEqualityRule => ComparisonRules.CompareEqualityStep(op, left, right)
    case CompareRelationalRule => ComparisonRules.CompareRelationalStep(op, left, right)
    case LastOperandRule => StepResult(right, [])
  }

  /** The errors for messages reported at one position, in order. */
  function Report(at: Pos, msgs: seq<string>): seq<SemanticError> {
    seq(|msgs|, k requires 0 <= k < |msgs| => SemanticError(msgs[k], at.line, at.column))
  }

  lemma ReportConcat(at: Pos, a: seq<string>, b: seq<string>)
    ensures Report(at, a + b) == Report(at, a) + Report(at, b)
  {
  }

  /** What typing needs: a well-formed tree, a current scope, and every reachable symbol. */
  ghost predicate Ready(s: seq<Scope>, cur: nat, syms: set<Symbol>)
    reads syms`params, syms`enclosingClassName
  {
    WellFormed(s) && cur < |s| && SymbolsOf(s) <= syms && ParamsClosed(syms)
  }

  function UndeclaredVariableMessage(n: string): string {
    "Variable '" + n + "' no declarada en este scope"
  }

  function MemberWithoutObjectMessage(n: string, c: string): string {
    "No se puede acceder al miembro '" + n + "' sin un objeto de tipo '" + c + "'"
  }

  function MissingClassMessage(c: string): string {
    "Clase '" + c + "' no existe"
  }

  /** An identifier: undeclared or a class member is an error, otherwise the symbol's type. */
  function IdentType(s: seq<Scope>, cur: nat, syms: set<Symbol>, at: Pos, n: string): (r: Typed)
    requires Ready(s, cur, syms)
    reads syms`params, syms`enclosingClassName
    ensures Obtain(s, cur, n).None? ==> r == Typed(ERROR, [SemanticError(UndeclaredVariableMessage(n), at.line, at.column)])
    ensures Obtain(s, cur, n).Some? && Obtain(s, cur, n).value.enclosingClassName.None? ==> r == Typed(Obtain(s, cur, n).value.ty, [])
    ensures Obtain(s, cur, n).Some? && Obtain(s, cur, n).value.enclosingClassName.Some? ==>
      r == Typed(ERROR, [SemanticError(MemberWithoutObjectMessage(n, Obtain(s, cur, n).value.enclosingClassName.value), at.line, at.column)])
    ensures |r.errs| <= 1 && (r.errs != [] ==> r.ty == ERROR)
  {
    match Obtain(s, cur, n)
    case None => Typed(ERROR, Report(at, [UndeclaredVariableMessage(n)]))
    case Some(sym) =>
      if sym.enclosingClassName.Some? then Typed(ERROR, Report(at, [MemberWithoutObjectMessage(n, sym.enclosingClassName.value)]))
      else Typed(sym.ty, [])
  }

  /** `new C(...)`: C must resolve to a class; the arguments are not visited. */
  function NewType(s: seq<Scope>, cur: nat, syms: set<Symbol>, at: Pos, c: string): (r: Typed)
    requires Ready(s, cur, syms)
    reads syms`params, syms`enclosingClassName
    ensures r.errs == [] <==> Obtain(s, cur, c).Some? && Obtain(s, cur, c).value.kind == CLASS
    ensures r.errs == [] ==> r.ty == c
    ensures r.errs != [] ==> r == Typed(UNKNOWN, [SemanticError(MissingClassMessage(c), at.line, at.column)])
  {
    var found := Obtain(s, cur, c);
    if found.None? || found.value.kind != CLASS then Typed(UNKNOWN, Report(at, [MissingClassMessage(c)]))
    else Typed(c, [])
  }

  /** The type a visitor gives an expression, with the errors it reports. */
  function TypeOf(vis: Visitor, s: seq<Scope>, cur: nat, syms: set<Symbol>, e: Expr): Typed
    requires Ready(s, cur, syms)
    reads syms`params, syms`enclosingClassName
    decreases e
  {
    match e
    case Chain(at, level, first, rest) =>
      var rule := ChainRule(vis, level);
      if rule.None? then TypeOf(vis, s, cur, syms, first)
      else
        var ov := OperandVisitor(vis, level);
        FoldLinks(ov, rule.value, s, cur, syms, at, TypeOf(ov, s, cur, syms, first), rest)
    case Ternary(_, c, a, b) =>
      if vis == VariableV then TypeOf(vis, s, cur, syms, c)
      else
        var tc := TypeOf(vis, s, cur, syms, c);
        var ta := TypeOf(vis, s, cur, syms, a);
        var tb := TypeOf(vis, s, cur, syms, b);
        Typed(tb.ty, tc.errs + ta.errs + tb.errs)
    case Unary(at, op, x) =>
      var tx := TypeOf(VariableV, s, cur, syms, x);
      var st := if op == Neg then VariableRules.NegationResult(tx.ty) else VariableRules.NotResult(tx.ty);
      Typed(st.ty, tx.errs + Report(at, st.msgs))
    case Literal(_, text) => Typed(VariableRules.LiteralType(text), [])
    case Ident(at, n) => IdentType(s, cur, syms, at, n)
    case This(_) => Typed(NO_TYPE, [])
    case Call(at, f, args) => CallType(s, cur, syms, at, f, args)
    case New(at, c, _) => NewType(s, cur, syms, at, c)
    case Paren(_, x) => TypeOf(VariableV, s, cur, syms, x)
    case AssignExpr(at, x, v) =>
      var tv := TypeOf(vis, s, cur, syms, v);
      Typed(tv.ty, IdentType(s, cur, syms, at, x).errs + tv.errs)
  }

  /** The left fold of a chain's links with one rule, starting from the first operand. */
  function FoldLinks(vis: Visitor, rule: Rule, s: seq<Scope>, cur: nat, syms: set<Symbol>, at: Pos, acc: Typed, rest: seq<Link>): Typed
    requires Ready(s, cur, syms)
    reads syms`params, syms`enclosingClassName
    decreases rest
  {
    if rest == [] then acc
    else
      var prev := FoldLinks(vis, rule, s, cur, syms, at, acc, rest[..|rest| - 1]);
      var link := rest[|rest| - 1];
      var right := TypeOf(vis, s, cur, syms, link.operand);
      var st := StepOf(rule, link.op, prev.ty, right.ty, Text(link.operand));
      Typed(st.ty, prev.errs + right.errs + Report(at, st.msgs))
  }

  /** One more link folds in the link's operand and the step's messages. */
  lemma FoldLinksStep(vis: Visitor, rule: Rule, s: seq<Scope>, cur: nat, syms: set<Symbol>, at: Pos, acc: Typed, rest: seq<Link>, i: nat)
    requires Ready(s, cur, syms)
    requires i < |rest|
    ensures var prev := FoldLinks(vis, rule, s, cur, syms, at, acc, rest[..i]);
      var right := TypeOf(vis, s, cur, syms, rest[i].operand);
      var st := StepOf(rule, rest[i].op, prev.ty, right.ty, Text(rest[i].operand));
      FoldLinks(vis, rule, s, cur, syms, at, acc, rest[..i + 1]) == Typed(st.ty, prev.errs + right.errs + Report(at, st.msgs))
  {
    assert rest[..i + 1][..i] == rest[..i];
  }

  /** A call `f(args)`: callee lookup, kind and arity checks, then one check per argument. */
  function CallType(s: seq<Scope>, cur: nat, syms: set<Symbol>, at: Pos, f: string, args: seq<Expr>): Typed
    requires Ready(s, cur, syms)
    reads syms`params, syms`enclosingClassName
    decreases args, 1
  {
    match Obtain(s, cur, f)
    case None => Typed(ERROR, Report(at, [FunctionRules.UndeclaredFunctionMessage(f)]))
    case Some(fn) =>
      if fn.kind != FUNCTION then Typed(ERROR, Report(at, [FunctionRules.NotAFunctionMessage(f)]))
      else if |fn.params| != |args| then Typed(ERROR, Report(at, [FunctionRules.ArityMessage(f, |fn.params|, |args|)]))
      else Typed(fn.ty, ArgErrors(s, cur, syms, at, f, fn.params, args))
  }

  /** Errors of the argument expressions and of each argument whose type does not fit its parameter. */
  function ArgErrors(s: seq<Scope>, cur: nat, syms: set<Symbol>, at: Pos, f: string, ps: seq<Symbol>, args: seq<Expr>): seq<SemanticError>
    requires Ready(s, cur, syms)
    requires |ps| == |args|
    requires forall k :: 0 <= k < |ps| ==> ps[k] in syms
    reads syms`params, syms`enclosingClassName
    decreases args, 0
  {
    if args == [] then []
    else
      var n := |args| - 1;
      var actual := TypeOf(VariableV, s, cur, syms, args[n]);
      var expected := ps[n].ty;
      ArgErrors(s, cur, syms, at, f, ps[..n], args[..n]) + actual.errs
        + (if FunctionRules.TypesCompatible(actual.ty, expected) then []
           else Report(at, [FunctionRules.ArgumentMessage(n, f, expected, actual.ty)]))
  }

  /** One more argument appends its own errors and, if it does not fit, one mismatch error. */
  lemma ArgErrorsStep(s: seq<Scope>, cur: nat, syms: set<Symbol>, at: Pos, f: string, ps: seq<Symbol>, args: seq<Expr>, i: nat)
    requires Ready(s, cur, syms)
    requires |ps| == |args| && i < |args|
    requires forall k :: 0 <= k < |ps| ==> ps[k] in syms
    ensures var actual := TypeOf(VariableV, s, cur, syms, args[i]);
      ArgErrors(s, cur, syms, at, f, ps[..i + 1], args[..i + 1])
      == ArgErrors(s, cur, syms, at, f, ps[..i], args[..i]) + actual.errs
         + (if FunctionRules.TypesCompatible(actual.ty, ps[i].ty) then []
            else Report(at, [FunctionRules.ArgumentMessage(i, f, ps[i].ty, actual.ty)]))
  {
    assert ps[..i + 1][..i] == ps[..i];
    assert args[..i + 1][..i] == args[..i];
  }
}

/**
 * The expression visitors as the checker runs them: each visit appends
 * the errors it finds to the shared error list and returns a type. Each
 * method is proved to return the type, and append exactly the errors,
 * that ExprTypes.TypeOf gives.
 */
module ExprVisitors {
  import opened Options
  import opened Types
  import opened Errors
  import opened Syntax
  import opened Symbols
  import opened Scopes
  import opened ExprTypes
  import VariableRules
  import LogicalRules
  import ComparisonRules
  import FunctionRules

  lemma SeqAssoc<T>(a: seq<T>, b: seq<T>, c: seq<T>, d: seq<T>)
    ensures a + b + c + d == a + (b + c + d)
    ensures a + (b + c) + d == a + (b + c + d)
  {
  }

  /** Report an operand that must be integer and is not. */
  method CheckInteger(log: ErrorLog, at: Pos, isLeft: bool, op: string, t: string)
    modifies log
    ensures log.items == old(log.items) + Report(at, VariableRules.IntegerCheck(isLeft, op, t))
  {
    if t != INTEGER {
      log.Add(VariableRules.IntegerOperandMessage(isLeft, op, t), at.line, at.column);
    }
  }

  /** Report a `/` whose right operand is written `0`, in a multiplicative chain. */
  method CheckDivision(log: ErrorLog, at: Pos, op: string, rightText: string, division: bool)
    modifies log
    ensures log.items == old(log.items) + Report(at, VariableRules.DivisionCheck(op, rightText, division))
  {
    if division && op == "/" && rightText == "0" {
      log.Add(DivisionByZeroMessage(), at.line, at.column);
    }
  }

  /** Report an operand that must be boolean and is not. */
  method CheckBoolean(log: ErrorLog, at: Pos, isLeft: bool, op: string, t: string)
    modifies log
    ensures log.items == old(log.items) + Report(at, LogicalRules.BooleanCheck(isLeft, op, t))
  {
    if t != BOOLEAN {
      log.Add(LogicalRules.BooleanOperandMessage(isLeft, op, t), at.line, at.column);
    }
  }

  /** The checks of one `+`/`-` or `*`/`/`/`%` step (VariableVisitor's loop body). */
  method ArithmeticStep(log: ErrorLog, at: Pos, op: string, left: string, right: string, rightText: string, division: bool)
    returns (t: string)
    modifies log
    ensures t == VariableRules.ArithStep(op, left, right, rightText, division).ty
    ensures log.items == old(log.items) + Report(at, VariableRules.ArithStep(op, left, right, rightText, division).msgs)
  {
    ghost var log0 := log.items;
    ghost var m1 := VariableRules.IntegerCheck(true, op, left);
    ghost var m2 := VariableRules.IntegerCheck(false, op, right);
    ghost var m3 := VariableRules.DivisionCheck(op, rightText, division);
    assert VariableRules.ArithStep(op, left, right, rightText, division).msgs == m1 + m2 + m3;
    CheckInteger(log, at, true, op, left);
    CheckInteger(log, at, false, op, right);
    CheckDivision(log, at, op, rightText, division);
    assert log.items == log0 + Report(at, m1) + Report(at, m2) + Report(at, m3);
    ReportConcat(at, m1, m2);
    ReportConcat(at, m1 + m2, m3);
    t := if left == INTEGER && right == INTEGER then INTEGER else UNKNOWN;
  }

  /** One `||`/`&&` step (LogicalVisitor's loop body). */
  method LogicStep(log: ErrorLog, at: Pos, op: string, left: string, right: string) returns (t: string)
    modifies log
    ensures t == LogicalRules.LogicStep(op, left, right).ty
    ensures log.items == old(log.items) + Report(at, LogicalRules.LogicStep(op, left, right).msgs)
  {
    CheckBoolean(log, at, true, op, left);
    CheckBoolean(log, at, false, op, right);
    ReportConcat(at, LogicalRules.BooleanCheck(true, op, left), LogicalRules.BooleanCheck(false, op, right));
    t := if left == BOOLEAN && right == BOOLEAN then BOOLEAN else UNKNOWN;
  }

  /** One relational step of LogicalVisitor: both sides must be integer. */
  method LogicRelationalStep(log: ErrorLog, at: Pos, op: string, left: string, right: string) returns (t: string)
    modifies log
    ensures t == LogicalRules.LogicRelationalStep(op, left, right).ty
    ensures log.items == old(log.items) + Report(at, LogicalRules.LogicRelationalStep(op, left, right).msgs)
  {
    CheckInteger(log, at, true, op, left);
    CheckInteger(log, at, false, op, right);
    ReportConcat(at, VariableRules.IntegerCheck(true, op, left), VariableRules.IntegerCheck(false, op, right));
    t := BOOLEAN;
  }

  /** One step of any chain rule. */
  method ApplyStep(rule: Rule, log: ErrorLog, at: Pos, op: string, left: string, right: string, rightText: string)
    returns (t: string)
    modifies log
    ensures t == StepOf(rule, op, left, right, rightText).ty
    ensures log.items == old(log.items) + Report(at, StepOf(rule, op, left, right, rightText).msgs)
  {
    match rule
    case AdditiveRule =>
      t := ArithmeticStep(log, at, op, left, right, rightText, false);
    case MultiplicativeRule =>
      t := ArithmeticStep(log, at, op, left, right, rightText, true);
    case LogicOpRule =>
      t := LogicStep(log, at, op, left, right);
    case LogicEqualityRule =>
      if left != right && left != UNKNOWN && right != UNKNOWN {
        log.Add(LogicalRules.DifferentTypesMessage(op, left, right), at.line, at.column);
      }
      t := BOOLEAN;
    case LogicRelationalRule =>
      t := LogicRelationalStep(log, at, op, left, right);
    case CompareEqualityRule =>
      if !ComparisonRules.EqualityCompatible(left, right) {
        log.Add(ComparisonMessage(op, Show(left), Show(right)), at.line, at.column);
      }
      t := BOOLEAN;
    case CompareRelationalRule =>
      if !ComparisonRules.RelationalCompatible(left, right) {
        log.Add(RelationalMessage(op, Show(left), Show(right)), at.line, at.column);
      } else if !ComparisonRules.Orderable(left) {
        log.Add(NonOrderableMessage(op, Show(left)), at.line, at.column);
      }
      t := BOOLEAN;
    case LastOperandRule =>
      t := right;
  }

  /** Visit an expression with one of the three visitors. */
  method VisitExpr(vis: Visitor, log: ErrorLog, env: ScopeTree, ghost syms: set<Symbol>, e: Expr) returns (t: string)
    requires Ready(env.scopes, env.current, syms)
    modifies log
    ensures t == TypeOf(vis, env.scopes, env.current, syms, e).ty
    ensures log.items == old(log.items) + TypeOf(vis, env.scopes, env.current, syms, e).errs
    decreases e, 3
  {
    match e
    case Chain(_, level, first, _) =>
      var rule := ChainRule(vis, level);
      if rule.None? {
        t := VisitExpr(vis, log, env, syms, first);
      } else {
        t := VisitChain(OperandVisitor(vis, level), rule.value, log, env, syms, e);
      }
    case Ternary(_, _, _, _) =>
      t := VisitTernary(vis, log, env, syms, e);
    case Unary(_, _, _) =>
      t := VisitUnary(log, env, syms, e);
    case Literal(_, text) =>
      t := VariableRules.LiteralType(text);
    case Ident(at, n) =>
      t := VisitIdent(log, env, syms, at, n);
    case This(_) =>
      t := NO_TYPE;
    case Call(at, f, args) =>
      t := VisitCall(log, env, syms, at, f, args);
    case New(at, c, _) =>
      t := VisitNew(log, env, syms, at, c);
    case Paren(_, x) =>
      t := VisitExpr(VariableV, log, env, syms, x);
    case AssignExpr(at, x, v) =>
      var _ := VisitIdent(log, env, syms, at, x);
      t := VisitExpr(vis, log, env, syms, v);
  }

  /** `c ? a : b`: VariableVisitor visits the condition only; the others visit all three and keep the last type. */
  method VisitTernary(vis: Visitor, log: ErrorLog, env: ScopeTree, ghost syms: set<Symbol>, e: Expr) returns (t: string)
    requires Ready(env.scopes, env.current, syms)
    requires e.Ternary?
    modifies log
    ensures t == TypeOf(vis, env.scopes, env.current, syms, e).ty
    ensures log.items == old(log.items) + TypeOf(vis, env.scopes, env.current, syms, e).errs
    decreases e, 1
  {
    TernaryTyped(vis, env.scopes, env.current, syms, e);
    ghost var log0 := log.items;
    t := VisitExpr(vis, log, env, syms, e.cond);
    if vis != VariableV {
      t := TernaryArms(vis, log, env, syms, e);
      SeqAssoc3(log0, TypeOf(vis, env.scopes, env.current, syms, e.cond).errs,
        TypeOf(vis, env.scopes, env.current, syms, e.ifTrue).errs, TypeOf(vis, env.scopes, env.current, syms, e.ifFalse).errs);
    }
  }

  /** How a conditional expression is typed: by its condition alone in VariableVisitor, else by all three parts. */
  lemma TernaryTyped(vis: Visitor, s: seq<Scope>, cur: nat, syms: set<Symbol>, e: Expr)
    requires Ready(s, cur, syms) && e.Ternary?
    ensures vis == VariableV ==> TypeOf(vis, s, cur, syms, e) == TypeOf(vis, s, cur, syms, e.cond)
    ensures vis != VariableV ==> TypeOf(vis, s, cur, syms, e) == Typed(TypeOf(vis, s, cur, syms, e.ifFalse).ty,
      TypeOf(vis, s, cur, syms, e.cond).errs + TypeOf(vis, s, cur, syms, e.ifTrue).errs + TypeOf(vis, s, cur, syms, e.ifFalse).errs)
  {
  }

  lemma SeqAssoc3<T>(a: seq<T>, b: seq<T>, c: seq<T>, d: seq<T>)
    ensures a + b + (c + d) == a + (b + c + d)
  {
  }

  /** Both arms of a conditional expression, in order; the type is the second arm's. */
  method TernaryArms(vis: Visitor, log: ErrorLog, env: ScopeTree, ghost syms: set<Symbol>, e: Expr) returns (t: string)
    requires Ready(env.scopes, env.current, syms)
    requires e.Ternary?
    modifies log
    ensures t == TypeOf(vis, env.scopes, env.current, syms, e.ifFalse).ty
    ensures log.items == old(log.items) + (TypeOf(vis, env.scopes, env.current, syms, e.ifTrue).errs
      + TypeOf(vis, env.scopes, env.current, syms, e.ifFalse).errs)
    decreases e, 0
  {
    var _ := VisitExpr(vis, log, env, syms, e.ifTrue);
    t := VisitExpr(vis, log, env, syms, e.ifFalse);
  }

  /** VariableVisitor.visitUnaryExpr. */
  method VisitUnary(log: ErrorLog, env: ScopeTree, ghost syms: set<Symbol>, e: Expr) returns (t: string)
    requires Ready(env.scopes, env.current, syms)
    requires e.Unary?
    modifies log
    ensures t == TypeOf(VariableV, env.scopes, env.current, syms, e).ty
    ensures forall vis :: log.items == old(log.items) + TypeOf(vis, env.scopes, env.current, syms, e).errs
    decreases e, 1
  {
    var tx := VisitExpr(VariableV, log, env, syms, e.operand);
    if e.op == Neg {
      if tx != INTEGER {
        log.Add(VariableRules.NegationMessage(tx), e.at.line, e.at.column);
      }
      t := INTEGER;
    } else {
      if tx != BOOLEAN {
        log.Add(VariableRules.NotMessage(tx), e.at.line, e.at.column);
      }
      t := BOOLEAN;
    }
  }

  /** VariableVisitor.visitIdentifierExpr. */
  method VisitIdent(log: ErrorLog, env: ScopeTree, ghost syms: set<Symbol>, at: Pos, n: string) returns (t: string)
    requires Ready(env.scopes, env.current, syms)
    modifies log
    ensures t == IdentType(env.scopes, env.current, syms, at, n).ty
    ensures log.items == old(log.items) + IdentType(env.scopes, env.current, syms, at, n).errs
  {
    var found := Obtain(env.scopes, env.current, n);
    if found.None? {
      log.Add(UndeclaredVariableMessage(n), at.line, at.column);
      t := ERROR;
    } else if found.value.enclosingClassName.Some? {
      log.Add(MemberWithoutObjectMessage(n, found.value.enclosingClassName.value), at.line, at.column);
      t := ERROR;
    } else {
      t := found.value.ty;
    }
  }

  /** VariableVisitor.visitNewExpr. */
  method VisitNew(log: ErrorLog, env: ScopeTree, ghost syms: set<Symbol>, at: Pos, c: string) returns (t: string)
    requires Ready(env.scopes, env.current, syms)
    modifies log
    ensures t == NewType(env.scopes, env.current, syms, at, c).ty
    ensures log.items == old(log.items) + NewType(env.scopes, env.current, syms, at, c).errs
  {
    var found := Obtain(env.scopes, env.current, c);
    if found.None? || found.value.kind != CLASS {
      log.Add(MissingClassMessage(c), at.line, at.column);
      t := UNKNOWN;
    } else {
      t := c;
    }
  }

  /** A chain: visit the first operand, then fold the links. */
  method VisitChain(vis: Visitor, rule: Rule, log: ErrorLog, env: ScopeTree, ghost syms: set<Symbol>, e: Expr)
    returns (t: string)
    requires Ready(env.scopes, env.current, syms)
    requires e.Chain?
    modifies log
    ensures var r := FoldLinks(vis, rule, env.scopes, env.current, syms, e.at, TypeOf(vis, env.scopes, env.current, syms, e.first), e.rest);
      t == r.ty && log.items == old(log.items) + r.errs
    decreases e, 2
  {
    ghost var base := log.items;
    t := VisitExpr(vis, log, env, syms, e.first);
    t := VisitLinks(vis, rule, log, env, syms, e, base, TypeOf(vis, env.scopes, env.current, syms, e.first), t);
  }

  /** The loop over a chain's links, carrying the left type (VariableVisitor's and LogicalVisitor's for-loops). */
  method VisitLinks(vis: Visitor, rule: Rule, log: ErrorLog, env: ScopeTree, ghost syms: set<Symbol>, e: Expr,
                    ghost base: seq<SemanticError>, ghost acc: Typed, first: string) returns (t: string)
    requires Ready(env.scopes, env.current, syms)
    requires e.Chain? && first == acc.ty && log.items == base + acc.errs
    modifies log
    ensures var r := FoldLinks(vis, rule, env.scopes, env.current, syms, e.at, acc, e.rest);
      t == r.ty && log.items == base + r.errs
    decreases e, 1
  {
    ghost var s, cur := env.scopes, env.current;
    var rest := e.rest;
    t := first;
    var i := 0;
    while i < |rest|
      invariant 0 <= i <= |rest|
      invariant t == FoldLinks(vis, rule, s, cur, syms, e.at, acc, rest[..i]).ty
      invariant log.items == base + FoldLinks(vis, rule, s, cur, syms, e.at, acc, rest[..i]).errs
    {
      t := VisitLink(vis, rule, log, env, syms, e, base, acc, i, t);
      i := i + 1;
    }
    assert rest[..|rest|] == rest;
  }

  /** Folding one more link: the step's type, and the operand's and the step's errors appended. */
  lemma LinkFolded(vis: Visitor, rule: Rule, s: seq<Scope>, cur: nat, syms: set<Symbol>, at: Pos, acc: Typed,
                   rest: seq<Link>, i: nat, base: seq<SemanticError>, t: string, items: seq<SemanticError>)
    requires Ready(s, cur, syms) && i < |rest|
    requires var prev := FoldLinks(vis, rule, s, cur, syms, at, acc, rest[..i]);
      var right := TypeOf(vis, s, cur, syms, rest[i].operand);
      var st := StepOf(rule, rest[i].op, prev.ty, right.ty, Text(rest[i].operand));
      t == st.ty && items == base + prev.errs + right.errs + Report(at, st.msgs)
    ensures var next := FoldLinks(vis, rule, s, cur, syms, at, acc, rest[..i + 1]);
      t == next.ty && items == base + next.errs
  {
    var prev := FoldLinks(vis, rule, s, cur, syms, at, acc, rest[..i]);
    var right := TypeOf(vis, s, cur, syms, rest[i].operand);
    var st := StepOf(rule, rest[i].op, prev.ty, right.ty, Text(rest[i].operand));
    FoldLinksStep(vis, rule, s, cur, syms, at, acc, rest, i);
    SeqAssoc(base, prev.errs, right.errs, Report(at, st.msgs));
  }

  /** One iteration of the loop over a chain's links. */
  method VisitLink(vis: Visitor, rule: Rule, log: ErrorLog, env: ScopeTree, ghost syms: set<Symbol>, e: Expr,
                   ghost base: seq<SemanticError>, ghost acc: Typed, i: nat, left: string)
    returns (t: string)
    requires Ready(env.scopes, env.current, syms)
    requires e.Chain? && i < |e.rest|
    requires var prev := FoldLinks(vis, rule, env.scopes, env.current, syms, e.at, acc, e.rest[..i]);
      left == prev.ty && log.items == base + prev.errs
    modifies log
    ensures var next := FoldLinks(vis, rule, env.scopes, env.current, syms, e.at, acc, e.rest[..i + 1]);
      t == next.ty && log.items == base + next.errs
    decreases e, 0
  {
    t := LinkStep(vis, rule, log, env, syms, e.at, e.rest[i], left);
    LinkFolded(vis, rule, env.scopes, env.current, syms, e.at, acc, e.rest, i, base, t, log.items);
  }

  /** Visit a link's operand, then apply the step to the carried left type. */
  method LinkStep(vis: Visitor, rule: Rule, log: ErrorLog, env: ScopeTree, ghost syms: set<Symbol>, at: Pos,
                   link: Link, left: string)
    returns (t: string)
    requires Ready(env.scopes, env.current, syms)
    modifies log
    ensures var right := TypeOf(vis, env.scopes, env.current, syms, link.operand);
      var st := StepOf(rule, link.op, left, right.ty, Text(link.operand));
      t == st.ty && log.items == old(log.items) + right.errs + Report(at, st.msgs)
    decreases link
  {
    var right := VisitExpr(vis, log, env, syms, link.operand);
    t := ApplyStep(rule, log, at, link.op, left, right, Text(link.operand));
  }

  /** FunctionsVisitor.visitCallExpr: callee, kind and arity checks, then one check per argument. */
  method VisitCall(log: ErrorLog, env: ScopeTree, ghost syms: set<Symbol>, at: Pos, f: string, args: seq<Expr>)
    returns (t: string)
    requires Ready(env.scopes, env.current, syms)
    modifies log
    ensures t == CallType(env.scopes, env.current, syms, at, f, args).ty
    ensures log.items == old(log.items) + CallType(env.scopes, env.current, syms, at, f, args).errs
    decreases args, 2
  {
    var found := Obtain(env.scopes, env.current, f);
    if found.None? {
      log.Add(FunctionRules.UndeclaredFunctionMessage(f), at.line, at.column);
      return ERROR;
    }
    var fn := found.value;
    if fn.kind != FUNCTION {
      log.Add(FunctionRules.NotAFunctionMessage(f), at.line, at.column);
      return ERROR;
    }
    var expectedArgs := fn.ParameterCount();
    if expectedArgs != |args| {
      log.Add(FunctionRules.ArityMessage(f, expectedArgs, |args|), at.line, at.column);
      return ERROR;
    }
    var ps := fn.params;
    assert fn in syms;
    VisitArguments(log, env, syms, at, f, ps, args);
    t := fn.ty;
  }

  /** The argument loop of visitCallExpr, once the arity is known to match. */
  method VisitArguments(log: ErrorLog, env: ScopeTree, ghost syms: set<Symbol>, at: Pos, f: string, ps: seq<Symbol>, args: seq<Expr>)
    requires Ready(env.scopes, env.current, syms)
    requires |ps| == |args|
    requires forall k :: 0 <= k < |ps| ==> ps[k] in syms
    modifies log
    ensures log.items == old(log.items) + ArgErrors(env.scopes, env.current, syms, at, f, ps, args)
    decreases args, 1
  {
    ghost var base := log.items;
    var i := 0;
    while i < |args|
      invariant 0 <= i <= |args|
      invariant log.items == base + ArgErrors(env.scopes, env.current, syms, at, f, ps[..i], args[..i])
    {
      CheckArgument(log, env, syms, at, f, ps, args, base, i);
      i := i + 1;
    }
    assert ps[..|args|] == ps && args[..|args|] == args;
  }

  /** Report argument i of a call to f whose type is not compatible with its parameter's. */
  method CheckArgumentType(log: ErrorLog, at: Pos, f: string, i: nat, expected: string, actual: string)
    modifies log
    ensures log.items == old(log.items) + if FunctionRules.TypesCompatible(actual, expected) then []
      else Report(at, [FunctionRules.ArgumentMessage(i, f, expected, actual)])
  {
    if !FunctionRules.TypesCompatible(actual, expected) {
      log.Add(FunctionRules.ArgumentMessage(i, f, expected, actual), at.line, at.column);
    }
  }

  /** One iteration of the argument loop: visit the argument, then compare with the parameter's type. */
  method CheckArgument(log: ErrorLog, env: ScopeTree, ghost syms: set<Symbol>, at: Pos, f: string,
                       ps: seq<Symbol>, args: seq<Expr>, ghost base: seq<SemanticError>, i: nat)
    requires Ready(env.scopes, env.current, syms)
    requires |ps| == |args| && i < |args|
    requires forall k :: 0 <= k < |ps| ==> ps[k] in syms
    requires log.items == base + ArgErrors(env.scopes, env.current, syms, at, f, ps[..i], args[..i])
    modifies log
    ensures log.items == base + ArgErrors(env.scopes, env.current, syms, at, f, ps[..i + 1], args[..i + 1])
    decreases args, 0
  {
    ghost var s, cur := env.scopes, env.current;
    ghost var log0 := log.items;
    ghost var prev := ArgErrors(s, cur, syms, at, f, ps[..i], args[..i]);
    ghost var next := ArgErrors(s, cur, syms, at, f, ps[..i + 1], args[..i + 1]);
    ghost var r := TypeOf(VariableV, s, cur, syms, args[i]);
    ghost var expected := ps[i].ty;
    ArgErrorsStep(s, cur, syms, at, f, ps, args, i);
    var actual := VisitExpr(VariableV, log, env, syms, args[i]);
    assert actual == r.ty && log.items == log0 + r.errs;
    ghost var tail := if FunctionRules.TypesCompatible(r.ty, expected) then []
      else Report(at, [FunctionRules.ArgumentMessage(i, f, expected, r.ty)]);
    assert next == prev + r.errs + tail;
    CheckArgumentType(log, at, f, i, ps[i].ty, actual);
    SeqAssoc(base, prev, r.errs, tail);
    assert ArgErrors(s, cur, syms, at, f, ps[..i + 1], args[..i + 1]) == next;
  }
}

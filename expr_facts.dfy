/**
 * What the expression visitors promise: arithmetic and logical chains
 * are well typed exactly when every operand is, comparison chains are
 * boolean, each step reports a bounded number of errors, and a call
 * reports one error per ill-typed argument.
 */
module ExprFacts {
  import opened Options
  import opened Types
  import opened Errors
  import opened Syntax
  import opened Symbols
  import opened Scopes
  import opened ExprTypes
  import FunctionRules

  /** Every operand of the links has type t under the visitor. */
  ghost predicate AllOperandsHave(vis: Visitor, s: seq<Scope>, cur: nat, syms: set<Symbol>, rest: seq<Link>, t: string)
    requires Ready(s, cur, syms)
    reads syms`params, syms`enclosingClassName
  {
    forall k :: 0 <= k < |rest| ==> TypeOf(vis, s, cur, syms, rest[k].operand).ty == t
  }

  lemma {:induction false} FoldArithmetic(rule: Rule, s: seq<Scope>, cur: nat, syms: set<Symbol>, at: Pos, acc: Typed, rest: seq<Link>)
    requires Ready(s, cur, syms)
    requires rule == AdditiveRule || rule == MultiplicativeRule
    requires |rest| > 0
    ensures var r := FoldLinks(VariableV, rule, s, cur, syms, at, acc, rest);
      (r.ty == INTEGER <==> acc.ty == INTEGER && AllOperandsHave(VariableV, s, cur, syms, rest, INTEGER))
      && (r.ty != INTEGER ==> r.ty == UNKNOWN)
  {
    var n := |rest| - 1;
    ArithmeticLastLink(rule, s, cur, syms, at, acc, rest);
    OperandsSplit(VariableV, s, cur, syms, rest, INTEGER);
    if n > 0 {
      FoldArithmetic(rule, s, cur, syms, at, acc, rest[..n]);
    } else {
      assert rest[..n] == [];
    }
  }

  /** The operands of a non-empty run of links: those of all but the last, and the last one. */
  lemma OperandsSplit(vis: Visitor, s: seq<Scope>, cur: nat, syms: set<Symbol>, rest: seq<Link>, t: string)
    requires Ready(s, cur, syms)
    requires |rest| > 0
    ensures var n := |rest| - 1;
      AllOperandsHave(vis, s, cur, syms, rest, t)
      <==> AllOperandsHave(vis, s, cur, syms, rest[..n], t) && TypeOf(vis, s, cur, syms, rest[n].operand).ty == t
  {
    var n := |rest| - 1;
    assert forall k :: 0 <= k < n ==> rest[..n][k] == rest[k];
  }

  /** The last link of an arithmetic fold is integer exactly when the fold before it and its operand are. */
  lemma ArithmeticLastLink(rule: Rule, s: seq<Scope>, cur: nat, syms: set<Symbol>, at: Pos, acc: Typed, rest: seq<Link>)
    requires Ready(s, cur, syms)
    requires rule == AdditiveRule || rule == MultiplicativeRule
    requires |rest| > 0
    ensures var n := |rest| - 1;
      var prev := FoldLinks(VariableV, rule, s, cur, syms, at, acc, rest[..n]);
      var right := TypeOf(VariableV, s, cur, syms, rest[n].operand);
      FoldLinks(VariableV, rule, s, cur, syms, at, acc, rest).ty
        == if prev.ty == INTEGER && right.ty == INTEGER then INTEGER else UNKNOWN
  {
  }

  /**
   * A `+`/`-` or `*`/`/`/`%` chain of two or more operands is "integer"
   * exactly when every operand is, and "desconocido" otherwise, whichever
   * visitor reaches it.
   */
  lemma ArithmeticChainType(vis: Visitor, s: seq<Scope>, cur: nat, syms: set<Symbol>, e: Expr)
    requires Ready(s, cur, syms)
    requires e.Chain? && (e.level == AddLevel || e.level == MulLevel) && |e.rest| > 0
    ensures TypeOf(vis, s, cur, syms, e) == TypeOf(VariableV, s, cur, syms, e)
    ensures var t := TypeOf(vis, s, cur, syms, e).ty;
      (t == INTEGER <==> TypeOf(VariableV, s, cur, syms, e.first).ty == INTEGER
                         && AllOperandsHave(VariableV, s, cur, syms, e.rest, INTEGER))
      && (t != INTEGER ==> t == UNKNOWN)
  {
    var rule := if e.level == AddLevel then AdditiveRule else MultiplicativeRule;
    FoldArithmetic(rule, s, cur, syms, e.at, TypeOf(VariableV, s, cur, syms, e.first), e.rest);
  }

  lemma {:induction false} FoldLogic(s: seq<Scope>, cur: nat, syms: set<Symbol>, at: Pos, acc: Typed, rest: seq<Link>)
    requires Ready(s, cur, syms)
    requires |rest| > 0
    ensures var r := FoldLinks(LogicalV, LogicOpRule, s, cur, syms, at, acc, rest);
      (r.ty == BOOLEAN <==> acc.ty == BOOLEAN && AllOperandsHave(LogicalV, s, cur, syms, rest, BOOLEAN))
      && (r.ty != BOOLEAN ==> r.ty == UNKNOWN)
  {
    var n := |rest| - 1;
    LogicLastLink(s, cur, syms, at, acc, rest);
    OperandsSplit(LogicalV, s, cur, syms, rest, BOOLEAN);
    if n > 0 {
      FoldLogic(s, cur, syms, at, acc, rest[..n]);
    } else {
      assert rest[..n] == [];
    }
  }

  /** The last link of a logical fold is boolean exactly when the fold before it and its operand are. */
  lemma LogicLastLink(s: seq<Scope>, cur: nat, syms: set<Symbol>, at: Pos, acc: Typed, rest: seq<Link>)
    requires Ready(s, cur, syms)
    requires |rest| > 0
    ensures var n := |rest| - 1;
      var prev := FoldLinks(LogicalV, LogicOpRule, s, cur, syms, at, acc, rest[..n]);
      var right := TypeOf(LogicalV, s, cur, syms, rest[n].operand);
      FoldLinks(LogicalV, LogicOpRule, s, cur, syms, at, acc, rest).ty
        == if prev.ty == BOOLEAN && right.ty == BOOLEAN then BOOLEAN else UNKNOWN
  {
  }

  /**
   * Under LogicalVisitor an `||`/`&&` chain of two or more operands is
   * "boolean" exactly when every operand is, and "desconocido" otherwise.
   */
  lemma LogicalChainType(s: seq<Scope>, cur: nat, syms: set<Symbol>, e: Expr)
    requires Ready(s, cur, syms)
    requires e.Chain? && (e.level == OrLevel || e.level == AndLevel) && |e.rest| > 0
    ensures var t := TypeOf(LogicalV, s, cur, syms, e).ty;
      (t == BOOLEAN <==> TypeOf(LogicalV, s, cur, syms, e.first).ty == BOOLEAN
                         && AllOperandsHave(LogicalV, s, cur, syms, e.rest, BOOLEAN))
      && (t != BOOLEAN ==> t == UNKNOWN)
  {
    FoldLogic(s, cur, syms, e.at, TypeOf(LogicalV, s, cur, syms, e.first), e.rest);
  }

  /** Errors the operands of the links report themselves. */
  function OperandErrors(vis: Visitor, s: seq<Scope>, cur: nat, syms: set<Symbol>, rest: seq<Link>): (n: nat)
    requires Ready(s, cur, syms)
    reads syms`params, syms`enclosingClassName
  {
    if rest == [] then 0
    else OperandErrors(vis, s, cur, syms, rest[..|rest| - 1]) + |TypeOf(vis, s, cur, syms, rest[|rest| - 1].operand).errs|
  }

  /** Each `||`/`&&` step adds at most two errors of its own: n operands add at most 2(n-1). */
  lemma {:induction false} LogicalChainErrorBound(s: seq<Scope>, cur: nat, syms: set<Symbol>, at: Pos, acc: Typed, rest: seq<Link>)
    requires Ready(s, cur, syms)
    ensures |FoldLinks(LogicalV, LogicOpRule, s, cur, syms, at, acc, rest).errs|
            <= |acc.errs| + OperandErrors(LogicalV, s, cur, syms, rest) + 2 * |rest|
  {
    if rest != [] {
      LogicalChainErrorBound(s, cur, syms, at, acc, rest[..|rest| - 1]);
    }
  }

  /**
   * Under ComparisonVisitor and LogicalVisitor, an equality or relational
   * chain of two or more operands is "boolean"; under ComparisonVisitor an
   * `||`/`&&` chain has its last operand's type.
   */
  lemma ComparisonChainType(vis: Visitor, s: seq<Scope>, cur: nat, syms: set<Symbol>, e: Expr)
    requires Ready(s, cur, syms)
    requires e.Chain? && vis != VariableV && |e.rest| > 0
    ensures e.level == EqLevel || e.level == RelLevel ==> TypeOf(vis, s, cur, syms, e).ty == BOOLEAN
    ensures vis == ComparisonV && (e.level == OrLevel || e.level == AndLevel) ==>
      TypeOf(vis, s, cur, syms, e).ty == TypeOf(vis, s, cur, syms, e.rest[|e.rest| - 1].operand).ty
  {
  }

  /**
   * VariableVisitor forwards the first operand of `||`, `&&`, equality and
   * relational levels and the condition of `?:`, reporting nothing else;
   * every level below relational is typed the same by all three visitors.
   */
  lemma VariableForwarding(vis: Visitor, s: seq<Scope>, cur: nat, syms: set<Symbol>, e: Expr)
    requires Ready(s, cur, syms)
    ensures e.Chain? && e.level != AddLevel && e.level != MulLevel ==>
      TypeOf(VariableV, s, cur, syms, e) == TypeOf(VariableV, s, cur, syms, e.first)
    ensures e.Ternary? ==> TypeOf(VariableV, s, cur, syms, e) == TypeOf(VariableV, s, cur, syms, e.cond)
    ensures !e.Chain? && !e.Ternary? && !e.AssignExpr? ==> TypeOf(vis, s, cur, syms, e) == TypeOf(VariableV, s, cur, syms, e)
  {
  }

  /** Errors the arguments report themselves. */
  function ArgumentOwnErrors(s: seq<Scope>, cur: nat, syms: set<Symbol>, args: seq<Expr>): (n: nat)
    requires Ready(s, cur, syms)
    reads syms`params, syms`enclosingClassName
  {
    if args == [] then 0
    else ArgumentOwnErrors(s, cur, syms, args[..|args| - 1]) + |TypeOf(VariableV, s, cur, syms, args[|args| - 1]).errs|
  }

  /** Arguments whose type fits neither the parameter's type nor "ERROR". */
  function Mismatches(s: seq<Scope>, cur: nat, syms: set<Symbol>, ps: seq<Symbol>, args: seq<Expr>): (n: nat)
    requires Ready(s, cur, syms)
    requires |ps| == |args|
    requires forall k :: 0 <= k < |ps| ==> ps[k] in syms
    reads syms`params, syms`enclosingClassName
  {
    if args == [] then 0
    else
      var n := |args| - 1;
      Mismatches(s, cur, syms, ps[..n], args[..n])
        + (if FunctionRules.TypesCompatible(TypeOf(VariableV, s, cur, syms, args[n]).ty, ps[n].ty) then 0 else 1)
  }

  lemma {:induction false} ArgErrorsCount(s: seq<Scope>, cur: nat, syms: set<Symbol>, at: Pos, f: string, ps: seq<Symbol>, args: seq<Expr>)
    requires Ready(s, cur, syms)
    requires |ps| == |args|
    requires forall k :: 0 <= k < |ps| ==> ps[k] in syms
    ensures |ArgErrors(s, cur, syms, at, f, ps, args)| == ArgumentOwnErrors(s, cur, syms, args) + Mismatches(s, cur, syms, ps, args)
  {
    if args != [] {
      var n := |args| - 1;
      ArgErrorsCount(s, cur, syms, at, f, ps[..n], args[..n]);
    }
  }

  /**
   * A call to an undeclared name, to a non-function or with the wrong
   * number of arguments reports exactly one error and has type "ERROR";
   * otherwise it has the function's declared type and reports one error
   * per ill-typed argument besides the arguments' own.
   */
  lemma CallChecks(s: seq<Scope>, cur: nat, syms: set<Symbol>, at: Pos, f: string, args: seq<Expr>)
    requires Ready(s, cur, syms)
    ensures var r := CallType(s, cur, syms, at, f, args);
      match Obtain(s, cur, f)
      case None => r == Typed(ERROR, [SemanticError(FunctionRules.UndeclaredFunctionMessage(f), at.line, at.column)])
      case Some(fn) =>
        if fn.kind != FUNCTION then r == Typed(ERROR, [SemanticError(FunctionRules.NotAFunctionMessage(f), at.line, at.column)])
        else if |fn.params| != |args| then
          r == Typed(ERROR, [SemanticError(FunctionRules.ArityMessage(f, |fn.params|, |args|), at.line, at.column)])
        else r.ty == fn.ty && |r.errs| == ArgumentOwnErrors(s, cur, syms, args) + Mismatches(s, cur, syms, fn.params, args)
  {
    var found := Obtain(s, cur, f);
    if found.Some? && found.value.kind == FUNCTION && |found.value.params| == |args| {
      ArgErrorsCount(s, cur, syms, at, f, found.value.params, args);
    }
  }

  /**
   * `-x` is integer and `!x` boolean whatever x is; each adds nothing to
   * x's own errors exactly when x already has the required type.
   */
  lemma UnaryOperators(vis: Visitor, s: seq<Scope>, cur: nat, syms: set<Symbol>, at: Pos, x: Expr)
    requires Ready(s, cur, syms)
    ensures var tx := TypeOf(VariableV, s, cur, syms, x);
      var neg := TypeOf(vis, s, cur, syms, Unary(at, Neg, x));
      neg.ty == INTEGER && (neg.errs == tx.errs <==> tx.ty == INTEGER) && |neg.errs| <= |tx.errs| + 1
    ensures var tx := TypeOf(VariableV, s, cur, syms, x);
      var not := TypeOf(vis, s, cur, syms, Unary(at, Not, x));
      not.ty == BOOLEAN && (not.errs == tx.errs <==> tx.ty == BOOLEAN) && |not.errs| <= |tx.errs| + 1
  {
  }

  /** Applying the same unary operator twice reports nothing beyond the inner application. */
  lemma UnaryTwice(vis: Visitor, s: seq<Scope>, cur: nat, syms: set<Symbol>, outer: Pos, inner: Pos, op: UnaryOp, x: Expr)
    requires Ready(s, cur, syms)
    ensures TypeOf(vis, s, cur, syms, Unary(outer, op, Unary(inner, op, x))) == TypeOf(VariableV, s, cur, syms, Unary(inner, op, x))
  {
  }

  /**
   * `x = v` as an expression has v's type; it reports x's lookup error,
   * if any, before v's errors, and nothing about the assignment itself.
   */
  lemma AssignmentExpression(vis: Visitor, s: seq<Scope>, cur: nat, syms: set<Symbol>, at: Pos, x: string, v: Expr)
    requires Ready(s, cur, syms)
    ensures var r := TypeOf(vis, s, cur, syms, AssignExpr(at, x, v));
      var tv := TypeOf(vis, s, cur, syms, v);
      && r.ty == tv.ty
      && (Obtain(s, cur, x).Some? && Obtain(s, cur, x).value.enclosingClassName.None? ==> r.errs == tv.errs)
      && (Obtain(s, cur, x).None? ==> r.errs == [SemanticError(UndeclaredVariableMessage(x), at.line, at.column)] + tv.errs)
  {
  }

  /** In `x = y = v` both targets are looked up and the whole has v's type. */
  lemma AssignmentChainType(vis: Visitor, s: seq<Scope>, cur: nat, syms: set<Symbol>, at: Pos, x: string, at2: Pos, y: string, v: Expr)
    requires Ready(s, cur, syms)
    ensures var r := TypeOf(vis, s, cur, syms, AssignExpr(at, x, AssignExpr(at2, y, v)));
      var tv := TypeOf(vis, s, cur, syms, v);
      r.ty == tv.ty
      && r.errs == IdentType(s, cur, syms, at, x).errs + IdentType(s, cur, syms, at2, y).errs + tv.errs
  {
  }

  /** Two places in scope trees where every name resolves to the same symbol. */
  ghost predicate SameLookups(a: seq<Scope>, ca: nat, b: seq<Scope>, cb: nat)
    requires WellFormed(a) && ca < |a| && WellFormed(b) && cb < |b|
  {
    forall n :: Obtain(a, ca, n) == Obtain(b, cb, n)
  }

  /**
   * Typing depends on the scope tree only through lookups: where every
   * name resolves alike, every visitor gives every expression the same
   * type and the same errors.
   */
  lemma {:induction false} TypeOfSameLookups(vis: Visitor, a: seq<Scope>, ca: nat, sa: set<Symbol>, b: seq<Scope>, cb: nat, sb: set<Symbol>, e: Expr)
    requires Ready(a, ca, sa) && Ready(b, cb, sb) && SameLookups(a, ca, b, cb)
    ensures TypeOf(vis, a, ca, sa, e) == TypeOf(vis, b, cb, sb, e)
    decreases e, 2
  {
    match e
    case Chain(at, level, first, rest) =>
      TypeOfSameLookups(vis, a, ca, sa, b, cb, sb, first);
      var rule := ChainRule(vis, level);
      if rule.Some? {
        var ov := OperandVisitor(vis, level);
        TypeOfSameLookups(ov, a, ca, sa, b, cb, sb, first);
        FoldLinksSameLookups(ov, rule.value, a, ca, sa, b, cb, sb, at, TypeOf(ov, a, ca, sa, first), rest);
      }
    case Ternary(_, c, x, y) =>
      TypeOfSameLookups(vis, a, ca, sa, b, cb, sb, c);
      TypeOfSameLookups(vis, a, ca, sa, b, cb, sb, x);
      TypeOfSameLookups(vis, a, ca, sa, b, cb, sb, y);
    case Unary(_, _, x) =>
      TypeOfSameLookups(VariableV, a, ca, sa, b, cb, sb, x);
    case Literal(_, _) =>
    case Ident(at, n) =>
      assert Obtain(a, ca, n) == Obtain(b, cb, n);
    case This(_) =>
    case Call(at, f, args) =>
      CallTypeSameLookups(a, ca, sa, b, cb, sb, at, f, args);
    case New(at, c, _) =>
      assert Obtain(a, ca, c) == Obtain(b, cb, c);
    case Paren(_, x) =>
      TypeOfSameLookups(VariableV, a, ca, sa, b, cb, sb, x);
    case AssignExpr(at, x, v) =>
      assert Obtain(a, ca, x) == Obtain(b, cb, x);
      TypeOfSameLookups(vis, a, ca, sa, b, cb, sb, v);
  }

  lemma {:induction false} FoldLinksSameLookups(vis: Visitor, rule: Rule, a: seq<Scope>, ca: nat, sa: set<Symbol>, b: seq<Scope>, cb: nat, sb: set<Symbol>,
                                                at: Pos, acc: Typed, rest: seq<Link>)
    requires Ready(a, ca, sa) && Ready(b, cb, sb) && SameLookups(a, ca, b, cb)
    ensures FoldLinks(vis, rule, a, ca, sa, at, acc, rest) == FoldLinks(vis, rule, b, cb, sb, at, acc, rest)
    decreases rest
  {
    if rest != [] {
      FoldLinksSameLookups(vis, rule, a, ca, sa, b, cb, sb, at, acc, rest[..|rest| - 1]);
      TypeOfSameLookups(vis, a, ca, sa, b, cb, sb, rest[|rest| - 1].operand);
    }
  }

  lemma {:induction false} CallTypeSameLookups(a: seq<Scope>, ca: nat, sa: set<Symbol>, b: seq<Scope>, cb: nat, sb: set<Symbol>,
                                               at: Pos, f: string, args: seq<Expr>)
    requires Ready(a, ca, sa) && Ready(b, cb, sb) && SameLookups(a, ca, b, cb)
    ensures CallType(a, ca, sa, at, f, args) == CallType(b, cb, sb, at, f, args)
    decreases args, 1
  {
    assert Obtain(a, ca, f) == Obtain(b, cb, f);
    match Obtain(a, ca, f)
    case None =>
    case Some(fn) =>
      if fn.kind == FUNCTION && |fn.params| == |args| {
        ArgErrorsSameLookups(a, ca, sa, b, cb, sb, at, f, fn.params, args);
      }
  }

  lemma {:induction false} ArgErrorsSameLookups(a: seq<Scope>, ca: nat, sa: set<Symbol>, b: seq<Scope>, cb: nat, sb: set<Symbol>,
                                                at: Pos, f: string, ps: seq<Symbol>, args: seq<Expr>)
    requires Ready(a, ca, sa) && Ready(b, cb, sb) && SameLookups(a, ca, b, cb)
    requires |ps| == |args|
    requires forall k :: 0 <= k < |ps| ==> ps[k] in sa && ps[k] in sb
    ensures ArgErrors(a, ca, sa, at, f, ps, args) == ArgErrors(b, cb, sb, at, f, ps, args)
    decreases args, 0
  {
    if args != [] {
      var n := |args| - 1;
      ArgErrorsSameLookups(a, ca, sa, b, cb, sb, at, f, ps[..n], args[..n]);
      TypeOfSameLookups(VariableV, a, ca, sa, b, cb, sb, args[n]);
    }
  }
}

/**
 * The statement walk of SemanticVisitor, together with the parts of
 * VariableVisitor, FunctionsVisitor and ClassesListener it hands
 * declarations to. All of them share one error list and one scope tree;
 * the listener's current class and the functions visitor's current
 * function are fields here. Expressions are typed by the visitors of
 * ExprVisitors, proved against ExprTypes.TypeOf.
 */
module Analyzer {
  import opened Options
  import opened Strings
  import opened Types
  import opened Errors
  import opened Syntax
  import opened Symbols
  import opened Scopes
  import opened ExprTypes
  import opened ExprVisitors
  import opened VariableRules
  import opened FunctionRules
  import opened WalkerRules
  import opened ClassRules
  import opened ExprFacts

  /** The error a check reports at a construct's start. */
  function ErrorAt(message: string, at: Pos): SemanticError {
    SemanticError(message, at.line, at.column)
  }

  /** The written annotation as the checker records it: the type's text. */
  function Annotation(t: Option<TypeSyntax>): Option<string> {
    if t.Some? then Some(TypeText(t.value)) else None
  }

  /** The type an optional typing found, if any. */
  function FoundType(typed: Option<Typed>): Option<string> {
    if typed.Some? then Some(typed.value.ty) else None
  }

  /** The errors an optional typing reported, if any. */
  function FoundErrors(typed: Option<Typed>): seq<SemanticError> {
    if typed.Some? then typed.value.errs else []
  }

  /** The VariableVisitor typing of an optional initializer at scope cur of s. */
  ghost function InitTypedAt(s: seq<Scope>, cur: nat, syms: set<Symbol>, init: Option<Expr>): Option<Typed>
    requires Ready(s, cur, syms)
    reads syms`params, syms`enclosingClassName
  {
    if init.Some? then Some(TypeOf(VariableV, s, cur, syms, init.value)) else None
  }

  /** The errors of a variable's initializer: its own, then a mismatch with the annotation. */
  ghost function InitializerErrors(s: seq<Scope>, cur: nat, syms: set<Symbol>, d: VarDecl): seq<SemanticError>
    requires Ready(s, cur, syms)
    reads syms`params, syms`enclosingClassName
  {
    var typed := InitTypedAt(s, cur, syms, d.init);
    var ann := Annotation(d.ann);
    FoundErrors(typed)
      + (if InitMismatch(ann, FoundType(typed))
         then [ErrorAt(VariableMismatchMessage(d.name, ann.value, FoundType(typed).value), d.at)] else [])
  }

  /**
   * The errors of a variable declaration: inside a class (cls) a name
   * already among the members, elsewhere a name already in scope cur,
   * is the only error; any other declaration reports its initializer's.
   */
  ghost function VarDeclErrors(s: seq<Scope>, cur: nat, syms: set<Symbol>, cls: Symbol?, d: VarDecl): seq<SemanticError>
    requires Ready(s, cur, syms)
    reads syms`params, syms`enclosingClassName, cls
  {
    if cls != null && d.name in cls.members then [ErrorAt(DuplicateMemberMessage(d.name, cls.name), d.at)]
    else if cls == null && ExistsLocal(s, cur, d.name) then [ErrorAt(DuplicateVariableMessage(d.name), d.at)]
    else InitializerErrors(s, cur, syms, d)
  }

  /**
   * The errors of a class constant: a name already among the members, and
   * then a missing initializer, is the only error; otherwise the
   * initializer's own errors, then a mismatch with the annotation.
   */
  ghost function ClassConstErrors(s: seq<Scope>, cur: nat, syms: set<Symbol>, cls: Symbol, d: ConstDecl): seq<SemanticError>
    requires Ready(s, cur, syms)
    reads syms`params, syms`enclosingClassName, cls
  {
    if d.name in cls.members then [ErrorAt(DuplicateClassConstantMessage(d.name), d.at)]
    else if d.init.None? then [ErrorAt(UninitializedConstantMessage(d.name), d.at)]
    else
      var typed := TypeOf(VariableV, s, cur, syms, d.init.value);
      var ann := Annotation(d.ann);
      typed.errs + (if InitMismatch(ann, Some(typed.ty)) then [ErrorAt(ConstantMismatchMessage(d.name, ann.value, typed.ty), d.at)] else [])
  }

  /**
   * The errors of an assignment statement: an undeclared or constant
   * target is the only error; otherwise the first expression's errors,
   * then a mismatch with the target's type.
   */
  ghost function AssignmentErrors(s: seq<Scope>, cur: nat, syms: set<Symbol>, a: Assignment): seq<SemanticError>
    requires Ready(s, cur, syms)
    reads syms`params, syms`enclosingClassName
  {
    var name := AssignedName(a);
    var sym := Obtain(s, cur, name);
    if sym.None? then [ErrorAt(UndeclaredAssignmentMessage(name), a.at)]
    else if !sym.value.mutable then [ErrorAt(ConstantAssignmentMessage(name), a.at)]
    else
      var typed := TypeOf(VariableV, s, cur, syms, FirstExpression(a));
      typed.errs
        + (if AssignmentMismatch(sym.value.ty, typed.ty)
           then [ErrorAt(AssignmentMismatchMessage(name, sym.value.ty, typed.ty), a.at)] else [])
  }

  /** The errors of a for loop's initializer. */
  ghost function ForInitErrors(s: seq<Scope>, cur: nat, syms: set<Symbol>, cls: Symbol?, init: ForInit): seq<SemanticError>
    requires Ready(s, cur, syms)
    reads syms`params, syms`enclosingClassName, cls
  {
    match init
    case NoInit => []
    case InitDecl(d) => VarDeclErrors(s, cur, syms, cls, d)
    case InitAssign(a) => AssignmentErrors(s, cur, syms, a)
  }

  /**
   * The errors of a for header after its initializer: the condition check
   * on the first expression written (the update when the condition is
   * omitted), then the update's own errors when both are written.
   */
  ghost function ForCheckErrors(s: seq<Scope>, cur: nat, syms: set<Symbol>, st: Stmt): seq<SemanticError>
    requires Ready(s, cur, syms) && st.For?
    reads syms`params, syms`enclosingClassName
  {
    ConditionErrors("for", s, cur, syms, st.at, if st.cond.Some? then st.cond else st.update)
      + (if st.cond.Some? && st.update.Some? then TypeOf(VariableV, s, cur, syms, st.update.value).errs else [])
  }

  /**
   * The errors of a foreach's binding: the iterable's, then one when its
   * type is not an array type.
   */
  ghost function ForeachBindingErrors(s: seq<Scope>, cur: nat, syms: set<Symbol>, st: Stmt): seq<SemanticError>
    requires Ready(s, cur, syms) && st.Foreach?
    reads syms`params, syms`enclosingClassName
  {
    var it := TypeOf(VariableV, s, cur, syms, st.iterable);
    it.errs + (if !EndsWith(it.ty, "[]") then [ErrorAt(IterationMessage(st.iterName, it.ty), st.at)] else [])
  }

  /** Where every name resolves alike, the header's checks report alike. */
  lemma ForCheckErrorsSameLookups(a: seq<Scope>, ca: nat, sa: set<Symbol>, b: seq<Scope>, cb: nat, sb: set<Symbol>, st: Stmt)
    requires Ready(a, ca, sa) && Ready(b, cb, sb) && SameLookups(a, ca, b, cb) && st.For?
    ensures ForCheckErrors(a, ca, sa, st) == ForCheckErrors(b, cb, sb, st)
  {
    var first := if st.cond.Some? then st.cond else st.update;
    ConditionErrorsSameLookups("for", a, ca, sa, b, cb, sb, st.at, first);
    if st.cond.Some? && st.update.Some? {
      TypeOfSameLookups(VariableV, a, ca, sa, b, cb, sb, st.update.value);
    }
  }

  /** What the header's checks report does not change while the loop's own scope stays sealed. */
  lemma ForCheckErrorsSealed(a: seq<Scope>, sa: set<Symbol>, b: seq<Scope>, sb: set<Symbol>, cur: nat, st: Stmt)
    requires Ready(a, cur, sa) && Ready(b, cur, sb) && Sealed(a, b) && st.For?
    ensures ForCheckErrors(a, cur, sa, st) == ForCheckErrors(b, cur, sb, st)
  {
    SealedSameLookups(a, sa, b, sb, cur);
    ForCheckErrorsSameLookups(a, cur, sa, b, cur, sb, st);
  }

  /** A sealed change keeps every lookup from an old scope. */
  lemma SealedSameLookups(a: seq<Scope>, sa: set<Symbol>, b: seq<Scope>, sb: set<Symbol>, cur: nat)
    requires Ready(a, cur, sa) && Ready(b, cur, sb) && Sealed(a, b)
    ensures SameLookups(a, cur, b, cur)
  {
    forall n ensures Obtain(a, cur, n) == Obtain(b, cur, n) {
      SealedLookups(a, b, cur, n);
    }
  }

  /** A new child scope resolves every name as its parent does. */
  lemma EnteredSameLookups(s: seq<Scope>, cur: nat, syms: set<Symbol>)
    requires Ready(s, cur, syms)
    ensures Ready(Entered(s, cur), |s|, syms) && SameLookups(Entered(s, cur), |s|, s, cur)
  {
    SymbolsOfEntered(s, cur);
    forall n ensures Obtain(Entered(s, cur), |s|, n) == Obtain(s, cur, n) {
      EnteredEffect(s, cur, n);
    }
  }

  lemma ConditionErrorsSameLookups(construct: string, a: seq<Scope>, ca: nat, sa: set<Symbol>, b: seq<Scope>, cb: nat, sb: set<Symbol>,
                                   at: Pos, cond: Option<Expr>)
    requires Ready(a, ca, sa) && Ready(b, cb, sb) && SameLookups(a, ca, b, cb)
    ensures ConditionErrors(construct, a, ca, sa, at, cond) == ConditionErrors(construct, b, cb, sb, at, cond)
  {
    if cond.Some? {
      TypeOfSameLookups(ComparisonV, a, ca, sa, b, cb, sb, cond.value);
    }
  }

  lemma AssignmentErrorsSameLookups(a: seq<Scope>, ca: nat, sa: set<Symbol>, b: seq<Scope>, cb: nat, sb: set<Symbol>, x: Assignment)
    requires Ready(a, ca, sa) && Ready(b, cb, sb) && SameLookups(a, ca, b, cb)
    ensures AssignmentErrors(a, ca, sa, x) == AssignmentErrors(b, cb, sb, x)
  {
    assert Obtain(a, ca, AssignedName(x)) == Obtain(b, cb, AssignedName(x));
    TypeOfSameLookups(VariableV, a, ca, sa, b, cb, sb, FirstExpression(x));
  }

  /**
   * Outside a class, a for loop's initializer, checked in the loop's new
   * scope, reports what it would report in the enclosing scope, and a
   * declaration there is never a duplicate.
   */
  lemma ForInitInNewScope(s: seq<Scope>, cur: nat, syms: set<Symbol>, init: ForInit)
    requires Ready(s, cur, syms)
    ensures Ready(Entered(s, cur), |s|, syms)
    ensures ForInitErrors(Entered(s, cur), |s|, syms, null, init) ==
      match init
      case NoInit => []
      case InitDecl(d) => InitializerErrors(s, cur, syms, d)
      case InitAssign(a) => AssignmentErrors(s, cur, syms, a)
  {
    var t := Entered(s, cur);
    SymbolsOfEntered(s, cur);
    forall n ensures Obtain(t, |s|, n) == Obtain(s, cur, n) {
      EnteredEffect(s, cur, n);
    }
    match init
    case NoInit =>
    case InitDecl(d) =>
      assert !ExistsLocal(t, |s|, d.name);
      if d.init.Some? {
        TypeOfSameLookups(VariableV, t, |s|, syms, s, cur, syms, d.init.value);
      }
    case InitAssign(a) =>
      TypeOfSameLookups(VariableV, t, |s|, syms, s, cur, syms, FirstExpression(a));
  }

  /** How deep the walk is: the enclosing loops and switches, and the current function's return type. */
  datatype WalkContext = WalkContext(loops: nat, switches: nat, returnType: Option<string>)

  /**
   * A statement that declares nothing at any depth: no variable,
   * constant, function or class, no foreach variable, no for initializer
   * declaration and no named catch variable. Walking it leaves every
   * lookup as it was, so its errors depend on the enclosing scope alone.
   */
  predicate DeclarationFree(st: Stmt)
    decreases st
  {
    match st
    case Block(_, body) => AllDeclarationFree(body)
    case If(_, _, body, elseBranch) =>
      AllDeclarationFree(body) && (elseBranch.Some? ==> AllDeclarationFree(elseBranch.value.body))
    case While(_, _, body) => AllDeclarationFree(body)
    case DoWhile(_, body, _) => AllDeclarationFree(body)
    case For(_, init, _, _, body) => !init.InitDecl? && AllDeclarationFree(body)
    case Switch(_, _, cases, defaultCase) =>
      CasesDeclarationFree(cases) && (defaultCase.Some? ==> AllDeclarationFree(defaultCase.value.body))
    case TryCatch(_, body, handler) =>
      AllDeclarationFree(body) && (handler.Some? ==> handler.value.name.None? && AllDeclarationFree(handler.value.body))
    case AssignStmt(_) => true
    case Break(_) => true
    case Continue(_) => true
    case Return(_, _) => true
    case ExprStmt(_, _) => true
    case Print(_, _) => true
    case VarStmt(_) => false
    case ConstStmt(_) => false
    case FuncStmt(_) => false
    case ClassStmt(_, _, _, _) => false
    case Foreach(_, _, _, _) => false
  }

  predicate AllDeclarationFree(ss: seq<Stmt>)
    decreases ss
  {
    forall k :: 0 <= k < |ss| ==> DeclarationFree(ss[k])
  }

  predicate CasesDeclarationFree(cs: seq<Case>)
    decreases cs
  {
    forall k :: 0 <= k < |cs| ==> AllDeclarationFree(cs[k].body)
  }

  /** The errors of a return statement: outside a function one; inside, the value's, then a type mismatch. */
  ghost function ReturnErrors(s: seq<Scope>, cur: nat, syms: set<Symbol>, returnType: Option<string>, at: Pos, value: Option<Expr>): seq<SemanticError>
    requires Ready(s, cur, syms)
    reads syms`params, syms`enclosingClassName
  {
    if returnType.None? then [ErrorAt(ReturnOutsideMessage(), at)]
    else
      var typed := InitTypedAt(s, cur, syms, value);
      var found := ReturnedType(FoundType(typed));
      FoundErrors(typed) + if found != returnType.value then [ErrorAt(ReturnMismatchMessage(returnType.value, found), at)] else []
  }

  /**
   * The errors the walk reports for a statement that declares nothing,
   * in the order it reports them, from scope cur of s in context ctx:
   * a loop's parts one loop level deeper, a switch's case bodies and
   * default one switch level deeper. Every block the walk enters is a new
   * empty scope, so every part is typed in scope cur.
   */
  ghost function StmtErrors(s: seq<Scope>, cur: nat, syms: set<Symbol>, ctx: WalkContext, st: Stmt): seq<SemanticError>
    requires Ready(s, cur, syms) && DeclarationFree(st)
    reads syms`params, syms`enclosingClassName
    decreases st, 1
  {
    match st
    case Block(_, body) => StmtsErrors(s, cur, syms, ctx, body)
    case If(at, c, body, elseBranch) =>
      ConditionErrors("if", s, cur, syms, at, c) + StmtsErrors(s, cur, syms, ctx, body)
        + (if elseBranch.Some? then StmtsErrors(s, cur, syms, ctx, elseBranch.value.body) else [])
    case While(at, c, body) =>
      ConditionErrors("while", s, cur, syms, at, c) + StmtsErrors(s, cur, syms, ctx.(loops := ctx.loops + 1), body)
    case DoWhile(at, body, c) =>
      StmtsErrors(s, cur, syms, ctx.(loops := ctx.loops + 1), body) + ConditionErrors("do-while", s, cur, syms, at, c)
    case For(_, _, _, _, _) => ForErrors(s, cur, syms, ctx.(loops := ctx.loops + 1), st)
    case Switch(_, subject, cases, defaultCase) =>
      var t := TypeOf(VariableV, s, cur, syms, subject);
      t.errs + CasesErrors(s, cur, syms, ctx, t.ty, cases)
        + (if defaultCase.Some? then StmtsErrors(s, cur, syms, ctx.(switches := ctx.switches + 1), defaultCase.value.body) else [])
    case TryCatch(_, body, handler) =>
      StmtsErrors(s, cur, syms, ctx, body) + (if handler.Some? then StmtsErrors(s, cur, syms, ctx, handler.value.body) else [])
    case AssignStmt(a) => AssignmentErrors(s, cur, syms, a)
    case Break(at) => if BreakMisplaced(ctx.loops, ctx.switches) then [ErrorAt(BreakMessage(), at)] else []
    case Continue(at) => if ContinueMisplaced(ctx.loops) then [ErrorAt(ContinueMessage(), at)] else []
    case Return(at, value) => ReturnErrors(s, cur, syms, ctx.returnType, at, value)
    case ExprStmt(_, e) => TypeOf(ComparisonV, s, cur, syms, e).errs
    case Print(_, e) => TypeOf(ComparisonV, s, cur, syms, e).errs
    case _ => []
  }

  /** A for loop's errors, with inner the context of its body: the initializer's, the header checks', then the body's. */
  ghost function ForErrors(s: seq<Scope>, cur: nat, syms: set<Symbol>, inner: WalkContext, st: Stmt): seq<SemanticError>
    requires Ready(s, cur, syms) && st.For? && DeclarationFree(st)
    reads syms`params, syms`enclosingClassName
    decreases st, 0
  {
    ForHeaderErrors(s, cur, syms, st) + StmtsErrors(s, cur, syms, inner, st.body)
  }

  /** A for loop's header errors when its initializer declares nothing: the initializer's, then the header checks'. */
  ghost function ForHeaderErrors(s: seq<Scope>, cur: nat, syms: set<Symbol>, st: Stmt): seq<SemanticError>
    requires Ready(s, cur, syms) && st.For?
    reads syms`params, syms`enclosingClassName
  {
    (if st.init.InitAssign? then AssignmentErrors(s, cur, syms, st.init.a) else []) + ForCheckErrors(s, cur, syms, st)
  }

  /** The log items begin with head. */
  ghost predicate Begins(items: seq<SemanticError>, head: seq<SemanticError>) {
    |head| <= |items| && items[..|head|] == head
  }

  /** Appending is associative. */
  lemma AppendAssoc<T>(a: seq<T>, b: seq<T>, c: seq<T>)
    ensures a + b + c == a + (b + c)
  {
  }

  /** A while's errors: its condition's, then its body's one loop level deeper. */
  lemma WhileErrors(s: seq<Scope>, cur: nat, syms: set<Symbol>, ctx: WalkContext, st: Stmt)
    requires Ready(s, cur, syms) && st.While? && DeclarationFree(st)
    ensures StmtErrors(s, cur, syms, ctx, st)
      == ConditionErrors("while", s, cur, syms, st.at, st.cond) + StmtsErrors(s, cur, syms, ctx.(loops := ctx.loops + 1), st.body)
  {
  }

  /** A for loop that declares nothing reports alike in a new empty child scope. */
  lemma ForErrorsEntered(s: seq<Scope>, cur: nat, syms: set<Symbol>, inner: WalkContext, st: Stmt)
    requires Ready(s, cur, syms) && st.For? && DeclarationFree(st)
    ensures Ready(Entered(s, cur), |s|, syms)
    ensures ForErrors(Entered(s, cur), |s|, syms, inner, st) == ForErrors(s, cur, syms, inner, st)
  {
    EnteredSameLookups(s, cur, syms);
    ForErrorsSameLookups(Entered(s, cur), |s|, syms, s, cur, syms, inner, st);
  }

  /** A for loop's errors: its ForErrors one loop level deeper. */
  lemma ForStmtErrors(s: seq<Scope>, cur: nat, syms: set<Symbol>, ctx: WalkContext, st: Stmt)
    requires Ready(s, cur, syms) && st.For? && DeclarationFree(st)
    ensures StmtErrors(s, cur, syms, ctx, st) == ForErrors(s, cur, syms, ctx.(loops := ctx.loops + 1), st)
  {
  }

  /** A do-while's errors: its body's one loop level deeper, then its condition's. */
  lemma DoWhileErrors(s: seq<Scope>, cur: nat, syms: set<Symbol>, ctx: WalkContext, st: Stmt)
    requires Ready(s, cur, syms) && st.DoWhile? && DeclarationFree(st)
    ensures StmtErrors(s, cur, syms, ctx, st)
      == StmtsErrors(s, cur, syms, ctx.(loops := ctx.loops + 1), st.body) + ConditionErrors("do-while", s, cur, syms, st.at, st.cond)
  {
  }

  /** A try/catch statement's errors: its try block's, then its catch block's. */
  lemma TryCatchErrors(s: seq<Scope>, cur: nat, syms: set<Symbol>, ctx: WalkContext, st: Stmt)
    requires Ready(s, cur, syms) && st.TryCatch? && DeclarationFree(st)
    ensures StmtErrors(s, cur, syms, ctx, st)
      == StmtsErrors(s, cur, syms, ctx, st.body) + (if st.handler.Some? then StmtsErrors(s, cur, syms, ctx, st.handler.value.body) else [])
  {
  }

  /** The errors of a switch's default: its statements' one switch level deeper, or none. */
  ghost function DefaultErrors(s: seq<Scope>, cur: nat, syms: set<Symbol>, ctx: WalkContext, d: Option<Branch>): seq<SemanticError>
    requires Ready(s, cur, syms) && (d.Some? ==> AllDeclarationFree(d.value.body))
    reads syms`params, syms`enclosingClassName
  {
    if d.Some? then StmtsErrors(s, cur, syms, ctx.(switches := ctx.switches + 1), d.value.body) else []
  }

  /** A switch's errors: its subject's, its cases' against the subject's type, then its default's. */
  lemma SwitchErrors(s: seq<Scope>, cur: nat, syms: set<Symbol>, ctx: WalkContext, st: Stmt)
    requires Ready(s, cur, syms) && st.Switch? && DeclarationFree(st)
    ensures var t := TypeOf(VariableV, s, cur, syms, st.subject);
      StmtErrors(s, cur, syms, ctx, st)
        == t.errs + CasesErrors(s, cur, syms, ctx, t.ty, st.cases) + DefaultErrors(s, cur, syms, ctx, st.defaultCase)
  {
  }

  /** The errors of a statement list: each statement's in turn. */
  ghost function StmtsErrors(s: seq<Scope>, cur: nat, syms: set<Symbol>, ctx: WalkContext, ss: seq<Stmt>): seq<SemanticError>
    requires Ready(s, cur, syms) && AllDeclarationFree(ss)
    reads syms`params, syms`enclosingClassName
    decreases ss
  {
    if ss == [] then []
    else StmtsErrors(s, cur, syms, ctx, ss[..|ss| - 1]) + StmtErrors(s, cur, syms, ctx, ss[|ss| - 1])
  }

  /**
   * The errors of a switch's cases, each in turn: the case expression's,
   * a type differing from the subject's, then the case body's one switch
   * level deeper.
   */
  ghost function CasesErrors(s: seq<Scope>, cur: nat, syms: set<Symbol>, ctx: WalkContext, switchType: string, cs: seq<Case>): seq<SemanticError>
    requires Ready(s, cur, syms) && CasesDeclarationFree(cs)
    reads syms`params, syms`enclosingClassName
    decreases cs
  {
    if cs == [] then []
    else
      var c := cs[|cs| - 1];
      CasesErrors(s, cur, syms, ctx, switchType, cs[..|cs| - 1]) + CaseErrors(s, cur, syms, ctx, switchType, c)
  }

  /** The cases up to i + 1 report those up to i, then case i. */
  lemma CasesErrorsStep(s: seq<Scope>, cur: nat, syms: set<Symbol>, ctx: WalkContext, switchType: string, cs: seq<Case>, i: nat)
    requires Ready(s, cur, syms) && CasesDeclarationFree(cs) && i < |cs|
    ensures CasesDeclarationFree(cs[..i]) && CasesDeclarationFree(cs[..i + 1])
    ensures CasesErrors(s, cur, syms, ctx, switchType, cs[..i + 1])
      == CasesErrors(s, cur, syms, ctx, switchType, cs[..i]) + CaseErrors(s, cur, syms, ctx, switchType, cs[i])
  {
    assert cs[..i + 1][..i] == cs[..i];
  }

  /** One case: its expression's errors, a type differing from the subject's, then its body's one switch level deeper. */
  ghost function CaseErrors(s: seq<Scope>, cur: nat, syms: set<Symbol>, ctx: WalkContext, switchType: string, c: Case): seq<SemanticError>
    requires Ready(s, cur, syms) && AllDeclarationFree(c.body)
    reads syms`params, syms`enclosingClassName
    decreases c
  {
    CaseCheckErrors(s, cur, syms, switchType, c) + StmtsErrors(s, cur, syms, ctx.(switches := ctx.switches + 1), c.body)
  }

  /** A case expression's errors, then a type differing from the subject's. */
  ghost function CaseCheckErrors(s: seq<Scope>, cur: nat, syms: set<Symbol>, switchType: string, c: Case): seq<SemanticError>
    requires Ready(s, cur, syms)
    reads syms`params, syms`enclosingClassName
  {
    var ct := TypeOf(VariableV, s, cur, syms, c.caseExpr);
    ct.errs + (if switchType != ct.ty then [ErrorAt(CaseMessage(ct.ty, switchType), c.at)] else [])
  }

  /**
   * The walk's errors depend on the scope tree only through lookups:
   * where every name resolves alike, a statement that declares nothing
   * reports alike.
   */
  lemma {:induction false} StmtErrorsSameLookups(a: seq<Scope>, ca: nat, sa: set<Symbol>, b: seq<Scope>, cb: nat, sb: set<Symbol>,
                                                 ctx: WalkContext, st: Stmt)
    requires Ready(a, ca, sa) && Ready(b, cb, sb) && SameLookups(a, ca, b, cb) && DeclarationFree(st)
    ensures StmtErrors(a, ca, sa, ctx, st) == StmtErrors(b, cb, sb, ctx, st)
    decreases st, 2
  {
    match st
    case AssignStmt(x) => AssignmentErrorsSameLookups(a, ca, sa, b, cb, sb, x);
    case Break(_) =>
    case Continue(_) =>
    case Return(_, value) =>
      if value.Some? {
        TypeOfSameLookups(VariableV, a, ca, sa, b, cb, sb, value.value);
      }
    case ExprStmt(_, e) => TypeOfSameLookups(ComparisonV, a, ca, sa, b, cb, sb, e);
    case Print(_, e) => TypeOfSameLookups(ComparisonV, a, ca, sa, b, cb, sb, e);
    case Block(_, _) => CompoundErrorsSameLookups(a, ca, sa, b, cb, sb, ctx, st);
    case If(_, _, _, _) => CompoundErrorsSameLookups(a, ca, sa, b, cb, sb, ctx, st);
    case While(_, _, _) => CompoundErrorsSameLookups(a, ca, sa, b, cb, sb, ctx, st);
    case DoWhile(_, _, _) => CompoundErrorsSameLookups(a, ca, sa, b, cb, sb, ctx, st);
    case For(_, _, _, _, _) => CompoundErrorsSameLookups(a, ca, sa, b, cb, sb, ctx, st);
    case Switch(_, _, _, _) => CompoundErrorsSameLookups(a, ca, sa, b, cb, sb, ctx, st);
    case TryCatch(_, _, _) => CompoundErrorsSameLookups(a, ca, sa, b, cb, sb, ctx, st);
  }

  /** The same for a statement holding other statements. */
  lemma {:induction false} CompoundErrorsSameLookups(a: seq<Scope>, ca: nat, sa: set<Symbol>, b: seq<Scope>, cb: nat, sb: set<Symbol>,
                                                     ctx: WalkContext, st: Stmt)
    requires Ready(a, ca, sa) && Ready(b, cb, sb) && SameLookups(a, ca, b, cb) && DeclarationFree(st)
    requires st.Block? || st.If? || st.While? || st.DoWhile? || st.For? || st.Switch? || st.TryCatch?
    ensures StmtErrors(a, ca, sa, ctx, st) == StmtErrors(b, cb, sb, ctx, st)
    decreases st, 1
  {
    match st
    case Block(_, body) => StmtsErrorsSameLookups(a, ca, sa, b, cb, sb, ctx, body);
    case If(at, c, body, elseBranch) =>
      ConditionErrorsSameLookups("if", a, ca, sa, b, cb, sb, at, c);
      StmtsErrorsSameLookups(a, ca, sa, b, cb, sb, ctx, body);
      if elseBranch.Some? {
        StmtsErrorsSameLookups(a, ca, sa, b, cb, sb, ctx, elseBranch.value.body);
      }
    case While(at, c, body) =>
      ConditionErrorsSameLookups("while", a, ca, sa, b, cb, sb, at, c);
      StmtsErrorsSameLookups(a, ca, sa, b, cb, sb, ctx.(loops := ctx.loops + 1), body);
    case DoWhile(at, body, c) =>
      ConditionErrorsSameLookups("do-while", a, ca, sa, b, cb, sb, at, c);
      StmtsErrorsSameLookups(a, ca, sa, b, cb, sb, ctx.(loops := ctx.loops + 1), body);
    case For(_, _, _, _, _) => ForErrorsSameLookups(a, ca, sa, b, cb, sb, ctx.(loops := ctx.loops + 1), st);
    case Switch(_, subject, cases, defaultCase) =>
      TypeOfSameLookups(VariableV, a, ca, sa, b, cb, sb, subject);
      CasesErrorsSameLookups(a, ca, sa, b, cb, sb, ctx, TypeOf(VariableV, a, ca, sa, subject).ty, cases);
      if defaultCase.Some? {
        StmtsErrorsSameLookups(a, ca, sa, b, cb, sb, ctx.(switches := ctx.switches + 1), defaultCase.value.body);
      }
    case TryCatch(_, body, handler) =>
      StmtsErrorsSameLookups(a, ca, sa, b, cb, sb, ctx, body);
      if handler.Some? {
        StmtsErrorsSameLookups(a, ca, sa, b, cb, sb, ctx, handler.value.body);
      }
  }

  lemma {:induction false} ForErrorsSameLookups(a: seq<Scope>, ca: nat, sa: set<Symbol>, b: seq<Scope>, cb: nat, sb: set<Symbol>,
                                                inner: WalkContext, st: Stmt)
    requires Ready(a, ca, sa) && Ready(b, cb, sb) && SameLookups(a, ca, b, cb) && st.For? && DeclarationFree(st)
    ensures ForErrors(a, ca, sa, inner, st) == ForErrors(b, cb, sb, inner, st)
    decreases st, 0
  {
    if st.init.InitAssign? {
      AssignmentErrorsSameLookups(a, ca, sa, b, cb, sb, st.init.a);
    }
    ForCheckErrorsSameLookups(a, ca, sa, b, cb, sb, st);
    StmtsErrorsSameLookups(a, ca, sa, b, cb, sb, inner, st.body);
  }

  lemma {:induction false} StmtsErrorsSameLookups(a: seq<Scope>, ca: nat, sa: set<Symbol>, b: seq<Scope>, cb: nat, sb: set<Symbol>,
                                                  ctx: WalkContext, ss: seq<Stmt>)
    requires Ready(a, ca, sa) && Ready(b, cb, sb) && SameLookups(a, ca, b, cb) && AllDeclarationFree(ss)
    ensures StmtsErrors(a, ca, sa, ctx, ss) == StmtsErrors(b, cb, sb, ctx, ss)
    decreases ss
  {
    if ss != [] {
      StmtsErrorsSameLookups(a, ca, sa, b, cb, sb, ctx, ss[..|ss| - 1]);
      StmtErrorsSameLookups(a, ca, sa, b, cb, sb, ctx, ss[|ss| - 1]);
    }
  }

  lemma {:induction false} CasesErrorsSameLookups(a: seq<Scope>, ca: nat, sa: set<Symbol>, b: seq<Scope>, cb: nat, sb: set<Symbol>,
                                                  ctx: WalkContext, switchType: string, cs: seq<Case>)
    requires Ready(a, ca, sa) && Ready(b, cb, sb) && SameLookups(a, ca, b, cb) && CasesDeclarationFree(cs)
    ensures CasesErrors(a, ca, sa, ctx, switchType, cs) == CasesErrors(b, cb, sb, ctx, switchType, cs)
    decreases cs
  {
    if cs != [] {
      var c := cs[|cs| - 1];
      CasesErrorsSameLookups(a, ca, sa, b, cb, sb, ctx, switchType, cs[..|cs| - 1]);
      TypeOfSameLookups(VariableV, a, ca, sa, b, cb, sb, c.caseExpr);
      StmtsErrorsSameLookups(a, ca, sa, b, cb, sb, ctx.(switches := ctx.switches + 1), c.body);
    }
  }

  lemma CaseErrorsSameLookups(a: seq<Scope>, ca: nat, sa: set<Symbol>, b: seq<Scope>, cb: nat, sb: set<Symbol>,
                              ctx: WalkContext, switchType: string, c: Case)
    requires Ready(a, ca, sa) && Ready(b, cb, sb) && SameLookups(a, ca, b, cb) && AllDeclarationFree(c.body)
    ensures CaseErrors(a, ca, sa, ctx, switchType, c) == CaseErrors(b, cb, sb, ctx, switchType, c)
  {
    TypeOfSameLookups(VariableV, a, ca, sa, b, cb, sb, c.caseExpr);
    StmtsErrorsSameLookups(a, ca, sa, b, cb, sb, ctx.(switches := ctx.switches + 1), c.body);
  }

  /** The type recorded for a declared parameter: the class listener keeps the text, the visitor builds it. */
  function DeclaredParamType(d: Param, listener: bool): string {
    if listener then ListenerTypeName(d.ty) else ParameterTypeName(d.ty)
  }

  /** The recorded types of the declared parameters, in order. */
  function DeclaredParamTypes(decl: seq<Param>, listener: bool): seq<string> {
    seq(|decl|, k requires 0 <= k < |decl| => DeclaredParamType(decl[k], listener))
  }

  /** The names and recorded types of the parameters the class listener creates for decl. */
  function ListenerParamInfos(decl: seq<Param>): seq<ParamInfo> {
    seq(|decl|, k requires 0 <= k < |decl| => ParamInfo(decl[k].name, DeclaredParamType(decl[k], true)))
  }

  /** ps are variables with decl's names and positions, mutable only when the class listener created them. */
  predicate ParameterShapes(ps: seq<Symbol>, decl: seq<Param>, listener: bool) {
    && |ps| == |decl|
    && forall k :: 0 <= k < |ps| ==>
         && ps[k].name == decl[k].name && ps[k].kind == VARIABLE && ps[k].mutable == listener
         && ps[k].line == decl[k].at.line && ps[k].column == decl[k].at.column
  }

  /** ps are the parameter symbols created for decl, in order, with the recorded types. */
  ghost predicate ParametersFor(ps: seq<Symbol>, decl: seq<Param>, listener: bool)
  {
    ParameterShapes(ps, decl, listener) && ParamTypes(ps) == DeclaredParamTypes(decl, listener)
  }

  /** One more parameter symbol matching the next declared parameter keeps ParametersFor. */
  lemma ParametersForStep(ps: seq<Symbol>, p: Symbol, decl: seq<Param>, i: nat, listener: bool)
    requires i < |decl| && ParameterShapes(ps, decl[..i], listener)
    requires p.name == decl[i].name && p.kind == VARIABLE && p.mutable == listener && p.ty == DeclaredParamType(decl[i], listener)
    requires p.line == decl[i].at.line && p.column == decl[i].at.column
    ensures ParameterShapes(ps + [p], decl[..i + 1], listener)
    ensures DeclaredParamTypes(decl[..i + 1], listener) == DeclaredParamTypes(decl[..i], listener) + [p.ty]
  {
    assert forall k :: 0 <= k < i ==> decl[..i + 1][k] == decl[..i][k];
  }

  /**
   * What visiting class members does to c's member map: every member
   * keeps its old symbol or is a new symbol that records c as its class.
   */
  twostate predicate MembersGrown(c: Symbol)
    reads c`members, c.members.Values`enclosingClassName
  {
    forall k :: k in c.members ==>
      || (k in old(c.members) && c.members[k] == old(c.members[k]))
      || (fresh(c.members[k]) && c.members[k].enclosingClassName == Some(c.name))
  }

  class SemanticVisitor {
    /** errores */
    const log: ErrorLog
    /** raiz and entornoActual */
    const env: ScopeTree
    var loopDepth: nat
    var switchDepth: nat
    /** dentroDeContextoPrint: set while a print statement's expression is typed. */
    var inPrint: bool
    /** FunctionsVisitor.currentFunction */
    var currentFunction: Symbol?
    /** ClassesListener.currentClass */
    var currentClass: Symbol?
    /** Every symbol the checker has created so far. */
    ghost var Syms: set<Symbol>

    ghost predicate Valid()
      reads this`Syms, env, Syms`params, Syms`enclosingClassName
    {
      env.Valid() && Ready(env.scopes, env.current, Syms)
    }

    /** The class whose member list the walk may extend: the current class, if any. */
    function ClassFrame(): set<Symbol>
      reads this`currentClass
    {
      if currentClass != null then {currentClass} else {}
    }

    /**
     * What visiting any statement keeps: both depth counters, the current
     * function and scope; errors are only appended; the scopes that
     * existed keep their parents and only the current one may gain
     * declarations; a class declaration resets the current class.
     */

    twostate predicate Walked()
      reads this, env, log
    {
      && loopDepth == old(loopDepth) && switchDepth == old(switchDepth)
      && currentFunction == old(currentFunction)
      && (currentClass == old(currentClass) || currentClass == null)
      && env.current == old(env.current)
      && old(log.items) <= log.items
      && old(Syms) <= Syms
      && Extends(old(env.scopes), env.scopes, old(env.current))
    }

    /** The type and errors of e in the current state. */
    ghost function TypeHere(vis: Visitor, e: Expr): Typed
      requires Valid()
      reads this`Syms, env, Syms`params, Syms`enclosingClassName
    {
      TypeOf(vis, env.scopes, env.current, Syms, e)
    }

    /** The VariableVisitor typing of an optional initializer in the current state. */
    ghost function InitTyped(init: Option<Expr>): Option<Typed>
      requires Valid()
      reads this`Syms, env, Syms`params, Syms`enclosingClassName
    {
      InitTypedAt(env.scopes, env.current, Syms, init)
    }

    /** Where the walk is: the loop and switch depths and the current function's return type. */
    ghost function Context(): WalkContext
      reads this
    {
      WalkContext(loopDepth, switchDepth, if currentFunction != null then Some(currentFunction.ty) else None)
    }

    /** st declared nothing and was walked as StmtErrors says: no old scope changed and the log gained exactly its errors. */
    twostate predicate WalkedAs(st: Stmt)
      requires old(Valid()) && DeclarationFree(st)
      reads this, log, env
    {
      && Sealed(old(env.scopes), env.scopes)
      && log.items == old(log.items) + old(StmtErrors(env.scopes, env.current, Syms, Context(), st))
    }

    /** The same for a statement list, walked in the current scope. */
    twostate predicate ListWalkedAs(ss: seq<Stmt>)
      requires old(Valid()) && AllDeclarationFree(ss)
      reads this, log, env
    {
      && Sealed(old(env.scopes), env.scopes)
      && log.items == old(log.items) + old(StmtsErrors(env.scopes, env.current, Syms, Context(), ss))
    }

    /** A fresh checker: one root scope, no errors, counters at zero, no function or class. */
    constructor ()
      ensures Valid() && fresh(log) && fresh(env)
      ensures log.items == [] && env.scopes == [Scope(map[], None, [])] && env.current == 0
      ensures loopDepth == 0 && switchDepth == 0 && !inPrint
      ensures currentFunction == null && currentClass == null
    {
      log := new ErrorLog();
      env := new ScopeTree();
      loopDepth := 0;
      switchDepth := 0;
      inPrint := false;
      currentFunction := null;
      currentClass := null;
      Syms := {};
    }

    /** visitProgram: the statements in order, in the root scope. */
    method VisitProgram(program: seq<Stmt>)
      requires Valid()
      modifies this, log, env, ClassFrame()`members
      ensures Valid() && Walked()
      ensures AllDeclarationFree(program) ==> ListWalkedAs(program)
    {
      VisitStatements(program);
    }

    method VisitStatements(ss: seq<Stmt>)
      requires Valid()
      modifies this, log, env, ClassFrame()`members
      ensures Valid() && Walked()
      ensures AllDeclarationFree(ss) ==> ListWalkedAs(ss)
      decreases ss, 0
    {
      ghost var s0, syms0, ctx0, log0 := env.scopes, Syms, Context(), log.items;
      ghost var done: seq<SemanticError> := [];
      var i := 0;
      while i < |ss|
        invariant 0 <= i <= |ss|
        invariant Valid() && Walked() && Context() == ctx0
        invariant AllDeclarationFree(ss) ==>
          && Ready(s0, env.current, syms0) && Sealed(s0, env.scopes)
          && log.items == log0 + done
          && done == StmtsErrors(s0, env.current, syms0, ctx0, ss[..i])
      {
        done := VisitNext(ss, i, s0, syms0, log0, done);
        i := i + 1;
      }
      assert ss[..i] == ss;
    }

    /**
     * The step of VisitStatements: statement i, extending the errors of the
     * statements before it (done, logged after base) by its own.
     */
    method VisitNext(ss: seq<Stmt>, i: nat, ghost s0: seq<Scope>, ghost syms0: set<Symbol>,
                     ghost base: seq<SemanticError>, ghost done: seq<SemanticError>)
      returns (ghost next: seq<SemanticError>)
      requires Valid() && i < |ss|
      requires AllDeclarationFree(ss) ==>
        && Ready(s0, env.current, syms0) && Sealed(s0, env.scopes)
        && log.items == base + done && done == StmtsErrors(s0, env.current, syms0, Context(), ss[..i])
      modifies this, log, env, ClassFrame()`members
      ensures Valid() && Walked() && Context() == old(Context())
      ensures AllDeclarationFree(ss) ==>
        && Ready(s0, env.current, syms0) && Sealed(s0, env.scopes)
        && log.items == base + next && next == StmtsErrors(s0, env.current, syms0, Context(), ss[..i + 1])
      decreases ss[i], 9
    {
      VisitOne(ss, i, s0, syms0);
      next := [];
      if AllDeclarationFree(ss) {
        assert ss[..i + 1][..i] == ss[..i];
        next := done + StmtErrors(s0, env.current, syms0, Context(), ss[i]);
      }
    }

    /** Statement i of a list, whose errors, when it declares nothing, are those it has in the list's scope. */
    method VisitOne(ss: seq<Stmt>, i: nat, ghost s0: seq<Scope>, ghost syms0: set<Symbol>)
      requires Valid() && i < |ss|
      requires AllDeclarationFree(ss) ==> Ready(s0, env.current, syms0) && Sealed(s0, env.scopes)
      modifies this, log, env, ClassFrame()`members
      ensures Valid() && Walked() && Context() == old(Context())
      ensures AllDeclarationFree(ss) ==>
        && Ready(s0, env.current, syms0) && Sealed(s0, env.scopes)
        && log.items == old(log.items) + StmtErrors(s0, env.current, syms0, old(Context()), ss[i])
        && StmtsErrors(s0, env.current, syms0, old(Context()), ss[..i]) == old(StmtsErrors(s0, env.current, syms0, Context(), ss[..i]))
      decreases ss[i], 8
    {
      if AllDeclarationFree(ss) {
        SealedSameLookups(s0, syms0, env.scopes, Syms, env.current);
        StmtErrorsSameLookups(s0, env.current, syms0, env.scopes, env.current, Syms, Context(), ss[i]);
      }
      ghost var s1 := env.scopes;
      VisitStmt(ss[i]);
      if AllDeclarationFree(ss) {
        SealedTransitive(s0, s1, env.scopes);
        assert AllDeclarationFree(ss[..i]);
      }
    }

    /**
     * visitBlock: the statements in a new child scope, then back to the
     * enclosing scope. No scope that existed before changes, so every
     * lookup afterwards finds what it found before (SealedLookups).
     */
    method VisitBlock(body: seq<Stmt>)
      requires Valid()
      modifies this, log, env, ClassFrame()`members
      ensures Valid() && Walked()
      ensures Sealed(old(env.scopes), env.scopes)
      ensures AllDeclarationFree(body) ==> ListWalkedAs(body)
      decreases body, 1
    {
      ghost var s0, cur0 := env.scopes, env.current;
      env.EnterScope();
      if AllDeclarationFree(body) {
        EnteredSameLookups(s0, cur0, Syms);
        StmtsErrorsSameLookups(env.scopes, env.current, Syms, s0, cur0, Syms, Context(), body);
      }
      VisitStatements(body);
      EnteredThenExtended(s0, cur0, env.scopes);
      SealedExtends(s0, env.scopes, cur0);
      env.ExitScope();
    }

    method VisitStmt(st: Stmt)
      requires Valid()
      modifies this, log, env, ClassFrame()`members
      ensures Valid() && Walked()
      ensures DeclarationFree(st) ==> WalkedAs(st)
      decreases st, 7
    {
      if st.Break? || st.Continue? || st.ExprStmt? || st.Print? || st.Return? || st.VarStmt? || st.ConstStmt? || st.AssignStmt? {
        VisitSimpleStmt(st);
      } else {
        VisitCompoundStmt(st);
      }
    }

    /** The statements that hold no statements. */
    method VisitSimpleStmt(st: Stmt)
      requires Valid()
      requires st.Break? || st.Continue? || st.ExprStmt? || st.Print? || st.Return? || st.VarStmt? || st.ConstStmt? || st.AssignStmt?
      modifies this, log, env, ClassFrame()`members
      ensures Valid() && Walked()
      ensures DeclarationFree(st) ==> WalkedAs(st)
      decreases st, 5
    {
      if st.VarStmt? {
        var t; ghost var v; t, v := VisitVarDecl(st.v);
      } else if st.ConstStmt? {
        ghost var c; var t; t, c := VisitConstDecl(st.c);
      } else {
        VisitLeaf(st);
      }
    }

    /** The statements that neither hold statements nor declare: each reports exactly its StmtErrors. */
    method VisitLeaf(st: Stmt)
      requires Valid()
      requires st.Break? || st.Continue? || st.ExprStmt? || st.Print? || st.Return? || st.AssignStmt?
      modifies log, this`inPrint
      ensures Valid() && Walked()
      ensures log.items == old(log.items) + old(StmtErrors(env.scopes, env.current, Syms, Context(), st))
    {
      ghost var expected := StmtErrors(env.scopes, env.current, Syms, Context(), st);
      match st
      case Break(at) =>
        assert expected == if BreakMisplaced(loopDepth, switchDepth) then [ErrorAt(BreakMessage(), at)] else [];
        VisitBreak(at);
      case Continue(at) =>
        assert expected == if ContinueMisplaced(loopDepth) then [ErrorAt(ContinueMessage(), at)] else [];
        VisitContinue(at);
      case ExprStmt(_, e) =>
        assert expected == TypeHere(ComparisonV, e).errs;
        VisitExpressionStatement(e);
      case Print(_, e) =>
        assert expected == TypeHere(ComparisonV, e).errs;
        VisitPrint(e);
      case Return(at, value) =>
        assert expected == ReturnErrors(env.scopes, env.current, Syms, Context().returnType, at, value);
        VisitReturn(at, value);
      case AssignStmt(a) =>
        assert expected == AssignmentErrors(env.scopes, env.current, Syms, a);
        var _ := VisitAssignment(a);
    }

    /** The statements that hold statements or declarations of their own. */
    method VisitCompoundStmt(st: Stmt)
      requires Valid()
      requires !(st.Break? || st.Continue? || st.ExprStmt? || st.Print? || st.Return? || st.VarStmt? || st.ConstStmt? || st.AssignStmt?)
      modifies this, log, env, ClassFrame()`members
      ensures Valid() && Walked()
      ensures DeclarationFree(st) ==> WalkedAs(st)
      decreases st, 6
    {
      match st
      case Block(_, body) => VisitBlock(body);
      case If(_, _, _, _) => VisitIf(st);
      case While(_, _, _) => VisitWhile(st);
      case DoWhile(_, _, _) => VisitDoWhile(st);
      case For(_, _, _, _, _) => VisitFor(st);
      case Foreach(_, _, _, _) => VisitForeach(st);
      case Switch(_, _, _, _) => VisitSwitch(st);
      case TryCatch(_, _, _) => VisitTryCatch(st);
      case FuncStmt(f) => ghost var fn; var t; t, fn := VisitFunction(f);
      case ClassStmt(_, _, _, _) => var c := VisitClass(st);
    }

    /** visitBreakStatement */
    method VisitBreak(at: Pos)
      requires Valid()
      modifies log
      ensures Valid() && Walked()
      ensures log.items == old(log.items) + if BreakMisplaced(loopDepth, switchDepth) then [ErrorAt(BreakMessage(), at)] else []
    {
      if loopDepth == 0 && switchDepth == 0 {
        log.Add(BreakMessage(), at.line, at.column);
      }
    }

    /** visitContinueStatement */
    method VisitContinue(at: Pos)
      requires Valid()
      modifies log
      ensures Valid() && Walked()
      ensures log.items == old(log.items) + if ContinueMisplaced(loopDepth) then [ErrorAt(ContinueMessage(), at)] else []
    {
      if loopDepth == 0 {
        log.Add(ContinueMessage(), at.line, at.column);
      }
    }

    /** visitExpressionStatement: the expression is typed by ComparisonVisitor. */
    method VisitExpressionStatement(e: Expr)
      requires Valid()
      modifies log
      ensures Valid() && Walked()
      ensures log.items == old(log.items) + old(TypeHere(ComparisonV, e)).errs
    {
      var _ := VisitExpr(ComparisonV, log, env, Syms, e);
    }

    /** visitPrintStatement: as an expression statement, with the print flag set meanwhile. */
    method VisitPrint(e: Expr)
      requires Valid()
      modifies log, this`inPrint
      ensures Valid() && Walked()
      ensures log.items == old(log.items) + old(TypeHere(ComparisonV, e)).errs
      ensures !inPrint
    {
      inPrint := true;
      PrintedExpr(e);
      inPrint := false;
    }

    /** The printed expression, typed by ComparisonVisitor. */
    method PrintedExpr(e: Expr)
      requires Valid()
      modifies log
      ensures log.items == old(log.items) + TypeHere(ComparisonV, e).errs
    {
      var _ := VisitExpr(ComparisonV, log, env, Syms, e);
    }

    /**
     * visitReturnStatement: outside a function one error; inside, the
     * value's type (void without a value) must be the function's type.
     */
    method VisitReturn(at: Pos, value: Option<Expr>)
      requires Valid()
      modifies log
      ensures Valid() && Walked()
      ensures currentFunction == null ==> log.items == old(log.items) + [ErrorAt(ReturnOutsideMessage(), at)]
      ensures currentFunction != null ==>
        var typed := if value.Some? then Some(old(TypeHere(VariableV, value.value))) else None;
        var found := ReturnedType(FoundType(typed));
        log.items == old(log.items) + FoundErrors(typed)
          + if found != currentFunction.ty then [ErrorAt(ReturnMismatchMessage(currentFunction.ty, found), at)] else []
    {
      if currentFunction == null {
        log.Add(ReturnOutsideMessage(), at.line, at.column);
        return;
      }
      CheckReturned(at, value, currentFunction.ty);
    }

    /** The returned value's type (void without a value) must be the expected one. */
    method CheckReturned(at: Pos, value: Option<Expr>, expected: string)
      requires Valid()
      modifies log
      ensures Valid() && Walked()
      ensures var typed := if value.Some? then Some(old(TypeHere(VariableV, value.value))) else None;
        var found := ReturnedType(FoundType(typed));
        log.items == old(log.items) + FoundErrors(typed)
          + if found != expected then [ErrorAt(ReturnMismatchMessage(expected, found), at)] else []
    {
      var actual := VOID;
      if value.Some? {
        actual := VisitExpr(VariableV, log, env, Syms, value.value);
      }
      if actual == NO_TYPE {
        actual := VOID;
      }
      if actual != expected {
        log.Add(ReturnMismatchMessage(expected, actual), at.line, at.column);
      }
    }

    /** The condition check shared by if, while, for and do-while. */
    method CheckCondition(construct: string, at: Pos, cond: Option<Expr>)
      requires Valid()
      modifies log
      ensures Valid() && Walked()
      ensures log.items == old(log.items) + ConditionErrors(construct, env.scopes, env.current, Syms, at, cond)
    {
      if cond.Some? {
        var t := VisitExpr(ComparisonV, log, env, Syms, cond.value);
        if t != BOOLEAN {
          log.Add(ConditionMessage(construct, t), at.line, at.column);
        }
      }
    }

    /** visitIfStatement: the condition's errors come first, then the branches, each a block. */
    method VisitIf(st: Stmt)
      requires Valid() && st.If?
      modifies this, log, env, ClassFrame()`members
      ensures Valid() && Walked()
      ensures var ce := old(ConditionErrors("if", env.scopes, env.current, Syms, st.at, st.cond));
        |old(log.items)| + |ce| <= |log.items| && log.items[..|old(log.items)| + |ce|] == old(log.items) + ce
      ensures Sealed(old(env.scopes), env.scopes)
      ensures DeclarationFree(st) ==> WalkedAs(st)
      decreases st, 2
    {
      ghost var log0 := log.items;
      ghost var ce := ConditionErrors("if", env.scopes, env.current, Syms, st.at, st.cond);
      ghost var be := if DeclarationFree(st) then BranchesErrors(st) else [];
      assert DeclarationFree(st) ==> StmtErrors(env.scopes, env.current, Syms, Context(), st) == ce + be;
      CheckCondition("if", st.at, st.cond);
      assert log.items == log0 + ce;
      assert DeclarationFree(st) ==> BranchesErrors(st) == be;
      VisitBranches(st);
      assert DeclarationFree(st) ==> log.items == log0 + ce + be;
    }

    /** The errors of an if statement's branches in the current state, one block after the other. */
    ghost function BranchesErrors(st: Stmt): seq<SemanticError>
      requires Valid() && st.If? && DeclarationFree(st)
      reads this, env, Syms`params, Syms`enclosingClassName
    {
      StmtsErrors(env.scopes, env.current, Syms, Context(), st.body)
        + (if st.elseBranch.Some? then StmtsErrors(env.scopes, env.current, Syms, Context(), st.elseBranch.value.body) else [])
    }

    /** The then block, then the else block when there is one. */
    method VisitBranches(st: Stmt)
      requires Valid() && st.If?
      modifies this, log, env, ClassFrame()`members
      ensures Valid() && Walked()
      ensures Sealed(old(env.scopes), env.scopes)
      ensures DeclarationFree(st) ==> log.items == old(log.items) + old(BranchesErrors(st))
      decreases st, 1
    {
      ghost var log0, s0, syms0, ctx := log.items, env.scopes, Syms, Context();
      ghost var thenErrors := if DeclarationFree(st) then StmtsErrors(s0, env.current, syms0, ctx, st.body) else [];
      ghost var elseErrors := if DeclarationFree(st) && st.elseBranch.Some? then StmtsErrors(s0, env.current, syms0, ctx, st.elseBranch.value.body) else [];
      assert DeclarationFree(st) ==> BranchesErrors(st) == thenErrors + elseErrors;
      VisitBlock(st.body);
      assert DeclarationFree(st) ==> log.items == log0 + thenErrors;
      if st.elseBranch.Some? {
        VisitElse(st.elseBranch.value.body, s0, syms0, DeclarationFree(st), elseErrors);
      }
      assert DeclarationFree(st) ==> log.items == log0 + thenErrors + elseErrors;
    }

    /** The else block, after the then block: its errors are those it has in the scopes s0 the if statement started from. */
    method VisitElse(body: seq<Stmt>, ghost s0: seq<Scope>, ghost syms0: set<Symbol>, ghost free: bool, ghost expected: seq<SemanticError>)
      requires Valid() && Sealed(s0, env.scopes)
      requires free ==>
        && AllDeclarationFree(body) && Ready(s0, env.current, syms0)
        && expected == StmtsErrors(s0, env.current, syms0, Context(), body)
      modifies this, log, env, ClassFrame()`members
      ensures Valid() && Walked()
      ensures Sealed(s0, env.scopes)
      ensures free ==> log.items == old(log.items) + expected
      decreases body, 2
    {
      if free {
        SealedSameLookups(s0, syms0, env.scopes, Syms, env.current);
        StmtsErrorsSameLookups(s0, env.current, syms0, env.scopes, env.current, Syms, Context(), body);
      }
      ghost var s1 := env.scopes;
      VisitBlock(body);
      SealedTransitive(s0, s1, env.scopes);
    }

    /** visitWhileStatement: one loop level deeper for the condition and the body. */
    method VisitWhile(st: Stmt)
      requires Valid() && st.While?
      modifies this, log, env, ClassFrame()`members
      ensures Valid() && Walked()
      ensures var ce := old(ConditionErrors("while", env.scopes, env.current, Syms, st.at, st.cond));
        |old(log.items)| + |ce| <= |log.items| && log.items[..|old(log.items)| + |ce|] == old(log.items) + ce
      ensures Sealed(old(env.scopes), env.scopes)
      ensures DeclarationFree(st) ==> WalkedAs(st)
      decreases st, 2
    {
      ghost var ctx := Context();
      ghost var ce := ConditionErrors("while", env.scopes, env.current, Syms, st.at, st.cond);
      ghost var be := if DeclarationFree(st) then StmtsErrors(env.scopes, env.current, Syms, ctx.(loops := ctx.loops + 1), st.body) else [];
      if DeclarationFree(st) {
        WhileErrors(env.scopes, env.current, Syms, ctx, st);
      }
      DeeperConditionThenBlock("while", st.at, st.cond, st.body, ce, be);
    }

    /** The while's loop level: one deeper for its condition and its block. */
    method DeeperConditionThenBlock(construct: string, at: Pos, cond: Option<Expr>, body: seq<Stmt>, ghost ce: seq<SemanticError>, ghost be: seq<SemanticError>)
      requires Valid()
      requires ce == ConditionErrors(construct, env.scopes, env.current, Syms, at, cond)
      requires AllDeclarationFree(body) ==> be == StmtsErrors(env.scopes, env.current, Syms, Context().(loops := loopDepth + 1), body)
      modifies this, log, env, ClassFrame()`members
      ensures Valid() && Walked()
      ensures |old(log.items)| + |ce| <= |log.items| && log.items[..|old(log.items)| + |ce|] == old(log.items) + ce
      ensures Sealed(old(env.scopes), env.scopes)
      ensures AllDeclarationFree(body) ==> log.items == old(log.items) + (ce + be)
      decreases body, 3
    {
      ghost var log0 := log.items;
      SetLoopDepth(loopDepth + 1);
      ConditionThenBlock(construct, at, cond, body, ce, be);
      SetLoopDepth(loopDepth - 1);
      AppendAssoc(log0, ce, be);
    }

    /** A condition check, then a block; ce and be are the errors of each in the state at the start. */
    method ConditionThenBlock(construct: string, at: Pos, cond: Option<Expr>, body: seq<Stmt>, ghost ce: seq<SemanticError>, ghost be: seq<SemanticError>)
      requires Valid()
      requires ce == ConditionErrors(construct, env.scopes, env.current, Syms, at, cond)
      requires AllDeclarationFree(body) ==> be == StmtsErrors(env.scopes, env.current, Syms, Context(), body)
      modifies this, log, env, ClassFrame()`members
      ensures Valid() && Walked()
      ensures |old(log.items)| + |ce| <= |log.items| && log.items[..|old(log.items)| + |ce|] == old(log.items) + ce
      ensures Sealed(old(env.scopes), env.scopes)
      ensures AllDeclarationFree(body) ==> log.items == old(log.items) + ce + be
      decreases body, 2
    {
      ghost var log0 := log.items;
      CheckCondition(construct, at, cond);
      if AllDeclarationFree(body) {
        assert StmtsErrors(env.scopes, env.current, Syms, Context(), body) == be;
      }
      ghost var s1, mid := env.scopes, log.items;
      VisitBlock(body);
      assert mid <= log.items;
      if AllDeclarationFree(body) {
        assert log.items == log0 + ce + be;
      }
      SealedExtends(s1, env.scopes, env.current);
    }

    /** The loop nesting counter becomes n; nothing else changes. */
    method SetLoopDepth(n: nat)
      modifies this`loopDepth
      ensures loopDepth == n
    {
      loopDepth := n;
    }

    /** visitDoWhileStatement: the body first, then the condition, checked in the state after the body. */
    method VisitDoWhile(st: Stmt)
      requires Valid() && st.DoWhile?
      modifies this, log, env, ClassFrame()`members
      ensures Valid() && Walked()
      ensures var ce := ConditionErrors("do-while", env.scopes, env.current, Syms, st.at, st.cond);
        |ce| <= |log.items| && log.items[|log.items| - |ce|..] == ce
      ensures Sealed(old(env.scopes), env.scopes)
      ensures DeclarationFree(st) ==> WalkedAs(st)
      decreases st, 2
    {
      ghost var ctx := Context();
      ghost var ce := ConditionErrors("do-while", env.scopes, env.current, Syms, st.at, st.cond);
      ghost var be := if DeclarationFree(st) then StmtsErrors(env.scopes, env.current, Syms, ctx.(loops := ctx.loops + 1), st.body) else [];
      if DeclarationFree(st) {
        DoWhileErrors(env.scopes, env.current, Syms, ctx, st);
      }
      DeeperBlockThenCondition("do-while", st.at, st.cond, st.body, ce, be);
    }

    /** The do-while's loop level: one deeper for its block and its condition. */
    method DeeperBlockThenCondition(construct: string, at: Pos, cond: Option<Expr>, body: seq<Stmt>, ghost ce: seq<SemanticError>, ghost be: seq<SemanticError>)
      requires Valid()
      requires ce == ConditionErrors(construct, env.scopes, env.current, Syms, at, cond)
      requires AllDeclarationFree(body) ==> be == StmtsErrors(env.scopes, env.current, Syms, Context().(loops := loopDepth + 1), body)
      modifies this, log, env, ClassFrame()`members
      ensures Valid() && Walked()
      ensures var ce := ConditionErrors(construct, env.scopes, env.current, Syms, at, cond);
        |ce| <= |log.items| && log.items[|log.items| - |ce|..] == ce
      ensures Sealed(old(env.scopes), env.scopes)
      ensures AllDeclarationFree(body) ==> log.items == old(log.items) + (be + ce)
      decreases body, 3
    {
      ghost var log0 := log.items;
      SetLoopDepth(loopDepth + 1);
      BlockThenCondition(construct, at, cond, body, ce, be);
      ghost var ce' := ConditionErrors(construct, env.scopes, env.current, Syms, at, cond);
      SetLoopDepth(loopDepth - 1);
      assert ConditionErrors(construct, env.scopes, env.current, Syms, at, cond) == ce';
      AppendAssoc(log0, be, ce);
    }

    /** A block, then a condition check in the state the block leaves; be and ce are the errors of each in the state at the start. */
    method BlockThenCondition(construct: string, at: Pos, cond: Option<Expr>, body: seq<Stmt>, ghost ce: seq<SemanticError>, ghost be: seq<SemanticError>)
      requires Valid()
      requires ce == ConditionErrors(construct, env.scopes, env.current, Syms, at, cond)
      requires AllDeclarationFree(body) ==> be == StmtsErrors(env.scopes, env.current, Syms, Context(), body)
      modifies this, log, env, ClassFrame()`members
      ensures Valid() && Walked()
      ensures var ce := ConditionErrors(construct, env.scopes, env.current, Syms, at, cond);
        |ce| <= |log.items| && log.items[|log.items| - |ce|..] == ce
      ensures Sealed(old(env.scopes), env.scopes)
      ensures AllDeclarationFree(body) ==> log.items == old(log.items) + be + ce
      decreases body, 2
    {
      ghost var log0, s0, syms0 := log.items, env.scopes, Syms;
      VisitBlock(body);
      if AllDeclarationFree(body) {
        assert log.items == log0 + be;
      }
      SealedSameLookups(s0, syms0, env.scopes, Syms, env.current);
      ConditionErrorsSameLookups(construct, s0, env.current, syms0, env.scopes, env.current, Syms, at, cond);
      assert ConditionErrors(construct, env.scopes, env.current, Syms, at, cond) == ce;
      ghost var mid := log.items;
      CheckCondition(construct, at, cond);
      if AllDeclarationFree(body) {
        assert log.items == log0 + be + ce;
      }
    }

    /**
     * visitVariableDeclaration: inside a class the name is checked against
     * the class's members and the variable becomes a member; elsewhere it
     * is checked against the current scope and declared there.
     */
    method VisitVarDecl(d: VarDecl) returns (t: string, ghost v: Symbol?)
      requires Valid()
      modifies this, log, env, ClassFrame()`members
      ensures Valid() && Walked() && currentClass == old(currentClass)
      ensures log.items == old(log.items) + old(VarDeclErrors(env.scopes, env.current, Syms, currentClass, d))
      ensures v == null ==> env.scopes == old(env.scopes) && (currentClass != null ==> currentClass.members == old(currentClass.members))
      ensures v != null && currentClass == null ==> Declared(v, d.name, VARIABLE, t, true)
      ensures v != null && currentClass != null ==>
        && env.scopes == old(env.scopes) && currentClass.members == old(currentClass.members)[d.name := v]
        && fresh(v) && v.name == d.name && v.kind == VARIABLE && v.mutable && v.ty == t
      ensures t == VariableType(Annotation(d.ann), if v == null then None else FoundType(old(InitTyped(d.init))))
      decreases d, 2
    {
      if currentClass != null {
        t, v := DeclareMemberVariable(d);
      } else {
        t, v := DeclareLocalVariable(d);
      }
    }

    /**
     * A name already declared in the current scope is reported and nothing
     * is declared; otherwise the initializer is typed, checked against the
     * annotation, and a mutable variable of the recorded type is declared.
     */
    method DeclareLocalVariable(d: VarDecl) returns (t: string, ghost v: Symbol?)
      requires Valid()
      modifies log, env`scopes, this`Syms
      ensures Valid() && Walked()
      ensures old(ExistsLocal(env.scopes, env.current, d.name)) ==>
        && t == VariableType(Annotation(d.ann), None) && v == null
        && env.scopes == old(env.scopes)
        && log.items == old(log.items) + [ErrorAt(DuplicateVariableMessage(d.name), d.at)]
      ensures !old(ExistsLocal(env.scopes, env.current, d.name)) ==>
        var typed := old(InitTyped(d.init));
        var ann := Annotation(d.ann);
        && t == VariableType(ann, FoundType(typed))
        && log.items == old(log.items) + FoundErrors(typed)
             + (if InitMismatch(ann, FoundType(typed))
                then [ErrorAt(VariableMismatchMessage(d.name, ann.value, FoundType(typed).value), d.at)] else [])
        && v != null && Declared(v, d.name, VARIABLE, t, true)
    {
      if ExistsLocal(env.scopes, env.current, d.name) {
        log.Add(DuplicateVariableMessage(d.name), d.at.line, d.at.column);
        return VariableType(Annotation(d.ann), None), null;
      }
      t, v := DeclareVariable(d);
    }

    /** A variable whose name is new in the current scope: its initializer is checked and it is declared. */
    method DeclareVariable(d: VarDecl) returns (t: string, ghost v: Symbol)
      requires Valid() && !ExistsLocal(env.scopes, env.current, d.name)
      modifies log, env`scopes, this`Syms
      ensures Valid() && Walked()
      ensures var typed := old(InitTyped(d.init));
        var ann := Annotation(d.ann);
        && t == VariableType(ann, FoundType(typed))
        && log.items == old(log.items) + FoundErrors(typed)
             + (if InitMismatch(ann, FoundType(typed))
                then [ErrorAt(VariableMismatchMessage(d.name, ann.value, FoundType(typed).value), d.at)] else [])
        && Declared(v, d.name, VARIABLE, t, true)
    {
      var ann := Annotation(d.ann);
      var found := InitializerType(ann, d.name, d.at, d.init);
      t := VariableType(ann, found);
      v := DeclareNew(d.name, VARIABLE, t, d.at, true);
    }

    /**
     * The same declaration inside a class: a name already among the
     * members is reported; otherwise the variable is added to the members,
     * and no scope changes.
     */
    method DeclareMemberVariable(d: VarDecl) returns (t: string, ghost v: Symbol?)
      requires Valid() && currentClass != null
      modifies log, currentClass`members, this`Syms
      ensures Valid() && Walked()
      ensures env.scopes == old(env.scopes) && d.name in currentClass.members
      ensures d.name in old(currentClass.members) ==>
        && t == VariableType(Annotation(d.ann), None) && v == null
        && currentClass.members == old(currentClass.members)
        && log.items == old(log.items) + [ErrorAt(DuplicateMemberMessage(d.name, currentClass.name), d.at)]
      ensures d.name !in old(currentClass.members) ==>
        && v != null && currentClass.members == old(currentClass.members)[d.name := v]
        && fresh(v) && v.name == d.name && v.kind == VARIABLE && v.mutable && v.ty == t
        && t == VariableType(Annotation(d.ann), FoundType(old(InitTyped(d.init))))
        && log.items == old(log.items) + old(InitializerErrors(env.scopes, env.current, Syms, d))
    {
      var ann := Annotation(d.ann);
      if d.name in currentClass.members {
        log.Add(DuplicateMemberMessage(d.name, currentClass.name), d.at.line, d.at.column);
        return VariableType(ann, None), null;
      }
      var found := InitializerType(ann, d.name, d.at, d.init);
      t := VariableType(ann, found);
      v := AddMemberVariable(d.name, t, d.at);
    }

    /** A new mutable member of the current class, replacing none. */
    method AddMemberVariable(name: string, t: string, at: Pos) returns (v: Symbol)
      requires Valid() && currentClass != null && name !in currentClass.members
      modifies currentClass`members, this`Syms
      ensures Valid() && Syms == old(Syms) + {v}
      ensures currentClass.members == old(currentClass.members)[name := v]
      ensures fresh(v) && v.name == name && v.kind == VARIABLE && v.mutable && v.ty == t
    {
      v := new Symbol(name, VARIABLE, t, at.line, at.column, true);
      Syms := Syms + {v};
      currentClass.AddMember(v);
    }

    /** The initializer typed by VariableVisitor, checked against the annotation. */
    method InitializerType(ann: Option<string>, name: string, at: Pos, init: Option<Expr>) returns (found: Option<string>)
      requires Valid()
      modifies log
      ensures found == FoundType(InitTyped(init))
      ensures log.items == old(log.items) + FoundErrors(InitTyped(init))
        + (if InitMismatch(ann, found) then [ErrorAt(VariableMismatchMessage(name, ann.value, found.value), at)] else [])
    {
      found := None;
      if init.Some? {
        var it := VisitExpr(VariableV, log, env, Syms, init.value);
        found := Some(it);
        if InitMismatch(ann, found) {
          log.Add(VariableMismatchMessage(name, ann.value, it), at.line, at.column);
        }
      }
    }

    /**
     * v is a symbol created by the call, with this name, kind, type and
     * mutability, and the only change to the scopes is its declaration
     * in the current one.
     */
    twostate predicate Declared(new v: Symbol, name: string, kind: Kind, ty: string, mutable: bool)
      reads this, env, v
    {
      && fresh(v) && v.name == name && v.kind == kind && v.ty == ty && v.mutable == mutable
      && env.current == old(env.current) && env.current < |old(env.scopes)|
      && env.scopes == AddTo(old(env.scopes), env.current, v)
    }

    /** A new symbol, declared in the current scope. */
    method DeclareNew(name: string, kind: Kind, ty: string, at: Pos, mutable: bool) returns (v: Symbol)
      requires Valid()
      modifies env`scopes, this`Syms
      ensures Valid() && Walked()
      ensures Declared(v, name, kind, ty, mutable)
    {
      v := new Symbol(name, kind, ty, at.line, at.column, mutable);
      Declare(v);
    }

    /** agregar on the current scope. */
    method Declare(v: Symbol)
      requires Valid() && forall k :: 0 <= k < |v.params| ==> v.params[k] in Syms
      modifies env`scopes, this`Syms
      ensures Valid() && Syms == old(Syms) + {v}
      ensures env.scopes == AddTo(old(env.scopes), env.current, v)
      ensures Extends(old(env.scopes), env.scopes, env.current)
    {
      Syms := Syms + {v};
      env.Add(v);
      AddToExtends(old(env.scopes), env.current, v);
    }

    /**
     * visitConstantDeclaration: a missing initializer is reported and the
     * check goes on; a name already declared in the current scope is
     * reported and nothing is declared; otherwise an immutable constant
     * is declared with the annotation's type, or the initializer's when
     * the annotation is absent or "desconocido".
     */
    method VisitConstDecl(d: ConstDecl) returns (t: string, ghost c: Symbol?)
      requires Valid()
      modifies log, env`scopes, this`Syms
      ensures Valid() && Walked()
      ensures var missing := if d.init.None? then [ErrorAt(UninitializedConstantMessage(d.name), d.at)] else [];
        old(ExistsLocal(env.scopes, env.current, d.name)) ==>
        && t == (if d.ann.Some? then TypeText(d.ann.value) else UNKNOWN)
        && env.scopes == old(env.scopes)
        && log.items == old(log.items) + missing + [ErrorAt(DuplicateConstantMessage(d.name), d.at)]
      ensures var missing := if d.init.None? then [ErrorAt(UninitializedConstantMessage(d.name), d.at)] else [];
        !old(ExistsLocal(env.scopes, env.current, d.name)) ==>
        var typed := old(InitTyped(d.init));
        var ann := Annotation(d.ann);
        && t == ConstantType(ann, FoundType(typed))
        && log.items == old(log.items) + missing + FoundErrors(typed)
             + (if ConstantMismatch(ann, FoundType(typed))
                then [ErrorAt(ConstantMismatchMessage(d.name, ann.value, FoundType(typed).value), d.at)] else [])
        && c != null && Declared(c, d.name, CONSTANT, t, false)
    {
      ghost var typed := InitTyped(d.init);
      ReportUninitialized(d);
      assert InitTyped(d.init) == typed;
      t, c := DeclareNewConstant(d);
    }

    /** A constant without initializer is reported, and the declaration goes on. */
    method ReportUninitialized(d: ConstDecl)
      requires Valid()
      modifies log
      ensures Valid() && Walked()
      ensures log.items == old(log.items) + if d.init.None? then [ErrorAt(UninitializedConstantMessage(d.name), d.at)] else []
    {
      if d.init.None? {
        log.Add(UninitializedConstantMessage(d.name), d.at.line, d.at.column);
      }
    }

    /** A name already declared in the current scope is reported; any other is declared. */
    method DeclareNewConstant(d: ConstDecl) returns (t: string, ghost c: Symbol?)
      requires Valid()
      modifies log, env`scopes, this`Syms
      ensures Valid() && Walked()
      ensures old(ExistsLocal(env.scopes, env.current, d.name)) ==>
        && t == (if d.ann.Some? then TypeText(d.ann.value) else UNKNOWN)
        && env.scopes == old(env.scopes)
        && log.items == old(log.items) + [ErrorAt(DuplicateConstantMessage(d.name), d.at)]
      ensures !old(ExistsLocal(env.scopes, env.current, d.name)) ==>
        var typed := old(InitTyped(d.init));
        var ann := Annotation(d.ann);
        && t == ConstantType(ann, FoundType(typed))
        && log.items == old(log.items) + FoundErrors(typed)
             + (if ConstantMismatch(ann, FoundType(typed))
                then [ErrorAt(ConstantMismatchMessage(d.name, ann.value, FoundType(typed).value), d.at)] else [])
        && c != null && Declared(c, d.name, CONSTANT, t, false)
    {
      if ExistsLocal(env.scopes, env.current, d.name) {
        log.Add(DuplicateConstantMessage(d.name), d.at.line, d.at.column);
        return if d.ann.Some? then TypeText(d.ann.value) else UNKNOWN, null;
      }
      t, c := DeclareConstant(d);
    }

    /** A constant whose name is new in the current scope: its initializer is checked and it is declared. */
    method DeclareConstant(d: ConstDecl) returns (t: string, ghost c: Symbol)
      requires Valid() && !ExistsLocal(env.scopes, env.current, d.name)
      modifies log, env`scopes, this`Syms
      ensures Valid() && Walked()
      ensures var typed := old(InitTyped(d.init));
        var ann := Annotation(d.ann);
        && t == ConstantType(ann, FoundType(typed))
        && log.items == old(log.items) + FoundErrors(typed)
             + (if ConstantMismatch(ann, FoundType(typed))
                then [ErrorAt(ConstantMismatchMessage(d.name, ann.value, FoundType(typed).value), d.at)] else [])
        && Declared(c, d.name, CONSTANT, t, false)
    {
      var ann := Annotation(d.ann);
      var found := ConstantInitializerType(ann, d.name, d.at, d.init);
      t := ConstantType(ann, found);
      c := DeclareNew(d.name, CONSTANT, t, d.at, false);
    }

    /** A constant's initializer typed by VariableVisitor, checked against a known annotation. */
    method ConstantInitializerType(ann: Option<string>, name: string, at: Pos, init: Option<Expr>) returns (found: Option<string>)
      requires Valid()
      modifies log
      ensures found == FoundType(InitTyped(init))
      ensures log.items == old(log.items) + FoundErrors(InitTyped(init))
        + (if ConstantMismatch(ann, found) then [ErrorAt(ConstantMismatchMessage(name, ann.value, found.value), at)] else [])
    {
      found := None;
      if init.Some? {
        var it := VisitExpr(VariableV, log, env, Syms, init.value);
        found := Some(it);
        if ConstantMismatch(ann, found) {
          log.Add(ConstantMismatchMessage(name, ann.value, it), at.line, at.column);
        }
      }
    }

    /**
     * visitAssignment: the assigned name must resolve, to a mutable
     * symbol; then the assignment's first expression is typed and must
     * have the symbol's type or be unknown. The result is that type, the
     * constant's type, or "desconocido" for an undeclared name.
     */
    method VisitAssignment(a: Assignment) returns (t: string)
      requires Valid()
      modifies log
      ensures Valid() && Walked()
      ensures log.items == old(log.items) + old(AssignmentErrors(env.scopes, env.current, Syms, a))
      ensures var sym := Obtain(env.scopes, env.current, AssignedName(a));
        && (sym.None? ==> t == UNKNOWN)
        && (sym.Some? && !sym.value.mutable ==> t == sym.value.ty)
        && (sym.Some? && sym.value.mutable ==> t == old(TypeHere(VariableV, FirstExpression(a))).ty)
    {
      var name := AssignedName(a);
      var sym := Obtain(env.scopes, env.current, name);
      if sym.None? {
        log.Add(UndeclaredAssignmentMessage(name), a.at.line, a.at.column);
        return UNKNOWN;
      }
      if !sym.value.mutable {
        log.Add(ConstantAssignmentMessage(name), a.at.line, a.at.column);
        return sym.value.ty;
      }
      t := CheckAssigned(a, name, sym.value.ty);
    }

    /** The assignment's first expression, typed by VariableVisitor, must have the target's type or be unknown. */
    method CheckAssigned(a: Assignment, name: string, expected: string) returns (t: string)
      requires Valid()
      modifies log
      ensures Valid() && Walked()
      ensures var typed := old(TypeHere(VariableV, FirstExpression(a)));
        && t == typed.ty
        && log.items == old(log.items) + typed.errs
             + (if AssignmentMismatch(expected, typed.ty)
                then [ErrorAt(AssignmentMismatchMessage(name, expected, typed.ty), a.at)] else [])
    {
      t := VisitExpr(VariableV, log, env, Syms, FirstExpression(a));
      if AssignmentMismatch(expected, t) {
        log.Add(AssignmentMismatchMessage(name, expected, t), a.at.line, a.at.column);
      }
    }

    /**
     * visitForStatement: one loop level deeper, in a new scope holding the
     * initializer's declaration; nothing declared in the loop is visible
     * after it.
     */
    method VisitFor(st: Stmt)
      requires Valid() && st.For?
      modifies this, log, env, ClassFrame()`members
      ensures Valid() && Walked()
      ensures Sealed(old(env.scopes), env.scopes) && |old(env.scopes)| < |env.scopes|
      ensures ForHeaderLogged(st)
      ensures DeclarationFree(st) ==> WalkedAs(st)
      decreases st, 5
    {
      ghost var ctx := Context();
      ghost var ie := ForInitErrors(Entered(env.scopes, env.current), |env.scopes|, Syms, currentClass, st.init);
      ghost var e := if DeclarationFree(st) then ForErrors(env.scopes, env.current, Syms, ctx.(loops := ctx.loops + 1), st) else [];
      if DeclarationFree(st) {
        ForStmtErrors(env.scopes, env.current, Syms, ctx, st);
      }
      DeeperFor(st, ie, e);
    }

    /**
     * The loop's scope one loop level deeper; ie is the initializer's
     * errors in a new child scope, e the loop's errors when it declares
     * nothing.
     */
    method DeeperFor(st: Stmt, ghost ie: seq<SemanticError>, ghost e: seq<SemanticError>)
      requires Valid() && st.For?
      requires ie == ForInitErrors(Entered(env.scopes, env.current), |env.scopes|, Syms, currentClass, st.init)
      requires DeclarationFree(st) ==> e == ForErrors(env.scopes, env.current, Syms, Context().(loops := loopDepth + 1), st)
      modifies this, log, env, ClassFrame()`members
      ensures Valid() && Walked()
      ensures Sealed(old(env.scopes), env.scopes) && |old(env.scopes)| < |env.scopes|
      ensures Begins(log.items, old(log.items) + ie + ForCheckErrors(env.scopes, |old(env.scopes)|, Syms, st))
      ensures DeclarationFree(st) ==> log.items == old(log.items) + e
      decreases st, 4
    {
      SetLoopDepth(loopDepth + 1);
      ForScope(st, ie, e);
      SetLoopDepth(loopDepth - 1);
    }

    /** The loop's own scope, entered and left around its header and body. */
    method ForScope(st: Stmt, ghost ie: seq<SemanticError>, ghost e: seq<SemanticError>)
      requires Valid() && st.For?
      requires ie == ForInitErrors(Entered(env.scopes, env.current), |env.scopes|, Syms, currentClass, st.init)
      requires DeclarationFree(st) ==> e == ForErrors(env.scopes, env.current, Syms, Context(), st)
      modifies this, log, env, ClassFrame()`members
      ensures Valid() && Walked()
      ensures Sealed(old(env.scopes), env.scopes) && |old(env.scopes)| < |env.scopes|
      ensures Begins(log.items, old(log.items) + ie + ForCheckErrors(env.scopes, |old(env.scopes)|, Syms, st))
      ensures DeclarationFree(st) ==> log.items == old(log.items) + e
      decreases st, 3
    {
      ghost var s0, cur0 := env.scopes, env.current;
      env.EnterScope();
      ForEntered(st, ie, e, s0, cur0);
      env.ExitScope();
    }

    /** The loop's own scope, just entered from scope cur0 of s0: what the statement adds to s0 stays sealed. */
    method ForEntered(st: Stmt, ghost ie: seq<SemanticError>, ghost e: seq<SemanticError>, ghost s0: seq<Scope>, ghost cur0: nat)
      requires Valid() && st.For? && cur0 < |s0|
      requires env.scopes == Entered(s0, cur0) && env.current == |s0|
      requires ie == ForInitErrors(env.scopes, env.current, Syms, currentClass, st.init)
      requires DeclarationFree(st) ==> Ready(s0, cur0, Syms) && e == ForErrors(s0, cur0, Syms, Context(), st)
      modifies this, log, env, ClassFrame()`members
      ensures Valid() && Walked()
      ensures Sealed(s0, env.scopes) && Extends(s0, env.scopes, cur0)
      ensures |s0| < |env.scopes| && env.scopes[|s0|].parent == Some(cur0) && env.current == |s0|
      ensures Begins(log.items, old(log.items) + ie + ForCheckErrors(env.scopes, |s0|, Syms, st))
      ensures DeclarationFree(st) ==> log.items == old(log.items) + e
      decreases st, 2
    {
      if DeclarationFree(st) {
        ForErrorsEntered(s0, cur0, Syms, Context(), st);
      }
      ForInside(st, ie, e);
      EnteredThenExtended(s0, cur0, env.scopes);
      SealedExtends(s0, env.scopes, cur0);
    }

    /**
     * The log of a for statement begins with its header's errors: the
     * initializer's, checked in the loop's own scope (the first scope the
     * statement created, at index |old(env.scopes)|) when that scope was
     * new, then the condition and update checks in that scope as the
     * initializer left it.
     */
    twostate predicate ForHeaderLogged(st: Stmt)
      requires old(Valid()) && Valid() && st.For? && |old(env.scopes)| < |env.scopes|
      reads this, log, env, Syms`params, Syms`enclosingClassName
    {
      Begins(log.items, old(log.items)
        + old(ForInitErrors(Entered(env.scopes, env.current), |env.scopes|, Syms, currentClass, st.init))
        + ForCheckErrors(env.scopes, |old(env.scopes)|, Syms, st))
    }

    /** The header, then the body; ie is the initializer's errors here, e the loop's when it declares nothing. */
    method ForInside(st: Stmt, ghost ie: seq<SemanticError>, ghost e: seq<SemanticError>)
      requires Valid() && st.For?
      requires ie == ForInitErrors(env.scopes, env.current, Syms, currentClass, st.init)
      requires DeclarationFree(st) ==> e == ForErrors(env.scopes, env.current, Syms, Context(), st)
      modifies this, log, env, ClassFrame()`members
      ensures Valid() && Walked()
      ensures Begins(log.items, old(log.items) + ie + ForCheckErrors(env.scopes, env.current, Syms, st))
      ensures DeclarationFree(st) ==> log.items == old(log.items) + e
      decreases st, 1
    {
      ghost var log0 := log.items;
      ghost var he := if DeclarationFree(st) then ForHeaderErrors(env.scopes, env.current, Syms, st) else [];
      ghost var be := if DeclarationFree(st) then StmtsErrors(env.scopes, env.current, Syms, Context(), st.body) else [];
      ForHeader(st, ie, he);
      ForBody(st, be);
      if DeclarationFree(st) {
        AppendAssoc(log0, he, be);
      }
    }

    /** The for loop's body, a block: the header checks read the same in the scopes it leaves. */
    method ForBody(st: Stmt, ghost be: seq<SemanticError>)
      requires Valid() && st.For?
      requires DeclarationFree(st) ==> be == StmtsErrors(env.scopes, env.current, Syms, Context(), st.body)
      modifies this, log, env, ClassFrame()`members
      ensures Valid() && Walked()
      ensures ForCheckErrors(env.scopes, env.current, Syms, st) == old(ForCheckErrors(env.scopes, env.current, Syms, st))
      ensures DeclarationFree(st) ==> log.items == old(log.items) + be
      decreases st, 0
    {
      ghost var s1, syms1 := env.scopes, Syms;
      VisitBlock(st.body);
      ForCheckErrorsSealed(s1, syms1, env.scopes, Syms, env.current, st);
      SealedExtends(s1, env.scopes, env.current);
    }

    /**
     * The for header: the initializer; then the condition check on the
     * first expression written, which is the update when the condition is
     * omitted; the update is only typed when both are written.
     */
    method ForHeader(st: Stmt, ghost ie: seq<SemanticError>, ghost he: seq<SemanticError>)
      requires Valid() && st.For?
      requires ie == ForInitErrors(env.scopes, env.current, Syms, currentClass, st.init)
      requires DeclarationFree(st) ==> he == ForHeaderErrors(env.scopes, env.current, Syms, st)
      modifies this, log, env, ClassFrame()`members
      ensures Valid() && Walked() && currentClass == old(currentClass)
      ensures log.items == old(log.items) + ie + ForCheckErrors(env.scopes, env.current, Syms, st)
      ensures DeclarationFree(st) ==> env.scopes == old(env.scopes) && Syms == old(Syms) && log.items == old(log.items) + he
      decreases st, 0
    {
      ghost var log0 := log.items;
      ghost var ce := ForCheckErrors(env.scopes, env.current, Syms, st);
      ghost var free := DeclarationFree(st);
      if free {
        assert he == ie + ce;
      }
      ForInitializer(st.init);
      assert log.items == log0 + ie;
      ghost var log1 := log.items;
      ForChecks(st);
      if free {
        assert log.items == log1 + ce;
        AppendAssoc(log0, ie, ce);
      }
    }

    /** The for loop's initializer: a variable declaration, an assignment, or nothing. */
    method ForInitializer(init: ForInit)
      requires Valid()
      modifies this, log, env, ClassFrame()`members
      ensures Valid() && Walked() && currentClass == old(currentClass)
      ensures log.items == old(log.items) + old(ForInitErrors(env.scopes, env.current, Syms, currentClass, init))
      ensures !init.InitDecl? ==> env.scopes == old(env.scopes) && Syms == old(Syms)
      decreases init, 3
    {
      match init {
        case InitDecl(d) => var t; ghost var v; t, v := VisitVarDecl(d);
        case InitAssign(a) => var _ := VisitAssignment(a);
        case NoInit =>
      }
    }

    /** The condition check on the first expression written, then the update when both are written. */
    method ForChecks(st: Stmt)
      requires Valid() && st.For?
      modifies log
      ensures Valid() && Walked()
      ensures log.items == old(log.items) + ForCheckErrors(env.scopes, env.current, Syms, st)
    {
      CheckCondition("for", st.at, if st.cond.Some? then st.cond else st.update);
      ForUpdate(st);
    }

    /** The update's own errors, when both the condition and the update are written. */
    method ForUpdate(st: Stmt)
      requires Valid() && st.For?
      modifies log
      ensures log.items == old(log.items) + if st.cond.Some? && st.update.Some? then TypeHere(VariableV, st.update.value).errs else []
    {
      if st.cond.Some? && st.update.Some? {
        var _ := VisitExpr(VariableV, log, env, Syms, st.update.value);
      }
    }

    /**
     * visitForeachStatement: one loop level deeper, in a new scope that
     * may hold the loop variable; nothing declared in the loop is visible
     * after it.
     */
    method VisitForeach(st: Stmt)
      requires Valid() && st.Foreach?
      modifies this, log, env, ClassFrame()`members
      ensures Valid() && Walked()
      ensures Sealed(old(env.scopes), env.scopes)
      ensures Begins(log.items, old(log.items) + old(ForeachBindingErrors(env.scopes, env.current, Syms, st)))
      decreases st, 4
    {
      SetLoopDepth(loopDepth + 1);
      ForeachScope(st);
      SetLoopDepth(loopDepth - 1);
    }

    /** The loop's own scope, entered and left around the binding and the body. */
    method ForeachScope(st: Stmt)
      requires Valid() && st.Foreach?
      modifies this, log, env, ClassFrame()`members
      ensures Valid() && Walked()
      ensures Sealed(old(env.scopes), env.scopes)
      ensures Begins(log.items, old(log.items) + old(ForeachBindingErrors(env.scopes, env.current, Syms, st)))
      decreases st, 3
    {
      ghost var s0, cur0 := env.scopes, env.current;
      ghost var be := ForeachBindingErrors(s0, cur0, Syms, st);
      EnteredSameLookups(s0, cur0, Syms);
      TypeOfSameLookups(VariableV, Entered(s0, cur0), |s0|, Syms, s0, cur0, Syms, st.iterable);
      env.EnterScope();
      assert ForeachBindingErrors(env.scopes, env.current, Syms, st) == be;
      ForeachInside(st);
      EnteredThenExtended(s0, cur0, env.scopes);
      SealedExtends(s0, env.scopes, cur0);
      env.ExitScope();
    }

    /** The loop variable's binding, then the body. */
    method ForeachInside(st: Stmt)
      requires Valid() && st.Foreach?
      modifies this, log, env, ClassFrame()`members
      ensures Valid() && Walked()
      ensures Begins(log.items, old(log.items) + old(ForeachBindingErrors(env.scopes, env.current, Syms, st)))
      decreases st, 2
    {
      ghost var s0 := env.scopes;
      ghost var v := ForeachBinding(st.at, st.iterName, st.iterable);
      ghost var s1, mid := env.scopes, log.items;
      VisitBlock(st.body);
      assert mid <= log.items;
      SealedExtends(s1, env.scopes, env.current);
      ExtendsTransitive(s0, s1, env.scopes, env.current);
    }

    /**
     * The iterable, typed by VariableVisitor, must be an array type; then
     * the loop name is declared as a mutable variable of the element type.
     */
    method ForeachBinding(at: Pos, name: string, iterable: Expr) returns (ghost v: Symbol?)
      requires Valid()
      modifies log, env`scopes, this`Syms
      ensures Valid() && Walked()
      ensures var it := old(TypeHere(VariableV, iterable));
        && (!EndsWith(it.ty, "[]") ==>
              && log.items == old(log.items) + it.errs + [ErrorAt(IterationMessage(name, it.ty), at)]
              && env.scopes == old(env.scopes))
        && (EndsWith(it.ty, "[]") ==>
              && log.items == old(log.items) + it.errs
              && v != null && Declared(v, name, VARIABLE, ElementType(it.ty), true))
    {
      var it := VisitExpr(VariableV, log, env, Syms, iterable);
      if !EndsWith(it, "[]") {
        log.Add(IterationMessage(name, it), at.line, at.column);
        v := null;
      } else {
        v := DeclareNew(name, VARIABLE, ElementType(it), at, true);
      }
    }

    /**
     * visitSwitchStatement: the subject is typed by VariableVisitor, then
     * every case in order, then the default's statements one switch level
     * deeper, in the enclosing scope.
     */
    method VisitSwitch(st: Stmt)
      requires Valid() && st.Switch?
      modifies this, log, env, ClassFrame()`members
      ensures Valid() && Walked()
      ensures var subject := old(TypeHere(VariableV, st.subject));
        |old(log.items) + subject.errs| <= |log.items|
        && log.items[..|old(log.items) + subject.errs|] == old(log.items) + subject.errs
      ensures DeclarationFree(st) ==> WalkedAs(st)
      decreases st, 2
    {
      ghost var ctx := Context();
      ghost var subject := TypeHere(VariableV, st.subject);
      ghost var ce := if DeclarationFree(st) then CasesErrors(env.scopes, env.current, Syms, ctx, subject.ty, st.cases) else [];
      ghost var de := if DeclarationFree(st) then DefaultErrors(env.scopes, env.current, Syms, ctx, st.defaultCase) else [];
      if DeclarationFree(st) {
        SwitchErrors(env.scopes, env.current, Syms, ctx, st);
      }
      SubjectThenCases(st, subject, ce, de);
    }

    /** The subject, then the cases and the default; ce and de are their errors when st declares nothing. */
    method SubjectThenCases(st: Stmt, ghost subject: Typed, ghost ce: seq<SemanticError>, ghost de: seq<SemanticError>)
      requires Valid() && st.Switch? && subject == TypeHere(VariableV, st.subject)
      requires DeclarationFree(st) ==>
        && ce == CasesErrors(env.scopes, env.current, Syms, Context(), subject.ty, st.cases)
        && de == DefaultErrors(env.scopes, env.current, Syms, Context(), st.defaultCase)
      modifies this, log, env, ClassFrame()`members
      ensures Valid() && Walked()
      ensures |old(log.items)| + |subject.errs| <= |log.items|
        && log.items[..|old(log.items)| + |subject.errs|] == old(log.items) + subject.errs
      ensures DeclarationFree(st) ==> Sealed(old(env.scopes), env.scopes) && log.items == old(log.items) + (subject.errs + ce + de)
      decreases st, 1
    {
      ghost var log0 := log.items;
      var switchType := SwitchSubject(st.subject);
      ghost var mid := log.items;
      VisitCases(st, switchType, ce, de);
      assert mid <= log.items;
      if DeclarationFree(st) {
        AppendAssoc(log0, subject.errs, ce + de);
        AppendAssoc(subject.errs, ce, de);
      }
    }

    /** The subject of a switch, typed by VariableVisitor. */
    method SwitchSubject(subject: Expr) returns (t: string)
      requires Valid()
      modifies log
      ensures Valid() && Walked()
      ensures var typed := old(TypeHere(VariableV, subject));
        t == typed.ty && log.items == old(log.items) + typed.errs
    {
      t := VisitExpr(VariableV, log, env, Syms, subject);
    }

    /** Every case of a switch in order, then its default; ce and de are their errors when st declares nothing. */
    method VisitCases(st: Stmt, switchType: string, ghost ce: seq<SemanticError>, ghost de: seq<SemanticError>)
      requires Valid() && st.Switch?
      requires DeclarationFree(st) ==>
        && ce == CasesErrors(env.scopes, env.current, Syms, Context(), switchType, st.cases)
        && de == DefaultErrors(env.scopes, env.current, Syms, Context(), st.defaultCase)
      modifies this, log, env, ClassFrame()`members
      ensures Valid() && Walked()
      ensures DeclarationFree(st) ==> Sealed(old(env.scopes), env.scopes) && log.items == old(log.items) + (ce + de)
      decreases st, 0
    {
      ghost var log0, s0, syms0 := log.items, env.scopes, Syms;
      ghost var cases := if CasesDeclarationFree(st.cases) then CasesErrors(env.scopes, env.current, Syms, Context(), switchType, st.cases) else [];
      VisitCaseList(st.cases, switchType, cases);
      if st.defaultCase.Some? {
        VisitDefault(st.defaultCase.value.body, s0, syms0, DeclarationFree(st), de);
      }
      if DeclarationFree(st) {
        AppendAssoc(log0, ce, de);
      }
    }

    /** The cases in order, in the enclosing scope; when none declares anything, each reports its CaseErrors there. */
    method VisitCaseList(cs: seq<Case>, switchType: string, ghost expected: seq<SemanticError>)
      requires Valid()
      requires CasesDeclarationFree(cs) ==> expected == CasesErrors(env.scopes, env.current, Syms, Context(), switchType, cs)
      modifies this, log, env, ClassFrame()`members
      ensures Valid() && Walked()
      ensures CasesDeclarationFree(cs) ==> Sealed(old(env.scopes), env.scopes) && log.items == old(log.items) + expected
      decreases cs, 4
    {
      ghost var s0, syms0, ctx0, log0 := env.scopes, Syms, Context(), log.items;
      ghost var done: seq<SemanticError> := [];
      var i := 0;
      while i < |cs|
        invariant 0 <= i <= |cs|
        invariant Valid() && Walked() && Context() == ctx0
        invariant CasesDeclarationFree(cs) ==>
          && Ready(s0, env.current, syms0) && Sealed(s0, env.scopes)
          && log.items == log0 + done
          && done == CasesErrors(s0, env.current, syms0, ctx0, switchType, cs[..i])
      {
        done := NextCase(cs, i, switchType, s0, syms0, ctx0, log0, done);
        i := i + 1;
      }
      assert cs[..i] == cs;
      assert CasesDeclarationFree(cs) ==> done == expected;
    }

    /** Case i of a list: the log holds the errors of the cases up to i before it and up to i + 1 after it. */
    method NextCase(cs: seq<Case>, i: nat, switchType: string, ghost s0: seq<Scope>, ghost syms0: set<Symbol>,
                    ghost ctx0: WalkContext, ghost log0: seq<SemanticError>, ghost done: seq<SemanticError>)
      returns (ghost done': seq<SemanticError>)
      requires Valid() && i < |cs| && Context() == ctx0
      requires CasesDeclarationFree(cs) ==>
        && Ready(s0, env.current, syms0) && Sealed(s0, env.scopes)
        && log.items == log0 + done
        && done == CasesErrors(s0, env.current, syms0, ctx0, switchType, cs[..i])
      modifies this, log, env, ClassFrame()`members
      ensures Valid() && Walked() && Context() == ctx0
      ensures CasesDeclarationFree(cs) ==>
        && Ready(s0, env.current, syms0) && Sealed(s0, env.scopes)
        && log.items == log0 + done'
        && done' == CasesErrors(s0, env.current, syms0, ctx0, switchType, cs[..i + 1])
      decreases cs[i], 3
    {
      done' := done;
      ghost var log1 := log.items;
      OneCase(cs, i, switchType, s0, syms0);
      if CasesDeclarationFree(cs) {
        ghost var c := CaseErrors(s0, env.current, syms0, ctx0, switchType, cs[i]);
        CasesErrorsStep(s0, env.current, syms0, ctx0, switchType, cs, i);
        AppendAssoc(log0, done, c);
        done' := done + c;
      }
    }

    /** Case i of a list, whose errors, when no case declares anything, are those it has in the switch's scope. */
    method OneCase(cs: seq<Case>, i: nat, switchType: string, ghost s0: seq<Scope>, ghost syms0: set<Symbol>)
      requires Valid() && i < |cs|
      requires CasesDeclarationFree(cs) ==> Ready(s0, env.current, syms0) && Sealed(s0, env.scopes)
      modifies this, log, env, ClassFrame()`members
      ensures Valid() && Walked() && Context() == old(Context())
      ensures CasesDeclarationFree(cs) ==>
        && Ready(s0, env.current, syms0) && Sealed(s0, env.scopes)
        && log.items == old(log.items) + CaseErrors(s0, env.current, syms0, old(Context()), switchType, cs[i])
      decreases cs[i], 2
    {
      ghost var ce := if AllDeclarationFree(cs[i].body) then CaseErrors(env.scopes, env.current, Syms, Context(), switchType, cs[i]) else [];
      if CasesDeclarationFree(cs) {
        SealedSameLookups(s0, syms0, env.scopes, Syms, env.current);
        CaseErrorsSameLookups(s0, env.current, syms0, env.scopes, env.current, Syms, Context(), switchType, cs[i]);
      }
      ghost var s1 := env.scopes;
      VisitCase(cs[i], switchType, ce);
      if CasesDeclarationFree(cs) {
        SealedTransitive(s0, s1, env.scopes);
      }
    }

    /** visitSwitchCase: the case's own errors and type check come before its statements. */
    method VisitCase(c: Case, switchType: string, ghost expected: seq<SemanticError>)
      requires Valid()
      requires AllDeclarationFree(c.body) ==> expected == CaseErrors(env.scopes, env.current, Syms, Context(), switchType, c)
      modifies this, log, env, ClassFrame()`members
      ensures Valid() && Walked()
      ensures var head := old(log.items) + old(CaseCheckErrors(env.scopes, env.current, Syms, switchType, c));
        |head| <= |log.items| && log.items[..|head|] == head
      ensures AllDeclarationFree(c.body) ==> Sealed(old(env.scopes), env.scopes) && log.items == old(log.items) + expected
      decreases c, 1
    {
      ghost var cc := CaseCheckErrors(env.scopes, env.current, Syms, switchType, c);
      ghost var be := if AllDeclarationFree(c.body) then StmtsErrors(env.scopes, env.current, Syms, Context().(switches := switchDepth + 1), c.body) else [];
      if AllDeclarationFree(c.body) {
        assert expected == cc + be;
      }
      CheckThenBody(c, switchType, cc, be);
    }

    /** The case check, whose errors are cc, then the case body, whose errors are be when it declares nothing. */
    method CheckThenBody(c: Case, switchType: string, ghost cc: seq<SemanticError>, ghost be: seq<SemanticError>)
      requires Valid() && cc == CaseCheckErrors(env.scopes, env.current, Syms, switchType, c)
      requires AllDeclarationFree(c.body) ==> be == StmtsErrors(env.scopes, env.current, Syms, Context().(switches := switchDepth + 1), c.body)
      modifies this, log, env, ClassFrame()`members
      ensures Valid() && Walked()
      ensures |old(log.items)| + |cc| <= |log.items| && log.items[..|old(log.items)| + |cc|] == old(log.items) + cc
      ensures AllDeclarationFree(c.body) ==> Sealed(old(env.scopes), env.scopes) && log.items == old(log.items) + cc + be
      decreases c, 0
    {
      CheckCase(c, switchType);
      ghost var mid := log.items;
      VisitCaseBody(c.body, AllDeclarationFree(c.body), be);
      assert mid <= log.items;
    }

    /** A case expression, typed by VariableVisitor, must have the subject's type. */
    method CheckCase(c: Case, switchType: string)
      requires Valid()
      modifies log
      ensures Valid() && Walked()
      ensures log.items == old(log.items) + old(CaseCheckErrors(env.scopes, env.current, Syms, switchType, c))
    {
      var caseType := VisitExpr(VariableV, log, env, Syms, c.caseExpr);
      if switchType != caseType {
        log.Add(CaseMessage(caseType, switchType), c.at.line, c.at.column);
      }
    }

    /**
     * visitDefaultCase, after the cases, which left the arena s0 sealed:
     * when nothing declares anything, the default reports what it would
     * have reported in s0.
     */
    method VisitDefault(body: seq<Stmt>, ghost s0: seq<Scope>, ghost syms0: set<Symbol>, ghost free: bool, ghost expected: seq<SemanticError>)
      requires Valid()
      requires free ==>
        && AllDeclarationFree(body) && Ready(s0, env.current, syms0) && Sealed(s0, env.scopes)
        && expected == StmtsErrors(s0, env.current, syms0, Context().(switches := switchDepth + 1), body)
      modifies this, log, env, ClassFrame()`members
      ensures Valid() && Walked()
      ensures free ==> Sealed(s0, env.scopes) && log.items == old(log.items) + expected
      decreases body, 2
    {
      ghost var ctx := Context().(switches := switchDepth + 1);
      if free {
        SealedSameLookups(s0, syms0, env.scopes, Syms, env.current);
        StmtsErrorsSameLookups(s0, env.current, syms0, env.scopes, env.current, Syms, ctx, body);
      }
      ghost var s1 := env.scopes;
      VisitCaseBody(body, free, expected);
      if free {
        SealedTransitive(s0, s1, env.scopes);
      }
    }

    /** The statements of a case or of the default, one switch level deeper, without a new scope. */
    method VisitCaseBody(body: seq<Stmt>, ghost free: bool, ghost expected: seq<SemanticError>)
      requires Valid()
      requires free ==> AllDeclarationFree(body) && expected == StmtsErrors(env.scopes, env.current, Syms, Context().(switches := switchDepth + 1), body)
      modifies this, log, env, ClassFrame()`members
      ensures Valid() && Walked()
      ensures free ==> Sealed(old(env.scopes), env.scopes) && log.items == old(log.items) + expected
      decreases body, 1
    {
      SetSwitchDepth(switchDepth + 1);
      VisitStatements(body);
      SetSwitchDepth(switchDepth - 1);
    }

    /** The switch nesting counter becomes n; nothing else changes. */
    method SetSwitchDepth(n: nat)
      modifies this`switchDepth
      ensures switchDepth == n
    {
      switchDepth := n;
    }

    /**
     * visitTryCatchStatement: the try block runs in a scope of its own; a
     * catch block runs in another. Neither is visible after the statement.
     */
    method VisitTryCatch(st: Stmt)
      requires Valid() && st.TryCatch?
      modifies this, log, env, ClassFrame()`members
      ensures Valid() && Walked()
      ensures Sealed(old(env.scopes), env.scopes)
      ensures DeclarationFree(st) ==> WalkedAs(st)
      decreases st, 2
    {
      ghost var ctx := Context();
      ghost var te := if DeclarationFree(st) then StmtsErrors(env.scopes, env.current, Syms, ctx, st.body) else [];
      ghost var ce := if DeclarationFree(st) && st.handler.Some? then StmtsErrors(env.scopes, env.current, Syms, ctx, st.handler.value.body) else [];
      if DeclarationFree(st) {
        TryCatchErrors(env.scopes, env.current, Syms, ctx, st);
      }
      TryThenCatch(st, te, ce);
    }

    /** The try block, then the catch block when there is one; te and ce are their errors when st declares nothing. */
    method TryThenCatch(st: Stmt, ghost te: seq<SemanticError>, ghost ce: seq<SemanticError>)
      requires Valid() && st.TryCatch?
      requires DeclarationFree(st) ==>
        && te == StmtsErrors(env.scopes, env.current, Syms, Context(), st.body)
        && ce == (if st.handler.Some? then StmtsErrors(env.scopes, env.current, Syms, Context(), st.handler.value.body) else [])
      modifies this, log, env, ClassFrame()`members
      ensures Valid() && Walked()
      ensures Sealed(old(env.scopes), env.scopes)
      ensures DeclarationFree(st) ==> log.items == old(log.items) + (te + ce)
      decreases st, 1
    {
      ghost var log0, s0, syms0 := log.items, env.scopes, Syms;
      ScopedBlock(st.body);
      if st.handler.Some? {
        VisitHandler(st.at, st.handler.value, s0, syms0, DeclarationFree(st), ce);
      }
      if DeclarationFree(st) {
        AppendAssoc(log0, te, ce);
      }
    }

    /**
     * The catch block after the try block, which left the arena s0 sealed:
     * when neither declares anything, the catch block reports what it
     * would have reported in s0.
     */
    method VisitHandler(at: Pos, h: Handler, ghost s0: seq<Scope>, ghost syms0: set<Symbol>, ghost free: bool, ghost expected: seq<SemanticError>)
      requires Valid() && Sealed(s0, env.scopes)
      requires free ==>
        && h.name.None? && AllDeclarationFree(h.body) && Ready(s0, env.current, syms0)
        && expected == StmtsErrors(s0, env.current, syms0, Context(), h.body)
      modifies this, log, env, ClassFrame()`members
      ensures Valid() && Walked()
      ensures Sealed(s0, env.scopes)
      ensures free ==> log.items == old(log.items) + expected
      decreases h, 2
    {
      if free {
        SealedSameLookups(s0, syms0, env.scopes, Syms, env.current);
        StmtsErrorsSameLookups(s0, env.current, syms0, env.scopes, env.current, Syms, Context(), h.body);
      }
      ghost var s1 := env.scopes;
      VisitCatchBlock(at, h);
      SealedTransitive(s0, s1, env.scopes);
    }

    /**
     * A block inside an extra scope around the block's own: the try block,
     * and the catch block when it names no exception.
     */
    method ScopedBlock(body: seq<Stmt>)
      requires Valid()
      modifies this, log, env, ClassFrame()`members
      ensures Valid() && Walked()
      ensures Sealed(old(env.scopes), env.scopes)
      ensures AllDeclarationFree(body) ==> ListWalkedAs(body)
      decreases body, 2
    {
      ghost var s0, cur0 := env.scopes, env.current;
      env.EnterScope();
      if AllDeclarationFree(body) {
        EnteredSameLookups(s0, cur0, Syms);
        StmtsErrorsSameLookups(env.scopes, env.current, Syms, s0, cur0, Syms, Context(), body);
      }
      VisitBlock(body);
      EnteredThenExtended(s0, cur0, env.scopes);
      SealedExtends(s0, env.scopes, cur0);
      env.ExitScope();
    }

    /** The catch block, inside a scope that first declares the named exception as a string variable. */
    method VisitCatchBlock(at: Pos, h: Handler)
      requires Valid()
      modifies this, log, env, ClassFrame()`members
      ensures Valid() && Walked()
      ensures Sealed(old(env.scopes), env.scopes)
      ensures h.name.None? && AllDeclarationFree(h.body) ==> ListWalkedAs(h.body)
      decreases h, 1
    {
      if h.name.Some? {
        NamedCatch(at, h.name.value, h.body);
      } else {
        ScopedBlock(h.body);
      }
    }

    /** A catch block that names its exception: the name is a mutable string variable of the catch scope. */
    method NamedCatch(at: Pos, name: string, body: seq<Stmt>)
      requires Valid()
      modifies this, log, env, ClassFrame()`members
      ensures Valid() && Walked()
      ensures Sealed(old(env.scopes), env.scopes)
      decreases body, 2
    {
      ghost var s0, cur0 := env.scopes, env.current;
      env.EnterScope();
      var x := new Symbol(name, VARIABLE, STRING, at.line, at.column, true);
      Declare(x);
      VisitBlock(body);
      EnteredThenExtended(s0, cur0, env.scopes);
      SealedExtends(s0, env.scopes, cur0);
      env.ExitScope();
    }

    /**
     * visitFunctionDeclaration: a name already declared in the current
     * scope is reported and nothing else happens; otherwise the function
     * is defined and its return type is the result.
     */
    method VisitFunction(f: FuncDecl) returns (t: string, ghost fn: Symbol?)
      requires Valid()
      modifies this, log, env, ClassFrame()`members
      ensures Valid() && Walked()
      ensures old(ExistsLocal(env.scopes, env.current, f.name)) ==>
        && t == ERROR && fn == null
        && env.scopes == old(env.scopes)
        && log.items == old(log.items) + [ErrorAt(DuplicateFunctionMessage(f.name), f.at)]
      ensures !old(ExistsLocal(env.scopes, env.current, f.name)) ==>
        && fn != null && fresh(fn) && t == fn.ty
        && fn.name == f.name && fn.kind == FUNCTION && !fn.mutable
        && fn.nested == (old(currentFunction) != null)
        && fn.enclosingFunctionName == (if old(currentFunction) != null then Some(old(currentFunction).name) else None)
        && ParametersFor(fn.params, f.params, false)
        && FunctionBodyChecked(fn, f, AddTo(old(env.scopes), old(env.current), fn), old(env.current))
      decreases f, 4
    {
      if ExistsLocal(env.scopes, env.current, f.name) {
        log.Add(DuplicateFunctionMessage(f.name), f.at.line, f.at.column);
        return ERROR, null;
      }
      var def := DefineFunction(f);
      t, fn := def.ty, def;
    }

    /**
     * From the arena s with fn declared in scope cur, the body ran in a
     * child of cur that first held the parameters (ParameterArena) and
     * left that arena sealed, the current scope is cur again, and a
     * nested function recorded the names it captures from there.
     */
    ghost predicate FunctionBodyChecked(fn: Symbol, f: FuncDecl, s: seq<Scope>, cur: nat)
      reads env, fn
    {
      && env.current == cur && WellFormed(s) && cur < |s|
      && var inside := ParameterArena(s, cur, fn.params);
         && Sealed(inside, env.scopes)
         && fn.capturedVariables == (if fn.nested then CapturedVariables(inside, |s|, StmtsIdents(f.body)) else {})
    }

    /**
     * The function is declared before its scope is entered (so the body
     * can call it), becomes the current function while its parameters
     * and body are visited, and the previous function and scope are
     * restored afterwards.
     */
    method DefineFunction(f: FuncDecl) returns (fn: Symbol)
      requires Valid()
      modifies this, log, env, ClassFrame()`members
      ensures Valid() && Walked() && fresh(fn)
      ensures fn.name == f.name && fn.kind == FUNCTION && !fn.mutable && fn.ty == ReturnTypeName(f.ret)
      ensures fn.nested == (old(currentFunction) != null)
      ensures fn.enclosingFunctionName == if old(currentFunction) != null then Some(old(currentFunction).name) else None
      ensures ParametersFor(fn.params, f.params, false)
      ensures FunctionBodyChecked(fn, f, AddTo(old(env.scopes), old(env.current), fn), old(env.current))
      decreases f, 3
    {
      ghost var s0, cur0 := env.scopes, env.current;
      fn := NewFunctionSymbol(f);
      AddToExtends(s0, cur0, fn);
      ghost var s1 := env.scopes;
      InFunctionScope(f, fn);
      SealedExtends(s1, env.scopes, cur0);
      ExtendsTransitive(s0, s1, env.scopes, cur0);
    }

    /** A child scope of the current one, visited with fn as the current function; both are restored afterwards. */
    method InFunctionScope(f: FuncDecl, fn: Symbol)
      requires Valid() && fn in Syms && fn.params == [] && fn.capturedVariables == {}
      modifies this, log, env, ClassFrame()`members, fn`params, fn`capturedVariables
      ensures Valid() && Walked() && Sealed(old(env.scopes), env.scopes)
      ensures unchanged(fn`nested, fn`enclosingFunctionName)
      ensures ParametersFor(fn.params, f.params, false)
      ensures FunctionBodyChecked(fn, f, old(env.scopes), old(env.current))
      decreases f, 2
    {
      ghost var s0, cur0 := env.scopes, env.current;
      env.EnterScope();
      var previous := currentFunction;
      currentFunction := fn;
      FunctionScope(f, fn);
      currentFunction := previous;
      assert ParameterArena(s0, cur0, fn.params) == AddAllTo(Entered(s0, cur0), |s0|, fn.params);
      FunctionArenaSealed(s0, cur0, fn.params, env.scopes);
      env.ExitScope();
    }

    /** The function's symbol, marked nested inside another function, declared in the current scope. */
    method NewFunctionSymbol(f: FuncDecl) returns (fn: Symbol)
      requires Valid()
      modifies env`scopes, this`Syms
      ensures Valid()
      ensures Declared(fn, f.name, FUNCTION, ReturnTypeName(f.ret), false) && Syms == old(Syms) + {fn}
      ensures fn.params == [] && fn.capturedVariables == {}
      ensures fn.nested == (currentFunction != null)
      ensures fn.enclosingFunctionName == if currentFunction != null then Some(currentFunction.name) else None
    {
      fn := new Symbol(f.name, FUNCTION, ReturnTypeName(f.ret), f.at.line, f.at.column, false);
      if currentFunction != null {
        fn.SetEnclosingFunctionName(currentFunction.name);
        fn.SetNested(true);
      }
      ghost var nested, enclosing := fn.nested, fn.enclosingFunctionName;
      Declare(fn);
      assert fn.nested == nested && fn.enclosingFunctionName == enclosing;
    }

    /** Inside the function's scope: the parameters, the captured names of a nested function, then the body. */
    method FunctionScope(f: FuncDecl, fn: Symbol)
      requires Valid() && fn in Syms && fn.params == [] && fn.capturedVariables == {}
      requires env.scopes[env.current].parent.Some?
      modifies this, log, env, ClassFrame()`members, fn`params, fn`capturedVariables
      ensures Valid() && Walked() && unchanged(fn`nested, fn`enclosingFunctionName)
      ensures ParametersFor(fn.params, f.params, false)
      ensures var inside := AddAllTo(old(env.scopes), old(env.current), fn.params);
        && Sealed(inside, env.scopes)
        && fn.capturedVariables == (if fn.nested then CapturedVariables(inside, old(env.current), StmtsIdents(f.body)) else {})
      decreases f, 1
    {
      ghost var s0 := env.scopes;
      FunctionHeader(f, fn);
      ghost var s1 := env.scopes;
      FunctionBody(f.body);
      AddAllToExtends(s0, env.current, fn.params);
      SealedExtends(s1, env.scopes, env.current);
      ExtendsTransitive(s0, s1, env.scopes, env.current);
    }

    /** A function's body block: it leaves the arena it started from sealed. */
    method FunctionBody(body: seq<Stmt>)
      requires Valid()
      modifies this, log, env, ClassFrame()`members
      ensures Valid() && Walked() && Sealed(old(env.scopes), env.scopes)
      decreases body, 2
    {
      VisitBlock(body);
    }

    /** The parameters, then the captured names of a nested function. */
    method FunctionHeader(f: FuncDecl, fn: Symbol)
      requires Valid() && fn in Syms && fn.params == [] && fn.capturedVariables == {}
      requires env.scopes[env.current].parent.Some?
      modifies fn`params, fn`capturedVariables, env`scopes, this`Syms
      ensures Valid() && old(Syms) <= Syms
      ensures ParametersFor(fn.params, f.params, false)
      ensures forall q :: q in fn.params ==> fresh(q)
      ensures env.scopes == AddAllTo(old(env.scopes), env.current, fn.params)
      ensures fn.capturedVariables == (if fn.nested then CapturedVariables(env.scopes, env.current, StmtsIdents(f.body)) else {})
    {
      DeclareParameters(fn, f.params);
      if fn.nested {
        RecordCaptures(fn, f.body);
      }
    }

    /**
     * Each parameter in order: its type is built from the annotation, and
     * an immutable variable is appended to fn's parameters and declared in
     * the current scope.
     */
    method DeclareParameters(fn: Symbol, decl: seq<Param>)
      requires Valid() && fn in Syms && fn.params == []
      modifies fn`params, env`scopes, this`Syms
      ensures Valid() && old(Syms) <= Syms
      ensures ParametersFor(fn.params, decl, false)
      ensures forall q :: q in fn.params ==> fresh(q)
      ensures env.scopes == AddAllTo(old(env.scopes), env.current, fn.params)
    {
      var i := 0;
      while i < |decl|
        invariant 0 <= i <= |decl|
        invariant Valid() && old(Syms) <= Syms
        invariant ParametersFor(fn.params, decl[..i], false)
        invariant forall q :: q in fn.params ==> fresh(q)
        invariant env.scopes == AddAllTo(old(env.scopes), env.current, fn.params)
      {
        DeclareNextParameter(fn, decl, i, old(env.scopes));
        i := i + 1;
      }
      assert decl[..i] == decl;
    }

    /** The step of DeclareParameters: parameter i joins the first i. */
    method DeclareNextParameter(fn: Symbol, decl: seq<Param>, i: nat, ghost s0: seq<Scope>)
      requires Valid() && fn in Syms && i < |decl|
      requires ParametersFor(fn.params, decl[..i], false)
      requires env.current < |s0| && env.scopes == AddAllTo(s0, env.current, fn.params)
      modifies fn`params, env`scopes, this`Syms
      ensures Valid() && old(Syms) <= Syms
      ensures ParametersFor(fn.params, decl[..i + 1], false)
      ensures forall q :: q in fn.params ==> q in old(fn.params) || fresh(q)
      ensures env.scopes == AddAllTo(s0, env.current, fn.params)
    {
      ghost var before := fn.params;
      var p := DeclareParameter(fn, decl[i]);
      ParametersForStep(before, p, decl, i, false);
      AddAllToLast(s0, env.current, before, p);
    }

    /** One parameter: a fresh immutable variable, declared in the current scope and appended to fn's parameters. */
    method DeclareParameter(fn: Symbol, d: Param) returns (p: Symbol)
      requires Valid() && fn in Syms
      modifies fn`params, env`scopes, this`Syms
      ensures Valid() && Syms == old(Syms) + {p} && fresh(p)
      ensures fn.params == old(fn.params) + [p]
      ensures ParamTypes(fn.params) == old(ParamTypes(fn.params)) + [p.ty]
      ensures p.name == d.name && p.kind == VARIABLE && !p.mutable && p.ty == ParameterTypeName(d.ty)
      ensures p.line == d.at.line && p.column == d.at.column
      ensures env.scopes == AddTo(old(env.scopes), env.current, p)
    {
      var ty := GetTypeFromContext(d.ty);
      p := new Symbol(d.name, VARIABLE, ty, d.at.line, d.at.column, false);
      Declare(p);
      ghost var before := fn.params;
      fn.AddParameter(p);
      assert fn.params == before + [p];
      ParamTypesAppend(before, p);
    }

    /**
     * A nested function records the names its body reads that are not
     * declared in its own scope but are visible from the enclosing scope.
     * The source then reports each recorded name that is not visible from
     * the enclosing scope; by the last ensures there is none, so that
     * check never reports and is not repeated here.
     */
    method RecordCaptures(fn: Symbol, body: seq<Stmt>)
      requires Valid() && env.scopes[env.current].parent.Some?
      modifies fn`capturedVariables
      ensures fn.capturedVariables == CapturedVariables(env.scopes, env.current, StmtsIdents(body))
      ensures forall n :: n in fn.capturedVariables ==>
        n in StmtsIdents(body) && ExistsGlobal(env.scopes, env.scopes[env.current].parent.value, n)
    {
      var captured := CapturedVariables(env.scopes, env.current, StmtsIdents(body));
      fn.SetCapturedVariables(captured);
    }
  
    /**
     * visitClassDeclaration, with the listener's enterClassDeclaration and
     * exitClassDeclaration around it: the class symbol, without a type and
     * with the superclass name as written, is declared in the current
     * scope; its members are handed to the listener, in order, in a new
     * child scope; then that scope is left and there is no current class.
     */
    method VisitClass(st: Stmt) returns (c: Symbol)
      requires Valid() && st.ClassStmt?
      modifies this, log, env
      ensures Valid() && Walked() && currentClass == null
      ensures fresh(c) && c.name == st.name && c.kind == CLASS && c.ty == NO_TYPE && c.mutable
      ensures c.line == st.at.line && c.column == st.at.column && c.superClass == st.superName
      ensures Sealed(AddTo(old(env.scopes), old(env.current), c), env.scopes)
      ensures MembersKeyed(c.members) && c.members.Keys == RegisteredNames(st.members)
      ensures forall k :: k in c.members ==> fresh(c.members[k]) && c.members[k].enclosingClassName == Some(st.name)
    {
      ghost var s0, cur0 := env.scopes, env.current;
      c := EnterClassDeclaration(st);
      ghost var s1 := AddTo(s0, cur0, c);
      VisitMembers(st.members);
      EnteredThenExtended(s1, cur0, env.scopes);
      SealedExtends(s1, env.scopes, cur0);
      AddToExtends(s0, cur0, c);
      ExtendsTransitive(s0, s1, env.scopes, cur0);
      ExitClassDeclaration();
    }

    /**
     * enterClassDeclaration: the class symbol is declared in the current
     * scope, a child scope is entered and the class becomes the current one.
     */
    method EnterClassDeclaration(st: Stmt) returns (c: Symbol)
      requires Valid() && st.ClassStmt?
      modifies env, this`Syms, this`currentClass
      ensures Valid() && old(Syms) <= Syms && currentClass == c && c.members == map[]
      ensures fresh(c) && c.name == st.name && c.kind == CLASS && c.ty == NO_TYPE && c.mutable
      ensures c.line == st.at.line && c.column == st.at.column && c.superClass == st.superName
      ensures env.scopes == Entered(AddTo(old(env.scopes), old(env.current), c), old(env.current))
      ensures env.current == |old(env.scopes)|
    {
      c := NewClass(st);
      Declare(c);
      env.EnterScope();
      currentClass := c;
    }

    /** The class symbol: no type, mutable, and the superclass name as written. */
    static method NewClass(st: Stmt) returns (c: Symbol)
      requires st.ClassStmt?
      ensures fresh(c) && c.name == st.name && c.kind == CLASS && c.ty == NO_TYPE && c.mutable
      ensures c.line == st.at.line && c.column == st.at.column && c.superClass == st.superName
      ensures c.members == map[] && c.params == []
    {
      c := new Symbol(st.name, CLASS, NO_TYPE, st.at.line, st.at.column, true);
      if st.superName.Some? {
        c.SetSuperClass(st.superName.value);
      }
    }

    /** exitClassDeclaration: back to the parent scope, with no current class. */
    method ExitClassDeclaration()
      requires Valid()
      modifies env`current, this`currentClass
      ensures Valid() && currentClass == null
      ensures env.current == Exited(env.scopes, old(env.current))
    {
      env.ExitScope();
      currentClass := null;
    }

    /**
     * The member loop of visitClassDeclaration: the member map gains the
     * names of the members that register, and every member it gains is
     * new and records the class as its enclosing class.
     */
    method VisitMembers(ms: seq<ClassMember>)
      requires Valid() && currentClass != null && currentClass.members == map[]
      modifies log, env`scopes, this`Syms, currentClass`members
      ensures Valid() && Walked() && MembersKeyed(currentClass.members)
      ensures currentClass.members.Keys == RegisteredNames(ms)
      ensures forall k :: k in currentClass.members ==>
        fresh(currentClass.members[k]) && currentClass.members[k].enclosingClassName == Some(currentClass.name)
    {
      var i := 0;
      while i < |ms|
        invariant 0 <= i <= |ms|
        invariant Valid() && MembersKeyed(currentClass.members)
        invariant old(log.items) <= log.items && old(Syms) <= Syms
        invariant Extends(old(env.scopes), env.scopes, env.current)
        invariant currentClass.members.Keys == RegisteredNames(ms[..i])
        invariant forall k :: k in currentClass.members ==>
          fresh(currentClass.members[k]) && currentClass.members[k].enclosingClassName == Some(currentClass.name)
      {
        ghost var s0 := env.scopes;
        NextMember(ms, i);
        ExtendsTransitive(old(env.scopes), s0, env.scopes, env.current);
        i := i + 1;
      }
      assert ms[..i] == ms;
    }

    /** One iteration of the member loop: the member map gains the member's name when it registers. */
    method NextMember(ms: seq<ClassMember>, i: nat)
      requires Valid() && currentClass != null && MembersKeyed(currentClass.members) && i < |ms|
      requires currentClass.members.Keys == RegisteredNames(ms[..i])
      modifies log, env`scopes, this`Syms, currentClass`members, currentClass.members.Values`initialized
      ensures Valid() && Walked() && MembersKeyed(currentClass.members) && MembersGrown(currentClass)
      ensures currentClass.members.Keys == RegisteredNames(ms[..i + 1])
    {
      VisitMember(ms[i]);
      RegisteredNamesStep(ms, i);
    }

    /** The class member dispatch of visitClassDeclaration. */
    method VisitMember(m: ClassMember)
      requires Valid() && currentClass != null && MembersKeyed(currentClass.members)
      modifies log, env`scopes, this`Syms, currentClass`members, currentClass.members.Values`initialized
      ensures Valid() && Walked() && MembersKeyed(currentClass.members)
      ensures currentClass.members.Keys == old(currentClass.members.Keys) + if Registers(m) then {MemberName(m)} else {}
      ensures MembersGrown(currentClass)
      ensures m.MethodMember? ==> log.items == old(log.items) + RejectionErrors(
        if m.f.name == "constructor" then Outcomes(m.f.body, old(MemberTypes(currentClass.members)), ListenerParamInfos(m.f.params)) else [])
      ensures m.FieldMember? ==> log.items == old(log.items) + old(VarDeclErrors(env.scopes, env.current, Syms, currentClass, m.v))
      ensures m.ConstMember? ==> log.items == old(log.items) + old(ClassConstErrors(env.scopes, env.current, Syms, currentClass, m.c))
    {
      match m
      case MethodMember(f) => ghost var fn, os := EnterFunctionDeclaration(f);
      case FieldMember(d) => ghost var v := EnterVariableDeclaration(d);
      case ConstMember(d) => ghost var k := EnterConstantDeclaration(d);
    }

    /**
     * enterVariableDeclaration, inside a class: a name already in the
     * member map is reported and nothing is registered; otherwise the
     * initializer is typed and checked as VariableVisitor does, and a
     * mutable variable becomes a member of the class, initialized exactly
     * when it has an initializer, and is declared in the class scope.
     */
    method EnterVariableDeclaration(d: VarDecl) returns (ghost v: Symbol?)
      requires Valid() && currentClass != null && MembersKeyed(currentClass.members)
      modifies log, env`scopes, this`Syms, currentClass`members
      ensures Valid() && Walked() && MembersKeyed(currentClass.members) && MembersGrown(currentClass)
      ensures currentClass.members.Keys == old(currentClass.members.Keys) + {d.name}
      ensures log.items == old(log.items) + old(VarDeclErrors(env.scopes, env.current, Syms, currentClass, d))
      ensures d.name in old(currentClass.members) ==>
        && v == null && env.scopes == old(env.scopes) && currentClass.members == old(currentClass.members)
        && log.items == old(log.items) + [ErrorAt(DuplicateMemberMessage(d.name, currentClass.name), d.at)]
      ensures d.name !in old(currentClass.members) ==>
        var typed := old(InitTyped(d.init));
        var ann := Annotation(d.ann);
        && log.items == old(log.items) + FoundErrors(typed)
             + (if InitMismatch(ann, FoundType(typed))
                then [ErrorAt(VariableMismatchMessage(d.name, ann.value, FoundType(typed).value), d.at)] else [])
        && v != null && Declared(v, d.name, VARIABLE, VariableType(ann, FoundType(typed)), true)
        && currentClass.members == old(currentClass.members)[d.name := v]
        && v.enclosingClassName == Some(currentClass.name) && v.initialized == d.init.Some?
    {
      ghost var expected := VarDeclErrors(env.scopes, env.current, Syms, currentClass, d);
      if d.name in currentClass.members {
        log.Add(DuplicateMemberMessage(d.name, currentClass.name), d.at.line, d.at.column);
        return null;
      }
      assert expected == InitializerErrors(env.scopes, env.current, Syms, d);
      var ann := Annotation(d.ann);
      var found := InitializerType(ann, d.name, d.at, d.init);
      v := RegisterMember(d.name, VARIABLE, VariableType(ann, found), d.at, d.init.Some?);
    }

    /**
     * enterConstantDeclaration, inside a class: a name already in the
     * member map, and then a missing initializer, are reported and
     * nothing is registered; otherwise the constant has the annotation's
     * type, or its initializer's, and becomes a member of the class
     * (with kind CONSTANT but mutable) declared in the class scope.
     */
    method EnterConstantDeclaration(d: ConstDecl) returns (ghost k: Symbol?)
      requires Valid() && currentClass != null && MembersKeyed(currentClass.members)
      modifies log, env`scopes, this`Syms, currentClass`members
      ensures Valid() && Walked() && MembersKeyed(currentClass.members) && MembersGrown(currentClass)
      ensures currentClass.members.Keys == old(currentClass.members.Keys) + if d.init.Some? then {d.name} else {}
      ensures log.items == old(log.items) + old(ClassConstErrors(env.scopes, env.current, Syms, currentClass, d))
      ensures d.name in old(currentClass.members) || d.init.None? ==>
        && k == null && env.scopes == old(env.scopes) && currentClass.members == old(currentClass.members)
        && log.items == old(log.items) + [ErrorAt(if d.name in old(currentClass.members) then DuplicateClassConstantMessage(d.name)
                                                  else UninitializedConstantMessage(d.name), d.at)]
      ensures d.name !in old(currentClass.members) && d.init.Some? ==>
        var typed := old(TypeHere(VariableV, d.init.value));
        var ann := Annotation(d.ann);
        && log.items == old(log.items) + typed.errs
             + (if InitMismatch(ann, Some(typed.ty)) then [ErrorAt(ConstantMismatchMessage(d.name, ann.value, typed.ty), d.at)] else [])
        && k != null && Declared(k, d.name, CONSTANT, ListenerConstantType(ann, typed.ty), true)
        && currentClass.members == old(currentClass.members)[d.name := k]
        && k.enclosingClassName == Some(currentClass.name)
    {
      if d.name in currentClass.members {
        log.Add(DuplicateClassConstantMessage(d.name), d.at.line, d.at.column);
        return null;
      }
      if d.init.None? {
        log.Add(UninitializedConstantMessage(d.name), d.at.line, d.at.column);
        return null;
      }
      k := DeclareClassConstant(d);
    }

    /** A new class constant: its initializer is typed and checked, and it becomes a member. */
    method DeclareClassConstant(d: ConstDecl) returns (k: Symbol)
      requires Valid() && currentClass != null && MembersKeyed(currentClass.members)
      requires d.name !in currentClass.members && d.init.Some?
      modifies log, env`scopes, this`Syms, currentClass`members
      ensures Valid() && Walked() && MembersKeyed(currentClass.members)
      ensures var typed := old(TypeHere(VariableV, d.init.value));
        var ann := Annotation(d.ann);
        && log.items == old(log.items) + typed.errs
             + (if InitMismatch(ann, Some(typed.ty)) then [ErrorAt(ConstantMismatchMessage(d.name, ann.value, typed.ty), d.at)] else [])
        && Declared(k, d.name, CONSTANT, ListenerConstantType(ann, typed.ty), true)
        && currentClass.members == old(currentClass.members)[d.name := k]
        && k.enclosingClassName == Some(currentClass.name)
    {
      var ann := Annotation(d.ann);
      var found := ListenerConstantInit(ann, d.name, d.at, d.init.value);
      k := RegisterMember(d.name, CONSTANT, ListenerConstantType(ann, found), d.at, false);
    }

    /**
     * The end of enterVariableDeclaration and enterConstantDeclaration: a
     * new mutable member of the current class, initialized as given,
     * replaces any member of its name and is declared in the current scope.
     */
    method RegisterMember(name: string, kind: Kind, ty: string, at: Pos, initialized: bool) returns (sym: Symbol)
      requires Valid() && currentClass != null && MembersKeyed(currentClass.members)
      modifies currentClass`members, env`scopes, this`Syms
      ensures Valid() && old(Syms) <= Syms && MembersKeyed(currentClass.members)
      ensures Declared(sym, name, kind, ty, true) && sym.line == at.line && sym.column == at.column
      ensures sym.enclosingClassName == Some(currentClass.name) && sym.initialized == initialized
      ensures currentClass.members == old(currentClass.members)[name := sym]
      ensures Extends(old(env.scopes), env.scopes, env.current)
    {
      sym := new Symbol(name, kind, ty, at.line, at.column, true);
      currentClass.AddMember(sym);
      sym.SetEnclosingClassName(currentClass.name);
      if initialized {
        sym.SetInitialized(true);
      }
      Declare(sym);
    }

    /** A class constant's initializer, typed by VariableVisitor and checked against the annotation. */
    method ListenerConstantInit(ann: Option<string>, name: string, at: Pos, init: Expr) returns (found: string)
      requires Valid()
      modifies log
      ensures found == TypeHere(VariableV, init).ty
      ensures log.items == old(log.items) + TypeHere(VariableV, init).errs
        + (if InitMismatch(ann, Some(found)) then [ErrorAt(ConstantMismatchMessage(name, ann.value, found), at)] else [])
    {
      found := VisitExpr(VariableV, log, env, Syms, init);
      if InitMismatch(ann, Some(found)) {
        log.Add(ConstantMismatchMessage(name, ann.value, found), at.line, at.column);
      }
    }

    /**
     * enterFunctionDeclaration, inside a class: a mutable function symbol
     * with the written return type ("desconocido" without one) and its
     * parameters; a method named "constructor" has its body checked
     * against the members registered so far and is flagged as the
     * constructor; the method then replaces any member of its name, with
     * no duplicate check, and is declared in the class scope.
     */
    method EnterFunctionDeclaration(f: FuncDecl) returns (ghost fn: Symbol, ghost os: seq<CtorOutcome>)
      requires Valid() && currentClass != null && MembersKeyed(currentClass.members)
      modifies log, env`scopes, this`Syms, currentClass`members, currentClass.members.Values`initialized
      ensures Valid() && Walked() && MembersKeyed(currentClass.members) && MembersGrown(currentClass)
      ensures currentClass.members.Keys == old(currentClass.members.Keys) + {f.name}
      ensures Declared(fn, f.name, FUNCTION, ListenerTypeName(f.ret), true)
      ensures ParametersFor(fn.params, f.params, true) && forall q :: q in fn.params ==> fresh(q)
      ensures fn.enclosingClassName == Some(currentClass.name) && fn.isConstructor == (f.name == "constructor")
      ensures currentClass.members == old(currentClass.members)[f.name := fn]
      ensures os == if f.name == "constructor" then Outcomes(f.body, old(MemberTypes(currentClass.members)), ListenerParamInfos(f.params)) else []
      ensures log.items == old(log.items) + RejectionErrors(os)
      ensures forall k :: k in old(currentClass.members) ==>
        old(currentClass.members)[k].initialized == (old(currentClass.members[k].initialized) || k in InitializedMembers(os))
    {
      os := CheckConstructor(f, ListenerParamInfos(f.params), currentClass.members);
      fn := DeclareMethod(f);
    }

    /** The method's symbol, with its parameters, registered as a member and declared in the class scope. */
    method DeclareMethod(f: FuncDecl) returns (fn: Symbol)
      requires Valid() && currentClass != null && MembersKeyed(currentClass.members)
      modifies env`scopes, this`Syms, currentClass`members
      ensures Valid() && Walked() && MembersKeyed(currentClass.members)
      ensures Declared(fn, f.name, FUNCTION, ListenerTypeName(f.ret), true)
      ensures ParametersFor(fn.params, f.params, true) && forall q :: q in fn.params ==> fresh(q)
      ensures fn.enclosingClassName == Some(currentClass.name) && fn.isConstructor == (f.name == "constructor")
      ensures currentClass.members == old(currentClass.members)[f.name := fn]
    {
      fn := ListenerFunctionSymbol(f);
      RegisterMethod(fn, f.name == "constructor");
    }

    /** The method's symbol, with its parameters, before it is registered anywhere. */
    method ListenerFunctionSymbol(f: FuncDecl) returns (fn: Symbol)
      requires Valid()
      modifies this`Syms
      ensures Valid() && old(Syms) <= Syms && fn !in Syms
      ensures fresh(fn) && fn.name == f.name && fn.kind == FUNCTION && fn.ty == ListenerTypeName(f.ret) && fn.mutable
      ensures fn.line == f.at.line && fn.column == f.at.column && !fn.isConstructor
      ensures ParametersFor(fn.params, f.params, true) && forall q :: q in fn.params ==> fresh(q) && q in Syms
    {
      fn := new Symbol(f.name, FUNCTION, ListenerTypeName(f.ret), f.at.line, f.at.column, true);
      ListenerParameters(fn, f.params);
    }

    /**
     * The end of enterFunctionDeclaration: the method records its class
     * and whether it is the constructor, replaces any member of its name
     * and is declared in the current scope.
     */
    method RegisterMethod(fn: Symbol, isConstructor: bool)
      requires Valid() && currentClass != null && MembersKeyed(currentClass.members)
      requires fn !in Syms && !fn.isConstructor && forall q :: q in fn.params ==> q in Syms
      modifies fn`enclosingClassName, fn`isConstructor, currentClass`members, env`scopes, this`Syms
      ensures Valid() && old(Syms) <= Syms && MembersKeyed(currentClass.members)
      ensures fn.enclosingClassName == Some(currentClass.name) && fn.isConstructor == isConstructor
      ensures currentClass.members == old(currentClass.members)[fn.name := fn]
      ensures env.scopes == AddTo(old(env.scopes), env.current, fn)
      ensures Extends(old(env.scopes), env.scopes, env.current)
    {
      fn.SetEnclosingClassName(currentClass.name);
      if isConstructor {
        fn.SetConstructor(true);
      }
      currentClass.AddMember(fn);
      Declare(fn);
    }

    /** The listener's parameter loop: mutable variables with the written types, appended to fn's list only. */
    method ListenerParameters(fn: Symbol, decl: seq<Param>)
      requires Valid() && fn !in Syms && fn.params == []
      modifies fn`params, this`Syms
      ensures Valid() && old(Syms) <= Syms && fn !in Syms
      ensures ParametersFor(fn.params, decl, true)
      ensures forall q :: q in fn.params ==> fresh(q) && q in Syms
    {
      var i := 0;
      while i < |decl|
        invariant 0 <= i <= |decl|
        invariant Valid() && old(Syms) <= Syms && fn !in Syms
        invariant ParametersFor(fn.params, decl[..i], true)
        invariant forall q :: q in fn.params ==> fresh(q) && q in Syms
      {
        ghost var before := fn.params;
        var p := ListenerParameter(fn, decl[i]);
        ParametersForStep(before, p, decl, i, true);
        i := i + 1;
      }
      assert decl[..i] == decl;
    }

    /** One listener parameter: a fresh mutable variable with the written type, appended to fn's parameters only. */
    method ListenerParameter(fn: Symbol, d: Param) returns (p: Symbol)
      requires Valid() && fn !in Syms
      modifies fn`params, this`Syms
      ensures Valid() && Syms == old(Syms) + {p} && fresh(p) && fn !in Syms
      ensures fn.params == old(fn.params) + [p]
      ensures ParamTypes(fn.params) == old(ParamTypes(fn.params)) + [p.ty]
      ensures p.name == d.name && p.kind == VARIABLE && p.mutable && p.ty == ListenerTypeName(d.ty)
      ensures p.line == d.at.line && p.column == d.at.column
    {
      p := new Symbol(d.name, VARIABLE, ListenerTypeName(d.ty), d.at.line, d.at.column, true);
      Syms := Syms + {p};
      ghost var before := fn.params;
      fn.AddParameter(p);
      assert fn.params == before + [p];
      ParamTypesAppend(before, p);
    }

    /** The constructor check of enterFunctionDeclaration: only a method named "constructor" has its body checked. */
    method CheckConstructor(f: FuncDecl, ps: seq<ParamInfo>, table: map<string, Symbol>) returns (ghost os: seq<CtorOutcome>)
      requires MembersKeyed(table)
      modifies log, table.Values`initialized
      ensures os == if f.name == "constructor" then Outcomes(f.body, MemberTypes(table), ps) else []
      ensures log.items == old(log.items) + RejectionErrors(os)
      ensures forall k :: k in table ==> table[k].initialized == (old(table[k].initialized) || k in InitializedMembers(os))
    {
      if f.name == "constructor" {
        var outcomes := Outcomes(f.body, MemberTypes(table), ps);
        CheckConstructorBody(outcomes, table);
        os := outcomes;
      } else {
        os := [];
      }
    }

    /**
     * The constructor loop, given the outcome of each statement of the
     * body in order: a rejected statement is reported at its position, an
     * accepted one marks its member initialized.
     */
    method CheckConstructorBody(os: seq<CtorOutcome>, table: map<string, Symbol>)
      requires MembersKeyed(table) && forall k :: 0 <= k < |os| && os[k].Initializes? ==> os[k].member in table
      modifies log, table.Values`initialized
      ensures log.items == old(log.items) + RejectionErrors(os)
      ensures forall k :: k in table ==> table[k].initialized == (old(table[k].initialized) || k in InitializedMembers(os))
    {
      var i := 0;
      while i < |os|
        invariant 0 <= i <= |os|
        invariant log.items == old(log.items) + RejectionErrors(os[..i])
        invariant forall k :: k in table ==> table[k].initialized == (old(table[k].initialized) || k in InitializedMembers(os[..i]))
      {
        var o := os[i];
        assert os[..i + 1] == os[..i] + [o];
        OutcomeAppended(os[..i], o);
        if o.Rejected? {
          log.Add(o.message, o.at.line, o.at.column);
        } else {
          table[o.member].SetInitialized(true);
        }
        i := i + 1;
      }
      assert os[..i] == os;
    }

    /** The members of the current class, if any: the symbols the listener's assignment may mark initialized. */
    function MemberFrame(): set<Symbol>
      reads this`currentClass, ClassFrame()`members
    {
      if currentClass != null then currentClass.members.Values else {}
    }

    /**
     * The target of the listener's assignment to name: a name starting
     * with "this." names a member of the current class (an error outside
     * a class or for a missing member); any other name is looked up from
     * the current scope.
     */
    function AssignmentTarget(name: string): (r: Target)
      requires env.Valid()
      reads this, env, ClassFrame()
      ensures r.Found? && StartsWith(name, "this.") ==>
        currentClass != null && name[5..] in currentClass.members && r.sym == currentClass.members[name[5..]]
      ensures r.Found? && !StartsWith(name, "this.") ==> Obtain(env.scopes, env.current, name) == Some(r.sym)
    {
      if StartsWith(name, "this.") then
        if currentClass == null then Missing(ThisOutsideClassMessage())
        else if name[5..] !in currentClass.members then Missing(MissingClassMemberMessage(name[5..], currentClass.name))
        else Found(currentClass.members[name[5..]])
      else
        match Obtain(env.scopes, env.current, name)
        case None => Missing(UndeclaredAssignmentMessage(name))
        case Some(sym) => Found(sym)
    }

    /**
     * enterAssignment of the class listener: a missing target is reported
     * and ends the check; an immutable target is reported and the check
     * goes on; the first expression, typed by VariableVisitor, must have
     * the target's type or be unknown; and a "this." target is then marked
     * initialized, even after a mismatch. Nothing else changes.
     */
    method EnterAssignment(a: Assignment)
      requires Valid()
      modifies log, MemberFrame()`initialized
      ensures Valid() && Walked()
      ensures var name := AssignedName(a);
        var target := old(AssignmentTarget(name));
        && (target.Missing? ==> log.items == old(log.items) + [ErrorAt(target.message, a.at)])
        && (target.Found? ==>
              var typed := old(TypeHere(VariableV, FirstExpression(a)));
              && log.items == old(log.items)
                   + (if !target.sym.mutable then [ErrorAt(ConstantAssignmentMessage(name), a.at)] else [])
                   + typed.errs
                   + (if AssignmentMismatch(target.sym.ty, typed.ty)
                      then [ErrorAt(AssignmentMismatchMessage(name, target.sym.ty, typed.ty), a.at)] else [])
              && target.sym.initialized == (old(target.sym.initialized) || StartsWith(name, "this.")))
      ensures forall m :: m in old(MemberFrame()) ==>
        m.initialized == old(m.initialized) || old(AssignmentTarget(AssignedName(a))) == Found(m)
    {
      var name := AssignedName(a);
      match AssignmentTarget(name)
      case Missing(message) =>
        log.Add(message, a.at.line, a.at.column);
      case Found(sym) =>
        ReportWrite(a, name, sym);
        if StartsWith(name, "this.") {
          sym.SetInitialized(true);
        }
    }

    /** The errors of a write to a found target: an immutable target, then the typed value against the target's type. */
    method ReportWrite(a: Assignment, name: string, sym: Symbol)
      requires Valid()
      modifies log
      ensures var typed := old(TypeHere(VariableV, FirstExpression(a)));
        log.items == old(log.items)
          + (if !sym.mutable then [ErrorAt(ConstantAssignmentMessage(name), a.at)] else [])
          + typed.errs
          + (if AssignmentMismatch(sym.ty, typed.ty) then [ErrorAt(AssignmentMismatchMessage(name, sym.ty, typed.ty), a.at)] else [])
    {
      ghost var before := log.items;
      if !sym.mutable {
        log.Add(ConstantAssignmentMessage(name), a.at.line, a.at.column);
      }
      ghost var reported := log.items;
      assert reported == before + (if !sym.mutable then [ErrorAt(ConstantAssignmentMessage(name), a.at)] else []);
      var _ := CheckAssigned(a, name, sym.ty);
    }

  }
}

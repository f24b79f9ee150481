/**
 * The parsed program the checker walks. The parse tree's nesting of one
 * grammar rule per precedence level is collapsed: a binary level is a
 * first operand followed by (operator, operand) links, exactly the
 * sequence the visitors' loops walk.
 */
module Syntax {
  import opened Options
  import opened Strings

  /** Start of a construct: ctx.start.getLine() and getCharPositionInLine(). */
  datatype Pos = Pos(line: int, column: int)

  /** Binary precedence levels, loosest first. */
  datatype Level = OrLevel | AndLevel | EqLevel | RelLevel | AddLevel | MulLevel

  datatype UnaryOp = Neg | Not

  datatype Link = Link(op: string, operand: Expr)

  datatype Expr =
    | Chain(at: Pos, level: Level, first: Expr, rest: seq<Link>)
    | Ternary(at: Pos, cond: Expr, ifTrue: Expr, ifFalse: Expr)
    | Unary(at: Pos, op: UnaryOp, operand: Expr)
    | Literal(at: Pos, text: string)
    | Ident(at: Pos, name: string)
    | This(at: Pos)
    | Call(at: Pos, callee: string, args: seq<Expr>)
    | New(at: Pos, className: string, args: seq<Expr>)
    | Paren(at: Pos, inner: Expr)
      /** `x = e` used as an expression; the value may itself be an assignment. */
    | AssignExpr(at: Pos, target: string, value: Expr)

  /** A written type: the base type and the children that follow it. */
  datatype TypeSyntax = TypeSyntax(base: string, suffix: seq<string>)

  datatype Param = Param(at: Pos, name: string, ty: Option<TypeSyntax>)

  datatype VarDecl = VarDecl(at: Pos, name: string, ann: Option<TypeSyntax>, init: Option<Expr>)

  datatype ConstDecl = ConstDecl(at: Pos, name: string, ann: Option<TypeSyntax>, init: Option<Expr>)

  /** `x = e;` or `obj.m = e;` (the parser's two assignment shapes). */
  datatype Assignment =
    | Assign(at: Pos, target: string, value: Expr)
    | MemberAssign(at: Pos, receiver: Expr, member: string, value: Expr)

  datatype FuncDecl = FuncDecl(at: Pos, name: string, params: seq<Param>, ret: Option<TypeSyntax>, body: seq<Stmt>)

  datatype ClassMember = MethodMember(f: FuncDecl) | FieldMember(v: VarDecl) | ConstMember(c: ConstDecl)

  datatype ForInit = NoInit | InitDecl(d: VarDecl) | InitAssign(a: Assignment)

  datatype Case = Case(at: Pos, caseExpr: Expr, body: seq<Stmt>)

  datatype Handler = Handler(name: Option<string>, body: seq<Stmt>)

  /** An `else` block or a `default:` statement list. */
  datatype Branch = Branch(body: seq<Stmt>)

  /** Statements; every `body` that is a `block` in the grammar opens a scope. */
  datatype Stmt =
    | Block(at: Pos, body: seq<Stmt>)
    | VarStmt(v: VarDecl)
    | ConstStmt(c: ConstDecl)
    | AssignStmt(a: Assignment)
    | FuncStmt(f: FuncDecl)
    | ClassStmt(at: Pos, name: string, superName: Option<string>, members: seq<ClassMember>)
    | If(at: Pos, cond: Option<Expr>, body: seq<Stmt>, elseBranch: Option<Branch>)
    | While(at: Pos, cond: Option<Expr>, body: seq<Stmt>)
    | DoWhile(at: Pos, body: seq<Stmt>, cond: Option<Expr>)
    | For(at: Pos, init: ForInit, cond: Option<Expr>, update: Option<Expr>, body: seq<Stmt>)
    | Foreach(at: Pos, iterName: string, iterable: Expr, body: seq<Stmt>)
    | Switch(at: Pos, subject: Expr, cases: seq<Case>, defaultCase: Option<Branch>)
    | TryCatch(at: Pos, body: seq<Stmt>, handler: Option<Handler>)
    | Break(at: Pos)
    | Continue(at: Pos)
    | Return(at: Pos, value: Option<Expr>)
    | ExprStmt(at: Pos, e: Expr)
    | Print(at: Pos, e: Expr)

  /** Where a statement starts. */
  function StmtPos(s: Stmt): Pos {
    match s
    case VarStmt(v) => v.at
    case ConstStmt(c) => c.at
    case AssignStmt(a) => a.at
    case FuncStmt(f) => f.at
    case _ => s.at
  }

  /** getText(): the tokens of the construct, concatenated without spaces. */
  function Text(e: Expr): string
    decreases e
  {
    match e
    case Chain(_, _, first, rest) => Text(first) + LinksText(rest)
    case Ternary(_, c, a, b) => Text(c) + "?" + Text(a) + ":" + Text(b)
    case Unary(_, op, x) => (if op == Neg then "-" else "!") + Text(x)
    case Literal(_, t) => t
    case Ident(_, n) => n
    case This(_) => "this"
    case Call(_, f, args) => f + "(" + ArgsText(args) + ")"
    case New(_, c, args) => "new" + c + "(" + ArgsText(args) + ")"
    case Paren(_, x) => "(" + Text(x) + ")"
    case AssignExpr(_, x, v) => x + "=" + Text(v)
  }

  function LinksText(rest: seq<Link>): string
    decreases rest
  {
    if rest == [] then []
    else LinksText(rest[..|rest| - 1]) + rest[|rest| - 1].op + Text(rest[|rest| - 1].operand)
  }

  function ArgsText(args: seq<Expr>): string
    decreases args
  {
    if args == [] then []
    else if |args| == 1 then Text(args[0])
    else ArgsText(args[..|args| - 1]) + "," + Text(args[|args| - 1])
  }

  function TypeText(t: TypeSyntax): string {
    t.base + Concat(t.suffix)
  }

  function AssignmentText(a: Assignment): string {
    match a
    case Assign(_, x, v) => x + "=" + Text(v)
    case MemberAssign(_, o, m, v) => Text(o) + "." + m + "=" + Text(v)
  }

  /** The assignment's Identifier token: the assigned variable, or the member after the dot. */
  function AssignedName(a: Assignment): string {
    match a
    case Assign(_, x, _) => x
    case MemberAssign(_, _, m, _) => m
  }

  /** The assignment's first expression child: the value of `x = e`, the object of `o.m = e`. */
  function FirstExpression(a: Assignment): Expr {
    match a
    case Assign(_, _, v) => v
    case MemberAssign(_, o, _, _) => o
  }

  /** Identifier expressions (call heads included) in source order. */
  function ExprIdents(e: Expr): seq<string>
    decreases e
  {
    match e
    case Chain(_, _, first, rest) => ExprIdents(first) + LinksIdents(rest)
    case Ternary(_, c, a, b) => ExprIdents(c) + ExprIdents(a) + ExprIdents(b)
    case Unary(_, _, x) => ExprIdents(x)
    case Literal(_, _) => []
    case Ident(_, n) => [n]
    case This(_) => []
    case Call(_, f, args) => [f] + ArgsIdents(args)
    case New(_, _, args) => ArgsIdents(args)
    case Paren(_, x) => ExprIdents(x)
    case AssignExpr(_, x, v) => [x] + ExprIdents(v)
  }

  function LinksIdents(rest: seq<Link>): seq<string>
    decreases rest
  {
    if rest == [] then [] else LinksIdents(rest[..|rest| - 1]) + ExprIdents(rest[|rest| - 1].operand)
  }

  function ArgsIdents(args: seq<Expr>): seq<string>
    decreases args
  {
    if args == [] then [] else ArgsIdents(args[..|args| - 1]) + ExprIdents(args[|args| - 1])
  }

  function OptIdents(o: Option<Expr>): seq<string>
    decreases o
  {
    if o.None? then [] else ExprIdents(o.value)
  }

  function AssignIdents(a: Assignment): seq<string>
    decreases a
  {
    match a
    case Assign(_, _, v) => ExprIdents(v)
    case MemberAssign(_, o, _, v) => ExprIdents(o) + ExprIdents(v)
  }

  function StmtsIdents(ss: seq<Stmt>): seq<string>
    decreases ss
  {
    if ss == [] then [] else StmtsIdents(ss[..|ss| - 1]) + StmtIdents(ss[|ss| - 1])
  }

  function StmtIdents(s: Stmt): seq<string>
    decreases s
  {
    match s
    case Block(_, body) => StmtsIdents(body)
    case VarStmt(v) => OptIdents(v.init)
    case ConstStmt(c) => OptIdents(c.init)
    case AssignStmt(a) => AssignIdents(a)
    case FuncStmt(f) => StmtsIdents(f.body)
    case ClassStmt(_, _, _, members) => MembersIdents(members)
    case If(_, c, body, elseBranch) =>
      OptIdents(c) + StmtsIdents(body) + (if elseBranch.Some? then StmtsIdents(elseBranch.value.body) else [])
    case While(_, c, body) => OptIdents(c) + StmtsIdents(body)
    case DoWhile(_, body, c) => StmtsIdents(body) + OptIdents(c)
    case For(_, init, c, update, body) =>
      InitIdents(init) + OptIdents(c) + OptIdents(update) + StmtsIdents(body)
    case Foreach(_, _, iterable, body) => ExprIdents(iterable) + StmtsIdents(body)
    case Switch(_, subject, cases, defaultCase) =>
      ExprIdents(subject) + CasesIdents(cases) + (if defaultCase.Some? then StmtsIdents(defaultCase.value.body) else [])
    case TryCatch(_, body, handler) =>
      StmtsIdents(body) + (if handler.Some? then StmtsIdents(handler.value.body) else [])
    case Break(_) => []
    case Continue(_) => []
    case Return(_, value) => OptIdents(value)
    case ExprStmt(_, e) => ExprIdents(e)
    case Print(_, e) => ExprIdents(e)
  }

  function InitIdents(init: ForInit): seq<string>
    decreases init
  {
    match init
    case NoInit => []
    case InitDecl(d) => OptIdents(d.init)
    case InitAssign(a) => AssignIdents(a)
  }

  function CasesIdents(cs: seq<Case>): seq<string>
    decreases cs
  {
    if cs == [] then []
    else CasesIdents(cs[..|cs| - 1]) + ExprIdents(cs[|cs| - 1].caseExpr) + StmtsIdents(cs[|cs| - 1].body)
  }

  function MembersIdents(ms: seq<ClassMember>): seq<string>
    decreases ms
  {
    if ms == [] then [] else MembersIdents(ms[..|ms| - 1]) + MemberIdents(ms[|ms| - 1])
  }

  function MemberIdents(m: ClassMember): seq<string>
    decreases m
  {
    match m
    case MethodMember(f) => StmtsIdents(f.body)
    case FieldMember(v) => OptIdents(v.init)
    case ConstMember(c) => OptIdents(c.init)
  }
}

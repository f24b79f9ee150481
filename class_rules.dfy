/**
 * The rules ClassesListener applies to class members: the types it
 * records, and the check of a constructor body, which may only copy
 * constructor parameters into class members (`this.m = p`).
 */
module ClassRules {
  import opened Options
  import opened Strings
  import opened Types
  import opened Errors
  import opened Syntax
  import opened Symbols

  function OnlyAssignmentsMessage(): string {
    "En constructor solo se permiten asignaciones"
  }

  function MemberAssignmentsOnlyMessage(): string {
    OnlyAssignmentsMessage() + " de miembros (this.<miembro> = <parametro>)"
  }

  function ClassMembersOnlyMessage(): string {
    OnlyAssignmentsMessage() + " a miembros de la clase"
  }

  function UnknownMemberMessage(member: string): string {
    "Miembro '" + member + "' no existe en la clase"
  }

  function NotAParameterMessage(right: string): string {
    "Asignación inválida: '" + right + "' no es parámetro del constructor"
  }

  function ParameterTypeMessage(right: string, paramType: string, member: string, memberType: string): string {
    "Tipo del parámetro '" + right + "' (" + Show(paramType) + ") no coincide con tipo del miembro '"
      + member + "' (" + Show(memberType) + ")"
  }

  function DuplicateClassConstantMessage(name: string): string {
    "Constante '" + name + "' ya declarada en esta clase"
  }

  function ThisOutsideClassMessage(): string {
    "Uso de 'this' fuera de una clase"
  }

  function MissingClassMemberMessage(member: string, className: string): string {
    "Miembro '" + member + "' no existe en la clase '" + className + "'"
  }

  /** The listener records a written type as its text, and "desconocido" when there is none. */
  function ListenerTypeName(t: Option<TypeSyntax>): string {
    if t.Some? then TypeText(t.value) else UNKNOWN
  }

  /** The type of a class constant: the annotation, else the initializer's type (possibly null). */
  function ListenerConstantType(ann: Option<string>, init: string): string {
    if ann.Some? then ann.value else init
  }

  /** What the constructor check needs of a parameter: its name and recorded type. */
  datatype ParamInfo = ParamInfo(name: string, ty: string)

  function ParamInfos(ps: seq<Symbol>): seq<ParamInfo> {
    seq(|ps|, k requires 0 <= k < |ps| => ParamInfo(ps[k].name, ps[k].ty))
  }

  /** The declared type of every member, by name. */
  function MemberTypes(members: map<string, Symbol>): map<string, string> {
    map m | m in members :: members[m].ty
  }

  /** The first parameter with the given name (a stream filter then findFirst). */
  function FindParam(ps: seq<ParamInfo>, name: string): (r: Option<ParamInfo>)
    ensures r.None? <==> forall k :: 0 <= k < |ps| ==> ps[k].name != name
    ensures r.Some? ==> r.value.name == name
    ensures r.Some? ==> exists k :: 0 <= k < |ps| && ps[k] == r.value && (forall j :: 0 <= j < k ==> ps[j].name != name)
  {
    if ps == [] then None
    else if ps[0].name == name then Some(ps[0])
    else
      var r := FindParam(ps[1..], name);
      assert forall k :: 1 <= k < |ps| ==> ps[k] == ps[1..][k - 1];
      r
  }

  /** A constructor statement either is rejected with a message at a position, or initializes a member. */
  datatype CtorOutcome = Rejected(message: string, at: Pos) | Initializes(member: string)

  /**
   * The check of one constructor statement against the class members'
   * types and the constructor's parameters, on the statement's text: it
   * must be an assignment to a member that mentions "this.", and then
   * pass CopyStep.
   */
  function ConstructorStep(st: Stmt, members: map<string, string>, ps: seq<ParamInfo>): (r: CtorOutcome)
    ensures r.Initializes? ==> r.member in members
  {
    if !st.AssignStmt? then Rejected(OnlyAssignmentsMessage(), StmtPos(st))
    else AssignmentStep(st.a, members, ps)
  }

  function AssignmentStep(a: Assignment, members: map<string, string>, ps: seq<ParamInfo>): CtorOutcome {
    match a
    case Assign(at, _, _) => Rejected(MemberAssignmentsOnlyMessage(), at)
    case MemberAssign(at, _, _, v) => MemberStep(at, AssignmentText(a), Text(v), members, ps)
  }

  /** `o.m = e` with text `text` and right side `right`: it must mention "this." and pass CopyStep. */
  function MemberStep(at: Pos, text: string, right: string, members: map<string, string>, ps: seq<ParamInfo>): CtorOutcome {
    if !Contains(text, "this.") then Rejected(MemberAssignmentsOnlyMessage(), at)
    else CopyStep(at, BeforeFirst(text, '='), right, members, ps)
  }

  /** Only an assignment of the form `o.m = e` can be accepted; every other statement is reported. */
  lemma ConstructorStepRejects(st: Stmt, members: map<string, string>, ps: seq<ParamInfo>)
    ensures !st.AssignStmt? ==> ConstructorStep(st, members, ps) == Rejected(OnlyAssignmentsMessage(), StmtPos(st))
    ensures st.AssignStmt? && st.a.Assign? ==>
      ConstructorStep(st, members, ps) == Rejected(MemberAssignmentsOnlyMessage(), st.a.at)
    ensures ConstructorStep(st, members, ps).Initializes? ==> st.AssignStmt? && st.a.MemberAssign?
  {
  }

  /**
   * The left side (the text before the first '=') must start with "this."
   * and name a member, and the right side must name a parameter whose
   * type is the member's or unknown.
   */
  function CopyStep(at: Pos, left: string, right: string, members: map<string, string>, ps: seq<ParamInfo>): (r: CtorOutcome)
    ensures r.Initializes? <==>
      && StartsWith(left, "this.") && left[5..] in members
      && FindParam(ps, right).Some?
      && (FindParam(ps, right).value.ty == members[left[5..]] || FindParam(ps, right).value.ty == UNKNOWN)
    ensures r.Initializes? ==> r.member == left[5..]
  {
    if !StartsWith(left, "this.") then Rejected(ClassMembersOnlyMessage(), at)
    else
      var member := left[5..];
      var p := FindParam(ps, right);
      if member !in members then Rejected(UnknownMemberMessage(member), at)
      else if p.None? then Rejected(NotAParameterMessage(right), at)
      else if members[member] != p.value.ty && p.value.ty != UNKNOWN then
        Rejected(ParameterTypeMessage(right, p.value.ty, member, members[member]), at)
      else Initializes(member)
  }

  /** The outcome of each statement of a constructor body, in order. */
  function Outcomes(body: seq<Stmt>, members: map<string, string>, ps: seq<ParamInfo>): (os: seq<CtorOutcome>)
    ensures |os| == |body|
    ensures forall k :: 0 <= k < |os| && os[k].Initializes? ==> os[k].member in members
  {
    if body == [] then []
    else Outcomes(body[..|body| - 1], members, ps) + [ConstructorStep(body[|body| - 1], members, ps)]
  }

  /** One more statement of the body adds its own outcome at the end. */
  lemma OutcomesStep(body: seq<Stmt>, i: nat, members: map<string, string>, ps: seq<ParamInfo>)
    requires i < |body|
    ensures Outcomes(body[..i + 1], members, ps) == Outcomes(body[..i], members, ps) + [ConstructorStep(body[i], members, ps)]
  {
    assert body[..i + 1][..i] == body[..i];
  }

  /** One more outcome adds its error, if rejected, and its member, if accepted. */
  lemma OutcomeAppended(os: seq<CtorOutcome>, o: CtorOutcome)
    ensures RejectionErrors(os + [o]) == RejectionErrors(os) + if o.Rejected? then [SemanticError(o.message, o.at.line, o.at.column)] else []
    ensures InitializedMembers(os + [o]) == InitializedMembers(os) + if o.Initializes? then {o.member} else {}
  {
    assert (os + [o])[..|os|] == os;
  }

  /** The errors of the rejected statements, in order. */
  function RejectionErrors(os: seq<CtorOutcome>): seq<SemanticError> {
    if os == [] then []
    else
      var last := os[|os| - 1];
      RejectionErrors(os[..|os| - 1]) + if last.Rejected? then [SemanticError(last.message, last.at.line, last.at.column)] else []
  }

  /** No error is reported exactly when every statement is accepted. */
  lemma {:induction false} NoRejectionErrors(os: seq<CtorOutcome>)
    ensures RejectionErrors(os) == [] <==> forall k :: 0 <= k < |os| ==> os[k].Initializes?
  {
    if os != [] {
      var init := os[..|os| - 1];
      NoRejectionErrors(init);
      assert forall k :: 0 <= k < |init| ==> init[k] == os[k];
    }
  }

  /** The members the accepted statements initialize. */
  function InitializedMembers(os: seq<CtorOutcome>): set<string> {
    if os == [] then {}
    else
      var last := os[|os| - 1];
      InitializedMembers(os[..|os| - 1]) + if last.Initializes? then {last.member} else {}
  }

  /** A member is initialized exactly when some statement of the body initializes it. */
  lemma {:induction false} InitializedMembersMeans(os: seq<CtorOutcome>)
    ensures forall m :: m in InitializedMembers(os) <==> Initializes(m) in os
  {
    if os != [] {
      var last := os[|os| - 1];
      InitializedMembersMeans(os[..|os| - 1]);
      assert os == os[..|os| - 1] + [last];
    }
  }

  /** Every statement is either reported once or initializes a member, never both. */
  lemma {:induction false} RejectionCount(os: seq<CtorOutcome>)
    ensures |RejectionErrors(os)| == |os| - |set k | 0 <= k < |os| && os[k].Initializes?|
  {
    if os != [] {
      var init := os[..|os| - 1];
      RejectionCount(init);
      var ks := set k | 0 <= k < |os| && os[k].Initializes?;
      var ks0 := set k | 0 <= k < |init| && init[k].Initializes?;
      var last := |os| - 1;
      assert ks0 == set k | 0 <= k < last && os[k].Initializes?;
      if os[last].Initializes? {
        assert ks == ks0 + {last};
      } else {
        assert ks == ks0;
      }
    }
  }

  /** `this.m = p` has text "this.m=p": it mentions "this.", its left side is "this.m" and its right side p. */
  lemma ThisCopyText(at: Pos, thisAt: Pos, valueAt: Pos, m: string, p: string)
    requires '=' !in m
    ensures var a := MemberAssign(at, This(thisAt), m, Ident(valueAt, p));
      && Contains(AssignmentText(a), "this.")
      && BeforeFirst(AssignmentText(a), '=') == "this." + m
      && Text(a.value) == p
  {
    var a := MemberAssign(at, This(thisAt), m, Ident(valueAt, p));
    var left := "this." + m;
    assert AssignmentText(a) == left + ['='] + p;
    assert AssignmentText(a)[..5] == "this.";
    BeforeFirstOfJoined(left, '=', p);
  }

  /** m is a member, and p names a parameter whose type is m's or unknown. */
  predicate ParameterFits(m: string, p: string, members: map<string, string>, ps: seq<ParamInfo>) {
    && m in members
    && FindParam(ps, p).Some?
    && (FindParam(ps, p).value.ty == members[m] || FindParam(ps, p).value.ty == UNKNOWN)
  }

  /** The copy check accepts "this.m" = p exactly when p fits member m. */
  lemma CopyOfParameter(at: Pos, m: string, p: string, members: map<string, string>, ps: seq<ParamInfo>)
    ensures CopyStep(at, "this." + m, p, members, ps) == Initializes(m) <==> ParameterFits(m, p, members, ps)
  {
    JoinedParts("this.", m);
  }

  /**
   * `this.m = p`, with m a member without '=' in its name and p a
   * parameter of the member's type (or of unknown type), initializes m.
   */
  lemma ThisMemberFromParameter(at: Pos, thisAt: Pos, valueAt: Pos, m: string, p: string,
                                members: map<string, string>, ps: seq<ParamInfo>)
    requires '=' !in m
    ensures (ConstructorStep(AssignStmt(MemberAssign(at, This(thisAt), m, Ident(valueAt, p))), members, ps)
             == Initializes(m)) <==> ParameterFits(m, p, members, ps)
  {
    var a := MemberAssign(at, This(thisAt), m, Ident(valueAt, p));
    ThisCopyText(at, thisAt, valueAt, m, p);
    CopyOfParameter(at, m, p, members, ps);
    assert ConstructorStep(AssignStmt(a), members, ps) == MemberStep(at, AssignmentText(a), p, members, ps);
  }

  /** A constructor whose every statement is such a copy reports nothing and initializes exactly the members it names. */
  lemma CopyingConstructorAccepted(os: seq<CtorOutcome>, targets: seq<string>)
    requires |targets| == |os|
    requires forall k :: 0 <= k < |os| ==> os[k] == Initializes(targets[k])
    ensures RejectionErrors(os) == []
    ensures forall m :: m in InitializedMembers(os) <==> m in targets
  {
    NoRejectionErrors(os);
    InitializedMembersMeans(os);
    forall m | m in targets
      ensures Initializes(m) in os
    {
      var k :| 0 <= k < |targets| && targets[k] == m;
      assert os[k] == Initializes(m);
    }
  }

  /** The symbol an assignment of the class listener writes to, or the message reporting why there is none. */
  datatype Target = Found(sym: Symbol) | Missing(message: string)

  /** The name a class member declaration introduces. */
  function MemberName(m: ClassMember): string {
    match m
    case MethodMember(f) => f.name
    case FieldMember(v) => v.name
    case ConstMember(c) => c.name
  }

  /**
   * Whether a member declaration ends up in the member map: every method
   * and field does (a duplicate field leaves the earlier one), and so does
   * every constant except one without an initializer.
   */
  predicate Registers(m: ClassMember) {
    !(m.ConstMember? && m.c.init.None?)
  }

  /** The names the member declarations put into the member map. */
  function RegisteredNames(ms: seq<ClassMember>): set<string> {
    set k | 0 <= k < |ms| && Registers(ms[k]) :: MemberName(ms[k])
  }

  lemma RegisteredNamesStep(ms: seq<ClassMember>, i: nat)
    requires i < |ms|
    ensures RegisteredNames(ms[..i + 1]) == RegisteredNames(ms[..i]) + if Registers(ms[i]) then {MemberName(ms[i])} else {}
  {
    var a := ms[..i + 1];
    assert forall k :: 0 <= k < i ==> a[k] == ms[..i][k];
    if Registers(ms[i]) {
      assert MemberName(a[i]) in RegisteredNames(a);
    }
  }

  /** Every member is stored under its own name. */
  predicate MembersKeyed(members: map<string, Symbol>) {
    forall k :: k in members ==> members[k].name == k
  }
}

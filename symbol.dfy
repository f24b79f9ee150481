/**
 * Symbol-table entries. name, kind, line, column and the mutable flag are
 * set once by the constructor (Java has no setter for them), so they are
 * `const`; every other attribute is a field the checker updates in place.
 */
module Symbols {
  import opened Options
  import opened Strings
  import opened Types

  datatype Kind = VARIABLE | CONSTANT | FUNCTION | CLASS

  /** Java's Enum.toString. */
  function KindName(k: Kind): string {
    match k
    case VARIABLE => "VARIABLE"
    case CONSTANT => "CONSTANT"
    case FUNCTION => "FUNCTION"
    case CLASS => "CLASS"
  }

  class Symbol {
    const name: string
    const kind: Kind
    const line: int
    const column: int
    const mutable: bool
    const ty: string
    var params: seq<Symbol>
    var nested: bool
    var enclosingFunctionName: Option<string>
    var capturedVariables: set<string>
    var superClass: Option<string>
    var enclosingClassName: Option<string>
    var members: map<string, Symbol>
    var initialized: bool
    var isConstructor: bool

    constructor (name: string, kind: Kind, ty: string, line: int, column: int, mutable: bool)
      ensures this.name == name && this.kind == kind && this.ty == ty
      ensures this.line == line && this.column == column && this.mutable == mutable
      ensures params == [] && members == map[] && capturedVariables == {}
      ensures !initialized && !isConstructor && !nested
      ensures enclosingFunctionName == None && superClass == None && enclosingClassName == None
    {
      this.name := name;
      this.kind := kind;
      this.ty := ty;
      this.line := line;
      this.column := column;
      this.mutable := mutable;
      params := [];
      nested := false;
      enclosingFunctionName := None;
      capturedVariables := {};
      superClass := None;
      enclosingClassName := None;
      members := map[];
      initialized := false;
      isConstructor := false;
    }

    function ParameterCount(): nat
      reads this`params
    {
      |params|
    }

    /** Appends a parameter; earlier parameters keep their positions. */
    method AddParameter(p: Symbol)
      modifies this`params
      ensures ParameterCount() == old(ParameterCount()) + 1
      ensures params[..old(|params|)] == old(params) && params[old(|params|)] == p
    {
      params := params + [p];
    }

    method SetEnclosingFunctionName(n: string)
      modifies this`enclosingFunctionName
      ensures enclosingFunctionName == Some(n)
    {
      enclosingFunctionName := Some(n);
    }

    method SetNested(b: bool)
      modifies this`nested
      ensures nested == b
    {
      nested := b;
    }

    method SetCapturedVariables(vs: set<string>)
      modifies this`capturedVariables
      ensures capturedVariables == vs
    {
      capturedVariables := vs;
    }

    method SetSuperClass(n: string)
      modifies this`superClass
      ensures superClass == Some(n)
    {
      superClass := Some(n);
    }

    method SetEnclosingClassName(n: string)
      modifies this`enclosingClassName
      ensures enclosingClassName == Some(n)
    {
      enclosingClassName := Some(n);
    }

    /** Stores s under its own name, replacing a same-named member only. */
    method AddMember(s: Symbol)
      modifies this`members
      ensures members == old(members)[s.name := s]
      ensures s.name in members && members[s.name] == s
      ensures forall n :: n != s.name ==> (n in members <==> n in old(members))
      ensures forall n :: n != s.name && n in members ==> members[n] == old(members)[n]
    {
      members := members[s.name := s];
    }

    method SetInitialized(b: bool)
      modifies this`initialized
      ensures initialized == b
    {
      initialized := b;
    }

    method SetConstructor(b: bool)
      modifies this`isConstructor
      ensures isConstructor == b
    {
      isConstructor := b;
    }

    /** `KIND name:type (line L:C)`. */
    function ToString(): (r: string)
      ensures StartsWith(r, KindName(kind) + " " + name + ":" + Show(ty))
      ensures EndsWith(r, " (line " + IntToString(line) + ":" + IntToString(column) + ")")
      ensures |r| == |KindName(kind) + " " + name + ":" + Show(ty)| + |" (line " + IntToString(line) + ":" + IntToString(column) + ")"|
    {
      var head := KindName(kind) + " " + name + ":" + Show(ty);
      var tail := " (line " + IntToString(line) + ":" + IntToString(column) + ")";
      assert (head + tail)[..|head|] == head;
      assert (head + tail)[|head + tail| - |tail|..] == tail;
      head + tail
    }
  }

  /** The declared types of a parameter list, in order. */
  function ParamTypes(ps: seq<Symbol>): (ts: seq<string>)
    ensures |ts| == |ps|
    ensures forall k :: 0 <= k < |ps| ==> ts[k] == ps[k].ty
  {
    if ps == [] then [] else ParamTypes(ps[..|ps| - 1]) + [ps[|ps| - 1].ty]
  }

  lemma ParamTypesAppend(ps: seq<Symbol>, p: Symbol)
    ensures ParamTypes(ps + [p]) == ParamTypes(ps) + [p.ty]
  {
    assert (ps + [p])[..|ps|] == ps;
  }

  /** The parameter lists of the given symbols only hold symbols of the set. */
  ghost predicate ParamsClosed(syms: set<Symbol>)
    reads syms`params
  {
    forall s, k :: s in syms && 0 <= k < |s.params| ==> s.params[k] in syms
  }

  /** The member maps of the given symbols only hold symbols of the set. */
  ghost predicate MembersClosed(syms: set<Symbol>)
    reads syms`members
  {
    forall s, m :: s in syms && m in s.members ==> s.members[m] in syms
  }
}

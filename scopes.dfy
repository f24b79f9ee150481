/**
 * The tree of scopes (`Entorno`). Scopes live in an arena: a scope is an
 * index, its parent and children are indices, and `ScopeTree.current` is
 * the checker's current scope. The Java objects are linked by reference;
 * the arena keeps the same parent/children shape (a child's index is
 * always larger than its parent's, the root is index 0).
 */
module Scopes {
  import opened Options
  import opened Symbols

  datatype Scope = Scope(symbols: map<string, Symbol>, parent: Option<nat>, children: seq<nat>)

  ghost predicate WellFormed(s: seq<Scope>) {
    && |s| > 0
    && s[0].parent.None?
    && (forall j :: 0 < j < |s| ==> s[j].parent.Some? && s[j].parent.value < j)
    && (forall j :: 0 < j < |s| ==> ListedByParent(s, j))
    && (forall i, k :: 0 <= i < |s| && 0 <= k < |s[i].children| ==> ChildLinked(s, i, k))
  }

  /** Scope j appears among its parent's children. */
  ghost predicate ListedByParent(s: seq<Scope>, j: nat) {
    0 < j < |s| && s[j].parent.Some? && s[j].parent.value < |s| && j in s[s[j].parent.value].children
  }

  /** Child k of scope i is a later scope whose parent is i. */
  ghost predicate ChildLinked(s: seq<Scope>, i: nat, k: nat) {
    i < |s| && k < |s[i].children| && i < s[i].children[k] < |s| && s[s[i].children[k]].parent == Some(i)
  }

  /** Every child of scope i is a later scope whose parent is i. */
  lemma ChildrenAreLater(s: seq<Scope>, i: nat)
    requires WellFormed(s) && i < |s|
    ensures forall k :: 0 <= k < |s[i].children| ==> i < s[i].children[k] < |s| && s[s[i].children[k]].parent == Some(i)
  {
    forall k | 0 <= k < |s[i].children|
      ensures i < s[i].children[k] < |s| && s[s[i].children[k]].parent == Some(i)
    {
      assert ChildLinked(s, i, k);
    }
  }

  /** Every symbol stored in some scope. */
  ghost function SymbolsOf(s: seq<Scope>): set<Symbol> {
    set i, n | 0 <= i < |s| && n in s[i].symbols :: s[i].symbols[n]
  }

  /** existeLocal: the name is declared in scope i itself. */
  predicate ExistsLocal(s: seq<Scope>, i: nat, n: string)
    requires i < |s|
  {
    n in s[i].symbols
  }

  /** existeGlobal: the name is declared in scope i or one of its ancestors. */
  predicate ExistsGlobal(s: seq<Scope>, i: nat, n: string)
    requires WellFormed(s) && i < |s|
    decreases i
  {
    n in s[i].symbols || (s[i].parent.Some? && ExistsGlobal(s, s[i].parent.value, n))
  }

  /** obtener: the symbol of the nearest scope, walking up from i, that declares n. */
  function Obtain(s: seq<Scope>, i: nat, n: string): (r: Option<Symbol>)
    requires WellFormed(s) && i < |s|
    ensures r.Some? ==> r.value in SymbolsOf(s)
    decreases i
  {
    if n in s[i].symbols then Some(s[i].symbols[n])
    else if s[i].parent.Some? then Obtain(s, s[i].parent.value, n)
    else None
  }

  /** getAllSymbols: root first, so a nearer scope's entry wins. */
  function AllSymbols(s: seq<Scope>, i: nat): map<string, Symbol>
    requires WellFormed(s) && i < |s|
    decreases i
  {
    (if s[i].parent.Some? then AllSymbols(s, s[i].parent.value) else map[]) + s[i].symbols
  }

  /** getAllScopesSymbols: the view of i, then each child's whole subtree in order. */
  function AllScopesSymbols(s: seq<Scope>, i: nat): map<string, Symbol>
    requires WellFormed(s) && i < |s|
    decreases |s| - i, 1, 0
  {
    ChildrenAreLater(s, i);
    ChildrenSymbols(s, i, AllSymbols(s, i), s[i].children)
  }

  function ChildrenSymbols(s: seq<Scope>, i: nat, acc: map<string, Symbol>, cs: seq<nat>): map<string, Symbol>
    requires WellFormed(s) && i < |s|
    requires forall k :: 0 <= k < |cs| ==> i < cs[k] < |s|
    decreases |s| - i, 0, |cs|
  {
    if cs == [] then acc
    else ChildrenSymbols(s, i, acc, cs[..|cs| - 1]) + AllScopesSymbols(s, cs[|cs| - 1])
  }

  /** One more child appends that child's whole subtree. */
  lemma ChildrenSymbolsStep(s: seq<Scope>, i: nat, acc: map<string, Symbol>, cs: seq<nat>, k: nat)
    requires WellFormed(s) && i < |s|
    requires forall j :: 0 <= j < |cs| ==> i < cs[j] < |s|
    requires k < |cs|
    ensures ChildrenSymbols(s, i, acc, cs[..k + 1]) == ChildrenSymbols(s, i, acc, cs[..k]) + AllScopesSymbols(s, cs[k])
  {
    assert cs[..k + 1][..k] == cs[..k];
  }

  /** The scopes a lookup from i visits, nearest first. */
  function Chain(s: seq<Scope>, i: nat): (c: seq<nat>)
    requires WellFormed(s) && i < |s|
    ensures |c| > 0 && c[0] == i && c[|c| - 1] == 0
    ensures forall k :: 0 <= k < |c| ==> c[k] < |s|
    ensures forall k :: 0 <= k < |c| - 1 ==> s[c[k]].parent == Some(c[k + 1])
    decreases i
  {
    if s[i].parent.Some? then [i] + Chain(s, s[i].parent.value) else [i]
  }

  /** Declares sym in scope i (agregar), replacing a same-named entry there. */
  function AddTo(s: seq<Scope>, i: nat, sym: Symbol): (t: seq<Scope>)
    requires i < |s|
    ensures |t| == |s|
    ensures forall j :: 0 <= j < |s| ==> t[j].parent == s[j].parent && t[j].children == s[j].children
    ensures t[i].symbols == s[i].symbols[sym.name := sym]
    ensures WellFormed(s) ==> WellFormed(t)
  {
    var t := s[i := s[i].(symbols := s[i].symbols[sym.name := sym])];
    AddToWellFormed(s, i, sym, t);
    t
  }

  lemma AddToWellFormed(s: seq<Scope>, i: nat, sym: Symbol, t: seq<Scope>)
    requires i < |s|
    requires t == s[i := s[i].(symbols := s[i].symbols[sym.name := sym])]
    ensures WellFormed(s) ==> WellFormed(t)
  {
    if WellFormed(s) {
      forall j | 0 < j < |t|
        ensures ListedByParent(t, j)
      {
        assert ListedByParent(s, j);
      }
      forall a, k | 0 <= a < |t| && 0 <= k < |t[a].children|
        ensures ChildLinked(t, a, k)
      {
        assert ChildLinked(s, a, k);
      }
    }
  }

  /** A fresh child of scope i, appended to i's children (entrarScope). */
  function Entered(s: seq<Scope>, i: nat): (t: seq<Scope>)
    requires i < |s|
    ensures |t| == |s| + 1
    ensures WellFormed(s) ==> WellFormed(t)
  {
    var t := s[i := s[i].(children := s[i].children + [|s|])] + [Scope(map[], Some(i), [])];
    EnteredWellFormed(s, i, t);
    t
  }

  lemma EnteredWellFormed(s: seq<Scope>, i: nat, t: seq<Scope>)
    requires i < |s|
    requires t == s[i := s[i].(children := s[i].children + [|s|])] + [Scope(map[], Some(i), [])]
    ensures WellFormed(s) ==> WellFormed(t)
  {
    if WellFormed(s) {
      assert |t| == |s| + 1;
      forall j | 0 < j < |t|
        ensures ListedByParent(t, j)
      {
        if j < |s| {
          assert ListedByParent(s, j);
          var p := s[j].parent.value;
          assert t[j].parent == s[j].parent;
          assert p != i ==> t[p].children == s[p].children;
          assert p == i ==> t[p].children == s[p].children + [|s|];
        } else {
          assert t[j] == Scope(map[], Some(i), []);
          assert t[i].children == s[i].children + [|s|];
        }
      }
      forall a, k | 0 <= a < |t| && 0 <= k < |t[a].children|
        ensures ChildLinked(t, a, k)
      {
        if a == i && k == |s[i].children| {
          assert t[a].children == s[i].children + [|s|];
        } else {
          assert a < |s| && k < |s[a].children|;
          assert ChildLinked(s, a, k);
          assert t[a].children[k] == s[a].children[k];
          assert t[s[a].children[k]].parent == s[s[a].children[k]].parent;
        }
      }
    }
  }

  /** The scope salirScope moves to: the parent, or i itself at the root. */
  function Exited(s: seq<Scope>, i: nat): nat
    requires i < |s|
  {
    if s[i].parent.Some? then s[i].parent.value else i
  }

  /** The lookup returns the entry of the first scope of the chain that declares n. */
  lemma {:induction false} ObtainIsNearest(s: seq<Scope>, i: nat, n: string)
    requires WellFormed(s) && i < |s|
    ensures forall k ::
      (0 <= k < |Chain(s, i)| && n in s[Chain(s, i)[k]].symbols
       && (forall k' :: 0 <= k' < k ==> n !in s[Chain(s, i)[k']].symbols))
      ==> Obtain(s, i, n) == Some(s[Chain(s, i)[k]].symbols[n])
    ensures (forall k :: 0 <= k < |Chain(s, i)| ==> n !in s[Chain(s, i)[k]].symbols)
      ==> Obtain(s, i, n) == None
    decreases i
  {
    var c := Chain(s, i);
    if s[i].parent.Some? {
      var p := s[i].parent.value;
      ObtainIsNearest(s, p, n);
      var cp := Chain(s, p);
      assert c == [i] + cp;
      forall k | 0 <= k < |c| && n in s[c[k]].symbols && (forall k' :: 0 <= k' < k ==> n !in s[c[k']].symbols)
        ensures Obtain(s, i, n) == Some(s[c[k]].symbols[n])
      {
        if k > 0 {
          assert n !in s[c[0]].symbols;
          forall k' | 0 <= k' < k - 1
            ensures n !in s[cp[k']].symbols
          {
            assert cp[k'] == c[k' + 1];
          }
          assert cp[k - 1] == c[k];
        }
      }
      if forall k :: 0 <= k < |c| ==> n !in s[c[k]].symbols {
        forall k | 0 <= k < |cp|
          ensures n !in s[cp[k]].symbols
        {
          assert cp[k] == c[k + 1];
        }
      }
    } else {
      assert c == [i];
    }
  }

  /** existeGlobal holds exactly when obtener finds a symbol; existeLocal implies both. */
  lemma {:induction false} ExistsGlobalIffObtain(s: seq<Scope>, i: nat, n: string)
    requires WellFormed(s) && i < |s|
    ensures ExistsGlobal(s, i, n) <==> Obtain(s, i, n).Some?
    ensures ExistsLocal(s, i, n) ==> ExistsGlobal(s, i, n) && Obtain(s, i, n) == Some(s[i].symbols[n])
    decreases i
  {
    if n !in s[i].symbols && s[i].parent.Some? {
      ExistsGlobalIffObtain(s, s[i].parent.value, n);
    }
  }

  /** getAllSymbols agrees with obtener on every name. */
  lemma {:induction false} AllSymbolsAgrees(s: seq<Scope>, i: nat, n: string)
    requires WellFormed(s) && i < |s|
    ensures n in AllSymbols(s, i) <==> Obtain(s, i, n).Some?
    ensures n in AllSymbols(s, i) ==> AllSymbols(s, i)[n] == Obtain(s, i, n).value
    decreases i
  {
    if s[i].parent.Some? {
      AllSymbolsAgrees(s, s[i].parent.value, n);
    }
  }

  lemma {:induction false} ChildrenSymbolsIncludes(s: seq<Scope>, i: nat, acc: map<string, Symbol>, cs: seq<nat>)
    requires WellFormed(s) && i < |s|
    requires forall k :: 0 <= k < |cs| ==> i < cs[k] < |s|
    ensures acc.Keys <= ChildrenSymbols(s, i, acc, cs).Keys
    ensures forall k :: 0 <= k < |cs| ==> AllScopesSymbols(s, cs[k]).Keys <= ChildrenSymbols(s, i, acc, cs).Keys
    decreases |cs|
  {
    if cs != [] {
      ChildrenSymbolsIncludes(s, i, acc, cs[..|cs| - 1]);
      forall k | 0 <= k < |cs| - 1
        ensures AllScopesSymbols(s, cs[k]).Keys <= ChildrenSymbols(s, i, acc, cs).Keys
      {
        assert cs[..|cs| - 1][k] == cs[k];
      }
    }
  }

  /** j lies in the subtree of i. */
  ghost predicate Descends(s: seq<Scope>, j: nat, i: nat)
    requires WellFormed(s) && j < |s|
    decreases j
  {
    j == i || (s[j].parent.Some? && Descends(s, s[j].parent.value, i))
  }

  /**
   * getAllScopesSymbols of i names everything visible from i and
   * everything declared anywhere in i's subtree.
   */
  lemma {:induction false} AllScopesSymbolsCovers(s: seq<Scope>, i: nat, j: nat)
    requires WellFormed(s) && i < |s| && j < |s|
    requires Descends(s, j, i)
    ensures AllSymbols(s, i).Keys <= AllScopesSymbols(s, i).Keys
    ensures s[j].symbols.Keys <= AllScopesSymbols(s, i).Keys
    decreases j
  {
    ChildrenAreLater(s, i);
    ChildrenAreLater(s, j);
    ChildrenSymbolsIncludes(s, i, AllSymbols(s, i), s[i].children);
    ChildrenSymbolsIncludes(s, j, AllSymbols(s, j), s[j].children);
    if j != i {
      var p := s[j].parent.value;
      AllScopesSymbolsCovers(s, i, p);
      ChildrenAreLater(s, p);
      ChildrenSymbolsIncludes(s, p, AllSymbols(s, p), s[p].children);
      assert ListedByParent(s, j);
      var k :| 0 <= k < |s[p].children| && s[p].children[k] == j;
      assert s[j].symbols.Keys <= AllScopesSymbols(s, j).Keys <= AllScopesSymbols(s, p).Keys;
      AllScopesSymbolsMonotone(s, i, p);
    }
  }

  lemma {:induction false} AllScopesSymbolsMonotone(s: seq<Scope>, i: nat, j: nat)
    requires WellFormed(s) && i < |s| && j < |s|
    requires Descends(s, j, i)
    ensures AllScopesSymbols(s, j).Keys <= AllScopesSymbols(s, i).Keys
    decreases j
  {
    if j != i {
      var p := s[j].parent.value;
      AllScopesSymbolsMonotone(s, i, p);
      ChildrenAreLater(s, p);
      ChildrenSymbolsIncludes(s, p, AllSymbols(s, p), s[p].children);
      assert ListedByParent(s, j);
      var k :| 0 <= k < |s[p].children| && s[p].children[k] == j;
    }
  }

  /** Lookups from a scope depend only on that scope and its ancestors. */
  lemma {:induction false} ObtainFramed(a: seq<Scope>, b: seq<Scope>, bound: nat, i: nat, n: string)
    requires WellFormed(a) && WellFormed(b) && i < bound <= |a| && bound <= |b|
    requires forall j :: 0 <= j < bound ==> b[j].symbols == a[j].symbols && b[j].parent == a[j].parent
    ensures Obtain(b, i, n) == Obtain(a, i, n)
    decreases i
  {
    if n !in a[i].symbols && a[i].parent.Some? {
      ObtainFramed(a, b, bound, a[i].parent.value, n);
    }
  }

  /** agregar keeps the tree well formed and changes only lookups of the new name through i. */
  lemma {:induction false} AddToEffect(s: seq<Scope>, i: nat, sym: Symbol, j: nat, n: string)
    requires WellFormed(s) && i < |s| && j < |s|
    ensures WellFormed(AddTo(s, i, sym))
    ensures Obtain(AddTo(s, i, sym), i, sym.name) == Some(sym)
    ensures n != sym.name ==> Obtain(AddTo(s, i, sym), j, n) == Obtain(s, j, n)
    ensures i !in Chain(s, j) ==> Obtain(AddTo(s, i, sym), j, n) == Obtain(s, j, n)
    decreases j
  {
    var t := AddTo(s, i, sym);
    if n !in s[j].symbols && s[j].parent.Some? && j != i {
      AddToEffect(s, i, sym, s[j].parent.value, n);
    } else if j != i && n !in s[j].symbols && s[j].parent.None? {
    } else if j == i && n !in s[j].symbols && s[j].parent.Some? {
      AddToEffect(s, i, sym, s[j].parent.value, n);
    }
  }

  /** A fresh child sees exactly what its parent sees; old scopes see what they saw. */
  lemma EnteredEffect(s: seq<Scope>, i: nat, n: string)
    requires WellFormed(s) && i < |s|
    ensures WellFormed(Entered(s, i))
    ensures Obtain(Entered(s, i), |s|, n) == Obtain(s, i, n)
    ensures forall j :: 0 <= j < |s| ==> Obtain(Entered(s, i), j, n) == Obtain(s, j, n)
    ensures Exited(Entered(s, i), |s|) == i
  {
    var t := Entered(s, i);
    forall j | 0 <= j < |s|
      ensures Obtain(t, j, n) == Obtain(s, j, n)
    {
      ObtainFramed(s, t, |s|, j, n);
    }
  }

  /** Declares the symbols one after the other in scope i. */
  function AddAllTo(s: seq<Scope>, i: nat, syms: seq<Symbol>): (t: seq<Scope>)
    requires i < |s|
    ensures |t| == |s|
    ensures WellFormed(s) ==> WellFormed(t)
  {
    if syms == [] then s else AddTo(AddAllTo(s, i, syms[..|syms| - 1]), i, syms[|syms| - 1])
  }

  /** Declaring symbols changes no scope's parent or children. */
  lemma {:induction false} AddAllToShape(s: seq<Scope>, i: nat, syms: seq<Symbol>)
    requires i < |s|
    ensures forall j :: 0 <= j < |s| ==> AddAllTo(s, i, syms)[j].parent == s[j].parent && AddAllTo(s, i, syms)[j].children == s[j].children
    decreases |syms|
  {
    if syms != [] {
      AddAllToShape(s, i, syms[..|syms| - 1]);
    }
  }

  /** Declaring one more symbol after a run is declaring it after the run's result. */
  lemma AddAllToLast(s: seq<Scope>, i: nat, syms: seq<Symbol>, last: Symbol)
    requires i < |s|
    ensures AddAllTo(s, i, syms + [last]) == AddTo(AddAllTo(s, i, syms), i, last)
  {
    assert (syms + [last])[..|syms|] == syms;
  }

  lemma {:induction false} AddAllToEffect(s: seq<Scope>, i: nat, syms: seq<Symbol>, n: string)
    requires WellFormed(s) && i < |s|
    requires forall k :: 0 <= k < |syms| ==> syms[k].name != n
    ensures WellFormed(AddAllTo(s, i, syms))
    ensures forall j :: 0 <= j < |s| ==> Obtain(AddAllTo(s, i, syms), j, n) == Obtain(s, j, n)
    decreases |syms|
  {
    if syms != [] {
      var init := syms[..|syms| - 1];
      AddAllToEffect(s, i, init, n);
      var t := AddAllTo(s, i, init);
      forall j | 0 <= j < |s|
        ensures Obtain(AddTo(t, i, syms[|syms| - 1]), j, n) == Obtain(t, j, n)
      {
        AddToEffect(t, i, syms[|syms| - 1], j, n);
      }
    }
  }

  /**
   * A function declared in scope i, whose parameters are then declared in
   * a fresh child scope, is found by a lookup of its own name from that
   * child unless a parameter has the same name: recursive calls resolve.
   */
  lemma RecursionResolves(s: seq<Scope>, i: nat, f: Symbol, params: seq<Symbol>)
    requires WellFormed(s) && i < |s|
    requires forall k :: 0 <= k < |params| ==> params[k].name != f.name
    ensures Obtain(AddAllTo(Entered(AddTo(s, i, f), i), |s|, params), |s|, f.name) == Some(f)
  {
    var s1 := AddTo(s, i, f);
    AddToEffect(s, i, f, i, f.name);
    EnteredEffect(s1, i, f.name);
    AddAllToEffect(Entered(s1, i), |s|, params, f.name);
  }

  /** agregar stores at most the new symbol beyond what the tree held. */
  lemma SymbolsOfAddTo(s: seq<Scope>, i: nat, sym: Symbol)
    requires i < |s|
    ensures SymbolsOf(AddTo(s, i, sym)) <= SymbolsOf(s) + {sym}
  {
    var t := AddTo(s, i, sym);
    forall o | o in SymbolsOf(t)
      ensures o in SymbolsOf(s) + {sym}
    {
      var j, n :| 0 <= j < |t| && n in t[j].symbols && t[j].symbols[n] == o;
      if j != i || n != sym.name {
        assert n in s[j].symbols && s[j].symbols[n] == o;
      }
    }
  }

  /** entrarScope stores no symbol. */
  lemma SymbolsOfEntered(s: seq<Scope>, i: nat)
    requires i < |s|
    ensures SymbolsOf(Entered(s, i)) == SymbolsOf(s)
  {
    var t := Entered(s, i);
    forall o | o in SymbolsOf(t)
      ensures o in SymbolsOf(s)
    {
      var j, n :| 0 <= j < |t| && n in t[j].symbols && t[j].symbols[n] == o;
      assert j < |s| && t[j].symbols == s[j].symbols;
    }
    forall o | o in SymbolsOf(s)
      ensures o in SymbolsOf(t)
    {
      var j, n :| 0 <= j < |s| && n in s[j].symbols && s[j].symbols[n] == o;
      assert t[j].symbols == s[j].symbols;
    }
  }

  /** The scopes of the checker and its current scope (entornoActual). */
  class ScopeTree {
    var scopes: seq<Scope>
    var current: nat

    ghost predicate Valid()
      reads this
    {
      WellFormed(scopes) && current < |scopes|
    }

    /** A single root scope, which is also the current one. */
    constructor ()
      ensures Valid() && scopes == [Scope(map[], None, [])] && current == 0
    {
      scopes := [Scope(map[], None, [])];
      current := 0;
    }

    /** agregar on the current scope. */
    method Add(sym: Symbol)
      requires Valid()
      modifies this`scopes
      ensures Valid()
      ensures scopes == AddTo(old(scopes), current, sym)
      ensures SymbolsOf(scopes) <= old(SymbolsOf(scopes)) + {sym}
    {
      AddToEffect(scopes, current, sym, current, sym.name);
      SymbolsOfAddTo(scopes, current, sym);
      scopes := AddTo(scopes, current, sym);
    }

    /** entrarScope: a new child of the current scope becomes current. */
    method EnterScope()
      requires Valid()
      modifies this
      ensures Valid()
      ensures scopes == Entered(old(scopes), old(current)) && current == |old(scopes)|
      ensures SymbolsOf(scopes) == old(SymbolsOf(scopes))
    {
      EnteredEffect(scopes, current, "");
      SymbolsOfEntered(scopes, current);
      scopes := Entered(scopes, current);
      current := |scopes| - 1;
    }

    /** salirScope: back to the parent, never above the root. */
    method ExitScope()
      requires Valid()
      modifies this`current
      ensures Valid()
      ensures current == Exited(scopes, old(current))
    {
      if scopes[current].parent.Some? {
        current := scopes[current].parent.value;
      }
    }

    /** getAllScopesSymbols of scope i. */
    method CollectAllScopesSymbols(i: nat) returns (m: map<string, Symbol>)
      requires Valid() && i < |scopes|
      ensures m == AllScopesSymbols(scopes, i)
      decreases |scopes| - i
    {
      m := map[];
      if scopes[i].parent.Some? {
        m := m + AllSymbols(scopes, scopes[i].parent.value);
      }
      m := m + scopes[i].symbols;
      var cs := scopes[i].children;
      ChildrenAreLater(scopes, i);
      var k := 0;
      while k < |cs|
        invariant 0 <= k <= |cs|
        invariant m == ChildrenSymbols(scopes, i, AllSymbols(scopes, i), cs[..k])
      {
        var sub := CollectAllScopesSymbols(cs[k]);
        ChildrenSymbolsStep(scopes, i, AllSymbols(scopes, i), cs, k);
        m := m + sub;
        k := k + 1;
      }
      assert cs[..k] == cs;
    }
  }
}

/**
 * The reader that rebuilds a tree from the parser's LISP-style dump
 * (`parse_sexpr`): a tokenizer that splits the text into "(", ")" and
 * maximal runs of other non-space characters, and a recursive reader
 * that turns "(name child ...)" into a node with children and any other
 * token into a leaf. Only the first expression is read; the rest of the
 * tokens are ignored. Reading past the last token (unbalanced input) is
 * Python's IndexError, modelled as None.
 */
module Sexpr {
  import opened Options

  /**
   * Python's `\s` on str patterns, which is str.isspace: tab to carriage
   * return, the four information separators, space, next line, no-break
   * space, and the Unicode space, line and paragraph separators (the set
   * every Unicode version since 6.3 gives).
   */
  predicate IsSpace(c: char) {
    || '\t' <= c <= '\r'
    || '\U{1C}' <= c <= ' '
    || c == '\U{85}' || c == '\U{A0}' || c == '\U{1680}'
    || '\U{2000}' <= c <= '\U{200A}'
    || c == '\U{2028}' || c == '\U{2029}' || c == '\U{202F}' || c == '\U{205F}' || c == '\U{3000}'
  }

  /** A character of an atom: neither whitespace nor a parenthesis. */
  predicate IsAtomChar(c: char) {
    !IsSpace(c) && c != '(' && c != ')'
  }

  /** A non-empty run of atom characters. */
  predicate IsAtom(t: string) {
    |t| > 0 && forall k :: 0 <= k < |t| ==> IsAtomChar(t[k])
  }

  /** What the tokenizer can produce: "(", ")" or an atom. */
  predicate IsToken(t: string) {
    t == "(" || t == ")" || IsAtom(t)
  }

  /** The length of the longest prefix of s made of atom characters. */
  function AtomLength(s: string): (n: nat)
    ensures n <= |s|
    ensures forall k :: 0 <= k < n ==> IsAtomChar(s[k])
    ensures n < |s| ==> !IsAtomChar(s[n])
  {
    if s == [] || !IsAtomChar(s[0]) then 0 else 1 + AtomLength(s[1..])
  }

  /** `re.findall(r'\(|\)|[^\s()]+', text)`: the tokens from left to right. */
  function Tokenize(s: string): (ts: seq<string>)
    ensures forall k :: 0 <= k < |ts| ==> IsToken(ts[k])
    decreases |s|
  {
    if s == [] then []
    else if IsSpace(s[0]) then Tokenize(s[1..])
    else if s[0] == '(' || s[0] == ')' then [[s[0]]] + Tokenize(s[1..])
    else
      var n := AtomLength(s);
      [s[..n]] + Tokenize(s[n..])
  }

  /** The characters of s that are not whitespace. */
  function Squeezed(s: string): string
    decreases |s|
  {
    if s == [] then [] else (if IsSpace(s[0]) then [] else [s[0]]) + Squeezed(s[1..])
  }

  function Concat(ts: seq<string>): string {
    if ts == [] then [] else ts[0] + Concat(ts[1..])
  }

  lemma {:induction false} SqueezedOfAtom(s: string, n: nat)
    requires n <= |s| && forall k :: 0 <= k < n ==> IsAtomChar(s[k])
    ensures Squeezed(s) == s[..n] + Squeezed(s[n..])
    decreases n
  {
    if n > 0 {
      SqueezedOfAtom(s[1..], n - 1);
      assert s[1..][..n - 1] == s[1..n];
      assert s[1..][n - 1..] == s[n..];
      assert [s[0]] + s[1..n] == s[..n];
    }
  }

  /** Tokenizing drops exactly the whitespace: the tokens spell out the text without it. */
  lemma {:induction false} TokensKeepEveryOtherChar(s: string)
    ensures Concat(Tokenize(s)) == Squeezed(s)
    decreases |s|
  {
    if s != [] {
      if IsSpace(s[0]) {
        TokensKeepEveryOtherChar(s[1..]);
      } else if s[0] == '(' || s[0] == ')' {
        TokensKeepEveryOtherChar(s[1..]);
        assert Tokenize(s)[1..] == Tokenize(s[1..]);
      } else {
        var n := AtomLength(s);
        TokensKeepEveryOtherChar(s[n..]);
        SqueezedOfAtom(s, n);
        assert Tokenize(s)[1..] == Tokenize(s[n..]);
      }
    }
  }

  /** The tokens written out with a space after each. */
  function Spaced(ts: seq<string>): string {
    if ts == [] then [] else ts[0] + " " + Spaced(ts[1..])
  }

  lemma AtomLengthOfSpaced(t: string, rest: string)
    requires IsAtom(t)
    ensures AtomLength(t + " " + rest) == |t|
  {
    var s := t + " " + rest;
    assert s[|t|] == ' ';
    assert forall k :: 0 <= k < |t| ==> s[k] == t[k];
  }

  /** Writing tokens with spaces between them and tokenizing again gives the same tokens back. */
  lemma {:induction false} TokenizeSpaced(ts: seq<string>)
    requires forall k :: 0 <= k < |ts| ==> IsToken(ts[k])
    ensures Tokenize(Spaced(ts)) == ts
  {
    if ts != [] {
      var t, rest := ts[0], Spaced(ts[1..]);
      var s := t + " " + rest;
      TokenizeSpaced(ts[1..]);
      assert s == Spaced(ts);
      if t == "(" || t == ")" {
        assert s[1..] == " " + rest;
        assert Tokenize(" " + rest) == Tokenize(rest) by {
          assert (" " + rest)[1..] == rest;
        }
        assert [s[0]] == t;
      } else {
        AtomLengthOfSpaced(t, rest);
        assert s[..|t|] == t;
        assert s[|t|..] == " " + rest;
        assert (" " + rest)[1..] == rest;
        assert !IsSpace(s[0]) && s[0] != '(' && s[0] != ')';
      }
    }
  }

  /** A tree node: a name and its children, in source order. */
  datatype Node = Node(name: string, children: seq<Node>)

  /**
   * `parse_node` starting at token i: the node it returns and the index
   * after it, or None where it would read past the last token.
   */
  function ParseAt(ts: seq<string>, i: nat): (r: Option<(Node, nat)>)
    ensures r.Some? ==> i < r.value.1 <= |ts|
    decreases |ts| - i, 0
  {
    if i >= |ts| then None
    else if ts[i] == "(" then
      if i + 1 >= |ts| then None
      else
        match ParseChildren(ts, i + 2)
        case None => None
        case Some((cs, k)) => Some((Node(ts[i + 1], cs), k))
    else Some((Node(ts[i], []), i + 1))
  }

  /** The while-loop of `parse_node`: children until ")", which is consumed. */
  function ParseChildren(ts: seq<string>, j: nat): (r: Option<(seq<Node>, nat)>)
    ensures r.Some? ==> j < r.value.1 <= |ts|
    decreases |ts| - j, 1
  {
    if j >= |ts| then None
    else if ts[j] == ")" then Some(([], j + 1))
    else
      match ParseAt(ts, j)
      case None => None
      case Some((c, k)) =>
        match ParseChildren(ts, k)
        case None => None
        case Some((cs, m)) => Some(([c] + cs, m))
  }

  /** The result of the children loop once `done` children are already read. */
  function After(done: seq<Node>, r: Option<(seq<Node>, nat)>): Option<(seq<Node>, nat)> {
    if r.None? then None else Some((done + r.value.0, r.value.1))
  }

  lemma AfterNothing(r: Option<(seq<Node>, nat)>)
    ensures After([], r) == r
  {
    if r.Some? {
      assert [] + r.value.0 == r.value.0;
    }
  }

  lemma AfterAfter(a: seq<Node>, b: seq<Node>, r: Option<(seq<Node>, nat)>)
    ensures After(a, After(b, r)) == After(a + b, r)
  {
    if r.Some? {
      assert a + (b + r.value.0) == a + b + r.value.0;
    }
  }

  /** parse_node, advancing the index and appending children in a loop. */
  method ParseNode(ts: seq<string>, i: nat) returns (r: Option<(Node, nat)>)
    ensures r == ParseAt(ts, i)
    decreases |ts| - i
  {
    if i >= |ts| {
      return None;
    }
    var index := i;
    if ts[index] == "(" {
      index := index + 1;
      if index >= |ts| {
        return None;
      }
      var name := ts[index];
      index := index + 1;
      var children: seq<Node> := [];
      AfterNothing(ParseChildren(ts, index));
      while index < |ts| && ts[index] != ")"
        invariant i + 2 <= index <= |ts|
        invariant ParseChildren(ts, i + 2) == After(children, ParseChildren(ts, index))
        decreases |ts| - index
      {
        var c := ParseNode(ts, index);
        if c.None? {
          return None;
        }
        assert ParseChildren(ts, index) == After([c.value.0], ParseChildren(ts, c.value.1));
        AfterAfter(children, [c.value.0], ParseChildren(ts, c.value.1));
        children := children + [c.value.0];
        index := c.value.1;
      }
      if index >= |ts| {
        return None;
      }
      assert After(children, ParseChildren(ts, index)) == Some((children, index + 1)) by {
        assert children + [] == children;
      }
      return Some((Node(name, children), index + 1));
    }
    return Some((Node(ts[index], []), index + 1));
  }

  /** parse_sexpr: tokenize, then read one node from the first token. */
  method ParseSexpr(text: string) returns (r: Option<Node>)
    ensures var p := ParseAt(Tokenize(text), 0);
      r == if p.None? then None else Some(p.value.0)
  {
    var tokens := Tokenize(text);
    var p := ParseNode(tokens, 0);
    r := if p.None? then None else Some(p.value.0);
  }

  /** An atom token becomes a leaf named by it and consumes exactly that token. */
  lemma AtomIsLeaf(ts: seq<string>, i: nat)
    requires i < |ts| && ts[i] != "("
    ensures ParseAt(ts, i) == Some((Node(ts[i], []), i + 1))
  {
  }

  /** "(" takes the next token as the name and consumes at least three tokens. */
  lemma ListConsumesAtLeastThree(ts: seq<string>, i: nat)
    requires i < |ts| && ts[i] == "(" && ParseAt(ts, i).Some?
    ensures ParseAt(ts, i).value.0.name == ts[i + 1]
    ensures ParseAt(ts, i).value.1 >= i + 3
  {
  }

  /** "(x)" and "x" read as the same leaf. */
  lemma ParenthesizedAtom(x: string)
    requires x != "("
    ensures ParseAt(["(", x, ")"], 0) == Some((Node(x, []), 3))
    ensures ParseAt([x], 0) == Some((Node(x, []), 1))
  {
    assert ParseChildren(["(", x, ")"], 2) == Some(([], 3));
  }

  /** Every name is an atom, so it is written as one token. */
  predicate WellNamed(n: Node) {
    IsAtom(n.name) && forall k :: 0 <= k < |n.children| ==> WellNamed(n.children[k])
  }

  /** The dump of a node: a leaf as its name, any other node as "(" name children ")". */
  function Dump(n: Node): seq<string> {
    if n.children == [] then [n.name] else ["(", n.name] + DumpAll(n.children) + [")"]
  }

  function DumpAll(ns: seq<Node>): seq<string> {
    if ns == [] then [] else Dump(ns[0]) + DumpAll(ns[1..])
  }

  lemma {:induction false} DumpTokens(n: Node)
    requires WellNamed(n)
    ensures forall k :: 0 <= k < |Dump(n)| ==> IsToken(Dump(n)[k])
  {
    if n.children != [] {
      DumpAllTokens(n.children);
    }
  }

  lemma {:induction false} DumpAllTokens(ns: seq<Node>)
    requires forall k :: 0 <= k < |ns| ==> WellNamed(ns[k])
    ensures forall k :: 0 <= k < |DumpAll(ns)| ==> IsToken(DumpAll(ns)[k])
  {
    if ns != [] {
      DumpTokens(ns[0]);
      DumpAllTokens(ns[1..]);
    }
  }

  /** A window of a sequence seen through a window of it. */
  lemma Window(ts: seq<string>, j: nat, w: seq<string>, a: nat, b: nat)
    requires j + |w| <= |ts| && ts[j..j + |w|] == w && a <= b <= |w|
    ensures ts[j + a..j + b] == w[a..b]
    ensures a < b ==> ts[j + a] == w[a]
  {
    forall k | 0 <= k < b - a
      ensures ts[j + a..j + b][k] == w[a..b][k]
    {
      assert ts[j..j + |w|][a + k] == w[a + k];
    }
    if a < b {
      assert ts[j..j + |w|][a] == w[a];
    }
  }

  /** A dump is never empty and never starts with ")". */
  lemma DumpHead(n: Node)
    requires WellNamed(n)
    ensures |Dump(n)| > 0 && Dump(n)[0] != ")"
    ensures n.children == [] ==> Dump(n)[0] != "("
  {
    if n.children == [] {
      assert n.name[0] != ')' && n.name[0] != '(';
      assert ")"[0] == ')' && "("[0] == '(';
    }
  }

  /** Reading a dumped node, whatever follows it, gives the node back and stops right after it. */
  lemma {:induction false} ReadDump(n: Node, ts: seq<string>, i: nat)
    requires WellNamed(n)
    requires i + |Dump(n)| <= |ts| && ts[i..i + |Dump(n)|] == Dump(n)
    ensures ParseAt(ts, i) == Some((n, i + |Dump(n)|))
    decreases n, 3
  {
    var d := Dump(n);
    DumpHead(n);
    Window(ts, i, d, 0, 1);
    assert ts[i] == d[0];
    if n.children != [] {
      var body := DumpAll(n.children);
      assert d == ["(", n.name] + body + [")"];
      Window(ts, i, d, 1, 2);
      Window(ts, i, d, 2, |d|);
      assert d[2..|d|] == body + [")"];
      ReadDumpAll(n.children, ts, i + 2);
    }
  }

  /** A window holding u + v holds u, then v. */
  lemma SplitWindow(ts: seq<string>, j: nat, u: seq<string>, v: seq<string>)
    requires j + |u| + |v| <= |ts| && ts[j..j + |u| + |v|] == u + v
    ensures ts[j..j + |u|] == u
    ensures ts[j + |u|..j + |u| + |v|] == v
  {
    Window(ts, j, u + v, 0, |u|);
    Window(ts, j, u + v, |u|, |u| + |v|);
    assert (u + v)[0..|u|] == u;
    assert (u + v)[|u|..|u| + |v|] == v;
  }

  /** One turn of the children loop: a child, then the rest. */
  lemma ChildThenRest(ts: seq<string>, j: nat, c: Node, k: nat, cs: seq<Node>, m: nat)
    requires j < |ts| && ts[j] != ")"
    requires ParseAt(ts, j) == Some((c, k)) && ParseChildren(ts, k) == Some((cs, m))
    ensures ParseChildren(ts, j) == Some(([c] + cs, m))
  {
  }

  /** The first of several dumped children is read back, and the window moves past it. */
  lemma {:induction false} ReadFirstChild(ns: seq<Node>, ts: seq<string>, j: nat)
    requires ns != [] && forall k :: 0 <= k < |ns| ==> WellNamed(ns[k])
    requires j + |DumpAll(ns)| + 1 <= |ts| && ts[j..j + |DumpAll(ns)| + 1] == DumpAll(ns) + [")"]
    ensures j < |ts| && ts[j] != ")"
    ensures ParseAt(ts, j) == Some((ns[0], (j + |Dump(ns[0])|) as nat))
    ensures var k := j + |Dump(ns[0])|;
      k + |DumpAll(ns[1..])| + 1 <= |ts| && ts[k..k + |DumpAll(ns[1..])| + 1] == DumpAll(ns[1..]) + [")"]
    ensures forall k :: 0 <= k < |ns[1..]| ==> WellNamed(ns[1..][k])
    decreases ns, 1
  {
    FirstChildWindow(ns, ts, j);
    ReadDump(ns[0], ts, j);
    forall k | 0 <= k < |ns[1..]|
      ensures WellNamed(ns[1..][k])
    {
      assert ns[1..][k] == ns[k + 1];
    }
  }

  /** The window holding dumped children and ")" holds the first child's dump, then the rest. */
  lemma FirstChildWindow(ns: seq<Node>, ts: seq<string>, j: nat)
    requires ns != [] && WellNamed(ns[0])
    requires j + |DumpAll(ns)| + 1 <= |ts| && ts[j..j + |DumpAll(ns)| + 1] == DumpAll(ns) + [")"]
    ensures j < |ts| && ts[j] != ")"
    ensures j + |Dump(ns[0])| <= |ts| && ts[j..j + |Dump(ns[0])|] == Dump(ns[0])
    ensures var k := j + |Dump(ns[0])|;
      k + |DumpAll(ns[1..])| + 1 <= |ts| && ts[k..k + |DumpAll(ns[1..])| + 1] == DumpAll(ns[1..]) + [")"]
  {
    DumpAllFirst(ns);
    DumpHead(ns[0]);
    ClosedWindow(ts, j, Dump(ns[0]), DumpAll(ns[1..]));
  }

  lemma DumpAllFirst(ns: seq<Node>)
    requires ns != []
    ensures DumpAll(ns) == Dump(ns[0]) + DumpAll(ns[1..])
  {
  }

  /** A window holding u + w + [")"], with u not empty, starts with u[0], holds u, then w + [")"]. */
  lemma ClosedWindow(ts: seq<string>, j: nat, u: seq<string>, w: seq<string>)
    requires |u| > 0 && j + |u| + |w| + 1 <= |ts| && ts[j..j + |u| + |w| + 1] == u + w + [")"]
    ensures j < |ts| && ts[j] == u[0]
    ensures ts[j..j + |u|] == u
    ensures ts[j + |u|..j + |u| + |w| + 1] == w + [")"]
  {
    assert u + w + [")"] == u + (w + [")"]);
    HeadWindow(ts, j, u, w + [")"]);
  }

  /** A window holding u + v, with u not empty, starts with u[0], holds u, then v. */
  lemma HeadWindow(ts: seq<string>, j: nat, u: seq<string>, v: seq<string>)
    requires |u| > 0 && j + |u| + |v| <= |ts| && ts[j..j + |u| + |v|] == u + v
    ensures j < |ts| && ts[j] == u[0]
    ensures ts[j..j + |u|] == u
    ensures ts[j + |u|..j + |u| + |v|] == v
  {
    SplitWindow(ts, j, u, v);
    Window(ts, j, u, 0, 1);
  }

  /** Reading dumped children followed by ")" gives them back and consumes the ")". */
  lemma {:induction false} ReadDumpAll(ns: seq<Node>, ts: seq<string>, j: nat)
    requires forall k :: 0 <= k < |ns| ==> WellNamed(ns[k])
    requires j + |DumpAll(ns)| + 1 <= |ts| && ts[j..j + |DumpAll(ns)| + 1] == DumpAll(ns) + [")"]
    ensures ParseChildren(ts, j) == Some((ns, j + |DumpAll(ns)| + 1))
    decreases ns, 2
  {
    if ns == [] {
      Window(ts, j, [")"], 0, 1);
    } else {
      ReadFirstChild(ns, ts, j);
      var k := j + |Dump(ns[0])|;
      ReadDumpAll(ns[1..], ts, k);
      ChildThenRest(ts, j, ns[0], k, ns[1..], k + |DumpAll(ns[1..])| + 1);
      assert [ns[0]] + ns[1..] == ns;
    }
  }

  /** The dump of a well-named tree, written out with spaces and read again, is the tree. */
  lemma DumpRoundTrip(n: Node, trailing: seq<string>)
    requires WellNamed(n)
    requires forall k :: 0 <= k < |trailing| ==> IsToken(trailing[k])
    ensures var ts := Tokenize(Spaced(Dump(n) + trailing));
      ParseAt(ts, 0).Some? && ParseAt(ts, 0).value.0 == n
  {
    var ts := Dump(n) + trailing;
    DumpTokens(n);
    TokenizeSpaced(ts);
    assert ts[0..|Dump(n)|] == Dump(n);
    ReadDump(n, ts, 0);
  }
}

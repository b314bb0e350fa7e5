/** Grammar trees and validated navigation, as the examples of
    spec/bolder/scopes/tree_spec.rb pin them down.

    A grammar is a graph of nodes named by identifiers. A node has literal
    children and at most one any-node: aliases, an optional constraint on free
    values, and the one shared child that `*`, every alias and every accepted
    free value lead to. A cursor holds the segments accumulated so far and the
    set of nodes consistent with them; after an implicit `*` that set holds
    every alternative, and a later key must suit all of them. */
module Tree {
  import opened Wrappers
  import Text

  type NodeId = nat

  /** The wildcard segment. */
  const Wildcard: string := "*"

  /** The any-node of a node: alternative names, a constraint on free values
      (a regular expression in the source, any string predicate here), and the
      shared subtree. */
  datatype AnyNode = AnyNode(aliases: set<string>, constraint: Option<string -> bool>, child: NodeId)

  datatype Node = Node(children: map<string, NodeId>, any: Option<AnyNode>)

  /** A declared tree: the root's name, the root and every node. */
  datatype Grammar = Grammar(rootName: string, root: NodeId, nodes: map<NodeId, Node>)

  /** The one error navigation raises, with the offending key and the path so far. */
  datatype HierarchyError = InvalidScopeHierarchy(key: string, path: seq<string>)

  datatype Cursor = Cursor(segments: seq<string>, candidates: set<NodeId>)

  /** A free value as passed in a call: a string or an integer. */
  datatype Atom = Text(s: string) | Number(n: int)

  /** The two call forms: several arguments `_value(1, '2')`, or one list `_value([1, '2'])`. */
  datatype ValueCall = Args(atoms: seq<Atom>) | ListArg(atoms: seq<Atom>)

  /** One navigation step: a name (literal, alias or `*`) or a value call. */
  datatype Move = Key(k: string) | Value(call: ValueCall)

  /** Every node a node refers to is declared. */
  predicate Closed(nodes: map<NodeId, Node>, n: Node) {
    && (forall k :: k in n.children ==> n.children[k] in nodes)
    && (n.any.Some? ==> n.any.value.child in nodes)
  }

  predicate WellFormed(g: Grammar) {
    g.root in g.nodes && forall id {:trigger g.nodes[id]} :: id in g.nodes ==> Closed(g.nodes, g.nodes[id])
  }

  /** A cursor navigation can continue from. */
  predicate Live(g: Grammar, c: Cursor) {
    |c.segments| > 0 && c.candidates != {} && c.candidates <= g.nodes.Keys
  }

  /** Where a key leads from one node: `*` to the any-node's child, or to every
      literal child when there is no any-node (the implicit wildcard); a literal
      to its child; an alias to the any-node's child; anything else nowhere. */
  function Targets(n: Node, k: string): set<NodeId> {
    if k == Wildcard then
      if n.any.Some? then {n.any.value.child} else n.children.Values
    else if k in n.children then {n.children[k]}
    else if n.any.Some? && k in n.any.value.aliases then {n.any.value.child}
    else {}
  }

  /** A key leads somewhere exactly when it is declared at the node: `*` where
      there is an any-node or a literal child, a literal child, or an alias.
      Only the implicit wildcard can lead to more than one node. */
  lemma TargetsDeclared(n: Node, k: string)
    ensures Targets(n, k) != {} <==>
              ((k == Wildcard && (n.any.Some? || |n.children| > 0)) || k in n.children ||
               (n.any.Some? && k in n.any.value.aliases))
    ensures k != Wildcard || n.any.Some? ==> |Targets(n, k)| <= 1
  {
    if k == Wildcard && n.any.None? && |n.children| > 0 {
      var k0 :| k0 in n.children;
      assert n.children[k0] in n.children.Values;
    }
  }

  /** Free values a node accepts: it has an any-node, and that any-node either
      has no constraint or every value satisfies it. */
  predicate AcceptsValues(n: Node, values: seq<string>) {
    n.any.Some? && (n.any.value.constraint.None? || forall v :: v in values ==> n.any.value.constraint.value(v))
  }

  /** Where a key leads from a set of candidates. */
  function Next(g: Grammar, candidates: set<NodeId>, k: string): set<NodeId>
    requires candidates <= g.nodes.Keys
  {
    set n, m | n in candidates && m in Targets(g.nodes[n], k) :: m
  }

  /** The candidates after a key are exactly the targets of the candidates before it. */
  lemma NextMembers(g: Grammar, candidates: set<NodeId>, k: string)
    requires candidates <= g.nodes.Keys
    ensures forall m :: m in Next(g, candidates, k) <==> exists n :: n in candidates && m in Targets(g.nodes[n], k)
  {
  }

  lemma NextNonEmpty(g: Grammar, candidates: set<NodeId>, k: string)
    requires candidates != {} && candidates <= g.nodes.Keys
    requires forall n :: n in candidates ==> Targets(g.nodes[n], k) != {}
    ensures Next(g, candidates, k) != {}
  {
    var n :| n in candidates;
    var m :| m in Targets(g.nodes[n], k);
    assert m in Next(g, candidates, k);
  }

  /** `tree.<name>`: a cursor at the root when the name is the root's. */
  function Start(g: Grammar, name: string): (r: Result<Cursor, HierarchyError>)
    requires WellFormed(g)
    ensures r.Ok? <==> name == g.rootName
    ensures r.Ok? ==> Live(g, r.value) && r.value.segments == [name] && r.value.candidates == {g.root}
    ensures r.Err? ==> r.error == InvalidScopeHierarchy(name, [])
  {
    if name == g.rootName then Ok(Cursor([name], {g.root}))
    else Err(InvalidScopeHierarchy(name, []))
  }

  /** A step by name: accepted exactly when every candidate leads somewhere by
      it; the key is appended as written. */
  function Step(g: Grammar, c: Cursor, k: string): (r: Result<Cursor, HierarchyError>)
    requires WellFormed(g) && Live(g, c)
    ensures r.Ok? <==> forall n :: n in c.candidates ==> Targets(g.nodes[n], k) != {}
    ensures r.Ok? ==> Live(g, r.value) && r.value.segments == c.segments + [k]
    ensures r.Ok? ==> forall m :: m in r.value.candidates ==>
                        exists n :: n in c.candidates && m in Targets(g.nodes[n], k)
    ensures r.Err? ==> r.error == InvalidScopeHierarchy(k, c.segments)
  {
    if forall n :: n in c.candidates ==> Targets(g.nodes[n], k) != {} then
      NextNonEmpty(g, c.candidates, k);
      Ok(Cursor(c.segments + [k], Next(g, c.candidates, k)))
    else
      Err(InvalidScopeHierarchy(k, c.segments))
  }

  /** The number a string of decimal digits denotes, most significant first. */
  function DigitsValue(s: string): nat
    requires forall i :: 0 <= i < |s| ==> '0' <= s[i] <= '9'
    decreases |s|
  {
    if |s| == 0 then 0
    else 10 * DigitsValue(s[..|s| - 1]) + (s[|s| - 1] as int - '0' as int)
  }

  /** The digit of a number below ten. */
  function Digit(d: nat): (ch: char)
    requires d < 10
    ensures '0' <= ch <= '9' && ch as int - '0' as int == d
  {
    ('0' as int + d) as char
  }

  /** Ruby's `Integer#to_s` for a natural number: decimal digits denoting n,
      without a leading zero. */
  function NatToString(n: nat): (r: string)
    ensures |r| > 0 && forall i :: 0 <= i < |r| ==> '0' <= r[i] <= '9'
    ensures DigitsValue(r) == n
    ensures r[0] != '0' || r == "0"
    decreases n
  {
    if n < 10 then [Digit(n)]
    else
      var high := NatToString(n / 10);
      var r := high + [Digit(n % 10)];
      assert r[..|r| - 1] == high;
      r
  }

  /** `to_s` of a free value. */
  function Show(a: Atom): string {
    match a
    case Text(s) => s
    case Number(n) => if n < 0 then "-" + NatToString(-n) else NatToString(n)
  }

  /** The values of a call, stringified, in argument order. */
  function ValueStrings(call: ValueCall): (r: seq<string>)
    ensures |r| == |call.atoms|
    ensures forall i :: 0 <= i < |r| ==> r[i] == Show(call.atoms[i])
  {
    seq(|call.atoms|, i requires 0 <= i < |call.atoms| => Show(call.atoms[i]))
  }

  /** A segment of the tuple form: parenthesised. */
  predicate Parenthesised(segment: string) {
    |segment| >= 2 && segment[0] == '(' && segment[|segment| - 1] == ')'
  }

  /** Reads the values back from a rendered segment: a tuple is split at its
      commas, anything else is one value. */
  function ParseValues(segment: string): seq<string> {
    if Parenthesised(segment) then Text.Split(segment[1..|segment| - 1], ',') else [segment]
  }

  /** Values whose rendering can be read back: there is at least one, none
      holds a comma, and a lone value does not itself look like a tuple. */
  predicate Readable(values: seq<string>) {
    && |values| > 0
    && (forall i :: 0 <= i < |values| ==> ',' !in values[i])
    && (|values| == 1 ==> !Parenthesised(values[0]))
  }

  /** The segment of a value call: one value bare, several as `(v1,v2,...)`. */
  function RenderValues(values: seq<string>): string {
    if |values| == 1 then values[0] else "(" + Text.Join(values, ",") + ")"
  }

  /** Reading a rendered segment back gives the values again; several values,
      or none, always render as a tuple. */
  lemma ValuesRoundTrip(values: seq<string>)
    ensures Readable(values) ==> ParseValues(RenderValues(values)) == values
    ensures |values| != 1 ==> Parenthesised(RenderValues(values))
  {
    if |values| != 1 {
      var inner := Text.Join(values, ",");
      var r := "(" + inner + ")";
      assert r[1..|r| - 1] == inner;
      if Readable(values) {
        Text.SplitJoin(values, ',');
      }
    }
  }

  /** The shared subtrees a value call leads to. */
  function ValueNext(g: Grammar, candidates: set<NodeId>): set<NodeId>
    requires candidates <= g.nodes.Keys
  {
    set n | n in candidates && g.nodes[n].any.Some? :: g.nodes[n].any.value.child
  }

  /** A value call: accepted exactly when it has values and every candidate
      accepts them; the rendered values are appended. */
  function ValueStep(g: Grammar, c: Cursor, call: ValueCall): (r: Result<Cursor, HierarchyError>)
    requires WellFormed(g) && Live(g, c)
    ensures r.Ok? <==> |call.atoms| > 0 && forall n :: n in c.candidates ==> AcceptsValues(g.nodes[n], ValueStrings(call))
    ensures r.Ok? ==> Live(g, r.value) && r.value.segments == c.segments + [RenderValues(ValueStrings(call))]
    ensures r.Ok? ==> forall m :: m in r.value.candidates ==>
                        exists n :: n in c.candidates && g.nodes[n].any == Some(AnyNode(g.nodes[n].any.value.aliases, g.nodes[n].any.value.constraint, m))
    ensures r.Err? ==> r.error == InvalidScopeHierarchy(RenderValues(ValueStrings(call)), c.segments)
  {
    var values := ValueStrings(call);
    if |values| > 0 && forall n :: n in c.candidates ==> AcceptsValues(g.nodes[n], values) then
      var n :| n in c.candidates;
      assert g.nodes[n].any.value.child in ValueNext(g, c.candidates);
      Ok(Cursor(c.segments + [RenderValues(values)], ValueNext(g, c.candidates)))
    else
      Err(InvalidScopeHierarchy(RenderValues(values), c.segments))
  }

  /** After an accepted key the candidates are exactly the targets of the
      candidates before it: every target of every alternative stays a
      candidate, and nothing else is. */
  lemma StepExact(g: Grammar, c: Cursor, k: string)
    requires WellFormed(g) && Live(g, c)
    requires Step(g, c, k).Ok?
    ensures forall m :: m in Step(g, c, k).value.candidates <==>
                          exists n :: n in c.candidates && m in Targets(g.nodes[n], k)
  {
    NextMembers(g, c.candidates, k);
  }

  /** After an accepted value call the candidates are exactly the shared
      children of the candidates before it. */
  lemma ValueStepExact(g: Grammar, c: Cursor, call: ValueCall)
    requires WellFormed(g) && Live(g, c)
    requires ValueStep(g, c, call).Ok?
    ensures forall n :: n in c.candidates ==> g.nodes[n].any.Some?
    ensures forall m :: m in ValueStep(g, c, call).value.candidates <==>
                          exists n :: n in c.candidates && m == g.nodes[n].any.value.child
  {
  }

  /** One move of either kind. */
  function Apply(g: Grammar, c: Cursor, m: Move): (r: Result<Cursor, HierarchyError>)
    requires WellFormed(g) && Live(g, c)
    ensures r.Ok? ==> Live(g, r.value) && r.value.segments == c.segments + [Rendered(m)]
  {
    match m
    case Key(k) => Step(g, c, k)
    case Value(call) => ValueStep(g, c, call)
  }

  /** The segment a move contributes when accepted. */
  function Rendered(m: Move): string {
    match m
    case Key(k) => k
    case Value(call) => RenderValues(ValueStrings(call))
  }

  /** The segments a list of moves contributes. */
  function RenderedAll(moves: seq<Move>): (r: seq<string>)
    ensures |r| == |moves|
    decreases |moves|
  {
    if |moves| == 0 then [] else [Rendered(moves[0])] + RenderedAll(moves[1..])
  }

  /** A chain of moves from a cursor, stopping at the first error. */
  function Walk(g: Grammar, c: Cursor, moves: seq<Move>): (r: Result<Cursor, HierarchyError>)
    requires WellFormed(g) && Live(g, c)
    ensures r.Ok? ==> Live(g, r.value)
    decreases |moves|
  {
    if |moves| == 0 then Ok(c)
    else
      var first := Apply(g, c, moves[0]);
      if first.Err? then first
      else Walk(g, first.value, moves[1..])
  }

  /** Each segment a list of moves contributes is its own move's rendering. */
  lemma {:induction false} RenderedAllAt(moves: seq<Move>, i: nat)
    requires i < |moves|
    ensures RenderedAll(moves)[i] == Rendered(moves[i])
    decreases i
  {
    if i > 0 {
      RenderedAllAt(moves[1..], i - 1);
    }
  }

  /** The rendered moves are `segments` when they render one by one to them. */
  lemma RenderedAllOf(moves: seq<Move>, segments: seq<string>)
    requires |moves| == |segments|
    requires forall i :: 0 <= i < |moves| ==> Rendered(moves[i]) == segments[i]
    ensures RenderedAll(moves) == segments
  {
    forall i | 0 <= i < |moves|
      ensures RenderedAll(moves)[i] == segments[i]
    {
      RenderedAllAt(moves, i);
    }
  }

  /** Rendering distributes over concatenation of move lists. */
  lemma {:induction false} RenderedAllConcat(moves: seq<Move>, more: seq<Move>)
    ensures RenderedAll(moves + more) == RenderedAll(moves) + RenderedAll(more)
    decreases |moves|
  {
    if |moves| > 0 {
      assert (moves + more)[0] == moves[0];
      assert (moves + more)[1..] == moves[1..] + more;
      RenderedAllConcat(moves[1..], more);
    } else {
      assert moves + more == more;
    }
  }

  lemma AppendAssoc(s: seq<string>, x: string, t: seq<string>)
    ensures s + [x] + t == s + ([x] + t)
  {
  }

  /** An accepted chain appends the rendered moves to the cursor's segments. */
  lemma {:induction false} WalkSegments(g: Grammar, c: Cursor, moves: seq<Move>)
    requires WellFormed(g) && Live(g, c)
    requires Walk(g, c, moves).Ok?
    ensures Walk(g, c, moves).value.segments == c.segments + RenderedAll(moves)
    decreases |moves|
  {
    if |moves| > 0 {
      var first := Apply(g, c, moves[0]);
      WalkSegments(g, first.value, moves[1..]);
      AppendAssoc(c.segments, Rendered(moves[0]), RenderedAll(moves[1..]));
    }
  }

  /** `tree.<name>.<moves...>`. */
  function Navigate(g: Grammar, name: string, moves: seq<Move>): (r: Result<Cursor, HierarchyError>)
    requires WellFormed(g)
    ensures r.Ok? ==> name == g.rootName && Live(g, r.value) && r.value.segments == [name] + RenderedAll(moves)
  {
    match Start(g, name)
    case Err(e) => Err(e)
    case Ok(c) =>
      var r := Walk(g, c, moves);
      if r.Ok? then WalkSegments(g, c, moves); r else r
  }

  /** `to_s`: the segments joined by dots. */
  function ToS(c: Cursor): string {
    Text.Join(c.segments, ".")
  }

  /** `to_a`: the segments. */
  function ToA(c: Cursor): seq<string> {
    c.segments
  }

  /** No segment is empty or holds a dot. */
  predicate PlainSegments(segments: seq<string>) {
    forall i :: 0 <= i < |segments| ==> segments[i] != "" && '.' !in segments[i]
  }

  /** `to_s` is `to_a` joined by dots, and splitting `to_s` at the dots gives
      `to_a` back when no segment is empty or holds a dot. */
  lemma DottedForm(c: Cursor)
    ensures Text.Join(ToA(c), ".") == ToS(c)
    ensures |c.segments| > 0 && PlainSegments(c.segments) ==> Text.Split(ToS(c), '.') == ToA(c)
  {
    if |c.segments| > 0 && PlainSegments(c.segments) {
      Text.SplitJoin(c.segments, '.');
    }
  }

  /** `to_scope`: the scope of the cursor's segments. Its string form is the
      cursor's, and splitting that string on dots gives the segments back. */
  function ToScope(c: Cursor): (s: seq<string>)
    requires |c.segments| > 0
    ensures Text.Join(s, ".") == ToS(c)
    ensures PlainSegments(c.segments) ==> Text.Split(ToS(c), '.') == s
  {
    if PlainSegments(c.segments) then
      Text.SplitJoin(c.segments, '.');
      c.segments
    else c.segments
  }

  lemma PrefixShape(moves: seq<Move>, i: nat)
    requires 0 < i <= |moves|
    ensures |moves[..i]| > 0 && moves[..i][0] == moves[0] && moves[..i][1..] == moves[1..][..i - 1]
  {
  }

  /** Every prefix of an accepted chain of moves is accepted. */
  lemma {:induction false} PrefixAccepted(g: Grammar, c: Cursor, moves: seq<Move>, i: nat)
    requires WellFormed(g) && Live(g, c)
    requires Walk(g, c, moves).Ok?
    requires i <= |moves|
    ensures Walk(g, c, moves[..i]).Ok?
    decreases |moves|
  {
    if i > 0 {
      var next := Apply(g, c, moves[0]).value;
      PrefixShape(moves, i);
      PrefixAccepted(g, next, moves[1..], i - 1);
    }
  }

  /** A rejected chain stays rejected, with the same error, whatever follows it. */
  lemma {:induction false} RejectionFinal(g: Grammar, c: Cursor, moves: seq<Move>, more: seq<Move>)
    requires WellFormed(g) && Live(g, c)
    requires Walk(g, c, moves).Err?
    ensures Walk(g, c, moves + more) == Walk(g, c, moves)
    decreases |moves|
  {
    assert |moves| > 0;
    assert (moves + more)[0] == moves[0];
    match Apply(g, c, moves[0])
    case Err(_) =>
    case Ok(next) =>
      assert (moves + more)[1..] == moves[1..] + more;
      RejectionFinal(g, next, moves[1..], more);
  }

  /** Walking a concatenation walks the first part, then the second from where the first ended. */
  lemma {:induction false} WalkConcat(g: Grammar, c: Cursor, moves: seq<Move>, more: seq<Move>)
    requires WellFormed(g) && Live(g, c)
    ensures Walk(g, c, moves).Ok? ==> Walk(g, c, moves + more) == Walk(g, Walk(g, c, moves).value, more)
    ensures Walk(g, c, moves).Err? ==> Walk(g, c, moves + more) == Walk(g, c, moves)
    decreases |moves|
  {
    if |moves| == 0 {
      assert moves + more == more;
    } else {
      assert (moves + more)[0] == moves[0];
      assert (moves + more)[1..] == moves[1..] + more;
      var first := Apply(g, c, moves[0]);
      if first.Ok? {
        WalkConcat(g, first.value, moves[1..], more);
      }
    }
  }

  /** A single candidate makes a step an ordinary lookup in that node. */
  lemma SingleCandidate(g: Grammar, c: Cursor, n: NodeId, k: string)
    requires WellFormed(g) && Live(g, c) && c.candidates == {n}
    ensures Targets(g.nodes[n], k) != {} ==> Step(g, c, k) == Ok(Cursor(c.segments + [k], Targets(g.nodes[n], k)))
    ensures Targets(g.nodes[n], k) == {} ==> Step(g, c, k) == Err(InvalidScopeHierarchy(k, c.segments))
  {
    assert Next(g, c.candidates, k) == Targets(g.nodes[n], k);
  }

  /** At a node with an any-node, `*`, each alias that is not also a literal
      child, and every accepted value call all lead to the one shared subtree. */
  lemma AnyNodeShared(g: Grammar, c: Cursor, n: NodeId, alias: string, call: ValueCall)
    requires WellFormed(g) && Live(g, c) && c.candidates == {n}
    requires g.nodes[n].any.Some?
    ensures Step(g, c, Wildcard) == Ok(Cursor(c.segments + [Wildcard], {g.nodes[n].any.value.child}))
    ensures alias in g.nodes[n].any.value.aliases && alias !in g.nodes[n].children && alias != Wildcard ==>
              Step(g, c, alias) == Ok(Cursor(c.segments + [alias], {g.nodes[n].any.value.child}))
    ensures ValueStep(g, c, call).Ok? ==>
              ValueStep(g, c, call).value == Cursor(c.segments + [RenderValues(ValueStrings(call))], {g.nodes[n].any.value.child})
  {
    SingleCandidate(g, c, n, Wildcard);
    SingleCandidate(g, c, n, alias);
    assert ValueNext(g, c.candidates) == {g.nodes[n].any.value.child};
  }

  /** At a node without an any-node, `*` is accepted exactly when the node has a
      literal child, and then every literal child becomes a candidate; a key
      after that is accepted exactly when every one of those children leads
      somewhere by it. */
  lemma ImplicitWildcard(g: Grammar, c: Cursor, n: NodeId, k: string)
    requires WellFormed(g) && Live(g, c) && c.candidates == {n}
    requires g.nodes[n].any.None?
    ensures Step(g, c, Wildcard).Ok? <==> |g.nodes[n].children| > 0
    ensures Step(g, c, Wildcard).Ok? ==> Step(g, c, Wildcard).value.candidates == g.nodes[n].children.Values
    ensures Step(g, c, Wildcard).Ok? ==>
              (Step(g, Step(g, c, Wildcard).value, k).Ok? <==>
                 forall m :: m in g.nodes[n].children.Values ==> Targets(g.nodes[m], k) != {})
  {
    SingleCandidate(g, c, n, Wildcard);
    var ch := g.nodes[n].children;
    if |ch| > 0 {
      var k0 :| k0 in ch;
      assert ch[k0] in ch.Values;
    }
  }

  /** Free values: rejected at a node without an any-node, accepted (when there
      is at least one) at an any-node without a constraint, and rejected when
      one of them fails the constraint. */
  lemma FreeValues(g: Grammar, c: Cursor, n: NodeId, call: ValueCall)
    requires WellFormed(g) && Live(g, c) && c.candidates == {n}
    ensures g.nodes[n].any.None? ==> ValueStep(g, c, call).Err?
    ensures g.nodes[n].any.Some? && g.nodes[n].any.value.constraint.None? ==>
              (ValueStep(g, c, call).Ok? <==> |call.atoms| > 0)
    ensures g.nodes[n].any.Some? && g.nodes[n].any.value.constraint.Some? &&
            (exists i :: 0 <= i < |call.atoms| && !g.nodes[n].any.value.constraint.value(Show(call.atoms[i]))) ==>
              ValueStep(g, c, call).Err?
  {
    var values := ValueStrings(call);
    if i :| 0 <= i < |call.atoms| && g.nodes[n].any.Some? && g.nodes[n].any.value.constraint.Some? &&
            !g.nodes[n].any.value.constraint.value(Show(call.atoms[i])) {
      assert values[i] in values;
    }
  }

  /** The two call forms of the same values give the same result: both carry
      the same atoms, and only the atoms are rendered and checked. */
  lemma CallFormsAgree(g: Grammar, c: Cursor, atoms: seq<Atom>)
    requires WellFormed(g) && Live(g, c)
    ensures ValueStep(g, c, Args(atoms)) == ValueStep(g, c, ListArg(atoms))
  {
    assert ValueStrings(Args(atoms)) == ValueStrings(ListArg(atoms));
  }
}

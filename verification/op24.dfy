/** The expression trees built by symbolic execution of the ALU
    (day-24/src/op.rs): their value, their two printers, and the graph
    structure drawn by `to_dot`. */
module Op24 {
  import opened Common

  datatype Op =
    | Input(index: nat)
    | Value(value: int)
    | Mod(a: Op, b: Op)
    | Div(a: Op, b: Op)
    | Add(a: Op, b: Op)
    | Mul(a: Op, b: Op)
    | Eql(a: Op, b: Op)
    | Neql(a: Op, b: Op)
    | If(a: Op, b: Op)

  predicate IsLeaf(op: Op) { op.Input? || op.Value? }

  /** The value an expression stands for, given the ALU inputs `env`.
      `Input(k)` is the k-th input; division and remainder truncate and are
      undefined for a zero divisor; `Eql`/`Neql` are 0 or 1; `If(c, b)` is `b`
      when `c` is non-zero and 0 otherwise. */
  function Eval(op: Op, env: seq<int>): (r: Option<int>)
    ensures op.Value? ==> r == Some(op.value)
    ensures (op.Eql? || op.Neql?) && r.Some? ==> r.value == 0 || r.value == 1
  {
    match op
    case Input(k) => if k < |env| then Some(env[k]) else None
    case Value(v) => Some(v)
    case _ =>
      var l, r := Eval(op.a, env), Eval(op.b, env);
      if l.None? || r.None? then None else Apply(op, l.value, r.value)
  }

  /** The operation of an inner node applied to the values of its operands. */
  function Apply(op: Op, x: int, y: int): (r: Option<int>)
    requires !IsLeaf(op)
    ensures (op.Mod? || op.Div?) ==> (r.None? <==> y == 0)
    ensures (op.Eql? || op.Neql?) ==> r.Some? && (r.value == 0 || r.value == 1)
  {
    match op
    case Mod(_, _) => if y == 0 then None else Some(TMod(x, y))
    case Div(_, _) => if y == 0 then None else Some(TDiv(x, y))
    case Add(_, _) => Some(x + y)
    case Mul(_, _) => Some(x * y)
    case Eql(_, _) => Some(if x == y then 1 else 0)
    case Neql(_, _) => Some(if x != y then 1 else 0)
    case If(_, _) => Some(if x != 0 then y else 0)
  }

  /** `type_string`: the node label used in the graph. */
  function TypeString(op: Op): string
  {
    match op
    case Input(i) => "input" + NatToString(i)
    case Value(v) => IntToString(v)
    case Mod(_, _) => "%"
    case Div(_, _) => "/"
    case Add(_, _) => "+"
    case Mul(_, _) => "*"
    case Eql(_, _) => "="
    case Neql(_, _) => "!="
    case If(_, _) => "if"
  }

  /** `Display::fmt`: a fully parenthesised Rust-like expression. */
  function Show(op: Op): string
  {
    match op
    case Input(n) => "input" + NatToString(n)
    case Value(v) => IntToString(v)
    case Mod(a, b) => "(" + Show(a) + " % " + Show(b) + ")"
    case Div(a, b) => "(" + Show(a) + " / " + Show(b) + ")"
    case Add(a, b) => "(" + Show(a) + " + " + Show(b) + ")"
    case Mul(a, b) => "(" + Show(a) + " * " + Show(b) + ")"
    case Eql(a, b) => "((" + Show(a) + " == " + Show(b) + ") as i64)"
    case If(a, b) => "(if " + Show(a) + " { " + Show(b) + " } else { 0 })"
    case Neql(a, b) => "((" + Show(a) + " != " + Show(b) + ") as i64)"
  }

  /** Leaves print as their label, and the four arithmetic nodes print their
      label between their two operands. */
  lemma ShowUsesTypeString(op: Op)
    ensures IsLeaf(op) ==> Show(op) == TypeString(op)
    ensures op.Mod? || op.Div? || op.Add? || op.Mul? ==>
      Show(op) == "(" + Show(op.a) + " " + TypeString(op) + " " + Show(op.b) + ")"
  {
  }

  /** Opening minus closing parentheses. */
  function Balance(s: string): int
  {
    if s == [] then 0
    else Balance(s[..|s| - 1]) + (if s[|s| - 1] == '(' then 1 else if s[|s| - 1] == ')' then -1 else 0)
  }

  lemma {:induction false} BalanceConcat(s: string, t: string)
    ensures Balance(s + t) == Balance(s) + Balance(t)
    decreases |t|
  {
    if t == [] {
      assert s + t == s;
    } else {
      assert (s + t)[..|s + t| - 1] == s + t[..|t| - 1];
      BalanceConcat(s, t[..|t| - 1]);
    }
  }

  lemma {:induction false} NoParensBalance(s: string)
    requires forall i :: 0 <= i < |s| ==> s[i] != '(' && s[i] != ')'
    ensures Balance(s) == 0
    decreases |s|
  {
    if s != [] {
      NoParensBalance(s[..|s| - 1]);
    }
  }

  lemma BalanceOne(c: char)
    ensures Balance([c]) == (if c == '(' then 1 else if c == ')' then -1 else 0)
  {
    assert [c][..0] == [];
  }

  lemma LeafBalanced(op: Op)
    requires IsLeaf(op)
    ensures Balance(Show(op)) == 0
  {
    var s := Show(op);
    if op.Input? {
      var d := NatToString(op.index);
      assert forall i :: 0 <= i < |s| ==> s[i] != '(' && s[i] != ')' by {
        assert s == "input" + d;
        assert forall i :: 5 <= i < |s| ==> s[i] == d[i - 5];
      }
    } else if op.value < 0 {
      var d := NatToString(-op.value);
      assert forall i :: 0 <= i < |s| ==> s[i] != '(' && s[i] != ')' by {
        assert s == "-" + d;
        assert forall i :: 1 <= i < |s| ==> s[i] == d[i - 1];
      }
    } else {
      assert forall i :: 0 <= i < |s| ==> s[i] != '(' && s[i] != ')';
    }
    NoParensBalance(s);
  }

  /** The fixed text an inner node prints before, between and after its
      operands. */
  function Frame(op: Op): (f: (string, string, string))
    requires !IsLeaf(op)
    ensures Show(op) == f.0 + Show(op.a) + f.1 + Show(op.b) + f.2
  {
    match op
    case Mod(_, _) => ("(", " % ", ")")
    case Div(_, _) => ("(", " / ", ")")
    case Add(_, _) => ("(", " + ", ")")
    case Mul(_, _) => ("(", " * ", ")")
    case Eql(_, _) => ("((", " == ", ") as i64)")
    case Neql(_, _) => ("((", " != ", ") as i64)")
    case If(_, _) => ("(if ", " { ", " } else { 0 })")
  }

  lemma CastBalances()
    ensures Balance("((") == 2 && Balance(") as i64)") == -2
  {
    BalanceOne('(');
    BalanceOne(')');
    BalanceConcat("(", "(");
    assert "((" == "(" + "(";
    NoParensBalance(" as i64");
    BalanceConcat(")", " as i64");
    BalanceConcat(") as i64", ")");
    assert ") as i64)" == ")" + " as i64" + ")";
  }

  lemma IfBalances()
    ensures Balance("(if ") == 1 && Balance(" } else { 0 })") == -1
  {
    BalanceOne('(');
    BalanceOne(')');
    NoParensBalance("if ");
    BalanceConcat("(", "if ");
    assert "(if " == "(" + "if ";
    NoParensBalance(" } else { 0 }");
    BalanceConcat(" } else { 0 }", ")");
    assert " } else { 0 })" == " } else { 0 }" + ")";
  }

  lemma FrameBalanced(op: Op)
    requires !IsLeaf(op)
    ensures var f := Frame(op); Balance(f.0) + Balance(f.1) + Balance(f.2) == 0
  {
    var f := Frame(op);
    NoParensBalance(f.1);
    if op.Eql? || op.Neql? {
      CastBalances();
    } else if op.If? {
      IfBalances();
    } else {
      BalanceOne('(');
      BalanceOne(')');
    }
  }

  /** Every printed expression has as many opening as closing parentheses. */
  lemma {:induction false} ShowBalanced(op: Op)
    ensures Balance(Show(op)) == 0
  {
    if IsLeaf(op) {
      LeafBalanced(op);
    } else {
      ShowBalanced(op.a);
      ShowBalanced(op.b);
      var f := Frame(op);
      var sa, sb := Show(op.a), Show(op.b);
      FrameBalanced(op);
      BalanceConcat(f.0 + sa + f.1 + sb, f.2);
      BalanceConcat(f.0 + sa + f.1, sb);
      BalanceConcat(f.0 + sa, f.1);
      BalanceConcat(f.0, sa);
    }
  }

  // ---------------------------------------------------------------------
  // The graph drawn by `to_dot`. Nodes are identified by value here, so
  // equal subtrees are one node.

  datatype EdgeLabel = Plain | Condition | DivideBy

  /** An edge from an operand to the node that uses it. */
  datatype Edge = Edge(child: Op, parent: Op, kind: EdgeLabel)

  /** The edges a node contributes, in the order `to_dot` pushes them: the
      condition of an `If` and the divisor of a `Div` are labelled. */
  function ChildEdges(n: Op): (es: seq<Edge>)
    ensures IsLeaf(n) <==> es == []
    ensures !IsLeaf(n) ==> |es| == 2 && es[0].child == n.a && es[1].child == n.b
    ensures forall e :: e in es ==> e.parent == n
    ensures forall e :: e in es ==> (e.kind == Condition <==> n.If? && e.child == n.a && e == es[0])
    ensures forall e :: e in es ==> (e.kind == DivideBy <==> n.Div? && e == es[1])
  {
    match n
    case Input(_) => []
    case Value(_) => []
    case If(a, b) => [Edge(a, n, Condition), Edge(b, n, Plain)]
    case Div(a, b) => [Edge(a, n, Plain), Edge(b, n, DivideBy)]
    case _ => [Edge(n.a, n, Plain), Edge(n.b, n, Plain)]
  }

  /** All subexpressions of `op`, itself included. */
  function SubTerms(op: Op): (s: set<Op>)
    ensures op in s
  {
    if IsLeaf(op) then {op} else {op} + SubTerms(op.a) + SubTerms(op.b)
  }

  lemma {:induction false} SubTermsClosed(op: Op, n: Op)
    requires n in SubTerms(op) && !IsLeaf(n)
    ensures n.a in SubTerms(op) && n.b in SubTerms(op)
  {
    if n != op {
      if n in SubTerms(op.a) {
        SubTermsClosed(op.a, n);
      } else {
        SubTermsClosed(op.b, n);
      }
    }
  }

  /** A set that holds `op` and every operand of its members holds every
      subexpression of `op`. */
  lemma {:induction false} ClosedHoldsSubTerms(op: Op, s: set<Op>)
    requires op in s
    requires forall n :: n in s && !IsLeaf(n) ==> n.a in s && n.b in s
    ensures SubTerms(op) <= s
  {
    if !IsLeaf(op) {
      ClosedHoldsSubTerms(op.a, s);
      ClosedHoldsSubTerms(op.b, s);
    }
  }

  /** The operands a drawn node pushes on the worklist. */
  function Children(n: Op): (cs: seq<Op>)
    ensures forall c :: c in cs <==> !IsLeaf(n) && (c == n.a || c == n.b)
  {
    if IsLeaf(n) then [] else [n.a, n.b]
  }

  predicate Distinct(nodes: seq<Op>)
  {
    forall i, j :: 0 <= i < j < |nodes| ==> nodes[i] != nodes[j]
  }

  /** Every drawn node's operands are drawn or still waiting. */
  ghost predicate Closed(seen: set<Op>, stack: seq<Op>)
  {
    forall n :: n in seen && !IsLeaf(n) ==> (n.a in seen || n.a in stack) && (n.b in seen || n.b in stack)
  }

  /** The edge list holds exactly the edges of the drawn nodes. */
  ghost predicate EdgesOf(seen: set<Op>, edges: seq<Edge>)
  {
    (forall e :: e in edges ==> e.parent in seen && e in ChildEdges(e.parent)) &&
    (forall n, e :: n in seen && e in ChildEdges(n) ==> e in edges)
  }

  /** The invariant of the `to_dot` worklist loop. */
  ghost predicate DrawInv(root: Op, seen: set<Op>, nodes: seq<Op>, edges: seq<Edge>, stack: seq<Op>)
  {
    (forall x :: x in stack ==> x in SubTerms(root)) && seen <= SubTerms(root) &&
    (forall n :: n in nodes <==> n in seen) && Distinct(nodes) &&
    (root in seen || root in stack) && Closed(seen, stack) && EdgesOf(seen, edges)
  }

  lemma SkipStep(root: Op, seen: set<Op>, nodes: seq<Op>, edges: seq<Edge>, stack: seq<Op>, node: Op)
    requires DrawInv(root, seen, nodes, edges, stack + [node]) && node in seen
    ensures DrawInv(root, seen, nodes, edges, stack)
  {
    assert forall x :: x in stack + [node] ==> x in stack || x == node;
  }

  lemma VisitStep(root: Op, seen: set<Op>, nodes: seq<Op>, edges: seq<Edge>, stack: seq<Op>, node: Op)
    requires DrawInv(root, seen, nodes, edges, stack + [node]) && node !in seen
    ensures DrawInv(root, seen + {node}, nodes + [node], edges + ChildEdges(node), stack + Children(node))
  {
    var stack' := stack + Children(node);
    assert forall x :: x in stack + [node] ==> x in stack || x == node;
    assert forall x :: x in stack ==> x in stack';
    if !IsLeaf(node) {
      SubTermsClosed(root, node);
      assert node.a in stack' && node.b in stack';
    }
  }

  lemma DropLast<T>(s: seq<T>)
    requires s != []
    ensures s[..|s| - 1] + [s[|s| - 1]] == s
  {
  }

  /** The graph of `root`: every sub-term drawn once, and the edges exactly
      the child edges of the drawn nodes. */
  ghost predicate DrawnGraph(root: Op, nodes: seq<Op>, edges: seq<Edge>)
  {
    && Distinct(nodes)
    && (forall n :: n in nodes <==> n in SubTerms(root))
    && (forall e :: e in edges ==> e.parent in nodes && e in ChildEdges(e.parent))
    && (forall n, e :: n in nodes && e in ChildEdges(n) ==> e in edges)
  }

  /** The worklist of `to_dot`: pop a node; if it was not drawn yet, draw it,
      record its edges and push its operands. */
  method DotGraph(root: Op) returns (nodes: seq<Op>, edges: seq<Edge>)
    ensures DrawnGraph(root, nodes, edges)
  {
    var stack := [root];
    ghost var seen: set<Op> := {};
    nodes, edges := [], [];
    while stack != []
      invariant DrawInv(root, seen, nodes, edges, stack)
      decreases |SubTerms(root) - seen|, |stack|
    {
      var node := stack[|stack| - 1];
      ghost var before := stack;
      stack := stack[..|stack| - 1];
      DropLast(before);
      if node !in nodes {
        VisitStep(root, seen, nodes, edges, stack, node);
        assert SubTerms(root) - (seen + {node}) < SubTerms(root) - seen by {
          assert node in SubTerms(root) - seen;
        }
        seen := seen + {node};
        nodes := nodes + [node];
        edges := edges + ChildEdges(node);
        stack := stack + Children(node);
      } else {
        SkipStep(root, seen, nodes, edges, stack, node);
      }
    }
    ClosedHoldsSubTerms(root, seen);
  }

  /** The position of a node in the drawn node list, used as its name in
      place of the pointer address. */
  function IndexOf(nodes: seq<Op>, n: Op): (k: nat)
    requires n in nodes
    ensures k < |nodes| && nodes[k] == n
  {
    if nodes[0] == n then 0 else 1 + IndexOf(nodes[1..], n)
  }

  function NodeName(nodes: seq<Op>, n: Op): string
    requires n in nodes
  {
    "n" + NatToString(IndexOf(nodes, n))
  }

  function NodeLines(all: seq<Op>, k: nat): string
    requires k <= |all|
    decreases |all| - k
  {
    if k == |all| then []
    else "n" + NatToString(k) + "[label=\"" + TypeString(all[k]) + "\"]\n" + NodeLines(all, k + 1)
  }

  function EdgeLines(nodes: seq<Op>, edges: seq<Edge>): string
    requires forall e :: e in edges ==> e.child in nodes && e.parent in nodes
  {
    if edges == [] then []
    else
      var e := edges[0];
      NodeName(nodes, e.child) + " -> " + NodeName(nodes, e.parent)
      + (match e.kind
         case Plain => ""
         case Condition => " [label=\"condition\"]"
         case DivideBy => " [label=\"divide by\"]")
      + "\n" + EdgeLines(nodes, edges[1..])
  }

  const DotHeader: string := "digraph N {\n"
  const DotFooter: string := "}\n"

  /** The text of a graph: the header, one line per node, one line per edge,
      and the closing brace. */
  function DotText(nodes: seq<Op>, edges: seq<Edge>): (text: string)
    requires forall e :: e in edges ==> e.child in nodes && e.parent in nodes
    ensures |text| >= |DotHeader| + |DotFooter|
    ensures text[..|DotHeader|] == DotHeader
    ensures text[|text| - |DotFooter|..] == DotFooter
  {
    var body := NodeLines(nodes, 0) + EdgeLines(nodes, edges);
    assert DotHeader + body + DotFooter == DotHeader + (body + DotFooter);
    DotHeader + body + DotFooter
  }

  /** `to_dot`: the text of the graph the worklist draws. */
  method ToDot(root: Op) returns (text: string)
    ensures |text| >= |DotHeader| + |DotFooter|
    ensures text[..|DotHeader|] == DotHeader
    ensures text[|text| - |DotFooter|..] == DotFooter
    ensures exists nodes: seq<Op>, edges: seq<Edge> ::
              && DrawnGraph(root, nodes, edges)
              && (forall e :: e in edges ==> e.child in nodes && e.parent in nodes)
              && text == DotText(nodes, edges)
  {
    var nodes, edges := DotGraph(root);
    forall e | e in edges ensures e.child in nodes && e.parent in nodes {
      SubTermsClosed(root, e.parent);
    }
    text := DotText(nodes, edges);
  }
}

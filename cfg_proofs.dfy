/**
 * Why every graph the builder produces is well formed.
 *
 * Each builder state is read as its Shape (CfgShapes): the kinds of its
 * nodes, the labels of the edges leaving each node and the number entering
 * it, by node number. Tracked says the state's ids are the counter values
 * in order and its edges join existing nodes; the primitive steps of the
 * builder (a node appended, an edge appended) are shown to act on shapes as
 * AddNode and AddEdge do. The degree argument itself is carried out on
 * shapes, by induction over the tree.
 */
module CfgProofs {
  import opened Wrappers
  import opened SyntaxTree
  import opened NodeIds
  import opened Cfg
  import opened CfgSpec
  import opened CfgShapes

  /** The counter value the id was rendered from, or -1. */
  ghost function IndexOf(id: string): int {
    if exists j: nat :: NodeId(j) == id then
      var j: nat :| NodeId(j) == id; j
    else
      -1
  }

  lemma IndexOfNodeId(k: nat)
    ensures IndexOf(NodeId(k)) == k
  {
    var w: nat := k;
    assert NodeId(w) == NodeId(k);
    var j := IndexOf(NodeId(k));
    NodeIdInjective(j, k);
  }

  function Kinds(nodes: seq<CfgNode>): seq<CfgNodeType> {
    seq(|nodes|, j requires 0 <= j < |nodes| => nodes[j].kind)
  }

  function Labels(es: seq<CfgEdge>): seq<Option<string>> {
    seq(|es|, k requires 0 <= k < |es| => es[k].edgeLabel)
  }

  /** The labels of the edges leaving each node, by node number. */
  function Outs(s: Step): seq<seq<Option<string>>> {
    seq(|s.nodes|, j requires 0 <= j < |s.nodes| => Labels(OutEdges(s.edges, NodeId(j))))
  }

  /** The number of edges entering each node, by node number. */
  function Ins(s: Step): seq<nat> {
    seq(|s.nodes|, j requires 0 <= j < |s.nodes| => |InEdges(s.edges, NodeId(j))|)
  }

  ghost function ShapeOf(s: Step): Shape {
    Shape(Kinds(s.nodes), Outs(s), Ins(s), |s.edges|, CountConditions(s.nodes), IndexOf(s.cursor.id))
  }

  /** The id is that of one of the first n nodes. */
  ghost predicate Below(id: string, n: int) {
    exists i: nat :: i < n && id == NodeId(i)
  }

  /** Ids follow creation order and edges join existing nodes. */
  ghost predicate Numbered(nodes: seq<CfgNode>, edges: seq<CfgEdge>) {
    && (forall j | 0 <= j < |nodes| :: nodes[j].id == NodeId(j))
    && (forall k | 0 <= k < |edges| :: Below(edges[k].from, |nodes|) && Below(edges[k].to, |nodes|))
  }

  /** The state is numbered and its cursor is one of its nodes. */
  ghost predicate Tracked(s: Step) {
    && Numbered(s.nodes, s.edges)
    && 0 <= IndexOf(s.cursor.id) < |s.nodes| && s.nodes[IndexOf(s.cursor.id)] == s.cursor
  }

  /** The invariant of every builder state. */
  ghost predicate Wf(s: Step) {
    Tracked(s) && SWf(ShapeOf(s))
  }

  // ----- appending to the edge list -----

  lemma OutEdgesAppend(edges: seq<CfgEdge>, e: CfgEdge, id: string)
    ensures OutEdges(edges + [e], id) == OutEdges(edges, id) + (if e.from == id then [e] else [])
    ensures InEdges(edges + [e], id) == InEdges(edges, id) + (if e.to == id then [e] else [])
  {
    assert (edges + [e])[..|edges|] == edges;
  }

  lemma LabelsAppend(es: seq<CfgEdge>, e: CfgEdge)
    ensures Labels(es + [e]) == Labels(es) + [e.edgeLabel]
  {
  }

  /** No edge yet leaves or enters a node numbered beyond every edge endpoint. */
  lemma {:induction false} NoEdgesAt(edges: seq<CfgEdge>, n: int, m: nat)
    requires forall k | 0 <= k < |edges| :: Below(edges[k].from, n) && Below(edges[k].to, n)
    requires n <= m
    ensures OutEdges(edges, NodeId(m)) == [] && InEdges(edges, NodeId(m)) == []
  {
    if edges != [] {
      var last := edges[|edges| - 1];
      NoEdgesAt(edges[..|edges| - 1], n, m);
      assert Below(last.from, n) && Below(last.to, n);
      var i: nat :| i < n && last.from == NodeId(i);
      var i': nat :| i' < n && last.to == NodeId(i');
      NodeIdInjective(i, m);
      NodeIdInjective(i', m);
    }
  }

  // ----- the builder's primitive steps act on shapes as AddNode and AddEdge -----

  /** Appending node n, numbered |s.nodes|. */
  lemma ShapeAddNode(s: Step, n: CfgNode)
    requires Numbered(s.nodes, s.edges)
    requires n.id == NodeId(|s.nodes|)
    ensures ShapeOf(Step(s.nodes + [n], s.edges, s.cursor)) == AddNode(ShapeOf(s), n.kind)
  {
    var s' := Step(s.nodes + [n], s.edges, s.cursor);
    assert (s.nodes + [n])[..|s.nodes|] == s.nodes;
    assert Kinds(s'.nodes) == Kinds(s.nodes) + [n.kind];
    DegreesAddNode(s, n);
  }

  lemma DegreesAddNode(s: Step, n: CfgNode)
    requires forall k | 0 <= k < |s.edges| :: Below(s.edges[k].from, |s.nodes|) && Below(s.edges[k].to, |s.nodes|)
    ensures Outs(Step(s.nodes + [n], s.edges, s.cursor)) == Outs(s) + [[]]
    ensures Ins(Step(s.nodes + [n], s.edges, s.cursor)) == Ins(s) + [0]
  {
    NoEdgesAt(s.edges, |s.nodes|, |s.nodes|);
    OutsAddNode(s, n);
    InsAddNode(s, n);
  }

  lemma OutsAddNode(s: Step, n: CfgNode)
    requires OutEdges(s.edges, NodeId(|s.nodes|)) == []
    ensures Outs(Step(s.nodes + [n], s.edges, s.cursor)) == Outs(s) + [[]]
  {
    var a, b := Outs(Step(s.nodes + [n], s.edges, s.cursor)), Outs(s) + [[]];
    forall j | 0 <= j < |a|
      ensures a[j] == b[j]
    {
    }
  }

  lemma InsAddNode(s: Step, n: CfgNode)
    requires InEdges(s.edges, NodeId(|s.nodes|)) == []
    ensures Ins(Step(s.nodes + [n], s.edges, s.cursor)) == Ins(s) + [0]
  {
    var a, b := Ins(Step(s.nodes + [n], s.edges, s.cursor)), Ins(s) + [0];
    forall j | 0 <= j < |a|
      ensures a[j] == b[j]
    {
    }
  }

  /** Appending an edge from node i to node j labelled l. */
  lemma ShapeAddEdge(s: Step, i: nat, j: nat, l: Option<string>)
    requires i < |s.nodes| && j < |s.nodes|
    ensures ShapeOf(Step(s.nodes, s.edges + [CfgEdge(NodeId(i), NodeId(j), l)], s.cursor))
         == AddEdge(ShapeOf(s), i, j, l)
  {
    var e := CfgEdge(NodeId(i), NodeId(j), l);
    var s' := Step(s.nodes, s.edges + [e], s.cursor);
    var a := ShapeOf(s);
    forall x | 0 <= x < |s.nodes|
      ensures Outs(s')[x] == a.outs[i := a.outs[i] + [l]][x]
      ensures Ins(s')[x] == a.ins[j := a.ins[j] + 1][x]
    {
      OutEdgesAppend(s.edges, e, NodeId(x));
      LabelsAppend(OutEdges(s.edges, NodeId(x)), e);
      NodeIdInjective(i, x);
      NodeIdInjective(j, x);
    }
    assert Outs(s') == a.outs[i := a.outs[i] + [l]];
    assert Ins(s') == a.ins[j := a.ins[j] + 1];
  }

  /** Moving the cursor to node k. */
  lemma ShapeMove(s: Step, c: CfgNode, k: nat)
    requires c.id == NodeId(k)
    ensures ShapeOf(Step(s.nodes, s.edges, c)) == ShapeOf(s).(cursor := k)
  {
    IndexOfNodeId(k);
  }

  lemma NumberedAddNode(nodes: seq<CfgNode>, edges: seq<CfgEdge>, n: CfgNode)
    requires Numbered(nodes, edges) && n.id == NodeId(|nodes|)
    ensures Numbered(nodes + [n], edges)
  {
    forall k | 0 <= k < |edges| ensures Below(edges[k].from, |nodes| + 1) && Below(edges[k].to, |nodes| + 1) {
      assert Below(edges[k].from, |nodes|) && Below(edges[k].to, |nodes|);
      var i: nat :| i < |nodes| && edges[k].from == NodeId(i);
      var i': nat :| i' < |nodes| && edges[k].to == NodeId(i');
    }
  }

  lemma NumberedAddEdge(nodes: seq<CfgNode>, edges: seq<CfgEdge>, i: nat, j: nat, l: Option<string>)
    requires Numbered(nodes, edges) && i < |nodes| && j < |nodes|
    ensures Numbered(nodes, edges + [CfgEdge(NodeId(i), NodeId(j), l)])
  {
    assert Below(NodeId(i), |nodes|) && Below(NodeId(j), |nodes|);
  }

  /** A numbered state whose cursor is node k is tracked, and its cursor's number is k. */
  lemma CursorAt(s: Step, k: nat)
    requires Numbered(s.nodes, s.edges) && k < |s.nodes| && s.cursor == s.nodes[k]
    ensures Tracked(s) && IndexOf(s.cursor.id) == k
  {
    IndexOfNodeId(k);
  }

  /** The cursor of a tracked state carries the id of its number. */
  lemma CursorId(s: Step)
    requires Tracked(s)
    ensures IndexOf(s.cursor.id) >= 0 && s.cursor.id == NodeId(IndexOf(s.cursor.id))
  {
  }

  // ----- each stage of the traversal on shapes -----

  /** A leaf statement appends a Statement node after the cursor. */
  lemma LeafShape(t: SyntaxNode, s: Step)
    requires Tracked(s) && SWf(ShapeOf(s))
    ensures var stmt := NewNode(s, Statement, t.text, t);
      var r := Step(s.nodes + [stmt], s.edges + [Edge(s.cursor, stmt, None)], stmt);
      Tracked(r) && s.nodes <= r.nodes && ShapeOf(r) == AddStatement(ShapeOf(s))
  {
    var n, c := |s.nodes|, IndexOf(s.cursor.id);
    CursorId(s);
    var stmt := NewNode(s, Statement, t.text, t);
    var s1 := Step(s.nodes, s.edges, stmt);
    var s2 := Step(s.nodes + [stmt], s.edges, stmt);
    ShapeMove(s, stmt, n);
    ShapeAddNode(s1, stmt);
    NumberedAddNode(s.nodes, s.edges, stmt);
    ShapeAddEdge(s2, c, n, None);
    NumberedAddEdge(s2.nodes, s.edges, c, n, None);
    var r := Step(s.nodes + [stmt], s.edges + [Edge(s.cursor, stmt, None)], stmt);
    assert Edge(s.cursor, stmt, None) == CfgEdge(NodeId(c), NodeId(n), None);
    CursorAt(r, n);
    StatementSteps(ShapeOf(s));
  }

  /** Three nodes appended in one step. */
  lemma ShapeAddThree(s: Step, n1: CfgNode, n2: CfgNode, n3: CfgNode)
    requires Numbered(s.nodes, s.edges)
    requires n1.id == NodeId(|s.nodes|) && n2.id == NodeId(|s.nodes| + 1) && n3.id == NodeId(|s.nodes| + 2)
    ensures ShapeOf(Step(s.nodes + [n1, n2, n3], s.edges, s.cursor))
         == AddNode(AddNode(AddNode(ShapeOf(s), n1.kind), n2.kind), n3.kind)
  {
    var s1 := Step(s.nodes + [n1], s.edges, s.cursor);
    var s2 := Step(s1.nodes + [n2], s.edges, s.cursor);
    var s3 := Step(s2.nodes + [n3], s.edges, s.cursor);
    NumberedAddNode(s.nodes, s.edges, n1);
    ShapeAddNode(s, n1);
    NumberedAddNode(s1.nodes, s.edges, n2);
    ShapeAddNode(s1, n2);
    ShapeAddNode(s2, n3);
    assert s3 == Step(s.nodes + [n1, n2, n3], s.edges, s.cursor) by {
      assert s2.nodes + [n3] == s.nodes + [n1, n2, n3];
    }
  }

  lemma NumberedAddThree(nodes: seq<CfgNode>, edges: seq<CfgEdge>, n1: CfgNode, n2: CfgNode, n3: CfgNode)
    requires Numbered(nodes, edges)
    requires n1.id == NodeId(|nodes|) && n2.id == NodeId(|nodes| + 1) && n3.id == NodeId(|nodes| + 2)
    ensures Numbered(nodes + [n1, n2, n3], edges)
  {
    NumberedAddNode(nodes, edges, n1);
    NumberedAddNode(nodes + [n1], edges, n2);
    NumberedAddNode(nodes + [n1] + [n2], edges, n3);
    assert nodes + [n1] + [n2] + [n3] == nodes + [n1, n2, n3];
  }

  /** The head of a complete if statement: Condition, Merge and IF_Block, and two edges. */
  lemma IfHeadShapeOf(t: SyntaxNode, s: Step)
    requires IsCompleteIf(t) && Tracked(s) && SWf(ShapeOf(s))
    ensures Tracked(IfHead(t, s)) && s.nodes <= IfHead(t, s).nodes
    ensures ShapeOf(IfHead(t, s)) == IfHeadShape(ShapeOf(s))
  {
    var n, c := |s.nodes|, IndexOf(s.cursor.id);
    CursorId(s);
    var cond, merge := CondNode(t, s), MergeNode(t, s);
    var ifBlock := CfgNode(NodeId(n + 2), Block, "IF_Block", t.consequence.value.range);
    var nodes := s.nodes + [cond, merge, ifBlock];
    var s0 := Step(s.nodes, s.edges, ifBlock);
    ShapeMove(s, ifBlock, n + 2);
    ShapeAddThree(s0, cond, merge, ifBlock);
    IfHeadEdges(t, s);
    IfHeadSteps(ShapeOf(s));
  }

  /** The two edges of the head, on the state with its three nodes. */
  lemma IfHeadEdges(t: SyntaxNode, s: Step)
    requires IsCompleteIf(t) && Tracked(s)
    ensures var n := |s.nodes|;
      var ifBlock := CfgNode(NodeId(n + 2), Block, "IF_Block", t.consequence.value.range);
      var s3 := Step(s.nodes + [CondNode(t, s), MergeNode(t, s), ifBlock], s.edges, ifBlock);
      && Tracked(IfHead(t, s))
      && ShapeOf(IfHead(t, s)) == AddEdge(AddEdge(ShapeOf(s3), IndexOf(s.cursor.id), n, Guard), n, n + 2, True)
  {
    var n, c := |s.nodes|, IndexOf(s.cursor.id);
    CursorId(s);
    var cond, merge := CondNode(t, s), MergeNode(t, s);
    var ifBlock := CfgNode(NodeId(n + 2), Block, "IF_Block", t.consequence.value.range);
    var nodes := s.nodes + [cond, merge, ifBlock];
    NumberedAddThree(s.nodes, s.edges, cond, merge, ifBlock);
    var s3 := Step(nodes, s.edges, ifBlock);
    var e1 := CfgEdge(NodeId(c), NodeId(n), Guard);
    var s4 := Step(nodes, s.edges + [e1], ifBlock);
    ShapeAddEdge(s3, c, n, Guard);
    NumberedAddEdge(nodes, s.edges, c, n, Guard);
    ShapeAddEdge(s4, n, n + 2, True);
    NumberedAddEdge(nodes, s4.edges, n, n + 2, True);
    assert IfHead(t, s) == Step(nodes, s4.edges + [CfgEdge(NodeId(n), NodeId(n + 2), True)], ifBlock);
    CursorAt(IfHead(t, s), n + 2);
  }

  /** An unlabelled edge from the cursor to node m, which becomes the cursor. */
  lemma JoinShapeOf(r: Step, m: nat)
    requires Tracked(r) && m < |r.nodes|
    ensures Tracked(JoinMerge(r, r.nodes[m]))
    ensures ShapeOf(JoinMerge(r, r.nodes[m])) == JoinShape(ShapeOf(r), m)
  {
    var c := IndexOf(r.cursor.id);
    CursorId(r);
    var r0 := Step(r.nodes, r.edges, r.nodes[m]);
    ShapeMove(r, r.nodes[m], m);
    ShapeAddEdge(r0, c, m, None);
    NumberedAddEdge(r.nodes, r.edges, c, m, None);
    assert JoinMerge(r, r.nodes[m]) == Step(r.nodes, r.edges + [CfgEdge(NodeId(c), NodeId(m), None)], r.nodes[m]);
    CursorAt(JoinMerge(r, r.nodes[m]), m);
  }

  /** ELSE_Block, node |s4.nodes|, and its false edge from Condition, node c. */
  lemma ElseShapeOf(s4: Step, n: CfgNode, c: nat, cond: CfgNode)
    requires Tracked(s4) && n.id == NodeId(|s4.nodes|) && n.kind == Block
    requires c < |s4.nodes| && cond.id == NodeId(c)
    ensures var e := Step(s4.nodes + [n], s4.edges + [Edge(cond, n, False)], n);
      && Tracked(e) && s4.nodes <= e.nodes
      && ShapeOf(e) == ElseShape(ShapeOf(s4), c)
  {
    var m := |s4.nodes|;
    var s0 := Step(s4.nodes, s4.edges, n);
    var s1 := Step(s4.nodes + [n], s4.edges, n);
    ShapeMove(s4, n, m);
    ShapeAddNode(s0, n);
    NumberedAddNode(s4.nodes, s4.edges, n);
    ShapeAddEdge(s1, c, m, False);
    NumberedAddEdge(s1.nodes, s4.edges, c, m, False);
    CursorAt(Step(s4.nodes + [n], s4.edges + [Edge(cond, n, False)], n), m);
    ElseSteps(ShapeOf(s4), c);
  }

  /** A false edge from Condition, node c, to Merge, node m, which becomes the cursor. */
  lemma FalseShapeOf(s4: Step, c: nat, cond: CfgNode, m: nat)
    requires Tracked(s4) && c < |s4.nodes| && m < |s4.nodes| && cond.id == NodeId(c)
    ensures var f := Step(s4.nodes, s4.edges + [Edge(cond, s4.nodes[m], False)], s4.nodes[m]);
      Tracked(f) && ShapeOf(f) == FalseShape(ShapeOf(s4), c, m)
  {
    var s0 := Step(s4.nodes, s4.edges, s4.nodes[m]);
    ShapeMove(s4, s4.nodes[m], m);
    ShapeAddEdge(s0, c, m, False);
    NumberedAddEdge(s4.nodes, s4.edges, c, m, False);
    CursorAt(Step(s4.nodes, s4.edges + [Edge(cond, s4.nodes[m], False)], s4.nodes[m]), m);
  }

  // ----- every subtree is a fragment -----

  lemma {:induction false} VisitNodeFragment(t: SyntaxNode, s: Step)
    requires Wf(s)
    ensures var r := VisitNode(t, s);
      Wf(r) && s.nodes <= r.nodes && Fragment(ShapeOf(s), ShapeOf(r))
    decreases t, 1, 0
  {
    if t.kind == "if_statement" {
      if t.condition.Some? && t.consequence.Some? {
        VisitIfFragment(t, s);
      } else {
        FragmentRefl(ShapeOf(s));
      }
    } else if IsLeafStatement(t) {
      LeafShape(t, s);
      StatementFragment(ShapeOf(s));
    } else {
      VisitListFragment(t, 0, s);
    }
  }

  lemma {:induction false} VisitListFragment(t: SyntaxNode, k: nat, s: Step)
    requires k <= |t.children| && Wf(s)
    ensures var r := VisitList(t, k, s);
      Wf(r) && s.nodes <= r.nodes && Fragment(ShapeOf(s), ShapeOf(r))
    decreases t, 0, |t.children| - k
  {
    if k == |t.children| {
      FragmentRefl(ShapeOf(s));
    } else {
      var child := t.children[k];
      if IsVisited(child) {
        VisitNodeFragment(child, s);
        var r := VisitNode(child, s);
        VisitListFragment(t, k + 1, r);
        FragmentTrans(ShapeOf(s), ShapeOf(r), ShapeOf(VisitList(t, k + 1, r)));
      } else {
        VisitListFragment(t, k + 1, s);
      }
    }
  }

  lemma {:induction false} VisitIfFragment(t: SyntaxNode, s: Step)
    requires IsCompleteIf(t) && Wf(s)
    ensures var r := VisitIf(t, s);
      Wf(r) && s.nodes <= r.nodes && Fragment(ShapeOf(s), ShapeOf(r))
    decreases t, 0, 8
  {
    if t.alternative.Some? {
      ElseFragment(t, s);
    } else {
      NoElseFragment(t, s);
    }
  }

  /** The head and the consequence. */
  lemma {:induction false} ThenList(t: SyntaxNode, s: Step)
    requires IsCompleteIf(t) && Wf(s)
    ensures var h, r1 := IfHead(t, s), ThenEnd(t, s);
      && Tracked(r1) && h.nodes <= r1.nodes && |h.nodes| == |s.nodes| + 3
      && Fragment(IfHeadShape(ShapeOf(s)), ShapeOf(r1))
    decreases t, 0, 0
  {
    IfHeadShapeOf(t, s);
    HeadFacts(ShapeOf(s));
    VisitListFragment(t.consequence.value, 0, IfHead(t, s));
  }

  /** After the consequence, the old nodes, Condition and Merge are where they were. */
  lemma {:induction false} ThenNodes(t: SyntaxNode, s: Step)
    requires IsCompleteIf(t) && Wf(s)
    ensures var n, r1 := |s.nodes|, ThenEnd(t, s);
      n + 3 <= |r1.nodes| && s.nodes <= r1.nodes && r1.nodes[n + 1] == MergeNode(t, s)
    decreases t, 0, 1
  {
    var n := |s.nodes|;
    ThenList(t, s);
    var h, r1 := IfHead(t, s), ThenEnd(t, s);
    assert h.nodes[n + 1] == MergeNode(t, s);
    PrefixAt(h.nodes, r1.nodes, n + 1);
  }

  /** Joining the end of the consequence to Merge. */
  lemma {:induction false} ThenJoin(t: SyntaxNode, s: Step)
    requires IsCompleteIf(t) && Wf(s)
    ensures var n, r1, s4 := |s.nodes|, ThenEnd(t, s), AfterThen(t, s);
      Tracked(r1) && n + 1 < |r1.nodes| && Tracked(s4) && ShapeOf(s4) == JoinShape(ShapeOf(r1), n + 1)
    decreases t, 0, 2
  {
    ThenList(t, s);
    ThenNodes(t, s);
    JoinShapeOf(ThenEnd(t, s), |s.nodes| + 1);
  }

  /** The state after an if statement without an alternative, as a shape. */
  lemma {:induction false} NoElseShape(t: SyntaxNode, s: Step)
    requires IsCompleteIf(t) && t.alternative.None? && Wf(s)
    ensures var n, r1, r := |s.nodes|, ThenEnd(t, s), VisitIf(t, s);
      && Tracked(r1) && n + 1 < |r1.nodes| && Tracked(r)
      && ShapeOf(r) == FalseShape(JoinShape(ShapeOf(r1), n + 1), n, n + 1)
    decreases t, 0, 3
  {
    var n, s4 := |s.nodes|, AfterThen(t, s);
    ThenNodes(t, s);
    ThenJoin(t, s);
    assert s4.nodes == ThenEnd(t, s).nodes;
    var merge := s4.nodes[n + 1];
    assert merge == MergeNode(t, s);
    assert VisitIf(t, s) == Step(s4.nodes, s4.edges + [Edge(CondNode(t, s), merge, False)], merge);
    FalseShapeOf(s4, n, CondNode(t, s), n + 1);
  }

  /** An if statement without an alternative keeps the nodes it was given. */
  lemma {:induction false} NoElseNodes(t: SyntaxNode, s: Step)
    requires IsCompleteIf(t) && t.alternative.None? && Wf(s)
    ensures s.nodes <= VisitIf(t, s).nodes
    decreases t, 0, 3
  {
    ThenNodes(t, s);
  }

  /** A complete if statement without an alternative. */
  lemma {:induction false} NoElseFragment(t: SyntaxNode, s: Step)
    requires IsCompleteIf(t) && t.alternative.None? && Wf(s)
    ensures var r := VisitIf(t, s);
      Wf(r) && s.nodes <= r.nodes && Fragment(ShapeOf(s), ShapeOf(r))
    decreases t, 0, 4
  {
    ThenList(t, s);
    NoElseNodes(t, s);
    NoElseShape(t, s);
    IfNoElseFragment(ShapeOf(s), |s.nodes|, ShapeOf(ThenEnd(t, s)), ShapeOf(VisitIf(t, s)));
  }

  /** The shape once ELSE_Block is open. */
  lemma {:induction false} ElseShapeEq(t: SyntaxNode, s: Step)
    requires IsCompleteIf(t) && t.alternative.Some? && Wf(s)
    ensures var n, r1 := |s.nodes|, ThenEnd(t, s);
      && Tracked(r1) && n + 1 < |r1.nodes| && Fragment(IfHeadShape(ShapeOf(s)), ShapeOf(r1))
      && ShapeOf(ElseStart(t, s)) == ElseShape(JoinShape(ShapeOf(r1), n + 1), n)
    decreases t, 0, 3
  {
    var n := |s.nodes|;
    ThenList(t, s);
    ThenJoin(t, s);
    var s4 := AfterThen(t, s);
    ElseShapeOf(s4, NewNode(s4, Block, "ELSE_Block", t.alternative.value), n, CondNode(t, s));
  }

  /** The state once ELSE_Block is open is a builder state. */
  lemma {:induction false} ElseReady(t: SyntaxNode, s: Step)
    requires IsCompleteIf(t) && t.alternative.Some? && Wf(s)
    ensures var n, e := |s.nodes|, ElseStart(t, s);
      Wf(e) && s.nodes <= e.nodes && n + 3 <= |e.nodes| && e.nodes[n + 1] == MergeNode(t, s)
    decreases t, 0, 4
  {
    var n := |s.nodes|;
    ThenNodes(t, s);
    ThenJoin(t, s);
    ElseShapeEq(t, s);
    var s4 := AfterThen(t, s);
    ElseShapeOf(s4, NewNode(s4, Block, "ELSE_Block", t.alternative.value), n, CondNode(t, s));
    ElseStartWf(ShapeOf(s), ShapeOf(ThenEnd(t, s)));
  }

  /** The alternative's statement list. */
  lemma {:induction false} ElseList(t: SyntaxNode, s: Step)
    requires IsCompleteIf(t) && t.alternative.Some? && Wf(s)
    ensures var e, r2 := ElseStart(t, s), ElseEnd(t, s);
      Tracked(r2) && e.nodes <= r2.nodes && Fragment(ShapeOf(e), ShapeOf(r2))
    decreases t, 0, 5
  {
    ElseReady(t, s);
    VisitListFragment(t.alternative.value, 0, ElseStart(t, s));
  }

  /** After the alternative, the old nodes and Merge are where they were. */
  lemma {:induction false} ElseNodes(t: SyntaxNode, s: Step)
    requires IsCompleteIf(t) && t.alternative.Some? && Wf(s)
    ensures var n, r2 := |s.nodes|, ElseEnd(t, s);
      s.nodes <= r2.nodes && n + 1 < |r2.nodes| && r2.nodes[n + 1] == MergeNode(t, s)
    decreases t, 0, 6
  {
    ElseReady(t, s);
    ElseList(t, s);
    PrefixAt(ElseStart(t, s).nodes, ElseEnd(t, s).nodes, |s.nodes| + 1);
  }

  /** A complete if statement with an alternative. */
  lemma {:induction false} ElseFragment(t: SyntaxNode, s: Step)
    requires IsCompleteIf(t) && t.alternative.Some? && Wf(s)
    ensures var r := VisitIf(t, s);
      Wf(r) && s.nodes <= r.nodes && Fragment(ShapeOf(s), ShapeOf(r))
    decreases t, 0, 7
  {
    var n := |s.nodes|;
    ElseShapeEq(t, s);
    ElseList(t, s);
    ElseNodes(t, s);
    JoinShapeOf(ElseEnd(t, s), n + 1);
    IfElseFragment(ShapeOf(s), n, ShapeOf(ThenEnd(t, s)), ShapeOf(ElseStart(t, s)), ShapeOf(ElseEnd(t, s)), ShapeOf(VisitIf(t, s)));
  }

  lemma PrefixAt<T>(a: seq<T>, b: seq<T>, i: nat)
    requires a <= b && i < |a|
    ensures b[i] == a[i]
  {
  }
}

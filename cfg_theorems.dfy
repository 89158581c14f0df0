/**
 * The graph buildControlFlowGraph returns is well formed: nodes are numbered
 * in creation order, Entry comes first and Exit last, every edge joins two
 * nodes of the graph, and every node has exactly the in- and out-degree its
 * kind calls for.
 */
module CfgTheorems {
  import opened Wrappers
  import opened SyntaxTree
  import opened NodeIds
  import opened Cfg
  import opened CfgSpec
  import opened CfgShapes
  import opened CfgProofs

  lemma StartShapeOf(root: SyntaxNode)
    ensures Wf(StartStep(root)) && ShapeOf(StartStep(root)) == Start
  {
    var s0 := StartStep(root);
    CursorAt(s0, 0);
    assert Outs(s0) == [[]];
    assert Ins(s0) == [0];
    assert CountConditions(s0.nodes) == 0;
  }

  /** The graph of the final state, with Exit appended and the cursor as its cursor. */
  lemma ExitShapeOf(r: Step, exit: CfgNode)
    requires Tracked(r) && SWf(ShapeOf(r)) && exit.id == NodeId(|r.nodes|) && exit.kind == Exit
    ensures var g := Step(r.nodes + [exit], r.edges + [Edge(r.cursor, exit, None)], exit);
      Numbered(g.nodes, g.edges) && ShapeOf(g) == ExitShape(ShapeOf(r))
  {
    var m, c := |r.nodes|, IndexOf(r.cursor.id);
    CursorId(r);
    var s0 := Step(r.nodes, r.edges, exit);
    var s1 := Step(r.nodes + [exit], r.edges, exit);
    ShapeMove(r, exit, m);
    ShapeAddNode(s0, exit);
    NumberedAddNode(r.nodes, r.edges, exit);
    ShapeAddEdge(s1, c, m, None);
    NumberedAddEdge(s1.nodes, r.edges, c, m, None);
    ExitSteps(ShapeOf(r));
  }

  /** The labels of a node's out-edges determine the shape of the edges themselves. */
  lemma LabelsOut(kind: CfgNodeType, es: seq<CfgEdge>)
    requires LabelShape(kind, Labels(es))
    ensures OutShape(kind, es)
  {
    if kind == Condition {
      assert Labels(es)[0] == es[0].edgeLabel && Labels(es)[1] == es[1].edgeLabel;
    }
  }

  /** A finished shape gives every node of the graph its exact degrees. */
  lemma DegreesOf(g: ControlFlowGraph, c: CfgNode)
    requires Numbered(g.nodes, g.edges) && Finished(ShapeOf(Step(g.nodes, g.edges, c)))
    ensures forall j | 0 <= j < |g.nodes| :: OutShape(g.nodes[j].kind, OutEdges(g.edges, g.nodes[j].id))
    ensures forall j | 0 <= j < |g.nodes| :: InShape(g.nodes[j].kind, InEdges(g.edges, g.nodes[j].id))
  {
    var f := ShapeOf(Step(g.nodes, g.edges, c));
    forall j | 0 <= j < |g.nodes|
      ensures OutShape(g.nodes[j].kind, OutEdges(g.edges, g.nodes[j].id))
      ensures InShape(g.nodes[j].kind, InEdges(g.edges, g.nodes[j].id))
    {
      assert Done(f, j);
      assert f.kinds[j] == g.nodes[j].kind;
      LabelsOut(g.nodes[j].kind, OutEdges(g.edges, g.nodes[j].id));
    }
  }

  /** Numbered edges join nodes of the graph. */
  lemma EdgesJoinNodes(g: ControlFlowGraph)
    requires Numbered(g.nodes, g.edges)
    ensures forall e | e in g.edges :: HasNode(g, e.from) && HasNode(g, e.to)
  {
    forall e | e in g.edges
      ensures HasNode(g, e.from) && HasNode(g, e.to)
    {
      var k :| 0 <= k < |g.edges| && g.edges[k] == e;
      var i: nat :| i < |g.nodes| && e.from == NodeId(i);
      var j: nat :| j < |g.nodes| && e.to == NodeId(j);
      assert g.nodes[i].id == e.from && g.nodes[j].id == e.to;
    }
  }

  /** The traversal from the start state, with Exit appended, has a finished shape. */
  lemma BuildShape(root: SyntaxNode)
    ensures var s0, r, g := StartStep(root), StatementList(root, StartStep(root)), BuildGraph(root);
      && Numbered(g.nodes, g.edges) && Tracked(r) && s0.nodes <= r.nodes && SWf(ShapeOf(r))
      && g.nodes == r.nodes + [g.nodes[|g.nodes| - 1]] && g.nodes[|g.nodes| - 1].kind == Exit
      && Finished(ShapeOf(Step(g.nodes, g.edges, g.nodes[|g.nodes| - 1])))
      && ShapeOf(Step(g.nodes, g.edges, g.nodes[|g.nodes| - 1])).kinds == ShapeOf(r).kinds + [Exit]
  {
    var s0 := StartStep(root);
    StartShapeOf(root);
    VisitListFragment(root, 0, s0);
    var r := StatementList(root, s0);
    var exit := NewNode(r, Exit, "Exit", root);
    ExitShapeOf(r, exit);
    ExitFinished(ShapeOf(r));
  }

  /** buildControlFlowGraph returns a well-formed graph for every tree. */
  lemma BuildWellFormed(root: SyntaxNode)
    ensures WellFormed(BuildGraph(root))
  {
    var g := BuildGraph(root);
    var s0, r := StartStep(root), StatementList(root, StartStep(root));
    var gs := Step(g.nodes, g.edges, g.nodes[|g.nodes| - 1]);
    BuildShape(root);
    var f := ShapeOf(gs);
    DegreesOf(g, g.nodes[|g.nodes| - 1]);
    EdgesJoinNodes(g);
    assert g.nodes[0] == s0.nodes[0];
    forall j | 0 < j < |g.nodes| - 1
      ensures g.nodes[j].kind != Entry && g.nodes[j].kind != Exit
    {
      assert ShapeOf(r).kinds[j] == r.nodes[j].kind;
    }
    assert |g.nodes| - 1 + CountConditions(g.nodes) == |f.kinds| - 1 + f.conds;
  }
}

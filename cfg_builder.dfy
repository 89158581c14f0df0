/**
 * buildControlFlowGraph as the program runs it: one builder holds the node
 * and edge lists the traversal appends to and the id counter, and two
 * mutually recursive methods walk the tree, each taking the cursor (the last
 * node on the current path) and returning the new one. Every method is proved
 * to leave exactly the state the traversal functions of CfgSpec describe.
 */
module CfgBuilder {
  import opened Wrappers
  import opened SyntaxTree
  import opened NodeIds
  import opened Cfg
  import opened CfgSpec
  import opened CfgTheorems

  class Builder {
    var nodes: seq<CfgNode>
    var edges: seq<CfgEdge>
    var counter: nat

    /** Every node created so far has been appended, so the counter numbers the next one. */
    predicate Valid()
      reads this
    {
      counter == |nodes|
    }

    /** The builder's state with c as the cursor. */
    function State(c: CfgNode): Step
      reads this
    {
      Step(nodes, edges, c)
    }

    /** A fresh builder: no nodes, no edges, the counter at 0. */
    constructor ()
      ensures Valid() && nodes == [] && edges == []
    {
      nodes := [];
      edges := [];
      counter := 0;
    }

    /** Creates a node numbered by the counter, which moves on; the node is not appended. */
    method CreateCfgNode(kind: CfgNodeType, text: string, origin: SyntaxNode) returns (n: CfgNode)
      modifies this
      ensures n == CfgNode(NodeId(old(counter)), kind, text, origin.range)
      ensures counter == old(counter) + 1 && nodes == old(nodes) && edges == old(edges)
    {
      n := CfgNode(NodeId(counter), kind, text, origin.range);
      counter := counter + 1;
    }

    /** Processes the named, non-comment children of t in order, threading the cursor. */
    method ProcessStatementList(t: SyntaxNode, prev: CfgNode) returns (cur: CfgNode)
      requires Valid()
      modifies this
      ensures Valid() && State(cur) == StatementList(t, old(State(prev)))
      decreases t, 0
    {
      cur := prev;
      var i := 0;
      while i < |t.children|
        invariant 0 <= i <= |t.children|
        invariant Valid()
        invariant VisitList(t, i, State(cur)) == StatementList(t, old(State(prev)))
      {
        var child := t.children[i];
        if child.isNamed && child.kind != "comment" {
          cur := ProcessTreeNode(child, cur);
        }
        i := i + 1;
      }
    }

    /** Processes one tree node, starting from the cursor prev; returns the new cursor. */
    method ProcessTreeNode(t: SyntaxNode, prev: CfgNode) returns (cur: CfgNode)
      requires Valid()
      modifies this
      ensures Valid() && State(cur) == VisitNode(t, old(State(prev)))
      decreases t, 1
    {
      cur := prev;
      if t.kind == "if_statement" {
        if t.condition.Some? && t.consequence.Some? {
          cur := ProcessIf(t, prev);
        }
      } else if IsLeafStatement(t) {
        var stmt := CreateCfgNode(Statement, t.text, t);
        nodes := nodes + [stmt];
        edges := edges + [Edge(cur, stmt, None)];
        cur := stmt;
      } else if IsContainer(t) {
        cur := ProcessStatementList(t, cur);
      } else {
        // every other kind: its named, non-comment children, through the same loop
        var i := 0;
        while i < |t.children|
          invariant 0 <= i <= |t.children|
          invariant Valid()
          invariant VisitList(t, i, State(cur)) == StatementList(t, old(State(prev)))
        {
          var child := t.children[i];
          if child.isNamed && child.kind != "comment" {
            cur := ProcessTreeNode(child, cur);
          }
          i := i + 1;
        }
      }
    }

    /** The branch of processTreeNode for an if statement with a condition and a consequence. */
    method ProcessIf(t: SyntaxNode, prev: CfgNode) returns (cur: CfgNode)
      requires Valid() && IsCompleteIf(t)
      modifies this
      ensures Valid() && State(cur) == VisitIf(t, old(State(prev)))
      decreases t, 0
    {
      ghost var s := State(prev);
      var cond := CreateCfgNode(Condition, t.condition.value.text, t.condition.value);
      nodes := nodes + [cond];
      edges := edges + [Edge(prev, cond, Guard)];
      var merge := CreateCfgNode(Merge, "Merge", t);
      nodes := nodes + [merge];
      var ifBlock := CreateCfgNode(Block, "IF_Block", t.consequence.value);
      nodes := nodes + [ifBlock];
      edges := edges + [Edge(cond, ifBlock, True)];
      assert State(ifBlock) == IfHead(t, s);
      var lastInIf := ProcessStatementList(t.consequence.value, ifBlock);
      edges := edges + [Edge(lastInIf, merge, None)];
      assert State(merge) == AfterThen(t, s);
      if t.alternative.Some? {
        var elseBlock := CreateCfgNode(Block, "ELSE_Block", t.alternative.value);
        nodes := nodes + [elseBlock];
        edges := edges + [Edge(cond, elseBlock, False)];
        assert State(elseBlock) == ElseStart(t, s);
        var lastInElse := ProcessStatementList(t.alternative.value, elseBlock);
        edges := edges + [Edge(lastInElse, merge, None)];
      } else {
        edges := edges + [Edge(cond, merge, False)];
      }
      cur := merge;
    }
  }

  /** buildControlFlowGraph: a fresh builder, Entry, the root's statement list, Exit. */
  method BuildControlFlowGraph(root: SyntaxNode) returns (g: ControlFlowGraph)
    ensures g == BuildGraph(root)
    ensures WellFormed(g)
  {
    var b := new Builder();
    var entry := b.CreateCfgNode(Entry, "Entry", root);
    b.nodes := b.nodes + [entry];
    assert b.State(entry) == StartStep(root);
    var last := b.ProcessStatementList(root, entry);
    ghost var r := b.State(last);
    var exit := b.CreateCfgNode(Exit, "Exit", root);
    assert exit == NewNode(r, Exit, "Exit", root);
    b.nodes := b.nodes + [exit];
    b.edges := b.edges + [Edge(last, exit, None)];
    g := ControlFlowGraph(b.nodes, b.edges, entry.id, exit.id);
    BuildWellFormed(root);
  }
}

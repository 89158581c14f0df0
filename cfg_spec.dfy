/**
 * The builder's traversal as functions. A Step is the builder's whole state
 * at one moment: the nodes and edges emitted so far and the cursor, the last
 * node on the path being built. VisitNode and VisitList give the state after
 * one tree node or after the first k children of a statement list; the
 * builder's methods are proved to compute exactly these states.
 */
module CfgSpec {
  import opened Wrappers
  import opened SyntaxTree
  import opened NodeIds
  import opened Cfg

  datatype Step = Step(nodes: seq<CfgNode>, edges: seq<CfgEdge>, cursor: CfgNode)

  /** The node the id counter creates next: ids are numbered in creation order. */
  function NewNode(s: Step, kind: CfgNodeType, text: string, origin: SyntaxNode): (n: CfgNode)
    ensures n.id == NodeId(|s.nodes|)
  {
    CfgNode(NodeId(|s.nodes|), kind, text, origin.range)
  }

  function Edge(from: CfgNode, to: CfgNode, edgeLabel: Option<string>): CfgEdge {
    CfgEdge(from.id, to.id, edgeLabel)
  }

  /**
   * The state after the visited children t.children[k..] have been processed
   * in order, starting from s.
   */
  function VisitList(t: SyntaxNode, k: nat, s: Step): Step
    requires k <= |t.children|
    decreases t, 0, |t.children| - k
  {
    if k == |t.children| then s
    else
      var child := t.children[k];
      VisitList(t, k + 1, if IsVisited(child) then VisitNode(child, s) else s)
  }

  /** The state after processing statement list t entirely. */
  function StatementList(t: SyntaxNode, s: Step): Step
    decreases t, 0, |t.children| + 1
  {
    VisitList(t, 0, s)
  }

  /** The state after processing tree node t, starting from s. */
  function VisitNode(t: SyntaxNode, s: Step): Step
    decreases t, 1, 0
  {
    if t.kind == "if_statement" then
      if t.condition.Some? && t.consequence.Some? then VisitIf(t, s) else s
    else if IsLeafStatement(t) then
      var stmt := NewNode(s, Statement, t.text, t);
      Step(s.nodes + [stmt], s.edges + [Edge(s.cursor, stmt, None)], stmt)
    else
      // containers and every other kind: the named, non-comment children in order
      StatementList(t, s)
  }

  /** The Condition node of a complete if statement, created first. */
  function CondNode(t: SyntaxNode, s: Step): (n: CfgNode)
    requires IsCompleteIf(t)
    ensures n.id == NodeId(|s.nodes|) && n.kind == Condition
  {
    NewNode(s, Condition, t.condition.value.text, t.condition.value)
  }

  /** The Merge node of a complete if statement, created second. */
  function MergeNode(t: SyntaxNode, s: Step): (n: CfgNode)
    requires IsCompleteIf(t)
    ensures n.id == NodeId(|s.nodes| + 1) && n.kind == Merge
  {
    CfgNode(NodeId(|s.nodes| + 1), Merge, "Merge", t.range)
  }

  /**
   * The state once Condition, Merge and IF_Block exist: a guard edge from the
   * cursor to Condition, a true edge from Condition to IF_Block, and IF_Block
   * as the cursor for the consequence.
   */
  function IfHead(t: SyntaxNode, s: Step): Step
    requires IsCompleteIf(t)
  {
    var cond := CondNode(t, s);
    var merge := MergeNode(t, s);
    var ifBlock := CfgNode(NodeId(|s.nodes| + 2), Block, "IF_Block", t.consequence.value.range);
    Step(s.nodes + [cond, merge, ifBlock],
         s.edges + [Edge(s.cursor, cond, Guard)] + [Edge(cond, ifBlock, True)],
         ifBlock)
  }

  /** An edge from the cursor to the Merge node, which becomes the cursor. */
  function JoinMerge(r: Step, merge: CfgNode): Step {
    Step(r.nodes, r.edges + [Edge(r.cursor, merge, None)], merge)
  }

  /** The state after the consequence's statement list. */
  function ThenEnd(t: SyntaxNode, s: Step): Step
    requires IsCompleteIf(t)
    decreases t, 0, 0
  {
    StatementList(t.consequence.value, IfHead(t, s))
  }

  /** The state once the end of the consequence is joined to Merge. */
  function AfterThen(t: SyntaxNode, s: Step): Step
    requires IsCompleteIf(t)
    decreases t, 0, 1
  {
    JoinMerge(ThenEnd(t, s), MergeNode(t, s))
  }

  /** The state once ELSE_Block exists, with a false edge to it from Condition, as the cursor. */
  function ElseStart(t: SyntaxNode, s: Step): Step
    requires IsCompleteIf(t) && t.alternative.Some?
    decreases t, 0, 2
  {
    var s4 := AfterThen(t, s);
    var elseBlock := NewNode(s4, Block, "ELSE_Block", t.alternative.value);
    Step(s4.nodes + [elseBlock], s4.edges + [Edge(CondNode(t, s), elseBlock, False)], elseBlock)
  }

  /** The state after the alternative's statement list. */
  function ElseEnd(t: SyntaxNode, s: Step): Step
    requires IsCompleteIf(t) && t.alternative.Some?
    decreases t, 0, 3
  {
    StatementList(t.alternative.value, ElseStart(t, s))
  }

  /**
   * A complete if statement: both branches, each joined to Merge, or a false
   * edge straight from Condition to Merge when there is no alternative. Merge
   * is the new cursor.
   */
  function VisitIf(t: SyntaxNode, s: Step): Step
    requires IsCompleteIf(t)
    decreases t, 0, 4
  {
    if t.alternative.Some? then
      JoinMerge(ElseEnd(t, s), MergeNode(t, s))
    else
      var s4 := AfterThen(t, s);
      Step(s4.nodes, s4.edges + [Edge(CondNode(t, s), MergeNode(t, s), False)], MergeNode(t, s))
  }

  /** The state the traversal starts from: the Entry node alone, as the cursor. */
  function StartStep(root: SyntaxNode): Step {
    var entry := CfgNode(NodeId(0), Entry, "Entry", root.range);
    Step([entry], [], entry)
  }

  /** The graph built from a tree whose root is `root`. */
  function BuildGraph(root: SyntaxNode): ControlFlowGraph {
    var s0 := StartStep(root);
    var r := StatementList(root, s0);
    var exit := NewNode(r, Exit, "Exit", root);
    ControlFlowGraph(r.nodes + [exit], r.edges + [Edge(r.cursor, exit, None)], s0.cursor.id, exit.id)
  }

}

/**
 * What each step of the traversal adds to the graph, and what a finished graph
 * looks like from outside: distinct ids, no edge into Entry or out of Exit,
 * no node without a predecessor or successor.
 */
module CfgProperties {
  import opened Wrappers
  import opened SyntaxTree
  import opened NodeIds
  import opened Cfg
  import opened CfgSpec

  // ----- the traversal only appends -----

  lemma PrefixTrans<T>(a: seq<T>, b: seq<T>, c: seq<T>)
    requires a <= b && b <= c
    ensures a <= c
  {
    assert c[..|a|] == b[..|a|];
  }

  lemma {:induction false} NodeGrows(t: SyntaxNode, s: Step)
    ensures var r := VisitNode(t, s); s.nodes <= r.nodes && s.edges <= r.edges
    decreases t, 1, 0
  {
    if t.kind == "if_statement" {
      if IsCompleteIf(t) {
        IfGrows(t, s);
      }
    } else if !IsLeafStatement(t) {
      ListGrows(t, 0, s);
    }
  }

  lemma {:induction false} ListGrows(t: SyntaxNode, k: nat, s: Step)
    requires k <= |t.children|
    ensures var r := VisitList(t, k, s); s.nodes <= r.nodes && s.edges <= r.edges
    decreases t, 0, |t.children| - k
  {
    if k < |t.children| {
      var c := t.children[k];
      var s1 := if IsVisited(c) then VisitNode(c, s) else s;
      if IsVisited(c) {
        NodeGrows(c, s);
      }
      ListGrows(t, k + 1, s1);
      PrefixTrans(s.nodes, s1.nodes, VisitList(t, k + 1, s1).nodes);
      PrefixTrans(s.edges, s1.edges, VisitList(t, k + 1, s1).edges);
    }
  }

  /** The consequence only appends to the state IF_Block starts it from. */
  lemma {:induction false} ThenGrows(t: SyntaxNode, s: Step)
    requires IsCompleteIf(t)
    ensures IfHead(t, s).nodes <= ThenEnd(t, s).nodes && IfHead(t, s).edges <= ThenEnd(t, s).edges
    decreases t, 0, 0
  {
    ListGrows(t.consequence.value, 0, IfHead(t, s));
  }

  /** The alternative only appends to the state ELSE_Block starts it from. */
  lemma {:induction false} ElseGrows(t: SyntaxNode, s: Step)
    requires IsCompleteIf(t) && t.alternative.Some?
    ensures ElseStart(t, s).nodes <= ElseEnd(t, s).nodes && ElseStart(t, s).edges <= ElseEnd(t, s).edges
    decreases t, 0, 0
  {
    ListGrows(t.alternative.value, 0, ElseStart(t, s));
  }

  lemma {:induction false} IfGrows(t: SyntaxNode, s: Step)
    requires IsCompleteIf(t)
    ensures var r := VisitIf(t, s); s.nodes <= r.nodes && s.edges <= r.edges
    decreases t, 0, 1
  {
    var h, r1, s4 := IfHead(t, s), ThenEnd(t, s), AfterThen(t, s);
    ThenGrows(t, s);
    PrefixTrans(s.nodes, h.nodes, r1.nodes);
    PrefixTrans(s.edges, h.edges, r1.edges);
    PrefixTrans(s.edges, r1.edges, s4.edges);
    if t.alternative.Some? {
      var e, r2 := ElseStart(t, s), ElseEnd(t, s);
      ElseGrows(t, s);
      PrefixTrans(s.nodes, e.nodes, r2.nodes);
      PrefixTrans(s.edges, s4.edges, e.edges);
      PrefixTrans(s.edges, e.edges, r2.edges);
      PrefixTrans(s.edges, r2.edges, VisitIf(t, s).edges);
    } else {
      PrefixTrans(s.edges, s4.edges, VisitIf(t, s).edges);
    }
  }

  // ----- one tree node -----

  /**
   * A leaf statement appends one Statement node carrying its text and range,
   * and one unlabelled edge to it from the cursor; the node becomes the cursor.
   */
  lemma LeafEffect(t: SyntaxNode, s: Step)
    requires IsLeafStatement(t)
    ensures var r, n := VisitNode(t, s), |s.nodes|;
      && r.nodes == s.nodes + [CfgNode(NodeId(n), Statement, t.text, t.range)]
      && r.edges == s.edges + [CfgEdge(s.cursor.id, NodeId(n), None)]
      && r.cursor == r.nodes[n]
  {
  }

  /** An if statement without a condition or a consequence changes nothing. */
  lemma IncompleteIfEffect(t: SyntaxNode, s: Step)
    requires t.kind == "if_statement" && (t.condition.None? || t.consequence.None?)
    ensures VisitNode(t, s) == s
  {
  }

  /**
   * A complete if statement appends Condition, Merge and IF_Block in that
   * order, a guard edge from the cursor to Condition and a true edge from
   * Condition to IF_Block; the end of the consequence is joined to Merge by an
   * unlabelled edge; Merge is the new cursor.
   */
  lemma {:induction false} IfHeadEffect(t: SyntaxNode, s: Step)
    requires IsCompleteIf(t)
    ensures var r, n, m := VisitNode(t, s), |s.nodes|, |s.edges|;
      && s.nodes <= r.nodes && s.edges <= r.edges && n + 3 <= |r.nodes| && m + 2 <= |r.edges|
      && r.nodes[n] == CfgNode(NodeId(n), Condition, t.condition.value.text, t.condition.value.range)
      && r.nodes[n + 1] == CfgNode(NodeId(n + 1), Merge, "Merge", t.range)
      && r.nodes[n + 2] == CfgNode(NodeId(n + 2), Block, "IF_Block", t.consequence.value.range)
      && r.edges[m] == CfgEdge(s.cursor.id, NodeId(n), Guard)
      && r.edges[m + 1] == CfgEdge(NodeId(n), NodeId(n + 2), True)
      && CfgEdge(ThenEnd(t, s).cursor.id, NodeId(n + 1), None) in r.edges
      && r.cursor == r.nodes[n + 1]
  {
    var n, m := |s.nodes|, |s.edges|;
    var h, r1, s4, r := IfHead(t, s), ThenEnd(t, s), AfterThen(t, s), VisitIf(t, s);
    ThenGrows(t, s);
    IfGrows(t, s);
    assert s4.edges[|r1.edges|] == CfgEdge(r1.cursor.id, NodeId(n + 1), None);
    if t.alternative.Some? {
      var e, r2 := ElseStart(t, s), ElseEnd(t, s);
      ElseGrows(t, s);
      PrefixTrans(h.nodes, r1.nodes, r2.nodes);
      PrefixTrans(h.edges, s4.edges, e.edges);
      PrefixTrans(h.edges, e.edges, r2.edges);
      PrefixTrans(s4.edges, e.edges, r2.edges);
      assert r.edges[|r1.edges|] == s4.edges[|r1.edges|];
    } else {
      assert r.edges[|r1.edges|] == s4.edges[|r1.edges|];
    }
    assert r.nodes[n + 1] == h.nodes[n + 1];
  }

  /**
   * The false side of a complete if statement: with an alternative, ELSE_Block
   * follows the consequence's nodes, a false edge leads to it from Condition
   * and the end of the alternative is joined to Merge; without one, the last
   * edge is a false edge from Condition straight to Merge.
   */
  lemma {:induction false} IfElseEffect(t: SyntaxNode, s: Step)
    requires IsCompleteIf(t)
    ensures var r, n, s4 := VisitNode(t, s), |s.nodes|, AfterThen(t, s);
      && s4.nodes <= r.nodes && s4.edges <= r.edges && 0 < |r.edges|
      && (t.alternative.None? ==>
            r.nodes == s4.nodes && r.edges == s4.edges + [CfgEdge(NodeId(n), NodeId(n + 1), False)])
      && (t.alternative.Some? ==>
            && |s4.nodes| < |r.nodes| && |s4.edges| < |r.edges|
            && r.nodes[|s4.nodes|] == CfgNode(NodeId(|s4.nodes|), Block, "ELSE_Block", t.alternative.value.range)
            && r.edges[|s4.edges|] == CfgEdge(NodeId(n), NodeId(|s4.nodes|), False)
            && r.edges[|r.edges| - 1] == CfgEdge(ElseEnd(t, s).cursor.id, NodeId(n + 1), None))
  {
    if t.alternative.Some? {
      var e, r2, r := ElseStart(t, s), ElseEnd(t, s), VisitIf(t, s);
      ElseGrows(t, s);
      PrefixTrans(AfterThen(t, s).nodes, e.nodes, r2.nodes);
      PrefixTrans(AfterThen(t, s).edges, e.edges, r2.edges);
      PrefixTrans(AfterThen(t, s).edges, r2.edges, r.edges);
      assert r.nodes[|AfterThen(t, s).nodes|] == e.nodes[|AfterThen(t, s).nodes|];
      assert r.edges[|AfterThen(t, s).edges|] == e.edges[|AfterThen(t, s).edges|];
    }
  }

  // ----- statement lists -----

  /** A statement list depends only on the children still to be processed. */
  lemma {:induction false} VisitListSame(t: SyntaxNode, k: nat, u: SyntaxNode, l: nat, s: Step)
    requires k <= |t.children| && l <= |u.children| && t.children[k..] == u.children[l..]
    ensures VisitList(t, k, s) == VisitList(u, l, s)
    decreases |t.children| - k
  {
    if k < |t.children| {
      assert t.children[k] == t.children[k..][0] == u.children[l..][0] == u.children[l];
      assert t.children[k + 1..] == t.children[k..][1..];
      assert u.children[l + 1..] == u.children[l..][1..];
      var c := t.children[k];
      VisitListSame(t, k + 1, u, l + 1, if IsVisited(c) then VisitNode(c, s) else s);
    } else {
      assert |u.children[l..]| == 0;
    }
  }

  /** Children that are not visited leave the state as it is. */
  lemma {:induction false} VisitListSkips(t: SyntaxNode, k: nat, s: Step)
    requires k <= |t.children|
    requires forall i | k <= i < |t.children| :: !IsVisited(t.children[i])
    ensures VisitList(t, k, s) == s
    decreases |t.children| - k
  {
    if k < |t.children| {
      VisitListSkips(t, k + 1, s);
    }
  }

  /** Processing children a + b is processing a, then b. */
  lemma {:induction false} VisitListAppend(t: SyntaxNode, a: SyntaxNode, b: SyntaxNode, k: nat, s: Step)
    requires t.children == a.children + b.children && k <= |a.children|
    ensures VisitList(t, k, s) == VisitList(b, 0, VisitList(a, k, s))
    decreases |a.children| - k
  {
    if k == |a.children| {
      assert t.children[k..] == b.children[0..];
      VisitListSame(t, k, b, 0, s);
    } else {
      var c := a.children[k];
      assert t.children[k] == c;
      VisitListAppend(t, a, b, k + 1, if IsVisited(c) then VisitNode(c, s) else s);
    }
  }

  /**
   * Unnamed children and comments are never visited: inserting one anywhere
   * in a statement list changes nothing.
   */
  lemma IgnoredChild(t: SyntaxNode, i: nat, c: SyntaxNode, s: Step)
    requires i <= |t.children| && !IsVisited(c)
    ensures StatementList(t.(children := t.children[..i] + [c] + t.children[i..]), s) == StatementList(t, s)
  {
    var u := t.(children := t.children[..i] + [c] + t.children[i..]);
    var a := t.(children := t.children[..i]);
    var b := t.(children := t.children[i..]);
    var cb := t.(children := [c] + t.children[i..]);
    assert t.children == a.children + b.children;
    assert u.children == a.children + cb.children;
    VisitListAppend(t, a, b, 0, s);
    VisitListAppend(u, a, cb, 0, s);
    var s1 := VisitList(a, 0, s);
    assert cb.children[1..] == b.children[0..];
    VisitListSame(cb, 1, b, 0, s1);
  }

  /**
   * Containers and every kind the builder does not know emit no node of their
   * own: replacing such a child by its own children changes nothing.
   */
  lemma Transparent(t: SyntaxNode, i: nat, s: Step)
    requires i < |t.children|
    requires var c := t.children[i]; IsVisited(c) && c.kind != "if_statement" && !IsLeafStatement(c)
    ensures StatementList(t.(children := t.children[..i] + t.children[i].children + t.children[i + 1..]), s)
         == StatementList(t, s)
  {
    var c := t.children[i];
    var u := t.(children := t.children[..i] + c.children + t.children[i + 1..]);
    var a := t.(children := t.children[..i]);
    var b := t.(children := t.children[i + 1..]);
    var ab := t.(children := t.children[..i + 1]);
    var cb := t.(children := c.children + t.children[i + 1..]);
    assert t.children == ab.children + b.children;
    assert u.children == a.children + cb.children;
    assert ab.children == a.children + [c];
    VisitListAppend(t, ab, b, 0, s);
    var one := t.(children := [c]);
    VisitListAppend(ab, a, one, 0, s);
    VisitListAppend(u, a, cb, 0, s);
    var s1 := VisitList(a, 0, s);
    VisitListAppend(cb, c, b, 0, s1);
    assert VisitList(one, 0, s1) == VisitList(one, 1, VisitNode(c, s1));
  }

  /** A child that adds nothing: not visited, or a childless node of a kind that emits nothing itself. */
  predicate Inert(c: SyntaxNode) {
    !IsVisited(c) || (c.kind != "if_statement" && !IsLeafStatement(c) && c.children == [])
  }

  /** Children that add nothing leave the state as it is. */
  lemma {:induction false} VisitListInert(t: SyntaxNode, k: nat, s: Step)
    requires k <= |t.children|
    requires forall i | k <= i < |t.children| :: Inert(t.children[i])
    ensures VisitList(t, k, s) == s
    decreases |t.children| - k
  {
    if k < |t.children| {
      var c := t.children[k];
      if IsVisited(c) {
        assert VisitNode(c, s) == VisitList(c, 0, s) == s;
      }
      VisitListInert(t, k + 1, s);
    }
  }

  /**
   * The consequence is processed as a statement list, so a brace-less leaf
   * consequence such as `if (c) x;` gets no Statement node of its own: when
   * its children add nothing, IF_Block is joined straight to Merge.
   */
  lemma BareConsequence(t: SyntaxNode, s: Step)
    requires IsCompleteIf(t) && t.alternative.None? && IsLeafStatement(t.consequence.value)
    requires forall i | 0 <= i < |t.consequence.value.children| :: Inert(t.consequence.value.children[i])
    ensures var h, merge := IfHead(t, s), MergeNode(t, s);
      VisitNode(t, s) == Step(h.nodes, h.edges + [Edge(h.cursor, merge, None), Edge(CondNode(t, s), merge, False)], merge)
  {
    var h, merge := IfHead(t, s), MergeNode(t, s);
    VisitListInert(t.consequence.value, 0, h);
    assert ThenEnd(t, s) == h;
    var s4 := AfterThen(t, s);
    assert s4 == Step(h.nodes, h.edges + [Edge(h.cursor, merge, None)], merge);
    assert s4.edges + [Edge(CondNode(t, s), merge, False)]
        == h.edges + [Edge(h.cursor, merge, None), Edge(CondNode(t, s), merge, False)];
  }

  /** A root with no visited children yields Entry, Exit and one unlabelled edge between them. */
  lemma EmptyRoot(root: SyntaxNode)
    requires forall i | 0 <= i < |root.children| :: !IsVisited(root.children[i])
    ensures BuildGraph(root) == ControlFlowGraph(
      [CfgNode(NodeId(0), Entry, "Entry", root.range), CfgNode(NodeId(1), Exit, "Exit", root.range)],
      [CfgEdge(NodeId(0), NodeId(1), None)],
      NodeId(0), NodeId(1))
  {
    VisitListSkips(root, 0, StartStep(root));
  }

  // ----- the finished graph -----

  /** Every edge entering id is among InEdges(edges, id). */
  lemma {:induction false} InEdgesComplete(edges: seq<CfgEdge>, id: string, k: nat)
    requires k < |edges| && edges[k].to == id
    ensures edges[k] in InEdges(edges, id)
    decreases |edges|
  {
    var init := edges[..|edges| - 1];
    if k < |edges| - 1 {
      InEdgesComplete(init, id, k);
      assert init[k] == edges[k];
    }
  }

  /** Every edge leaving id is among OutEdges(edges, id). */
  lemma {:induction false} OutEdgesComplete(edges: seq<CfgEdge>, id: string, k: nat)
    requires k < |edges| && edges[k].from == id
    ensures edges[k] in OutEdges(edges, id)
    decreases |edges|
  {
    var init := edges[..|edges| - 1];
    if k < |edges| - 1 {
      OutEdgesComplete(init, id, k);
      assert init[k] == edges[k];
    }
  }

  /** Node ids are pairwise distinct. */
  lemma DistinctIds(g: ControlFlowGraph)
    requires WellFormed(g)
    ensures forall i, j | 0 <= i < |g.nodes| && 0 <= j < |g.nodes| :: g.nodes[i].id == g.nodes[j].id <==> i == j
  {
    forall i, j | 0 <= i < |g.nodes| && 0 <= j < |g.nodes|
      ensures g.nodes[i].id == g.nodes[j].id <==> i == j
    {
      NodeIdInjective(i, j);
    }
  }

  /** No edge enters Entry and no edge leaves Exit. */
  lemma EntryExitEdges(g: ControlFlowGraph)
    requires WellFormed(g)
    ensures forall e | e in g.edges :: e.to != g.entryNodeId && e.from != g.exitNodeId
  {
    forall e | e in g.edges
      ensures e.to != g.entryNodeId && e.from != g.exitNodeId
    {
      var k :| 0 <= k < |g.edges| && g.edges[k] == e;
      var x := |g.nodes| - 1;
      assert InShape(g.nodes[0].kind, InEdges(g.edges, g.nodes[0].id));
      assert OutShape(g.nodes[x].kind, OutEdges(g.edges, g.nodes[x].id));
      InEdgesComplete(g.edges, e.to, k);
      OutEdgesComplete(g.edges, e.from, k);
    }
  }

  /**
   * No orphans: every node but Exit is the source of an edge, and every node
   * but Entry the target of one. Each Condition has exactly two out-edges, the
   * first labelled true and the second false.
   */
  lemma Connected(g: ControlFlowGraph)
    requires WellFormed(g)
    ensures forall j | 0 <= j < |g.nodes| && g.nodes[j].kind != Exit ::
      exists e :: e in g.edges && e.from == g.nodes[j].id
    ensures forall j | 0 <= j < |g.nodes| && g.nodes[j].kind != Entry ::
      exists e :: e in g.edges && e.to == g.nodes[j].id
    ensures forall j | 0 <= j < |g.nodes| && g.nodes[j].kind == Condition ::
      var out := OutEdges(g.edges, g.nodes[j].id); |out| == 2 && out[0].edgeLabel == True && out[1].edgeLabel == False
  {
    forall j | 0 <= j < |g.nodes| && g.nodes[j].kind != Exit
      ensures exists e :: e in g.edges && e.from == g.nodes[j].id
    {
      var out := OutEdges(g.edges, g.nodes[j].id);
      assert OutShape(g.nodes[j].kind, out);
      assert out[0] in g.edges && out[0].from == g.nodes[j].id;
    }
    forall j | 0 <= j < |g.nodes| && g.nodes[j].kind != Entry
      ensures exists e :: e in g.edges && e.to == g.nodes[j].id
    {
      var ins := InEdges(g.edges, g.nodes[j].id);
      assert InShape(g.nodes[j].kind, ins);
      assert ins[0] in g.edges && ins[0].to == g.nodes[j].id;
    }
    forall j | 0 <= j < |g.nodes| && g.nodes[j].kind == Condition
      ensures var out := OutEdges(g.edges, g.nodes[j].id); |out| == 2 && out[0].edgeLabel == True && out[1].edgeLabel == False
    {
      assert OutShape(g.nodes[j].kind, OutEdges(g.edges, g.nodes[j].id));
    }
  }
}

/**
 * The shape of a builder state: the kind of each node in creation order, the
 * labels of the edges leaving each node, the number of edges entering each
 * node, the number of edges, the number of Condition nodes, and the number
 * of the cursor node. Everything
 * about degrees is proved here, on numbers; CfgProofs relates each builder
 * state to its shape.
 *
 * SWf is the invariant of every intermediate state. Fragment(a, b) says what
 * processing one subtree adds to shape a, yielding b: every new node gets
 * its final in-degree, and every new node except the new cursor its final
 * out-edges; when anything is emitted, the old cursor gains exactly one
 * out-edge; no other old node gains an edge.
 */
module CfgShapes {
  import opened Wrappers
  import opened Cfg

  datatype Shape = Shape(
    kinds: seq<CfgNodeType>,
    outs: seq<seq<Option<string>>>,
    ins: seq<nat>,
    edgeCount: nat,
    conds: nat,
    cursor: int)

  /** The out-edge labels a node of each kind has in a finished graph. */
  predicate LabelShape(kind: CfgNodeType, labels: seq<Option<string>>) {
    match kind
    case Exit => labels == []
    case Condition => labels == [True, False]
    case _ => |labels| == 1
  }

  /** The number of in-edges a node of each kind has in a finished graph. */
  predicate CountShape(kind: CfgNodeType, n: nat) {
    match kind
    case Entry => n == 0
    case Merge => n == 2
    case _ => n == 1
  }

  /** The invariant of every builder state. */
  predicate SWf(a: Shape) {
    && |a.outs| == |a.kinds| && |a.ins| == |a.kinds|
    && 0 < |a.kinds| && a.kinds[0] == Entry
    && (forall j | 0 < j < |a.kinds| :: a.kinds[j] != Entry && a.kinds[j] != Exit)
    && 0 <= a.cursor < |a.kinds| && a.kinds[a.cursor] != Condition
    && a.outs[a.cursor] == []
  }

  /** Edges minus nodes minus conditions: kept constant by every complete subtree. */
  function Balance(a: Shape): int {
    a.edgeCount - |a.kinds| - a.conds
  }

  /** Node j has the in- and out-degree of a finished graph. */
  predicate Done(b: Shape, j: int)
    requires |b.outs| == |b.kinds| && |b.ins| == |b.kinds|
  {
    0 <= j < |b.kinds| && LabelShape(b.kinds[j], b.outs[j]) && CountShape(b.kinds[j], b.ins[j])
  }

  /**
   * What processing one subtree adds to shape a, yielding b: the state grows,
   * the old nodes keep their edges, and the new nodes are finished.
   */
  predicate Fragment(a: Shape, b: Shape) {
    Grows(a, b) && OldKept(a, b) && NewDone(a, b)
  }

  /** b extends a, with the same balance; if it has new nodes, the old cursor has one successor. */
  predicate Grows(a: Shape, b: Shape) {
    var n0, n1 := |a.kinds|, |b.kinds|;
    && SWf(a) && SWf(b)
    && a.kinds <= b.kinds
    && Balance(b) == Balance(a)
    && (n1 == n0 ==> b == a)
    && (n1 > n0 ==> n0 <= b.cursor && |b.outs[a.cursor]| == 1)
  }

  /** No old node except the old cursor gains an out-edge, and none gains an in-edge. */
  predicate OldKept(a: Shape, b: Shape)
    requires SWf(a) && SWf(b) && |a.kinds| <= |b.kinds|
  {
    && (forall j | 0 <= j < |a.kinds| && j != a.cursor :: b.outs[j] == a.outs[j])
    && (forall j | 0 <= j < |a.kinds| :: b.ins[j] == a.ins[j])
  }

  /** Every new node has its final degrees; the new cursor still lacks its out-edge. */
  predicate NewDone(a: Shape, b: Shape)
    requires SWf(b)
  {
    && (forall j | |a.kinds| <= j < |b.kinds| && j != b.cursor :: LabelShape(b.kinds[j], b.outs[j]))
    && (forall j | |a.kinds| <= j < |b.kinds| :: CountShape(b.kinds[j], b.ins[j]))
  }

  // ----- the builder's primitive steps, on shapes -----

  /** A new node of kind k, with no edges yet. */
  function AddNode(a: Shape, k: CfgNodeType): Shape {
    Shape(a.kinds + [k], a.outs + [[]], a.ins + [0], a.edgeCount,
          a.conds + (if k == Condition then 1 else 0), a.cursor)
  }

  /** A new edge from node i to node j labelled l. */
  function AddEdge(a: Shape, i: int, j: int, l: Option<string>): Shape
    requires 0 <= i < |a.outs| && 0 <= j < |a.ins|
  {
    a.(outs := a.outs[i := a.outs[i] + [l]], ins := a.ins[j := a.ins[j] + 1], edgeCount := a.edgeCount + 1)
  }

  /** A Statement node with an unlabelled edge from the cursor; it becomes the cursor. */
  function AddStatement(a: Shape): Shape
    requires SWf(a)
  {
    var n := |a.kinds|;
    Shape(a.kinds + [Statement], a.outs[a.cursor := a.outs[a.cursor] + [None]] + [[]],
          a.ins + [1], a.edgeCount + 1, a.conds, n)
  }

  /**
   * Condition, Merge and IF_Block; a guard edge from the cursor into Condition
   * and a true edge from Condition to IF_Block, which becomes the cursor.
   */
  function IfHeadShape(a: Shape): Shape
    requires SWf(a)
  {
    var n := |a.kinds|;
    Shape(a.kinds + [Condition, Merge, Block], a.outs[a.cursor := a.outs[a.cursor] + [Guard]] + [[True], [], []],
          a.ins + [1, 0, 1], a.edgeCount + 2, a.conds + 1, n + 2)
  }

  /** An unlabelled edge from the cursor to node m, which becomes the cursor. */
  function JoinShape(a: Shape, m: int): Shape
    requires 0 <= a.cursor < |a.outs| && 0 <= m < |a.ins|
  {
    AddEdge(a.(cursor := m), a.cursor, m, None)
  }

  /** ELSE_Block, with a false edge into it from node c; it becomes the cursor. */
  function ElseShape(a: Shape, c: int): Shape
    requires |a.outs| == |a.kinds| && |a.ins| == |a.kinds| && 0 <= c < |a.kinds|
  {
    var m := |a.kinds|;
    Shape(a.kinds + [Block], a.outs[c := a.outs[c] + [False]] + [[]], a.ins + [1], a.edgeCount + 1, a.conds, m)
  }

  /** A false edge from node c to node m, and m as the cursor. */
  function FalseShape(a: Shape, c: int, m: int): Shape
    requires 0 <= c < |a.outs| && 0 <= m < |a.ins|
  {
    AddEdge(a.(cursor := m), c, m, False)
  }

  /** The stage shapes are the builder's primitive steps in the order it performs them. */
  lemma StatementSteps(a: Shape)
    requires SWf(a)
    ensures AddStatement(a) == AddEdge(AddNode(a.(cursor := |a.kinds|), Statement), a.cursor, |a.kinds|, None)
  {
  }

  lemma IfHeadSteps(a: Shape)
    requires SWf(a)
    ensures var n := |a.kinds|;
      var b := AddNode(AddNode(AddNode(a.(cursor := n + 2), Condition), Merge), Block);
      IfHeadShape(a) == AddEdge(AddEdge(b, a.cursor, n, Guard), n, n + 2, True)
  {
    var n := |a.kinds|;
    var b := AddNode(AddNode(AddNode(a.(cursor := n + 2), Condition), Merge), Block);
    var h, g := IfHeadShape(a), AddEdge(AddEdge(b, a.cursor, n, Guard), n, n + 2, True);
    assert h.kinds == g.kinds;
    assert [] + [True] == [True];
    forall k | 0 <= k < |h.outs| ensures h.outs[k] == g.outs[k] {
      if k == n {
        assert g.outs[k] == b.outs[n] + [True];
      }
    }
    assert h.outs == g.outs;
    assert h.ins == g.ins;
  }

  lemma ElseSteps(a: Shape, c: int)
    requires |a.outs| == |a.kinds| && |a.ins| == |a.kinds| && 0 <= c < |a.kinds|
    ensures ElseShape(a, c) == AddEdge(AddNode(a.(cursor := |a.kinds|), Block), c, |a.kinds|, False)
  {
  }

  // ----- fragments -----

  lemma FragmentRefl(a: Shape)
    requires SWf(a)
    ensures Fragment(a, a)
  {
  }

  lemma FragmentTrans(a: Shape, b: Shape, c: Shape)
    requires Fragment(a, b) && Fragment(b, c)
    ensures Fragment(a, c)
  {
    var n0, n1, n2 := |a.kinds|, |b.kinds|, |c.kinds|;
    if n1 == n0 {
      assert b == a;
      return;
    }
    if n2 == n1 {
      assert c == b;
      return;
    }
    forall j | n0 <= j < n2 && j != c.cursor
      ensures LabelShape(c.kinds[j], c.outs[j])
    {
      if j < n1 {
        assert c.kinds[j] == b.kinds[j];
      }
    }
    forall j | n0 <= j < n2
      ensures CountShape(c.kinds[j], c.ins[j])
    {
      if j < n1 {
        assert c.kinds[j] == b.kinds[j];
      }
    }
  }

  lemma StatementFragment(a: Shape)
    requires SWf(a)
    ensures Fragment(a, AddStatement(a))
  {
  }

  /** Closing a fragment r grown from b0 with an unlabelled edge to an older node m. */
  lemma JoinAfter(b0: Shape, r: Shape, m: int)
    requires Fragment(b0, r) && 0 <= m < |b0.kinds| && m != b0.cursor
    ensures var f := JoinShape(r, m);
      && |f.outs| == |f.kinds| && |f.ins| == |f.kinds| && f.kinds == r.kinds
      && |f.outs[b0.cursor]| == 1
      && (forall j | |b0.kinds| <= j < |r.kinds| :: Done(f, j))
      && (forall j | 0 <= j < |b0.kinds| && j != b0.cursor :: f.outs[j] == b0.outs[j])
      && (forall j | 0 <= j < |b0.kinds| && j != m :: f.ins[j] == b0.ins[j])
      && f.ins[m] == b0.ins[m] + 1
      && Balance(f) == Balance(b0) + 1
  {
    if |r.kinds| == |b0.kinds| {
      assert r == b0;
    }
  }

  /** The head of an if statement, before its branches are processed. */
  lemma HeadFacts(a: Shape)
    requires SWf(a)
    ensures var h, n := IfHeadShape(a), |a.kinds|;
      && SWf(h) && Balance(h) == Balance(a) - 2
      && h.kinds == a.kinds + [Condition, Merge, Block]
      && (forall j | 0 <= j < n && j != a.cursor :: h.outs[j] == a.outs[j])
      && (forall j | 0 <= j < n :: h.ins[j] == a.ins[j])
      && h.outs[a.cursor] == [Guard]
      && h.outs[n] == [True] && h.ins[n] == 1
      && h.outs[n + 1] == [] && h.ins[n + 1] == 0
      && h.outs[n + 2] == [] && h.ins[n + 2] == 1
  {
  }

  /**
   * The state t of an if statement begun in state a, once its then-branch has
   * been closed with its edge to Merge: Condition is node n, Merge node n+1
   * and the cursor, IF_Block node n+2; the old cursor has its guard edge,
   * Condition its true edge, and everything from IF_Block on is finished.
   */
  predicate ThenState(a: Shape, t: Shape)
    requires SWf(a)
  {
    var n := |a.kinds|;
    && |t.outs| == |t.kinds| && |t.ins| == |t.kinds|
    && a.kinds + [Condition, Merge, Block] <= t.kinds && t.cursor == n + 1
    && (forall j | 0 < j < |t.kinds| :: t.kinds[j] != Entry && t.kinds[j] != Exit)
    && Balance(t) == Balance(a) - 1
    && (forall j | 0 <= j < n && j != a.cursor :: t.outs[j] == a.outs[j])
    && (forall j | 0 <= j < n :: t.ins[j] == a.ins[j])
    && t.outs[a.cursor] == [Guard]
    && t.outs[n] == [True] && t.ins[n] == 1
    && t.outs[n + 1] == [] && t.ins[n + 1] == 1
    && (forall j | n + 2 <= j < |t.kinds| :: Done(t, j))
  }

  /**
   * The state e of an if statement begun in state a, once ELSE_Block (node m,
   * the cursor) has been added with its false edge from Condition.
   */
  predicate ElseState(a: Shape, e: Shape)
    requires SWf(a)
  {
    var n, m := |a.kinds|, e.cursor;
    && SWf(e) && n + 3 <= m && |e.kinds| == m + 1
    && a.kinds + [Condition, Merge, Block] <= e.kinds
    && Balance(e) == Balance(a) - 1
    && (forall j | 0 <= j < n && j != a.cursor :: e.outs[j] == a.outs[j])
    && (forall j | 0 <= j < n :: e.ins[j] == a.ins[j])
    && e.outs[a.cursor] == [Guard]
    && e.outs[n] == [True, False] && e.ins[n] == 1
    && e.outs[n + 1] == [] && e.ins[n + 1] == 1
    && (forall j | n + 2 <= j < m :: Done(e, j))
    && e.ins[m] == 1 && e.kinds[m] == Block
  }

  lemma ThenFacts(a: Shape, r1: Shape)
    requires SWf(a) && Fragment(IfHeadShape(a), r1)
    ensures ThenState(a, JoinShape(r1, |a.kinds| + 1))
  {
    var h, n := IfHeadShape(a), |a.kinds|;
    HeadFacts(a);
    JoinAfter(h, r1, n + 1);
    var t := JoinShape(r1, n + 1);
    assert Done(t, n + 2) by {
      assert t.kinds[n + 2] == h.kinds[n + 2];
    }
  }

  /** Without an else branch, a false edge from Condition to Merge completes the fragment. */
  lemma NoElseFinish(a: Shape, t: Shape)
    requires SWf(a) && ThenState(a, t)
    ensures Fragment(a, FalseShape(t, |a.kinds|, |a.kinds| + 1))
  {
    var n := |a.kinds|;
    var f := FalseShape(t, n, n + 1);
    assert f.kinds[n] == Condition && f.kinds[n + 1] == Merge by {
      assert (a.kinds + [Condition, Merge, Block])[n] == Condition;
      assert (a.kinds + [Condition, Merge, Block])[n + 1] == Merge;
    }
    forall j | n <= j < |f.kinds| && j != f.cursor
      ensures LabelShape(f.kinds[j], f.outs[j])
    {
      if j >= n + 2 {
        assert Done(t, j);
      }
    }
    forall j | n <= j < |f.kinds|
      ensures CountShape(f.kinds[j], f.ins[j])
    {
      if j >= n + 2 {
        assert Done(t, j);
      }
    }
  }

  lemma OpenElse(a: Shape, t: Shape)
    requires SWf(a) && ThenState(a, t)
    ensures ElseState(a, ElseShape(t, |a.kinds|))
  {
    var n := |a.kinds|;
    var e, m := ElseShape(t, n), |t.kinds|;
    forall j | n + 2 <= j < m ensures Done(e, j) {
      assert Done(t, j);
    }
  }

  /** With an else branch processed into r2, an edge from its end to Merge completes the fragment. */
  lemma ElseFinish(a: Shape, e: Shape, r2: Shape)
    requires SWf(a) && ElseState(a, e) && Fragment(e, r2)
    ensures Fragment(a, JoinShape(r2, |a.kinds| + 1))
  {
    var n, m := |a.kinds|, e.cursor;
    JoinAfter(e, r2, n + 1);
    var f := JoinShape(r2, n + 1);
    assert f.kinds[n] == Condition && f.kinds[n + 1] == Merge by {
      assert f.kinds[n] == e.kinds[n] && f.kinds[n + 1] == e.kinds[n + 1];
      assert (a.kinds + [Condition, Merge, Block])[n] == Condition;
      assert (a.kinds + [Condition, Merge, Block])[n + 1] == Merge;
    }
    forall j | n <= j < |f.kinds| && j != f.cursor
      ensures LabelShape(f.kinds[j], f.outs[j])
    {
      if n + 2 <= j < m {
        assert Done(e, j) && f.kinds[j] == e.kinds[j];
      } else if j == m {
        assert f.kinds[m] == Block;
      } else if j > m {
        assert Done(f, j);
      }
    }
    forall j | n <= j < |f.kinds|
      ensures CountShape(f.kinds[j], f.ins[j])
    {
      if n + 2 <= j < m {
        assert Done(e, j) && f.kinds[j] == e.kinds[j];
      } else if j == m {
        assert f.kinds[m] == Block;
      } else if j > m {
        assert Done(f, j);
      }
    }
  }

  /** An if statement without an else branch is a fragment. */
  lemma IfNoElseFragment(a: Shape, n: nat, r1: Shape, f: Shape)
    requires SWf(a) && n == |a.kinds| && Fragment(IfHeadShape(a), r1)
    requires f == FalseShape(JoinShape(r1, n + 1), n, n + 1)
    ensures Fragment(a, f)
  {
    ThenFacts(a, r1);
    NoElseFinish(a, JoinShape(r1, |a.kinds| + 1));
  }

  /** The state in which the else branch starts satisfies the invariant. */
  lemma ElseStartWf(a: Shape, r1: Shape)
    requires SWf(a) && Fragment(IfHeadShape(a), r1)
    ensures SWf(ElseShape(JoinShape(r1, |a.kinds| + 1), |a.kinds|))
  {
    ThenFacts(a, r1);
    OpenElse(a, JoinShape(r1, |a.kinds| + 1));
  }

  /** An if statement with an else branch is a fragment. */
  lemma IfElseFragment(a: Shape, n: nat, r1: Shape, e: Shape, r2: Shape, f: Shape)
    requires SWf(a) && n == |a.kinds| && Fragment(IfHeadShape(a), r1)
    requires e == ElseShape(JoinShape(r1, n + 1), n) && Fragment(e, r2)
    requires f == JoinShape(r2, n + 1)
    ensures Fragment(a, f)
  {
    var t := JoinShape(r1, |a.kinds| + 1);
    ThenFacts(a, r1);
    OpenElse(a, t);
    ElseFinish(a, e, r2);
  }

  // ----- the finished graph -----

  /** The shape before the traversal: the Entry node alone, as the cursor. */
  const Start := Shape([Entry], [[]], [0], 0, 0, 0)

  /** Exit appended, with an unlabelled edge to it from the cursor, which it becomes. */
  function ExitShape(a: Shape): Shape
    requires SWf(a)
  {
    var n := |a.kinds|;
    Shape(a.kinds + [Exit], a.outs[a.cursor := a.outs[a.cursor] + [None]] + [[]], a.ins + [1], a.edgeCount + 1, a.conds, n)
  }

  lemma ExitSteps(a: Shape)
    requires SWf(a)
    ensures ExitShape(a) == AddEdge(AddNode(a.(cursor := |a.kinds|), Exit), a.cursor, |a.kinds|, None)
  {
  }

  /** Every node has its final degrees and there is one edge per node but one, plus one per condition. */
  predicate Finished(f: Shape) {
    && |f.outs| == |f.kinds| && |f.ins| == |f.kinds|
    && (forall j | 0 <= j < |f.kinds| :: Done(f, j))
    && f.edgeCount == |f.kinds| - 1 + f.conds
  }

  /** What the traversal makes of Start, once Exit is added, is finished. */
  lemma {:induction false} ExitFinished(r: Shape)
    requires Fragment(Start, r)
    ensures Finished(ExitShape(r)) && ExitShape(r).kinds == r.kinds + [Exit]
  {
    var f, n := ExitShape(r), |r.kinds|;
    forall j | 0 <= j < |f.kinds|
      ensures Done(f, j)
    {
      if j == n {
      } else if j == r.cursor {
        assert r.kinds[j] != Exit && r.kinds[j] != Condition;
      } else if j == 0 {
        assert n > 1;
        assert |r.outs[0]| == 1 && r.ins[0] == 0;
      } else {
        assert LabelShape(r.kinds[j], r.outs[j]) && CountShape(r.kinds[j], r.ins[j]);
      }
    }
  }
}

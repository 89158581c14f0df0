/**
 * The control flow graph the builder produces: its node and edge records,
 * the degree views used to state its shape, and the well-formedness
 * predicate every finished graph satisfies.
 */
module Cfg {
  import opened Wrappers
  import opened SyntaxTree
  import opened NodeIds

  datatype CfgNodeType = Entry | Exit | Statement | Condition | Block | Merge

  /** A graph node: its id, kind, source text (or synthetic label) and the range it was made from. */
  datatype CfgNode = CfgNode(id: string, kind: CfgNodeType, text: string, range: Range)

  /** A directed edge between two node ids, labelled "guard", "true" or "false", or unlabelled. */
  datatype CfgEdge = CfgEdge(from: string, to: string, edgeLabel: Option<string>)

  datatype ControlFlowGraph = ControlFlowGraph(
    nodes: seq<CfgNode>,
    edges: seq<CfgEdge>,
    entryNodeId: string,
    exitNodeId: string
  )

  const Guard: Option<string> := Some("guard")
  const True: Option<string> := Some("true")
  const False: Option<string> := Some("false")

  /** The edges leaving node `id`, in the order they were added. */
  function OutEdges(edges: seq<CfgEdge>, id: string): (r: seq<CfgEdge>)
    ensures |r| <= |edges|
    ensures forall k | 0 <= k < |r| :: r[k] in edges && r[k].from == id
  {
    if edges == [] then []
    else
      var last := edges[|edges| - 1];
      OutEdges(edges[..|edges| - 1], id) + (if last.from == id then [last] else [])
  }

  /** The edges entering node `id`, in the order they were added. */
  function InEdges(edges: seq<CfgEdge>, id: string): (r: seq<CfgEdge>)
    ensures |r| <= |edges|
    ensures forall k | 0 <= k < |r| :: r[k] in edges && r[k].to == id
  {
    if edges == [] then []
    else
      var last := edges[|edges| - 1];
      InEdges(edges[..|edges| - 1], id) + (if last.to == id then [last] else [])
  }

  /** The number of Condition nodes. */
  function CountConditions(nodes: seq<CfgNode>): (r: nat)
    ensures r <= |nodes|
  {
    if nodes == [] then 0
    else CountConditions(nodes[..|nodes| - 1]) + (if nodes[|nodes| - 1].kind == Condition then 1 else 0)
  }

  /** The outgoing edges a node of each kind has in a finished graph. */
  predicate OutShape(kind: CfgNodeType, outs: seq<CfgEdge>) {
    match kind
    case Exit => outs == []
    case Condition => |outs| == 2 && outs[0].edgeLabel == True && outs[1].edgeLabel == False
    case _ => |outs| == 1
  }

  /** The number of incoming edges a node of each kind has in a finished graph. */
  predicate InShape(kind: CfgNodeType, ins: seq<CfgEdge>) {
    match kind
    case Entry => ins == []
    case Merge => |ins| == 2
    case _ => |ins| == 1
  }

  ghost predicate HasNode(g: ControlFlowGraph, id: string) {
    exists j :: 0 <= j < |g.nodes| && g.nodes[j].id == id
  }

  /** The invariants of a finished graph. */
  ghost predicate WellFormed(g: ControlFlowGraph) {
    && 2 <= |g.nodes|
    // ids follow insertion order
    && (forall j | 0 <= j < |g.nodes| :: g.nodes[j].id == NodeId(j))
    // Entry first, Exit last, no other Entry or Exit
    && g.nodes[0].kind == Entry && g.entryNodeId == g.nodes[0].id
    && g.nodes[|g.nodes| - 1].kind == Exit && g.exitNodeId == g.nodes[|g.nodes| - 1].id
    && (forall j | 0 < j < |g.nodes| - 1 :: g.nodes[j].kind != Entry && g.nodes[j].kind != Exit)
    // every edge joins nodes of the graph
    && (forall e | e in g.edges :: HasNode(g, e.from) && HasNode(g, e.to))
    // edge count
    && |g.edges| == |g.nodes| - 1 + CountConditions(g.nodes)
    // exact degrees: Exit has no successor, a Condition exactly a true and a false one,
    // every other node one; Entry has no predecessor, a Merge two, every other node one
    && (forall j | 0 <= j < |g.nodes| :: OutShape(g.nodes[j].kind, OutEdges(g.edges, g.nodes[j].id)))
    && (forall j | 0 <= j < |g.nodes| :: InShape(g.nodes[j].kind, InEdges(g.edges, g.nodes[j].id)))
  }
}

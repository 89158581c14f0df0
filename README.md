# Control flow graph builder of the flowchart extension

This project models `buildControlFlowGraph` from the VS Code flowchart extension and proves
properties of that model. The function walks a JavaScript syntax tree and builds a control
flow graph, which holds:

- an ordered list of nodes, each with the kind Entry, Exit, Statement, Condition, Block or Merge;
- an ordered list of edges, each with an optional label `guard`, `true` or `false`;
- the ids of the Entry and Exit nodes.

The walk threads one cursor, the last node on the current path:

- **If statement** with a condition and a consequence: it adds a Condition node, a Merge node
  and an `IF_Block` node. With an alternative it also adds an `ELSE_Block` node. The Merge
  node becomes the new cursor.
- **Leaf statement**: adds one Statement node.
- **Containers and every other kind**: add nothing themselves. The walk moves through
  their named, non-comment children.

Ids are `node-N`. `N` comes from a counter that is reset at the start of every build.

How the model is laid out:

- `SyntaxTree` is a datatype standing in for the parser's syntax nodes. It has:
  - the node's kind;
  - the `isNamed` flag;
  - its text;
  - its row/column range;
  - its ordered children;
  - the optional `condition`, `consequence` and `alternative` field children.
- `NodeIds` is the `node-N` format. It includes a parser for the format, and the round trip
  between the two gives injectivity.
- `Cfg` holds the graph types and `WellFormed`, which collects the graph's invariants.
- `CfgBuilder.Builder` is the builder as the program runs it:
  - its fields are the node and edge lists it appends to, and the counter;
  - `ProcessStatementList` and `ProcessTreeNode` are mutually recursive methods, each
    looping over children and returning the new cursor;
  - `ProcessIf` is the if-statement branch.

  Each method is proved to leave exactly the state given by the traversal functions of
  `CfgSpec`.
- The proof that every built graph is well formed has three layers:
  1. `CfgShapes` works on a degree table (`Shape`). There, `Fragment(a, b)` says what one
     subtree adds:
     - every new node gets its final in-degree;
     - every new node except the new cursor gets its final out-edges;
     - when anything is emitted, the old cursor gains exactly one out-edge;
     - no other old node gains an edge.
  2. `CfgProofs` ties each builder state to its table and proves by mutual induction that
     every subtree is a fragment.
  3. `CfgTheorems` adds Exit and concludes.
- `CfgProperties` holds:
  - the exact effect of each kind of tree node;
  - the statement-list laws: ignored children, transparent containers, an empty root;
  - the corollaries about the finished graph.

## Model

| member | source | states |
|---|---|---|
| CfgBuilder.Builder.constructor | vscode-flowchart-extension/src/cfgBuilder.ts:62-64 | a fresh builder has no nodes, no edges and the counter at 0 |
| CfgBuilder.Builder.CreateCfgNode | vscode-flowchart-extension/src/cfgBuilder.ts:37-52 | the node gets id `node-` followed by the counter, the given kind and text, and the range of its tree node; the counter goes up by one; the lists are untouched |
| CfgBuilder.Builder.ProcessStatementList | vscode-flowchart-extension/src/cfgBuilder.ts:71-80 | after the loop over the named, non-comment children, the nodes, edges and returned cursor are exactly StatementList of the state on entry; the counter still equals the node count |
| CfgBuilder.Builder.ProcessTreeNode | vscode-flowchart-extension/src/cfgBuilder.ts:83-141 | every branch leaves exactly VisitNode of the entry state. That covers the if test, the leaf kinds, the container kinds and the fallthrough loop over children. An if statement with a missing condition or consequence leaves the state unchanged |
| CfgBuilder.Builder.ProcessIf | vscode-flowchart-extension/src/cfgBuilder.ts:86-118 | the pushes in source order lead to exactly VisitIf of the entry state. The order is: Condition, a guard edge, Merge, IF_Block, a true edge, the consequence, a join edge, then the else part or the false edge |
| CfgBuilder.BuildControlFlowGraph | vscode-flowchart-extension/src/cfgBuilder.ts:61-156 | the returned graph is BuildGraph(root) and is well formed. BuildGraph is: Entry, the root's statement list, then Exit joined from the last cursor |
| CfgTheorems.BuildWellFormed | vscode-flowchart-extension/src/cfgBuilder.ts:143-155 | for every tree the graph is well formed. Node j has id `node-j`: the reset counter numbers nodes in creation order, and each is pushed when created. Entry comes first and Exit last, and entryNodeId/exitNodeId name them. No other node is Entry or Exit. Every edge joins two nodes of the graph. There are \|nodes\| - 1 + (number of Conditions) edges. Exit has no out-edge. A Condition has exactly a true and then a false out-edge. Every other node has exactly one out-edge. Entry has no in-edge, a Merge has two and every other node has one |
| CfgTheorems.BuildShape | vscode-flowchart-extension/src/cfgBuilder.ts:144-148 | the degree table of the final graph is finished, and Exit is appended after the nodes of the traversal |
| CfgTheorems.DegreesOf | vscode-flowchart-extension/src/cfgBuilder.ts:94-125 | a finished degree table gives each node of the graph the exact out-edges and in-edges its kind calls for |
| CfgTheorems.EdgesJoinNodes | vscode-flowchart-extension/src/cfgBuilder.ts:94-148 | edges built between created nodes name nodes of the graph at both ends |
| CfgProofs.VisitNodeFragment | vscode-flowchart-extension/src/cfgBuilder.ts:83-141 | processing any tree node keeps the builder invariant and only appends nodes. Every new node gets its final in-degree, and every new node except the new cursor gets its final out-edges. When anything is emitted, the old cursor gains exactly one out-edge. No other old node gains an edge |
| CfgProofs.VisitListFragment | vscode-flowchart-extension/src/cfgBuilder.ts:71-80 | the same holds for a statement list, by composing the fragments of its visited children |
| CfgProofs.VisitIfFragment | vscode-flowchart-extension/src/cfgBuilder.ts:86-118 | the same holds for a complete if statement, with or without an alternative |
| CfgShapes.FragmentTrans | vscode-flowchart-extension/src/cfgBuilder.ts:73-78 | the fragment relation composes, so consecutive children can be chained |
| CfgShapes.ExitFinished | vscode-flowchart-extension/src/cfgBuilder.ts:146-148 | once the root's fragment exists, appending Exit with one edge from the cursor finishes every node and makes the edge count \|nodes\| - 1 + conditions |
| NodeIds.NodeId | vscode-flowchart-extension/src/cfgBuilder.ts:43 | an id is the prefix `node-` followed by the decimal counter |
| NodeIds.NatToDecimal | vscode-flowchart-extension/src/cfgBuilder.ts:43 | decimal rendering yields a non-empty digit string, with no leading zero |
| NodeIds.DecimalRoundTrip | vscode-flowchart-extension/src/cfgBuilder.ts:43 | reading the decimal rendering back yields the number |
| NodeIds.ParseNodeIdRoundTrip | vscode-flowchart-extension/src/cfgBuilder.ts:43 | parsing `node-N` yields N |
| NodeIds.NodeIdInjective | vscode-flowchart-extension/src/cfgBuilder.ts:35-43 | two counter values give the same id exactly when they are equal |
| CfgProperties.DistinctIds | vscode-flowchart-extension/src/cfgBuilder.ts:62-67 | in a well-formed graph two nodes have the same id exactly when they are the same position |
| CfgProperties.EntryExitEdges | vscode-flowchart-extension/src/cfgBuilder.ts:66-68 | no edge ends at the Entry id and no edge starts at the Exit id |
| CfgProperties.Connected | vscode-flowchart-extension/src/cfgBuilder.ts:91-126 | every node but Exit is the source of some edge and every node but Entry the target of one; every Condition has exactly two out-edges, labelled true then false |
| CfgProperties.LeafEffect | vscode-flowchart-extension/src/cfgBuilder.ts:121-126 | a leaf statement appends one Statement node with its text and range, and one unlabelled edge from the cursor to it; that node is the new cursor; nothing else changes |
| CfgProperties.IncompleteIfEffect | vscode-flowchart-extension/src/cfgBuilder.ts:86-91 | an if statement lacking a condition or a consequence changes neither the lists nor the cursor |
| CfgProperties.IfHeadEffect | vscode-flowchart-extension/src/cfgBuilder.ts:91-104 | a complete if statement keeps the old lists as prefixes and appends Condition (the condition's text and range), Merge and IF_Block, in that order. Its first two new edges are a guard edge from the cursor and a true edge from Condition to IF_Block. The end of the consequence is joined to Merge, and Merge is the new cursor |
| CfgProperties.IfElseEffect | vscode-flowchart-extension/src/cfgBuilder.ts:107-116 | without an alternative, the last and only further edge is a false edge from Condition to Merge. With one, ELSE_Block follows the consequence's nodes and a false edge leads to it, and the last edge joins the end of the alternative to Merge |
| CfgProperties.BareConsequence | vscode-flowchart-extension/src/cfgBuilder.ts:100-118 | a brace-less leaf consequence whose children emit nothing yields no Statement node: only Condition, Merge and IF_Block are appended, with IF_Block joined straight to Merge and the false edge after it |
| CfgProperties.NodeGrows | vscode-flowchart-extension/src/cfgBuilder.ts:83-141 | processing a tree node only appends to the node and edge lists |
| CfgProperties.ListGrows | vscode-flowchart-extension/src/cfgBuilder.ts:71-80 | processing a statement list only appends to the node and edge lists |
| CfgProperties.IfGrows | vscode-flowchart-extension/src/cfgBuilder.ts:86-118 | processing a complete if statement only appends to the node and edge lists |
| CfgProperties.VisitListSame | vscode-flowchart-extension/src/cfgBuilder.ts:73-78 | the loop depends only on the children still to be processed |
| CfgProperties.VisitListAppend | vscode-flowchart-extension/src/cfgBuilder.ts:73-78 | processing children a + b is processing a and then b from the resulting state |
| CfgProperties.VisitListSkips | vscode-flowchart-extension/src/cfgBuilder.ts:75 | children that are unnamed or comments leave the state unchanged |
| CfgProperties.IgnoredChild | vscode-flowchart-extension/src/cfgBuilder.ts:73-78 | inserting an unnamed or comment child anywhere in a statement list does not change the result |
| CfgProperties.Transparent | vscode-flowchart-extension/src/cfgBuilder.ts:127-137 | a container or unknown-kind child emits no node of its own: replacing it by its own children does not change the result |
| CfgProperties.EmptyRoot | vscode-flowchart-extension/src/cfgBuilder.ts:144-155 | a root with no named, non-comment children gives exactly the nodes Entry (`node-0`) and Exit (`node-1`) and the one unlabelled edge between them |
| CfgProperties.InEdgesComplete | vscode-flowchart-extension/src/cfgBuilder.ts:22-26 | the in-degree view `Cfg.InEdges` counts every edge that enters a node, so the exact in-degrees of a well-formed graph speak about all of its edges |
| CfgProperties.OutEdgesComplete | vscode-flowchart-extension/src/cfgBuilder.ts:22-26 | the out-degree view `Cfg.OutEdges` counts every edge that leaves a node, so the exact out-degrees of a well-formed graph speak about all of its edges |

## Left out

- `vscode-flowchart-extension/src/extension.ts` is not part of this model. It holds command
  registration, notifications, grammar loading and the parser's lifecycle.
- Parsing is left out. `SyntaxTree.SyntaxNode` is a plain datatype standing in for the parser's
  nodes. A node's text is an opaque string. The field children `condition`, `consequence` and
  `alternative` are optional fields of that datatype.
- The `treeSitterNode` back-reference and the never-filled `children` field of a graph node
  are left out, because nothing reads them.
- A graph node's range keeps the row and column of both ends. An edge's absent label is `None`.
- The counter is global in the source. Here it is per-builder state, started at 0. The
  behaviour is the same, because every build resets it first and builds do not interleave.
- `createCfgNode`'s default text argument, the tree node's own text, is passed explicitly at
  the leaf and Condition call sites.
- Reachability of every node from Entry is not stated. The model proves only the degree
  properties and the no-orphan property listed above.
- Two behaviours of the code are kept as they are:
  - An if statement that lacks a condition or a consequence emits nothing and leaves the
    cursor unchanged. Its children are not visited.
  - The node kinds are exactly the six of `CFGNodeType`.
  - The consequence of an if statement is processed as a statement list
    (cfgBuilder.ts:103). A brace-less `if (c) x;` therefore lists the children of the
    `expression_statement` itself, and no Statement node is made for `x`.
    `CfgProperties.BareConsequence` states the resulting graph fragment. An `else y;` goes
    through its `else_clause` and does get a Statement node for `y`.
- The id counter, rows and columns are unbounded naturals here. In the source they are
  JavaScript numbers, but every counter a build can reach is far below the point where a
  number stops printing as plain decimal digits.

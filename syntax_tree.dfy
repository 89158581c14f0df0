/**
 * The parsed syntax tree the builder walks. The parser itself is not modelled:
 * a tree is a value giving, for each node, its type tag, whether it is a named
 * node, its source text, its source range, its ordered children and the three
 * field children the builder looks up by name.
 */
module SyntaxTree {
  import opened Wrappers

  /** A zero-based (row, column) position in the source file. */
  datatype Point = Point(row: nat, column: nat)

  datatype Range = Range(start: Point, end: Point)

  datatype SyntaxNode = SyntaxNode(
    kind: string,                     // the node's grammar type, e.g. "if_statement"
    isNamed: bool,                    // false for punctuation and other anonymous tokens
    text: string,                     // the source text the node spans
    range: Range,
    children: seq<SyntaxNode>,        // all children, in source order
    condition: Option<SyntaxNode>,    // the child in field "condition", if any
    consequence: Option<SyntaxNode>,  // the child in field "consequence", if any
    alternative: Option<SyntaxNode>   // the child in field "alternative", if any
  )

  /** The children the builder visits: named ones that are not comments. */
  predicate IsVisited(child: SyntaxNode) {
    child.isNamed && child.kind != "comment"
  }

  /** Node kinds that become one Statement node each. */
  predicate IsLeafStatement(t: SyntaxNode) {
    t.kind == "expression_statement" || t.kind == "variable_declaration" || t.kind == "return_statement"
  }

  /** Node kinds the builder treats as plain statement lists. */
  predicate IsContainer(t: SyntaxNode) {
    t.kind == "statement_block" || t.kind == "program" || t.kind == "function_declaration"
  }

  /** An if statement with both fields the builder needs to build a branch. */
  predicate IsCompleteIf(t: SyntaxNode) {
    t.kind == "if_statement" && t.condition.Some? && t.consequence.Some?
  }
}

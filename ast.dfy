/**
 * The tree AST of the token-based front end (src/AST.h). A node is either a
 * plain `ASTNode` (kind, value text, owned children) or a `BinaryOpNode`,
 * which is a node of kind BINARY_OP with an empty value, exactly the two
 * children left and right, and an operator character.
 */
module Ast {

  datatype NodeType = ASSIGN | PRINT | IDENTIFIER | NUMBER | BINARY_OP

  datatype Node =
    | Plain(nodeType: NodeType, text: string, kids: seq<Node>)
    | BinaryOpNode(left: Node, right: Node, op: char)
  {
    function Kind(): NodeType {
      if Plain? then nodeType else BINARY_OP
    }

    function Value(): string {
      if Plain? then text else ""
    }

    function Children(): seq<Node> {
      if Plain? then kids else [left, right]
    }
  }

  /** `ASTNode(type, value)`: a node without children. */
  function MakeNode(kind: NodeType, value: string): (n: Node)
    ensures n.Kind() == kind && n.Value() == value && n.Children() == []
    ensures !n.BinaryOpNode?
  {
    Plain(kind, value, [])
  }

  /** `ASTNode(type, value, children)`: the children kept in the given order. */
  function MakeNodeWithChildren(kind: NodeType, value: string, children: seq<Node>): (n: Node)
    ensures n.Kind() == kind && n.Value() == value && n.Children() == children
    ensures !n.BinaryOpNode?
  {
    Plain(kind, value, children)
  }

  /** `BinaryOpNode(left, right, op)`. */
  function MakeBinaryOp(left: Node, right: Node, op: char): (n: Node)
    ensures n.Kind() == BINARY_OP && n.Value() == "" && n.Children() == [left, right]
    ensures n.BinaryOpNode? && n.op == op
  {
    BinaryOpNode(left, right, op)
  }
}

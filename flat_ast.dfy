/**
 * The flat AST of the line-based loader and the interpreter (src/ASTNode.h):
 * one node per statement, carrying a kind, a variable name, a constant and
 * a list of operand names.
 */
module FlatAst {

  datatype FlatNodeType = ASSIGN | ADD | SUBTRACT | PRINT

  /**
   * `ASTNode`. The name field is called `var` in the source (a Dafny keyword).
   * `value` is the constant of an ASSIGN; `operands` are the variable names
   * an ADD or SUBTRACT combines.
   */
  datatype FlatNode = FlatNode(kind: FlatNodeType, name: string, value: int, operands: seq<string>)

  /** The `ASTNode` constructor (src/ASTNode.h:38) with its defaults: omitted arguments are "", 0 and no operands. */
  function MakeFlatNode(kind: FlatNodeType, name: string := "", value: int := 0, operands: seq<string> := []): (n: FlatNode)
    ensures n.kind == kind && n.name == name && n.value == value && n.operands == operands
    ensures name == "" && value == 0 && operands == [] ==> n == FlatNode(kind, "", 0, [])
  {
    FlatNode(kind, name, value, operands)
  }
}

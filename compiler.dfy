/**
 * The assembly generator (src/Compiler.cpp). The output file is modelled as
 * a sequence of lines, each without its trailing newline. The functions give
 * the text of each section; the methods append it line by line, as the
 * source's generators write to the stream.
 */
module Compiler {
  import opened Text
  import Ast

  const DataSection: seq<string> := ["section .data", "output_format db \"Result: %d\", 0"]

  const TextHeader: seq<string> := ["section .text", "extern printf", "global _start", "_start:"]

  const ExitSequence: seq<string> := ["    mov eax, 1", "    xor ebx, ebx", "    int 0x80"]

  /** What `generateAssignment` needs: every ASSIGN node has a child to read. */
  predicate Compilable(ast: seq<Ast.Node>) {
    forall k :: 0 <= k < |ast| ==> Generable(ast[k])
  }

  predicate Generable(node: Ast.Node) {
    node.Kind() == Ast.ASSIGN ==> |node.Children()| >= 1
  }

  function Reservation(name: string): string {
    name + " resd 1"
  }

  /** One reservation line per ASSIGN node, in program order (src/Compiler.cpp:49-53). */
  function Reservations(ast: seq<Ast.Node>): seq<string> {
    if ast == [] then []
    else
      var last := ast[|ast| - 1];
      Reservations(ast[..|ast| - 1]) + (if last.Kind() == Ast.ASSIGN then [Reservation(last.Value())] else [])
  }

  function BssSection(ast: seq<Ast.Node>): seq<string> {
    ["section .bss"] + Reservations(ast)
  }

  function LoadFrom(name: string): string {
    "    mov eax, dword [" + name + "]"
  }

  function LoadImmediate(literal: string): string {
    "    mov eax, " + literal
  }

  function StoreTo(name: string): string {
    "    mov dword [" + name + "], eax"
  }

  function ArithLine(op: char, operand: string): seq<string> {
    if op == '+' then ["    add eax, dword [" + operand + "]"]
    else if op == '-' then ["    sub eax, dword [" + operand + "]"]
    else []
  }

  /** The add/sub lines for the children after the first, in order. */
  function ArithLines(op: char, operands: seq<Ast.Node>): seq<string> {
    if operands == [] then []
    else ArithLines(op, operands[..|operands| - 1]) + ArithLine(op, operands[|operands| - 1].Value())
  }

  /** `isdigit(childValue[0])`, where an empty string yields its terminating '\0'. */
  predicate StartsWithDigit(s: string) {
    |s| > 0 && IsDigit(s[0])
  }

  /** The lines `generateAssignment` emits for an ASSIGN node (src/Compiler.cpp:85-117). */
  function AssignmentCode(node: Ast.Node): seq<string>
    requires |node.Children()| >= 1
  {
    var child := node.Children()[0];
    if child.Kind() == Ast.BINARY_OP then
      if !child.BinaryOpNode? || |child.Children()| < 2 then []
      else
        [LoadFrom(child.Children()[0].Value())] + ArithLines(child.op, child.Children()[1..]) + [StoreTo(node.Value())]
    else
      var value := child.Value();
      [if StartsWithDigit(value) then LoadImmediate(value) else LoadFrom(value), StoreTo(node.Value())]
  }

  /** The printf call that follows the load of the printed variable. */
  const PrintfCall: seq<string> := ["    push eax", "    push output_format", "    call printf", "    add esp, 8"]

  function PrintCode(node: Ast.Node): seq<string> {
    if node.Value() == "" then []
    else [LoadFrom(node.Value())] + PrintfCall
  }

  /** The lines one node contributes to the text section (src/Compiler.cpp:68-73). */
  function NodeCode(node: Ast.Node): seq<string>
    requires Generable(node)
  {
    if node.Kind() == Ast.ASSIGN then AssignmentCode(node)
    else if node.Kind() == Ast.PRINT then PrintCode(node)
    else []
  }

  /** One block per node, in program order. */
  function Blocks(ast: seq<Ast.Node>): seq<string>
    requires Compilable(ast)
  {
    if ast == [] then []
    else NodeCode(ast[0]) + Blocks(ast[1..])
  }

  function TextSection(ast: seq<Ast.Node>): seq<string>
    requires Compilable(ast)
  {
    TextHeader + Blocks(ast) + ExitSequence
  }

  /** The whole assembly file `compile` writes. */
  function Output(ast: seq<Ast.Node>): seq<string>
    requires Compilable(ast)
  {
    DataSection + BssSection(ast) + TextSection(ast)
  }

  method GenerateDataSection(out: seq<string>) returns (out': seq<string>)
    ensures out' == out + DataSection
  {
    out' := out + ["section .data"];
    out' := out' + ["output_format db \"Result: %d\", 0"];
  }

  method GenerateBssSection(ast: seq<Ast.Node>, out: seq<string>) returns (out': seq<string>)
    ensures out' == out + BssSection(ast)
  {
    out' := out + ["section .bss"];
    for i := 0 to |ast|
      invariant out' == out + ["section .bss"] + Reservations(ast[..i])
    {
      assert ast[..i + 1][..i] == ast[..i];
      if ast[i].Kind() == Ast.ASSIGN {
        out' := out' + [Reservation(ast[i].Value())];
      }
    }
    assert ast[..|ast|] == ast;
  }

  method GenerateAssignment(node: Ast.Node, out: seq<string>) returns (out': seq<string>)
    requires |node.Children()| >= 1
    ensures out' == out + AssignmentCode(node)
  {
    var child := node.Children()[0];
    if child.Kind() == Ast.BINARY_OP {
      if !child.BinaryOpNode? || |child.Children()| < 2 {
        return out;
      }
      var children := child.Children();
      out' := out + [LoadFrom(children[0].Value())];
      out' := GenerateArithmetic(child.op, children, out');
      out' := out' + [StoreTo(node.Value())];
    } else {
      var value := child.Value();
      if StartsWithDigit(value) {
        out' := out + [LoadImmediate(value)];
      } else {
        out' := out + [LoadFrom(value)];
      }
      out' := out' + [StoreTo(node.Value())];
    }
  }

  /** The loop of `generateAssignment` over the children after the first. */
  method GenerateArithmetic(op: char, children: seq<Ast.Node>, out: seq<string>) returns (out': seq<string>)
    requires |children| >= 1
    ensures out' == out + ArithLines(op, children[1..])
  {
    out' := out;
    for i := 1 to |children|
      invariant out' == out + ArithLines(op, children[1..i])
    {
      ghost var prev := out';
      if op == '+' {
        out' := out' + ["    add eax, dword [" + children[i].Value() + "]"];
      } else if op == '-' {
        out' := out' + ["    sub eax, dword [" + children[i].Value() + "]"];
      }
      ArithExtend(op, children, i, out, prev, out');
    }
    assert children[1..|children|] == children[1..];
  }

  lemma ArithExtend(op: char, children: seq<Ast.Node>, i: nat, head: seq<string>, prev: seq<string>, next: seq<string>)
    requires 1 <= i < |children|
    requires prev == head + ArithLines(op, children[1..i])
    requires next == prev + ArithLine(op, children[i].Value())
    ensures next == head + ArithLines(op, children[1..i + 1])
  {
    assert children[1..i + 1][..i - 1] == children[1..i];
  }

  method GeneratePrint(node: Ast.Node, out: seq<string>) returns (out': seq<string>)
    ensures out' == out + PrintCode(node)
  {
    if node.Value() == "" {
      return out;
    }
    out' := out + [LoadFrom(node.Value())];
    out' := out' + ["    push eax"];
    out' := out' + ["    push output_format"];
    out' := out' + ["    call printf"];
    out' := out' + ["    add esp, 8"];
  }

  method GenerateExit(out: seq<string>) returns (out': seq<string>)
    ensures out' == out + ExitSequence
  {
    out' := out + ["    mov eax, 1"];
    out' := out' + ["    xor ebx, ebx"];
    out' := out' + ["    int 0x80"];
  }

  /** The dispatch inside `generateTextSection`'s loop: ASSIGN and PRINT nodes emit code, others nothing. */
  method GenerateNode(node: Ast.Node, out: seq<string>) returns (out': seq<string>)
    requires Generable(node)
    ensures out' == out + NodeCode(node)
  {
    if node.Kind() == Ast.ASSIGN {
      out' := GenerateAssignment(node, out);
    } else if node.Kind() == Ast.PRINT {
      out' := GeneratePrint(node, out);
    } else {
      out' := out;
    }
  }

  /** The loop of `generateTextSection`: each node's code in program order. */
  method GenerateBlocks(ast: seq<Ast.Node>, out: seq<string>) returns (out': seq<string>)
    requires Compilable(ast)
    ensures out' == out + Blocks(ast)
  {
    out' := out;
    for i := 0 to |ast|
      invariant out' == out + BlocksBefore(ast, i)
    {
      BlocksStep(ast, i);
      ghost var prev := out';
      out' := GenerateNode(ast[i], out');
      BlocksExtend(ast, i, out, prev, out');
    }
    BlocksAll(ast);
  }

  method GenerateTextSection(ast: seq<Ast.Node>, out: seq<string>) returns (out': seq<string>)
    requires Compilable(ast)
    ensures out' == out + TextSection(ast)
  {
    out' := out + ["section .text"];
    out' := out' + ["extern printf"];
    out' := out' + ["global _start"];
    out' := out' + ["_start:"];
    assert out' == out + TextHeader;
    out' := GenerateBlocks(ast, out');
    out' := GenerateExit(out');
  }

  /** The code for the first `i` nodes. */
  function BlocksBefore(ast: seq<Ast.Node>, i: nat): seq<string>
    requires Compilable(ast) && i <= |ast|
  {
    Blocks(ast[..i])
  }

  /** The text blocks of a concatenated program are those of its parts, in order. */
  lemma {:induction false} BlocksAppend(a: seq<Ast.Node>, b: seq<Ast.Node>)
    requires Compilable(a) && Compilable(b)
    ensures Compilable(a + b)
    ensures Blocks(a + b) == Blocks(a) + Blocks(b)
  {
    CompilableAppend(a, b);
    if a == [] {
      assert a + b == b;
    } else {
      assert (a + b)[1..] == a[1..] + b;
      assert Compilable(a[1..]);
      BlocksAppend(a[1..], b);
      assert (a + b)[0] == a[0];
    }
  }

  lemma CompilableAppend(a: seq<Ast.Node>, b: seq<Ast.Node>)
    requires Compilable(a) && Compilable(b)
    ensures Compilable(a + b)
  {
    forall k | 0 <= k < |a + b|
      ensures Generable((a + b)[k])
    {
      if k < |a| {
        assert (a + b)[k] == a[k];
      } else {
        assert (a + b)[k] == b[k - |a|];
      }
    }
  }

  lemma BlocksStep(ast: seq<Ast.Node>, i: nat)
    requires Compilable(ast) && i < |ast|
    ensures Generable(ast[i])
    ensures BlocksBefore(ast, i + 1) == BlocksBefore(ast, i) + NodeCode(ast[i])
  {
    assert ast[..i + 1] == ast[..i] + [ast[i]];
    BlocksAppend(ast[..i], [ast[i]]);
  }

  lemma BlocksExtend(ast: seq<Ast.Node>, i: nat, out: seq<string>, prev: seq<string>, next: seq<string>)
    requires Compilable(ast) && i < |ast|
    requires prev == out + BlocksBefore(ast, i)
    requires next == prev + NodeCode(ast[i])
    ensures next == out + BlocksBefore(ast, i + 1)
  {
    BlocksStep(ast, i);
  }

  lemma BlocksAll(ast: seq<Ast.Node>)
    requires Compilable(ast)
    ensures BlocksBefore(ast, |ast|) == Blocks(ast)
  {
    assert ast[..|ast|] == ast;
  }

  /** `compile` without the file handling: the data, bss and text sections in that order. */
  method Compile(ast: seq<Ast.Node>) returns (out: seq<string>)
    requires Compilable(ast)
    ensures out == Output(ast)
  {
    out := GenerateDataSection([]);
    out := GenerateBssSection(ast, out);
    out := GenerateTextSection(ast, out);
  }
}

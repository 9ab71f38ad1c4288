/** What the generated assembly looks like, proved of the compiler's spec functions. */
module CompilerProperties {
  import opened Wrappers
  import opened Text
  import opened Compiler
  import Ast
  import Lexer
  import Parser
  import ParserProperties

  /** How many times a line occurs in a listing. */
  function Count(lines: seq<string>, x: string): nat {
    if lines == [] then 0 else (if lines[0] == x then 1 else 0) + Count(lines[1..], x)
  }

  lemma {:induction false} CountAppend(a: seq<string>, b: seq<string>, x: string)
    ensures Count(a + b, x) == Count(a, x) + Count(b, x)
  {
    if a == [] {
      assert a + b == b;
    } else {
      assert (a + b)[1..] == a[1..] + b;
      CountAppend(a[1..], b, x);
    }
  }

  lemma {:induction false} CountAbsent(lines: seq<string>, x: string)
    requires forall k :: 0 <= k < |lines| ==> lines[k] != x
    ensures Count(lines, x) == 0
  {
    if lines != [] {
      CountAbsent(lines[1..], x);
    }
  }

  /** An indented `mov`, `add`, `sub`, `push` or `call` instruction line. */
  predicate IsCodeLine(line: string) {
    |line| >= 8 && line[..8] in {"    mov ", "    add ", "    sub ", "    push", "    call"}
  }

  /** An `add` or `sub` instruction line. */
  predicate IsArith(line: string) {
    |line| >= 8 && (line[..8] == "    add " || line[..8] == "    sub ")
  }

  /** A `mov`, `add` or `sub` instruction line, as assignments emit. */
  predicate IsMoveOrArith(line: string) {
    |line| >= 8 && (line[..8] == "    mov " || IsArith(line))
  }

  /** A line that ends in ` resd 1`. */
  predicate IsReservationLine(line: string) {
    |line| >= 7 && line[|line| - 7..] == " resd 1"
  }

  lemma MoveOrArithIsCode(line: string)
    requires IsMoveOrArith(line)
    ensures IsCodeLine(line)
  {
  }

  /** A line that starts with `prefix` starts with its first eight characters. */
  lemma PrefixStart(prefix: string, rest: string)
    requires |prefix| >= 8
    ensures (prefix + rest)[..8] == prefix[..8]
  {
  }

  lemma ArithLineShape(op: char, operand: string)
    ensures |ArithLine(op, operand)| <= 1
    ensures forall k :: 0 <= k < |ArithLine(op, operand)| ==> IsArith(ArithLine(op, operand)[k])
  {
    PrefixStart("    add eax, dword [", operand + "]");
    PrefixStart("    sub eax, dword [", operand + "]");
    assert "    add eax, dword [" + operand + "]" == "    add eax, dword [" + (operand + "]");
    assert "    sub eax, dword [" + operand + "]" == "    sub eax, dword [" + (operand + "]");
  }

  lemma {:induction false} ArithLinesShape(op: char, operands: seq<Ast.Node>)
    ensures |ArithLines(op, operands)| <= |operands|
    ensures forall k :: 0 <= k < |ArithLines(op, operands)| ==> IsArith(ArithLines(op, operands)[k])
  {
    if operands != [] {
      var init := operands[..|operands| - 1];
      ArithLinesShape(op, init);
      ArithLineShape(op, operands[|operands| - 1].Value());
      var a := ArithLines(op, init);
      var b := ArithLine(op, operands[|operands| - 1].Value());
      assert forall k :: 0 <= k < |a + b| ==> (a + b)[k] == if k < |a| then a[k] else b[k - |a|];
    }
  }

  lemma LoadStoreShape(name: string)
    ensures IsMoveOrArith(LoadFrom(name)) && IsMoveOrArith(LoadImmediate(name)) && IsMoveOrArith(StoreTo(name))
  {
    PrefixStart("    mov eax, dword [", name + "]");
    assert LoadFrom(name) == "    mov eax, dword [" + (name + "]");
    PrefixStart("    mov eax, ", name);
    PrefixStart("    mov dword [", name + "], eax");
    assert StoreTo(name) == "    mov dword [" + (name + "], eax");
  }

  /** Every line of an assignment is a mov, add or sub. */
  lemma AssignmentLines(node: Ast.Node)
    requires |node.Children()| >= 1
    ensures forall k :: 0 <= k < |AssignmentCode(node)| ==> IsMoveOrArith(AssignmentCode(node)[k])
  {
    var child := node.Children()[0];
    LoadStoreShape(node.Value());
    LoadStoreShape(child.Value());
    if child.Kind() == Ast.BINARY_OP && child.BinaryOpNode? && |child.Children()| >= 2 {
      LoadStoreShape(child.Children()[0].Value());
      ArithLinesShape(child.op, child.Children()[1..]);
    }
  }

  lemma NodeCodeLines(node: Ast.Node)
    requires Generable(node)
    ensures forall k :: 0 <= k < |NodeCode(node)| ==> IsCodeLine(NodeCode(node)[k])
  {
    if node.Kind() == Ast.ASSIGN {
      AssignmentLines(node);
      forall k | 0 <= k < |NodeCode(node)|
        ensures IsCodeLine(NodeCode(node)[k])
      {
        MoveOrArithIsCode(NodeCode(node)[k]);
      }
    } else if node.Kind() == Ast.PRINT && node.Value() != "" {
      LoadStoreShape(node.Value());
      var code := [LoadFrom(node.Value())] + PrintfCall;
      assert code[1][..8] == "    push" && code[2][..8] == "    push";
      assert code[3][..8] == "    call" && code[4][..8] == "    add ";
    }
  }

  /** The text blocks hold only indented instructions, never the `int` trap. */
  lemma {:induction false} BlockLines(ast: seq<Ast.Node>)
    requires Compilable(ast)
    ensures forall k :: 0 <= k < |Blocks(ast)| ==> IsCodeLine(Blocks(ast)[k])
  {
    if ast != [] {
      BlockLines(ast[1..]);
      NodeCodeLines(ast[0]);
    }
  }

  lemma {:induction false} ReservationLines(ast: seq<Ast.Node>)
    ensures forall k :: 0 <= k < |Reservations(ast)| ==> IsReservationLine(Reservations(ast)[k])
  {
    if ast != [] {
      ReservationLines(ast[..|ast| - 1]);
    }
  }

  /** How often each header and the trap occur in the fixed parts of the output. */
  lemma FixedCounts(x: string)
    requires x in {"section .data", "section .bss", "section .text", "    int 0x80"}
    ensures Count(DataSection, x) == (if x == "section .data" then 1 else 0)
    ensures Count(["section .bss"], x) == (if x == "section .bss" then 1 else 0)
    ensures Count(TextHeader, x) == (if x == "section .text" then 1 else 0)
    ensures Count(ExitSequence, x) == (if x == "    int 0x80" then 1 else 0)
  {
    assert DataSection[1..][1..] == [];
    assert TextHeader[1..][1..][1..][1..] == [];
    assert ExitSequence[1..][1..][1..] == [];
  }

  lemma HeaderOnce(res: seq<string>, blocks: seq<string>, x: string)
    requires x in {"section .data", "section .bss", "section .text", "    int 0x80"}
    requires forall k :: 0 <= k < |res| ==> IsReservationLine(res[k])
    requires forall k :: 0 <= k < |blocks| ==> IsCodeLine(blocks[k])
    ensures Count(DataSection + ["section .bss"] + res + TextHeader + blocks + ExitSequence, x) == 1
  {
    CountAppend(DataSection + ["section .bss"] + res + TextHeader + blocks, ExitSequence, x);
    CountAppend(DataSection + ["section .bss"] + res + TextHeader, blocks, x);
    CountAppend(DataSection + ["section .bss"] + res, TextHeader, x);
    CountAppend(DataSection + ["section .bss"], res, x);
    CountAppend(DataSection, ["section .bss"], x);
    forall k | 0 <= k < |res|
      ensures res[k] != x
    {
      ReservationNotHeader(res[k], x);
    }
    CountAbsent(res, x);
    forall k | 0 <= k < |blocks|
      ensures blocks[k] != x
    {
      CodeLineNotHeader(blocks[k], x);
    }
    CountAbsent(blocks, x);
    FixedCounts(x);
  }

  /** A reservation ends in '1', which no header and not the trap does. */
  lemma ReservationNotHeader(line: string, x: string)
    requires x in {"section .data", "section .bss", "section .text", "    int 0x80"}
    requires IsReservationLine(line)
    ensures line != x
  {
    assert line[|line| - 1] == line[|line| - 7..][6] == '1';
  }

  /** A code line starts with a space and is no `int` instruction, so it is no header and not the trap. */
  lemma CodeLineNotHeader(line: string, x: string)
    requires x in {"section .data", "section .bss", "section .text", "    int 0x80"}
    requires IsCodeLine(line)
    ensures line != x
  {
    if x == "    int 0x80" {
      assert x[..8] == "    int ";
    } else {
      assert line[0] == line[..8][0] == ' ' != x[0];
    }
  }

  /**
   * The output starts with the data section; the bss header follows it, the
   * text header follows the reservations, and the exit trap is the last line.
   */
  lemma SectionsInOrder(ast: seq<Ast.Node>)
    requires Compilable(ast)
    ensures var out := Output(ast); var r := |Reservations(ast)|;
      && out[..2] == DataSection
      && out[2] == "section .bss"
      && out[3 + r] == "section .text"
      && out[|out| - 1] == "    int 0x80"
  {
    var rest := BssSection(ast) + TextSection(ast);
    assert Output(ast) == DataSection + rest;
    assert rest[0] == "section .bss";
    assert rest[1 + |Reservations(ast)|] == TextSection(ast)[0];
  }

  /** The output as its six parts. */
  lemma OutputParts(ast: seq<Ast.Node>)
    requires Compilable(ast)
    ensures Output(ast) == DataSection + ["section .bss"] + Reservations(ast) + TextHeader + Blocks(ast) + ExitSequence
  {
  }

  /** Each section header and the exit trap occur exactly once in the output. */
  lemma HeadersOnce(ast: seq<Ast.Node>)
    requires Compilable(ast)
    ensures Count(Output(ast), "section .data") == 1
    ensures Count(Output(ast), "section .bss") == 1
    ensures Count(Output(ast), "section .text") == 1
    ensures Count(Output(ast), "    int 0x80") == 1
  {
    var res := Reservations(ast);
    var blocks := Blocks(ast);
    ReservationLines(ast);
    BlockLines(ast);
    OutputParts(ast);
    HeaderOnce(res, blocks, "section .data");
    HeaderOnce(res, blocks, "section .bss");
    HeaderOnce(res, blocks, "section .text");
    HeaderOnce(res, blocks, "    int 0x80");
  }

  /** The number of ASSIGN nodes whose target is `name`. */
  function AssignCount(ast: seq<Ast.Node>, name: string): nat {
    if ast == [] then 0
    else
      var last := ast[|ast| - 1];
      AssignCount(ast[..|ast| - 1], name) + (if last.Kind() == Ast.ASSIGN && last.Value() == name then 1 else 0)
  }

  /** The number of PRINT nodes with a non-empty name. */
  function PrintCount(ast: seq<Ast.Node>): nat {
    if ast == [] then 0
    else (if ast[0].Kind() == Ast.PRINT && ast[0].Value() != "" then 1 else 0) + PrintCount(ast[1..])
  }

  lemma ReservationInjective(x: string, y: string)
    ensures Reservation(x) == Reservation(y) <==> x == y
  {
    if Reservation(x) == Reservation(y) {
      assert |x| == |y|;
      assert x == Reservation(x)[..|x|];
    }
  }

  /**
   * The bss section reserves `name` once per assignment to it, with no
   * deduplication, and for nothing else.
   */
  lemma {:induction false} ReservationsPerAssign(ast: seq<Ast.Node>, name: string)
    ensures Count(Reservations(ast), Reservation(name)) == AssignCount(ast, name)
  {
    if ast != [] {
      var init := ast[..|ast| - 1];
      var last := ast[|ast| - 1];
      ReservationsPerAssign(init, name);
      var tail := if last.Kind() == Ast.ASSIGN then [Reservation(last.Value())] else [];
      CountAppend(Reservations(init), tail, Reservation(name));
      ReservationInjective(last.Value(), name);
      assert tail != [] ==> tail[1..] == [];
    }
  }

  /** Reservations of a concatenated program are those of its parts, in order. */
  lemma {:induction false} ReservationsAppend(a: seq<Ast.Node>, b: seq<Ast.Node>)
    ensures Reservations(a + b) == Reservations(a) + Reservations(b)
    decreases |b|
  {
    if b == [] {
      assert a + b == a;
    } else {
      var b' := b[..|b| - 1];
      assert (a + b)[..|a + b| - 1] == a + b';
      ReservationsAppend(a, b');
    }
  }

  lemma PrintCodeCalls(node: Ast.Node)
    ensures Count(PrintCode(node), "    call printf") == (if node.Value() != "" then 1 else 0)
  {
    if node.Value() != "" {
      var call := "    call printf";
      assert LoadFrom(node.Value())[4] == 'm' != call[4];
      assert PrintfCall[0][4] == 'p' != call[4];
      assert PrintfCall[1][4] == 'p' != call[4];
      assert PrintfCall[3][4] == 'a' != call[4];
      assert PrintfCall[1..][1..][1..][1..] == [];
      CountAppend([LoadFrom(node.Value())], PrintfCall, call);
    }
  }

  lemma NodeCodeCalls(node: Ast.Node)
    requires Generable(node)
    ensures Count(NodeCode(node), "    call printf") == (if node.Kind() == Ast.PRINT && node.Value() != "" then 1 else 0)
  {
    if node.Kind() == Ast.ASSIGN {
      AssignmentLines(node);
      forall k | 0 <= k < |AssignmentCode(node)|
        ensures AssignmentCode(node)[k] != "    call printf"
      {
        assert "    call printf"[..8] == "    call";
      }
      CountAbsent(AssignmentCode(node), "    call printf");
    } else if node.Kind() == Ast.PRINT {
      PrintCodeCalls(node);
    }
  }

  /** The text section calls printf once per PRINT node with a name, and nowhere else. */
  lemma {:induction false} PrintfCallsPerPrint(ast: seq<Ast.Node>)
    requires Compilable(ast)
    ensures Count(Blocks(ast), "    call printf") == PrintCount(ast)
  {
    if ast != [] {
      PrintfCallsPerPrint(ast[1..]);
      NodeCodeCalls(ast[0]);
      CountAppend(NodeCode(ast[0]), Blocks(ast[1..]), "    call printf");
    }
  }

  /**
   * The code for a parsed assignment: a leaf is loaded (as an immediate when
   * it starts with a digit) and stored; a chain loads the root's left child,
   * applies the root's operator to its right operand, and stores. A nested
   * left child has an empty value, so the load reads `dword []` and the
   * operands below the root are never read.
   */
  lemma ParsedAssignmentCode(node: Ast.Node)
    requires ParserProperties.IsStatement(node) && node.Kind() == Ast.ASSIGN
    ensures var e := node.kids[0]; var code := AssignmentCode(node);
      && 2 <= |code| <= 3
      && code[|code| - 1] == StoreTo(node.text)
      && (e.Plain? ==> code[0] == (if StartsWithDigit(e.text) then LoadImmediate(e.text) else LoadFrom(e.text)))
      && (e.BinaryOpNode? ==> code[0] == LoadFrom(e.left.Value()) && code[1..|code| - 1] == ArithLine(e.op, e.right.text))
      && (e.BinaryOpNode? && e.left.BinaryOpNode? ==> code[0] == "    mov eax, dword []")
  {
    var e := node.kids[0];
    if e.BinaryOpNode? {
      assert e.Children()[1..] == [e.right];
      assert ArithLines(e.op, [e.right]) == ArithLines(e.op, []) + ArithLine(e.op, e.right.Value());
    }
  }

  /** A program the parser built without null entries can be compiled. */
  lemma ParsedProgramCompilable(ts: seq<Lexer.Token>)
    requires Lexer.WellFormed(ts)
    requires forall k :: 0 <= k < |Parser.Parse(ts)| ==> Parser.Parse(ts)[k].Some?
    ensures Compilable(Present(Parser.Parse(ts)))
  {
    ParserProperties.ParsedEntriesAreStatements(ts, 0);
  }

  /** Two assignments to `x` reserve it twice; PRINT reserves nothing. */
  lemma DuplicateReservationExample()
    ensures var x1 := Ast.MakeNodeWithChildren(Ast.ASSIGN, "x", [Ast.MakeNode(Ast.NUMBER, "1")]);
      var x2 := Ast.MakeNodeWithChildren(Ast.ASSIGN, "x", [Ast.MakeNode(Ast.NUMBER, "2")]);
      var p := Ast.MakeNode(Ast.PRINT, "x");
      BssSection([x1, x2, p]) == ["section .bss", "x resd 1", "x resd 1"]
  {
    var x1 := Ast.MakeNodeWithChildren(Ast.ASSIGN, "x", [Ast.MakeNode(Ast.NUMBER, "1")]);
    var x2 := Ast.MakeNodeWithChildren(Ast.ASSIGN, "x", [Ast.MakeNode(Ast.NUMBER, "2")]);
    var p := Ast.MakeNode(Ast.PRINT, "x");
    assert Reservation("x") == "x resd 1";
    assert [x1, x2, p][..2] == [x1, x2];
    assert [x1, x2][..1] == [x1];
    assert [x1][..0] == [];
    assert Reservations([x1]) == ["x resd 1"];
    assert Reservations([x1, x2]) == ["x resd 1", "x resd 1"];
  }

  /** `let r = a + b - c;` compiles to code that never reads `a` or `b`. */
  lemma NestedChainExample()
    ensures var a := Ast.MakeNode(Ast.IDENTIFIER, "a");
      var b := Ast.MakeNode(Ast.IDENTIFIER, "b");
      var c := Ast.MakeNode(Ast.IDENTIFIER, "c");
      var r := Ast.MakeNodeWithChildren(Ast.ASSIGN, "r", [Ast.MakeBinaryOp(Ast.MakeBinaryOp(a, b, '+'), c, '-')]);
      AssignmentCode(r) == ["    mov eax, dword []", "    sub eax, dword [c]", "    mov dword [r], eax"]
  {
    var a := Ast.MakeNode(Ast.IDENTIFIER, "a");
    var b := Ast.MakeNode(Ast.IDENTIFIER, "b");
    var c := Ast.MakeNode(Ast.IDENTIFIER, "c");
    var e := Ast.MakeBinaryOp(Ast.MakeBinaryOp(a, b, '+'), c, '-');
    assert e.Children()[1..] == [c];
    assert ArithLines('-', [c]) == ArithLines('-', []) + ArithLine('-', "c");
    assert LoadFrom("") == "    mov eax, dword []";
    assert StoreTo("r") == "    mov dword [r], eax";
    assert "    sub eax, dword [" + "c" + "]" == "    sub eax, dword [c]";
  }

  /** `show r;` after an assignment to `r`: the text section holds both blocks between header and exit. */
  lemma ShowAfterAssignExample()
    ensures var r := Ast.MakeNodeWithChildren(Ast.ASSIGN, "r", [Ast.MakeNode(Ast.NUMBER, "5")]);
      var show := Ast.MakeNode(Ast.PRINT, "r");
      Compilable([r, show]) &&
      TextSection([r, show]) == [
        "section .text", "extern printf", "global _start", "_start:",
        "    mov eax, 5", "    mov dword [r], eax",
        "    mov eax, dword [r]", "    push eax", "    push output_format", "    call printf", "    add esp, 8",
        "    mov eax, 1", "    xor ebx, ebx", "    int 0x80"]
  {
    var r := Ast.MakeNodeWithChildren(Ast.ASSIGN, "r", [Ast.MakeNode(Ast.NUMBER, "5")]);
    var show := Ast.MakeNode(Ast.PRINT, "r");
    assert Compilable([r, show]);
    assert LoadImmediate("5") == "    mov eax, 5";
    assert LoadFrom("r") == "    mov eax, dword [r]";
    assert StoreTo("r") == "    mov dword [r], eax";
    assert AssignmentCode(r) == ["    mov eax, 5", "    mov dword [r], eax"];
    assert [r, show][1..] == [show];
    assert Blocks([show]) == PrintCode(show) + Blocks([]);
  }
}

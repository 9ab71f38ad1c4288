/** What the parser guarantees about the program it builds. */
module ParserProperties {
  import opened Wrappers
  import opened Lexer
  import opened Parser
  import Ast

  /** An IDENTIFIER or NUMBER leaf as `expression` builds it. */
  predicate IsOperandLeaf(n: Ast.Node) {
    n.Plain? && (n.nodeType == Ast.IDENTIFIER || n.nodeType == Ast.NUMBER) && n.kids == []
  }

  /** A left-leaning chain: a leaf, or a BinaryOpNode whose right child is a leaf. */
  predicate LeftChain(n: Ast.Node) {
    IsOperandLeaf(n) || (n.BinaryOpNode? && LeftChain(n.left) && IsOperandLeaf(n.right))
  }

  /** The two statement shapes the parser produces. */
  predicate IsStatement(n: Ast.Node) {
    (n.Plain? && n.nodeType == Ast.ASSIGN && |n.kids| == 1 && LeftChain(n.kids[0]))
    || (n.Plain? && n.nodeType == Ast.PRINT && n.kids == [])
  }

  /** The token an operator character is read back as. */
  function OperatorToken(op: char): Token {
    if op == '+' then Token(PLUS, "+") else Token(MINUS, "-")
  }

  /** The tokens an expression tree was parsed from. */
  function Unparse(e: Ast.Node): seq<Token>
    requires LeftChain(e)
  {
    if e.Plain? then [Token(if e.nodeType == Ast.IDENTIFIER then IDENTIFIER else NUMBER, e.text)]
    else Unparse(e.left) + [OperatorToken(e.op)] + Unparse(e.right)
  }

  predicate IsOperator(t: Token) {
    t.kind == PLUS || t.kind == MINUS
  }

  predicate AllShaped(ts: seq<Token>) {
    forall k :: 0 <= k < |ts| ==> Shaped(ts[k])
  }

  lemma {:induction false} ExprTailChain(ts: seq<Token>, left: Ast.Node, i: nat)
    requires WellFormed(ts) && i < |ts| && LeftChain(left)
    ensures ExprTail(ts, left, i).0.Some? ==> LeftChain(ExprTail(ts, left, i).0.value)
    decreases |ts| - i
  {
    if !AtEnd(ts, i) && IsOperator(ts[i]) && IsOperand(ts[i + 1]) {
      ExprTailChain(ts, Ast.MakeBinaryOp(left, Leaf(ts[i + 1]), FirstChar(ts[i].lexeme)), i + 2);
    }
  }

  /** `expression` builds a left-leaning chain with one BinaryOpNode per operator. */
  lemma ExprIsLeftChain(ts: seq<Token>, i: nat)
    requires WellFormed(ts) && i < |ts|
    ensures ExprAt(ts, i).0.Some? ==> LeftChain(ExprAt(ts, i).0.value)
  {
    if IsOperand(ts[i]) {
      ExprTailChain(ts, Leaf(ts[i]), i + 1);
    }
  }

  lemma {:induction false} ExprTailRoundTrip(ts: seq<Token>, left: Ast.Node, i: nat, start: nat)
    requires WellFormed(ts) && AllShaped(ts) && start < i < |ts|
    requires LeftChain(left) && Unparse(left) == ts[start..i]
    ensures ExprTail(ts, left, i).0.Some? ==>
              var (e, j) := ExprTail(ts, left, i);
              LeftChain(e.value) && Unparse(e.value) == ts[start..j] && !IsOperator(ts[j])
    decreases |ts| - i
  {
    ExprTailChain(ts, left, i);
    if !AtEnd(ts, i) && IsOperator(ts[i]) && IsOperand(ts[i + 1]) {
      var op := FirstChar(ts[i].lexeme);
      assert Shaped(ts[i]) && OperatorToken(op) == ts[i];
      var next := Ast.MakeBinaryOp(left, Leaf(ts[i + 1]), op);
      assert Shaped(ts[i + 1]);
      assert Unparse(Leaf(ts[i + 1])) == [ts[i + 1]];
      assert Unparse(next) == ts[start..i] + [ts[i]] + [ts[i + 1]];
      assert ts[start..i + 2] == ts[start..i] + [ts[i]] + [ts[i + 1]];
      ExprTailRoundTrip(ts, next, i + 2, start);
    }
  }

  /**
   * On success `expression` consumed exactly the tokens its tree spells,
   * operand, operator, operand, ..., and stopped at a token that is not an
   * operator.
   */
  lemma ExprRoundTrip(ts: seq<Token>, i: nat)
    requires WellFormed(ts) && AllShaped(ts) && i < |ts|
    ensures ExprAt(ts, i).0.Some? ==>
              var (e, j) := ExprAt(ts, i);
              LeftChain(e.value) && Unparse(e.value) == ts[i..j] && !IsOperator(ts[j])
  {
    if IsOperand(ts[i]) {
      assert Unparse(Leaf(ts[i])) == [ts[i]] == ts[i..i + 1] by {
        assert Shaped(ts[i]);
      }
      ExprTailRoundTrip(ts, Leaf(ts[i]), i + 1, i);
    }
  }

  lemma {:induction false} ExprTailFailure(ts: seq<Token>, left: Ast.Node, i: nat)
    requires WellFormed(ts) && i < |ts|
    ensures ExprTail(ts, left, i).0.None? ==>
              var j := ExprTail(ts, left, i).1;
              i < j && IsOperator(ts[j - 1]) && !IsOperand(ts[j])
    decreases |ts| - i
  {
    if !AtEnd(ts, i) && IsOperator(ts[i]) && IsOperand(ts[i + 1]) {
      ExprTailFailure(ts, Ast.MakeBinaryOp(left, Leaf(ts[i + 1]), FirstChar(ts[i].lexeme)), i + 2);
    }
  }

  /**
   * `expression` yields null exactly at a token that should have been an
   * operand: the first token, or the token after an operator.
   */
  lemma ExprFailure(ts: seq<Token>, i: nat)
    requires WellFormed(ts) && i < |ts|
    ensures ExprAt(ts, i).0.None? ==>
              var j := ExprAt(ts, i).1;
              !IsOperand(ts[j]) && (j == i || IsOperator(ts[j - 1]))
    ensures !IsOperand(ts[i]) ==> ExprAt(ts, i) == (None, i)
  {
    if IsOperand(ts[i]) {
      ExprTailFailure(ts, Leaf(ts[i]), i + 1);
    }
  }

  lemma LetIsStatement(ts: seq<Token>, i: nat)
    requires WellFormed(ts) && i < |ts|
    ensures LetAt(ts, i).0.Some? ==>
              IsStatement(LetAt(ts, i).0.value) && LetAt(ts, i).0.value.text == ts[i].lexeme
  {
    if !AtEnd(ts, i) && ts[i].kind == IDENTIFIER {
      ExprIsLeftChain(ts, AfterConsume(ts, i + 1, EQUALS));
    }
  }

  /**
   * On lexer-shaped tokens a let statement succeeds exactly when an
   * identifier follows `let` and an expression parses after the (possibly
   * missing) `=`; the result is ASSIGN of that identifier with the
   * expression as its one child.
   */
  lemma LetOutcome(ts: seq<Token>, i: nat)
    requires WellFormed(ts) && AllShaped(ts) && i < |ts|
    ensures LetAt(ts, i).0.Some? <==>
      !AtEnd(ts, i) && ts[i].kind == IDENTIFIER && ExprAt(ts, AfterConsume(ts, i + 1, EQUALS)).0.Some?
    ensures LetAt(ts, i).0.Some? ==>
      LetAt(ts, i).0.value == Ast.MakeNodeWithChildren(Ast.ASSIGN, ts[i].lexeme, [ExprAt(ts, AfterConsume(ts, i + 1, EQUALS)).0.value])
  {
    if !AtEnd(ts, i) && ts[i].kind == IDENTIFIER {
      var j := AfterConsume(ts, i + 1, EQUALS);
      ExprRoundTrip(ts, j);
      var (e, k) := ExprAt(ts, j);
      if e.Some? && e.value.Plain? {
        assert Unparse(e.value)[0] == ts[j];
        assert Shaped(ts[j]);
      }
    }
  }

  /** A show statement succeeds exactly on an identifier followed by `;`, giving a childless PRINT of it. */
  lemma ShowOutcome(ts: seq<Token>, i: nat)
    requires WellFormed(ts) && i < |ts|
    ensures ShowAt(ts, i).0.Some? <==>
      !AtEnd(ts, i) && ts[i].kind == IDENTIFIER && !AtEnd(ts, i + 1) && ts[i + 1].kind == SEMICOLON
    ensures ShowAt(ts, i).0.Some? ==>
      ShowAt(ts, i).0.value == Ast.MakeNode(Ast.PRINT, ts[i].lexeme) && ShowAt(ts, i).1 == i + 2
  {
  }

  /**
   * Every entry `parse` appends is null, an ASSIGN node whose one child is a
   * left-leaning expression chain, or a childless PRINT node.
   */
  lemma {:induction false} ParsedEntriesAreStatements(ts: seq<Token>, i: nat)
    requires WellFormed(ts) && i < |ts|
    ensures forall k :: 0 <= k < |ParseAt(ts, i)| && ParseAt(ts, i)[k].Some? ==> IsStatement(ParseAt(ts, i)[k].value)
    decreases |ts| - i
  {
    if AtEnd(ts, i) {
    } else if ts[i].kind == LET {
      var (n, j) := LetAt(ts, i + 1);
      LetIsStatement(ts, i + 1);
      ParsedEntriesAreStatements(ts, j);
    } else if ts[i].kind == SHOW {
      var (n, j) := ShowAt(ts, i + 1);
      ParsedEntriesAreStatements(ts, j);
    } else {
      ParsedEntriesAreStatements(ts, i + 1);
    }
  }

  /** The number of `let` and `show` tokens from position `i` on. */
  function KeywordCount(ts: seq<Token>, i: nat): nat
    decreases |ts| - i
  {
    if i >= |ts| then 0
    else (if ts[i].kind == LET || ts[i].kind == SHOW then 1 else 0) + KeywordCount(ts, i + 1)
  }

  lemma {:induction false} KeywordCountMonotone(ts: seq<Token>, i: nat, j: nat)
    requires i <= j
    ensures KeywordCount(ts, j) <= KeywordCount(ts, i)
    decreases j - i
  {
    if i < j {
      KeywordCountMonotone(ts, i + 1, j);
    }
  }

  /**
   * `parse` appends one entry per `let`/`show` token it stands on, and a
   * keyword swallowed inside a statement adds none: at most one entry per
   * keyword.
   */
  lemma {:induction false} ParseEntriesBound(ts: seq<Token>, i: nat)
    requires WellFormed(ts) && i < |ts|
    ensures |ParseAt(ts, i)| <= KeywordCount(ts, i)
    decreases |ts| - i
  {
    if AtEnd(ts, i) {
    } else if ts[i].kind == LET || ts[i].kind == SHOW {
      var j := if ts[i].kind == LET then LetAt(ts, i + 1).1 else ShowAt(ts, i + 1).1;
      ParseAtStatement(ts, i);
      ParseEntriesBound(ts, j);
      KeywordCountMonotone(ts, i + 1, j);
    } else {
      ParseEntriesBound(ts, i + 1);
    }
  }

  /** Any other token before END is skipped without adding an entry. */
  lemma ParseSkipsOtherTokens(ts: seq<Token>, i: nat)
    requires WellFormed(ts) && i < |ts| && !AtEnd(ts, i) && ts[i].kind != LET && ts[i].kind != SHOW
    ensures ParseAt(ts, i) == ParseAt(ts, i + 1)
  {
  }

  /** An identifier token and the identifier node it parses to, for the examples. */
  function Id(x: string): Token { Token(IDENTIFIER, x) }

  function Name(x: string): Ast.Node { Ast.MakeNode(Ast.IDENTIFIER, x) }

  /** `let r = a + b - c;` parses to r := ((a + b) - c), nested to the left. */
  lemma LeftAssociativeExample()
    ensures var ts := [Token(LET, "let"), Id("r"), Token(EQUALS, "="), Id("a"), Token(PLUS, "+"), Id("b"),
                       Token(MINUS, "-"), Id("c"), Token(SEMICOLON, ";"), Token(END, "")];
            WellFormed(ts) &&
            Parse(ts) == [Some(Ast.MakeNodeWithChildren(Ast.ASSIGN, "r",
                            [Ast.MakeBinaryOp(Ast.MakeBinaryOp(Name("a"), Name("b"), '+'), Name("c"), '-')]))]
  {
    var ts := [Token(LET, "let"), Id("r"), Token(EQUALS, "="), Id("a"), Token(PLUS, "+"), Id("b"),
               Token(MINUS, "-"), Id("c"), Token(SEMICOLON, ";"), Token(END, "")];
    var ab := Ast.MakeBinaryOp(Name("a"), Name("b"), '+');
    var abc := Ast.MakeBinaryOp(ab, Name("c"), '-');
    assert ExprTail(ts, abc, 8) == (Some(abc), 8);
    assert ExprTail(ts, ab, 6) == (Some(abc), 8);
    assert ExprAt(ts, 3) == (Some(abc), 8);
    assert LetAt(ts, 1) == (Some(Ast.MakeNodeWithChildren(Ast.ASSIGN, "r", [abc])), 9);
  }

  /**
   * `consume` only skips: a missing `;` loses nothing, but whatever token
   * stands where `=` belongs is skipped, so `let x 1 2` assigns 2 and
   * `let x 5` yields null.
   */
  lemma LenientLetExamples()
    ensures var ts := [Token(LET, "let"), Id("x"), Token(EQUALS, "="), Token(NUMBER, "5"), Token(END, "")];
            WellFormed(ts) && Parse(ts) == [Some(Ast.MakeNodeWithChildren(Ast.ASSIGN, "x", [Ast.MakeNode(Ast.NUMBER, "5")]))]
    ensures var ts := [Token(LET, "let"), Id("x"), Token(NUMBER, "1"), Token(NUMBER, "2"), Token(END, "")];
            WellFormed(ts) && Parse(ts) == [Some(Ast.MakeNodeWithChildren(Ast.ASSIGN, "x", [Ast.MakeNode(Ast.NUMBER, "2")]))]
    ensures var ts := [Token(LET, "let"), Id("x"), Token(NUMBER, "5"), Token(END, "")];
            WellFormed(ts) && Parse(ts) == [None]
  {
    var t1 := [Token(LET, "let"), Id("x"), Token(EQUALS, "="), Token(NUMBER, "5"), Token(END, "")];
    assert ExprAt(t1, 3) == (Some(Ast.MakeNode(Ast.NUMBER, "5")), 4);
    assert LetAt(t1, 1).1 == 4;
    var t2 := [Token(LET, "let"), Id("x"), Token(NUMBER, "1"), Token(NUMBER, "2"), Token(END, "")];
    assert ExprAt(t2, 3) == (Some(Ast.MakeNode(Ast.NUMBER, "2")), 4);
    assert LetAt(t2, 1).1 == 4;
    var t3 := [Token(LET, "let"), Id("x"), Token(NUMBER, "5"), Token(END, "")];
    assert ExprAt(t3, 3) == (None, 3);
    assert LetAt(t3, 1) == (None, 3);
  }

  /** `show c;` is a PRINT node; `show c` without `;` is null. */
  lemma ShowExamples()
    ensures var ts := [Token(SHOW, "show"), Id("c"), Token(SEMICOLON, ";"), Token(END, "")];
            WellFormed(ts) && Parse(ts) == [Some(Ast.MakeNode(Ast.PRINT, "c"))]
    ensures var ts := [Token(SHOW, "show"), Id("c"), Token(END, "")];
            WellFormed(ts) && Parse(ts) == [None]
  {
    var t1 := [Token(SHOW, "show"), Id("c"), Token(SEMICOLON, ";"), Token(END, "")];
    assert ShowAt(t1, 1) == (Some(Ast.MakeNode(Ast.PRINT, "c")), 3);
    var t2 := [Token(SHOW, "show"), Id("c"), Token(END, "")];
    assert ShowAt(t2, 1) == (None, 2);
  }
}

/**
 * The recursive-descent parser (src/Parser.cpp). The functions below are the
 * reference definitions of each parsing routine: from a cursor position they
 * give the node produced (None for the source's `nullptr`) and the cursor
 * afterwards. The class `Parser` keeps the source's mutable cursor and is
 * proved to follow them.
 *
 * Every routine reads `tokens[current]` without a bounds check, so the token
 * sequence must end in END and hold no other END (what the lexer produces);
 * under that condition the cursor never moves past the END token.
 */
module Parser {
  import opened Wrappers
  import opened Lexer
  import Ast

  predicate AtEnd(ts: seq<Token>, i: nat) {
    i >= |ts| || ts[i].kind == END
  }

  predicate IsOperand(t: Token) {
    t.kind == IDENTIFIER || t.kind == NUMBER
  }

  /** The IDENTIFIER or NUMBER leaf for an operand token. */
  function Leaf(t: Token): Ast.Node
    requires IsOperand(t)
  {
    Ast.MakeNode(if t.kind == IDENTIFIER then Ast.IDENTIFIER else Ast.NUMBER, t.lexeme)
  }

  /** `lexeme[0]`, which is the terminating '\0' of an empty `std::string`. */
  function FirstChar(s: string): char {
    if |s| > 0 then s[0] else '\0'
  }

  /** The cursor after `consume(kind)`: one step on, unless the token is END. */
  function AfterConsume(ts: seq<Token>, i: nat, kind: TokenType): (j: nat)
    requires WellFormed(ts) && i < |ts| && kind != END
    ensures i <= j < |ts|
  {
    if ts[i].kind == kind then i + 1
    else if ts[i].kind != END then i + 1
    else i
  }

  /** The rest of `expression` once `left` is built: fold each operator and operand into it. */
  function ExprTail(ts: seq<Token>, left: Ast.Node, i: nat): (r: (Option<Ast.Node>, nat))
    requires WellFormed(ts) && i < |ts|
    ensures i <= r.1 < |ts|
    decreases |ts| - i
  {
    if !AtEnd(ts, i) && (ts[i].kind == PLUS || ts[i].kind == MINUS) then
      var op := FirstChar(ts[i].lexeme);
      if IsOperand(ts[i + 1]) then ExprTail(ts, Ast.MakeBinaryOp(left, Leaf(ts[i + 1]), op), i + 2)
      else (None, i + 1)
    else (Some(left), i)
  }

  /** One operator step of `expression`: fold the next operand in, or fail after the operator. */
  lemma ExprTailStep(ts: seq<Token>, left: Ast.Node, i: nat)
    requires WellFormed(ts) && i < |ts| && !AtEnd(ts, i) && (ts[i].kind == PLUS || ts[i].kind == MINUS)
    ensures i + 1 < |ts|
    ensures IsOperand(ts[i + 1]) ==> i + 2 < |ts|
    ensures IsOperand(ts[i + 1]) ==>
      ExprTail(ts, left, i) == ExprTail(ts, Ast.MakeBinaryOp(left, Leaf(ts[i + 1]), FirstChar(ts[i].lexeme)), i + 2)
    ensures !IsOperand(ts[i + 1]) ==> ExprTail(ts, left, i) == (None, i + 1)
  {
  }

  /** `expression`: an operand, then any number of operator-operand pairs, folded to the left. */
  function ExprAt(ts: seq<Token>, i: nat): (r: (Option<Ast.Node>, nat))
    requires WellFormed(ts) && i < |ts|
    ensures i <= r.1 < |ts|
  {
    if IsOperand(ts[i]) then ExprTail(ts, Leaf(ts[i]), i + 1) else (None, i)
  }

  /** `parseLetStatement`, from the token after `let`. */
  function LetAt(ts: seq<Token>, i: nat): (r: (Option<Ast.Node>, nat))
    requires WellFormed(ts) && i < |ts|
    ensures i <= r.1 < |ts|
  {
    if AtEnd(ts, i) || ts[i].kind != IDENTIFIER then (None, i)
    else
      var name := ts[i].lexeme;
      var j := AfterConsume(ts, i + 1, EQUALS);
      var (value, k) := ExprAt(ts, j);
      if value.None? then (None, k)
      else if value.value.Value() == "" && value.value.Kind() != Ast.BINARY_OP then (None, k)
      else (Some(Ast.MakeNodeWithChildren(Ast.ASSIGN, name, [value.value])), AfterConsume(ts, k, SEMICOLON))
  }

  /** `parseShowStatement`, from the token after `show`. */
  function ShowAt(ts: seq<Token>, i: nat): (r: (Option<Ast.Node>, nat))
    requires WellFormed(ts) && i < |ts|
    ensures i <= r.1 < |ts|
  {
    if AtEnd(ts, i) || ts[i].kind != IDENTIFIER then (None, i)
    else if !AtEnd(ts, i + 1) && ts[i + 1].kind == SEMICOLON then (Some(Ast.MakeNode(Ast.PRINT, ts[i].lexeme)), i + 2)
    else (None, i + 1)
  }

  /** The entries `parse` appends from position `i` on (src/Parser.cpp:15-32). */
  function ParseAt(ts: seq<Token>, i: nat): seq<Option<Ast.Node>>
    requires WellFormed(ts) && i < |ts|
    decreases |ts| - i
  {
    if AtEnd(ts, i) then []
    else if ts[i].kind == LET then
      var (n, j) := LetAt(ts, i + 1);
      [n] + ParseAt(ts, j)
    else if ts[i].kind == SHOW then
      var (n, j) := ShowAt(ts, i + 1);
      [n] + ParseAt(ts, j)
    else ParseAt(ts, i + 1)
  }

  /** The program a fresh parser produces from a token sequence. */
  function Parse(ts: seq<Token>): seq<Option<Ast.Node>>
    requires WellFormed(ts)
  {
    ParseAt(ts, 0)
  }

  class Parser {
    const tokens: seq<Token>
    var current: nat

    ghost predicate Valid()
      reads this
    {
      WellFormed(tokens) && current < |tokens|
    }

    constructor (tokens: seq<Token>)
      requires WellFormed(tokens)
      ensures Valid() && this.tokens == tokens && current == 0
    {
      this.tokens := tokens;
      current := 0;
    }

    predicate IsAtEnd()
      reads this
      ensures Valid() ==> (IsAtEnd() <==> current == |tokens| - 1)
    {
      current >= |tokens| || tokens[current].kind == END
    }

    method Consume(kind: TokenType)
      requires Valid() && kind != END
      modifies this
      ensures Valid()
      ensures tokens[old(current)].kind == kind ==> current == old(current) + 1
      ensures tokens[old(current)].kind != kind ==>
                current == if tokens[old(current)].kind == END then old(current) else old(current) + 1
    {
      if tokens[current].kind == kind {
        current := current + 1;
      } else if tokens[current].kind != END {
        current := current + 1;
      }
    }

    method Expression() returns (e: Option<Ast.Node>)
      requires Valid()
      modifies this
      ensures Valid() && (e, current) == ExprAt(tokens, old(current))
    {
      var left: Ast.Node;
      if tokens[current].kind == IDENTIFIER {
        left := Ast.MakeNode(Ast.IDENTIFIER, tokens[current].lexeme);
      } else if tokens[current].kind == NUMBER {
        left := Ast.MakeNode(Ast.NUMBER, tokens[current].lexeme);
      } else {
        return None;
      }
      current := current + 1;
      e := ExpressionTail(left);
    }

    /** The operator loop of `expression`, folding each operand into `left`. */
    method ExpressionTail(first: Ast.Node) returns (e: Option<Ast.Node>)
      requires Valid()
      modifies this
      ensures Valid() && (e, current) == ExprTail(tokens, first, old(current))
    {
      var left := first;
      while !IsAtEnd() && (tokens[current].kind == PLUS || tokens[current].kind == MINUS)
        invariant Valid()
        invariant ExprTail(tokens, left, current) == ExprTail(tokens, first, old(current))
        decreases |tokens| - current
      {
        ExprTailStep(tokens, left, current);
        var op := FirstChar(tokens[current].lexeme);
        current := current + 1;
        if tokens[current].kind == IDENTIFIER || tokens[current].kind == NUMBER {
          var right := Leaf(tokens[current]);
          current := current + 1;
          left := Ast.MakeBinaryOp(left, right, op);
        } else {
          return None;
        }
      }
      e := Some(left);
    }

    method ParseLetStatement() returns (n: Option<Ast.Node>)
      requires Valid()
      modifies this
      ensures Valid() && (n, current) == LetAt(tokens, old(current))
    {
      if IsAtEnd() || tokens[current].kind != IDENTIFIER {
        return None;
      }
      var name := tokens[current].lexeme;
      current := current + 1;
      Consume(EQUALS);
      var value := Expression();
      if value.None? {
        return None;
      }
      if value.value.Value() == "" && value.value.Kind() != Ast.BINARY_OP {
        return None;
      }
      Consume(SEMICOLON);
      n := Some(Ast.MakeNodeWithChildren(Ast.ASSIGN, name, [value.value]));
    }

    method ParseShowStatement() returns (n: Option<Ast.Node>)
      requires Valid()
      modifies this
      ensures Valid() && (n, current) == ShowAt(tokens, old(current))
    {
      if IsAtEnd() || tokens[current].kind != IDENTIFIER {
        return None;
      }
      var name := tokens[current].lexeme;
      current := current + 1;
      if !IsAtEnd() && tokens[current].kind == SEMICOLON {
        Consume(SEMICOLON);
      } else {
        return None;
      }
      n := Some(Ast.MakeNode(Ast.PRINT, name));
    }

    /** Appends the parsed statements to `ast`, stopping at END. */
    method Parse(ast: seq<Option<Ast.Node>>) returns (ast': seq<Option<Ast.Node>>)
      requires Valid()
      modifies this
      ensures Valid() && IsAtEnd()
      ensures ast' == ast + ParseAt(tokens, old(current))
    {
      ast' := ast;
      while !IsAtEnd()
        invariant Valid()
        invariant ast' + ParseAt(tokens, current) == ast + ParseAt(tokens, old(current))
        decreases |tokens| - current
      {
        ghost var i := current;
        if tokens[current].kind == LET {
          Consume(LET);
          var n := ParseLetStatement();
          ParseAtStatement(tokens, i);
          AppendEntry(ast', n, ParseAt(tokens, current));
          ast' := ast' + [n];
        } else if tokens[current].kind == SHOW {
          Consume(SHOW);
          var n := ParseShowStatement();
          ParseAtStatement(tokens, i);
          AppendEntry(ast', n, ParseAt(tokens, current));
          ast' := ast' + [n];
        } else {
          current := current + 1;
        }
      }
    }
  }

  /** One iteration of `parse` on a `let` or `show` token. */
  lemma ParseAtStatement(ts: seq<Token>, i: nat)
    requires WellFormed(ts) && i < |ts| && (ts[i].kind == LET || ts[i].kind == SHOW)
    ensures ts[i].kind == LET ==> ParseAt(ts, i) == [LetAt(ts, i + 1).0] + ParseAt(ts, LetAt(ts, i + 1).1)
    ensures ts[i].kind == SHOW ==> ParseAt(ts, i) == [ShowAt(ts, i + 1).0] + ParseAt(ts, ShowAt(ts, i + 1).1)
  {
  }

  lemma AppendEntry<T>(a: seq<T>, x: T, b: seq<T>)
    ensures (a + [x]) + b == a + ([x] + b)
  {
  }

  /** Runs a fresh parser over a token sequence. */
  method ParseTokens(tokens: seq<Token>) returns (ast: seq<Option<Ast.Node>>)
    requires WellFormed(tokens)
    ensures ast == Parse(tokens)
  {
    var parser := new Parser(tokens);
    ast := parser.Parse([]);
  }
}

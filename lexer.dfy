/**
 * The scanner of the token-based front end (src/Lexer.h, src/Lexer.cpp).
 * `LexFrom` is the reference definition of what `Lexer.Tokenize` produces
 * from a cursor position; the class keeps the source's mutable cursor.
 */
module Lexer {
  import opened Wrappers
  import opened Text

  datatype TokenType = LET | SHOW | IDENTIFIER | NUMBER | PLUS | MINUS | EQUALS | SEMICOLON | END

  datatype Token = Token(kind: TokenType, lexeme: string)

  /** The `std::runtime_error` thrown for a character no rule accepts. */
  datatype LexError = InvalidCharacter(c: char)

  /** `peekAt`: the character at `index`, or '\0' past the end. */
  function CharAt(s: string, index: nat): char {
    if index < |s| then s[index] else '\0'
  }

  /**
   * `matchKeyword`'s test: the keyword stands at `i` and the character after
   * it (or '\0' at the end of input) is not alphanumeric.
   */
  predicate KeywordAt(s: string, i: nat, keyword: string) {
    i + |keyword| <= |s| && s[i..i + |keyword|] == keyword && !IsAlnum(CharAt(s, i + |keyword|))
  }

  /** A token sequence as the parser needs it: END last and nowhere else. */
  predicate WellFormed(ts: seq<Token>) {
    |ts| > 0 && ts[|ts| - 1].kind == END &&
    forall k :: 0 <= k < |ts| - 1 ==> ts[k].kind != END
  }

  /** The lexeme each kind of token carries when the lexer produces it. */
  predicate Shaped(t: Token) {
    match t.kind
    case LET => t.lexeme == "let"
    case SHOW => t.lexeme == "show"
    case NUMBER => |t.lexeme| > 0 && AllDigits(t.lexeme)
    case IDENTIFIER => |t.lexeme| > 0 && forall k :: 0 <= k < |t.lexeme| ==> IsAlpha(t.lexeme[k])
    case PLUS => t.lexeme == "+"
    case MINUS => t.lexeme == "-"
    case EQUALS => t.lexeme == "="
    case SEMICOLON => t.lexeme == ";"
    case END => t.lexeme == ""
  }

  function Prepend(t: Token, r: Result<seq<Token>, LexError>): Result<seq<Token>, LexError> {
    if r.Ok? then Ok([t] + r.value) else r
  }

  function PrependAll(ts: seq<Token>, r: Result<seq<Token>, LexError>): Result<seq<Token>, LexError> {
    if r.Ok? then Ok(ts + r.value) else r
  }

  /**
   * One step of the scan at a non-whitespace position: the token that starts
   * there and the position after it, or the invalid character.
   */
  function NextToken(s: string, i: nat): (r: Result<(Token, nat), LexError>)
    requires i < |s| && !IsSpace(s[i])
    ensures r.Ok? ==> i < r.value.1 <= |s|
  {
    var c := s[i];
    if c == 'l' && KeywordAt(s, i, "let") then Ok((Token(LET, "let"), i + 3))
    else if c == 's' && KeywordAt(s, i, "show") then Ok((Token(SHOW, "show"), i + 4))
    else if IsDigit(c) then
      var j := RunEnd(s, i, IsDigit);
      Ok((Token(NUMBER, s[i..j]), j))
    else if IsAlpha(c) then
      var j := RunEnd(s, i, IsAlpha);
      Ok((Token(IDENTIFIER, s[i..j]), j))
    else if c == '+' then Ok((Token(PLUS, "+"), i + 1))
    else if c == '-' then Ok((Token(MINUS, "-"), i + 1))
    else if c == '=' then Ok((Token(EQUALS, "="), i + 1))
    else if c == ';' then Ok((Token(SEMICOLON, ";"), i + 1))
    else Err(InvalidCharacter(c))
  }

  /** The tokens of `s` from position `i` on, or the first invalid character (src/Lexer.cpp:15-56). */
  function LexFrom(s: string, i: nat): Result<seq<Token>, LexError>
    decreases |s| - i
  {
    if i >= |s| then Ok([Token(END, "")])
    else if IsSpace(s[i]) then LexFrom(s, i + 1)
    else
      match NextToken(s, i)
      case Err(e) => Err(e)
      case Ok((t, j)) => Prepend(t, LexFrom(s, j))
  }

  /** What a fresh lexer's `tokenize` produces. */
  function Lex(s: string): Result<seq<Token>, LexError> {
    LexFrom(s, 0)
  }

  lemma PrependAllStep(ts: seq<Token>, t: Token, r: Result<seq<Token>, LexError>)
    ensures PrependAll(ts, Prepend(t, r)) == PrependAll(ts + [t], r)
  {
    if r.Ok? {
      assert ts + ([t] + r.value) == (ts + [t]) + r.value;
    }
  }

  class Lexer {
    const source: string
    var current: nat

    ghost predicate Valid()
      reads this
    {
      current <= |source|
    }

    constructor (source: string)
      ensures Valid() && this.source == source && current == 0
    {
      this.source := source;
      current := 0;
    }

    predicate IsAtEnd()
      reads this
      ensures Valid() ==> (IsAtEnd() <==> current == |source|)
    {
      current >= |source|
    }

    function Peek(): (c: char)
      reads this
      ensures c == CharAt(source, current)
    {
      if IsAtEnd() then '\0' else source[current]
    }

    function PeekAt(index: nat): (c: char)
      reads this
      ensures index < |source| ==> c == source[index]
      ensures index >= |source| ==> c == '\0'
    {
      if index >= |source| then '\0' else source[index]
    }

    method Advance() returns (c: char)
      requires Valid() && current < |source|
      modifies this
      ensures Valid()
      ensures c == source[old(current)] && current == old(current) + 1
    {
      c := source[current];
      current := current + 1;
    }

    method SkipWhitespace()
      requires Valid()
      modifies this
      ensures Valid()
      ensures current == RunEnd(source, old(current), IsSpace)
      ensures LexFrom(source, current) == LexFrom(source, old(current))
    {
      while !IsAtEnd() && IsSpace(Peek())
        invariant Valid() && old(current) <= current
        invariant forall k :: old(current) <= k < current ==> IsSpace(source[k])
        invariant RunEnd(source, current, IsSpace) == RunEnd(source, old(current), IsSpace)
        invariant LexFrom(source, current) == LexFrom(source, old(current))
        decreases |source| - current
      {
        var _ := Advance();
      }
    }

    method ConsumeNumber() returns (number: string)
      requires Valid()
      modifies this
      ensures Valid()
      ensures current == RunEnd(source, old(current), IsDigit)
      ensures number == source[old(current)..current]
    {
      number := "";
      while IsDigit(Peek())
        invariant Valid() && old(current) <= current
        invariant number == source[old(current)..current]
        invariant RunEnd(source, current, IsDigit) == RunEnd(source, old(current), IsDigit)
        decreases |source| - current
      {
        var c := Advance();
        number := number + [c];
      }
    }

    method ConsumeIdentifier() returns (id: string)
      requires Valid()
      modifies this
      ensures Valid()
      ensures current == RunEnd(source, old(current), IsAlpha)
      ensures id == source[old(current)..current]
    {
      id := "";
      while IsAlpha(Peek())
        invariant Valid() && old(current) <= current
        invariant id == source[old(current)..current]
        invariant RunEnd(source, current, IsAlpha) == RunEnd(source, old(current), IsAlpha)
        decreases |source| - current
      {
        var c := Advance();
        id := id + [c];
      }
    }

    /** Appends the keyword token and moves past it exactly when it matches. */
    method MatchKeyword(keyword: string, kind: TokenType, tokens: seq<Token>) returns (matched: bool, tokens': seq<Token>)
      requires Valid()
      modifies this
      ensures Valid()
      ensures matched == KeywordAt(source, old(current), keyword)
      ensures tokens' == if matched then tokens + [Token(kind, keyword)] else tokens
      ensures current == if matched then old(current) + |keyword| else old(current)
    {
      var n := |keyword|;
      var end := if current + n <= |source| then current + n else |source|;
      if source[current..end] == keyword && !IsAlnum(PeekAt(current + n)) {
        tokens' := tokens + [Token(kind, keyword)];
        current := current + n;
        matched := true;
      } else {
        tokens' := tokens;
        matched := false;
      }
    }

    /**
     * The branches of `tokenize` after the keyword tests: a number, an
     * identifier, one of the four symbols, or the invalid-character error.
     */
    method ScanOther(c: char) returns (r: Result<Token, LexError>)
      requires Valid() && current < |source| && c == source[current] && !IsSpace(c)
      requires !(c == 'l' && KeywordAt(source, current, "let"))
      requires !(c == 's' && KeywordAt(source, current, "show"))
      modifies this
      ensures Valid()
      ensures NextToken(source, old(current)).Ok? ==>
                r == Ok(NextToken(source, old(current)).value.0) && current == NextToken(source, old(current)).value.1
      ensures NextToken(source, old(current)).Err? ==> r == Err(NextToken(source, old(current)).error)
    {
      if IsDigit(c) {
        var number := ConsumeNumber();
        r := Ok(Token(NUMBER, number));
      } else if IsAlpha(c) {
        var id := ConsumeIdentifier();
        r := Ok(Token(IDENTIFIER, id));
      } else if c == '+' {
        r := Ok(Token(PLUS, "+"));
        var _ := Advance();
      } else if c == '-' {
        r := Ok(Token(MINUS, "-"));
        var _ := Advance();
      } else if c == '=' {
        r := Ok(Token(EQUALS, "="));
        var _ := Advance();
      } else if c == ';' {
        r := Ok(Token(SEMICOLON, ";"));
        var _ := Advance();
      } else {
        r := Err(InvalidCharacter(c));
      }
    }

    method Tokenize() returns (r: Result<seq<Token>, LexError>)
      requires Valid()
      modifies this
      ensures Valid() && (r.Ok? ==> current == |source|)
      ensures r == LexFrom(source, old(current))
    {
      var tokens: seq<Token> := [];
      assert LexFrom(source, current).Ok? ==> [] + LexFrom(source, current).value == LexFrom(source, current).value;
      while !IsAtEnd()
        invariant Valid()
        invariant PrependAll(tokens, LexFrom(source, current)) == LexFrom(source, old(current))
        decreases |source| - current
      {
        SkipWhitespace();
        if IsAtEnd() {
          break;
        }
        ghost var start := current;
        var c := Peek();
        var matched: bool;
        if c == 'l' {
          matched, tokens := MatchKeyword("let", LET, tokens);
          if matched {
            assert NextToken(source, start) == Ok((Token(LET, "let"), current));
            TokenizeStep(source, start, tokens[..|tokens| - 1]);
            assert tokens[..|tokens| - 1] + [Token(LET, "let")] == tokens;
            continue;
          }
        }
        if c == 's' {
          matched, tokens := MatchKeyword("show", SHOW, tokens);
          if matched {
            assert NextToken(source, start) == Ok((Token(SHOW, "show"), current));
            TokenizeStep(source, start, tokens[..|tokens| - 1]);
            assert tokens[..|tokens| - 1] + [Token(SHOW, "show")] == tokens;
            continue;
          }
        }
        var t := ScanOther(c);
        if t.Err? {
          return Err(t.error);
        }
        TokenizeStep(source, start, tokens);
        tokens := tokens + [t.value];
      }
      assert LexFrom(source, current) == Ok([Token(END, "")]);
      r := Ok(tokens + [Token(END, "")]);
    }
  }

  lemma TokenizeStep(s: string, i: nat, tokens: seq<Token>)
    requires i < |s| && !IsSpace(s[i]) && NextToken(s, i).Ok?
    ensures PrependAll(tokens, LexFrom(s, i))
         == PrependAll(tokens + [NextToken(s, i).value.0], LexFrom(s, NextToken(s, i).value.1))
  {
    var (t, j) := NextToken(s, i).value;
    PrependAllStep(tokens, t, LexFrom(s, j));
  }

  /** Runs a fresh lexer over `s`. */
  method Tokenize(s: string) returns (r: Result<seq<Token>, LexError>)
    ensures r == Lex(s)
  {
    var lexer := new Lexer(s);
    r := lexer.Tokenize();
  }
}

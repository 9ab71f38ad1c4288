/** What `tokenize` guarantees about the tokens it returns. */
module LexerProperties {
  import opened Wrappers
  import opened Text
  import opened Lexer

  /** The characters some rule of the scan accepts. */
  predicate Accepted(c: char) {
    IsSpace(c) || IsAlnum(c) || c == '+' || c == '-' || c == '=' || c == ';'
  }

  function Lexemes(ts: seq<Token>): (r: seq<string>)
    ensures |r| == |ts|
  {
    if ts == [] then [] else [ts[0].lexeme] + Lexemes(ts[1..])
  }

  /** A scan step covers exactly the characters of its lexeme, all accepted and none whitespace. */
  lemma NextTokenCovers(s: string, i: nat)
    requires i < |s| && !IsSpace(s[i]) && NextToken(s, i).Ok?
    ensures NextToken(s, i).value.0.lexeme == s[i..NextToken(s, i).value.1]
    ensures Shaped(NextToken(s, i).value.0) && NextToken(s, i).value.0.kind != END
    ensures forall k :: i <= k < NextToken(s, i).value.1 ==> Accepted(s[k]) && !IsSpace(s[k])
  {
  }

  /** On success the tokens end with the one END token, which occurs nowhere else. */
  lemma {:induction false} LexWellFormed(s: string, i: nat)
    ensures LexFrom(s, i).Ok? ==> WellFormed(LexFrom(s, i).value) && Last(LexFrom(s, i).value) == Token(END, "")
    decreases |s| - i
  {
    if i >= |s| {
    } else if IsSpace(s[i]) {
      LexWellFormed(s, i + 1);
    } else if NextToken(s, i).Ok? {
      var (t, j) := NextToken(s, i).value;
      LexWellFormed(s, j);
      NextTokenCovers(s, i);
    }
  }

  function Last(ts: seq<Token>): Token
    requires |ts| > 0
  {
    ts[|ts| - 1]
  }

  /** Every token carries the lexeme its kind calls for. */
  lemma {:induction false} LexTokensShaped(s: string, i: nat)
    ensures LexFrom(s, i).Ok? ==> forall k :: 0 <= k < |LexFrom(s, i).value| ==> Shaped(LexFrom(s, i).value[k])
    decreases |s| - i
  {
    if i >= |s| {
    } else if IsSpace(s[i]) {
      LexTokensShaped(s, i + 1);
    } else if NextToken(s, i).Ok? {
      var (t, j) := NextToken(s, i).value;
      LexTokensShaped(s, j);
      NextTokenCovers(s, i);
    }
  }

  /** Whitespace yields no tokens: the lexemes spell the source with its whitespace removed. */
  lemma {:induction false} LexemesSpellSource(s: string, i: nat)
    requires i <= |s|
    ensures LexFrom(s, i).Ok? ==> Concat(Lexemes(LexFrom(s, i).value)) == StripSpace(s[i..])
    decreases |s| - i
  {
    if i == |s| {
      assert Lexemes([Token(END, "")]) == [""];
    } else if IsSpace(s[i]) {
      LexemesSpellSource(s, i + 1);
      assert s[i..] == [s[i]] + s[i + 1..];
    } else if NextToken(s, i).Ok? {
      var (t, j) := NextToken(s, i).value;
      LexemesSpellSource(s, j);
      if LexFrom(s, j).Ok? {
        var rest := LexFrom(s, j).value;
        assert LexFrom(s, i).value == [t] + rest;
        SpellTokenStep(s, i, rest);
      }
    }
  }

  /** One token's lexeme followed by the spelling of the rest spells the source from `i`. */
  lemma SpellTokenStep(s: string, i: nat, rest: seq<Token>)
    requires i < |s| && !IsSpace(s[i]) && NextToken(s, i).Ok?
    requires Concat(Lexemes(rest)) == StripSpace(s[NextToken(s, i).value.1..])
    ensures Concat(Lexemes([NextToken(s, i).value.0] + rest)) == StripSpace(s[i..])
  {
    var (t, j) := NextToken(s, i).value;
    NextTokenCovers(s, i);
    assert Lexemes([t] + rest) == [t.lexeme] + Lexemes(rest) by {
      assert ([t] + rest)[1..] == rest;
    }
    assert s[i..] == s[i..j] + s[j..];
    StripSpaceAppend(s[i..j], s[j..]);
    NoSpaceStrips(s[i..j]);
  }

  lemma {:induction false} AcceptedRunSkips(s: string, i: nat, j: nat)
    requires i <= j <= |s|
    requires forall k :: i <= k < j ==> Accepted(s[k])
    ensures RunEnd(s, i, Accepted) == RunEnd(s, j, Accepted)
    decreases j - i
  {
    if i < j {
      AcceptedRunSkips(s, i + 1, j);
    }
  }

  /**
   * `tokenize` fails exactly when the source holds a character no rule
   * accepts, and it reports the first such character.
   */
  lemma {:induction false} LexFailsOnFirstInvalid(s: string, i: nat)
    requires i <= |s|
    ensures LexFrom(s, i).Err? <==> RunEnd(s, i, Accepted) < |s|
    ensures LexFrom(s, i).Err? ==> LexFrom(s, i).error == InvalidCharacter(s[RunEnd(s, i, Accepted)])
    decreases |s| - i
  {
    if i == |s| {
    } else if IsSpace(s[i]) {
      LexFailsOnFirstInvalid(s, i + 1);
    } else if NextToken(s, i).Ok? {
      var (t, j) := NextToken(s, i).value;
      NextTokenCovers(s, i);
      AcceptedRunSkips(s, i, j);
      LexFailsOnFirstInvalid(s, j);
    } else {
      assert RunEnd(s, i, Accepted) == i;
    }
  }

  /** `let` and `show` are keywords exactly when no letter or digit follows them. */
  lemma KeywordBoundary(s: string, i: nat)
    requires i < |s| && !IsSpace(s[i]) && LexFrom(s, i).Ok?
    ensures LexFrom(s, i).value[0].kind == LET <==> KeywordAt(s, i, "let")
    ensures LexFrom(s, i).value[0].kind == SHOW <==> KeywordAt(s, i, "show")
  {
    NextTokenCovers(s, i);
  }

  /** A digit run that cannot be extended becomes exactly one NUMBER token. */
  lemma NumberIsMaximalDigitRun(s: string, i: nat, j: nat)
    requires i < j <= |s|
    requires forall k :: i <= k < j ==> IsDigit(s[k])
    requires j == |s| || !IsDigit(s[j])
    requires LexFrom(s, i).Ok?
    ensures LexFrom(s, j).Ok?
    ensures LexFrom(s, i).value == [Token(NUMBER, s[i..j])] + LexFrom(s, j).value
  {
    RunEndUnique(s, i, j, IsDigit);
  }

  /**
   * A run of letters that cannot be extended, and does not start with a
   * keyword, becomes exactly one IDENTIFIER token.
   */
  lemma IdentifierIsMaximalAlphaRun(s: string, i: nat, j: nat)
    requires i < j <= |s|
    requires forall k :: i <= k < j ==> IsAlpha(s[k])
    requires j == |s| || !IsAlpha(s[j])
    requires !KeywordAt(s, i, "let") && !KeywordAt(s, i, "show")
    requires LexFrom(s, i).Ok?
    ensures LexFrom(s, j).Ok?
    ensures LexFrom(s, i).value == [Token(IDENTIFIER, s[i..j])] + LexFrom(s, j).value
  {
    RunEndUnique(s, i, j, IsAlpha);
  }

  /** One step of the scan at a non-whitespace character that starts a token. */
  lemma LexStep(s: string, i: nat, t: Token, j: nat)
    requires i < |s| && !IsSpace(s[i]) && NextToken(s, i) == Ok((t, j))
    ensures LexFrom(s, i) == Prepend(t, LexFrom(s, j))
  {
  }

  /** `letter` is one identifier; `let1` is the identifier `let` and the number `1`. */
  lemma KeywordPrefixExamples()
    ensures Lex("letter") == Ok([Token(IDENTIFIER, "letter"), Token(END, "")])
    ensures Lex("let1") == Ok([Token(IDENTIFIER, "let"), Token(NUMBER, "1"), Token(END, "")])
  {
    var s := "letter";
    assert s[3] == 't' && !KeywordAt(s, 0, "let");
    RunEndUnique(s, 0, 6, IsAlpha);
    assert s[0..6] == s;
    LexStep(s, 0, Token(IDENTIFIER, "letter"), 6);
    assert [Token(IDENTIFIER, "letter")] + [Token(END, "")] == [Token(IDENTIFIER, "letter"), Token(END, "")];
    var u := "let1";
    assert u[3] == '1' && !KeywordAt(u, 0, "let");
    RunEndUnique(u, 0, 3, IsAlpha);
    RunEndUnique(u, 3, 4, IsDigit);
    assert u[0..3] == "let" && u[3..4] == "1";
    LexStep(u, 3, Token(NUMBER, "1"), 4);
    LexStep(u, 0, Token(IDENTIFIER, "let"), 3);
    assert [Token(IDENTIFIER, "let")] + ([Token(NUMBER, "1")] + [Token(END, "")])
        == [Token(IDENTIFIER, "let"), Token(NUMBER, "1"), Token(END, "")];
  }

  /** The statement `let x = 5;` lexes to six tokens. */
  lemma LetStatementExample()
    ensures Lex("let x = 5;") == Ok([Token(LET, "let"), Token(IDENTIFIER, "x"), Token(EQUALS, "="),
                                      Token(NUMBER, "5"), Token(SEMICOLON, ";"), Token(END, "")])
  {
    var s := "let x = 5;";
    LexStep(s, 9, Token(SEMICOLON, ";"), 10);
    RunEndUnique(s, 8, 9, IsDigit);
    assert s[8..9] == "5";
    LexStep(s, 8, Token(NUMBER, "5"), 9);
    assert s[7] == ' ' && LexFrom(s, 7) == LexFrom(s, 8);
    LexStep(s, 6, Token(EQUALS, "="), 7);
    assert s[5] == ' ' && LexFrom(s, 5) == LexFrom(s, 6);
    RunEndUnique(s, 4, 5, IsAlpha);
    assert s[4..5] == "x" && s[4] == 'x';
    LexStep(s, 4, Token(IDENTIFIER, "x"), 5);
    assert s[3] == ' ' && LexFrom(s, 3) == LexFrom(s, 4);
    assert s[0..3] == "let" && KeywordAt(s, 0, "let");
    LexStep(s, 0, Token(LET, "let"), 3);
    assert [Token(LET, "let")] + ([Token(IDENTIFIER, "x")] + ([Token(EQUALS, "=")] + ([Token(NUMBER, "5")]
             + ([Token(SEMICOLON, ";")] + [Token(END, "")]))))
        == [Token(LET, "let"), Token(IDENTIFIER, "x"), Token(EQUALS, "="),
            Token(NUMBER, "5"), Token(SEMICOLON, ";"), Token(END, "")];
  }
}

/** What `loadFile` guarantees about the flat program it builds. */
module LoaderProperties {
  import opened Wrappers
  import opened Text
  import opened FlatAst
  import opened LiteScript

  /** Loading two runs of lines appends the second run's nodes after the first's. */
  lemma {:induction false} LoadAppend(a: seq<string>, b: seq<string>)
    requires Load(a).error.None?
    ensures Load(a + b) == Loaded(Load(a).nodes + Load(b).nodes, Load(b).error)
    decreases |b|
  {
    if b == [] {
      assert a + b == a;
      assert Load(a).nodes + [] == Load(a).nodes;
    } else {
      var b' := b[..|b| - 1];
      assert (a + b)[..|a + b| - 1] == a + b';
      assert (a + b)[|a + b| - 1] == b[|b| - 1];
      LoadAppend(a, b');
      if Load(b').error.None? {
        match TranslateLine(b[|b| - 1])
        case Err(e) =>
        case Ok(None) =>
        case Ok(Some(n)) =>
          assert Load(a).nodes + Load(b').nodes + [n] == Load(a).nodes + (Load(b').nodes + [n]);
      }
    }
  }

  /** Each line contributes at most one node. */
  lemma {:induction false} LoadNodeBound(lines: seq<string>)
    ensures |Load(lines).nodes| <= |lines|
  {
    if lines != [] {
      LoadNodeBound(lines[..|lines| - 1]);
    }
  }

  /** A line that starts with neither `let` nor `show` adds nothing. */
  lemma OtherLinesIgnored(before: seq<string>, line: string)
    requires Load(before).error.None?
    requires !StartsWith(line, "let") && !StartsWith(line, "show")
    ensures Load(before + [line]) == Load(before)
  {
    assert (before + [line])[..|before|] == before;
  }

  /** The number of `+`/`-` words. */
  function OperatorCount(words: seq<string>): nat {
    if words == [] then 0
    else OperatorCount(words[..|words| - 1]) + (if IsOperator(words[|words| - 1]) then 1 else 0)
  }

  /** Every word is either an operator or kept as an operand, verbatim and in order. */
  lemma {:induction false} OperandsPartitionWords(words: seq<string>)
    ensures |NonOperators(words)| + OperatorCount(words) == |words|
    ensures forall k :: 0 <= k < |NonOperators(words)| ==> !IsOperator(NonOperators(words)[k]) && NonOperators(words)[k] in words
    ensures OperatorCount(words) == 0 ==> NonOperators(words) == words
  {
    if words != [] {
      var init := words[..|words| - 1];
      OperandsPartitionWords(init);
      assert words == init + [words[|words| - 1]];
      forall k | 0 <= k < |NonOperators(words)|
        ensures NonOperators(words)[k] in words
      {
        if k < |NonOperators(init)| {
          assert NonOperators(init)[k] in init;
        }
      }
    }
  }

  /** Operands of a concatenation are those of the parts, in order. */
  lemma {:induction false} NonOperatorsAppend(a: seq<string>, b: seq<string>)
    ensures NonOperators(a + b) == NonOperators(a) + NonOperators(b)
    decreases |b|
  {
    if b == [] {
      assert a + b == a;
    } else {
      var b' := b[..|b| - 1];
      assert (a + b)[..|a + b| - 1] == a + b';
      NonOperatorsAppend(a, b');
    }
  }

  /** The last operator word wins; with none, the operation is empty. */
  lemma {:induction false} LastOperatorWins(words: seq<string>)
    ensures LastOperator(words) == "" <==> forall k :: 0 <= k < |words| ==> !IsOperator(words[k])
    ensures LastOperator(words) != "" ==>
      exists k :: 0 <= k < |words| && words[k] == LastOperator(words)
        && forall m :: k < m < |words| ==> !IsOperator(words[m])
  {
    if words != [] {
      var init := words[..|words| - 1];
      LastOperatorWins(init);
      if !IsOperator(words[|words| - 1]) && LastOperator(init) != "" {
        var k :| 0 <= k < |init| && init[k] == LastOperator(init) && forall m :: k < m < |init| ==> !IsOperator(init[m]);
        assert words[k] == LastOperator(words);
      }
      if IsOperator(words[|words| - 1]) {
        assert words[|words| - 1] == LastOperator(words);
      }
    }
  }

  /**
   * What a `let` line becomes: ADD or SUBTRACT (by its last operator) over all
   * its other words; with no operator and one operand, an ASSIGN of that
   * operand's leading number, or the error when it has none; otherwise nothing.
   */
  lemma LetLineOutcome(words: seq<string>)
    ensures var op := LastOperator(LetOperands(words)); var operands := NonOperators(LetOperands(words));
      && (LetNode(words).Ok? && LetNode(words).value.Some? ==>
            var n := LetNode(words).value.value;
            && n.name == Word(words, 1)
            && (n.kind == ADD <==> op == "+")
            && (n.kind == SUBTRACT <==> op == "-")
            && (n.kind == ASSIGN <==> op == "" && |operands| == 1)
            && (n.kind != ASSIGN ==> n.operands == operands && n.value == 0)
            && (n.kind == ASSIGN ==> Stoi(operands[0]) == Some(n.value) && n.operands == [])
            && n.kind != PRINT)
      && (LetNode(words).Err? <==> op == "" && |operands| == 1 && Stoi(operands[0]).None?)
      && (LetNode(words) == Ok(None) <==> op == "" && |operands| != 1)
  {
  }

  /** A `show` line prints its second word, or the empty name when there is none. */
  lemma ShowLineOutcome(line: string)
    requires StartsWith(line, "show")
    ensures TranslateLine(line) == Ok(Some(MakeFlatNode(PRINT, Word(Words(line), 1))))
    ensures |Words(line)| < 2 ==> TranslateLine(line) == Ok(Some(MakeFlatNode(PRINT)))
  {
    assert line[0] == 's' && "let"[0] == 'l';
  }

  /** A line starting with `let` is split into words and read as a let statement. */
  lemma LetLineWords(ws: seq<string>)
    requires forall k :: 0 <= k < |ws| ==> IsWord(ws[k])
    requires |ws| > 0 && StartsWith(ws[0], "let")
    ensures TranslateLine(Unwords(ws)) == LetNode(ws)
  {
    var line := Unwords(ws);
    UnwordsStartsWithFirst(ws);
    assert line[..3] == line[..|ws[0]|][..3];
    assert StartsWith(line, "let");
    assert TranslateLine(line) == LetNode(Words(line));
    WordsUnwords(ws);
  }

  lemma UnwordsStartsWithFirst(ws: seq<string>)
    requires |ws| > 0
    ensures StartsWith(Unwords(ws), ws[0])
  {
    if |ws| > 1 {
      assert Unwords(ws) == ws[0] + (" " + Unwords(ws[1..]));
    }
  }

  /** One more word: an operator replaces the operation, anything else is appended to the operands. */
  lemma ScanSnoc(words: seq<string>, w: string)
    ensures NonOperators(words + [w]) == NonOperators(words) + (if IsOperator(w) then [] else [w])
    ensures LastOperator(words + [w]) == if IsOperator(w) then w else LastOperator(words)
  {
    assert (words + [w])[..|words|] == words;
  }

  /** `a + b - c`: the last operator decides, and every operand is kept. */
  lemma MixedOperatorsExample()
    ensures LetNode(["let", "c", "=", "a", "+", "b", "-", "c"]) == Ok(Some(MakeFlatNode(SUBTRACT, "c", 0, ["a", "b", "c"])))
  {
    assert LetOperands(["let", "c", "=", "a", "+", "b", "-", "c"]) == [] + ["a"] + ["+"] + ["b"] + ["-"] + ["c"];
    ScanSnoc([], "a");
    ScanSnoc([] + ["a"], "+");
    ScanSnoc([] + ["a"] + ["+"], "b");
    ScanSnoc([] + ["a"] + ["+"] + ["b"], "-");
    ScanSnoc([] + ["a"] + ["+"] + ["b"] + ["-"], "c");
    assert NonOperators([] + ["a"] + ["+"] + ["b"] + ["-"] + ["c"]) == ["a", "b", "c"];
    assert LastOperator([] + ["a"] + ["+"] + ["b"] + ["-"] + ["c"]) == "-";
  }

  /** Operands are kept verbatim: a trailing `;` stays on the word. */
  lemma SemicolonOperandExample()
    ensures LetNode(["let", "s", "=", "a", "+", "b;"]) == Ok(Some(MakeFlatNode(ADD, "s", 0, ["a", "b;"])))
  {
    assert LetOperands(["let", "s", "=", "a", "+", "b;"]) == [] + ["a"] + ["+"] + ["b;"];
    ScanSnoc([], "a");
    ScanSnoc([] + ["a"], "+");
    ScanSnoc([] + ["a"] + ["+"], "b;");
    assert NonOperators([] + ["a"] + ["+"] + ["b;"]) == ["a", "b;"];
    assert LastOperator([] + ["a"] + ["+"] + ["b;"]) == "+";
  }

  /** `stoi` reads only the leading number of a single operand. */
  lemma SemicolonNumberExample()
    ensures LetNode(["let", "x", "=", "5;"]) == Ok(Some(MakeFlatNode(ASSIGN, "x", 5)))
  {
    assert LetOperands(["let", "x", "=", "5;"]) == [] + ["5;"];
    ScanSnoc([], "5;");
    assert NonOperators([] + ["5;"]) == ["5;"];
    assert RunEnd("5;", 0, IsSpace) == 0;
    RunEndUnique("5;", 0, 1, IsDigit);
    assert "5;"[0..1] == "5";
    assert DigitsValue("5") == 5;
  }

  /** A single operand that does not start with a number is `stoi`'s `invalid_argument`. */
  lemma NameAsValueExample()
    ensures LetNode(["let", "y", "=", "b;"]) == Err(InvalidArgument("b;"))
  {
    var words := ["let", "y", "=", "b;"];
    assert LetOperands(words) == [] + ["b;"];
    ScanSnoc([], "b;");
    assert NonOperators(LetOperands(words)) == ["b;"];
    assert LastOperator(LetOperands(words)) == "";
    StoiRejects("b;");
  }

  /** `stoi` fails on text that starts with something other than whitespace, a sign or a digit. */
  lemma StoiRejects(s: string)
    requires |s| > 0 && !IsSpace(s[0]) && !IsDigit(s[0]) && s[0] != '-' && s[0] != '+'
    ensures Stoi(s) == None
  {
    assert RunEnd(s, 0, IsSpace) == 0;
    assert RunEnd(s, 0, IsDigit) == 0;
  }

  /** `letter = 1` passes the `let` prefix test; with no operator and no operand it adds nothing, as does `let x = 1 2`. */
  lemma NoNodeExamples()
    ensures TranslateLine("letter = 1") == Ok(None)
    ensures LetNode(["let", "x", "=", "1", "2"]) == Ok(None)
  {
    LetLineWords(["letter", "=", "1"]);
    assert Unwords(["letter", "=", "1"]) == "letter = 1";
    assert LetOperands(["letter", "=", "1"]) == [];
    assert LetOperands(["let", "x", "=", "1", "2"]) == ["1", "2"];
    assert ["1", "2"][..1] == ["1"];
    assert ["1"][..0] == [];
  }
}

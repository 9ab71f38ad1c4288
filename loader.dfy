/**
 * The line-based loader (`LiteScript::loadFile`, src/LiteScript.cpp). It does
 * not use the lexer or the parser: each line that begins with `let` or
 * `show` is split into whitespace-separated words, as `istringstream >>`
 * does, and becomes at most one flat node.
 */
module LiteScript {
  import opened Wrappers
  import opened Text
  import opened FlatAst

  /** `stoi` throwing `std::invalid_argument` on an operand with no leading number. */
  datatype LoadError = InvalidArgument(operand: string)

  /** The `k`-th word, or "" when the stream ran out before it. */
  function Word(words: seq<string>, k: nat): string {
    if k < |words| then words[k] else ""
  }

  /** The words after `let <name> =`: the third word is read and dropped without a check. */
  function LetOperands(words: seq<string>): seq<string> {
    if |words| > 3 then words[3..] else []
  }

  predicate IsOperator(word: string) {
    word == "+" || word == "-"
  }

  /** The last `+` or `-` word, or "" when there is none. */
  function LastOperator(words: seq<string>): (op: string)
    ensures op == "" || IsOperator(op)
  {
    if words == [] then ""
    else if IsOperator(words[|words| - 1]) then words[|words| - 1]
    else LastOperator(words[..|words| - 1])
  }

  /** The words other than `+` and `-`, verbatim and in order. */
  function NonOperators(words: seq<string>): seq<string> {
    if words == [] then []
    else NonOperators(words[..|words| - 1]) + (if IsOperator(words[|words| - 1]) then [] else [words[|words| - 1]])
  }

  /** The node a `let` line's words give, if any (src/LiteScript.cpp:36-67). */
  function LetNode(words: seq<string>): Result<Option<FlatNode>, LoadError> {
    var name := Word(words, 1);
    var rest := LetOperands(words);
    var op := LastOperator(rest);
    var operands := NonOperators(rest);
    if op == "+" then Ok(Some(MakeFlatNode(ADD, name, 0, operands)))
    else if op == "-" then Ok(Some(MakeFlatNode(SUBTRACT, name, 0, operands)))
    else if |operands| == 1 then
      match Stoi(operands[0])
      case None => Err(InvalidArgument(operands[0]))
      case Some(v) => Ok(Some(MakeFlatNode(ASSIGN, name, v)))
    else Ok(None)
  }

  /** What one line contributes: a node, nothing, or the error `stoi` throws (src/LiteScript.cpp:32-72). */
  function TranslateLine(line: string): Result<Option<FlatNode>, LoadError> {
    if StartsWith(line, "let") then LetNode(Words(line))
    else if StartsWith(line, "show") then Ok(Some(MakeFlatNode(PRINT, Word(Words(line), 1))))
    else Ok(None)
  }

  /** The nodes a run of lines appends, and the error that stopped it, if any. */
  datatype Loaded = Loaded(nodes: seq<FlatNode>, error: Option<LoadError>)

  /** The reading loop over the file's lines (src/LiteScript.cpp:31-73). */
  function Load(lines: seq<string>): Loaded {
    if lines == [] then Loaded([], None)
    else
      var before := Load(lines[..|lines| - 1]);
      if before.error.Some? then before
      else match TranslateLine(lines[|lines| - 1])
        case Err(e) => Loaded(before.nodes, Some(e))
        case Ok(None) => before
        case Ok(Some(n)) => Loaded(before.nodes + [n], None)
  }

  /** The loop over the words after `let <name> =`: operators set the operation, the rest are operands. */
  method ScanOperands(words: seq<string>) returns (operands: seq<string>, operationType: string)
    ensures operands == NonOperators(words)
    ensures operationType == LastOperator(words)
  {
    operands := [];
    operationType := "";
    for i := 0 to |words|
      invariant operands == NonOperators(words[..i])
      invariant operationType == LastOperator(words[..i])
    {
      assert words[..i + 1][..i] == words[..i];
      if words[i] == "+" || words[i] == "-" {
        operationType := words[i];
      } else {
        operands := operands + [words[i]];
      }
    }
    assert words[..|words|] == words;
  }

  /** The body of `loadFile`'s line loop, for one line. */
  method ReadLine(line: string) returns (r: Result<Option<FlatNode>, LoadError>)
    ensures r == TranslateLine(line)
  {
    var words := Words(line);
    if StartsWith(line, "let") {
      var name := Word(words, 1);
      var operands, operationType := ScanOperands(LetOperands(words));
      if operationType == "+" {
        r := Ok(Some(MakeFlatNode(ADD, name, 0, operands)));
      } else if operationType == "-" {
        r := Ok(Some(MakeFlatNode(SUBTRACT, name, 0, operands)));
      } else if |operands| == 1 {
        var value := Stoi(operands[0]);
        if value.None? {
          return Err(InvalidArgument(operands[0]));
        }
        r := Ok(Some(MakeFlatNode(ASSIGN, name, value.value)));
      } else {
        r := Ok(None);
      }
    } else if StartsWith(line, "show") {
      r := Ok(Some(MakeFlatNode(PRINT, Word(words, 1))));
    } else {
      r := Ok(None);
    }
  }

  lemma LoadStep(lines: seq<string>, i: nat)
    requires i < |lines|
    ensures Load(lines[..i + 1]) ==
      var before := Load(lines[..i]);
      if before.error.Some? then before
      else match TranslateLine(lines[i])
        case Err(e) => Loaded(before.nodes, Some(e))
        case Ok(None) => before
        case Ok(Some(n)) => Loaded(before.nodes + [n], None)
  {
    assert lines[..i + 1][..i] == lines[..i];
  }

  class LiteScript {
    var ast: seq<FlatNode>

    constructor ()
      ensures ast == []
    {
      ast := [];
    }

    /**
     * `loadFile` over the file's lines: appends each line's node in order,
     * and stops at the first line whose operand `stoi` rejects, keeping what
     * was appended before it.
     */
    method LoadFile(lines: seq<string>) returns (error: Option<LoadError>)
      modifies this
      ensures ast == old(ast) + Load(lines).nodes
      ensures error == Load(lines).error
    {
      for i := 0 to |lines|
        invariant Load(lines[..i]).error.None?
        invariant ast == old(ast) + Load(lines[..i]).nodes
      {
        LoadStep(lines, i);
        var r := ReadLine(lines[i]);
        if r.Err? {
          assert lines[..i + 1] + lines[i + 1..] == lines;
          LoadStopped(lines[..i + 1], lines[i + 1..]);
          return Some(r.error);
        }
        if r.value.Some? {
          ast := ast + [r.value.value];
        }
      }
      assert lines[..|lines|] == lines;
      return None;
    }
  }

  /** Once a line has failed, later lines add nothing. */
  lemma {:induction false} LoadStopped(a: seq<string>, b: seq<string>)
    requires Load(a).error.Some?
    ensures Load(a + b) == Load(a)
    decreases |b|
  {
    if b == [] {
      assert a + b == a;
    } else {
      var b' := b[..|b| - 1];
      assert (a + b)[..|a + b| - 1] == a + b';
      LoadStopped(a, b');
    }
  }
}

/**
 * The tree-less interpreter (`Interpreter::execute`, src/Interpreter.cpp). It
 * runs the loader's flat nodes in order against a store from names to
 * integers that starts empty, prints one line per PRINT, and stops at the
 * first undefined variable. Integers are unbounded here.
 */
module Interpreter {
  import opened Wrappers
  import opened Text
  import opened FlatAst

  /** The `runtime_error` thrown for a name the store does not hold. */
  datatype RuntimeError = UndefinedVariable(name: string)

  /** The store, the lines printed so far, and the error that stopped the run, if any. */
  datatype State = State(store: map<string, int>, output: seq<string>, error: Option<RuntimeError>)

  const Initial: State := State(map[], [], None)

  /** The line `cout << "Result: " << value << endl` prints, without its newline. */
  function ResultLine(value: int): string {
    "Result: " + IntToString(value)
  }

  /**
   * The operand loop of an ADD or SUBTRACT: the first operand's value, then
   * each later one added or subtracted; an unbound operand is an error
   * (src/Interpreter.cpp:33-56).
   */
  function Accumulate(kind: FlatNodeType, operands: seq<string>, store: map<string, int>): Result<int, RuntimeError> {
    if operands == [] then Ok(0)
    else
      match Accumulate(kind, operands[..|operands| - 1], store)
      case Err(e) => Err(e)
      case Ok(acc) =>
        var x := operands[|operands| - 1];
        if x !in store then Err(UndefinedVariable(x))
        else if |operands| == 1 then Ok(store[x])
        else if kind == ADD then Ok(acc + store[x])
        else if kind == SUBTRACT then Ok(acc - store[x])
        else Ok(acc)
  }

  /** One node run in a state that has not failed (src/Interpreter.cpp:28-66). */
  function StepNode(s: State, node: FlatNode): State {
    match node.kind
    case ASSIGN => s.(store := s.store[node.name := node.value])
    case ADD => Combine(s, node)
    case SUBTRACT => Combine(s, node)
    case PRINT =>
      if node.name in s.store then s.(output := s.output + [ResultLine(s.store[node.name])])
      else s.(error := Some(UndefinedVariable(node.name)))
  }

  function Combine(s: State, node: FlatNode): State {
    match Accumulate(node.kind, node.operands, s.store)
    case Err(e) => s.(error := Some(e))
    case Ok(v) => s.(store := s.store[node.name := v])
  }

  /** The nodes run in order from `start`; the first error stops the run (src/Interpreter.cpp:27-67). */
  function Run(start: State, nodes: seq<FlatNode>): State {
    if nodes == [] then start
    else
      var s := Run(start, nodes[..|nodes| - 1]);
      if s.error.Some? then s else StepNode(s, nodes[|nodes| - 1])
  }

  lemma RunStep(start: State, nodes: seq<FlatNode>, i: nat)
    requires i < |nodes|
    ensures Run(start, nodes[..i + 1]) ==
      var s := Run(start, nodes[..i]);
      if s.error.Some? then s else StepNode(s, nodes[i])
  {
    assert nodes[..i + 1][..i] == nodes[..i];
  }

  /** Once the run has failed, later nodes change nothing. */
  lemma {:induction false} RunStopped(start: State, a: seq<FlatNode>, b: seq<FlatNode>)
    requires Run(start, a).error.Some?
    ensures Run(start, a + b) == Run(start, a)
    decreases |b|
  {
    if b == [] {
      assert a + b == a;
    } else {
      var b' := b[..|b| - 1];
      assert (a + b)[..|a + b| - 1] == a + b';
      RunStopped(start, a, b');
    }
  }

  /** The operand loop of `execute` with its `firstOperand` flag. */
  method Evaluate(kind: FlatNodeType, operands: seq<string>, variables: map<string, int>) returns (r: Result<int, RuntimeError>)
    ensures r == Accumulate(kind, operands, variables)
  {
    var result := 0;
    var firstOperand := true;
    for j := 0 to |operands|
      invariant Accumulate(kind, operands[..j], variables) == Ok(result)
      invariant firstOperand <==> j == 0
    {
      assert operands[..j + 1][..j] == operands[..j];
      var operand := operands[j];
      if operand in variables {
        var operandValue := variables[operand];
        if firstOperand {
          result := operandValue;
          firstOperand := false;
        } else {
          if kind == ADD {
            result := result + operandValue;
          } else if kind == SUBTRACT {
            result := result - operandValue;
          }
        }
      } else {
        AccumulateStopped(kind, operands, j + 1, variables);
        return Err(UndefinedVariable(operand));
      }
    }
    assert operands[..|operands|] == operands;
    return Ok(result);
  }

  /** An error in a prefix of the operands is the error of the whole loop. */
  lemma {:induction false} AccumulateStopped(kind: FlatNodeType, operands: seq<string>, j: nat, store: map<string, int>)
    requires j <= |operands| && Accumulate(kind, operands[..j], store).Err?
    ensures Accumulate(kind, operands, store) == Accumulate(kind, operands[..j], store)
    decreases |operands| - j
  {
    if j < |operands| {
      assert operands[..j + 1][..j] == operands[..j];
      AccumulateStopped(kind, operands, j + 1, store);
    } else {
      assert operands[..j] == operands;
    }
  }

  class Interpreter {
    const ast: seq<FlatNode>

    constructor (nodes: seq<FlatNode>)
      ensures ast == nodes
    {
      ast := nodes;
    }

    /**
     * `execute`: the printed lines and the error that ended the run, if any.
     * The variable map is local to the call and starts empty.
     */
    method Execute() returns (output: seq<string>, error: Option<RuntimeError>)
      ensures output == Run(Initial, ast).output
      ensures error == Run(Initial, ast).error
    {
      var variables: map<string, int> := map[];
      output := [];
      for i := 0 to |ast|
        invariant Run(Initial, ast[..i]) == State(variables, output, None)
      {
        RunStep(Initial, ast, i);
        var node := ast[i];
        if node.kind == ASSIGN {
          variables := variables[node.name := node.value];
        } else if node.kind == ADD || node.kind == SUBTRACT {
          var result := Evaluate(node.kind, node.operands, variables);
          if result.Err? {
            Stop(ast, i);
            return output, Some(result.error);
          }
          variables := variables[node.name := result.value];
        } else if node.kind == PRINT {
          if node.name in variables {
            output := output + [ResultLine(variables[node.name])];
          } else {
            Stop(ast, i);
            return output, Some(UndefinedVariable(node.name));
          }
        }
      }
      assert ast[..|ast|] == ast;
      return output, None;
    }
  }

  lemma Stop(ast: seq<FlatNode>, i: nat)
    requires i < |ast| && Run(Initial, ast[..i + 1]).error.Some?
    ensures Run(Initial, ast) == Run(Initial, ast[..i + 1])
  {
    assert ast[..i + 1] + ast[i + 1..] == ast;
    RunStopped(Initial, ast[..i + 1], ast[i + 1..]);
  }
}

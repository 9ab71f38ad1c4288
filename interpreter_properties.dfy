/** What a run of the interpreter computes and prints. */
module InterpreterProperties {
  import opened Wrappers
  import opened Text
  import opened FlatAst
  import opened Interpreter

  predicate AllBound(operands: seq<string>, store: map<string, int>) {
    forall k :: 0 <= k < |operands| ==> operands[k] in store
  }

  /** The operands' values, in order. */
  function Values(operands: seq<string>, store: map<string, int>): (vs: seq<int>)
    requires AllBound(operands, store)
    ensures |vs| == |operands|
    ensures forall k :: 0 <= k < |operands| ==> vs[k] == store[operands[k]]
  {
    if operands == [] then []
    else [store[operands[0]]] + Values(operands[1..], store)
  }

  function Sum(xs: seq<int>): int {
    if xs == [] then 0 else Sum(xs[..|xs| - 1]) + xs[|xs| - 1]
  }

  lemma ValuesPrefix(operands: seq<string>, store: map<string, int>, n: nat)
    requires AllBound(operands, store) && n <= |operands|
    ensures AllBound(operands[..n], store)
    ensures Values(operands[..n], store) == Values(operands, store)[..n]
  {
  }

  /**
   * With every operand bound, ADD yields the sum of the operands' values and
   * SUBTRACT the first value minus the sum of the others; no operands yield 0.
   */
  lemma {:induction false} AccumulateValue(kind: FlatNodeType, operands: seq<string>, store: map<string, int>)
    requires kind == ADD || kind == SUBTRACT
    requires AllBound(operands, store)
    ensures var vs := Values(operands, store);
      Accumulate(kind, operands, store) ==
        if kind == ADD then Ok(Sum(vs))
        else if vs == [] then Ok(0)
        else Ok(vs[0] - Sum(vs[1..]))
  {
    if operands != [] {
      var n := |operands|;
      var init := operands[..n - 1];
      ValuesPrefix(operands, store, n - 1);
      AccumulateValue(kind, init, store);
      var vs := Values(operands, store);
      assert vs[..n - 1] == Values(init, store);
      if n > 1 {
        assert vs[1..][..n - 2] == vs[..n - 1][1..];
      }
    }
  }

  /**
   * The operand loop fails exactly when some operand is unbound, and then it
   * names the first unbound operand.
   */
  lemma {:induction false} AccumulateFails(kind: FlatNodeType, operands: seq<string>, store: map<string, int>)
    ensures Accumulate(kind, operands, store).Err? <==> !AllBound(operands, store)
    ensures Accumulate(kind, operands, store).Err? ==>
      exists k :: 0 <= k < |operands| && operands[k] !in store && AllBound(operands[..k], store)
        && Accumulate(kind, operands, store).error == UndefinedVariable(operands[k])
  {
    if operands != [] {
      var n := |operands|;
      var init := operands[..n - 1];
      AccumulateFails(kind, init, store);
      if Accumulate(kind, init, store).Err? {
        var k :| 0 <= k < |init| && init[k] !in store && AllBound(init[..k], store)
          && Accumulate(kind, init, store).error == UndefinedVariable(init[k]);
        assert operands[..k] == init[..k];
      } else if operands[n - 1] !in store {
        assert operands[..n - 1] == init;
      } else {
        assert forall k :: 0 <= k < n - 1 ==> operands[k] == init[k];
      }
    }
  }

  /** Every operand is looked up as a name: a number written as an operand is an undefined variable. */
  lemma NumericOperandExample()
    ensures Accumulate(ADD, ["x", "5"], map["x" := 1]) == Err(UndefinedVariable("5"))
  {
    assert ["x", "5"][..1] == ["x"];
    assert ["x"][..0] == [];
  }

  /**
   * A node changes at most the binding of its own name and appends at most
   * the one line a successful PRINT prints; an ASSIGN binds its constant.
   * A PRINT fails exactly on an unbound name, and an ADD or SUBTRACT exactly
   * on an unbound operand, otherwise binding the value of its operand loop.
   */
  lemma StepFrame(s: State, node: FlatNode)
    requires s.error.None?
    ensures var t := StepNode(s, node);
      && (forall x :: x != node.name ==> (x in t.store <==> x in s.store))
      && (forall x :: x != node.name && x in s.store ==> t.store[x] == s.store[x])
      && (node.kind == PRINT || t.error.Some? ==> t.store == s.store)
      && (node.kind == ASSIGN ==> t.store[node.name] == node.value && t.error.None?)
      && (t.output == if node.kind == PRINT && t.error.None? then s.output + [ResultLine(s.store[node.name])] else s.output)
      && (node.kind == PRINT ==> (t.error.Some? <==> node.name !in s.store))
      && (node.kind == PRINT && t.error.Some? ==> t.error == Some(UndefinedVariable(node.name)))
      && (node.kind == ADD || node.kind == SUBTRACT ==>
            (t.error.Some? <==> !AllBound(node.operands, s.store))
            && (t.error.Some? ==> t.error == Some(Accumulate(node.kind, node.operands, s.store).error))
            && (t.error.None? ==> t.store[node.name] == Accumulate(node.kind, node.operands, s.store).value))
  {
    AccumulateFails(node.kind, node.operands, s.store);
  }

  /** A PRINT of a name the store does not hold is the undefined-variable error. */
  lemma PrintUnboundExample()
    ensures StepNode(State(map["x" := 1], [], None), MakeFlatNode(PRINT, "y")) ==
      State(map["x" := 1], [], Some(UndefinedVariable("y")))
  {
  }

  /** Running `a` then `b` is running `a + b`. */
  lemma {:induction false} RunCompose(start: State, a: seq<FlatNode>, b: seq<FlatNode>)
    ensures Run(start, a + b) == Run(Run(start, a), b)
    decreases |b|
  {
    if b == [] {
      assert a + b == a;
    } else {
      var b' := b[..|b| - 1];
      assert (a + b)[..|a + b| - 1] == a + b';
      RunCompose(start, a, b');
    }
  }

  /** The number of PRINT nodes. */
  function PrintCount(nodes: seq<FlatNode>): nat {
    if nodes == [] then 0
    else PrintCount(nodes[..|nodes| - 1]) + (if nodes[|nodes| - 1].kind == PRINT then 1 else 0)
  }

  /**
   * Printed lines are never taken back, and a run that does not fail prints
   * exactly one line per PRINT node.
   */
  lemma {:induction false} OutputGrows(start: State, nodes: seq<FlatNode>)
    requires start.error.None?
    ensures start.output <= Run(start, nodes).output
    ensures Run(start, nodes).error.None? ==> |Run(start, nodes).output| == |start.output| + PrintCount(nodes)
  {
    if nodes != [] {
      var init := nodes[..|nodes| - 1];
      OutputGrows(start, init);
      var s := Run(start, init);
      if s.error.None? {
        StepFrame(s, nodes[|nodes| - 1]);
      }
    }
  }

  /** `let a = 3`, `let b = 4`, `let c = a + b`, `show c` prints `Result: 7`. */
  lemma SumProgramExample()
    ensures Run(Initial, [MakeFlatNode(ASSIGN, "a", 3), MakeFlatNode(ASSIGN, "b", 4), MakeFlatNode(ADD, "c", 0, ["a", "b"]), MakeFlatNode(PRINT, "c")])
      == State(map["a" := 3, "b" := 4, "c" := 7], ["Result: 7"], None)
  {
    var p := [MakeFlatNode(ASSIGN, "a", 3), MakeFlatNode(ASSIGN, "b", 4), MakeFlatNode(ADD, "c", 0, ["a", "b"]), MakeFlatNode(PRINT, "c")];
    var st := map["a" := 3, "b" := 4];
    assert p[..0] == [];
    RunStep(Initial, p, 0);
    RunStep(Initial, p, 1);
    assert Run(Initial, p[..2]) == State(st, [], None);
    RunStep(Initial, p, 2);
    RunStep(Initial, p, 3);
    assert p[..4] == p;
    assert ["a", "b"][..1] == ["a"];
    assert ["a"][..0] == [];
    assert Accumulate(ADD, ["a", "b"], st) == Ok(7);
    assert IntToString(7) == "7";
    assert ResultLine(7) == "Result: 7";
  }

  /** `let c = a + b;` keeps `b;` as an operand name, so the run stops at it. */
  lemma UndefinedOperandExample()
    ensures Run(Initial, [MakeFlatNode(ASSIGN, "a", 3), MakeFlatNode(ASSIGN, "b", 4), MakeFlatNode(ADD, "c", 0, ["a", "b;"]), MakeFlatNode(PRINT, "c")])
      == State(map["a" := 3, "b" := 4], [], Some(UndefinedVariable("b;")))
  {
    var p := [MakeFlatNode(ASSIGN, "a", 3), MakeFlatNode(ASSIGN, "b", 4), MakeFlatNode(ADD, "c", 0, ["a", "b;"]), MakeFlatNode(PRINT, "c")];
    var st := map["a" := 3, "b" := 4];
    assert p[..0] == [];
    RunStep(Initial, p, 0);
    RunStep(Initial, p, 1);
    assert Run(Initial, p[..2]) == State(st, [], None);
    RunStep(Initial, p, 2);
    RunStep(Initial, p, 3);
    assert p[..4] == p;
    assert ["a", "b;"][..1] == ["a"];
    assert ["a"][..0] == [];
    assert Accumulate(ADD, ["a", "b;"], st) == Err(UndefinedVariable("b;"));
  }
}

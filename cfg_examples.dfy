/**
 * The programs of the control-flow-graph tests, written out as the instruction
 * sequences pyquil hands to the builder (`if_then` and `while_do` expanded by
 * hand, their labels named THEN, END and START), with the blocks and edges the
 * builder produces for them and whether the graph is acyclic.
 */
module CfgExamples {
  import opened Quil
  import opened G = ControlFlowGraph
  import Digraph

  lemma ScanSnoc(prog: seq<Instruction>, inst: Instruction)
    ensures Scan(prog + [inst]) == if Scan(prog).Err? then Scan(prog) else Step(Scan(prog).value, inst)
  {
    assert (prog + [inst])[..|prog|] == prog;
  }

  /** The graph of a program, from its scan and its edge list. */
  lemma GraphOf(prog: seq<Instruction>, s: Scanner, es: seq<Edge>)
    requires Scan(prog) == Ok(s)
    requires (forall j | 0 <= j < |Flush(s)| :: WellShaped(Flush(s)[j])) ==>
      EdgesUpTo(Flush(s), s.targets, EmittingBlocks(|Flush(s)|)) == Ok(es)
    ensures G.ControlFlowGraph(prog) == Ok(Cfg(es, Flush(s)))
  {
    BlocksWellShaped(prog);
  }
  /** `H 0; CNOT 0 1`: one block and the root edge only. */
  const SimpleProgram: seq<Instruction> := [Gate([0]), Gate([0, 1])]

  lemma SimpleGraph()
    ensures G.ControlFlowGraph(SimpleProgram) == Ok(Cfg([(Root, Block(0))], [SimpleProgram]))
  {
    StraightLineProgram(SimpleProgram);
  }

  /**
   * Every supported fallthrough kind in a row: the gates H, X, RX, CNOT, CCNOT
   * and a user-defined one, DECLARE, MEASURE, RESET 0, and the classical NEG,
   * AND, ADD, EQ, EXCHANGE, CONVERT, LOAD and STORE. It is one block.
   */
  const AllKindsProgram: seq<Instruction> :=
    [Gate([0]), Gate([1]), Gate([2]), Gate([0, 1]), Gate([0, 1, 2]), Declare("ro"), Measurement(0),
     Gate([0]), ResetQubit(0), Classical(Unary), Classical(LogicalBinary), Classical(ArithmeticBinary),
     Classical(Comparison), Classical(Exchange), Classical(Convert), Classical(Load), Classical(Store)]

  lemma AllKindsGraph()
    ensures G.ControlFlowGraph(AllKindsProgram) == Ok(Cfg([(Root, Block(0))], [AllKindsProgram]))
  {
    StraightLineProgram(AllKindsProgram);
  }

  /**
   * `H 0; CNOT 0 1; DECLARE ro; MEASURE 0 ro` followed by `if_then(ro, X 0, X 1)`,
   * expanded to `JUMP-WHEN @THEN ro; X 1; JUMP @END; LABEL @THEN; X 0; LABEL @END`.
   */
  const IfProgram: seq<Instruction> := [Gate([0]), Gate([0, 1]), Declare("ro"), Measurement(0), JumpConditional("THEN", true), Gate([1]), Jump("END"), JumpTarget("THEN"), Gate([0]), JumpTarget("END")]

  const IfBlocks: seq<BasicBlock> := [[Gate([0]), Gate([0, 1]), Declare("ro"), Measurement(0), JumpConditional("THEN", true)], [Gate([1]), Jump("END")], [JumpTarget("THEN"), Gate([0])], [JumpTarget("END")]]

  const IfEdges: seq<Edge> := [(Root, Block(0)), (Block(0), Block(1)), (Block(0), Block(2)), (Block(1), Block(3)), (Block(2), Block(3))]

  lemma IfScan1()
    ensures Scan([Gate([0]), Gate([0, 1])]) == Ok(Scanner([], [Gate([0]), Gate([0, 1])], map[]))
  {
    var p0: seq<Instruction> := [];
    var p1 := p0 + [Gate([0])];
    assert Scan(p1) == Ok(Scanner([], [Gate([0])], map[])) by {
      ScanSnoc(p0, Gate([0]));
      assert [] + [Gate([0])] == [Gate([0])];
    }
    var p2 := p1 + [Gate([0, 1])];
    assert Scan(p2) == Ok(Scanner([], [Gate([0]), Gate([0, 1])], map[])) by {
      ScanSnoc(p1, Gate([0, 1]));
      assert [Gate([0])] + [Gate([0, 1])] == [Gate([0]), Gate([0, 1])];
    }
    assert p2 == [Gate([0]), Gate([0, 1])];
  }

  lemma IfScan2()
    ensures Scan([Gate([0]), Gate([0, 1]), Declare("ro"), Measurement(0)]) == Ok(Scanner([], [Gate([0]), Gate([0, 1]), Declare("ro"), Measurement(0)], map[]))
  {
    IfScan1();
    var p2: seq<Instruction> := [Gate([0]), Gate([0, 1])];
    var p3 := p2 + [Declare("ro")];
    assert Scan(p3) == Ok(Scanner([], [Gate([0]), Gate([0, 1]), Declare("ro")], map[])) by {
      ScanSnoc(p2, Declare("ro"));
      assert [Gate([0]), Gate([0, 1])] + [Declare("ro")] == [Gate([0]), Gate([0, 1]), Declare("ro")];
    }
    var p4 := p3 + [Measurement(0)];
    assert Scan(p4) == Ok(Scanner([], [Gate([0]), Gate([0, 1]), Declare("ro"), Measurement(0)], map[])) by {
      ScanSnoc(p3, Measurement(0));
      assert [Gate([0]), Gate([0, 1]), Declare("ro")] + [Measurement(0)] == [Gate([0]), Gate([0, 1]), Declare("ro"), Measurement(0)];
    }
    assert p4 == [Gate([0]), Gate([0, 1]), Declare("ro"), Measurement(0)];
  }

  lemma IfScan3()
    ensures Scan([Gate([0]), Gate([0, 1]), Declare("ro"), Measurement(0), JumpConditional("THEN", true), Gate([1])]) == Ok(Scanner([[Gate([0]), Gate([0, 1]), Declare("ro"), Measurement(0), JumpConditional("THEN", true)]], [Gate([1])], map[]))
  {
    IfScan2();
    var p4: seq<Instruction> := [Gate([0]), Gate([0, 1]), Declare("ro"), Measurement(0)];
    var p5 := p4 + [JumpConditional("THEN", true)];
    assert Scan(p5) == Ok(Scanner([[Gate([0]), Gate([0, 1]), Declare("ro"), Measurement(0), JumpConditional("THEN", true)]], [], map[])) by {
      ScanSnoc(p4, JumpConditional("THEN", true));
      assert [Gate([0]), Gate([0, 1]), Declare("ro"), Measurement(0)] + [JumpConditional("THEN", true)] == [Gate([0]), Gate([0, 1]), Declare("ro"), Measurement(0), JumpConditional("THEN", true)];
      assert [] + [[Gate([0]), Gate([0, 1]), Declare("ro"), Measurement(0), JumpConditional("THEN", true)]] == [[Gate([0]), Gate([0, 1]), Declare("ro"), Measurement(0), JumpConditional("THEN", true)]];
    }
    var p6 := p5 + [Gate([1])];
    assert Scan(p6) == Ok(Scanner([[Gate([0]), Gate([0, 1]), Declare("ro"), Measurement(0), JumpConditional("THEN", true)]], [Gate([1])], map[])) by {
      ScanSnoc(p5, Gate([1]));
      assert [] + [Gate([1])] == [Gate([1])];
    }
    assert p6 == [Gate([0]), Gate([0, 1]), Declare("ro"), Measurement(0), JumpConditional("THEN", true), Gate([1])];
  }

  lemma IfScan4()
    ensures Scan([Gate([0]), Gate([0, 1]), Declare("ro"), Measurement(0), JumpConditional("THEN", true), Gate([1]), Jump("END"), JumpTarget("THEN")]) == Ok(Scanner([[Gate([0]), Gate([0, 1]), Declare("ro"), Measurement(0), JumpConditional("THEN", true)], [Gate([1]), Jump("END")]], [JumpTarget("THEN")], map["THEN" := 2]))
  {
    IfScan3();
    var p6: seq<Instruction> := [Gate([0]), Gate([0, 1]), Declare("ro"), Measurement(0), JumpConditional("THEN", true), Gate([1])];
    var p7 := p6 + [Jump("END")];
    assert Scan(p7) == Ok(Scanner([[Gate([0]), Gate([0, 1]), Declare("ro"), Measurement(0), JumpConditional("THEN", true)], [Gate([1]), Jump("END")]], [], map[])) by {
      ScanSnoc(p6, Jump("END"));
      assert [Gate([1])] + [Jump("END")] == [Gate([1]), Jump("END")];
      assert [[Gate([0]), Gate([0, 1]), Declare("ro"), Measurement(0), JumpConditional("THEN", true)]] + [[Gate([1]), Jump("END")]] == [[Gate([0]), Gate([0, 1]), Declare("ro"), Measurement(0), JumpConditional("THEN", true)], [Gate([1]), Jump("END")]];
    }
    var p8 := p7 + [JumpTarget("THEN")];
    assert Scan(p8) == Ok(Scanner([[Gate([0]), Gate([0, 1]), Declare("ro"), Measurement(0), JumpConditional("THEN", true)], [Gate([1]), Jump("END")]], [JumpTarget("THEN")], map["THEN" := 2])) by {
      ScanSnoc(p7, JumpTarget("THEN"));
    }
    assert p8 == [Gate([0]), Gate([0, 1]), Declare("ro"), Measurement(0), JumpConditional("THEN", true), Gate([1]), Jump("END"), JumpTarget("THEN")];
  }

  /** How the partitioning pass cuts `IfProgram`. */
  lemma IfScan()
    ensures Scan(IfProgram) == Ok(Scanner([[Gate([0]), Gate([0, 1]), Declare("ro"), Measurement(0), JumpConditional("THEN", true)], [Gate([1]), Jump("END")], [JumpTarget("THEN"), Gate([0])]], [JumpTarget("END")], map["THEN" := 2, "END" := 3]))
  {
    IfScan4();
    var p8: seq<Instruction> := [Gate([0]), Gate([0, 1]), Declare("ro"), Measurement(0), JumpConditional("THEN", true), Gate([1]), Jump("END"), JumpTarget("THEN")];
    var p9 := p8 + [Gate([0])];
    assert Scan(p9) == Ok(Scanner([[Gate([0]), Gate([0, 1]), Declare("ro"), Measurement(0), JumpConditional("THEN", true)], [Gate([1]), Jump("END")]], [JumpTarget("THEN"), Gate([0])], map["THEN" := 2])) by {
      ScanSnoc(p8, Gate([0]));
      assert [JumpTarget("THEN")] + [Gate([0])] == [JumpTarget("THEN"), Gate([0])];
    }
    var p10 := p9 + [JumpTarget("END")];
    assert Scan(p10) == Ok(Scanner([[Gate([0]), Gate([0, 1]), Declare("ro"), Measurement(0), JumpConditional("THEN", true)], [Gate([1]), Jump("END")], [JumpTarget("THEN"), Gate([0])]], [JumpTarget("END")], map["THEN" := 2, "END" := 3])) by {
      ScanSnoc(p9, JumpTarget("END"));
      assert [[Gate([0]), Gate([0, 1]), Declare("ro"), Measurement(0), JumpConditional("THEN", true)], [Gate([1]), Jump("END")]] + [[JumpTarget("THEN"), Gate([0])]] == [[Gate([0]), Gate([0, 1]), Declare("ro"), Measurement(0), JumpConditional("THEN", true)], [Gate([1]), Jump("END")], [JumpTarget("THEN"), Gate([0])]];
    }
    assert p10 == IfProgram;
  }

  /** The edge loop over the blocks of `IfProgram`. */
  lemma IfEdgeList()
    requires forall j | 0 <= j < |IfBlocks| :: WellShaped(IfBlocks[j])
    ensures EdgesUpTo(IfBlocks, map["THEN" := 2, "END" := 3], 3) == Ok(IfEdges)
  {
    var targets := map["THEN" := 2, "END" := 3];
    assert EdgesUpTo(IfBlocks, targets, 0) == Ok([(Root, Block(0))]);
    assert Last(IfBlocks[0]) == JumpConditional("THEN", true);
    assert BlockEdges(IfBlocks, targets, 0) == Ok([(Block(0), Block(1)), (Block(0), Block(2))]);
    assert [(Root, Block(0))] + [(Block(0), Block(1)), (Block(0), Block(2))] == [(Root, Block(0)), (Block(0), Block(1)), (Block(0), Block(2))];
    assert EdgesUpTo(IfBlocks, targets, 1) == Ok([(Root, Block(0)), (Block(0), Block(1)), (Block(0), Block(2))]);
    assert Last(IfBlocks[1]) == Jump("END");
    assert BlockEdges(IfBlocks, targets, 1) == Ok([(Block(1), Block(3))]);
    assert [(Root, Block(0)), (Block(0), Block(1)), (Block(0), Block(2))] + [(Block(1), Block(3))] == [(Root, Block(0)), (Block(0), Block(1)), (Block(0), Block(2)), (Block(1), Block(3))];
    assert EdgesUpTo(IfBlocks, targets, 2) == Ok([(Root, Block(0)), (Block(0), Block(1)), (Block(0), Block(2)), (Block(1), Block(3))]);
    assert Last(IfBlocks[2]) == Gate([0]);
    assert BlockEdges(IfBlocks, targets, 2) == Ok([(Block(2), Block(3))]);
    assert [(Root, Block(0)), (Block(0), Block(1)), (Block(0), Block(2)), (Block(1), Block(3))] + [(Block(2), Block(3))] == [(Root, Block(0)), (Block(0), Block(1)), (Block(0), Block(2)), (Block(1), Block(3)), (Block(2), Block(3))];
    assert EdgesUpTo(IfBlocks, targets, 3) == Ok([(Root, Block(0)), (Block(0), Block(1)), (Block(0), Block(2)), (Block(1), Block(3)), (Block(2), Block(3))]);
  }

  /** The blocks and the edge list of `IfProgram`. */
  lemma IfGraph()
    ensures G.ControlFlowGraph(IfProgram) == Ok(Cfg(IfEdges, IfBlocks))
  {
    IfScan();
    var s := Scanner([[Gate([0]), Gate([0, 1]), Declare("ro"), Measurement(0), JumpConditional("THEN", true)], [Gate([1]), Jump("END")], [JumpTarget("THEN"), Gate([0])]], [JumpTarget("END")], map["THEN" := 2, "END" := 3]);
    assert Flush(s) == IfBlocks;
    if forall j | 0 <= j < |IfBlocks| :: WellShaped(IfBlocks[j]) {
      IfEdgeList();
    }
    GraphOf(IfProgram, s, IfEdges);
  }

  /**
   * The same prefix followed by `while_do(ro, X 1; MEASURE 0 ro)`, expanded to
   * `LABEL @START; JUMP-UNLESS @END ro; X 1; MEASURE 0 ro; JUMP @START; LABEL @END`.
   */
  const WhileProgram: seq<Instruction> := [Gate([0]), Gate([0, 1]), Declare("ro"), Measurement(0), JumpTarget("START"), JumpConditional("END", false), Gate([1]), Measurement(0), Jump("START"), JumpTarget("END")]

  const WhileBlocks: seq<BasicBlock> := [[Gate([0]), Gate([0, 1]), Declare("ro"), Measurement(0)], [JumpTarget("START"), JumpConditional("END", false)], [Gate([1]), Measurement(0), Jump("START")], [JumpTarget("END")]]

  const WhileEdges: seq<Edge> := [(Root, Block(0)), (Block(0), Block(1)), (Block(1), Block(2)), (Block(1), Block(3)), (Block(2), Block(1))]

  lemma WhileScan3()
    ensures Scan([Gate([0]), Gate([0, 1]), Declare("ro"), Measurement(0), JumpTarget("START"), JumpConditional("END", false)]) == Ok(Scanner([[Gate([0]), Gate([0, 1]), Declare("ro"), Measurement(0)], [JumpTarget("START"), JumpConditional("END", false)]], [], map["START" := 1]))
  {
    IfScan2();  // the same four instructions open both programs
    var p4: seq<Instruction> := [Gate([0]), Gate([0, 1]), Declare("ro"), Measurement(0)];
    var p5 := p4 + [JumpTarget("START")];
    assert Scan(p5) == Ok(Scanner([[Gate([0]), Gate([0, 1]), Declare("ro"), Measurement(0)]], [JumpTarget("START")], map["START" := 1])) by {
      ScanSnoc(p4, JumpTarget("START"));
      assert [] + [[Gate([0]), Gate([0, 1]), Declare("ro"), Measurement(0)]] == [[Gate([0]), Gate([0, 1]), Declare("ro"), Measurement(0)]];
    }
    var p6 := p5 + [JumpConditional("END", false)];
    assert Scan(p6) == Ok(Scanner([[Gate([0]), Gate([0, 1]), Declare("ro"), Measurement(0)], [JumpTarget("START"), JumpConditional("END", false)]], [], map["START" := 1])) by {
      ScanSnoc(p5, JumpConditional("END", false));
      assert [JumpTarget("START")] + [JumpConditional("END", false)] == [JumpTarget("START"), JumpConditional("END", false)];
      assert [[Gate([0]), Gate([0, 1]), Declare("ro"), Measurement(0)]] + [[JumpTarget("START"), JumpConditional("END", false)]] == [[Gate([0]), Gate([0, 1]), Declare("ro"), Measurement(0)], [JumpTarget("START"), JumpConditional("END", false)]];
    }
    assert p6 == [Gate([0]), Gate([0, 1]), Declare("ro"), Measurement(0), JumpTarget("START"), JumpConditional("END", false)];
  }

  lemma WhileScan4()
    ensures Scan([Gate([0]), Gate([0, 1]), Declare("ro"), Measurement(0), JumpTarget("START"), JumpConditional("END", false), Gate([1]), Measurement(0)]) == Ok(Scanner([[Gate([0]), Gate([0, 1]), Declare("ro"), Measurement(0)], [JumpTarget("START"), JumpConditional("END", false)]], [Gate([1]), Measurement(0)], map["START" := 1]))
  {
    WhileScan3();
    var p6: seq<Instruction> := [Gate([0]), Gate([0, 1]), Declare("ro"), Measurement(0), JumpTarget("START"), JumpConditional("END", false)];
    var p7 := p6 + [Gate([1])];
    assert Scan(p7) == Ok(Scanner([[Gate([0]), Gate([0, 1]), Declare("ro"), Measurement(0)], [JumpTarget("START"), JumpConditional("END", false)]], [Gate([1])], map["START" := 1])) by {
      ScanSnoc(p6, Gate([1]));
      assert [] + [Gate([1])] == [Gate([1])];
    }
    var p8 := p7 + [Measurement(0)];
    assert Scan(p8) == Ok(Scanner([[Gate([0]), Gate([0, 1]), Declare("ro"), Measurement(0)], [JumpTarget("START"), JumpConditional("END", false)]], [Gate([1]), Measurement(0)], map["START" := 1])) by {
      ScanSnoc(p7, Measurement(0));
      assert [Gate([1])] + [Measurement(0)] == [Gate([1]), Measurement(0)];
    }
    assert p8 == [Gate([0]), Gate([0, 1]), Declare("ro"), Measurement(0), JumpTarget("START"), JumpConditional("END", false), Gate([1]), Measurement(0)];
  }

  /** How the partitioning pass cuts `WhileProgram`. */
  lemma WhileScan()
    ensures Scan(WhileProgram) == Ok(Scanner([[Gate([0]), Gate([0, 1]), Declare("ro"), Measurement(0)], [JumpTarget("START"), JumpConditional("END", false)], [Gate([1]), Measurement(0), Jump("START")]], [JumpTarget("END")], map["START" := 1, "END" := 3]))
  {
    WhileScan4();
    var p8: seq<Instruction> := [Gate([0]), Gate([0, 1]), Declare("ro"), Measurement(0), JumpTarget("START"), JumpConditional("END", false), Gate([1]), Measurement(0)];
    var p9 := p8 + [Jump("START")];
    assert Scan(p9) == Ok(Scanner([[Gate([0]), Gate([0, 1]), Declare("ro"), Measurement(0)], [JumpTarget("START"), JumpConditional("END", false)], [Gate([1]), Measurement(0), Jump("START")]], [], map["START" := 1])) by {
      ScanSnoc(p8, Jump("START"));
      assert [Gate([1]), Measurement(0)] + [Jump("START")] == [Gate([1]), Measurement(0), Jump("START")];
      assert [[Gate([0]), Gate([0, 1]), Declare("ro"), Measurement(0)], [JumpTarget("START"), JumpConditional("END", false)]] + [[Gate([1]), Measurement(0), Jump("START")]] == [[Gate([0]), Gate([0, 1]), Declare("ro"), Measurement(0)], [JumpTarget("START"), JumpConditional("END", false)], [Gate([1]), Measurement(0), Jump("START")]];
    }
    var p10 := p9 + [JumpTarget("END")];
    assert Scan(p10) == Ok(Scanner([[Gate([0]), Gate([0, 1]), Declare("ro"), Measurement(0)], [JumpTarget("START"), JumpConditional("END", false)], [Gate([1]), Measurement(0), Jump("START")]], [JumpTarget("END")], map["START" := 1, "END" := 3])) by {
      ScanSnoc(p9, JumpTarget("END"));
    }
    assert p10 == WhileProgram;
  }

  /** The edge loop over the blocks of `WhileProgram`. */
  lemma WhileEdgeList()
    requires forall j | 0 <= j < |WhileBlocks| :: WellShaped(WhileBlocks[j])
    ensures EdgesUpTo(WhileBlocks, map["START" := 1, "END" := 3], 3) == Ok(WhileEdges)
  {
    var targets := map["START" := 1, "END" := 3];
    assert EdgesUpTo(WhileBlocks, targets, 0) == Ok([(Root, Block(0))]);
    assert Last(WhileBlocks[0]) == Measurement(0);
    assert BlockEdges(WhileBlocks, targets, 0) == Ok([(Block(0), Block(1))]);
    assert [(Root, Block(0))] + [(Block(0), Block(1))] == [(Root, Block(0)), (Block(0), Block(1))];
    assert EdgesUpTo(WhileBlocks, targets, 1) == Ok([(Root, Block(0)), (Block(0), Block(1))]);
    assert Last(WhileBlocks[1]) == JumpConditional("END", false);
    assert BlockEdges(WhileBlocks, targets, 1) == Ok([(Block(1), Block(2)), (Block(1), Block(3))]);
    assert [(Root, Block(0)), (Block(0), Block(1))] + [(Block(1), Block(2)), (Block(1), Block(3))] == [(Root, Block(0)), (Block(0), Block(1)), (Block(1), Block(2)), (Block(1), Block(3))];
    assert EdgesUpTo(WhileBlocks, targets, 2) == Ok([(Root, Block(0)), (Block(0), Block(1)), (Block(1), Block(2)), (Block(1), Block(3))]);
    assert Last(WhileBlocks[2]) == Jump("START");
    assert BlockEdges(WhileBlocks, targets, 2) == Ok([(Block(2), Block(1))]);
    assert [(Root, Block(0)), (Block(0), Block(1)), (Block(1), Block(2)), (Block(1), Block(3))] + [(Block(2), Block(1))] == [(Root, Block(0)), (Block(0), Block(1)), (Block(1), Block(2)), (Block(1), Block(3)), (Block(2), Block(1))];
    assert EdgesUpTo(WhileBlocks, targets, 3) == Ok([(Root, Block(0)), (Block(0), Block(1)), (Block(1), Block(2)), (Block(1), Block(3)), (Block(2), Block(1))]);
  }

  /** The blocks and the edge list of `WhileProgram`. */
  lemma WhileGraph()
    ensures G.ControlFlowGraph(WhileProgram) == Ok(Cfg(WhileEdges, WhileBlocks))
  {
    WhileScan();
    var s := Scanner([[Gate([0]), Gate([0, 1]), Declare("ro"), Measurement(0)], [JumpTarget("START"), JumpConditional("END", false)], [Gate([1]), Measurement(0), Jump("START")]], [JumpTarget("END")], map["START" := 1, "END" := 3]);
    assert Flush(s) == WhileBlocks;
    if forall j | 0 <= j < |WhileBlocks| :: WellShaped(WhileBlocks[j]) {
      WhileEdgeList();
    }
    GraphOf(WhileProgram, s, WhileEdges);
  }

  /**
   * `H 0; DECLARE ro; MEASURE 0 ro`, `if_then(ro, HALT)` with an empty else branch,
   * then `X 0`. The jump over the empty else branch forms a block of its own,
   * and HALT leaves no edge.
   */
  const HaltProgram: seq<Instruction> := [Gate([0]), Declare("ro"), Measurement(0), JumpConditional("THEN", true), Jump("END"), JumpTarget("THEN"), Halt, JumpTarget("END"), Gate([0])]

  const HaltBlocks: seq<BasicBlock> := [[Gate([0]), Declare("ro"), Measurement(0), JumpConditional("THEN", true)], [Jump("END")], [JumpTarget("THEN"), Halt], [JumpTarget("END"), Gate([0])]]

  const HaltEdges: seq<Edge> := [(Root, Block(0)), (Block(0), Block(1)), (Block(0), Block(2)), (Block(1), Block(3))]

  lemma HaltScan1()
    ensures Scan([Gate([0]), Declare("ro")]) == Ok(Scanner([], [Gate([0]), Declare("ro")], map[]))
  {
    var p0: seq<Instruction> := [];
    var p1 := p0 + [Gate([0])];
    assert Scan(p1) == Ok(Scanner([], [Gate([0])], map[])) by {
      ScanSnoc(p0, Gate([0]));
      assert [] + [Gate([0])] == [Gate([0])];
    }
    var p2 := p1 + [Declare("ro")];
    assert Scan(p2) == Ok(Scanner([], [Gate([0]), Declare("ro")], map[])) by {
      ScanSnoc(p1, Declare("ro"));
      assert [Gate([0])] + [Declare("ro")] == [Gate([0]), Declare("ro")];
    }
    assert p2 == [Gate([0]), Declare("ro")];
  }

  lemma HaltScan2()
    ensures Scan([Gate([0]), Declare("ro"), Measurement(0), JumpConditional("THEN", true)]) == Ok(Scanner([[Gate([0]), Declare("ro"), Measurement(0), JumpConditional("THEN", true)]], [], map[]))
  {
    HaltScan1();
    var p2: seq<Instruction> := [Gate([0]), Declare("ro")];
    var p3 := p2 + [Measurement(0)];
    assert Scan(p3) == Ok(Scanner([], [Gate([0]), Declare("ro"), Measurement(0)], map[])) by {
      ScanSnoc(p2, Measurement(0));
      assert [Gate([0]), Declare("ro")] + [Measurement(0)] == [Gate([0]), Declare("ro"), Measurement(0)];
    }
    var p4 := p3 + [JumpConditional("THEN", true)];
    assert Scan(p4) == Ok(Scanner([[Gate([0]), Declare("ro"), Measurement(0), JumpConditional("THEN", true)]], [], map[])) by {
      ScanSnoc(p3, JumpConditional("THEN", true));
      assert [Gate([0]), Declare("ro"), Measurement(0)] + [JumpConditional("THEN", true)] == [Gate([0]), Declare("ro"), Measurement(0), JumpConditional("THEN", true)];
      assert [] + [[Gate([0]), Declare("ro"), Measurement(0), JumpConditional("THEN", true)]] == [[Gate([0]), Declare("ro"), Measurement(0), JumpConditional("THEN", true)]];
    }
    assert p4 == [Gate([0]), Declare("ro"), Measurement(0), JumpConditional("THEN", true)];
  }

  lemma HaltScan3()
    ensures Scan([Gate([0]), Declare("ro"), Measurement(0), JumpConditional("THEN", true), Jump("END"), JumpTarget("THEN")]) == Ok(Scanner([[Gate([0]), Declare("ro"), Measurement(0), JumpConditional("THEN", true)], [Jump("END")]], [JumpTarget("THEN")], map["THEN" := 2]))
  {
    HaltScan2();
    var p4: seq<Instruction> := [Gate([0]), Declare("ro"), Measurement(0), JumpConditional("THEN", true)];
    var p5 := p4 + [Jump("END")];
    assert Scan(p5) == Ok(Scanner([[Gate([0]), Declare("ro"), Measurement(0), JumpConditional("THEN", true)], [Jump("END")]], [], map[])) by {
      ScanSnoc(p4, Jump("END"));
      assert [] + [Jump("END")] == [Jump("END")];
      assert [[Gate([0]), Declare("ro"), Measurement(0), JumpConditional("THEN", true)]] + [[Jump("END")]] == [[Gate([0]), Declare("ro"), Measurement(0), JumpConditional("THEN", true)], [Jump("END")]];
    }
    var p6 := p5 + [JumpTarget("THEN")];
    assert Scan(p6) == Ok(Scanner([[Gate([0]), Declare("ro"), Measurement(0), JumpConditional("THEN", true)], [Jump("END")]], [JumpTarget("THEN")], map["THEN" := 2])) by {
      ScanSnoc(p5, JumpTarget("THEN"));
    }
    assert p6 == [Gate([0]), Declare("ro"), Measurement(0), JumpConditional("THEN", true), Jump("END"), JumpTarget("THEN")];
  }

  lemma HaltScan4()
    ensures Scan([Gate([0]), Declare("ro"), Measurement(0), JumpConditional("THEN", true), Jump("END"), JumpTarget("THEN"), Halt, JumpTarget("END")]) == Ok(Scanner([[Gate([0]), Declare("ro"), Measurement(0), JumpConditional("THEN", true)], [Jump("END")], [JumpTarget("THEN"), Halt]], [JumpTarget("END")], map["THEN" := 2, "END" := 3]))
  {
    HaltScan3();
    var p6: seq<Instruction> := [Gate([0]), Declare("ro"), Measurement(0), JumpConditional("THEN", true), Jump("END"), JumpTarget("THEN")];
    var p7 := p6 + [Halt];
    assert Scan(p7) == Ok(Scanner([[Gate([0]), Declare("ro"), Measurement(0), JumpConditional("THEN", true)], [Jump("END")], [JumpTarget("THEN"), Halt]], [], map["THEN" := 2])) by {
      ScanSnoc(p6, Halt);
      assert [JumpTarget("THEN")] + [Halt] == [JumpTarget("THEN"), Halt];
      assert [[Gate([0]), Declare("ro"), Measurement(0), JumpConditional("THEN", true)], [Jump("END")]] + [[JumpTarget("THEN"), Halt]] == [[Gate([0]), Declare("ro"), Measurement(0), JumpConditional("THEN", true)], [Jump("END")], [JumpTarget("THEN"), Halt]];
    }
    var p8 := p7 + [JumpTarget("END")];
    assert Scan(p8) == Ok(Scanner([[Gate([0]), Declare("ro"), Measurement(0), JumpConditional("THEN", true)], [Jump("END")], [JumpTarget("THEN"), Halt]], [JumpTarget("END")], map["THEN" := 2, "END" := 3])) by {
      ScanSnoc(p7, JumpTarget("END"));
    }
    assert p8 == [Gate([0]), Declare("ro"), Measurement(0), JumpConditional("THEN", true), Jump("END"), JumpTarget("THEN"), Halt, JumpTarget("END")];
  }

  /** How the partitioning pass cuts `HaltProgram`. */
  lemma HaltScan()
    ensures Scan(HaltProgram) == Ok(Scanner([[Gate([0]), Declare("ro"), Measurement(0), JumpConditional("THEN", true)], [Jump("END")], [JumpTarget("THEN"), Halt]], [JumpTarget("END"), Gate([0])], map["THEN" := 2, "END" := 3]))
  {
    HaltScan4();
    var p8: seq<Instruction> := [Gate([0]), Declare("ro"), Measurement(0), JumpConditional("THEN", true), Jump("END"), JumpTarget("THEN"), Halt, JumpTarget("END")];
    var p9 := p8 + [Gate([0])];
    assert Scan(p9) == Ok(Scanner([[Gate([0]), Declare("ro"), Measurement(0), JumpConditional("THEN", true)], [Jump("END")], [JumpTarget("THEN"), Halt]], [JumpTarget("END"), Gate([0])], map["THEN" := 2, "END" := 3])) by {
      ScanSnoc(p8, Gate([0]));
      assert [JumpTarget("END")] + [Gate([0])] == [JumpTarget("END"), Gate([0])];
    }
    assert p9 == HaltProgram;
  }

  /** The edge loop over the blocks of `HaltProgram`. */
  lemma HaltEdgeList()
    requires forall j | 0 <= j < |HaltBlocks| :: WellShaped(HaltBlocks[j])
    ensures EdgesUpTo(HaltBlocks, map["THEN" := 2, "END" := 3], 3) == Ok(HaltEdges)
  {
    var targets := map["THEN" := 2, "END" := 3];
    assert EdgesUpTo(HaltBlocks, targets, 0) == Ok([(Root, Block(0))]);
    assert Last(HaltBlocks[0]) == JumpConditional("THEN", true);
    assert BlockEdges(HaltBlocks, targets, 0) == Ok([(Block(0), Block(1)), (Block(0), Block(2))]);
    assert [(Root, Block(0))] + [(Block(0), Block(1)), (Block(0), Block(2))] == [(Root, Block(0)), (Block(0), Block(1)), (Block(0), Block(2))];
    assert EdgesUpTo(HaltBlocks, targets, 1) == Ok([(Root, Block(0)), (Block(0), Block(1)), (Block(0), Block(2))]);
    assert Last(HaltBlocks[1]) == Jump("END");
    assert BlockEdges(HaltBlocks, targets, 1) == Ok([(Block(1), Block(3))]);
    assert [(Root, Block(0)), (Block(0), Block(1)), (Block(0), Block(2))] + [(Block(1), Block(3))] == [(Root, Block(0)), (Block(0), Block(1)), (Block(0), Block(2)), (Block(1), Block(3))];
    assert EdgesUpTo(HaltBlocks, targets, 2) == Ok([(Root, Block(0)), (Block(0), Block(1)), (Block(0), Block(2)), (Block(1), Block(3))]);
    assert Last(HaltBlocks[2]) == Halt;
    assert BlockEdges(HaltBlocks, targets, 2) == Ok([]);
    assert [(Root, Block(0)), (Block(0), Block(1)), (Block(0), Block(2)), (Block(1), Block(3))] + [] == [(Root, Block(0)), (Block(0), Block(1)), (Block(0), Block(2)), (Block(1), Block(3))];
    assert EdgesUpTo(HaltBlocks, targets, 3) == Ok([(Root, Block(0)), (Block(0), Block(1)), (Block(0), Block(2)), (Block(1), Block(3))]);
  }

  /** The blocks and the edge list of `HaltProgram`. */
  lemma HaltGraph()
    ensures G.ControlFlowGraph(HaltProgram) == Ok(Cfg(HaltEdges, HaltBlocks))
  {
    HaltScan();
    var s := Scanner([[Gate([0]), Declare("ro"), Measurement(0), JumpConditional("THEN", true)], [Jump("END")], [JumpTarget("THEN"), Halt]], [JumpTarget("END"), Gate([0])], map["THEN" := 2, "END" := 3]);
    assert Flush(s) == HaltBlocks;
    if forall j | 0 <= j < |HaltBlocks| :: WellShaped(HaltBlocks[j]) {
      HaltEdgeList();
    }
    GraphOf(HaltProgram, s, HaltEdges);
  }

  // ---------------------------------------------------------------------------
  // Acyclicity

  lemma SimpleIsDag()
    ensures IsDag(SimpleProgram) == Ok(true)
  {
    SimpleGraph();
    Digraph.RankedIsAcyclic([(Root, Block(0))], NodeRank);
  }

  /** Both branches of the `if` meet again at the END block: still a DAG. */
  lemma IfIsDag()
    ensures IsDag(IfProgram) == Ok(true)
  {
    IfGraph();
    Digraph.RankedIsAcyclic(IfEdges, NodeRank);
  }

  /** The loop body jumps back to the START block: the graph has a cycle. */
  lemma WhileIsNotDag()
    ensures IsDag(WhileProgram) == Ok(false)
  {
    WhileGraph();
    assert WhileEdges[2] == (Block(1), Block(2)) && WhileEdges[4] == (Block(2), Block(1));
    assert Digraph.IsCycle(WhileEdges, [Block(1), Block(2), Block(1)]);
  }

  lemma AllKindsIsDag()
    ensures IsDag(AllKindsProgram) == Ok(true)
  {
    AllKindsGraph();
    Digraph.RankedIsAcyclic([(Root, Block(0))], NodeRank);
  }

  lemma HaltIsDag()
    ensures IsDag(HaltProgram) == Ok(true)
  {
    HaltGraph();
    Digraph.RankedIsAcyclic(HaltEdges, NodeRank);
  }

  // ---------------------------------------------------------------------------
  // Failures

  /** WAIT is not a supported instruction: the builder raises on it. */
  lemma WaitIsUnhandled()
    ensures G.ControlFlowGraph([Gate([0]), Other("WAIT")]) == Err(UnhandledInstruction(Other("WAIT")))
  {
    StraightLineScan([Gate([0])]);
    ScanSnoc([Gate([0])], Other("WAIT"));
    assert [Gate([0])] + [Other("WAIT")] == [Gate([0]), Other("WAIT")];
  }

  /** A jump to a label the program never defines raises a lookup error. */
  lemma MissingLabelIsUnknown()
    ensures G.ControlFlowGraph([Jump("NOWHERE"), Gate([0])]) == Err(UnknownLabel("NOWHERE"))
  {
    var p := [Jump("NOWHERE"), Gate([0])];
    ScanSnoc([], Jump("NOWHERE"));
    assert [] + [Jump("NOWHERE")] == [Jump("NOWHERE")];
    var none: seq<BasicBlock> := [];
    assert none + [[Jump("NOWHERE")]] == [[Jump("NOWHERE")]];
    assert Scan([Jump("NOWHERE")]) == Ok(Scanner([[Jump("NOWHERE")]], [], map[]));
    ScanSnoc([Jump("NOWHERE")], Gate([0]));
    assert [Jump("NOWHERE")] + [Gate([0])] == p;
    assert [] + [Gate([0])] == [Gate([0])];
    assert Scan(p) == Ok(Scanner([[Jump("NOWHERE")]], [Gate([0])], map[]));
    BlocksWellShaped(p);
    var bs := [[Jump("NOWHERE")], [Gate([0])]];
    assert Flush(Scan(p).value) == bs;
    assert Last(bs[0]) == Jump("NOWHERE");
    assert EdgesUpTo(bs, map[], 1) == Err(UnknownLabel("NOWHERE"));
  }

  /**
   * The last block emits no edges, so a jump to a missing label there goes
   * unnoticed.
   */
  lemma FinalJumpIsNotResolved()
    ensures G.ControlFlowGraph([Gate([0]), Jump("NOWHERE")]) == Ok(Cfg([(Root, Block(0))], [[Gate([0]), Jump("NOWHERE")]]))
  {
    var p := [Gate([0]), Jump("NOWHERE")];
    StraightLineScan([Gate([0])]);
    ScanSnoc([Gate([0])], Jump("NOWHERE"));
    assert [Gate([0])] + [Jump("NOWHERE")] == p;
    assert [] + [p] == [p];
    assert Scan(p) == Ok(Scanner([p], [], map[]));
  }
}

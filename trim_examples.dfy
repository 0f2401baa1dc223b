/**
 * The programs of the trimming tests written out as instruction sequences
 * (`if_then` expanded by hand, its labels named THEN and END), and two small
 * programs that show what the single pass of the entangling loop reaches and
 * what the intended fixed point reaches instead.
 */
module TrimExamples {
  import opened Quil
  import opened Qdb

  /** `H 0; CNOT 0 1; CNOT 1 2` and a breakpoint on qubits 0, 1 and 2. */
  const BasicProgram: seq<Instruction> := [Gate([0]), Gate([0, 1]), Gate([1, 2]), Breakpoint([0, 1, 2])]

  /** Every gate meets the breakpoint's qubits, so trimming returns the program unchanged. */
  lemma BasicUnchanged()
    ensures Trimmed(BasicProgram) == Ok(BasicProgram)
  {
    var p := BasicProgram;
    SoleBreakpoint(p, 3);
    var seed := SetOf([0, 1, 2]);
    EntangleBounds(p, seed);
    var f := Entangle(p, seed);
    forall k | 0 <= k < |p| ensures Keeps(f, p[k]) {
      if k < 3 {
        assert p[k].qubits[0] in GateQubits(p[k]) * f;
      }
    }
    FilterKeepsAll(p, f);
  }

  /** The instructions up to and including the else branch's `X 1`. */
  const EntangledHead: seq<Instruction> :=
    [Gate([0]), Gate([0, 1]), Gate([1, 2]), Declare("ro"), Measurement(0), JumpConditional("THEN", true), Gate([1])]

  /** From the jump over the then branch to the then branch's `X 0`. */
  const EntangledMiddle: seq<Instruction> := [Jump("END"), JumpTarget("THEN"), Gate([0])]

  const EntangledTail: seq<Instruction> := [JumpTarget("END"), Breakpoint([0, 1, 2])]

  /**
   * `H 0; CNOT 0 1; CNOT 1 2; DECLARE ro; MEASURE 0 ro`, then
   * `if_then(ro, X 0; H 3, X 1; CZ 3 4)` and a breakpoint on qubits 0, 1 and 2.
   */
  const EntangledProgram: seq<Instruction> :=
    EntangledHead + [Gate([3, 4])] + EntangledMiddle + [Gate([3])] + EntangledTail

  /** The same program built with `if_then(ro, X 0, X 1)`. */
  const EntangledTrimmed: seq<Instruction> := EntangledHead + EntangledMiddle + EntangledTail

  /** No gate of the program bridges qubits 0, 1, 2 and qubits 3, 4. */
  lemma EntangledSeedIsClosed()
    ensures Entangle(EntangledProgram, {0, 1, 2}) == {0, 1, 2}
  {
    var p := EntangledProgram;
    var seed: set<Qubit> := {0, 1, 2};
    assert ClosedUnder(p, seed);
    StableIsClosed(p, seed);
  }

  /** The pieces between the dropped gates are kept whole. */
  lemma EntangledPiecesKept()
    ensures KeepTouching(EntangledHead, {0, 1, 2}) == EntangledHead
    ensures KeepTouching(EntangledMiddle, {0, 1, 2}) == EntangledMiddle
    ensures KeepTouching(EntangledTail, {0, 1, 2}) == EntangledTail
  {
    var seed: set<Qubit> := {0, 1, 2};
    forall k | 0 <= k < |EntangledHead| ensures Keeps(seed, EntangledHead[k]) {
      if EntangledHead[k].Gate? {
        assert EntangledHead[k].qubits[0] in GateQubits(EntangledHead[k]) * seed;
      }
    }
    FilterKeepsAll(EntangledHead, seed);
    assert 0 in GateQubits(EntangledMiddle[2]) * seed;
    FilterKeepsAll(EntangledMiddle, seed);
    FilterKeepsAll(EntangledTail, seed);
  }

  lemma EntangledFilter()
    ensures KeepTouching(EntangledProgram, {0, 1, 2}) == EntangledTrimmed
  {
    var seed: set<Qubit> := {0, 1, 2};
    Misses([3, 4], seed);
    Misses([3], seed);
    FilterDrops(EntangledHead + [Gate([3, 4])] + EntangledMiddle, Gate([3]), EntangledTail, seed);
    FilterDrops(EntangledHead, Gate([3, 4]), EntangledMiddle, seed);
    EntangledPiecesKept();
  }

  /**
   * Qubits 3 and 4 never meet qubits 0, 1 and 2, so trimming drops exactly
   * `CZ 3 4` and `H 3` and keeps the jumps and labels.
   */
  lemma EntangledDropsUnrelatedGates()
    ensures Trimmed(EntangledProgram) == Ok(EntangledTrimmed)
  {
    SoleBreakpoint(EntangledProgram, 13);
    assert SetOf([0, 1, 2]) == {0, 1, 2};
    EntangledSeedIsClosed();
    EntangledFilter();
  }

  // ---------------------------------------------------------------------------
  // One pass against the fixed point

  /** A gate sharing qubit `q` with `s` meets it and adds its qubits. */
  lemma Meets(qs: seq<Qubit>, s: set<Qubit>, q: Qubit)
    requires q in qs && q in s
    ensures Touches(Gate(qs), s) && Absorb(s, Gate(qs)) == s + SetOf(qs)
  {
    assert q in GateQubits(Gate(qs)) * s;
  }

  /** A gate sharing no qubit with `s` leaves it alone. */
  lemma Misses(qs: seq<Qubit>, s: set<Qubit>)
    requires forall q | q in qs :: q !in s
    ensures !Touches(Gate(qs), s) && Absorb(s, Gate(qs)) == s
  {
    assert GateQubits(Gate(qs)) * s == {};
  }

  /** `CNOT 1 2; CNOT 0 1` and a breakpoint on qubit 0. */
  const LateLinkProgram: seq<Instruction> := [Gate([1, 2]), Gate([0, 1]), Breakpoint([0])]

  /** The pass meets `CNOT 1 2` before qubit 1 joins the set, so it misses qubit 2. */
  lemma LateLinkPass()
    ensures Entangle(LateLinkProgram, {0}) == {0, 1}
  {
    var s0: set<Qubit> := {0};
    var s1: set<Qubit> := {0, 1};
    var p1 := [Gate([1, 2])];
    var p2 := p1 + [Gate([0, 1])];
    var p3 := p2 + [Breakpoint([0])];
    EntangleSnoc([], Gate([1, 2]), s0);
    assert [] + [Gate([1, 2])] == p1;
    Misses([1, 2], s0);
    EntangleSnoc(p1, Gate([0, 1]), s0);
    Meets([0, 1], s0, 0);
    assert s0 + SetOf([0, 1]) == s1;
    EntangleSnoc(p2, Breakpoint([0]), s0);
    assert p3 == LateLinkProgram;
  }

  /** The filter still keeps `CNOT 1 2`, which meets qubit 1, so nothing is dropped. */
  lemma LateLinkKeepsEverything()
    ensures Trimmed(LateLinkProgram) == Ok(LateLinkProgram)
  {
    var p := LateLinkProgram;
    SoleBreakpoint(p, 2);
    assert SetOf([0]) == {0};
    LateLinkPass();
    var f: set<Qubit> := {0, 1};
    forall k | 0 <= k < |p| ensures Keeps(f, p[k]) {
      if k == 0 {
        Meets([1, 2], f, 1);
      } else if k == 1 {
        Meets([0, 1], f, 0);
      }
    }
    FilterKeepsAll(p, f);
  }

  /** `H 2; CNOT 1 2; CNOT 0 1` and a breakpoint on qubit 0. */
  const ChainProgram: seq<Instruction> := [Gate([2]), Gate([1, 2]), Gate([0, 1]), Breakpoint([0])]

  /**
   * As written, the single pass reaches `{0, 1}`, which is not closed: `CNOT 1 2`
   * meets it without lying inside it.
   */
  lemma ChainPass()
    ensures Entangle(ChainProgram, {0}) == {0, 1}
    ensures !ClosedUnder(ChainProgram, {0, 1})
  {
    var s0: set<Qubit> := {0};
    var s1: set<Qubit> := {0, 1};
    var p1 := [Gate([2])];
    var p2 := p1 + [Gate([1, 2])];
    var p3 := p2 + [Gate([0, 1])];
    var p4 := p3 + [Breakpoint([0])];
    EntangleSnoc([], Gate([2]), s0);
    assert [] + [Gate([2])] == p1;
    Misses([2], s0);
    EntangleSnoc(p1, Gate([1, 2]), s0);
    Misses([1, 2], s0);
    EntangleSnoc(p2, Gate([0, 1]), s0);
    Meets([0, 1], s0, 0);
    assert s0 + SetOf([0, 1]) == s1;
    EntangleSnoc(p3, Breakpoint([0]), s0);
    assert p4 == ChainProgram;
    Meets([1, 2], s1, 1);
    assert ChainProgram[1] == Gate([1, 2]) && 2 in GateQubits(Gate([1, 2])) && 2 !in s1;
  }

  /** Over `{0, 1}` the filter drops `H 2` only. */
  lemma ChainFilter()
    ensures KeepTouching(ChainProgram, {0, 1}) == [Gate([1, 2]), Gate([0, 1]), Breakpoint([0])]
  {
    var f: set<Qubit> := {0, 1};
    var rest := [Gate([1, 2]), Gate([0, 1]), Breakpoint([0])];
    assert ChainProgram == [Gate([2])] + rest;
    FilterDistributes([Gate([2])], rest, f);
    Misses([2], f);
    KeepTouchingSnoc([], Gate([2]), f);
    assert [] + [Gate([2])] == [Gate([2])];
    Meets([1, 2], f, 1);
    Meets([0, 1], f, 0);
    FilterKeepsAll(rest, f);
  }

  /**
   * The filter then drops `H 2`, although qubit 2 reaches qubit 0 through
   * `CNOT 1 2` and `CNOT 0 1`.
   */
  lemma ChainSinglePassDropsGate()
    ensures Trimmed(ChainProgram) == Ok([Gate([1, 2]), Gate([0, 1]), Breakpoint([0])])
  {
    SoleBreakpoint(ChainProgram, 3);
    assert SetOf([0]) == {0};
    ChainPass();
    ChainFilter();
  }

  /** The fixed point reaches qubit 2 through `CNOT 0 1` and then `CNOT 1 2`. */
  lemma ChainClosure()
    ensures Closure(ChainProgram, {0}) == {0, 1, 2}
  {
    var p := ChainProgram;
    var all: set<Qubit> := {0, 1, 2};
    var c := Closure(p, {0});
    Meets([0, 1], c, 0);
    assert p[2] == Gate([0, 1]);
    assert 1 in c;
    Meets([1, 2], c, 1);
    assert p[1] == Gate([1, 2]);
    assert 2 in c;
    forall k | 0 <= k < |p| && Touches(p[k], all) ensures GateQubits(p[k]) <= all {
      assert p[k] in p;
    }
    ClosureIsLeast(p, {0}, all);
  }

  /** Over `{0, 1, 2}` the filter keeps every instruction. */
  lemma ChainFilterKeepsAll()
    ensures KeepTouching(ChainProgram, {0, 1, 2}) == ChainProgram
  {
    var all: set<Qubit> := {0, 1, 2};
    Meets([2], all, 2);
    Meets([1, 2], all, 1);
    Meets([0, 1], all, 0);
    FilterKeepsAll(ChainProgram, all);
  }

  /** Trimming to the fixed point keeps `H 2`, and with it the whole program. */
  lemma ChainClosureKeepsGate()
    ensures TrimmedToClosure(ChainProgram) == Ok(ChainProgram)
  {
    SoleBreakpoint(ChainProgram, 3);
    assert SetOf([0]) == {0};
    ChainClosure();
    ChainFilterKeepsAll();
  }
}

/**
 * Trimming a program to its breakpoint (`trim_to_breakpoint`). The program
 * must hold exactly one breakpoint. Starting from the breakpoint's qubits, one
 * left-to-right pass adds the qubits of every gate that meets the set grown so
 * far; then every gate that does not meet the final set is dropped, and every
 * other instruction is kept.
 *
 * The source means to repeat that pass until the set stops growing, but the
 * variable holding the previous set aliases the set being grown, so the loop
 * stops after one pass (or after none when the breakpoint names no qubits).
 * `TrimToBreakpoint` models the code as written; `Closure` is the fixed point
 * the loop was meant to reach.
 */
module Qdb {
  import opened Quil

  datatype TrimError = BreakpointCount(found: nat)

  /** A mutable set of qubits, as Python's `set` with in-place `|=`. */
  class QubitSet {
    var elems: set<Qubit>

    constructor (init: set<Qubit>)
      ensures elems == init
    {
      elems := init;
    }

    method UnionWith(other: set<Qubit>)
      modifies this
      ensures elems == old(elems) + other
    {
      elems := elems + other;
    }
  }

  function SetOf(qs: seq<Qubit>): (r: set<Qubit>)
    ensures forall q :: q in r <==> q in qs
  {
    set q | q in qs
  }

  /** The breakpoint instructions of the program, in order. */
  function Breakpoints(prog: seq<Instruction>): (r: seq<Instruction>)
    ensures forall k | 0 <= k < |r| :: r[k].Breakpoint?
    decreases |prog|
  {
    if prog == [] then []
    else Breakpoints(prog[..|prog| - 1]) + (if Last(prog).Breakpoint? then [Last(prog)] else [])
  }

  function GateQubits(inst: Instruction): set<Qubit>
    requires inst.Gate?
  {
    SetOf(inst.qubits)
  }

  /** The instruction is a gate acting on some qubit of `s`. */
  predicate Touches(inst: Instruction, s: set<Qubit>) {
    inst.Gate? && GateQubits(inst) * s != {}
  }

  /** One step of the pass: a gate that meets the set adds its qubits to it. */
  function Absorb(s: set<Qubit>, inst: Instruction): (r: set<Qubit>)
    ensures s <= r
    ensures Touches(inst, s) ==> GateQubits(inst) <= r
    ensures r != s ==> Touches(inst, s) && r - s <= GateQubits(inst)
  {
    if Touches(inst, s) then s + GateQubits(inst) else s
  }

  /** The entangled set after one left-to-right pass over `prog`, starting from `seed`. */
  function Entangle(prog: seq<Instruction>, seed: set<Qubit>): (r: set<Qubit>)
    ensures seed <= r
    decreases |prog|
  {
    if prog == [] then seed else Absorb(Entangle(prog[..|prog| - 1], seed), Last(prog))
  }

  lemma SharedQubit(s: set<Qubit>, inst: Instruction)
    ensures Touches(inst, s) <==> inst.Gate? && exists q :: q in inst.qubits && q in s
  {
    if Touches(inst, s) {
      var q :| q in GateQubits(inst) * s;
      assert q in inst.qubits;
    } else if inst.Gate? && exists q :: q in inst.qubits && q in s {
      var q :| q in inst.qubits && q in s;
      assert q in GateQubits(inst) * s;
    }
  }

  /** The final filter keeps every non-gate, and a gate only when it meets `s`. */
  predicate Keeps(s: set<Qubit>, inst: Instruction): (r: bool)
    ensures r <==> (inst.Gate? ==> exists q :: q in inst.qubits && q in s)
  {
    SharedQubit(s, inst);
    !inst.Gate? || Touches(inst, s)
  }

  function KeepTouching(prog: seq<Instruction>, s: set<Qubit>): (r: seq<Instruction>)
    ensures |r| <= |prog|
    decreases |prog|
  {
    if prog == [] then []
    else KeepTouching(prog[..|prog| - 1], s) + (if Keeps(s, Last(prog)) then [Last(prog)] else [])
  }

  /** What `trim_to_breakpoint` returns, or the error it raises. */
  function Trimmed(prog: seq<Instruction>): (r: Result<seq<Instruction>, TrimError>)
    ensures r.Ok? ==> Breakpoints(r.value) == Breakpoints(prog)
    ensures r.Ok? ==> |r.value| <= |prog|
  {
    var breakpoints := Breakpoints(prog);
    if |breakpoints| != 1 then Err(BreakpointCount(|breakpoints|))
    else
      var f := Entangle(prog, SetOf(breakpoints[0].qubits));
      BreakpointsSurviveFilter(prog, f);
      Ok(KeepTouching(prog, f))
  }

  /** One pass of the `for` loop: every gate meeting the set grown so far adds its qubits to it. */
  method EntanglePass(prog: seq<Instruction>, entangled: QubitSet)
    modifies entangled
    ensures entangled.elems == Entangle(prog, old(entangled.elems))
  {
    ghost var seed := entangled.elems;
    for k := 0 to |prog|
      invariant entangled.elems == Entangle(prog[..k], seed)
    {
      assert prog[..k + 1][..k] == prog[..k];
      var inst := prog[k];
      if inst.Gate? {
        var gateQubits := SetOf(inst.qubits);
        if entangled.elems * gateQubits != {} {
          entangled.UnionWith(gateQubits);
        }
      }
    }
    assert prog[..|prog|] == prog;
  }

  /**
   * `trim_to_breakpoint`, with Python's aliasing made explicit: `prev := entangled`
   * makes both names denote one object, so after the first pass the `while`
   * condition compares a set with itself. `passes` counts the passes made.
   */
  method TrimToBreakpoint(prog: seq<Instruction>) returns (r: Result<seq<Instruction>, TrimError>, ghost passes: nat)
    ensures r == Trimmed(prog)
    ensures r.Ok? ==> passes == (if Breakpoints(prog)[0].qubits == [] then 0 else 1)
  {
    var breakpoints := Breakpoints(prog);
    if |breakpoints| != 1 {
      return Err(BreakpointCount(|breakpoints|)), 0;
    }
    var seed := SetOf(breakpoints[0].qubits);
    var entangled := new QubitSet(seed);
    var prev := new QubitSet({});
    passes := 0;
    while |entangled.elems| != |prev.elems|
      invariant passes == 0 ==> prev != entangled && prev.elems == {} && entangled.elems == seed
      invariant passes != 0 ==> passes == 1 && prev == entangled && entangled.elems == Entangle(prog, seed) && seed != {}
      decreases if prev == entangled then 0 else 1
    {
      assert seed != {} by {
        assert |seed| != 0;
      }
      prev := entangled;
      EntanglePass(prog, entangled);
      passes := passes + 1;
    }
    if passes == 0 {
      assert seed == {} by {
        assert |seed| == 0;
      }
      NothingMeetsEmpty(prog);
    }
    assert breakpoints[0].qubits == [] <==> seed == {} by {
      if breakpoints[0].qubits != [] {
        assert breakpoints[0].qubits[0] in seed;
      }
    }
    r := Ok(KeepTouching(prog, entangled.elems));
  }

  // ---------------------------------------------------------------------------
  // Properties

  /** The pass over the empty set adds nothing. */
  lemma {:induction false} NothingMeetsEmpty(prog: seq<Instruction>)
    ensures Entangle(prog, {}) == {}
    decreases |prog|
  {
    if prog != [] {
      NothingMeetsEmpty(prog[..|prog| - 1]);
    }
  }

  lemma EntangleSnoc(prog: seq<Instruction>, inst: Instruction, seed: set<Qubit>)
    ensures Entangle(prog + [inst], seed) == Absorb(Entangle(prog, seed), inst)
  {
    assert (prog + [inst])[..|prog|] == prog;
  }

  lemma KeepTouchingSnoc(prog: seq<Instruction>, inst: Instruction, s: set<Qubit>)
    ensures KeepTouching(prog + [inst], s) == KeepTouching(prog, s) + (if Keeps(s, inst) then [inst] else [])
  {
    assert (prog + [inst])[..|prog|] == prog;
  }

  lemma BreakpointsSnoc(prog: seq<Instruction>, inst: Instruction)
    ensures Breakpoints(prog + [inst]) == Breakpoints(prog) + (if inst.Breakpoint? then [inst] else [])
  {
    assert (prog + [inst])[..|prog|] == prog;
  }

  /** The positions of the breakpoints in the program. */
  ghost function BreakpointPositions(prog: seq<Instruction>): set<nat> {
    set k: nat | k < |prog| && prog[k].Breakpoint?
  }

  /** `Breakpoints` lists one instruction per breakpoint position. */
  lemma {:induction false} BreakpointsCount(prog: seq<Instruction>)
    ensures |Breakpoints(prog)| == |BreakpointPositions(prog)|
    decreases |prog|
  {
    if prog != [] {
      var init := prog[..|prog| - 1];
      BreakpointsCount(init);
      var n := |prog| - 1;
      if prog[n].Breakpoint? {
        assert BreakpointPositions(prog) == BreakpointPositions(init) + {n};
        assert n !in BreakpointPositions(init);
      } else {
        assert BreakpointPositions(prog) == BreakpointPositions(init);
      }
    }
  }

  /** Trimming fails exactly when the program does not hold exactly one breakpoint. */
  lemma TrimFailsUnlessOneBreakpoint(prog: seq<Instruction>)
    ensures Trimmed(prog).Err? <==> |BreakpointPositions(prog)| != 1
    ensures Trimmed(prog).Err? ==> Trimmed(prog).error == BreakpointCount(|BreakpointPositions(prog)|)
  {
    BreakpointsCount(prog);
  }

  /** The positions whose instructions the filter keeps, in increasing order. */
  function KeptPositions(prog: seq<Instruction>, s: set<Qubit>): (idx: seq<nat>)
    ensures forall m | 0 <= m < |idx| :: idx[m] < |prog|
    ensures forall m, n | 0 <= m < n < |idx| :: idx[m] < idx[n]
    decreases |prog|
  {
    if prog == [] then []
    else
      var n := |prog| - 1;
      KeptPositions(prog[..n], s) + (if Keeps(s, prog[n]) then [n] else [])
  }

  lemma {:induction false} KeptPositionsMembership(prog: seq<Instruction>, s: set<Qubit>)
    ensures forall k | 0 <= k < |prog| :: k in KeptPositions(prog, s) <==> Keeps(s, prog[k])
    decreases |prog|
  {
    if prog != [] {
      var n := |prog| - 1;
      var init := prog[..n];
      KeptPositionsMembership(init, s);
      forall k | 0 <= k < n ensures init[k] == prog[k] {
      }
    }
  }

  lemma {:induction false} KeptPositionsPick(prog: seq<Instruction>, s: set<Qubit>)
    ensures |KeptPositions(prog, s)| == |KeepTouching(prog, s)|
    ensures forall m | 0 <= m < |KeptPositions(prog, s)| :: KeepTouching(prog, s)[m] == prog[KeptPositions(prog, s)[m]]
    decreases |prog|
  {
    if prog != [] {
      var n := |prog| - 1;
      var init := prog[..n];
      KeptPositionsPick(init, s);
      var idx, head := KeptPositions(prog, s), KeptPositions(init, s);
      var out, before := KeepTouching(prog, s), KeepTouching(init, s);
      forall m | 0 <= m < |head| ensures out[m] == prog[idx[m]] {
        assert idx[m] == head[m] && out[m] == before[m] && init[head[m]] == prog[head[m]];
      }
    }
  }

  /**
   * The filter's output lists, in their original order, exactly the
   * instructions at the positions `idx`, and those are exactly the positions of
   * non-gates and of gates that meet `s`.
   */
  lemma KeepTouchingSelects(prog: seq<Instruction>, s: set<Qubit>) returns (idx: seq<nat>)
    ensures |idx| == |KeepTouching(prog, s)|
    ensures forall m | 0 <= m < |idx| :: idx[m] < |prog| && KeepTouching(prog, s)[m] == prog[idx[m]]
    ensures forall m, n | 0 <= m < n < |idx| :: idx[m] < idx[n]
    ensures forall k | 0 <= k < |prog| :: k in idx <==> Keeps(s, prog[k])
  {
    idx := KeptPositions(prog, s);
    KeptPositionsMembership(prog, s);
    KeptPositionsPick(prog, s);
  }

  /** All qubits any gate of the program acts on. */
  ghost function GateQubitsOf(prog: seq<Instruction>): set<Qubit> {
    set k, q | 0 <= k < |prog| && prog[k].Gate? && q in prog[k].qubits :: q
  }

  /** The entangled set contains the seed and only adds qubits of gates. */
  lemma {:induction false} EntangleBounds(prog: seq<Instruction>, seed: set<Qubit>)
    ensures seed <= Entangle(prog, seed) <= seed + GateQubitsOf(prog)
    decreases |prog|
  {
    if prog != [] {
      var n := |prog| - 1;
      EntangleBounds(prog[..n], seed);
      assert GateQubitsOf(prog[..n]) <= GateQubitsOf(prog) by {
        forall q | q in GateQubitsOf(prog[..n]) ensures q in GateQubitsOf(prog) {
          var k :| 0 <= k < n && prog[..n][k].Gate? && q in prog[..n][k].qubits;
          assert prog[k] == prog[..n][k];
        }
      }
      if prog[n].Gate? {
        assert GateQubits(prog[n]) <= GateQubitsOf(prog);
      }
    }
  }

  /** The set only grows along the pass. */
  lemma {:induction false} EntanglePrefix(prog: seq<Instruction>, k: nat, seed: set<Qubit>)
    requires k <= |prog|
    ensures Entangle(prog[..k], seed) <= Entangle(prog, seed)
    decreases |prog| - k
  {
    if k < |prog| {
      EntanglePrefix(prog, k + 1, seed);
      assert prog[..k + 1][..k] == prog[..k];
    } else {
      assert prog[..k] == prog;
    }
  }

  /**
   * Every gate that meets the set grown before it has all its qubits in the
   * final set.
   */
  lemma EntangleAbsorbsForward(prog: seq<Instruction>, seed: set<Qubit>, k: nat)
    requires k < |prog|
    requires Touches(prog[k], Entangle(prog[..k], seed))
    ensures GateQubits(prog[k]) <= Entangle(prog, seed)
  {
    EntanglePrefix(prog, k + 1, seed);
    assert prog[..k + 1][..k] == prog[..k];
  }

  lemma {:induction false} BreakpointsSurviveFilter(prog: seq<Instruction>, s: set<Qubit>)
    ensures Breakpoints(KeepTouching(prog, s)) == Breakpoints(prog)
    decreases |prog|
  {
    if prog != [] {
      var init := prog[..|prog| - 1];
      BreakpointsSurviveFilter(init, s);
      var x := Last(prog);
      assert Breakpoints(prog) == Breakpoints(init) + (if x.Breakpoint? then [x] else []);
      assert KeepTouching(prog, s) == KeepTouching(init, s) + (if Keeps(s, x) then [x] else []);
      if Keeps(s, x) {
        BreakpointsSnoc(KeepTouching(init, s), x);
      } else {
        assert KeepTouching(prog, s) == KeepTouching(init, s);
        assert Breakpoints(prog) == Breakpoints(init);
      }
    }
  }

  /**
   * Dropping gates that miss a superset of the final set does not change the
   * pass: those gates never met the set while it grew.
   */
  lemma {:induction false} FilterKeepsEntangled(prog: seq<Instruction>, seed: set<Qubit>, f: set<Qubit>)
    requires Entangle(prog, seed) <= f
    ensures Entangle(KeepTouching(prog, f), seed) == Entangle(prog, seed)
    decreases |prog|
  {
    if prog != [] {
      var init := prog[..|prog| - 1];
      var x := Last(prog);
      EntanglePrefix(prog, |prog| - 1, seed);
      assert prog[..|prog| - 1] == init;
      FilterKeepsEntangled(init, seed, f);
      assert Entangle(prog, seed) == Absorb(Entangle(init, seed), x);
      assert KeepTouching(prog, f) == KeepTouching(init, f) + (if Keeps(f, x) then [x] else []);
      if Keeps(f, x) {
        EntangleSnoc(KeepTouching(init, f), x, seed);
      } else {
        assert KeepTouching(prog, f) == KeepTouching(init, f);
        assert !Touches(x, Entangle(init, seed));
      }
    }
  }

  lemma {:induction false} FilterIdempotent(prog: seq<Instruction>, s: set<Qubit>)
    ensures KeepTouching(KeepTouching(prog, s), s) == KeepTouching(prog, s)
    decreases |prog|
  {
    if prog != [] {
      var init := prog[..|prog| - 1];
      var x := Last(prog);
      FilterIdempotent(init, s);
      assert KeepTouching(prog, s) == KeepTouching(init, s) + (if Keeps(s, x) then [x] else []);
      if Keeps(s, x) {
        KeepTouchingSnoc(KeepTouching(init, s), x, s);
      } else {
        assert KeepTouching(prog, s) == KeepTouching(init, s);
      }
    }
  }

  /** Trimming an already trimmed program returns it unchanged. */
  lemma TrimIdempotent(prog: seq<Instruction>)
    requires Trimmed(prog).Ok?
    ensures Trimmed(Trimmed(prog).value) == Trimmed(prog)
  {
    var bp := Breakpoints(prog)[0];
    var seed := SetOf(bp.qubits);
    var f := Entangle(prog, seed);
    var out := KeepTouching(prog, f);
    BreakpointsSurviveFilter(prog, f);
    FilterKeepsEntangled(prog, seed, f);
    FilterIdempotent(prog, f);
  }

  /**
   * A breakpoint without qubits drops every gate and keeps every other
   * instruction.
   */
  lemma EmptyBreakpointDropsGates(prog: seq<Instruction>)
    requires Trimmed(prog).Ok? && Breakpoints(prog)[0].qubits == []
    ensures forall x | x in Trimmed(prog).value :: !x.Gate?
    ensures forall k | 0 <= k < |prog| && !prog[k].Gate? :: prog[k] in Trimmed(prog).value
  {
    assert SetOf(Breakpoints(prog)[0].qubits) == {};
    NothingMeetsEmpty(prog);
    FilterOverEmpty(prog);
  }

  /** Over the empty set the filter keeps exactly the non-gates. */
  lemma FilterOverEmpty(prog: seq<Instruction>)
    ensures forall x | x in KeepTouching(prog, {}) :: !x.Gate?
    ensures forall k | 0 <= k < |prog| && !prog[k].Gate? :: prog[k] in KeepTouching(prog, {})
  {
    var out := KeepTouching(prog, {});
    var idx := KeepTouchingSelects(prog, {});
    forall x | x in out ensures !x.Gate? {
      var m :| 0 <= m < |out| && out[m] == x;
      assert idx[m] in idx;
    }
    forall k | 0 <= k < |prog| && !prog[k].Gate? ensures prog[k] in out {
      var m :| 0 <= m < |idx| && idx[m] == k;
      assert out[m] == prog[k];
    }
  }

  /** A program whose only breakpoint sits at `k` has exactly that one. */
  lemma {:induction false} SoleBreakpoint(prog: seq<Instruction>, k: nat)
    requires k < |prog| && prog[k].Breakpoint?
    requires forall j | 0 <= j < |prog| && j != k :: !prog[j].Breakpoint?
    ensures Breakpoints(prog) == [prog[k]]
    decreases |prog|
  {
    var n := |prog| - 1;
    if k < n {
      SoleBreakpoint(prog[..n], k);
    } else {
      NoBreakpoints(prog[..n]);
    }
  }

  lemma {:induction false} NoBreakpoints(prog: seq<Instruction>)
    requires forall j | 0 <= j < |prog| :: !prog[j].Breakpoint?
    ensures Breakpoints(prog) == []
    decreases |prog|
  {
    if prog != [] {
      NoBreakpoints(prog[..|prog| - 1]);
    }
  }

  /** The filter decides instruction by instruction: it distributes over concatenation. */
  lemma {:induction false} FilterDistributes(a: seq<Instruction>, b: seq<Instruction>, s: set<Qubit>)
    ensures KeepTouching(a + b, s) == KeepTouching(a, s) + KeepTouching(b, s)
    decreases |b|
  {
    if b == [] {
      assert a + b == a;
    } else {
      var n := |b| - 1;
      var init, x := b[..n], b[n];
      var e := if Keeps(s, x) then [x] else [];
      FilterDistributes(a, init, s);
      calc {
        KeepTouching(a + b, s);
        { assert a + b == (a + init) + [x]; }
        KeepTouching((a + init) + [x], s);
        { KeepTouchingSnoc(a + init, x, s); }
        KeepTouching(a, s) + KeepTouching(init, s) + e;
        { KeepTouchingSnoc(init, x, s); assert b == init + [x]; }
        KeepTouching(a, s) + KeepTouching(b, s);
      }
    }
  }

  /** A dropped instruction simply disappears from between its neighbours. */
  lemma FilterDrops(a: seq<Instruction>, x: Instruction, b: seq<Instruction>, s: set<Qubit>)
    requires !Keeps(s, x)
    ensures KeepTouching(a + [x] + b, s) == KeepTouching(a, s) + KeepTouching(b, s)
  {
    FilterDistributes(a + [x], b, s);
    KeepTouchingSnoc(a, x, s);
  }

  /** The filter returns the program unchanged exactly when it keeps every instruction. */
  lemma {:induction false} FilterKeepsAll(prog: seq<Instruction>, s: set<Qubit>)
    ensures KeepTouching(prog, s) == prog <==> forall k | 0 <= k < |prog| :: Keeps(s, prog[k])
    decreases |prog|
  {
    if prog != [] {
      var n := |prog| - 1;
      var init := prog[..n];
      FilterKeepsAll(init, s);
      assert prog == init + [prog[n]];
      if Keeps(s, prog[n]) {
        if KeepTouching(prog, s) == prog {
          assert KeepTouching(init, s) == (KeepTouching(prog, s))[..n];
        }
        assert forall k | 0 <= k < n :: init[k] == prog[k];
      } else {
        assert |KeepTouching(prog, s)| < |prog|;
      }
    }
  }

  // ---------------------------------------------------------------------------
  // The fixed point the `while` loop was meant to reach

  /** No gate meets `c` without lying inside it. */
  ghost predicate ClosedUnder(prog: seq<Instruction>, c: set<Qubit>) {
    forall k | 0 <= k < |prog| :: Touches(prog[k], c) ==> GateQubits(prog[k]) <= c
  }

  /** A pass adds nothing exactly when the set it starts from is closed. */
  lemma StableIsClosed(prog: seq<Instruction>, c: set<Qubit>)
    ensures Entangle(prog, c) == c <==> ClosedUnder(prog, c)
  {
    if Entangle(prog, c) == c {
      forall k | 0 <= k < |prog| && Touches(prog[k], c) ensures GateQubits(prog[k]) <= c {
        EntanglePrefix(prog, k, c);
        EntangleBounds(prog[..k], c);
        EntangleAbsorbsForward(prog, c, k);
      }
    }
    if ClosedUnder(prog, c) {
      PassStaysInClosed(prog, c, c);
      EntangleBounds(prog, c);
    }
  }

  /** A pass from inside a closed set stays inside it. */
  lemma {:induction false} PassStaysInClosed(prog: seq<Instruction>, seed: set<Qubit>, t: set<Qubit>)
    requires seed <= t && ClosedUnder(prog, t)
    ensures Entangle(prog, seed) <= t
    decreases |prog|
  {
    if prog != [] {
      var n := |prog| - 1;
      PassStaysInClosed(prog[..n], seed, t);
      if Touches(prog[n], Entangle(prog[..n], seed)) {
        assert Touches(prog[n], t);
      }
    }
  }

  /**
   * The pass repeated until the set stops growing (the sizes before and after
   * a pass agree), as the `while` loop intends.
   */
  function Closure(prog: seq<Instruction>, seed: set<Qubit>): (c: set<Qubit>)
    ensures seed <= c && ClosedUnder(prog, c)
    decreases |GateQubitsOf(prog) - seed|
  {
    var next := Entangle(prog, seed);
    EntangleBounds(prog, seed);
    if |next| == |seed| then
      assert next == seed by {
        assert |next - seed| == |next| - |seed|;
      }
      StableIsClosed(prog, seed);
      seed
    else
      GrowthShrinksMeasure(GateQubitsOf(prog), seed, next);
      Closure(prog, next)
  }

  /** A pass that adds a gate qubit leaves fewer gate qubits outside the set. */
  lemma GrowthShrinksMeasure(all: set<Qubit>, seed: set<Qubit>, next: set<Qubit>)
    requires seed <= next <= seed + all && |next| != |seed|
    ensures |all - next| < |all - seed|
  {
    assert next != seed;
    var q :| q in next && q !in seed;
    assert all - next <= (all - seed) - {q};
    SubsetNoLarger(all - next, (all - seed) - {q});
  }

  lemma {:induction false} SubsetNoLarger(a: set<Qubit>, b: set<Qubit>)
    requires a <= b
    ensures |a| <= |b|
    decreases |a|
  {
    if a != {} {
      var x :| x in a;
      SubsetNoLarger(a - {x}, b - {x});
    }
  }

  /** The fixed point is the least closed set containing the seed. */
  lemma {:induction false} ClosureIsLeast(prog: seq<Instruction>, seed: set<Qubit>, t: set<Qubit>)
    requires seed <= t && ClosedUnder(prog, t)
    ensures Closure(prog, seed) <= t
    decreases |GateQubitsOf(prog) - seed|
  {
    var next := Entangle(prog, seed);
    EntangleBounds(prog, seed);
    PassStaysInClosed(prog, seed, t);
    if |next| != |seed| {
      GrowthShrinksMeasure(GateQubitsOf(prog), seed, next);
      ClosureIsLeast(prog, next, t);
    }
  }

  /**
   * The single pass stays inside the fixed point, and reaches it exactly when
   * its result is closed.
   */
  lemma SinglePassVersusClosure(prog: seq<Instruction>, seed: set<Qubit>)
    ensures Entangle(prog, seed) <= Closure(prog, seed)
    ensures Closure(prog, seed) == Entangle(prog, seed) <==> ClosedUnder(prog, Entangle(prog, seed))
  {
    var c := Closure(prog, seed);
    var e := Entangle(prog, seed);
    PassStaysInClosed(prog, seed, c);
    if ClosedUnder(prog, e) {
      EntangleBounds(prog, seed);
      ClosureIsLeast(prog, seed, e);
    }
  }

  /** Trimming to the breakpoint with the intended fixed point. */
  function TrimmedToClosure(prog: seq<Instruction>): Result<seq<Instruction>, TrimError> {
    var breakpoints := Breakpoints(prog);
    if |breakpoints| != 1 then Err(BreakpointCount(|breakpoints|))
    else Ok(KeepTouching(prog, Closure(prog, SetOf(breakpoints[0].qubits))))
  }

  /**
   * The trim as written keeps a sub-list of what the intended trim keeps, and
   * both agree when the single pass happens to reach a closed set.
   */
  lemma TrimmedWithinClosureTrim(prog: seq<Instruction>)
    ensures Trimmed(prog).Err? <==> TrimmedToClosure(prog).Err?
    ensures Trimmed(prog).Ok? ==>
      var seed := SetOf(Breakpoints(prog)[0].qubits);
      (forall k | 0 <= k < |prog| :: Keeps(Entangle(prog, seed), prog[k]) ==> Keeps(Closure(prog, seed), prog[k])) &&
      (ClosedUnder(prog, Entangle(prog, seed)) ==> Trimmed(prog) == TrimmedToClosure(prog))
  {
    if Trimmed(prog).Ok? {
      var seed := SetOf(Breakpoints(prog)[0].qubits);
      SinglePassVersusClosure(prog, seed);
    }
  }

  /** The intended trim is idempotent as well. */
  lemma ClosureTrimIdempotent(prog: seq<Instruction>)
    requires TrimmedToClosure(prog).Ok?
    ensures TrimmedToClosure(TrimmedToClosure(prog).value) == TrimmedToClosure(prog)
  {
    var seed := SetOf(Breakpoints(prog)[0].qubits);
    var c := Closure(prog, seed);
    var out := KeepTouching(prog, c);
    BreakpointsSurviveFilter(prog, c);
    FilterIdempotent(prog, c);
    ClosureOfFiltered(prog, seed, c);
  }

  /** Closing over the filtered program reaches the same set. */
  lemma ClosureOfFiltered(prog: seq<Instruction>, seed: set<Qubit>, c: set<Qubit>)
    requires c == Closure(prog, seed)
    ensures Closure(KeepTouching(prog, c), seed) == c
  {
    var out := KeepTouching(prog, c);
    var idx := KeepTouchingSelects(prog, c);
    // `c` is closed over the filtered program, so the filtered closure lies inside it.
    forall m | 0 <= m < |out| && Touches(out[m], c) ensures GateQubits(out[m]) <= c {
      assert out[m] == prog[idx[m]];
    }
    ClosureIsLeast(out, seed, c);
    // Every set closed over the filtered program and containing the seed contains `c`.
    var d := Closure(out, seed);
    forall k | 0 <= k < |prog| && Touches(prog[k], d) ensures GateQubits(prog[k]) <= d {
      assert Touches(prog[k], c);
      assert k in idx;
      var m :| 0 <= m < |idx| && idx[m] == k;
      assert out[m] == prog[k];
    }
    ClosureIsLeast(prog, seed, d);
  }

  /** A pass that grows the set leaves the fixed point where it was. */
  lemma ClosureGrows(prog: seq<Instruction>, s: set<Qubit>)
    requires |Entangle(prog, s)| != |s|
    ensures Closure(prog, Entangle(prog, s)) == Closure(prog, s)
  {
  }

  /** A pass that keeps the size of the set has reached the fixed point. */
  lemma ClosureStops(prog: seq<Instruction>, s: set<Qubit>)
    requires |Entangle(prog, s)| == |s|
    ensures Closure(prog, s) == s == Entangle(prog, s)
  {
    EntangleBounds(prog, s);
    assert |Entangle(prog, s) - s| == |Entangle(prog, s)| - |s|;
  }

  /** The fixed point from the empty set is empty. */
  lemma ClosureOfEmpty(prog: seq<Instruction>)
    ensures Closure(prog, {}) == {}
  {
    NothingMeetsEmpty(prog);
  }

  /**
   * `trim_to_breakpoint` with the loop as intended: `prev` receives a copy of
   * the set, so passes repeat until one adds no qubit.
   */
  method TrimToClosure(prog: seq<Instruction>) returns (r: Result<seq<Instruction>, TrimError>)
    ensures r == TrimmedToClosure(prog)
  {
    var breakpoints := Breakpoints(prog);
    if |breakpoints| != 1 {
      return Err(BreakpointCount(|breakpoints|));
    }
    var seed := SetOf(breakpoints[0].qubits);
    var entangled := new QubitSet(seed);
    var prev := new QubitSet({});
    ghost var first := true;
    while |entangled.elems| != |prev.elems|
      invariant prev != entangled
      invariant first ==> prev.elems == {} && entangled.elems == seed
      invariant !first ==> entangled.elems == Entangle(prog, prev.elems) && Closure(prog, prev.elems) == Closure(prog, seed)
      decreases |GateQubitsOf(prog) - prev.elems| + (if first then 1 else 0)
    {
      if !first {
        EntangleBounds(prog, prev.elems);
        GrowthShrinksMeasure(GateQubitsOf(prog), prev.elems, entangled.elems);
        ClosureGrows(prog, prev.elems);
      } else {
        SubsetNoLarger(GateQubitsOf(prog) - seed, GateQubitsOf(prog));
      }
      prev := new QubitSet(entangled.elems);
      EntanglePass(prog, entangled);
      first := false;
    }
    if first {
      assert seed == {} by {
        assert |seed| == 0;
      }
      ClosureOfEmpty(prog);
    } else {
      ClosureStops(prog, prev.elems);
    }
    r := Ok(KeepTouching(prog, entangled.elems));
  }
}

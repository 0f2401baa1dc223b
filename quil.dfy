/**
 * The instruction model shared by the control-flow-graph builder and the
 * breakpoint trimmer: the closed set of Quil instruction kinds the debugger
 * distinguishes, reduced to the payload the two analyses look at.
 */
module Quil {

  /** A qubit index. */
  type Qubit = nat

  /** A jump label (the name carried by LABEL, JUMP, JUMP-WHEN and JUMP-UNLESS). */
  type Label = string

  /** The classical instruction classes of the fallthrough list. */
  datatype ClassicalKind =
    | Unary        // NEG, NOT, TRUE, FALSE
    | LogicalBinary // AND, IOR, XOR
    | ArithmeticBinary // ADD, SUB, MUL, DIV
    | Exchange
    | Convert
    | Load
    | Store
    | Comparison   // EQ, LT, LE, GT, GE

  /**
   * One instruction. A `Gate` matters only through the qubits it acts on;
   * `Breakpoint` is the debugger's own marker, a no-op that carries the qubits
   * to inspect; `Other` stands for every instruction kind the debugger does not
   * support (WAIT, a global RESET, PRAGMA, the classical MOVE, ...).
   */
  datatype Instruction =
    | Gate(qubits: seq<Qubit>)
    | Declare(name: string)
    | Measurement(qubit: Qubit)
    | Classical(kind: ClassicalKind)
    | JumpTarget(lbl: Label)
    | Jump(target: Label)
    | JumpConditional(target: Label, when: bool)  // JUMP-WHEN if `when`, else JUMP-UNLESS
    | Halt
    | ResetQubit(qubit: Qubit)
    | Nop
    | Breakpoint(qubits: seq<Qubit>)
    | Other(name: string)

  /** The instruction is a no-op; a breakpoint is one. */
  predicate IsNop(inst: Instruction) {
    inst.Nop? || inst.Breakpoint?
  }

  /** The instruction is guaranteed to continue with the next one. */
  predicate IsFallthrough(inst: Instruction): (r: bool)
    ensures r <==> !IsControlTransfer(inst) && !inst.Other?
  {
    inst.Gate? || inst.Declare? || inst.Measurement? || inst.Classical? ||
    inst.JumpTarget? || inst.ResetQubit? || IsNop(inst)
  }

  /** The instruction ends a basic block: an unconditional or conditional jump, or HALT. */
  predicate IsControlTransfer(inst: Instruction) {
    inst.Jump? || inst.JumpConditional? || inst.Halt?
  }

  /** The instruction names a jump label it may continue at. */
  predicate IsJump(inst: Instruction) {
    inst.Jump? || inst.JumpConditional?
  }

  /**
   * Every instruction is exactly one of: fallthrough, control transfer or
   * unsupported; a breakpoint falls through because it is a no-op.
   */
  lemma InstructionKinds(inst: Instruction)
    ensures IsFallthrough(inst) || IsControlTransfer(inst) || inst.Other?
    ensures !(IsFallthrough(inst) && IsControlTransfer(inst))
    ensures inst.Other? ==> !IsFallthrough(inst) && !IsControlTransfer(inst)
    ensures inst.Breakpoint? ==> IsFallthrough(inst)
  {
  }

  /** The result of an operation that may raise. */
  datatype Result<+T, +E> = Ok(value: T) | Err(error: E)

  function Last<T>(s: seq<T>): T
    requires s != []
  {
    s[|s| - 1]
  }
}

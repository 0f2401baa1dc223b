# qdb: control-flow graphs and breakpoint trimming, in Dafny

qdb is a debugger for Quil programs run through pyquil. Its core has two
parts, and this project models both.

**Control-flow graph.** `get_control_flow_graph` cuts a program into basic
blocks:
- a `LABEL` starts a new block;
- a `JUMP`, `JUMP-WHEN`, `JUMP-UNLESS` or `HALT` ends the current block;
- every other supported instruction falls through.

It then links the blocks by edges, starting from a `root` node. `is_dag`
asks whether that graph has a cycle.

**Breakpoint trimming.** `trim_to_breakpoint` takes a program holding exactly
one `Breakpoint` marker. It grows a set of "entangled" qubits from the
breakpoint's qubits, then drops every gate that acts on none of them.

The files:

- `quil.dfy` (module `Quil`): the instruction kinds the debugger
  distinguishes, and the fallthrough and control-transfer tests.
  - A gate is kept only through the qubits it acts on.
  - `Breakpoint` is a no-op carrying qubits.
  - `Other` stands for every unsupported instruction.
  - Python exceptions become the `Err` side of a `Result`.
- `digraph.dfy` (module `Digraph`): graphs as edge lists.
  - A cycle is a closed walk of at least one edge.
  - `IsAcyclic` is a sink-deletion check, proved to hold exactly when there
    is no cycle.
  - It is a reference for `networkx.is_directed_acyclic_graph`.
- `control_flow_graph.dfy` (module `ControlFlowGraph`): the builder.
  - The partitioning loop is the fold `Scan` of the step function `Step`.
  - `EdgesUpTo` is the edge loop.
  - `ControlFlowGraph` is the whole function, with its `ValueError` and
    `KeyError` as `Err`.
  - The imperative methods `CollectBlocks`, `EmitEdges` and
    `GetControlFlowGraph` run the same loops over a `seq` and a `map`, and are
    proved equal to those functions.
  - Lemmas state what the partition and the edges are:
    - the blocks concatenate back to the program;
    - the block shapes;
    - label resolution via the last `LABEL`;
    - the successor relation;
    - the error cases;
    - an acyclicity theorem for programs without jumps.
- `trim_to_breakpoint.dfy` (module `Qdb`): the trimmer.
  - `QubitSet` is a mutable set object, so the Python aliasing of
    `entangled_prev` and `entangled_qubits` is explicit.
  - `EntanglePass` is the inner `for` loop.
  - `TrimToBreakpoint` is the whole function, proved equal to the
    specification `Trimmed`. It also proves how many passes the `while` loop
    makes.
  - Lemmas cover the breakpoint count, the filter as an order-preserving
    selection, the bounds of the entangled set, idempotence, and the empty
    breakpoint.
  - They also cover the fixed point `Closure` that the loop was meant to
    reach, together with the corrected method `TrimToClosure`.
- `cfg_examples.dfy` and `trim_examples.dfy`: the programs of the repository's
  tests as lemmas, plus a few programs that show the edge cases.
  - pyquil's `if_then` and `while_do` are expanded by hand, with labels named
    THEN, END and START.

The `while` loop of `trim_to_breakpoint` (`qdb/__init__.py:30`) compares the
set's size with its size before the pass. That only makes sense as iteration
to a fixed point, but because of the aliasing the loop stops after one pass.
The model follows the code as written and proves the intended version beside
it; see "## Findings".

## Model

| member | source | states |
|---|---|---|
| Quil.IsFallthrough | qdb/control_flow_graph.py:26-46 | `is_fallthrough_instruction` holds exactly for the instructions that are neither a control transfer (JUMP, JUMP-WHEN/UNLESS, HALT) nor unsupported; `Quil.InstructionKinds` adds that a breakpoint is one of them. |
| Quil.InstructionKinds | qdb/control_flow_graph.py:26-46 | Every instruction is fallthrough, control transfer or unsupported, and only one of these; a breakpoint falls through because it is a `Nop`. |
| ControlFlowGraph.Step | qdb/control_flow_graph.py:61-72 | One iteration of the partitioning loop raises exactly on an unsupported instruction, with that instruction; `StepKeepsInv` and `PartitionProperties` state what a successful step does to the blocks and the label map. |
| ControlFlowGraph.Scan | qdb/control_flow_graph.py:58-72 | The partitioning loop, if it raises, raises the unsupported-instruction error for an unsupported instruction of the program; `ScanFailsOnUnsupported` sharpens this to "iff, and the first one", and `PartitionProperties` states what it returns otherwise. |
| ControlFlowGraph.PartitionProperties | qdb/control_flow_graph.py:58-74 | After a successful partitioning loop, the blocks concatenate back to the program. Every block is non-empty, with a label only first and a jump or HALT only last. Two neighbouring blocks are separate only because of a control transfer or a label. `targets` maps exactly the labels that start a block, each to the last block it starts (the last `targets[...] =` wins). |
| ControlFlowGraph.BlocksWellShaped | qdb/control_flow_graph.py:60-74 | Every block of a successful partition is well shaped. |
| ControlFlowGraph.ScanFailsOnUnsupported | qdb/control_flow_graph.py:69-72 | The partitioning loop raises exactly when the program holds an unsupported instruction, and it reports the first one. |
| ControlFlowGraph.CollectBlocks | qdb/control_flow_graph.py:58-74 | The imperative partitioning loop returns the blocks and the label map of the specification fold, or its error. |
| ControlFlowGraph.EmitEdges | qdb/control_flow_graph.py:76-89 | The imperative edge loop over `range(len(basic_blocks) - 1)` returns the edge specification's list, or its `KeyError`. |
| ControlFlowGraph.GetControlFlowGraph | qdb/control_flow_graph.py:51-91 | The whole builder returns exactly the graph of `ControlFlowGraph`, or the same error. |
| ControlFlowGraph.EmittingBlocks | qdb/control_flow_graph.py:77 | `range(len(basic_blocks) - 1)`: with n > 0 blocks the edge loop visits n - 1 of them (all but the last), and with none it visits none. |
| ControlFlowGraph.BlockEdges | qdb/control_flow_graph.py:78-89 | One iteration of the edge loop emits only edges leaving this block. It raises the lookup error iff the block ends in a jump whose label is not in `targets`, and the final `ValueError` iff the block ends in an unsupported instruction. |
| ControlFlowGraph.EdgesUpTo | qdb/control_flow_graph.py:76-89 | After any number of iterations the edge list starts with `(root, 0)`; `EdgesUpToContents` and `EdgesUpToFails` characterise its members and its failures. |
| ControlFlowGraph.EdgesUpToContents | qdb/control_flow_graph.py:76-88 | The first k blocks emit `(root, 0)` first. An edge `(i, j)` is present iff i < k and either j = i + 1 after a fallthrough or conditional last instruction, or j is `targets` of the jump's label. |
| ControlFlowGraph.EdgesUpToFails | qdb/control_flow_graph.py:78-89 | The edge loop fails iff a visited block ends in a jump whose label is missing from `targets`, and the failure is always that lookup error. So the `ValueError` in the final `else` is unreachable. |
| ControlFlowGraph.MapSuccessorIsSuccessor | qdb/control_flow_graph.py:65-85 | Looking a label up in `targets` gives the same successor as "the last block labelled with it". |
| ControlFlowGraph.CfgEdges | qdb/control_flow_graph.py:76-91 | The graph's edges are `(root, 0)` plus exactly the successor pairs of the non-final blocks: fall into the next block, or jump to the last block carrying the label. |
| ControlFlowGraph.CfgFailsOnMissingLabel | qdb/control_flow_graph.py:81-85 | For a program of supported instructions, the builder fails iff some non-final block jumps to a label no block starts; the error is then the lookup error. The last block is never checked. |
| ControlFlowGraph.CfgFailsOnUnsupported | qdb/control_flow_graph.py:69-72 | The builder raises the unsupported-instruction error iff the program holds an unsupported instruction. |
| ControlFlowGraph.EmptyProgram | qdb/control_flow_graph.py:73-77 | An empty program has no blocks, and its graph is the lone edge `(root, 0)`. |
| ControlFlowGraph.StraightLineScan | qdb/control_flow_graph.py:60-70 | A program of fallthrough non-label instructions is collected into one open block, with no labels. |
| ControlFlowGraph.StraightLineProgram | qdb/control_flow_graph.py:51-91 | Such a program is one block, and its graph is the root edge only. |
| ControlFlowGraph.JumpFreeEdgeClimbs | qdb/control_flow_graph.py:76-88 | Without jumps, every edge goes from a node to a later one. |
| ControlFlowGraph.JumpFreeIsDag | qdb/control_flow_graph.py:94-97 | A program of supported instructions without jumps always gives an acyclic graph. |
| ControlFlowGraph.ControlFlowGraph | qdb/control_flow_graph.py:51-91 | A built graph always has the root edge `(root, 0)` first; `CfgEdges`, `CfgFailsOnMissingLabel`, `CfgFailsOnUnsupported` and `PartitionProperties` state its edges, its blocks and its errors. |
| ControlFlowGraph.JumpFreeBuilds | qdb/control_flow_graph.py:51-91 | A program of supported instructions without jumps never raises. |
| ControlFlowGraph.IsDag | qdb/control_flow_graph.py:94-97 | `is_dag` fails iff the builder fails; otherwise it is true iff the graph has no cycle. |
| ControlFlowGraph.ScanStaysFailed | qdb/control_flow_graph.py:60-72 | Once the partitioning loop has raised, the rest of the program does not matter. |
| ControlFlowGraph.EdgesStayFailed | qdb/control_flow_graph.py:77-85 | Once the edge loop has raised, later blocks do not matter. |
| Digraph.IsAcyclic | qdb/control_flow_graph.py:97 | The acyclicity check returns true iff the edge list has no closed walk. |
| Digraph.StuckGraphHasCycle | qdb/control_flow_graph.py:97 | A non-empty graph where every edge head has an out-edge has a cycle. |
| Digraph.RankedIsAcyclic | qdb/control_flow_graph.py:97 | A graph whose edges all increase a rank has no cycle. |
| Digraph.SinkRemovalKeepsCycles | qdb/control_flow_graph.py:97 | Deleting a sink and its incoming edges neither creates nor removes a cycle. |
| Qdb.QubitSet.UnionWith | qdb/__init__.py:39 | In-place `\|=`: the set becomes the old set plus the gate's qubits. |
| Qdb.EntanglePass | qdb/__init__.py:32-39 | One pass of the `for` loop mutates the shared set into the specification's single left-to-right pass from its old value. |
| Qdb.TrimToBreakpoint | qdb/__init__.py:21-48 | The whole function returns `Trimmed(prog)`, the error included. The `while` makes exactly one pass, or none when the breakpoint has no qubits, because `entangled_prev` aliases `entangled_qubits`. |
| Qdb.Absorb | qdb/__init__.py:34-39 | One iteration of the `for` loop only grows the set; a gate that meets the set adds all its qubits; anything added comes from a gate that met it. |
| Qdb.Entangle | qdb/__init__.py:32-39 | A full pass keeps every qubit it started from; `EntangleBounds` adds that it adds only gate qubits. |
| Qdb.Keeps | qdb/__init__.py:45 | The filter test keeps an instruction iff it is not a gate or it shares a qubit with the set. |
| Qdb.KeepTouching | qdb/__init__.py:41-47 | The filter never lengthens the program; `KeepTouchingSelects` states exactly which instructions it keeps, in order. |
| Qdb.Trimmed | qdb/__init__.py:21-48 | A successful trim keeps the program's breakpoints exactly and is no longer than the program; `TrimFailsUnlessOneBreakpoint` states when it raises. |
| Qdb.SetOf | qdb/__init__.py:28-35 | `set(qs)` holds exactly the elements of `qs`. |
| Qdb.Breakpoints | qdb/__init__.py:25 | Every element of the list comprehension is a breakpoint. |
| Qdb.BreakpointsCount | qdb/__init__.py:25 | The comprehension lists one instruction per breakpoint position of the program. |
| Qdb.TrimFailsUnlessOneBreakpoint | qdb/__init__.py:25-27 | Trimming raises iff the program does not hold exactly one breakpoint, and reports how many it holds. |
| Qdb.KeptPositions | qdb/__init__.py:41-47 | The positions the filter keeps are in range and strictly increasing. |
| Qdb.KeptPositionsMembership | qdb/__init__.py:45 | A position is selected iff the instruction there passes the filter test. |
| Qdb.KeepTouchingSelects | qdb/__init__.py:41-47 | The filtered program is the program restricted to increasing positions. A position is among them iff its instruction is a non-gate or a gate meeting the final set. So the output is an order-preserving subsequence that keeps every non-gate. |
| Qdb.FilterKeepsAll | qdb/__init__.py:41-47 | The filter returns the program unchanged iff every instruction passes the test. |
| Qdb.FilterDistributes | qdb/__init__.py:41-47 | The filter decides instruction by instruction: it distributes over concatenation. |
| Qdb.FilterDrops | qdb/__init__.py:45 | An instruction failing the test disappears from between its neighbours. |
| Qdb.FilterIdempotent | qdb/__init__.py:41-47 | Filtering twice by the same set equals filtering once. |
| Qdb.NothingMeetsEmpty | qdb/__init__.py:30-39 | A pass from the empty set adds nothing. |
| Qdb.EntangleBounds | qdb/__init__.py:28-39 | The entangled set contains the breakpoint's qubits, and everything else in it is a qubit of some gate of the program. |
| Qdb.EntanglePrefix | qdb/__init__.py:32-39 | The set only grows along the pass. |
| Qdb.EntangleAbsorbsForward | qdb/__init__.py:38-39 | A gate that meets the set when it is read has all its qubits in the final set. |
| Qdb.BreakpointsSurviveFilter | qdb/__init__.py:41-47 | The filter keeps every breakpoint, in order. |
| Qdb.FilterKeepsEntangled | qdb/__init__.py:32-47 | Filtering by a superset of the reached set does not change what the pass reaches. |
| Qdb.TrimIdempotent | qdb/__init__.py:21-48 | Trimming an already trimmed program returns it unchanged. |
| Qdb.EmptyBreakpointDropsGates | qdb/__init__.py:28-47 | With an empty breakpoint, the loop never runs: the output holds no gate and keeps every non-gate. |
| Qdb.FilterOverEmpty | qdb/__init__.py:45 | Over the empty set, the filter keeps exactly the non-gates. |
| Qdb.SoleBreakpoint | qdb/__init__.py:25 | A program whose only breakpoint is at k lists exactly that breakpoint. |
| Qdb.NoBreakpoints | qdb/__init__.py:25 | A program with no breakpoint lists none. |
| Qdb.StableIsClosed | qdb/__init__.py:30-39 | A pass leaves the set unchanged iff no gate meets the set without lying inside it. |
| Qdb.PassStaysInClosed | qdb/__init__.py:32-39 | A pass from inside a closed set stays inside it. |
| Qdb.Closure | qdb/__init__.py:29-39 | The corrected loop's result contains the seed and is closed under the gates. |
| Qdb.ClosureIsLeast | qdb/__init__.py:29-39 | The fixed point is the least closed set containing the seed. |
| Qdb.SinglePassVersusClosure | qdb/__init__.py:29-39 | The single pass reaches a subset of the fixed point, and it reaches all of it iff its own result is closed. |
| Qdb.TrimmedWithinClosureTrim | qdb/__init__.py:21-48 | The trim as written and the corrected trim fail on the same programs. Every instruction the first keeps, the second keeps too. They agree when the single pass reaches a closed set. |
| Qdb.ClosureTrimIdempotent | qdb/__init__.py:21-48 | The corrected trim is idempotent. |
| Qdb.ClosureOfFiltered | qdb/__init__.py:29-47 | Closing over the corrected trim's output reaches the same set. |
| Qdb.ClosureStops | qdb/__init__.py:30 | A pass that keeps the size of the set has reached the fixed point. |
| Qdb.ClosureGrows | qdb/__init__.py:30-39 | A pass that grows the set does not move the fixed point. |
| Qdb.ClosureOfEmpty | qdb/__init__.py:28-30 | The fixed point from an empty breakpoint is empty. |
| Qdb.TrimToClosure | qdb/__init__.py:21-48 | The corrected method repeats the pass on a fresh copy of the set until its size stops changing, and returns the corrected trim. |
| CfgExamples.SimpleGraph | qdb/tests/test_control_flow_graph.py:12-20 | `H 0; CNOT 0 1` is one block with the root edge only. |
| CfgExamples.SimpleIsDag | qdb/tests/test_control_flow_graph.py:20 | Its graph is acyclic. |
| CfgExamples.IfScan | qdb/tests/test_control_flow_graph.py:22-28 | The partition of the `if_then` program, with its label map. |
| CfgExamples.IfEdgeList | qdb/tests/test_control_flow_graph.py:32 | The edge loop over its blocks gives the edges `(root,0), (0,1), (0,2), (1,3), (2,3)`. |
| CfgExamples.IfGraph | qdb/tests/test_control_flow_graph.py:22-32 | The `if_then` program gives 4 blocks and those edges. |
| CfgExamples.IfIsDag | qdb/tests/test_control_flow_graph.py:33 | Its graph is acyclic. |
| CfgExamples.WhileScan | qdb/tests/test_control_flow_graph.py:35-43 | The partition of the `while_do` program, with its label map. |
| CfgExamples.WhileEdgeList | qdb/tests/test_control_flow_graph.py:47 | The edges `(root,0), (0,1), (1,2), (1,3), (2,1)`. |
| CfgExamples.WhileGraph | qdb/tests/test_control_flow_graph.py:35-47 | The `while_do` program gives 4 blocks and those edges. |
| CfgExamples.WhileIsNotDag | qdb/tests/test_control_flow_graph.py:48 | Its graph has the cycle 1 → 2 → 1. |
| CfgExamples.AllKindsGraph | qdb/tests/test_control_flow_graph.py:50-65 | Every supported fallthrough kind in a row is one block with the root edge only. |
| CfgExamples.AllKindsIsDag | qdb/tests/test_control_flow_graph.py:66 | Its graph is acyclic. |
| CfgExamples.HaltScan | qdb/tests/test_control_flow_graph.py:68-76 | The partition of the program with a HALT branch. |
| CfgExamples.HaltEdgeList | qdb/tests/test_control_flow_graph.py:80 | The edges `(root,0), (0,1), (0,2), (1,3)`: the HALT block emits none. |
| CfgExamples.HaltGraph | qdb/tests/test_control_flow_graph.py:68-80 | The HALT program gives 4 blocks and those edges. |
| CfgExamples.HaltIsDag | qdb/tests/test_control_flow_graph.py:81 | Its graph is acyclic. |
| CfgExamples.WaitIsUnhandled | qdb/control_flow_graph.py:71-72 | WAIT, which the tests leave open, makes the builder raise. |
| CfgExamples.MissingLabelIsUnknown | qdb/control_flow_graph.py:81-82 | A jump to an undefined label from a non-final block raises the lookup error. |
| CfgExamples.FinalJumpIsNotResolved | qdb/control_flow_graph.py:77 | The same jump in the last block goes unnoticed. |
| TrimExamples.BasicUnchanged | qdb/tests/test_trim_to_breakpoint.py:10-12 | Trimming `H 0; CNOT 0 1; CNOT 1 2` with a breakpoint on 0, 1, 2 returns the program unchanged. |
| TrimExamples.EntangledSeedIsClosed | qdb/tests/test_trim_to_breakpoint.py:14-24 | In the entangled test program, the pass from {0, 1, 2} adds nothing. |
| TrimExamples.EntangledFilter | qdb/tests/test_trim_to_breakpoint.py:14-28 | The filter over {0, 1, 2} drops exactly `H 3` and `CZ 3 4`. |
| TrimExamples.EntangledDropsUnrelatedGates | qdb/tests/test_trim_to_breakpoint.py:14-28 | Trimming the program with `H 3` and `CZ 3 4` in its branches gives the same program built without them. |
| TrimExamples.LateLinkPass | qdb/__init__.py:32-39 | In `CNOT 1 2; CNOT 0 1; BREAKPOINT 0`, the single pass reaches {0, 1} only. |
| TrimExamples.LateLinkKeepsEverything | qdb/__init__.py:41-47 | The filter still keeps `CNOT 1 2`, so nothing is dropped. |
| TrimExamples.ChainPass | qdb/__init__.py:29-39 | In `H 2; CNOT 1 2; CNOT 0 1; BREAKPOINT 0`, the single pass reaches {0, 1}, which is not closed. |
| TrimExamples.ChainSinglePassDropsGate | qdb/__init__.py:21-48 | The trim as written drops `H 2`, although `CNOT 1 2` links qubit 2 to the breakpoint. |
| TrimExamples.ChainClosure | qdb/__init__.py:29-39 | The fixed point from {0} is {0, 1, 2}. |
| TrimExamples.ChainClosureKeepsGate | qdb/__init__.py:21-48 | The corrected trim keeps the whole program. |

## Left out

- `qdb/utils.py` (trimming per basic block, branch rewiring): it is not part
  of this model.
- `debug` in `qdb/__init__.py`: it builds tomography experiments and runs them
  on a `QuantumComputer`. That is I/O on a device and a simulator.
- networkx: the graph is kept as its edge list. The node set is the edge
  endpoints, and `is_directed_acyclic_graph` is replaced by `Digraph.IsAcyclic`,
  whose correctness is proved. A repeated edge is kept twice in the list, but
  that changes no cycle.
- Gate names, parameters and `defgate`: a gate is modelled by its qubit
  list. Adding a `DEFGATE` to a pyquil program adds no instruction to the
  stream the builder iterates over.
- The payloads of `DECLARE`, `MEASURE` and the classical instructions: only
  their kind matters to both analyses.
- pyquil's program builders (`if_then`, `while_do`, `declare`, `measure`) and
  their generated label names: the example programs write their expansions out
  by hand, with fixed label names.
- The measurement-dependent control flow noted as a FIXME in the trim loop:
  the source does not handle it either.
- Program objects and their equality: programs are instruction sequences.
- `Qdb.TrimToBreakpoint`: the number of passes is a ghost out-parameter. The
  source does not return it.

## Findings

| source | as written | input that shows it | evidently intended | confidence | as-written member | corrected member |
|---|---|---|---|---|---|---|
| qdb/__init__.py:29-31 | Assigning `entangled_qubits` to `entangled_prev` binds both names to one set, and the in-place union grows that set. After one pass the `while` condition compares a set with itself, so the loop stops after a single left-to-right pass. | `H 2; CNOT 1 2; CNOT 0 1; BREAKPOINT 0`: one pass reaches {0, 1}, so `H 2` is dropped, although qubit 2 reaches qubit 0 through the two CNOTs | repeat the pass until the set stops growing (copy the set into `entangled_prev`) | high (not executed) | TrimExamples.ChainSinglePassDropsGate | Qdb.TrimToClosure |

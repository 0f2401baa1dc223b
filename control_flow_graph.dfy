/**
 * The control-flow graph of a Quil program: the program is cut into basic
 * blocks in one left-to-right pass, a label is mapped to the block it starts,
 * and an edge list over the nodes `Root` and `Block(i)` is built from the last
 * instruction of every block but the final one.
 *
 * `Scan`/`Step` specify the partitioning pass, `EdgesUpTo`/`BlockEdges` the
 * edge pass and `ControlFlowGraph` the whole; `GetControlFlowGraph` is the
 * imperative builder, proved to compute exactly that.
 */
module ControlFlowGraph {
  import opened Quil
  import Digraph

  type BasicBlock = seq<Instruction>

  datatype Node = Root | Block(index: nat)

  type Edge = (Node, Node)

  /** The two ways building the graph fails: an unsupported instruction, and a jump to a missing label. */
  datatype CfgError =
    | UnhandledInstruction(inst: Instruction)
    | UnknownLabel(missing: Label)

  /** The graph (as its edge list) and the basic blocks. */
  datatype Cfg = Cfg(edges: seq<Edge>, blocks: seq<BasicBlock>)

  /** The state of the partitioning pass: the finished blocks, the open block and the label map. */
  datatype Scanner = Scanner(blocks: seq<BasicBlock>, block: BasicBlock, targets: map<Label, nat>)

  // ---------------------------------------------------------------------------
  // Specification of the partitioning pass

  /** One iteration of the partitioning loop. */
  function Step(s: Scanner, inst: Instruction): (r: Result<Scanner, CfgError>)
    ensures r.Err? <==> inst.Other?
    ensures r.Err? ==> r.error == UnhandledInstruction(inst)
  {
    if inst.JumpTarget? then
      var blocks := if s.block != [] then s.blocks + [s.block] else s.blocks;
      Ok(Scanner(blocks, [inst], s.targets[inst.lbl := |blocks|]))
    else if IsControlTransfer(inst) then
      Ok(Scanner(s.blocks + [s.block + [inst]], [], s.targets))
    else if IsFallthrough(inst) then
      Ok(Scanner(s.blocks, s.block + [inst], s.targets))
    else
      Err(UnhandledInstruction(inst))
  }

  /** The partitioning loop run over `prog`; it stops at the first error. */
  function Scan(prog: seq<Instruction>): (r: Result<Scanner, CfgError>)
    ensures r.Err? ==> r.error.UnhandledInstruction? && r.error.inst.Other? && r.error.inst in prog
    decreases |prog|
  {
    if prog == [] then Ok(Scanner([], [], map[]))
    else
      assert prog[..|prog| - 1] + [Last(prog)] == prog;
      match Scan(prog[..|prog| - 1])
      case Err(e) => Err(e)
      case Ok(s) => Step(s, Last(prog))
  }

  /** The blocks once the open block is flushed. */
  function Flush(s: Scanner): seq<BasicBlock> {
    if s.block != [] then s.blocks + [s.block] else s.blocks
  }

  // ---------------------------------------------------------------------------
  // Shape of a partition

  function Concat(bs: seq<BasicBlock>): seq<Instruction>
    decreases |bs|
  {
    if bs == [] then [] else Concat(bs[..|bs| - 1]) + Last(bs)
  }

  /** The block starts with `LABEL l`. */
  predicate Labelled(b: BasicBlock, l: Label) {
    b != [] && b[0] == JumpTarget(l)
  }

  /**
   * A finished block: non-empty, a label only in front, every instruction but
   * the last falls through, and the last falls through or transfers control.
   */
  ghost predicate WellShaped(b: BasicBlock) {
    b != [] &&
    (forall k | 0 < k < |b| :: !b[k].JumpTarget?) &&
    (forall k | 0 <= k < |b| - 1 :: IsFallthrough(b[k])) &&
    (IsFallthrough(Last(b)) || IsControlTransfer(Last(b)))
  }

  /** The block being collected: a label only in front and only fallthrough instructions. */
  ghost predicate Open(b: BasicBlock) {
    (forall k | 0 < k < |b| :: !b[k].JumpTarget?) &&
    (forall k | 0 <= k < |b| :: IsFallthrough(b[k]))
  }

  /** Two neighbouring blocks are separate only because the first transfers control or the second is labelled. */
  ghost predicate Cut(bs: seq<BasicBlock>) {
    forall i | 0 <= i < |bs| - 1 ::
      bs[i] != [] && bs[i + 1] != [] ==> IsControlTransfer(Last(bs[i])) || bs[i + 1][0].JumpTarget?
  }

  /** Block `j` is the last block that starts with `LABEL l`. */
  ghost predicate LastLabelled(bs: seq<BasicBlock>, l: Label, j: int) {
    0 <= j < |bs| && Labelled(bs[j], l) && forall k | j < k < |bs| :: !Labelled(bs[k], l)
  }

  /** `targets` maps exactly the labels that start a block, each to the last block it starts. */
  ghost predicate TargetsResolve(bs: seq<BasicBlock>, targets: map<Label, nat>) {
    (forall l | l in targets :: LastLabelled(bs, l, targets[l])) &&
    (forall j, l | 0 <= j < |bs| && Labelled(bs[j], l) :: l in targets)
  }

  /** What the partitioning loop keeps true of its state after reading `prog`. */
  ghost predicate ScanInv(s: Scanner, prog: seq<Instruction>) {
    Concat(s.blocks) + s.block == prog &&
    (forall j | 0 <= j < |s.blocks| :: WellShaped(s.blocks[j])) &&
    Open(s.block) &&
    (s.block == [] && s.blocks != [] ==> IsControlTransfer(Last(Last(s.blocks)))) &&
    Cut(Flush(s)) &&
    TargetsResolve(Flush(s), s.targets)
  }

  lemma ConcatSnoc(bs: seq<BasicBlock>, b: BasicBlock)
    ensures Concat(bs + [b]) == Concat(bs) + b
  {
    assert (bs + [b])[..|bs|] == bs;
  }

  lemma StepKeepsInv(s: Scanner, prog: seq<Instruction>, inst: Instruction)
    requires ScanInv(s, prog)
    requires Step(s, inst).Ok?
    ensures ScanInv(Step(s, inst).value, prog + [inst])
  {
    if inst.JumpTarget? {
      LabelKeepsInv(s, prog, inst);
    } else {
      AppendKeepsInv(s, prog, inst);
    }
  }

  lemma LabelKeepsInv(s: Scanner, prog: seq<Instruction>, inst: Instruction)
    requires ScanInv(s, prog)
    requires inst.JumpTarget?
    ensures ScanInv(Step(s, inst).value, prog + [inst])
  {
    var t := Step(s, inst).value;
    var all := Flush(s);
    assert t.blocks == all && t.block == [inst];
    if s.block != [] {
      ConcatSnoc(s.blocks, s.block);
      assert WellShaped(s.block);
    }
    assert Concat(t.blocks) == Concat(s.blocks) + s.block;
    assert Flush(t) == all + [[inst]];
    StepLabelResolves(all, s.targets, inst.lbl);
    CutAppend(all, [inst]);
  }

  lemma AppendKeepsInv(s: Scanner, prog: seq<Instruction>, inst: Instruction)
    requires ScanInv(s, prog)
    requires !inst.JumpTarget? && Step(s, inst).Ok?
    ensures ScanInv(Step(s, inst).value, prog + [inst])
  {
    var t := Step(s, inst).value;
    var all := Flush(s);
    var b := s.block + [inst];
    InstructionKinds(inst);
    assert Flush(t) == s.blocks + [b];
    if IsControlTransfer(inst) {
      assert t.blocks == s.blocks + [b] && t.block == [];
      ConcatSnoc(s.blocks, b);
      assert WellShaped(b);
    } else {
      assert t.blocks == s.blocks && t.block == b;
      assert Open(b);
    }
    if s.block == [] {
      assert b == [inst];
      assert Flush(t) == all + [[inst]];
      AppendUnlabelledResolves(all, s.targets, [inst]);
      CutAppend(all, [inst]);
    } else {
      ReplaceLastResolves(s.blocks, s.block, b, s.targets);
      CutReplaceLast(s.blocks, s.block, b);
    }
  }

  lemma CutAppend(all: seq<BasicBlock>, b: BasicBlock)
    requires Cut(all)
    requires b != []
    requires all != [] && Last(all) != [] ==> IsControlTransfer(Last(Last(all))) || b[0].JumpTarget?
    ensures Cut(all + [b])
  {
    var all': seq<BasicBlock> := all + [b];
    forall i | 0 <= i < |all'| - 1 && all'[i] != [] && all'[i + 1] != []
      ensures IsControlTransfer(Last(all'[i])) || all'[i + 1][0].JumpTarget?
    {
      if i < |all| - 1 {
        assert all'[i] == all[i] && all'[i + 1] == all[i + 1];
      }
    }
  }

  lemma CutReplaceLast(blocks: seq<BasicBlock>, b: BasicBlock, b': BasicBlock)
    requires Cut(blocks + [b])
    requires b != [] && b' != [] && b'[0] == b[0]
    ensures Cut(blocks + [b'])
  {
    var all: seq<BasicBlock>, all': seq<BasicBlock> := blocks + [b], blocks + [b'];
    forall i | 0 <= i < |all'| - 1 && all'[i] != [] && all'[i + 1] != []
      ensures IsControlTransfer(Last(all'[i])) || all'[i + 1][0].JumpTarget?
    {
      assert all'[i] == all[i];
      assert all'[i + 1][0] == all[i + 1][0];
    }
  }

  lemma StepLabelResolves(all: seq<BasicBlock>, targets: map<Label, nat>, l: Label)
    requires TargetsResolve(all, targets)
    ensures TargetsResolve(all + [[JumpTarget(l)]], targets[l := |all|])
  {
    var all', targets' := all + [[JumpTarget(l)]], targets[l := |all|];
    assert Labelled(all'[|all|], l);
    forall m | m in targets' ensures LastLabelled(all', m, targets'[m]) {
      if m != l {
        assert LastLabelled(all, m, targets[m]);
        assert all'[targets[m]] == all[targets[m]];
        forall k | targets[m] < k < |all'| ensures !Labelled(all'[k], m) {
          if k < |all| { assert all'[k] == all[k]; }
        }
      }
    }
    forall j, m | 0 <= j < |all'| && Labelled(all'[j], m) ensures m in targets' {
      if j < |all| { assert all'[j] == all[j]; }
    }
  }

  lemma AppendUnlabelledResolves(all: seq<BasicBlock>, targets: map<Label, nat>, b: BasicBlock)
    requires TargetsResolve(all, targets)
    requires b != [] && !b[0].JumpTarget?
    ensures TargetsResolve(all + [b], targets)
  {
    var all': seq<BasicBlock> := all + [b];
    forall m | m in targets ensures LastLabelled(all', m, targets[m]) {
      assert LastLabelled(all, m, targets[m]);
      assert all'[targets[m]] == all[targets[m]];
      forall k | targets[m] < k < |all'| ensures !Labelled(all'[k], m) {
        if k < |all| { assert all'[k] == all[k]; }
      }
    }
    forall j, m | 0 <= j < |all'| && Labelled(all'[j], m) ensures m in targets {
      if j < |all| { assert all'[j] == all[j]; }
    }
  }

  lemma ReplaceLastResolves(blocks: seq<BasicBlock>, b: BasicBlock, b': BasicBlock, targets: map<Label, nat>)
    requires TargetsResolve(blocks + [b], targets)
    requires b != [] && b' != [] && b'[0] == b[0]
    ensures TargetsResolve(blocks + [b'], targets)
  {
    var all: seq<BasicBlock>, all': seq<BasicBlock> := blocks + [b], blocks + [b'];
    assert forall k | 0 <= k < |all| :: forall m :: Labelled(all[k], m) <==> Labelled(all'[k], m);
    forall m | m in targets ensures LastLabelled(all', m, targets[m]) {
      assert LastLabelled(all, m, targets[m]);
    }
  }

  /** The partitioning loop keeps `ScanInv`. */
  lemma {:induction false} ScanInvariant(prog: seq<Instruction>)
    ensures Scan(prog).Ok? ==> ScanInv(Scan(prog).value, prog)
    decreases |prog|
  {
    if prog != [] {
      var init := prog[..|prog| - 1];
      ScanInvariant(init);
      if Scan(init).Ok? && Scan(prog).Ok? {
        var st := Scan(init).value;
        assert Scan(prog) == Step(st, Last(prog));
        StepKeepsInv(st, init, Last(prog));
        assert init + [Last(prog)] == prog;
      }
    }
  }

  /**
   * The blocks returned by the partitioning pass concatenate to the program,
   * every block is well shaped, blocks are cut only where a label starts or a
   * control transfer ends one, and the label map sends each label to the last
   * block it starts.
   */
  lemma PartitionProperties(prog: seq<Instruction>)
    requires Scan(prog).Ok?
    ensures var s := Scan(prog).value;
      Concat(Flush(s)) == prog &&
      (forall j | 0 <= j < |Flush(s)| :: WellShaped(Flush(s)[j])) &&
      Cut(Flush(s)) &&
      TargetsResolve(Flush(s), s.targets)
  {
    ScanInvariant(prog);
    var s := Scan(prog).value;
    if s.block != [] {
      ConcatSnoc(s.blocks, s.block);
      assert WellShaped(s.block);
    }
  }

  lemma BlocksWellShaped(prog: seq<Instruction>)
    requires Scan(prog).Ok?
    ensures forall j | 0 <= j < |Flush(Scan(prog).value)| :: WellShaped(Flush(Scan(prog).value)[j])
  {
    PartitionProperties(prog);
  }

  /**
   * The partitioning pass fails exactly when the program holds an unsupported
   * instruction, and then reports the first one.
   */
  lemma {:induction false} ScanFailsOnUnsupported(prog: seq<Instruction>)
    ensures Scan(prog).Err? <==> exists k | 0 <= k < |prog| :: prog[k].Other?
    ensures Scan(prog).Err? ==> exists k | 0 <= k < |prog| ::
      prog[k].Other? && (forall m | 0 <= m < k :: !prog[m].Other?) &&
      Scan(prog).error == UnhandledInstruction(prog[k])
    decreases |prog|
  {
    if prog != [] {
      var init := prog[..|prog| - 1];
      ScanFailsOnUnsupported(init);
      assert forall k | 0 <= k < |init| :: init[k] == prog[k];
      if Scan(init).Err? {
        var k :| 0 <= k < |init| && init[k].Other? && (forall m | 0 <= m < k :: !init[m].Other?) &&
          Scan(init).error == UnhandledInstruction(init[k]);
        assert prog[k].Other?;
      } else {
        InstructionKinds(Last(prog));
        if Last(prog).Other? {
          assert prog[|prog| - 1].Other?;
        }
      }
    }
  }

  // ---------------------------------------------------------------------------
  // Specification of the edge pass

  /** The outgoing edges of block `i`, decided by its last instruction. */
  function BlockEdges(bs: seq<BasicBlock>, targets: map<Label, nat>, i: nat): (r: Result<seq<Edge>, CfgError>)
    requires i < |bs| && bs[i] != []
    ensures r.Ok? ==> forall e | e in r.value :: e.0 == Block(i)
    ensures (r.Err? && r.error.UnknownLabel?) <==> IsJump(Last(bs[i])) && Last(bs[i]).target !in targets
    ensures (r.Err? && r.error.UnhandledInstruction?) <==> Last(bs[i]).Other?
  {
    var inst := Last(bs[i]);
    if IsFallthrough(inst) then
      Ok([(Block(i), Block(i + 1))])
    else if inst.Jump? then
      if inst.target in targets then Ok([(Block(i), Block(targets[inst.target]))])
      else Err(UnknownLabel(inst.target))
    else if inst.JumpConditional? then
      if inst.target in targets then Ok([(Block(i), Block(i + 1)), (Block(i), Block(targets[inst.target]))])
      else Err(UnknownLabel(inst.target))
    else if inst.Halt? then
      Ok([])
    else
      Err(UnhandledInstruction(inst))
  }

  /** The edge list after the edge loop has visited blocks `0 .. k-1`. */
  function EdgesUpTo(bs: seq<BasicBlock>, targets: map<Label, nat>, k: nat): (r: Result<seq<Edge>, CfgError>)
    requires k <= |bs|
    requires forall j | 0 <= j < |bs| :: WellShaped(bs[j])
    ensures r.Ok? ==> r.value != [] && r.value[0] == (Root, Block(0))
    decreases k
  {
    if k == 0 then Ok([(Root, Block(0))])
    else
      match EdgesUpTo(bs, targets, k - 1)
      case Err(e) => Err(e)
      case Ok(es) =>
        match BlockEdges(bs, targets, k - 1)
        case Err(e) => Err(e)
        case Ok(more) => Ok(es + more)
  }

  /** The number of blocks whose edges are emitted: all but the last one. */
  function EmittingBlocks(n: nat): (r: nat)
    ensures n > 0 ==> r + 1 == n
    ensures n == 0 ==> r == 0
  {
    if n == 0 then 0 else n - 1
  }

  /** What `get_control_flow_graph` returns, or the error it raises. */
  function ControlFlowGraph(prog: seq<Instruction>): (r: Result<Cfg, CfgError>)
    ensures r.Ok? ==> r.value.edges != [] && r.value.edges[0] == (Root, Block(0))
  {
    match Scan(prog)
    case Err(e) => Err(e)
    case Ok(s) =>
      var bs := Flush(s);
      PartitionProperties(prog);
      match EdgesUpTo(bs, s.targets, EmittingBlocks(|bs|))
      case Err(e) => Err(e)
      case Ok(es) => Ok(Cfg(es, bs))
  }

  /** What `is_dag` returns: whether the edge set of the graph has no cycle. */
  function IsDag(prog: seq<Instruction>): (r: Result<bool, CfgError>)
    ensures r.Ok? <==> ControlFlowGraph(prog).Ok?
    ensures r.Ok? ==> (r.value <==> !Digraph.HasCycle(ControlFlowGraph(prog).value.edges))
  {
    match ControlFlowGraph(prog)
    case Err(e) => Err(e)
    case Ok(g) => Ok(Digraph.IsAcyclic(g.edges))
  }

  // ---------------------------------------------------------------------------
  // The builder

  /**
   * `get_control_flow_graph`: the block pass, then the edge pass. The two
   * loops of the source are the two methods it calls.
   */
  method GetControlFlowGraph(prog: seq<Instruction>) returns (r: Result<Cfg, CfgError>)
    ensures r == ControlFlowGraph(prog)
  {
    var partition := CollectBlocks(prog);
    if partition.Err? {
      return Err(partition.error);
    }
    var (basicBlocks, targets) := partition.value;
    BlocksWellShaped(prog);
    var edges := EmitEdges(basicBlocks, targets);
    if edges.Err? {
      return Err(edges.error);
    }
    r := Ok(Cfg(edges.value, basicBlocks));
  }

  /**
   * The block pass: cuts `prog` into basic blocks and maps each label to the
   * index of the block it starts.
   */
  method CollectBlocks(prog: seq<Instruction>) returns (r: Result<(seq<BasicBlock>, map<Label, nat>), CfgError>)
    ensures Scan(prog).Err? ==> r == Err(Scan(prog).error)
    ensures Scan(prog).Ok? ==> r == Ok((Flush(Scan(prog).value), Scan(prog).value.targets))
  {
    var targets: map<Label, nat> := map[];
    var basicBlocks: seq<BasicBlock> := [];
    var block: BasicBlock := [];
    for i := 0 to |prog|
      invariant Scan(prog[..i]) == Ok(Scanner(basicBlocks, block, targets))
    {
      var inst := prog[i];
      assert prog[..i + 1][..i] == prog[..i];
      if inst.JumpTarget? {
        if block != [] {
          basicBlocks := basicBlocks + [block];
        }
        block := [inst];
        targets := targets[inst.lbl := |basicBlocks|];
      } else if inst.Jump? || inst.JumpConditional? || inst.Halt? {
        basicBlocks := basicBlocks + [block + [inst]];
        block := [];
      } else if IsFallthrough(inst) {
        block := block + [inst];
      } else {
        ScanStaysFailed(prog, i + 1);
        return Err(UnhandledInstruction(inst));
      }
    }
    assert prog[..|prog|] == prog;
    if block != [] {
      basicBlocks := basicBlocks + [block];
    }
    r := Ok((basicBlocks, targets));
  }

  /**
   * The edge pass: `(Root, Block(0))`, then the edges of every block but the
   * last, decided by the block's last instruction; looking up a missing label fails.
   */
  method EmitEdges(bs: seq<BasicBlock>, targets: map<Label, nat>) returns (r: Result<seq<Edge>, CfgError>)
    requires forall j | 0 <= j < |bs| :: WellShaped(bs[j])
    ensures r == EdgesUpTo(bs, targets, EmittingBlocks(|bs|))
  {
    var edges: seq<Edge> := [(Root, Block(0))];
    for blockIdx := 0 to EmittingBlocks(|bs|)
      invariant EdgesUpTo(bs, targets, blockIdx) == Ok(edges)
    {
      var inst := bs[blockIdx][|bs[blockIdx]| - 1];
      ghost var before := edges;
      ghost var emitted := BlockEdges(bs, targets, blockIdx);
      if IsFallthrough(inst) {
        edges := edges + [(Block(blockIdx), Block(blockIdx + 1))];
      } else if inst.Jump? {
        if inst.target !in targets {
          EdgesStayFailed(bs, targets, blockIdx + 1, EmittingBlocks(|bs|));
          return Err(UnknownLabel(inst.target));
        }
        edges := edges + [(Block(blockIdx), Block(targets[inst.target]))];
      } else if inst.JumpConditional? {
        edges := edges + [(Block(blockIdx), Block(blockIdx + 1))];
        if inst.target !in targets {
          EdgesStayFailed(bs, targets, blockIdx + 1, EmittingBlocks(|bs|));
          return Err(UnknownLabel(inst.target));
        }
        edges := edges + [(Block(blockIdx), Block(targets[inst.target]))];
      } else if inst.Halt? {
      } else {
        // The source raises here; a well-shaped block never ends in any other instruction.
        assert false;
      }
      assert emitted.Ok? && edges == before + emitted.value;
    }
    r := Ok(edges);
  }

  /** Once the partitioning loop fails it reports that failure for the whole program. */
  lemma {:induction false} ScanStaysFailed(prog: seq<Instruction>, k: nat)
    requires k <= |prog|
    requires Scan(prog[..k]).Err?
    ensures Scan(prog) == Scan(prog[..k])
    decreases |prog| - k
  {
    if k < |prog| {
      assert prog[..k + 1][..k] == prog[..k];
      ScanStaysFailed(prog, k + 1);
    } else {
      assert prog[..k] == prog;
    }
  }

  /** Once the edge loop fails it reports that failure at the end. */
  lemma {:induction false} EdgesStayFailed(bs: seq<BasicBlock>, targets: map<Label, nat>, k: nat, n: nat)
    requires k <= n <= |bs|
    requires forall j | 0 <= j < |bs| :: WellShaped(bs[j])
    requires EdgesUpTo(bs, targets, k).Err?
    ensures EdgesUpTo(bs, targets, n) == EdgesUpTo(bs, targets, k)
    decreases n - k
  {
    if k < n {
      EdgesStayFailed(bs, targets, k + 1, n);
    }
  }

  // ---------------------------------------------------------------------------
  // Properties of the edges

  /**
   * Control may pass from the (non-final) block `i` to block `j`: by falling off
   * its end (a fallthrough or conditional last instruction) into `i + 1`, or by
   * jumping to the last block labelled with the jump's target.
   */
  ghost predicate Successor(bs: seq<BasicBlock>, i: nat, j: nat) {
    i + 1 < |bs| && bs[i] != [] &&
    var inst := Last(bs[i]);
    (j == i + 1 && (IsFallthrough(inst) || inst.JumpConditional?)) ||
    (IsJump(inst) && LastLabelled(bs, inst.target, j))
  }

  /** Block `i` ends in a jump or conditional jump whose label starts no block. */
  ghost predicate JumpsNowhere(bs: seq<BasicBlock>, i: nat) {
    i < |bs| && bs[i] != [] && IsJump(Last(bs[i])) &&
    forall j | 0 <= j < |bs| :: !Labelled(bs[j], Last(bs[i]).target)
  }

  /** The same successor relation, read off the label map. */
  ghost predicate MapSuccessor(bs: seq<BasicBlock>, targets: map<Label, nat>, i: nat, j: nat) {
    i < |bs| && bs[i] != [] &&
    var inst := Last(bs[i]);
    (j == i + 1 && (IsFallthrough(inst) || inst.JumpConditional?)) ||
    (IsJump(inst) && inst.target in targets && targets[inst.target] == j)
  }

  lemma {:induction false} EdgesUpToContents(bs: seq<BasicBlock>, targets: map<Label, nat>, k: nat)
    requires k <= |bs|
    requires forall j | 0 <= j < |bs| :: WellShaped(bs[j])
    requires EdgesUpTo(bs, targets, k).Ok?
    ensures var es := EdgesUpTo(bs, targets, k).value;
      es != [] && es[0] == (Root, Block(0)) &&
      forall e :: e in es <==>
        e == (Root, Block(0)) ||
        (e.0.Block? && e.1.Block? && e.0.index < k && MapSuccessor(bs, targets, e.0.index, e.1.index))
    decreases k
  {
    if k > 0 {
      EdgesUpToContents(bs, targets, k - 1);
      var i := k - 1;
      var inst := Last(bs[i]);
      InstructionKinds(inst);
      var es := EdgesUpTo(bs, targets, k - 1).value;
      var more := BlockEdges(bs, targets, i).value;
      assert EdgesUpTo(bs, targets, k).value == es + more;
      assert forall e :: e in more <==> e.0 == Block(i) && e.1.Block? && MapSuccessor(bs, targets, i, e.1.index);
    }
  }

  lemma {:induction false} EdgesUpToFails(bs: seq<BasicBlock>, targets: map<Label, nat>, k: nat)
    requires k <= |bs|
    requires forall j | 0 <= j < |bs| :: WellShaped(bs[j])
    ensures EdgesUpTo(bs, targets, k).Err? <==>
      exists i | 0 <= i < k :: IsJump(Last(bs[i])) && Last(bs[i]).target !in targets
    ensures EdgesUpTo(bs, targets, k).Err? ==> EdgesUpTo(bs, targets, k).error.UnknownLabel?
    decreases k
  {
    if k > 0 {
      EdgesUpToFails(bs, targets, k - 1);
      InstructionKinds(Last(bs[k - 1]));
    }
  }

  /** Under a resolving label map, the map's successors are the successors. */
  lemma MapSuccessorIsSuccessor(bs: seq<BasicBlock>, targets: map<Label, nat>, i: nat, j: nat)
    requires TargetsResolve(bs, targets)
    requires i + 1 < |bs|
    ensures MapSuccessor(bs, targets, i, j) <==> Successor(bs, i, j)
  {
    if bs[i] != [] {
      var inst := Last(bs[i]);
      if IsJump(inst) && LastLabelled(bs, inst.target, j) {
        var l := inst.target;
        assert l in targets;
        assert LastLabelled(bs, l, targets[l]);
      }
    }
  }

  /**
   * The edges of the graph: `(Root, Block(0))` first, and besides it exactly the
   * edges `Block(i) -> Block(j)` with `j` a successor of the non-final block `i`.
   */
  lemma CfgEdges(prog: seq<Instruction>)
    requires ControlFlowGraph(prog).Ok?
    ensures var g := ControlFlowGraph(prog).value;
      g.edges != [] && g.edges[0] == (Root, Block(0)) &&
      forall e :: e in g.edges <==>
        e == (Root, Block(0)) ||
        (e.0.Block? && e.1.Block? && Successor(g.blocks, e.0.index, e.1.index))
  {
    PartitionProperties(prog);
    var s := Scan(prog).value;
    var bs := Flush(s);
    var n := EmittingBlocks(|bs|);
    EdgesUpToContents(bs, s.targets, n);
    forall i: nat, j: nat | i < n ensures MapSuccessor(bs, s.targets, i, j) <==> Successor(bs, i, j) {
      MapSuccessorIsSuccessor(bs, s.targets, i, j);
    }
  }

  /**
   * Building the graph of a program of supported instructions fails exactly
   * when a non-final block jumps to a label that starts no block, and then with
   * an unknown-label error.
   */
  lemma CfgFailsOnMissingLabel(prog: seq<Instruction>)
    requires forall k | 0 <= k < |prog| :: !prog[k].Other?
    ensures Scan(prog).Ok?
    ensures var bs := Flush(Scan(prog).value);
      (ControlFlowGraph(prog).Err? <==> exists i | 0 <= i < |bs| - 1 :: JumpsNowhere(bs, i)) &&
      (ControlFlowGraph(prog).Err? ==> ControlFlowGraph(prog).error.UnknownLabel?)
  {
    ScanFailsOnUnsupported(prog);
    PartitionProperties(prog);
    var s := Scan(prog).value;
    var bs := Flush(s);
    EdgesUpToFails(bs, s.targets, EmittingBlocks(|bs|));
    forall i | 0 <= i < |bs| - 1
      ensures (IsJump(Last(bs[i])) && Last(bs[i]).target !in s.targets) <==> JumpsNowhere(bs, i)
    {
      if IsJump(Last(bs[i])) && Last(bs[i]).target in s.targets {
        assert LastLabelled(bs, Last(bs[i]).target, s.targets[Last(bs[i]).target]);
      }
    }
  }

  /** Graph construction fails with an unsupported-instruction error exactly when one is in the program. */
  lemma CfgFailsOnUnsupported(prog: seq<Instruction>)
    ensures (ControlFlowGraph(prog).Err? && ControlFlowGraph(prog).error.UnhandledInstruction?) <==>
      exists k | 0 <= k < |prog| :: prog[k].Other?
  {
    ScanFailsOnUnsupported(prog);
    if forall k | 0 <= k < |prog| :: !prog[k].Other? {
      CfgFailsOnMissingLabel(prog);
    }
  }

  /** The empty program has no blocks and the single edge `(Root, Block(0))`. */
  lemma EmptyProgram()
    ensures ControlFlowGraph([]) == Ok(Cfg([(Root, Block(0))], []))
  {
  }

  /** A run of fallthrough instructions without labels stays in the open block. */
  lemma {:induction false} StraightLineScan(prog: seq<Instruction>)
    requires forall k | 0 <= k < |prog| :: IsFallthrough(prog[k]) && !prog[k].JumpTarget?
    ensures Scan(prog) == Ok(Scanner([], prog, map[]))
    decreases |prog|
  {
    if prog != [] {
      StraightLineScan(prog[..|prog| - 1]);
      assert prog[..|prog| - 1] + [Last(prog)] == prog;
    }
  }

  /**
   * A program of fallthrough instructions without labels is a single block, and
   * its graph is the root edge alone.
   */
  lemma StraightLineProgram(prog: seq<Instruction>)
    requires forall k | 0 <= k < |prog| :: IsFallthrough(prog[k]) && !prog[k].JumpTarget?
    ensures ControlFlowGraph(prog) == Ok(Cfg([(Root, Block(0))], if prog == [] then [] else [prog]))
  {
    StraightLineScan(prog);
    var bs := Flush(Scan(prog).value);
    assert bs == if prog == [] then [] else [prog];
    BlocksWellShaped(prog);
    assert EdgesUpTo(bs, map[], EmittingBlocks(|bs|)) == Ok([(Root, Block(0))]);
  }

  /** Orders the nodes so that every edge of a forward-only graph climbs. */
  function NodeRank(v: Node): nat {
    match v
    case Root => 0
    case Block(i) => i + 1
  }

  /** In a program without jumps every edge leads to a later node. */
  lemma JumpFreeEdgeClimbs(prog: seq<Instruction>, e: Edge)
    requires forall k | 0 <= k < |prog| :: !prog[k].Other? && !IsJump(prog[k])
    requires ControlFlowGraph(prog).Ok? && e in ControlFlowGraph(prog).value.edges
    ensures NodeRank(e.0) < NodeRank(e.1)
  {
    CfgEdges(prog);
    PartitionProperties(prog);
    if e.0.Block? {
      LastIsProgramInstruction(ControlFlowGraph(prog).value.blocks, e.0.index);
    }
  }

  /** A program of supported instructions without jumps always gets a graph. */
  lemma JumpFreeBuilds(prog: seq<Instruction>)
    requires forall k | 0 <= k < |prog| :: !prog[k].Other? && !IsJump(prog[k])
    ensures ControlFlowGraph(prog).Ok?
  {
    CfgFailsOnMissingLabel(prog);
    PartitionProperties(prog);
    var bs := Flush(Scan(prog).value);
    forall i | 0 <= i < |bs| - 1 ensures !JumpsNowhere(bs, i) {
      LastIsProgramInstruction(bs, i);
    }
  }

  /** A program without jumps has a graph without cycles. */
  lemma JumpFreeIsDag(prog: seq<Instruction>)
    requires forall k | 0 <= k < |prog| :: !prog[k].Other? && !IsJump(prog[k])
    ensures IsDag(prog) == Ok(true)
  {
    JumpFreeBuilds(prog);
    var g := ControlFlowGraph(prog).value;
    forall k | 0 <= k < |g.edges| ensures NodeRank(g.edges[k].0) < NodeRank(g.edges[k].1) {
      JumpFreeEdgeClimbs(prog, g.edges[k]);
    }
    Digraph.RankedIsAcyclic(g.edges, NodeRank);
  }

  /** Each block's last instruction is an instruction of the program. */
  lemma LastIsProgramInstruction(bs: seq<BasicBlock>, i: nat)
    requires i < |bs| && bs[i] != []
    ensures Last(bs[i]) in Concat(bs)
  {
    InConcat(bs, i, |bs[i]| - 1);
  }

  lemma {:induction false} InConcat(bs: seq<BasicBlock>, i: nat, k: nat)
    requires i < |bs| && k < |bs[i]|
    ensures bs[i][k] in Concat(bs)
    decreases |bs|
  {
    var init := bs[..|bs| - 1];
    assert Concat(bs) == Concat(init) + Last(bs);
    if i < |bs| - 1 {
      assert bs[i] == init[i];
      InConcat(init, i, k);
    } else {
      assert bs[i][k] in Last(bs);
    }
  }
}

/** Replaying stored blocks, and why it reproduces what assembly produced. */
module Replay {
  import opened Prelude
  import opened Blocks
  import opened Chain
  import opened Ledger
  import opened Execution
  import opened Mempool
  import opened Assembly

  datatype ReplayError =
    | HeightGap(expected: nat, got: nat)
    | ParentHashMismatch(height: nat)
    | BodyCountMismatch(height: nat)
    | MetadataMismatch(height: nat)
    | BlockHashMismatch(height: nat)
    | TxEncodingFailed(height: nat, index: nat)
    | TxHashMismatch(height: nat, index: nat)
    | ApplyFailed(height: nat, index: nat, cause: ApplyError)
    | TxRootMismatch(height: nat)
    | StateRootMismatch(height: nat, expectedRoot: Root, gotRoot: Root)

  // ----- The structure check -----

  function StructureError(height: nat, prev: BlockHash, s: StoredBlock): Option<ReplayError> {
    var h, m := s.block.header, s.metadata;
    if h.height != height then Some(HeightGap(height, h.height))
    else if h.prevHash != prev then Some(ReplayError.ParentHashMismatch(h.height))
    else if |s.block.txHashes| != |s.transactions| then Some(BodyCountMismatch(h.height))
    else if m.height != h.height || m.prevHash != h.prevHash || m.stateRoot != h.stateRoot || m.txRoot != h.txRoot
            || m.includedCount != |s.block.txHashes| then Some(MetadataMismatch(h.height))
    else if m.blockHash != ComputeBlockHash(s.block) then Some(BlockHashMismatch(h.height))
    else None
  }

  /** The first structural error among the blocks from `i` on. */
  function FirstStructureError(start: nat, prev: BlockHash, blocks: seq<StoredBlock>, i: nat): Option<ReplayError>
    requires i <= |blocks|
    decreases |blocks| - i
  {
    if i == |blocks| then None
    else
      var e := StructureError(start + i, prev, blocks[i]);
      if e.Some? then e else FirstStructureError(start, blocks[i].metadata.blockHash, blocks, i + 1)
  }

  /** Accepts exactly the hash-linked runs of blocks above a base whose counts are right. */
  method VerifyStructure(start: nat, anchor: BlockHash, blocks: seq<StoredBlock>) returns (e: Option<ReplayError>)
    requires start > 0
    ensures e == None <==> Window(anchor, start - 1, blocks).Valid() && AllCounted(blocks)
    ensures e == FirstStructureError(start, anchor, blocks, 0)
  {
    var prev := anchor;
    var w := Window(anchor, start - 1, blocks);
    for i := 0 to |blocks|
      invariant prev == w.HashAt(start - 1 + i)
      invariant forall j :: 0 <= j < i ==> w.BlockOk(j) && Counted(blocks[j])
      invariant FirstStructureError(start, anchor, blocks, 0) == FirstStructureError(start, prev, blocks, i)
    {
      var s := blocks[i];
      e := StructureError(start + i, prev, s);
      if e.Some? {
        assert !(w.BlockOk(i) && Counted(blocks[i]));
        return e;
      }
      assert w.BlockOk(i);
      prev := s.metadata.blockHash;
    }
    return None;
  }

  // ----- One block -----

  /** Listed transactions and hashes are taken in pairs. */
  function Pairs(b: StoredBlock): (n: nat)
    ensures n <= |b.transactions| && n <= |b.block.txHashes|
  {
    if |b.transactions| <= |b.block.txHashes| then |b.transactions| else |b.block.txHashes|
  }

  /** Executes the first `k` transactions of a block at the base fee of its start. */
  function ReplayTxs(r: Rules, s: State, b: StoredBlock, k: nat): Result<Acc, ReplayError>
    requires k <= Pairs(b)
  {
    if k == 0 then Ok(Acc(s, 0, 0))
    else
      var before := ReplayTxs(r, s, b, k - 1);
      if before.Err? then before
      else
        var tx, h := b.transactions[k - 1], b.metadata.height;
        var raw := r.encode(tx);
        if raw.None? then Err(TxEncodingFailed(h, k - 1))
        else if raw.value.hash != b.block.txHashes[k - 1] then Err(TxHashMismatch(h, k - 1))
        else
          var a := Apply(r, before.value.state, tx, raw.value.length, s.baseFeeDynamic);
          if a.Err? then Err(ApplyFailed(h, k - 1, a.error))
          else Ok(Absorb(before.value, a.value, tx.feeTip))
  }

  /** Replay stops at its first error. */
  lemma {:induction false} FirstErrorStays(r: Rules, s: State, b: StoredBlock, k: nat, n: nat)
    requires k <= n <= Pairs(b) && ReplayTxs(r, s, b, k).Err?
    ensures ReplayTxs(r, s, b, n) == ReplayTxs(r, s, b, k)
    decreases n
  {
    if k < n {
      FirstErrorStays(r, s, b, k, n - 1);
    }
  }

  /** The end of a replayed block; fees go out only to a 32-byte proposer. */
  function ReplaySeal(r: Rules, config: Config, acc: Acc, proposer: seq<Byte>, height: nat): State {
    Seal(r, config, if |proposer| == 32 then acc else acc.(fees := 0), proposer, height)
  }

  function ReplayBlock(r: Rules, config: Config, s: State, b: StoredBlock): Result<State, ReplayError> {
    var h := b.metadata.height;
    var done := ReplayTxs(r, s, b, Pairs(b));
    if done.Err? then Err(done.error)
    else
      var t := ReplaySeal(r, config, done.value, b.block.header.proposer, b.block.header.height);
      if r.txRoot(b.block.txHashes) != b.block.header.txRoot then Err(TxRootMismatch(h))
      else if r.stateRoot(t) != b.block.header.stateRoot then Err(StateRootMismatch(h, b.block.header.stateRoot, r.stateRoot(t)))
      else if ComputeBlockHash(b.block) != b.metadata.blockHash then Err(BlockHashMismatch(h))
      else Ok(t)
  }

  /** The pool's entries are what their transactions encode to. */
  ghost predicate Canonical(r: Rules, es: seq<PendingEntry>) {
    forall i :: 0 <= i < |es| ==> r.encode(es[i].tx) == Some(Encoding(es[i].length, es[i].txHash))
  }

  /** A block starts with the given entries. */
  ghost predicate Carries(b: StoredBlock, es: seq<PendingEntry>) {
    |es| <= Pairs(b) && forall i :: 0 <= i < |es| ==> b.transactions[i] == es[i].tx && b.block.txHashes[i] == es[i].txHash
  }

  /** Failed and deferred entries leave no trace: replaying only the included ones gives the same state, fees and gas. */
  lemma {:induction false} ReplayMatchesFold(r: Rules, max: nat, s: State, es: seq<PendingEntry>, b: StoredBlock)
    requires KeepsBaseFee(r) && Canonical(r, es) && Carries(b, TakeAll(r, max, s, es).included)
    ensures var w := TakeAll(r, max, s, es);
            && ReplayTxs(r, s, b, |w.included|) == Ok(w.acc)
            && w.acc.state.baseFeeDynamic == s.baseFeeDynamic
  {
    if es != [] {
      var front, e := es[..|es| - 1], es[|es| - 1];
      TakeCarries(r, max, TakeAll(r, max, s, front), e, b);
      ReplayMatchesFold(r, max, s, front, b);
      ReplayTake(r, max, s, TakeAll(r, max, s, front), e, b);
    }
  }

  lemma TakeCarries(r: Rules, max: nat, v: Work, e: PendingEntry, b: StoredBlock)
    requires Carries(b, Take(r, max, v, e).included)
    ensures Carries(b, v.included)
  {
    var w := Take(r, max, v, e);
    assert forall i :: 0 <= i < |v.included| ==> v.included[i] == w.included[i];
  }

  lemma ReplayTake(r: Rules, max: nat, s: State, v: Work, e: PendingEntry, b: StoredBlock)
    requires KeepsBaseFee(r) && r.encode(e.tx) == Some(Encoding(e.length, e.txHash))
    requires v.acc.state.baseFeeDynamic == s.baseFeeDynamic
    requires |v.included| <= Pairs(b) && ReplayTxs(r, s, b, |v.included|) == Ok(v.acc)
    requires Carries(b, Take(r, max, v, e).included)
    ensures var w := Take(r, max, v, e);
            ReplayTxs(r, s, b, |w.included|) == Ok(w.acc) && w.acc.state.baseFeeDynamic == s.baseFeeDynamic
  {
    var base := s.baseFeeDynamic;
    if Judge(r, max, v, e).Include? {
      assert Take(r, max, v, e).included[|v.included|] == e;
      ApplyKeepsBaseFee(r, v.acc.state, e.tx, e.length, base);
    }
  }

  /** Replay of an assembled block succeeds exactly if the epoch transitions leave the state root alone. */
  lemma ReplayAssembledIff(r: Rules, config: Config, s: State, es: seq<PendingEntry>, ctx: Context, vcBudget: nat)
    requires KeepsBaseFee(r) && Canonical(r, es) && |ctx.proposer| == 32
    ensures var b := StoredOf(r, config, s, es, ctx, vcBudget);
            var sealed := Seal(r, config, TakeAll(r, config.maxBlockBytes, s, es).acc, ctx.proposer, ctx.height);
            && (ReplayBlock(r, config, s, b).Ok? <==>
                r.stateRoot(AfterEpoch(r, config, sealed, ctx.height)) == r.stateRoot(sealed))
            && (ReplayBlock(r, config, s, b).Ok? ==> ReplayBlock(r, config, s, b).value == sealed)
            && (ReplayBlock(r, config, s, b).Err? ==> ReplayBlock(r, config, s, b).error.StateRootMismatch?)
  {
    ReplayMatchesFold(r, config.maxBlockBytes, s, es, StoredOf(r, config, s, es, ctx, vcBudget));
  }

  /** Off the epoch boundary replay always succeeds, with the very state that assembly left. */
  lemma ReplayOffBoundary(r: Rules, config: Config, s: State, es: seq<PendingEntry>, ctx: Context, vcBudget: nat)
    requires KeepsBaseFee(r) && Canonical(r, es) && |ctx.proposer| == 32
    requires !IsEpochBoundary(ctx.height, config.epochDuration)
    ensures ReplayBlock(r, config, s, StoredOf(r, config, s, es, ctx, vcBudget)) == Ok(FinalState(r, config, s, es, ctx))
  {
    ReplayAssembledIff(r, config, s, es, ctx, vcBudget);
  }

  /** State roots commit to the state. */
  ghost predicate RootsCommit(r: Rules) {
    forall s, t :: r.stateRoot(s) == r.stateRoot(t) ==> s == t
  }

  /** With committing roots: replay agrees with assembly exactly off the boundary or where the transitions do nothing. */
  lemma ReplayAgreesIff(r: Rules, config: Config, s: State, es: seq<PendingEntry>, ctx: Context, vcBudget: nat)
    requires KeepsBaseFee(r) && RootsCommit(r) && Canonical(r, es) && |ctx.proposer| == 32
    ensures var sealed := Seal(r, config, TakeAll(r, config.maxBlockBytes, s, es).acc, ctx.proposer, ctx.height);
            ReplayBlock(r, config, s, StoredOf(r, config, s, es, ctx, vcBudget)) == Ok(FinalState(r, config, s, es, ctx))
            <==> !IsEpochBoundary(ctx.height, config.epochDuration) || r.epochTransitions(sealed, ctx.height) == sealed
  {
    ReplayAssembledIff(r, config, s, es, ctx, vcBudget);
  }

  /** Rules that do nothing but mark the state at an epoch boundary. */
  function MarkingRules(): Rules {
    Rules(tx => Ok(0), (s: State, tx) => Ok(s), (s, alg) => 0, (tx, length, gas, base, min) => 0, tx => None, s => [],
          (s: State, gas) => s, (s: State, h) => s, (s: State, h) => (s, []), (s: State, h) => s, (s: State) => s,
          (s: State, h) => s.(rest := s.rest + 1), (s: State) => s.rest, hashes => 0)
  }

  /** An empty block at a boundary of those rules: assembled, but replay reports another state root. */
  lemma EpochReplayFails() returns (config: Config, s: State, ctx: Context)
    ensures KeepsBaseFee(MarkingRules()) && IsEpochBoundary(ctx.height, config.epochDuration) && |ctx.proposer| == 32
    ensures ReplayBlock(MarkingRules(), config, s, StoredOf(MarkingRules(), config, s, [], ctx, 0))
            == Err(StateRootMismatch(ctx.height, 1, 0))
  {
    config := Config(1000, 0, [], 60);
    s := State(map[], 0, 0, 59, 0);
    ctx := Context(60, Anchor(0), 0, seq(32, _ => 0 as Byte));
    var r := MarkingRules();
    var sealed := Seal(r, config, TakeAll(r, 1000, s, []).acc, ctx.proposer, 60);
    assert sealed == s.(height := 60);
    ReplayAssembledIff(r, config, s, [], ctx, 0);
  }

  // ----- A chain of blocks -----

  type BlockStep = (State, StoredBlock) -> Result<State, ReplayError>

  /** Runs a step over the first `k` blocks until it fails. */
  function Fold(step: BlockStep, s: State, blocks: seq<StoredBlock>, k: nat): Result<State, ReplayError>
    requires k <= |blocks|
  {
    if k == 0 then Ok(s)
    else
      var before := Fold(step, s, blocks, k - 1);
      if before.Err? then before else step(before.value, blocks[k - 1])
  }

  lemma {:induction false} FirstBadBlockStays(step: BlockStep, s: State, blocks: seq<StoredBlock>, k: nat, n: nat)
    requires k <= n <= |blocks| && Fold(step, s, blocks, k).Err?
    ensures Fold(step, s, blocks, n) == Fold(step, s, blocks, k)
    decreases n
  {
    if k < n {
      FirstBadBlockStays(step, s, blocks, k, n - 1);
    }
  }

  lemma {:induction false} FoldPrefix(step: BlockStep, s: State, blocks: seq<StoredBlock>, more: seq<StoredBlock>, k: nat)
    requires k <= |blocks| && blocks <= more
    ensures Fold(step, s, more, k) == Fold(step, s, blocks, k)
  {
    if k > 0 {
      FoldPrefix(step, s, blocks, more, k - 1);
    }
  }

  /** A step does to a state and a block what replay does. */
  ghost predicate Agrees(step: BlockStep, r: Rules, config: Config, s: State, b: StoredBlock) {
    step(s, b) == ReplayBlock(r, config, s, b)
  }

  function Replayer(r: Rules, config: Config): BlockStep {
    (s: State, b: StoredBlock) => ReplayBlock(r, config, s, b)
  }

  /** The state after all blocks. */
  function ReplayAll(r: Rules, config: Config, s: State, blocks: seq<StoredBlock>): Result<State, ReplayError> {
    Fold(Replayer(r, config), s, blocks, |blocks|)
  }

  ghost predicate AllCounted(blocks: seq<StoredBlock>) {
    forall i :: 0 <= i < |blocks| ==> Counted(blocks[i])
  }

  /** A linked window with right counts that replays. */
  ghost predicate Replayable(r: Rules, config: Config, s: State, anchor: BlockHash, blocks: seq<StoredBlock>) {
    Window(anchor, s.height, blocks).Valid() && AllCounted(blocks) && ReplayAll(r, config, s, blocks).Ok?
  }

  /** What a failing replay reports: the first structural error, else the first error of executing. */
  ghost function ReplayFailure(r: Rules, config: Config, s: State, anchor: BlockHash, blocks: seq<StoredBlock>): ReplayError
    requires !Replayable(r, config, s, anchor, blocks)
  {
    var e := FirstStructureError(s.height + 1, anchor, blocks, 0);
    if e.Some? then e.value
    else
      StructureIff(s.height, anchor, blocks);
      ReplayAll(r, config, s, blocks).error
  }

  /** Without structural errors the blocks are a linked window with right counts, and conversely. */
  lemma StructureIff(height: nat, anchor: BlockHash, blocks: seq<StoredBlock>)
    ensures FirstStructureError(height + 1, anchor, blocks, 0) == None <==>
            Window(anchor, height, blocks).Valid() && AllCounted(blocks)
  {
    StructureFrom(Window(anchor, height, blocks), 0);
  }

  lemma {:induction false} StructureFrom(w: Window, i: nat)
    requires i <= |w.blocks|
    ensures FirstStructureError(w.base + 1, w.HashAt(w.base + i), w.blocks, i) == None <==>
            forall j :: i <= j < |w.blocks| ==> w.BlockOk(j) && Counted(w.blocks[j])
    decreases |w.blocks| - i
  {
    if i < |w.blocks| {
      StructureFrom(w, i + 1);
      assert StructureError(w.base + 1 + i, w.HashAt(w.base + i), w.blocks[i]) == None <==> w.BlockOk(i) && Counted(w.blocks[i]);
    }
  }

  /** What one round of production starts from. */
  datatype Batch = Batch(pending: seq<PendingEntry>, ctx: Context, vcBudget: nat)

  function StateAfter(r: Rules, config: Config, s: State, batches: seq<Batch>): State {
    if batches == [] then s
    else
      var last := batches[|batches| - 1];
      FinalState(r, config, StateAfter(r, config, s, batches[..|batches| - 1]), last.pending, last.ctx)
  }

  function BlocksOf(r: Rules, config: Config, s: State, batches: seq<Batch>): seq<StoredBlock> {
    if batches == [] then []
    else
      var front, last := batches[..|batches| - 1], batches[|batches| - 1];
      BlocksOf(r, config, s, front) + [StoredOf(r, config, StateAfter(r, config, s, front), last.pending, last.ctx, last.vcBudget)]
  }

  /** Every batch was assembled on the state of the one before and its block accepted by the chain. */
  ghost predicate Produced(r: Rules, config: Config, s: State, anchor: BlockHash, batches: seq<Batch>) {
    batches != [] ==>
      var front, last := batches[..|batches| - 1], batches[|batches| - 1];
      var t := StateAfter(r, config, s, front);
      Produced(r, config, s, anchor, front) && Canonical(r, last.pending) && |last.ctx.proposer| == 32
      && Extends(Window(anchor, s.height, BlocksOf(r, config, s, front)), StoredOf(r, config, t, last.pending, last.ctx, last.vcBudget))
  }

  /** No batch is at an epoch boundary whose transitions change the state. */
  ghost predicate Quiet(r: Rules, config: Config, s: State, batches: seq<Batch>) {
    batches != [] ==>
      var front, last := batches[..|batches| - 1], batches[|batches| - 1];
      Quiet(r, config, s, front) && QuietBatch(r, config, StateAfter(r, config, s, front), last)
  }

  ghost predicate QuietBatch(r: Rules, config: Config, t: State, b: Batch) {
    var sealed := Seal(r, config, TakeAll(r, config.maxBlockBytes, t, b.pending).acc, b.ctx.proposer, b.ctx.height);
    AfterEpoch(r, config, sealed, b.ctx.height) == sealed
  }

  /** Blocks of a production form a linked window with right counts. */
  lemma {:induction false} ProducedIsLinked(r: Rules, config: Config, s: State, anchor: BlockHash, batches: seq<Batch>)
    requires Produced(r, config, s, anchor, batches)
    ensures var blocks := BlocksOf(r, config, s, batches);
            Window(anchor, s.height, blocks).Valid() && AllCounted(blocks)
  {
    if batches != [] {
      var front, last := batches[..|batches| - 1], batches[|batches| - 1];
      ProducedIsLinked(r, config, s, anchor, front);
      AppendKeepsValid(Window(anchor, s.height, BlocksOf(r, config, s, front)),
                       StoredOf(r, config, StateAfter(r, config, s, front), last.pending, last.ctx, last.vcBudget));
    }
  }

  /** Replaying a whole production off the epoch boundaries ends in the very state that production reached. */
  lemma {:induction false} ReplayReproduces(r: Rules, config: Config, s: State, anchor: BlockHash, batches: seq<Batch>)
    requires KeepsBaseFee(r) && Produced(r, config, s, anchor, batches) && Quiet(r, config, s, batches)
    ensures var blocks := BlocksOf(r, config, s, batches);
            && Replayable(r, config, s, anchor, blocks)
            && ReplayAll(r, config, s, blocks) == Ok(StateAfter(r, config, s, batches))
  {
    ProducedIsLinked(r, config, s, anchor, batches);
    if batches != [] {
      var front, last := batches[..|batches| - 1], batches[|batches| - 1];
      var t := StateAfter(r, config, s, front);
      var earlier, blocks := BlocksOf(r, config, s, front), BlocksOf(r, config, s, batches);
      ReplayReproduces(r, config, s, anchor, front);
      ReplayAssembledIff(r, config, t, last.pending, last.ctx, last.vcBudget);
      FoldPrefix(Replayer(r, config), s, earlier, blocks, |earlier|);
    }
  }

  /**
   * With committing roots, a whole production replays exactly if no batch is at an
   * epoch boundary whose transitions change the state; otherwise a state root differs.
   */
  lemma {:induction false} ReplayReproducesIff(r: Rules, config: Config, s: State, anchor: BlockHash, batches: seq<Batch>)
    requires KeepsBaseFee(r) && RootsCommit(r) && Produced(r, config, s, anchor, batches)
    ensures var blocks := BlocksOf(r, config, s, batches);
            && (Replayable(r, config, s, anchor, blocks) <==> Quiet(r, config, s, batches))
            && (ReplayAll(r, config, s, blocks) == Ok(StateAfter(r, config, s, batches)) <==> Quiet(r, config, s, batches))
            && (!Quiet(r, config, s, batches) ==>
                ReplayAll(r, config, s, blocks).Err? && ReplayAll(r, config, s, blocks).error.StateRootMismatch?)
  {
    ProducedIsLinked(r, config, s, anchor, batches);
    if batches != [] {
      var front, last := batches[..|batches| - 1], batches[|batches| - 1];
      var earlier, blocks := BlocksOf(r, config, s, front), BlocksOf(r, config, s, batches);
      ReplayReproducesIff(r, config, s, anchor, front);
      FoldPrefix(Replayer(r, config), s, earlier, blocks, |earlier|);
      LastReplaysIff(r, config, StateAfter(r, config, s, front), last);
    }
  }

  lemma LastReplaysIff(r: Rules, config: Config, t: State, b: Batch)
    requires KeepsBaseFee(r) && RootsCommit(r) && Canonical(r, b.pending) && |b.ctx.proposer| == 32
    ensures var done := ReplayBlock(r, config, t, StoredOf(r, config, t, b.pending, b.ctx, b.vcBudget));
            if QuietBatch(r, config, t, b) then done == Ok(FinalState(r, config, t, b.pending, b.ctx))
            else done.Err? && done.error.StateRootMismatch?
  {
    ReplayAssembledIff(r, config, t, b.pending, b.ctx, b.vcBudget);
  }

  // ----- What a successful replay has checked -----

  /** Every replayed transaction encodes to the hash listed for it and applies. */
  lemma {:induction false} ReplayTxsSound(r: Rules, s: State, b: StoredBlock, k: nat, i: nat)
    requires i < k <= Pairs(b) && ReplayTxs(r, s, b, k).Ok?
    ensures r.encode(b.transactions[i]).Some? && r.encode(b.transactions[i]).value.hash == b.block.txHashes[i]
    ensures ReplayTxs(r, s, b, i).Ok?
    ensures Apply(r, ReplayTxs(r, s, b, i).value.state, b.transactions[i], r.encode(b.transactions[i]).value.length, s.baseFeeDynamic).Ok?
  {
    if i < k - 1 {
      ReplayTxsSound(r, s, b, k - 1, i);
    }
  }

  /** A block replays only to a state with the root it announces, with its transaction root and hash right. */
  lemma ReplayBlockSound(r: Rules, config: Config, s: State, b: StoredBlock)
    requires ReplayBlock(r, config, s, b).Ok?
    ensures r.stateRoot(ReplayBlock(r, config, s, b).value) == b.block.header.stateRoot
    ensures r.txRoot(b.block.txHashes) == b.block.header.txRoot && ComputeBlockHash(b.block) == b.metadata.blockHash
    ensures ReplayTxs(r, s, b, Pairs(b)).Ok?
  {
  }

  /** A window that replays has replayed every block, each to the state root it announces. */
  lemma {:induction false} ReplayAllSound(r: Rules, config: Config, s: State, blocks: seq<StoredBlock>, n: nat, i: nat)
    requires i < n <= |blocks| && Fold(Replayer(r, config), s, blocks, n).Ok?
    ensures Fold(Replayer(r, config), s, blocks, i + 1).Ok?
    ensures r.stateRoot(Fold(Replayer(r, config), s, blocks, i + 1).value) == blocks[i].block.header.stateRoot
    decreases n
  {
    if i < n - 1 {
      ReplayAllSound(r, config, s, blocks, n - 1, i);
    } else {
      ReplayBlockSound(r, config, Fold(Replayer(r, config), s, blocks, i).value, blocks[i]);
    }
  }

  /** With committing roots, windows that end in the same state root replay to the same state, whatever they hold. */
  lemma SameRootSameState(r: Rules, config: Config, s: State, blocks: seq<StoredBlock>, s': State, blocks': seq<StoredBlock>)
    requires RootsCommit(r) && blocks != [] && blocks' != []
    requires ReplayAll(r, config, s, blocks).Ok? && ReplayAll(r, config, s', blocks').Ok?
    requires blocks[|blocks| - 1].block.header.stateRoot == blocks'[|blocks'| - 1].block.header.stateRoot
    ensures ReplayAll(r, config, s, blocks) == ReplayAll(r, config, s', blocks')
  {
    ReplayAllSound(r, config, s, blocks, |blocks|, |blocks| - 1);
    ReplayAllSound(r, config, s', blocks', |blocks'|, |blocks'| - 1);
  }
}

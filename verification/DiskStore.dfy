/**
 * The file store and its crash behaviour. A write stages files and renames
 * them one by one; a crash keeps some prefix of those steps.
 */
module DiskStore {
  import opened Prelude
  import opened Blocks
  import opened Chain
  import opened RocksStore
  import opened RocksOps

  // ----- Files -----

  /** A staged file, named by what it will become. */
  datatype Stage =
    | BlockTmp(block: StoredBlock)
    | HashTmp(hash: BlockHash, height: nat)
    | TipTmp(tip: Base)
    | CheckpointTmp(checkpoint: Base)

  /** Staged files are marked by whether they are completely written. */
  datatype Fs = Fs(
    blocks: map<nat, StoredBlock>, hashes: map<BlockHash, nat>, tip: Option<Base>, checkpoint: Option<Base>,
    staging: map<Stage, bool>)

  datatype Step = Create(stage: Stage) | Fill(stage: Stage) | Rename(stage: Stage)

  function Publish(fs: Fs, s: Stage): Fs {
    match s
    case BlockTmp(b) => fs.(blocks := fs.blocks[b.metadata.height := b])
    case HashTmp(x, h) => fs.(hashes := fs.hashes[x := h])
    case TipTmp(t) => fs.(tip := Some(t))
    case CheckpointTmp(c) => fs.(checkpoint := Some(c))
  }

  function Do(fs: Fs, step: Step): Fs {
    match step
    case Create(s) => fs.(staging := fs.staging[s := false])
    case Fill(s) => fs.(staging := fs.staging[s := true])
    case Rename(s) => Publish(fs.(staging := fs.staging - {s}), s)
  }

  /** The files after the first `k` steps of a plan. */
  function After(fs: Fs, plan: seq<Step>, k: nat): Fs
    requires k <= |plan|
  {
    if k == 0 then fs else Do(After(fs, plan, k - 1), plan[k - 1])
  }

  function BlockPlan(b: StoredBlock): seq<Step> {
    var block, hash := BlockTmp(b), HashTmp(b.metadata.blockHash, b.metadata.height);
    var tip := TipTmp(Base(b.metadata.height, b.metadata.blockHash));
    [Create(block), Fill(block), Create(hash), Fill(hash), Create(tip), Fill(tip), Rename(block), Rename(hash), Rename(tip)]
  }

  function CheckpointPlan(c: Base): seq<Step> {
    [Create(CheckpointTmp(c)), Fill(CheckpointTmp(c)), Rename(CheckpointTmp(c))]
  }

  // ----- Opening -----

  /** The block and hash directories as the columns they mirror. */
  function AsDb(fs: Fs): Db {
    Db(fs.blocks, fs.hashes, map[], map[], map[], if fs.tip.Some? then Some(fs.tip.value.height) else None, Anchor(0), None)
  }

  /** Without block 1, a checkpoint of positive height is the start of the history. */
  predicate FromSnapshot(fs: Fs) {
    1 !in fs.blocks && fs.checkpoint.Some? && fs.checkpoint.value.height > 0
  }

  function StartOf(fs: Fs, genesis: BlockHash): Base {
    if FromSnapshot(fs) then fs.checkpoint.value else Base(0, genesis)
  }

  /** With block 1, a checkpoint bounds what is loaded if the next block names its hash. */
  predicate UsableWindow(fs: Fs) {
    1 in fs.blocks && fs.checkpoint.Some? && fs.checkpoint.value.height > 0 &&
    var c := fs.checkpoint.value;
    c.height + 1 in fs.blocks && fs.blocks[c.height + 1].block.header.prevHash == c.hash
  }

  function MemoryBase(fs: Fs, genesis: BlockHash): Base {
    if UsableWindow(fs) then fs.checkpoint.value else StartOf(fs, genesis)
  }

  /** The directories hold exactly the heights above the start and their hashes. */
  ghost predicate InventoryExact(fs: Fs, start: nat, top: nat) {
    (forall h :: h in fs.blocks <==> start < h <= top) && HashIndexOk(AsDb(fs))
  }

  /** The window that opening yields, if it succeeds. */
  ghost function OpenedDisk(fs: Fs, genesis: BlockHash): Option<Window> {
    var base := MemoryBase(fs, genesis);
    var empty := Window(base.hash, base.height, []);
    if fs.staging != map[] then None
    else if fs.tip.None? then if fs.blocks == map[] && fs.hashes == map[] then Some(empty) else None
    else
      var w := Loaded(AsDb(fs), empty, fs.tip.value.height);
      if InventoryExact(fs, StartOf(fs, genesis).height, fs.tip.value.height)
         && w.Some? && w.value.Height() == fs.tip.value.height && w.value.TipHash() == fs.tip.value.hash
      then w else None
  }

  /** With block 1 on disk, a checkpoint that the next block does not name is ignored. */
  lemma UnnamedCheckpointIgnored(fs: Fs, genesis: BlockHash, c: Base)
    requires 1 in fs.blocks && fs.checkpoint == Some(c)
    requires c.height + 1 in fs.blocks ==> fs.blocks[c.height + 1].block.header.prevHash != c.hash
    ensures OpenedDisk(fs, genesis) == OpenedDisk(fs.(checkpoint := None), genesis)
  {
    assert AsDb(fs.(checkpoint := None)) == AsDb(fs);
    assert StartOf(fs, genesis) == StartOf(fs.(checkpoint := None), genesis);
    assert MemoryBase(fs, genesis) == MemoryBase(fs.(checkpoint := None), genesis);
    SameInventory(fs, fs.(checkpoint := None), StartOf(fs, genesis).height);
  }

  lemma SameInventory(fs: Fs, fs': Fs, start: nat)
    requires fs'.blocks == fs.blocks && fs'.hashes == fs.hashes && AsDb(fs') == AsDb(fs)
    ensures forall top: nat :: InventoryExact(fs', start, top) <==> InventoryExact(fs, start, top)
  {
  }

  // ----- The invariant between writes -----

  ghost predicate DiskOk(fs: Fs, w: Window, genesis: BlockHash, floor: Base) {
    && fs.staging == map[]
    && HistoryOk(fs, w, floor)
    && fs.tip == (if w.Height() == floor.height then None else Some(Base(w.Height(), w.TipHash())))
    && (floor.height == 0 ==> floor.hash == genesis)
    && (floor.height > 0 ==> fs.checkpoint.Some?)
    && (fs.checkpoint.Some? ==> CheckpointOk(fs, w, floor, fs.checkpoint.value))
  }

  /** Blocks are stored, linked, indexed and counted from the floor up to the live tip; memory starts no lower. */
  ghost predicate HistoryOk(fs: Fs, w: Window, floor: Base) {
    && w.Valid() && floor.height <= w.base
    && BlocksOk(AsDb(fs), floor.height, w.Height()) && WindowOk(AsDb(fs), w) && HashIndexOk(AsDb(fs))
    && CountedAbove(AsDb(fs), 0)
    && Canonical(Store(AsDb(fs), w), floor.height) == floor.hash
  }

  ghost predicate CheckpointOk(fs: Fs, w: Window, floor: Base, c: Base) {
    floor.height <= c.height <= w.Height() && c.hash == Canonical(Store(AsDb(fs), w), c.height)
  }

  // ----- Reopening between writes -----

  ghost predicate Reproduced(fs: Fs, w: Window, genesis: BlockHash) {
    var o := OpenedDisk(fs, genesis);
    o.Some? && o.value.Height() == w.Height() && o.value.TipHash() == w.TipHash() &&
    forall h: nat :: Read(Store(AsDb(fs), o.value), h) == Read(Store(AsDb(fs), w), h)
  }

  /** A quiescent store reopens to itself exactly if it keeps full history or its checkpoint is still the snapshot. */
  lemma ReopenIff(fs: Fs, w: Window, genesis: BlockHash, floor: Base)
    requires DiskOk(fs, w, genesis, floor)
    ensures Reproduced(fs, w, genesis) <==> floor.height == 0 || fs.checkpoint.value.height == floor.height
  {
    if floor.height == 0 || fs.checkpoint.value.height == floor.height {
      StartIsFloor(fs, w, genesis, floor);
      if w.Height() > floor.height {
        LoadReproduces(fs, w, genesis, floor);
      }
    } else {
      assert w.Height() in fs.blocks && fs.checkpoint.value.height in fs.blocks;
    }
  }

  lemma StartIsFloor(fs: Fs, w: Window, genesis: BlockHash, floor: Base)
    requires DiskOk(fs, w, genesis, floor) && (floor.height == 0 || fs.checkpoint.value.height == floor.height)
    ensures StartOf(fs, genesis) == floor
    ensures CheckpointOk(fs, w, floor, MemoryBase(fs, genesis))
    ensures w.Height() == floor.height ==> fs.blocks == map[] && fs.hashes == map[] && MemoryBase(fs, genesis) == floor
  {
    assert 1 in fs.blocks <==> floor.height < 1 <= w.Height();
  }

  lemma LoadReproduces(fs: Fs, w: Window, genesis: BlockHash, floor: Base)
    requires HistoryOk(fs, w, floor) && w.Height() > floor.height && fs.staging == map[]
    requires fs.tip == Some(Base(w.Height(), w.TipHash()))
    requires StartOf(fs, genesis) == floor && CheckpointOk(fs, w, floor, MemoryBase(fs, genesis))
    ensures Reproduced(fs, w, genesis)
  {
    var base := MemoryBase(fs, genesis);
    ReloadFaithfulIff(Store(AsDb(fs), w), floor.height, base);
    LoadedShape(AsDb(fs), Window(base.hash, base.height, []), w.Height());
    LowReads(fs, w, OpenedDisk(fs, genesis).value, floor.height);
  }

  /** Nothing can be read from the floor down. */
  lemma LowReads(fs: Fs, w: Window, r: Window, lo: nat)
    requires BlocksOk(AsDb(fs), lo, w.Height()) && lo <= w.base && lo <= r.base
    ensures forall h: nat :: h <= lo ==> Read(Store(AsDb(fs), r), h) == Read(Store(AsDb(fs), w), h) == None
  {
  }

  // ----- Writes -----

  /** Blocks and checkpoints between which the store is quiescent. */
  datatype Write = WriteBlock(block: StoredBlock) | WriteCheckpoint

  function Plan(w: Window, op: Write): seq<Step> {
    match op
    case WriteBlock(b) => BlockPlan(b)
    case WriteCheckpoint => CheckpointPlan(Base(w.Height(), w.TipHash()))
  }

  /** A write is attempted only for an acceptable block. */
  ghost predicate Allowed(w: Window, op: Write) {
    op.WriteBlock? ==> Extends(w, op.block)
  }

  function WindowAfter(w: Window, op: Write): Window {
    if op.WriteBlock? then Append(w, op.block) else w
  }

  lemma PlanCompletes(fs: Fs, w: Window, op: Write)
    requires fs.staging == map[]
    ensures var plan := Plan(w, op);
            After(fs, plan, |plan|) ==
            match op
            case WriteBlock(b) => WithBlock(fs, b)
            case WriteCheckpoint => fs.(checkpoint := Some(Base(w.Height(), w.TipHash())))
  {
    match op
    case WriteBlock(b) => BlockPlanCompletes(fs, b);
    case WriteCheckpoint => CheckpointSteps(fs, Base(w.Height(), w.TipHash()));
  }

  lemma CheckpointSteps(fs: Fs, c: Base)
    requires fs.staging == map[]
    ensures After(fs, CheckpointPlan(c), 1).staging == map[CheckpointTmp(c) := false]
    ensures After(fs, CheckpointPlan(c), 2).staging == map[CheckpointTmp(c) := true]
    ensures After(fs, CheckpointPlan(c), 3) == fs.(checkpoint := Some(c))
  {
    var plan, tmp := CheckpointPlan(c), CheckpointTmp(c);
    assert After(fs, plan, 1) == Do(fs, Create(tmp));
    assert After(fs, plan, 2) == Do(After(fs, plan, 1), Fill(tmp));
    assert After(fs, plan, 3) == Do(After(fs, plan, 2), Rename(tmp));
    assert After(fs, plan, 2).staging - {tmp} == map[];
  }

  lemma BlockPlanCompletes(fs: Fs, b: StoredBlock)
    requires fs.staging == map[]
    ensures After(fs, BlockPlan(b), 9) == WithBlock(fs, b)
  {
    var plan := BlockPlan(b);
    var block, hash := BlockTmp(b), HashTmp(b.metadata.blockHash, b.metadata.height);
    var tip := TipTmp(Base(b.metadata.height, b.metadata.blockHash));
    StagedBlock(fs, b);
    var staged := After(fs, plan, 6);
    assert After(fs, plan, 7) == Do(staged, Rename(block));
    assert After(fs, plan, 8) == Do(After(fs, plan, 7), Rename(hash));
    assert After(fs, plan, 9) == Do(After(fs, plan, 8), Rename(tip));
    assert staged.staging - {block} - {hash} - {tip} == map[];
  }

  /** Six steps into a block write everything is staged and nothing published. */
  lemma StagedBlock(fs: Fs, b: StoredBlock)
    requires fs.staging == map[]
    ensures After(fs, BlockPlan(b), 6) ==
            fs.(staging := map[BlockTmp(b) := true, HashTmp(b.metadata.blockHash, b.metadata.height) := true,
                               TipTmp(Base(b.metadata.height, b.metadata.blockHash)) := true])
  {
    var plan := BlockPlan(b);
    assert After(fs, plan, 0) == fs;
    StageOne(fs, plan, 0, BlockTmp(b));
    StageOne(fs, plan, 2, HashTmp(b.metadata.blockHash, b.metadata.height));
    StageOne(fs, plan, 4, TipTmp(Base(b.metadata.height, b.metadata.blockHash)));
  }

  /** Creating and filling a file leaves it staged and complete. */
  lemma StageOne(fs: Fs, plan: seq<Step>, k: nat, stage: Stage)
    requires k + 2 <= |plan| && plan[k] == Create(stage) && plan[k + 1] == Fill(stage)
    ensures var before := After(fs, plan, k); After(fs, plan, k + 2) == before.(staging := before.staging[stage := true])
  {
    assert After(fs, plan, k + 1) == Do(After(fs, plan, k), plan[k]);
    assert After(fs, plan, k + 2) == Do(After(fs, plan, k + 1), plan[k + 1]);
  }

  /** Only files that are completely written are renamed into place. */
  lemma PublishesComplete(fs: Fs, w: Window, op: Write, k: nat)
    requires fs.staging == map[] && k < |Plan(w, op)| && Plan(w, op)[k].Rename?
    ensures var stage, before := Plan(w, op)[k].stage, After(fs, Plan(w, op), k);
            stage in before.staging && before.staging[stage]
  {
    match op
    case WriteBlock(b) =>
      StagedBlock(fs, b);
      var plan := BlockPlan(b);
      assert k > 6 ==> After(fs, plan, 7) == Do(After(fs, plan, 6), plan[6]);
      assert k > 7 ==> After(fs, plan, 8) == Do(After(fs, plan, 7), plan[7]);
    case WriteCheckpoint => CheckpointSteps(fs, Base(w.Height(), w.TipHash()));
  }

  /** At every crash point strictly inside a write some staged file is left. */
  lemma {:induction false} CrashLeavesStaging(fs: Fs, w: Window, op: Write, k: nat)
    requires fs.staging == map[] && 0 < k < |Plan(w, op)|
    ensures After(fs, Plan(w, op), k).staging != map[]
  {
    var plan := Plan(w, op);
    var last := plan[|plan| - 1].stage;
    if k >= 5 || op.WriteCheckpoint? {
      LastIsStaged(fs, w, op, k);
      assert last in After(fs, plan, k).staging;
    } else {
      FirstIsStaged(fs, op.block, k);
      assert BlockTmp(op.block) in After(fs, plan, k).staging;
    }
  }

  /** The file renamed last is staged from its creation to the end. */
  lemma {:induction false} LastIsStaged(fs: Fs, w: Window, op: Write, k: nat)
    requires k < |Plan(w, op)| && k >= if op.WriteBlock? then 5 else 1
    ensures Plan(w, op)[|Plan(w, op)| - 1].stage in After(fs, Plan(w, op), k).staging
  {
    if k > 5 || (op.WriteCheckpoint? && k > 1) {
      LastIsStaged(fs, w, op, k - 1);
    }
  }

  lemma {:induction false} FirstIsStaged(fs: Fs, b: StoredBlock, k: nat)
    requires 1 <= k < 5
    ensures BlockTmp(b) in After(fs, BlockPlan(b), k).staging
  {
    if k > 1 {
      FirstIsStaged(fs, b, k - 1);
    }
  }

  // ----- Writes keep the invariant -----

  /** The directories after a block write. */
  function WithBlock(fs: Fs, b: StoredBlock): Fs {
    fs.(blocks := fs.blocks[b.metadata.height := b], hashes := fs.hashes[b.metadata.blockHash := b.metadata.height],
        tip := Some(Base(b.metadata.height, b.metadata.blockHash)))
  }

  lemma BlockWriteKeepsHistory(fs: Fs, w: Window, floor: Base, b: StoredBlock)
    requires HistoryOk(fs, w, floor) && Extends(w, b)
    ensures HistoryOk(WithBlock(fs, b), Append(w, b), floor)
  {
    AppendKeepsValid(w, b);
    BlockWriteKeepsColumns(fs, w, floor, b);
    BlockWriteKeepsCounts(fs, b);
    WriteKeepsCanonical(fs, w, floor, b, floor.height);
  }

  lemma BlockWriteKeepsCounts(fs: Fs, b: StoredBlock)
    requires CountedAbove(AsDb(fs), 0) && Counted(b)
    ensures CountedAbove(AsDb(WithBlock(fs, b)), 0)
  {
  }

  lemma BlockWriteKeepsColumns(fs: Fs, w: Window, floor: Base, b: StoredBlock)
    requires w.Valid() && floor.height <= w.Height() && Extends(w, b)
    requires BlocksOk(AsDb(fs), floor.height, w.Height()) && WindowOk(AsDb(fs), w) && HashIndexOk(AsDb(fs))
    ensures var db := AsDb(WithBlock(fs, b));
            BlocksOk(db, floor.height, b.metadata.height) && WindowOk(db, Append(w, b)) && HashIndexOk(db)
  {
    var s := Store(AsDb(fs), w);
    AppendKeepsBlocks(s, floor.height, b);
    AppendKeepsWindow(s, floor.height, b);
    AppendKeepsIndex(s, floor.height, b);
    SameBlocks(Persisted(s.db, b), AsDb(WithBlock(fs, b)), floor.height, b.metadata.height);
  }

  lemma WriteKeepsCanonical(fs: Fs, w: Window, floor: Base, b: StoredBlock, k: nat)
    requires BlocksOk(AsDb(fs), floor.height, w.Height()) && Extends(w, b) && floor.height <= k <= w.Height()
    ensures Canonical(Store(AsDb(WithBlock(fs, b)), Append(w, b)), k) == Canonical(Store(AsDb(fs), w), k)
  {
  }

  /** A completed write leaves a quiescent store of the new window. */
  lemma WriteKeepsOk(fs: Fs, w: Window, genesis: BlockHash, floor: Base, op: Write)
    requires DiskOk(fs, w, genesis, floor) && Allowed(w, op)
    ensures DiskOk(After(fs, Plan(w, op), |Plan(w, op)|), WindowAfter(w, op), genesis, floor)
  {
    PlanCompletes(fs, w, op);
    match op
    case WriteBlock(b) => BlockWriteKeepsOk(fs, w, genesis, floor, b);
    case WriteCheckpoint => CheckpointWriteKeepsOk(fs, w, genesis, floor);
  }

  lemma BlockWriteKeepsOk(fs: Fs, w: Window, genesis: BlockHash, floor: Base, b: StoredBlock)
    requires DiskOk(fs, w, genesis, floor) && Extends(w, b)
    ensures DiskOk(WithBlock(fs, b), Append(w, b), genesis, floor)
  {
    BlockWriteKeepsHistory(fs, w, floor, b);
    if fs.checkpoint.Some? {
      WriteKeepsCanonical(fs, w, floor, b, fs.checkpoint.value.height);
    }
  }

  lemma CheckpointWriteKeepsOk(fs: Fs, w: Window, genesis: BlockHash, floor: Base)
    requires DiskOk(fs, w, genesis, floor)
    ensures DiskOk(fs.(checkpoint := Some(Base(w.Height(), w.TipHash()))), w, genesis, floor)
  {
    var c := Base(w.Height(), w.TipHash());
    CheckpointWriteKeepsHistory(fs, w, floor, c);
    assert w.Height() + 1 !in fs.blocks;
  }

  lemma CheckpointWriteKeepsHistory(fs: Fs, w: Window, floor: Base, c: Base)
    requires HistoryOk(fs, w, floor)
    ensures HistoryOk(fs.(checkpoint := Some(c)), w, floor)
  {
    assert AsDb(fs.(checkpoint := Some(c))) == AsDb(fs);
  }

  // ----- Crashes -----

  /** A store that keeps full history, or was bootstrapped and wrote no checkpoint since. */
  ghost predicate Reopens(fs: Fs, floor: Base) {
    floor.height == 0 || (fs.checkpoint.Some? && fs.checkpoint.value.height == floor.height)
  }

  /**
   * Whatever prefix of a write a crash keeps, the next opening gives the old
   * window, the new window, or refuses because of a staged file. The one
   * exception is a checkpoint written above the snapshot of a bootstrapped store.
   */
  lemma CrashSafe(fs: Fs, w: Window, genesis: BlockHash, floor: Base, op: Write, k: nat)
    requires DiskOk(fs, w, genesis, floor) && Reopens(fs, floor) && Allowed(w, op) && k <= |Plan(w, op)|
    ensures var crashed := After(fs, Plan(w, op), k);
            if k == 0 then Reproduced(crashed, w, genesis)
            else if k < |Plan(w, op)| then crashed.staging != map[] && OpenedDisk(crashed, genesis) == None
            else Reproduced(crashed, WindowAfter(w, op), genesis) <==> Harmless(w, floor, op)
  {
    if k == 0 {
      ReopenIff(fs, w, genesis, floor);
    } else if k < |Plan(w, op)| {
      CrashLeavesStaging(fs, w, op, k);
    } else {
      WriteKeepsOk(fs, w, genesis, floor, op);
      PlanCompletes(fs, w, op);
      ReopenIff(After(fs, Plan(w, op), k), WindowAfter(w, op), genesis, floor);
    }
  }

  /** Writes after which a store still reopens. */
  predicate Harmless(w: Window, floor: Base, op: Write) {
    op.WriteBlock? || floor.height == 0 || w.Height() == floor.height
  }

  /** The reopened window stands for the same history. */
  lemma OpenedKeepsOk(fs: Fs, w: Window, genesis: BlockHash, floor: Base)
    requires DiskOk(fs, w, genesis, floor) && Reopens(fs, floor)
    ensures OpenedDisk(fs, genesis).Some? && DiskOk(fs, OpenedDisk(fs, genesis).value, genesis, floor)
  {
    ReopenIff(fs, w, genesis, floor);
    StartIsFloor(fs, w, genesis, floor);
    if w.Height() > floor.height {
      OpenedWindowOk(fs, w, genesis, floor);
    }
    OtherWindowOk(fs, w, OpenedDisk(fs, genesis).value, genesis, floor);
  }

  lemma OpenedWindowOk(fs: Fs, w: Window, genesis: BlockHash, floor: Base)
    requires HistoryOk(fs, w, floor) && OpenedDisk(fs, genesis).Some? && fs.tip.Some? && fs.tip.value.height == w.Height()
    requires CheckpointOk(fs, w, floor, MemoryBase(fs, genesis))
    ensures var r := OpenedDisk(fs, genesis).value; r.Valid() && WindowOk(AsDb(fs), r) && floor.height <= r.base
  {
    var base := MemoryBase(fs, genesis);
    LoadedShape(AsDb(fs), Window(base.hash, base.height, []), w.Height());
    if base.height in fs.blocks {
      CanonicalIsStored(Store(AsDb(fs), w), floor.height, base.height);
    }
  }

  /** The invariant only sees the height, the tip and the blocks of a window. */
  lemma OtherWindowOk(fs: Fs, w: Window, r: Window, genesis: BlockHash, floor: Base)
    requires DiskOk(fs, w, genesis, floor) && r.Valid() && WindowOk(AsDb(fs), r) && floor.height <= r.base
    requires r.Height() == w.Height() && r.TipHash() == w.TipHash()
    ensures DiskOk(fs, r, genesis, floor)
  {
    assert forall k :: Canonical(Store(AsDb(fs), r), k) == Canonical(Store(AsDb(fs), w), k);
  }

  // ----- Runs with crashes -----

  datatype Disk = Disk(fs: Fs, w: Window)

  /** A completed write, or a restart after a crash that kept none or all of one. */
  datatype Event = Wrote(op: Write) | Restarted(op: Write, k: nat)

  ghost predicate DiskStep(d: Disk, e: Event, d': Disk, genesis: BlockHash, floor: Base) {
    Allowed(d.w, e.op) && Harmless(d.w, floor, e.op) &&
    var plan := Plan(d.w, e.op);
    match e
    case Wrote(op) => d' == Disk(After(d.fs, plan, |plan|), WindowAfter(d.w, op))
    case Restarted(op, k) =>
      k <= |plan| && d'.fs == After(d.fs, plan, k) && OpenedDisk(d'.fs, genesis) == Some(d'.w)
  }

  lemma DiskStepKeeps(d: Disk, e: Event, d': Disk, genesis: BlockHash, floor: Base)
    requires DiskOk(d.fs, d.w, genesis, floor) && Reopens(d.fs, floor) && DiskStep(d, e, d', genesis, floor)
    ensures DiskOk(d'.fs, d'.w, genesis, floor) && Reopens(d'.fs, floor)
    ensures d'.w.Height() == d.w.Height() || (e.op.WriteBlock? && d'.w.TipHash() == e.op.block.metadata.blockHash)
  {
    WriteKeepsReopens(d.fs, d.w, genesis, floor, e.op);
    match e
    case Wrote(op) =>
    case Restarted(op, k) => RestartKeeps(d, op, k, d', genesis, floor);
  }

  lemma WriteKeepsReopens(fs: Fs, w: Window, genesis: BlockHash, floor: Base, op: Write)
    requires DiskOk(fs, w, genesis, floor) && Reopens(fs, floor) && Allowed(w, op) && Harmless(w, floor, op)
    ensures var written := After(fs, Plan(w, op), |Plan(w, op)|);
            DiskOk(written, WindowAfter(w, op), genesis, floor) && Reopens(written, floor)
  {
    WriteKeepsOk(fs, w, genesis, floor, op);
    PlanCompletes(fs, w, op);
  }

  lemma RestartKeeps(d: Disk, op: Write, k: nat, d': Disk, genesis: BlockHash, floor: Base)
    requires DiskOk(d.fs, d.w, genesis, floor) && Reopens(d.fs, floor) && Allowed(d.w, op) && Harmless(d.w, floor, op)
    requires k <= |Plan(d.w, op)| && d'.fs == After(d.fs, Plan(d.w, op), k) && OpenedDisk(d'.fs, genesis) == Some(d'.w)
    ensures DiskOk(d'.fs, d'.w, genesis, floor) && Reopens(d'.fs, floor)
    ensures d'.w.Height() == d.w.Height() || (op.WriteBlock? && d'.w.TipHash() == op.block.metadata.blockHash)
  {
    if 0 < k < |Plan(d.w, op)| {
      CrashLeavesStaging(d.fs, d.w, op, k);
      assert false;
    } else if k == 0 {
      ReopenKeeps(d.fs, d.w, genesis, floor);
    } else {
      WriteKeepsReopens(d.fs, d.w, genesis, floor, op);
      ReopenKeeps(d'.fs, WindowAfter(d.w, op), genesis, floor);
    }
  }

  lemma ReopenKeeps(fs: Fs, w: Window, genesis: BlockHash, floor: Base)
    requires DiskOk(fs, w, genesis, floor) && Reopens(fs, floor)
    ensures OpenedDisk(fs, genesis).Some?
    ensures var r := OpenedDisk(fs, genesis).value;
            DiskOk(fs, r, genesis, floor) && r.Height() == w.Height() && r.TipHash() == w.TipHash()
  {
    ReopenIff(fs, w, genesis, floor);
    OpenedKeepsOk(fs, w, genesis, floor);
  }

  /** Through any number of writes, crashes and restarts the store stays a view of one linked history and reopens to itself. */
  lemma {:induction false} DiskRunsStayOk(ds: seq<Disk>, es: seq<Event>, genesis: BlockHash, floor: Base)
    requires |ds| == |es| + 1 && DiskOk(ds[0].fs, ds[0].w, genesis, floor) && Reopens(ds[0].fs, floor)
    requires forall i :: 0 <= i < |es| ==> DiskStep(ds[i], es[i], ds[i + 1], genesis, floor)
    ensures DiskOk(ds[|es|].fs, ds[|es|].w, genesis, floor) && Reopens(ds[|es|].fs, floor)
    ensures Reproduced(ds[|es|].fs, ds[|es|].w, genesis)
    decreases |es|
  {
    if es != [] {
      var n := |es| - 1;
      DiskRunsStayOk(ds[..n + 1], es[..n], genesis, floor);
      DiskStepKeeps(ds[n], es[n], ds[n + 1], genesis, floor);
    }
    ReopenIff(ds[|es|].fs, ds[|es|].w, genesis, floor);
  }

  /** A fresh store, and a store bootstrapped from a snapshot. */
  lemma FreshDiskOk(genesis: BlockHash, snapshot: Base)
    ensures var fs := Fs(map[], map[], None, None, map[]);
            && DiskOk(fs, Window(genesis, 0, []), genesis, Base(0, genesis)) && Reopens(fs, Base(0, genesis))
            && (snapshot.height > 0 ==>
                var booted := fs.(checkpoint := Some(snapshot));
                DiskOk(booted, Window(snapshot.hash, snapshot.height, []), genesis, snapshot) && Reopens(booted, snapshot))
  {
    var fs := Fs(map[], map[], None, None, map[]);
    forall h: nat ensures Linked(AsDb(fs), h) && Linked(AsDb(fs.(checkpoint := Some(snapshot))), h) {
    }
  }

  /**
   * Importing a snapshot into an empty store is one checkpoint write. At every
   * crash point the next opening gives the empty store, refuses, or starts at
   * the snapshot; a snapshot of height zero must name the genesis hash.
   */
  lemma BootstrapCrashSafe(fs: Fs, w: Window, genesis: BlockHash, snapshot: Base, k: nat)
    requires DiskOk(fs, w, genesis, Base(0, genesis)) && w.Height() == 0 && k <= |CheckpointPlan(snapshot)|
    ensures var crashed := After(fs, CheckpointPlan(snapshot), k);
            if k == 0 then Reproduced(crashed, w, genesis)
            else if k < |CheckpointPlan(snapshot)| then crashed.staging != map[] && OpenedDisk(crashed, genesis) == None
            else
              var booted := Window(snapshot.hash, snapshot.height, []);
              && (Reproduced(crashed, booted, genesis) <==> snapshot.height > 0 || snapshot.hash == genesis)
              && (snapshot.height > 0 || snapshot.hash == genesis ==>
                  DiskOk(crashed, booted, genesis, snapshot) && Reopens(crashed, snapshot))
  {
    if k == 0 {
      ReopenIff(fs, w, genesis, Base(0, genesis));
    } else {
      CheckpointSteps(fs, snapshot);
      if k == 3 {
        BootedOk(fs, w, genesis, snapshot);
      }
    }
  }

  lemma BootedOk(fs: Fs, w: Window, genesis: BlockHash, snapshot: Base)
    requires DiskOk(fs, w, genesis, Base(0, genesis)) && w.Height() == 0
    ensures var booted, fs' := Window(snapshot.hash, snapshot.height, []), fs.(checkpoint := Some(snapshot));
            && (Reproduced(fs', booted, genesis) <==> snapshot.height > 0 || snapshot.hash == genesis)
            && (snapshot.height > 0 || snapshot.hash == genesis ==>
                DiskOk(fs', booted, genesis, snapshot) && Reopens(fs', snapshot))
  {
    var fs' := fs.(checkpoint := Some(snapshot));
    assert fs.blocks == map[] && fs.hashes == map[];
    forall h: nat ensures Linked(AsDb(fs'), h) {
    }
  }

  /** Bootstrapped at height 5, one block later a checkpoint: the store is sound but no longer opens. */
  lemma CheckpointAboveSnapshotFails(genesis: BlockHash) returns (fs: Fs, w: Window, floor: Base)
    ensures DiskOk(fs, w, genesis, floor) && w.Height() == 6 && OpenedDisk(fs, genesis) == None
  {
    floor := Base(5, Anchor(5));
    var header := Header(1, 6, Anchor(5), 0, 0, 0, [], 0);
    var b := StoredBlock(Block(header, [], []), Metadata(Digest(header, []), 6, Anchor(5), 0, 0, 0, 0, 0, 0, 0, 0), []);
    var booted := Fs(map[], map[], None, Some(floor), map[]);
    var empty := Window(Anchor(5), 5, []);
    FreshDiskOk(genesis, floor);
    WriteKeepsOk(booted, empty, genesis, floor, WriteBlock(b));
    PlanCompletes(booted, empty, WriteBlock(b));
    w := Append(empty, b);
    var grown := WithBlock(booted, b);
    WriteKeepsOk(grown, w, genesis, floor, WriteCheckpoint);
    PlanCompletes(grown, w, WriteCheckpoint);
    fs := After(grown, Plan(w, WriteCheckpoint), 3);
    assert 6 in fs.blocks && 1 !in fs.blocks && StartOf(fs, genesis).height == 6;
  }
}

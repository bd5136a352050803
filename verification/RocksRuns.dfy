/** Whole runs of the database-backed store, its secondary indices, and what pruning and bootstrapping promise. */
module RocksRuns {
  import opened Prelude
  import opened Blocks
  import opened Chain
  import opened RocksStore
  import opened RocksOps

  // ----- Runs -----

  datatype Op =
    | AppendOp(block: StoredBlock)
    | SwapOp(candidate: StoredBlock)
    | CheckpointOp(root: Root)
    | CompactOp(height: nat)
    | PruneOp(cutoff: nat)
    | ReopenOp(start: Base)

  ghost predicate Step(s: Store, op: Op, t: Store) {
    match op
    case AppendOp(b) => Extends(s.chain, b) && t == Appended(s, b)
    case SwapOp(c) => Sibling(s.chain, c) && t == Swapped(s, c)
    case CheckpointOp(root) => t == Checkpointed(s, root)
    case CompactOp(h) => s.chain.base <= h <= s.chain.Height() && t == Compacted(s, h)
    case PruneOp(cutoff) => Prunable(s, cutoff) && t == s.(db := Pruned(s.db, cutoff))
    case ReopenOp(start) => IsStart(s.db, start) && Opened(s.db, start) == Some(t.chain) && t.db == s.db
  }

  /** A swap the caller should allow: right count, and no checkpoint at the tip. */
  ghost predicate Prudent(s: Store, op: Op) {
    op.SwapOp? ==> Counted(op.candidate) && s.chain.Height() !in s.db.checkpoints
  }

  /** The height below which nothing is stored, after an operation. */
  function NextLo(lo: nat, op: Op): nat {
    if op.PruneOp? then PrunedLo(lo, op.cutoff) else lo
  }

  /** That height after the first `i` operations. */
  function LoAfter(lo: nat, ops: seq<Op>, i: nat): nat
    requires i <= |ops|
  {
    if i == 0 then lo else NextLo(LoAfter(lo, ops, i - 1), ops[i - 1])
  }

  ghost predicate IsRun(states: seq<Store>, ops: seq<Op>) {
    |states| == |ops| + 1 &&
    forall i :: 0 <= i < |ops| ==> Step(states[i], ops[i], states[i + 1]) && Prudent(states[i], ops[i])
  }

  lemma StepKeeps(s: Store, lo: nat, op: Op, t: Store)
    requires StoreOk(s, lo) && Reopenable(s) && Step(s, op, t) && Prudent(s, op)
    ensures StoreOk(t, NextLo(lo, op)) && Reopenable(t)
  {
    match op
    case AppendOp(b) =>
      AppendKeepsOk(s, lo, b);
      AppendKeepsSound(s, lo, b);
    case SwapOp(c) =>
      SwapKeepsOk(s, lo, c);
      PrudentSwapKeepsSound(s, lo, c);
    case CheckpointOp(root) =>
      CheckpointKeepsOk(s, lo, root);
      CheckpointRestoresSound(s, lo, root);
    case CompactOp(h) =>
      CompactKeepsOk(s, lo, h);
      CompactKeepsSound(s, h);
    case PruneOp(cutoff) =>
      PruneKeepsOk(s, lo, cutoff);
      PruneKeepsSound(s, lo, cutoff);
    case ReopenOp(start) =>
      ReopenKeepsOk(s, lo, start);
  }

  lemma PrudentSwapKeepsSound(s: Store, lo: nat, c: StoredBlock)
    requires StoreOk(s, lo) && Reopenable(s) && Sibling(s.chain, c) && Prudent(s, SwapOp(c))
    ensures Reopenable(Swapped(s, c))
  {
    forall start | IsStart(Swapped(s, c).db, start) ensures Sound(Swapped(s, c), start) {
      assert IsStart(s.db, start) && Sound(s, start);
      SwapSoundIff(s, lo, c, start);
      StartBelowTip(s, lo, start);
    }
  }

  /** With blocks in memory, only a checkpoint can make the tip the starting point. */
  lemma StartBelowTip(s: Store, lo: nat, start: Base)
    requires StoreOk(s, lo) && s.chain.blocks != [] && IsStart(s.db, start) && s.chain.Height() !in s.db.checkpoints
    ensures start.height < s.chain.Height()
  {
    StartInRange(s, lo, start);
    if start == Floor(s.db) {
      TipIsStored(s, lo);
    }
  }

  /** Along every run of prudent operations each state reopens to itself, and exactly if memory holds nothing pruned. */
  lemma RunsReopenFaithfully(states: seq<Store>, ops: seq<Op>, lo: nat, i: nat, start: Base)
    requires IsRun(states, ops) && StoreOk(states[0], lo) && Reopenable(states[0])
    requires i <= |ops| && IsStart(states[i].db, start)
    ensures Faithful(states[i], start, LoAfter(lo, ops, i))
    ensures forall b :: Extends(Opened(states[i].db, start).value, b) <==> Extends(states[i].chain, b)
    ensures Exact(states[i], start) <==> LoAfter(lo, ops, i) <= states[i].chain.base
  {
    RunKeeps(states, ops, lo, i);
    ReopenFaithfulIff(states[i], LoAfter(lo, ops, i), start);
    ReopenExactIff(states[i], LoAfter(lo, ops, i), start);
  }

  lemma {:induction false} RunKeeps(states: seq<Store>, ops: seq<Op>, lo: nat, i: nat)
    requires IsRun(states, ops) && StoreOk(states[0], lo) && Reopenable(states[0]) && i <= |ops|
    ensures StoreOk(states[i], LoAfter(lo, ops, i)) && Reopenable(states[i])
  {
    if i > 0 {
      var k := i - 1;
      RunKeeps(states, ops, lo, k);
      StepKeeps(states[k], LoAfter(lo, ops, k), ops[k], states[k + 1]);
    }
  }

  /** A prune that deletes only what memory has let go. */
  ghost predicate Tidy(s: Store, op: Op) {
    op.PruneOp? ==> op.cutoff <= s.chain.base + 1
  }

  ghost predicate AllTidy(states: seq<Store>, ops: seq<Op>) {
    |states| == |ops| + 1 && forall i :: 0 <= i < |ops| ==> Tidy(states[i], ops[i])
  }

  /** If every prune comes after a compaction, each state along the run reopens exactly. */
  lemma TidyRunsReopenExactly(states: seq<Store>, ops: seq<Op>, lo: nat, i: nat, start: Base)
    requires IsRun(states, ops) && StoreOk(states[0], lo) && Reopenable(states[0]) && lo <= states[0].chain.base
    requires AllTidy(states, ops) && i <= |ops| && IsStart(states[i].db, start)
    ensures Exact(states[i], start)
  {
    TidyRunKeepsBase(states, ops, lo, i);
    RunsReopenFaithfully(states, ops, lo, i, start);
  }

  lemma {:induction false} TidyRunKeepsBase(states: seq<Store>, ops: seq<Op>, lo: nat, i: nat)
    requires IsRun(states, ops) && StoreOk(states[0], lo) && Reopenable(states[0]) && lo <= states[0].chain.base
    requires AllTidy(states, ops) && i <= |ops|
    ensures LoAfter(lo, ops, i) <= states[i].chain.base
  {
    if i > 0 {
      var k := i - 1;
      TidyRunKeepsBase(states, ops, lo, k);
      RunKeeps(states, ops, lo, k);
      TidyStep(states[k], LoAfter(lo, ops, k), ops[k], states[k + 1]);
    }
  }

  lemma TidyStep(s: Store, lo: nat, op: Op, t: Store)
    requires StoreOk(s, lo) && lo <= s.chain.base && Step(s, op, t) && Tidy(s, op)
    ensures NextLo(lo, op) <= t.chain.base
  {
    if op.ReopenOp? {
      StartInRange(s, lo, op.start);
      OpenedBase(s, lo, op.start);
    }
  }

  // ----- State roots of checkpoints -----

  /** A checkpoint of a stored block has the state root that the block announces. */
  ghost predicate RootsOk(db: Db) {
    forall k :: k in db.checkpoints && k in db.blocks ==> db.checkpoints[k].stateRoot == db.blocks[k].metadata.stateRoot
  }

  /** The root is the one that the stored tip announces. */
  ghost predicate Announced(s: Store, root: Root) {
    s.chain.Height() in s.db.blocks ==> root == s.db.blocks[s.chain.Height()].metadata.stateRoot
  }

  /** Writing a checkpoint keeps the roots right exactly if it is given the announced root. */
  lemma CheckpointRootsIff(s: Store, lo: nat, root: Root)
    requires StoreOk(s, lo) && RootsOk(s.db)
    ensures RootsOk(Checkpointed(s, root).db) <==> Announced(s, root)
  {
    var t := Checkpointed(s, root);
    assert s.chain.Height() in t.db.checkpoints;
  }

  /** While the tip block is in memory, that is the root it must have to be accepted. */
  lemma AcceptedIsAnnounced(s: Store, lo: nat, root: Root)
    requires StoreOk(s, lo) && s.chain.blocks != []
    ensures Announced(s, root) <==> root == s.chain.blocks[|s.chain.blocks| - 1].metadata.stateRoot
  {
    TipIsStored(s, lo);
  }

  ghost predicate Truthful(s: Store, op: Op) {
    op.CheckpointOp? ==> Announced(s, op.root)
  }

  lemma StepKeepsRoots(s: Store, lo: nat, op: Op, t: Store)
    requires StoreOk(s, lo) && RootsOk(s.db) && Step(s, op, t) && Truthful(s, op)
    ensures RootsOk(t.db)
  {
    match op
    case AppendOp(b) => AppendKeepsRoots(s, lo, b);
    case SwapOp(c) => SwapKeepsRoots(s, lo, c);
    case CheckpointOp(root) => CheckpointRootsIff(s, lo, root);
    case CompactOp(h) =>
    case PruneOp(cutoff) =>
    case ReopenOp(start) =>
  }

  lemma AppendKeepsRoots(s: Store, lo: nat, b: StoredBlock)
    requires StoreOk(s, lo) && RootsOk(s.db) && Extends(s.chain, b)
    ensures RootsOk(Appended(s, b).db)
  {
    assert b.metadata.height !in s.db.checkpoints;
  }

  /** Siblings announce the same state root. */
  lemma SwapKeepsRoots(s: Store, lo: nat, c: StoredBlock)
    requires StoreOk(s, lo) && RootsOk(s.db) && Sibling(s.chain, c)
    ensures RootsOk(Swapped(s, c).db)
  {
    TipIsStored(s, lo);
  }

  /** Along every run in which checkpoints are given the announced root, all of them keep the roots of their blocks. */
  lemma {:induction false} RunKeepsRoots(states: seq<Store>, ops: seq<Op>, lo: nat, i: nat)
    requires IsRun(states, ops) && StoreOk(states[0], lo) && Reopenable(states[0]) && RootsOk(states[0].db) && i <= |ops|
    requires forall j :: 0 <= j < |ops| ==> Truthful(states[j], ops[j])
    ensures RootsOk(states[i].db)
  {
    if i > 0 {
      var k := i - 1;
      RunKeepsRoots(states, ops, lo, k);
      RunKeeps(states, ops, lo, k);
      StepKeepsRoots(states[k], LoAfter(lo, ops, k), ops[k], states[k + 1]);
    }
  }

  function EmptyDb(anchor: BlockHash): Db {
    Db(map[], map[], map[], map[], map[], None, anchor, None)
  }

  lemma FreshStoreOk(anchor: BlockHash)
    ensures StoreOk(Store(EmptyDb(anchor), Window(anchor, 0, [])), 0)
    ensures Reopenable(Store(EmptyDb(anchor), Window(anchor, 0, [])))
  {
  }

  // ----- Bootstrapping -----

  /** An empty store after importing a snapshot, before its tail is appended. */
  function Bootstrapped(s: Store, cp: Checkpoint): Store {
    Store(s.db.(checkpoints := s.db.checkpoints[cp.height := cp],
                snapshotBase := Some(Base(cp.height, cp.tipHash)), tipHeight := Some(cp.height)),
          Window(cp.tipHash, cp.height, []))
  }

  /** A bootstrapped store reopens to itself unless the snapshot is at height zero and names another genesis. */
  lemma BootstrapFaithfulIff(s: Store, cp: Checkpoint, start: Base)
    requires StoreOk(s, 0) && s.chain.Height() == 0 && IsStart(Bootstrapped(s, cp).db, start)
    ensures Faithful(Bootstrapped(s, cp), start, cp.height) <==> cp.height > 0 || cp.tipHash == s.db.genesisAnchor
    ensures cp.height > 0 || cp.tipHash == s.db.genesisAnchor ==> StoreOk(Bootstrapped(s, cp), cp.height)
    ensures cp.height > 0 ==> Reopenable(Bootstrapped(s, cp))
  {
    var t := Bootstrapped(s, cp);
    assert s.db.blocks == map[] && s.db.hashIndex == map[];
    if cp.height > 0 {
      assert IsLatest(t.db.checkpoints, cp.height);
    }
  }

  // ----- Pruning is invisible at and above the cutoff -----

  lemma {:induction false} PruneKeepsLoaded(db: Db, w: Window, top: nat, cutoff: nat)
    requires w.Height() + 1 >= cutoff
    ensures Loaded(Pruned(db, cutoff), w, top) == Loaded(db, w, top)
    decreases top - w.Height()
  {
    if w.Height() < top && w.Height() + 1 in db.blocks {
      PruneKeepsLoaded(db, Append(w, db.blocks[w.Height() + 1]), top, cutoff);
    }
  }

  /** After a prune the store opens to the very same window, and every read at or above the cutoff is unchanged. */
  lemma PruneInvisible(s: Store, lo: nat, cutoff: nat, start: Base, h: nat)
    requires StoreOk(s, lo) && Prunable(s, cutoff) && IsStart(s.db, start)
    ensures var t := s.(db := Pruned(s.db, cutoff));
            && IsStart(t.db, start) && Opened(t.db, start) == Opened(s.db, start)
            && (h >= cutoff ==> Read(t, h) == Read(s, h))
            && (h in t.db.blocks <==> h in s.db.blocks && h >= cutoff)
  {
    PruneKeepsStart(s, lo, cutoff, start);
    PruneKeepsLoaded(s.db, Window(start.hash, start.height, []), TipHeight(s.db), cutoff);
  }

  /** Every index answers as before where its answer is at or above the cutoff, and not at all below. */
  lemma PruneKeepsAnswers(db: Db, cutoff: nat, x: BlockHash, t: TxHash, sibling: (BlockHash, nat))
    ensures var p := Pruned(db, cutoff);
            && Answer(p.hashIndex, x) == (if x in db.hashIndex && db.hashIndex[x] >= cutoff then Answer(db.hashIndex, x) else None)
            && Answer(p.txIndex, t) == (if t in db.txIndex && db.txIndex[t] >= cutoff then Answer(db.txIndex, t) else None)
            && Answer(p.siblings, sibling) == (if sibling.1 >= cutoff then Answer(db.siblings, sibling) else None)
  {
  }

  function Answer<K(==), V>(m: map<K, V>, k: K): Option<V> {
    if k in m then Some(m[k]) else None
  }

  /** Reads below the cutoff find nothing exactly if memory had already let go of those blocks. */
  lemma PruneForgetsIff(s: Store, lo: nat, cutoff: nat)
    requires StoreOk(s, lo) && Prunable(s, cutoff)
    ensures (forall h: nat :: h < cutoff ==> Read(s.(db := Pruned(s.db, cutoff)), h) == None) <==> cutoff <= s.chain.base + 1
  {
    var t := s.(db := Pruned(s.db, cutoff));
    if s.chain.base + 1 < cutoff {
      assert Read(t, s.chain.base + 1) == s.chain.Lookup(s.chain.base + 1) != None;
    }
  }

  // ----- The transaction index -----

  /** A transaction is indexed exactly if a stored block holds it, at the highest such height. */
  ghost predicate TxIndexOk(db: Db) {
    (forall t :: t in db.txIndex ==> db.txIndex[t] in db.blocks && t in db.blocks[db.txIndex[t]].block.txHashes) &&
    (forall h, t :: h in db.blocks && t in db.blocks[h].block.txHashes ==> t in db.txIndex && h <= db.txIndex[t])
  }

  lemma AppendKeepsTxIndex(db: Db, b: StoredBlock)
    requires TxIndexOk(db) && forall h :: h in db.blocks ==> h < b.metadata.height
    ensures TxIndexOk(Persisted(db, b))
  {
    var r, top := Persisted(db, b), b.metadata.height;
    IndexTxsAt(db.txIndex, b.block.txHashes, top);
    assert r.blocks[top] == b;
    forall t | t in r.txIndex ensures r.txIndex[t] in r.blocks && t in r.blocks[r.txIndex[t]].block.txHashes {
      if t !in b.block.txHashes {
        assert t in db.txIndex && r.txIndex[t] == db.txIndex[t];
      }
    }
    forall h, t | h in r.blocks && t in r.blocks[h].block.txHashes ensures t in r.txIndex && h <= r.txIndex[t] {
      if t !in b.block.txHashes {
        assert h in db.blocks && t in db.blocks[h].block.txHashes;
      }
    }
  }

  lemma PruneKeepsTxIndex(db: Db, cutoff: nat)
    requires TxIndexOk(db)
    ensures TxIndexOk(Pruned(db, cutoff))
  {
  }

  /** A swap does not re-index, so the index stays right exactly if both siblings hold the same transactions. */
  lemma SwapTxIndexIff(s: Store, lo: nat, c: StoredBlock)
    requires StoreOk(s, lo) && TxIndexOk(s.db) && Sibling(s.chain, c)
    ensures TxIndexOk(Swapped(s, c).db) <==>
              ToSet(c.block.txHashes) == ToSet(s.chain.blocks[|s.chain.blocks| - 1].block.txHashes)
  {
    TipIsStored(s, lo);
    SwapTxIndex(s.db, s.db.blocks[s.chain.Height()], c, s.chain.Height());
  }

  lemma SwapTxIndex(db: Db, tip: StoredBlock, c: StoredBlock, top: nat)
    requires TxIndexOk(db) && top in db.blocks && db.blocks[top] == tip && c.metadata.height == top
    requires forall h :: h in db.blocks ==> h <= top
    ensures TxIndexOk(Replaced(db, tip, c)) <==> ToSet(c.block.txHashes) == ToSet(tip.block.txHashes)
  {
    var r := Replaced(db, tip, c);
    assert r.blocks[top] == c && r.txIndex == db.txIndex;
    if TxIndexOk(r) {
      forall t ensures t in c.block.txHashes <==> t in tip.block.txHashes {
        assert t in tip.block.txHashes ==> t in db.txIndex && db.txIndex[t] == top;
        assert t in c.block.txHashes ==> t in r.txIndex && r.txIndex[t] == top;
      }
    }
    if ToSet(c.block.txHashes) == ToSet(tip.block.txHashes) {
      assert forall t :: t in c.block.txHashes <==> t in ToSet(c.block.txHashes);
      assert forall t :: t in tip.block.txHashes <==> t in ToSet(tip.block.txHashes);
    }
  }

  /** A swap that keeps the transaction list, as siblings of one proposal do. */
  ghost predicate SameTxs(s: Store, op: Op) {
    op.SwapOp? && s.chain.blocks != [] ==>
      ToSet(op.candidate.block.txHashes) == ToSet(s.chain.blocks[|s.chain.blocks| - 1].block.txHashes)
  }

  /** Along every run whose swaps keep the transaction list the index finds every stored transaction, and nothing else. */
  lemma {:induction false} RunKeepsTxIndex(states: seq<Store>, ops: seq<Op>, lo: nat, i: nat)
    requires IsRun(states, ops) && StoreOk(states[0], lo) && Reopenable(states[0]) && TxIndexOk(states[0].db)
    requires i <= |ops| && forall j :: 0 <= j < |ops| ==> SameTxs(states[j], ops[j])
    ensures TxIndexOk(states[i].db)
  {
    if i > 0 {
      var k := i - 1;
      RunKeepsTxIndex(states, ops, lo, k);
      RunKeeps(states, ops, lo, k);
      StepKeepsTxIndex(states[k], LoAfter(lo, ops, k), ops[k], states[k + 1]);
    }
  }

  lemma StepKeepsTxIndex(s: Store, lo: nat, op: Op, t: Store)
    requires StoreOk(s, lo) && TxIndexOk(s.db) && Step(s, op, t) && SameTxs(s, op)
    ensures TxIndexOk(t.db)
  {
    match op
    case AppendOp(b) => AppendKeepsTxIndex(s.db, b);
    case SwapOp(c) => SwapTxIndexIff(s, lo, c);
    case PruneOp(cutoff) => PruneKeepsTxIndex(s.db, cutoff);
    case _ =>
  }

  // ----- Swaps and the sibling archive -----

  /** The displaced block is archived, and swapping it back restores the chain and both lookups. */
  lemma SwapBack(s: Store, lo: nat, c: StoredBlock)
    requires StoreOk(s, lo) && Sibling(s.chain, c)
    ensures var tip := s.chain.blocks[|s.chain.blocks| - 1];
            var t := Swapped(s, c);
            && var key := (tip.metadata.blockHash, s.chain.Height());
            && key in t.db.siblings && t.db.siblings[key] == tip
            && Sibling(t.chain, tip)
            && Swapped(t, tip).chain == s.chain
            && Swapped(t, tip).db.blocks == s.db.blocks && Swapped(t, tip).db.hashIndex == s.db.hashIndex
            && Swapped(t, tip).db.txIndex == s.db.txIndex
  {
    TipIsStored(s, lo);
    assert s.chain.BlockOk(|s.chain.blocks| - 1);
  }

  /** A swap of a checkpointed tip: the store opens, but onto the block that was displaced. */
  lemma CheckpointedSwapDiverges(s: Store, lo: nat, c: StoredBlock, start: Base)
    requires StoreOk(s, lo) && Sibling(s.chain, c) && IsStart(s.db, start) && Sound(s, start)
    requires start.height == s.chain.Height()
    ensures var t := Swapped(s, c);
            && IsStart(t.db, start) && Opened(t.db, start) == Some(Window(start.hash, start.height, []))
            && start.hash == s.chain.TipHash() != t.chain.TipHash()
  {
    TipIsStored(s, lo);
    assert s.chain.Height() + 1 !in s.db.blocks;
  }

  /** A swap to a wrong count above the newest checkpoint: the store does not open. */
  lemma MiscountedSwapFails(s: Store, lo: nat, c: StoredBlock, start: Base)
    requires StoreOk(s, lo) && Sibling(s.chain, c) && IsStart(s.db, start) && !Counted(c)
    requires start.height < s.chain.Height()
    ensures IsStart(Swapped(s, c).db, start) && Opened(Swapped(s, c).db, start) == None
  {
    var t := Swapped(s, c);
    StartInRange(s, lo, start);
    SwapKeepsOk(s, lo, c);
    TipIsStored(s, lo);
    assert t.db.blocks[s.chain.Height()] == c;
    LoadedIff(t.db, Window(start.hash, start.height, []), lo, s.chain.Height());
  }
}

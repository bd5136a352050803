/** The operations of the database-backed store on values, and what whole runs of them keep. */
module RocksOps {
  import opened Prelude
  import opened Blocks
  import opened Chain
  import opened RocksStore

  // ----- The operations -----

  /** Maps every listed transaction to the height, over what was there. */
  function IndexTxs(index: map<TxHash, nat>, txs: seq<TxHash>, height: nat): map<TxHash, nat> {
    if txs == [] then index else IndexTxs(index, txs[..|txs| - 1], height)[txs[|txs| - 1] := height]
  }

  lemma {:induction false} IndexTxsAt(index: map<TxHash, nat>, txs: seq<TxHash>, height: nat)
    ensures forall t :: t in IndexTxs(index, txs, height) <==> t in index || t in txs
    ensures forall t :: t in IndexTxs(index, txs, height) ==>
              IndexTxs(index, txs, height)[t] == if t in txs then height else index[t]
  {
    if txs != [] {
      var front := txs[..|txs| - 1];
      IndexTxsAt(index, front, height);
      assert txs == front + [txs[|txs| - 1]];
    }
  }

  function Persisted(db: Db, b: StoredBlock): Db {
    var h := b.metadata.height;
    db.(blocks := db.blocks[h := b], hashIndex := db.hashIndex[b.metadata.blockHash := h],
        txIndex := IndexTxs(db.txIndex, b.block.txHashes, h), tipHeight := Some(h))
  }

  function Appended(s: Store, b: StoredBlock): Store {
    Store(Persisted(s.db, b), Append(s.chain, b))
  }

  /** Archives the displaced block, overwrites its height and re-indexes the hash; the transaction index is left alone. */
  function Replaced(db: Db, displaced: StoredBlock, c: StoredBlock): Db {
    var h := c.metadata.height;
    db.(siblings := db.siblings[(displaced.metadata.blockHash, h) := displaced],
        hashIndex := (db.hashIndex - {displaced.metadata.blockHash})[c.metadata.blockHash := h],
        blocks := db.blocks[h := c], tipHeight := Some(h))
  }

  function Swapped(s: Store, c: StoredBlock): Store
    requires s.chain.blocks != []
  {
    Store(Replaced(s.db, s.chain.blocks[|s.chain.blocks| - 1], c), Swap(s.chain, c))
  }

  function Checkpointed(s: Store, root: Root): Store {
    var h := s.chain.Height();
    s.(db := s.db.(checkpoints := s.db.checkpoints[h := Checkpoint(h, s.chain.TipHash(), root)]))
  }

  function Compacted(s: Store, height: nat): Store
    requires s.chain.base <= height <= s.chain.Height()
  {
    s.(chain := Compact(s.chain, height))
  }

  /** Pruning may go ahead: the cutoff is a stored height and some checkpoint is at or above it. */
  ghost predicate Prunable(s: Store, cutoff: nat) {
    0 < cutoff <= s.chain.Height() && exists k :: k in s.db.checkpoints && k >= cutoff
  }

  function BlocksFrom(blocks: map<nat, StoredBlock>, cutoff: nat): map<nat, StoredBlock> {
    map h | h in blocks && h >= cutoff :: blocks[h]
  }

  function IndexFrom<K(==)>(index: map<K, nat>, cutoff: nat): map<K, nat> {
    map x | x in index && index[x] >= cutoff :: index[x]
  }

  function SiblingsFrom(siblings: map<(BlockHash, nat), StoredBlock>, cutoff: nat): map<(BlockHash, nat), StoredBlock> {
    map p | p in siblings && p.1 >= cutoff :: siblings[p]
  }

  function Newest(checkpoints: map<nat, Checkpoint>): map<nat, Checkpoint> {
    map k | k in checkpoints && (forall j :: j in checkpoints ==> j <= k) :: checkpoints[k]
  }

  lemma NewestIs(checkpoints: map<nat, Checkpoint>, l: nat)
    requires l in checkpoints && forall j :: j in checkpoints ==> j <= l
    ensures Newest(checkpoints) == map[l := checkpoints[l]]
  {
    forall k | k in Newest(checkpoints) ensures k == l {
      assert k in checkpoints && l <= k;
    }
  }

  function Pruned(db: Db, cutoff: nat): Db {
    db.(blocks := BlocksFrom(db.blocks, cutoff), hashIndex := IndexFrom(db.hashIndex, cutoff),
        txIndex := IndexFrom(db.txIndex, cutoff), siblings := SiblingsFrom(db.siblings, cutoff),
        checkpoints := Newest(db.checkpoints))
  }

  function PrunedLo(lo: nat, cutoff: nat): nat {
    if lo < cutoff then cutoff - 1 else lo
  }

  // ----- Every operation keeps the invariant -----

  lemma AppendKeepsOk(s: Store, lo: nat, b: StoredBlock)
    requires StoreOk(s, lo) && Extends(s.chain, b)
    ensures StoreOk(Appended(s, b), lo)
  {
    AppendKeepsValid(s.chain, b);
    AppendKeepsBlocks(s, lo, b);
    AppendKeepsWindow(s, lo, b);
    AppendKeepsIndex(s, lo, b);
  }

  lemma AppendKeepsBlocks(s: Store, lo: nat, b: StoredBlock)
    requires s.chain.Valid() && BlocksOk(s.db, lo, s.chain.Height()) && WindowOk(s.db, s.chain) && lo <= s.chain.Height()
    requires Extends(s.chain, b)
    ensures BlocksOk(Persisted(s.db, b), lo, b.metadata.height)
  {
    var db := Persisted(s.db, b);
    forall h: nat ensures Linked(db, h) {
      assert Linked(s.db, h);
      if h == s.chain.Height() && h in s.db.blocks {
        CanonicalIsStored(s, lo, h);
      }
    }
  }

  lemma AppendKeepsWindow(s: Store, lo: nat, b: StoredBlock)
    requires BlocksOk(s.db, lo, s.chain.Height()) && WindowOk(s.db, s.chain) && b.metadata.height == s.chain.Height() + 1
    ensures WindowOk(Persisted(s.db, b), Append(s.chain, b))
  {
    assert forall h :: h != s.chain.Height() + 1 ==> Append(s.chain, b).Lookup(h) == s.chain.Lookup(h);
  }

  lemma AppendKeepsIndex(s: Store, lo: nat, b: StoredBlock)
    requires BlocksOk(s.db, lo, s.chain.Height()) && HashIndexOk(s.db) && Extends(s.chain, b)
    ensures HashIndexOk(Persisted(s.db, b))
  {
  }

  lemma SwapKeepsOk(s: Store, lo: nat, c: StoredBlock)
    requires StoreOk(s, lo) && Sibling(s.chain, c)
    ensures StoreOk(Swapped(s, c), lo)
  {
    SwapKeepsValid(s.chain, c);
    TipIsStored(s, lo);
    SwapKeepsBlocks(s, lo, c);
    SwapKeepsWindow(s, lo, c);
    SwapKeepsIndex(s, lo, c);
    SwapKeepsFloor(s, lo, c);
  }

  /** The last block of a window is the one stored at the tip height. */
  lemma TipIsStored(s: Store, lo: nat)
    requires StoreOk(s, lo) && s.chain.blocks != []
    ensures s.chain.Height() in s.db.blocks
    ensures s.db.blocks[s.chain.Height()] == s.chain.blocks[|s.chain.blocks| - 1]
    ensures s.chain.blocks[|s.chain.blocks| - 1].metadata.height == s.chain.Height()
  {
    assert s.chain.Lookup(s.chain.Height()) == Some(s.db.blocks[s.chain.Height()]);
    assert s.chain.BlockOk(|s.chain.blocks| - 1);
  }

  lemma SwapKeepsBlocks(s: Store, lo: nat, c: StoredBlock)
    requires BlocksOk(s.db, lo, s.chain.Height()) && Sibling(s.chain, c)
    requires s.chain.Height() in s.db.blocks && s.db.blocks[s.chain.Height()] == s.chain.blocks[|s.chain.blocks| - 1]
    ensures BlocksOk(Swapped(s, c).db, lo, s.chain.Height())
  {
    var db := Swapped(s, c).db;
    forall h: nat ensures Linked(db, h) {
      assert Linked(s.db, h);
    }
  }

  lemma SwapKeepsWindow(s: Store, lo: nat, c: StoredBlock)
    requires BlocksOk(s.db, lo, s.chain.Height()) && WindowOk(s.db, s.chain)
    requires s.chain.blocks != [] && c.metadata.height == s.chain.Height()
    ensures WindowOk(Swapped(s, c).db, Swapped(s, c).chain)
  {
    assert forall h :: h != s.chain.Height() ==> Swap(s.chain, c).Lookup(h) == s.chain.Lookup(h);
  }

  lemma SwapKeepsIndex(s: Store, lo: nat, c: StoredBlock)
    requires BlocksOk(s.db, lo, s.chain.Height()) && HashIndexOk(s.db) && Sibling(s.chain, c)
    requires s.chain.Height() in s.db.blocks && s.db.blocks[s.chain.Height()] == s.chain.blocks[|s.chain.blocks| - 1]
    ensures HashIndexOk(Swapped(s, c).db)
  {
  }

  lemma SwapKeepsFloor(s: Store, lo: nat, c: StoredBlock)
    requires BlocksOk(s.db, lo, s.chain.Height()) && FloorOk(s, lo) && Sibling(s.chain, c)
    requires s.chain.Height() in s.db.blocks && s.db.blocks[s.chain.Height()] == s.chain.blocks[|s.chain.blocks| - 1]
    ensures FloorOk(Swapped(s, c), lo)
  {
    assert lo + 1 in s.db.blocks;
    SwapCanonical(s, lo, c, lo);
  }

  lemma CheckpointKeepsOk(s: Store, lo: nat, root: Root)
    requires StoreOk(s, lo)
    ensures StoreOk(Checkpointed(s, root), lo)
  {
    SameBlocks(s.db, Checkpointed(s, root).db, lo, s.chain.Height());
    CheckpointKeepsCheckpoints(s, lo, root);
  }

  lemma CheckpointKeepsCheckpoints(s: Store, lo: nat, root: Root)
    requires CheckpointsOk(s.db, lo, s.chain.Height())
    ensures CheckpointsOk(Checkpointed(s, root).db, lo, s.chain.Height())
  {
    var t := Checkpointed(s, root).db.checkpoints;
    assert forall k :: k in s.db.checkpoints ==> k in t;
    assert s.chain.Height() in t;
  }

  lemma CompactKeepsOk(s: Store, lo: nat, height: nat)
    requires StoreOk(s, lo) && s.chain.base <= height <= s.chain.Height()
    ensures StoreOk(Compacted(s, height), lo)
  {
    CompactKeepsValid(s.chain, height);
    assert forall h :: h > height ==> Compact(s.chain, height).Lookup(h) == s.chain.Lookup(h);
    if height in s.db.blocks && s.chain.base < height {
      assert s.chain.Lookup(height) == Some(s.db.blocks[height]);
    }
  }

  lemma PruneKeepsOk(s: Store, lo: nat, cutoff: nat)
    requires StoreOk(s, lo) && Prunable(s, cutoff)
    ensures StoreOk(s.(db := Pruned(s.db, cutoff)), PrunedLo(lo, cutoff))
  {
    PruneKeepsBlocks(s.db, lo, s.chain.Height(), cutoff);
    PruneKeepsIndex(s.db, cutoff);
    PruneKeepsCheckpoints(s, lo, cutoff);
    PruneKeepsFloor(s, lo, cutoff);
  }

  lemma PruneKeepsBlocks(db: Db, lo: nat, top: nat, cutoff: nat)
    requires BlocksOk(db, lo, top)
    ensures BlocksOk(Pruned(db, cutoff), PrunedLo(lo, cutoff), top)
  {
    forall h: nat ensures Linked(Pruned(db, cutoff), h) {
      assert Linked(db, h);
    }
  }

  lemma PruneKeepsIndex(db: Db, cutoff: nat)
    requires HashIndexOk(db)
    ensures HashIndexOk(Pruned(db, cutoff))
  {
  }

  lemma PruneKeepsCheckpoints(s: Store, lo: nat, cutoff: nat)
    requires CheckpointsOk(s.db, lo, s.chain.Height()) && Prunable(s, cutoff)
    ensures CheckpointsOk(Pruned(s.db, cutoff), PrunedLo(lo, cutoff), s.chain.Height())
  {
    var l := PruneKeepsLatest(s, cutoff);
    assert l in Pruned(s.db, cutoff).checkpoints;
  }

  lemma PruneKeepsFloor(s: Store, lo: nat, cutoff: nat)
    requires BlocksOk(s.db, lo, s.chain.Height()) && CheckpointsOk(s.db, lo, s.chain.Height()) && FloorOk(s, lo)
    requires 0 < cutoff <= s.chain.Height()
    ensures FloorOk(s.(db := Pruned(s.db, cutoff)), PrunedLo(lo, cutoff))
  {
    var l := PrunedLo(lo, cutoff);
    assert l + 1 in s.db.blocks <==> l + 1 in Pruned(s.db, cutoff).blocks;
  }

  /** Pruning keeps the newest checkpoint and no other. */
  lemma PruneKeepsLatest(s: Store, cutoff: nat) returns (l: nat)
    requires Prunable(s, cutoff) && forall k :: k in s.db.checkpoints ==> k <= s.chain.Height()
    ensures IsLatest(s.db.checkpoints, l) && l >= cutoff
    ensures Pruned(s.db, cutoff).checkpoints == map[l := s.db.checkpoints[l]]
  {
    var k :| k in s.db.checkpoints && k >= cutoff;
    l := LatestExists(s.db.checkpoints, k, s.chain.Height());
    NewestIs(s.db.checkpoints, l);
  }

  // ----- What each operation does to a later reopen -----

  /** The next opening reproduces the store. */
  ghost predicate Reopenable(s: Store) {
    forall b :: IsStart(s.db, b) ==> Sound(s, b)
  }

  lemma AppendKeepsSound(s: Store, lo: nat, b: StoredBlock)
    requires StoreOk(s, lo) && Extends(s.chain, b) && Reopenable(s)
    ensures Reopenable(Appended(s, b))
  {
    var t := Appended(s, b);
    forall start | IsStart(t.db, start) ensures Sound(t, start) {
      assert IsStart(s.db, start) && Sound(s, start);
      StartInRange(s, lo, start);
    }
  }

  /** A swap is reproduced exactly if the candidate's count is right and the tip is not the newest checkpoint. */
  lemma SwapSoundIff(s: Store, lo: nat, c: StoredBlock, start: Base)
    requires StoreOk(s, lo) && Sibling(s.chain, c) && IsStart(s.db, start) && Sound(s, start)
    ensures IsStart(Swapped(s, c).db, start)
    ensures Sound(Swapped(s, c), start) <==> Counted(c) && start.height != s.chain.Height()
  {
    StartInRange(s, lo, start);
    TipIsStored(s, lo);
    SwapCanonical(s, lo, c, start.height);
    SwapCounted(s.db, s.db.blocks[s.chain.Height()], c, start.height);
  }

  lemma SwapCounted(db: Db, tip: StoredBlock, c: StoredBlock, k: nat)
    requires CountedAbove(db, k)
    ensures CountedAbove(Replaced(db, tip, c), k) <==> (c.metadata.height > k ==> Counted(c))
  {
    var blocks := Replaced(db, tip, c).blocks;
    assert c.metadata.height in blocks && blocks[c.metadata.height] == c;
  }

  /** A swap changes the canonical hash at the tip and at no other height. */
  lemma SwapCanonical(s: Store, lo: nat, c: StoredBlock, k: nat)
    requires BlocksOk(s.db, lo, s.chain.Height()) && Sibling(s.chain, c) && lo <= k <= s.chain.Height()
    requires s.chain.Height() in s.db.blocks && s.db.blocks[s.chain.Height()] == s.chain.blocks[|s.chain.blocks| - 1]
    ensures Canonical(Swapped(s, c), k) == Canonical(s, k) <==> k != s.chain.Height()
  {
  }

  /** Writing a checkpoint makes the store reopenable whatever happened before. */
  lemma CheckpointRestoresSound(s: Store, lo: nat, root: Root)
    requires StoreOk(s, lo)
    ensures Reopenable(Checkpointed(s, root))
  {
    var t := Checkpointed(s, root);
    forall start | IsStart(t.db, start) ensures Sound(t, start) {
      if s.chain.Height() > 0 {
        assert IsLatest(t.db.checkpoints, s.chain.Height());
      } else {
        CheckpointKeepsOk(s, lo, root);
        StartInRange(t, lo, start);
      }
    }
  }

  lemma CompactKeepsSound(s: Store, height: nat)
    requires s.chain.base <= height <= s.chain.Height() && Reopenable(s)
    ensures Reopenable(Compacted(s, height))
  {
    CompactionKeepsTip(s.chain, height);
    forall start | IsStart(s.db, start) ensures Sound(Compacted(s, height), start) {
      assert Sound(s, start);
    }
  }

  lemma CompactionKeepsTip(w: Window, height: nat)
    requires w.base <= height <= w.Height()
    ensures Compact(w, height).TipHash() == w.TipHash()
  {
    assert height < w.Height() ==> Compact(w, height).blocks[w.Height() - height - 1] == w.blocks[|w.blocks| - 1];
  }

  /** Pruning moves neither the starting point nor anything at or above the cutoff. */
  lemma PruneKeepsStart(s: Store, lo: nat, cutoff: nat, start: Base)
    requires StoreOk(s, lo) && Prunable(s, cutoff)
    ensures IsStart(Pruned(s.db, cutoff), start) <==> IsStart(s.db, start)
    ensures IsStart(s.db, start) ==> start.height >= cutoff
  {
    var l := PruneKeepsLatest(s, cutoff);
    assert IsLatest(Pruned(s.db, cutoff).checkpoints, l);
  }

  lemma PruneKeepsSound(s: Store, lo: nat, cutoff: nat)
    requires StoreOk(s, lo) && Prunable(s, cutoff) && Reopenable(s)
    ensures Reopenable(s.(db := Pruned(s.db, cutoff)))
  {
    var t := s.(db := Pruned(s.db, cutoff));
    forall start | IsStart(t.db, start) ensures Sound(t, start) {
      PruneKeepsStart(s, lo, cutoff, start);
      assert Sound(s, start);
    }
  }

  /** A faithfully reopened store satisfies the invariant again. */
  lemma ReopenKeepsOk(s: Store, lo: nat, start: Base)
    requires StoreOk(s, lo) && IsStart(s.db, start) && Sound(s, start)
    ensures Opened(s.db, start).Some?
    ensures StoreOk(Store(s.db, Opened(s.db, start).value), lo)
    ensures Reopenable(s) ==> Reopenable(Store(s.db, Opened(s.db, start).value))
  {
    ReopenFaithfulIff(s, lo, start);
    StartInRange(s, lo, start);
    OpenedWindowOk(s, lo, start);
    OpenedBase(s, lo, start);
    SameTipKeepsOk(s, lo, Opened(s.db, start).value);
  }

  lemma OpenedWindowOk(s: Store, lo: nat, start: Base)
    requires StoreOk(s, lo) && lo <= start.height <= s.chain.Height() && Opened(s.db, start).Some? && Sound(s, start)
    ensures var w := Opened(s.db, start).value; w.Valid() && WindowOk(s.db, w)
  {
    if s.chain.Height() > 0 {
      LoadedShape(s.db, Window(start.hash, start.height, []), s.chain.Height());
      if start.height in s.db.blocks {
        CanonicalIsStored(s, lo, start.height);
      }
    }
  }

  /** The invariant only sees the height, the tip and the blocks of a window. */
  lemma SameTipKeepsOk(s: Store, lo: nat, w: Window)
    requires StoreOk(s, lo) && w.Valid() && WindowOk(s.db, w)
    requires w.Height() == s.chain.Height() && w.TipHash() == s.chain.TipHash() && w.base >= lo
    ensures StoreOk(s.(chain := w), lo)
    ensures Reopenable(s) ==> Reopenable(s.(chain := w))
  {
    assert forall k :: Canonical(s.(chain := w), k) == Canonical(s, k);
    forall b | Reopenable(s) && IsStart(s.db, b) ensures Sound(s.(chain := w), b) {
      assert Sound(s, b);
    }
  }
}

/** The class that runs the operations of `RocksStore` and `RocksOps`; column families are maps, a batch is one assignment. */
module RocksDb {
  import opened Prelude
  import opened Blocks
  import opened Chain
  import opened RocksStore
  import opened RocksOps

  datatype StorageError =
    | MissingBlockFile(height: nat)
    | BadBlock(chain: ChainError)
    | TipHeightMismatch(expected: nat, got: nat)
    | CheckpointHeightMismatch(expected: nat, got: nat)
    | CheckpointStateRootMismatch(expectedRoot: Root, gotRoot: Root)
    | InvalidPruneCutoff

  datatype PruneStats = PruneStats(
    blocksDeleted: nat, hashIndexDeleted: nat, txIndexDeleted: nat, siblingsDeleted: nat,
    checkpointsDeleted: nat, checkpointsKept: nat)

  lemma {:induction false} MaxExists(s: set<nat>) returns (m: nat)
    requires s != {}
    ensures m in s && forall j :: j in s ==> j <= m
    decreases s
  {
    var x :| x in s;
    m := x;
    if s != {x} {
      var y := MaxExists(s - {x});
      assert forall j :: j in s ==> j == x || j in s - {x};
      m := if x <= y then y else x;
    }
  }

  /** Scans from the newest checkpoint down for the first of a positive height. */
  method FindLatestCheckpoint(checkpoints: map<nat, Checkpoint>) returns (r: Option<Base>)
    requires forall k :: k in checkpoints ==> checkpoints[k].height == k
    ensures r == None <==> forall k :: k in checkpoints ==> k == 0
    ensures r.Some? ==> IsLatest(checkpoints, r.value.height) && r.value.hash == checkpoints[r.value.height].tipHash
  {
    var rest := checkpoints.Keys;
    while rest != {}
      invariant rest <= checkpoints.Keys
      invariant forall k :: k in checkpoints && k !in rest ==> k == 0
      decreases rest
    {
      ghost var m := MaxExists(rest);
      var k: nat :| k in rest && forall j :: j in rest ==> j <= k;
      if checkpoints[k].height != 0 {
        return Some(Base(checkpoints[k].height, checkpoints[k].tipHash));
      }
      rest := rest - {k};
    }
    return None;
  }

  /** Deletes the entries of a column below a height; what is deleted and what is kept add up. */
  method DeleteBelow<K, V>(column: map<K, V>, heightOf: (K, V) -> nat, cutoff: nat) returns (kept: map<K, V>, deleted: nat)
    ensures forall k :: k in kept <==> k in column && heightOf(k, column[k]) >= cutoff
    ensures forall k :: k in kept ==> kept[k] == column[k]
    ensures deleted + |kept| == |column|
  {
    kept, deleted := column, 0;
    var rest := column.Keys;
    while rest != {}
      invariant rest <= column.Keys && kept.Keys <= column.Keys
      invariant forall k :: k in kept <==> k in column && (k in rest || heightOf(k, column[k]) >= cutoff)
      invariant forall k :: k in kept ==> kept[k] == column[k]
      invariant deleted + |kept| == |column|
      decreases rest
    {
      var k :| k in rest;
      if heightOf(k, column[k]) < cutoff {
        assert (kept - {k}).Keys == kept.Keys - {k};
        kept := kept - {k};
        deleted := deleted + 1;
      }
      rest := rest - {k};
    }
  }

  method PruneBlocks(blocks: map<nat, StoredBlock>, cutoff: nat) returns (kept: map<nat, StoredBlock>, deleted: nat)
    ensures kept == BlocksFrom(blocks, cutoff) && deleted + |kept| == |blocks|
  {
    kept, deleted := DeleteBelow(blocks, (h, _) => h, cutoff);
  }

  method PruneIndex<K(==)>(index: map<K, nat>, cutoff: nat) returns (kept: map<K, nat>, deleted: nat)
    ensures kept == IndexFrom(index, cutoff) && deleted + |kept| == |index|
  {
    kept, deleted := DeleteBelow(index, (_, h) => h, cutoff);
  }

  method PruneSiblings(siblings: map<(BlockHash, nat), StoredBlock>, cutoff: nat)
    returns (kept: map<(BlockHash, nat), StoredBlock>, deleted: nat)
    ensures kept == SiblingsFrom(siblings, cutoff) && deleted + |kept| == |siblings|
  {
    kept, deleted := DeleteBelow(siblings, (p: (BlockHash, nat), _) => p.1, cutoff);
  }

  /** Keeps only the newest checkpoint. */
  method PruneCheckpoints(checkpoints: map<nat, Checkpoint>) returns (kept: map<nat, Checkpoint>, deleted: nat)
    ensures kept == Newest(checkpoints)
    ensures deleted + |kept| == |checkpoints|
    ensures checkpoints != map[] ==> |kept| == 1
  {
    if checkpoints == map[] {
      return checkpoints, 0;
    }
    ghost var m := MaxExists(checkpoints.Keys);
    var latest: nat :| latest in checkpoints.Keys && forall j :: j in checkpoints.Keys ==> j <= latest;
    NewestIs(checkpoints, latest);
    kept, deleted := map[latest := checkpoints[latest]], |checkpoints.Keys - {latest}|;
  }

  /** The batch of a prune and its statistics. */
  method PruneColumns(db: Db, cutoff: nat) returns (d: Db, st: PruneStats)
    requires db.checkpoints != map[]
    ensures d == Pruned(db, cutoff)
    ensures st.blocksDeleted == |db.blocks| - |d.blocks| && st.hashIndexDeleted == |db.hashIndex| - |d.hashIndex|
    ensures st.txIndexDeleted == |db.txIndex| - |d.txIndex| && st.siblingsDeleted == |db.siblings| - |d.siblings|
    ensures st.checkpointsDeleted == |db.checkpoints| - 1 && st.checkpointsKept == |d.checkpoints| == 1
  {
    var blocks, b := PruneBlocks(db.blocks, cutoff);
    var hashIndex, h := PruneIndex(db.hashIndex, cutoff);
    var txIndex, t := PruneIndex(db.txIndex, cutoff);
    var siblings, s := PruneSiblings(db.siblings, cutoff);
    var checkpoints, c := PruneCheckpoints(db.checkpoints);
    d := db.(blocks := blocks, hashIndex := hashIndex, txIndex := txIndex, siblings := siblings, checkpoints := checkpoints);
    st := PruneStats(b, h, t, s, c, 1);
  }

  /** Writes one index entry per transaction. */
  method IndexAll(index: map<TxHash, nat>, txs: seq<TxHash>, height: nat) returns (r: map<TxHash, nat>)
    ensures r == IndexTxs(index, txs, height)
  {
    r := index;
    for i := 0 to |txs|
      invariant r == IndexTxs(index, txs[..i], height)
    {
      assert txs[..i + 1][..i] == txs[..i];
      r := r[txs[i] := height];
    }
    assert txs[..|txs|] == txs;
  }

  /** The first reason why loading blocks up to the tip fails. */
  ghost function LoadError(db: Db, w: Window, top: nat): Option<StorageError>
    decreases top - w.Height()
  {
    if w.Height() == top then None
    else if w.Height() > top then Some(TipHeightMismatch(top, w.Height()))
    else
      var h := w.Height() + 1;
      if h !in db.blocks then Some(MissingBlockFile(h))
      else
        var e := WindowError(w, db.blocks[h]);
        if e.Some? then Some(BadBlock(e.value)) else LoadError(db, Append(w, db.blocks[h]), top)
  }

  /** There is none exactly if the blocks load up to the tip. */
  lemma {:induction false} LoadErrorIff(db: Db, w: Window, top: nat)
    requires w.Valid()
    ensures LoadError(db, w, top) == None <==> Loaded(db, w, top).Some? && Loaded(db, w, top).value.Height() == top
    decreases top - w.Height()
  {
    var h := w.Height() + 1;
    if w.Height() < top && h in db.blocks {
      WindowErrorIff(w, db.blocks[h]);
      if Extends(w, db.blocks[h]) {
        AppendKeepsValid(w, db.blocks[h]);
        LoadErrorIff(db, Append(w, db.blocks[h]), top);
      }
    }
  }

  /** Loading one more block does not change what is loaded in the end. */
  lemma LoadsOne(db: Db, w: Window, top: nat)
    requires w.Valid() && w.Height() < top && w.Height() + 1 in db.blocks
    ensures var b := db.blocks[w.Height() + 1];
            if Extends(w, b) then
              LoadError(db, w, top) == LoadError(db, Append(w, b), top) && Loaded(db, w, top) == Loaded(db, Append(w, b), top)
            else
              WindowError(w, b).Some? && LoadError(db, w, top) == Some(BadBlock(WindowError(w, b).value))
  {
    WindowErrorIff(w, db.blocks[w.Height() + 1]);
  }

  class RocksDbChainStore {
    var db: Db
    var chain: ChainStore

    ghost predicate Valid()
      reads this, chain
    {
      chain.Valid()
    }

    ghost function View(): Store
      requires Valid()
      reads this, chain
    {
      Store(db, chain.View())
    }

    constructor (d: Db, c: ChainStore)
      requires c.Valid()
      ensures db == d && chain == c
    {
      db := d;
      chain := c;
    }

    /**
     * Opens the database from its starting point. It succeeds exactly if
     * `Opened` yields a window, and that window is then the one in memory.
     */
    static method Open(d: Db) returns (r: Result<RocksDbChainStore, StorageError>, ghost start: Base)
      requires forall k :: k in d.checkpoints ==> d.checkpoints[k].height == k
      ensures IsStart(d, start)
      ensures r.Ok? <==> Opened(d, start).Some?
      ensures r.Ok? ==> fresh(r.value) && fresh(r.value.chain) && r.value.Valid()
                        && r.value.View() == Store(d, Opened(d, start).value)
      ensures r.Err? ==> Some(r.error) == LoadError(d, Window(start.hash, start.height, []), TipHeight(d))
    {
      var floor, tip := Floor(d), TipHeight(d);
      var found := FindLatestCheckpoint(d.checkpoints);
      var b := if found.Some? then found.value else floor;
      start := b;
      if tip == 0 {
        var empty := new ChainStore.WithBase(floor.hash, floor.height);
        var s := new RocksDbChainStore(d, empty);
        return Ok(s), start;
      }
      var c := new ChainStore.WithBase(b.hash, b.height);
      LoadErrorIff(d, c.View(), tip);
      var e := LoadTail(d, c, tip);
      if e.Some? {
        return Err(e.value), start;
      }
      var s := new RocksDbChainStore(d, c);
      return Ok(s), start;
    }

    /** Appends the stored blocks above the window up to the tip, and reports the first failure. */
    static method LoadTail(d: Db, c: ChainStore, tip: nat) returns (e: Option<StorageError>)
      requires c.Valid()
      modifies c
      ensures c.Valid() && e == LoadError(d, old(c.View()), tip)
      ensures e.None? ==> Loaded(d, old(c.View()), tip) == Some(c.View())
    {
      var height := c.Height() + 1;
      while height <= tip
        invariant c.Valid() && c.View().Height() + 1 == height
        invariant LoadError(d, c.View(), tip) == LoadError(d, old(c.View()), tip)
        invariant Loaded(d, c.View(), tip) == Loaded(d, old(c.View()), tip)
        decreases tip + 1 - height
      {
        if height !in d.blocks {
          return Some(MissingBlockFile(height));
        }
        LoadsOne(d, c.View(), tip);
        var appended := c.AppendStoredBlock(d.blocks[height]);
        if appended.Err? {
          return Some(BadBlock(appended.error));
        }
        height := height + 1;
      }
      if c.Height() != tip {
        return Some(TipHeightMismatch(tip, c.Height()));
      }
      return None;
    }

    /** Tries the append on a copy, persists the batch, then adopts the copy. */
    method AppendStoredBlock(b: StoredBlock) returns (r: Result<Metadata, StorageError>)
      requires Valid()
      modifies this
      ensures Valid()
      ensures r.Ok? <==> Extends(old(View()).chain, b)
      ensures View() == if r.Ok? then Appended(old(View()), b) else old(View())
      ensures r.Err? ==> WindowError(old(View()).chain, b).Some? && r.error == BadBlock(WindowError(old(View()).chain, b).value)
    {
      var trial := chain.Clone();
      var e := trial.AppendStoredBlock(b);
      if e.Err? {
        return Err(BadBlock(e.error));
      }
      PersistToDb(b);
      chain := trial;
      return Ok(e.value);
    }

    method PersistToDb(b: StoredBlock)
      modifies this`db
      ensures db == Persisted(old(db), b)
    {
      var h := b.metadata.height;
      var index := IndexAll(db.txIndex, b.block.txHashes, h);
      db := db.(blocks := db.blocks[h := b], hashIndex := db.hashIndex[b.metadata.blockHash := h],
                txIndex := index, tipHeight := Some(h));
    }

    method ReplaceCanonicalAtHeight(c: StoredBlock) returns (r: Result<StoredBlock, StorageError>)
      requires Valid() && (chain.tipHash.Some? ==> chain.tipHash.value in chain.byHash)
      modifies this
      ensures Valid()
      ensures r.Ok? <==> Sibling(old(View()).chain, c)
      ensures View() == if r.Ok? then Swapped(old(View()), c) else old(View())
      ensures r.Ok? ==> var w := old(View()).chain; r.value == w.blocks[|w.blocks| - 1]
      ensures r.Err? ==> SwapError(old(View()).chain, c).Some? && r.error == BadBlock(SwapError(old(View()).chain, c).value)
    {
      var trial := chain.Clone();
      var e := trial.ReplaceTipBlock(c);
      if e.Err? {
        return Err(BadBlock(e.error));
      }
      db := Replaced(db, e.value, c);
      chain := trial;
      return Ok(e.value);
    }

    /**
     * Records the state at the tip. Accepted exactly if the state is at the tip
     * height and, while the tip block is in memory, has the root it announced.
     */
    method WriteTrustedCheckpoint(height: nat, root: Root) returns (r: Result<Checkpoint, StorageError>)
      requires Valid()
      modifies this
      ensures Valid()
      ensures var w := old(View()).chain;
              r.Ok? <==> height == w.Height() && (height > 0 && w.blocks != [] ==> root == w.blocks[|w.blocks| - 1].metadata.stateRoot)
      ensures View() == if r.Ok? then Checkpointed(old(View()), root) else old(View())
      ensures r.Ok? ==> r.value == View().db.checkpoints[height] == Checkpoint(height, old(View()).chain.TipHash(), root)
      ensures r.Err? ==> var w := old(View()).chain;
                         r.error == if height != w.Height() then CheckpointHeightMismatch(w.Height(), height)
                                    else CheckpointStateRootMismatch(w.blocks[|w.blocks| - 1].metadata.stateRoot, root)
    {
      if height != chain.Height() {
        return Err(CheckpointHeightMismatch(chain.Height(), height));
      }
      var tip := chain.GetStoredBlockByHeight(height);
      if height > 0 && tip.Some? && tip.value.metadata.stateRoot != root {
        return Err(CheckpointStateRootMismatch(tip.value.metadata.stateRoot, root));
      }
      var cp := Checkpoint(height, chain.TipOrAnchor(), root);
      db := db.(checkpoints := db.checkpoints[height := cp]);
      return Ok(cp);
    }

    method CompactChainToCheckpoint(height: nat, hash: BlockHash)
      requires Valid()
      modifies chain
      ensures db == old(db) && chain.baseHeight == height && chain.anchorPrevHash == hash
      ensures var w := old(View()).chain; w.base <= height <= w.Height() && hash == w.HashAt(height) ==>
                Valid() && View() == Compacted(old(View()), height)
    {
      chain.CompactToCheckpoint(height, hash);
    }

    /** Deletes below the cutoff in every column and all but the newest checkpoint, in one batch. */
    method PruneBlocksBelow(cutoff: nat) returns (r: Result<PruneStats, StorageError>)
      requires Valid()
      modifies this`db
      ensures Valid()
      ensures r.Ok? <==> Prunable(old(View()), cutoff)
      ensures View() == if r.Ok? then old(View()).(db := Pruned(old(db), cutoff)) else old(View())
      ensures r.Ok? ==> var st := r.value;
                        && st.blocksDeleted == |old(db).blocks| - |db.blocks|
                        && st.hashIndexDeleted == |old(db).hashIndex| - |db.hashIndex|
                        && st.txIndexDeleted == |old(db).txIndex| - |db.txIndex|
                        && st.siblingsDeleted == |old(db).siblings| - |db.siblings|
                        && st.checkpointsDeleted == |old(db).checkpoints| - 1
                        && st.checkpointsKept == |db.checkpoints| == 1
    {
      if cutoff == 0 || cutoff > chain.Height() || !exists k :: k in db.checkpoints && k >= cutoff {
        return Err(InvalidPruneCutoff);
      }
      var pruned, stats := PruneColumns(db, cutoff);
      db := pruned;
      return Ok(stats);
    }

    function ReadStoredBlockAtHeight(height: nat): (r: Option<StoredBlock>)
      requires Valid()
      reads this, chain
      ensures r == Read(View(), height)
    {
      var live := chain.GetStoredBlockByHeight(height);
      if live.Some? then live else if height in db.blocks then Some(db.blocks[height]) else None
    }
  }
}

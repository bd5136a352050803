/** Concrete stores on which the general conditions of `RocksOps` and `RocksRuns` fail. */
module RocksCases {
  import opened Prelude
  import opened Blocks
  import opened Chain
  import opened RocksStore
  import opened RocksOps
  import opened RocksRuns

  const GENESIS: BlockHash := Anchor(0)

  /** A block of a height and parent that differs from its siblings by timestamp, list and recorded count. */
  function Sample(height: nat, prev: BlockHash, timestamp: nat, txs: seq<TxHash>, count: nat): StoredBlock {
    var header := Header(1, height, prev, 0, 0, timestamp, [], 0);
    StoredBlock(Block(header, txs, []), Metadata(Digest(header, txs), height, prev, 0, 0, timestamp, 0, count, 0, 0, 0),
                seq(|txs|, _ => Transaction(0, 0, 0, 0, 0, 0, 0)))
  }

  function First(): StoredBlock {
    Sample(1, GENESIS, 0, [], 0)
  }

  function Fresh(): Store {
    Store(EmptyDb(GENESIS), Window(GENESIS, 0, []))
  }

  /** A store with one block. */
  function OneBlock(): Store {
    Appended(Fresh(), First())
  }

  lemma OneBlockOk()
    ensures StoreOk(OneBlock(), 0) && Reopenable(OneBlock()) && TxIndexOk(OneBlock().db)
    ensures OneBlock().chain == Window(GENESIS, 0, [First()]) && OneBlock().db.checkpoints == map[]
    ensures Floor(OneBlock().db) == Base(0, GENESIS)
  {
    FreshStoreOk(GENESIS);
    AppendKeepsOk(Fresh(), 0, First());
    AppendKeepsSound(Fresh(), 0, First());
    AppendKeepsTxIndex(Fresh().db, First());
  }

  /** Any sample at height one with another timestamp or list is a sibling of the first block. */
  lemma SampleIsSibling(timestamp: nat, txs: seq<TxHash>, count: nat)
    requires timestamp != 0 || txs != []
    ensures Sibling(Window(GENESIS, 0, [First()]), Sample(1, GENESIS, timestamp, txs, count))
  {
  }

  /** Checkpoint the tip, then swap it: the store opens onto the displaced block. */
  lemma SwapAtCheckpointDiverges() returns (s: Store, c: StoredBlock, start: Base)
    ensures StoreOk(s, 0) && Reopenable(s) && Sibling(s.chain, c) && Counted(c)
    ensures IsStart(Swapped(s, c).db, start) && Opened(Swapped(s, c).db, start).Some?
    ensures Opened(Swapped(s, c).db, start).value.TipHash() == s.chain.TipHash() != Swapped(s, c).chain.TipHash()
  {
    OneBlockOk();
    s := Checkpointed(OneBlock(), 0);
    CheckpointKeepsOk(OneBlock(), 0, 0);
    CheckpointRestoresSound(OneBlock(), 0, 0);
    c := Sample(1, GENESIS, 1, [], 0);
    SampleIsSibling(1, [], 0);
    start := Base(1, First().metadata.blockHash);
    CheckpointIsStart(s);
    CheckpointedSwapDiverges(s, 0, c, start);
  }

  lemma CheckpointIsStart(s: Store)
    requires s.chain == Window(GENESIS, 0, [First()]) && s.db.checkpoints == map[1 := Checkpoint(1, s.chain.TipHash(), 0)]
    ensures IsStart(s.db, Base(1, First().metadata.blockHash))
  {
    assert IsLatest(s.db.checkpoints, 1);
  }

  /** Swap in a sibling with a wrong count: the store does not open. */
  lemma SwapMiscountedFails() returns (s: Store, c: StoredBlock, start: Base)
    ensures StoreOk(s, 0) && Reopenable(s) && Sibling(s.chain, c)
    ensures IsStart(Swapped(s, c).db, start) && Opened(Swapped(s, c).db, start) == None
  {
    OneBlockOk();
    s := OneBlock();
    c := Sample(1, GENESIS, 1, [], 5);
    SampleIsSibling(1, [], 5);
    start := Base(0, GENESIS);
    MiscountedSwapFails(s, 0, c, start);
  }

  /** Swap in a sibling with the same transaction root and another list: its transaction is not found. */
  lemma SwapMisindexes() returns (s: Store, c: StoredBlock)
    ensures StoreOk(s, 0) && TxIndexOk(s.db) && Sibling(s.chain, c) && Counted(c)
    ensures c.block.txHashes == [7] && !TxIndexOk(Swapped(s, c).db)
  {
    OneBlockOk();
    s := OneBlock();
    c := Sample(1, GENESIS, 0, [7], 1);
    SampleIsSibling(0, [7], 1);
    SwapTxIndexIff(s, 0, c);
    assert 7 in ToSet(c.block.txHashes) && 7 !in ToSet(First().block.txHashes);
  }

  function Second(): StoredBlock {
    Sample(2, First().metadata.blockHash, 0, [], 0)
  }

  /** Two blocks and a checkpoint at the tip. */
  function TwoBlocks(): Store {
    Checkpointed(Appended(OneBlock(), Second()), 0)
  }

  lemma TwoBlocksOk()
    ensures StoreOk(TwoBlocks(), 0)
  {
    OneBlockOk();
    SecondExtends();
    AppendKeepsOk(OneBlock(), 0, Second());
    CheckpointKeepsOk(Appended(OneBlock(), Second()), 0, 0);
  }

  lemma SecondExtends()
    ensures Extends(Window(GENESIS, 0, [First()]), Second())
    ensures Append(Window(GENESIS, 0, [First()]), Second()) == Window(GENESIS, 0, [First(), Second()])
  {
  }

  lemma TwoBlocksPrunable(s: Store)
    requires s.chain == Window(GENESIS, 0, [First(), Second()]) && 2 in s.db.checkpoints
    ensures Prunable(s, 2) && s.chain.Lookup(1) == Some(First())
  {
  }

  /** Prune below height two without compacting: memory still answers for height one. */
  lemma PrunedReadSurvives() returns (s: Store)
    ensures StoreOk(s, 0) && Prunable(s, 2) && Read(s.(db := Pruned(s.db, 2)), 1) == Some(First())
  {
    TwoBlocksOk();
    OneBlockOk();
    SecondExtends();
    s := TwoBlocks();
    TwoBlocksPrunable(s);
  }
}

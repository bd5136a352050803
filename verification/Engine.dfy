/** The methods that assemble and replay blocks over the mutable state store and pool. */
module Engine {
  import opened Prelude
  import opened Blocks
  import opened Chain
  import opened Ledger
  import opened Execution
  import opened Mempool
  import opened Assembly
  import opened Replay

  // ----- Ordering -----

  method InsertOrdered(es: seq<PendingEntry>, e: PendingEntry) returns (r: seq<PendingEntry>)
    requires Ordered(es) && forall i :: 0 <= i < |es| ==> es[i].txHash != e.txHash
    ensures Ordered(r) && forall x :: x in r <==> x in es || x == e
  {
    var k := 0;
    while k < |es| && Precedes(es[k], e)
      invariant k <= |es|
      invariant forall i :: 0 <= i < k ==> Precedes(es[i], e)
    {
      k := k + 1;
    }
    InsertKeepsOrder(es, e, k);
    r := es[..k] + [e] + es[k..];
    assert r[k] == e;
    assert forall x :: x in es ==> x in es[..k] || x in es[k..];
  }

  lemma InsertKeepsOrder(es: seq<PendingEntry>, e: PendingEntry, k: nat)
    requires Ordered(es) && k <= |es| && forall i :: 0 <= i < |es| ==> es[i].txHash != e.txHash
    requires forall i :: 0 <= i < k ==> Precedes(es[i], e)
    requires k < |es| ==> !Precedes(es[k], e)
    ensures Ordered(es[..k] + [e] + es[k..])
  {
    forall j | k <= j < |es| ensures Precedes(e, es[j]) {
      OrderLaws(es[k], e, e);
      OrderLaws(e, es[k], es[j]);
    }
  }

  /** The pending entries in assembly order; their order of iteration is arbitrary. */
  method OrderedPending(byHash: Contents) returns (es: seq<PendingEntry>)
    requires forall h :: h in byHash ==> byHash[h].txHash == h
    ensures Ordered(es) && Lists(es, byHash)
  {
    es := [];
    var rest := byHash.Keys;
    while rest != {}
      invariant rest <= byHash.Keys && Ordered(es)
      invariant forall e :: e in es <==> e.txHash in byHash && e.txHash !in rest && byHash[e.txHash] == e
      decreases rest
    {
      var h :| h in rest;
      es := InsertOrdered(es, byHash[h]);
      rest := rest - {h};
    }
  }

  // ----- Assembly -----

  datatype AssembleError = InvalidHeight(expected: nat, got: nat) | InvalidProposer(length: nat)

  datatype BlockExecution = BlockExecution(
    block: Block, transactions: seq<Transaction>, deferred: seq<TxHash>, skipped: seq<TxHash>, reasons: seq<ApplyError>,
    newHeight: nat, bytesUsed: nat, vcBudgetConsumed: nat)

  /** Takes every pending entry in order, changing state and pool as it goes. */
  method TakePending(store: StateStore, pool: Pool, r: Rules, max: nat, es: seq<PendingEntry>) returns (w: Work)
    requires pool.Valid()
    modifies store, pool`byHash, pool`bySlot
    ensures pool.Valid()
    ensures w == TakeAll(r, max, old(store.Value()), es) && store.Value() == w.acc.state
    ensures pool.byHash == PoolAfter(r, max, old(store.Value()), es, old(pool.byHash))
  {
    w := Work(Acc(store.Value(), 0, 0), 0, [], [], [], []);
    for i := 0 to |es|
      invariant pool.Valid()
      invariant w == TakeAll(r, max, old(store.Value()), es[..i]) && store.Value() == w.acc.state
      invariant pool.byHash == PoolAfter(r, max, old(store.Value()), es[..i], old(pool.byHash))
    {
      var e := es[i];
      assert es[..i + 1][..i] == es[..i];
      var size := SatAdd(w.bytes, e.length, U64_MAX);
      if size > max {
        w := w.(deferred := w.deferred + [e]);
        continue;
      }
      var a := store.ApplyTx(r, e.tx, e.length, store.baseFeeDynamic);
      var _ := pool.Evict(e.txHash);
      if a.Err? {
        w := w.(skipped := w.skipped + [e], reasons := w.reasons + [a.error]);
      } else {
        w := w.(acc := Absorb(w.acc, Applied(store.Value(), a.value), e.tx.feeTip), bytes := size, included := w.included + [e]);
        pool.EvictStale(e.tx.sender, SatAdd(e.tx.nonce, 1, U64_MAX));
      }
    }
    assert es[..|es|] == es;
  }

  method ReturnBonds(store: StateStore, exited: seq<(Address, nat)>)
    modifies store
    ensures store.Value() == CreditBonds(old(store.Value()), exited)
  {
    for i := 0 to |exited|
      invariant store.Value() == CreditBonds(old(store.Value()), exited[..i])
    {
      assert exited[..i + 1][..i] == exited[..i];
      var (a, bond) := exited[i];
      if a in store.accounts {
        var acc := store.accounts[a];
        store.accounts := store.accounts[a := acc.(balance := SatAdd(acc.balance, bond, U128_MAX))];
      }
    }
    assert exited[..|exited|] == exited;
  }

  /** The end of an assembled block, before any epoch transitions. */
  method SealBlock(store: StateStore, r: Rules, config: Config, acc: Acc, ctx: Context)
    requires store.Value() == acc.state
    modifies store
    ensures store.Value() == Seal(r, config, acc, ctx.proposer, ctx.height)
  {
    var validators := r.activeValidators(store.Value());
    store.DistributeBlockFees(BeValue(ctx.proposer), acc.fees,
                              if validators == [] then config.validatorPool else validators, config.shareBps);
    store.Assign(r.aimd(store.Value(), acc.gas));
    store.Assign(r.tallies(store.Value(), ctx.height));
    var (unbonded, exited) := r.unbond(store.Value(), ctx.height);
    store.Assign(unbonded);
    ReturnBonds(store, exited);
    store.Assign(r.rotateKeys(store.Value(), ctx.height));
    store.height := store.height + 1;
    store.Assign(r.activateKeys(store.Value()));
  }

  /** The result depends only on the state, the pool's contents and the context. */
  method AssembleBlock(store: StateStore, pool: Pool, r: Rules, ctx: Context, config: Config)
    returns (res: Result<BlockExecution, AssembleError>, ghost es: seq<PendingEntry>)
    requires pool.Valid()
    modifies store, pool
    ensures pool.Valid()
    ensures Ordered(es) && Lists(es, old(pool.byHash))
    ensures res.Ok? <==> ctx.height == SatAdd(old(store.height), 1, U64_MAX) && |ctx.proposer| == 32
    ensures res.Err? ==> unchanged(store) && unchanged(pool)
    ensures res.Err? ==>
              var next := SatAdd(old(store.height), 1, U64_MAX);
              res.error == if ctx.height != next then InvalidHeight(next, ctx.height) else InvalidProposer(|ctx.proposer|)
    ensures res.Ok? ==>
              && store.Value() == FinalState(r, config, old(store.Value()), es, ctx)
              && pool.byHash == PoolAfter(r, config.maxBlockBytes, old(store.Value()), es, old(pool.byHash))
              && pool.vcCount == 0
              && res.value.block == BlockOf(r, config, old(store.Value()), es, ctx)
              && res.value.newHeight == store.height
              && var w := TakeAll(r, config.maxBlockBytes, old(store.Value()), es);
              && res.value.transactions == Txs(w.included) && res.value.bytesUsed == w.bytes
              && res.value.deferred == Hashes(w.deferred) && res.value.skipped == Hashes(w.skipped)
              && res.value.reasons == w.reasons
              && res.value.vcBudgetConsumed == old(pool.vcCount)
  {
    var pending := OrderedPending(pool.byHash);
    es := pending;
    var expected := SatAdd(store.height, 1, U64_MAX);
    if ctx.height != expected {
      return Err(InvalidHeight(expected, ctx.height)), es;
    }
    if |ctx.proposer| != 32 {
      return Err(InvalidProposer(|ctx.proposer|)), es;
    }
    var vcBudget := pool.vcCount;
    var w := TakePending(store, pool, r, config.maxBlockBytes, pending);

    SealBlock(store, r, config, w.acc, ctx);
    pool.ResetVcCount();
    if IsEpochBoundary(ctx.height, config.epochDuration) {
      store.Assign(r.epochTransitions(store.Value(), ctx.height));
    }

    var hashes := Hashes(w.included);
    var header := Header(HEADER_VERSION_V1, ctx.height, ctx.prevHash, r.stateRoot(store.Value()), r.txRoot(hashes),
                         ctx.timestamp, ctx.proposer, EMPTY_EXTENSION_ROOT);
    return Ok(BlockExecution(Block(header, hashes, []), Txs(w.included), Hashes(w.deferred), Hashes(w.skipped), w.reasons,
                             store.height, w.bytes, vcBudget)), es;
  }

  // ----- Replay -----

  method ReplayTransactions(store: StateStore, r: Rules, b: StoredBlock) returns (res: Result<Acc, ReplayError>)
    modifies store
    ensures res == ReplayTxs(r, old(store.Value()), b, Pairs(b))
    ensures res.Ok? ==> store.Value() == res.value.state
  {
    ghost var start := store.Value();
    var height, baseFee := b.metadata.height, store.baseFeeDynamic;
    var acc := Acc(store.Value(), 0, 0);
    for i := 0 to Pairs(b)
      invariant store.Value() == acc.state
      invariant ReplayTxs(r, start, b, i) == Ok(acc)
    {
      var tx := b.transactions[i];
      var raw := r.encode(tx);
      var failed: Option<ReplayError> := None;
      if raw.None? {
        failed := Some(TxEncodingFailed(height, i));
      } else if raw.value.hash != b.block.txHashes[i] {
        failed := Some(TxHashMismatch(height, i));
      } else {
        var a := store.ApplyTx(r, tx, raw.value.length, baseFee);
        if a.Err? {
          failed := Some(ApplyFailed(height, i, a.error));
        } else {
          acc := Absorb(acc, Applied(store.Value(), a.value), tx.feeTip);
        }
      }
      if failed.Some? {
        FirstErrorStays(r, start, b, i + 1, Pairs(b));
        return Err(failed.value);
      }
    }
    return Ok(acc);
  }

  /** The end of a replayed block, written out a second time in the source. */
  method SealReplayed(store: StateStore, r: Rules, config: Config, acc: Acc, header: Header)
    requires store.Value() == acc.state
    modifies store
    ensures store.Value() == ReplaySeal(r, config, acc, header.proposer, header.height)
  {
    if |header.proposer| == 32 {
      var validators := r.activeValidators(store.Value());
      store.DistributeBlockFees(BeValue(header.proposer), acc.fees,
                                if validators == [] then config.validatorPool else validators, config.shareBps);
    }
    store.Assign(r.aimd(store.Value(), acc.gas));
    store.Assign(r.tallies(store.Value(), header.height));
    var (unbonded, exited) := r.unbond(store.Value(), header.height);
    store.Assign(unbonded);
    ReturnBonds(store, exited);
    store.Assign(r.rotateKeys(store.Value(), header.height));
    store.height := store.height + 1;
    store.Assign(r.activateKeys(store.Value()));
  }

  /** One block of replay: the transactions, the end of the block without epoch transitions, then the three checks. */
  method ReplayStored(store: StateStore, r: Rules, config: Config, b: StoredBlock, ghost step: BlockStep)
    returns (e: Option<ReplayError>)
    requires Agrees(step, r, config, store.Value(), b)
    modifies store
    ensures step(old(store.Value()), b) == if e.Some? then Err(e.value) else Ok(store.Value())
  {
    var header, height := b.block.header, b.metadata.height;
    var done := ReplayTransactions(store, r, b);
    if done.Err? {
      return Some(done.error);
    }
    SealReplayed(store, r, config, done.value, header);
    if r.txRoot(b.block.txHashes) != header.txRoot {
      return Some(TxRootMismatch(height));
    }
    if r.stateRoot(store.Value()) != header.stateRoot {
      return Some(StateRootMismatch(height, header.stateRoot, r.stateRoot(store.Value())));
    }
    if ComputeBlockHash(b.block) != b.metadata.blockHash {
      return Some(BlockHashMismatch(height));
    }
    return None;
  }

  datatype ReplayResult = ReplayResult(state: State, tipHash: BlockHash, stateRoot: Root)

  /** Executes the blocks one by one until one fails. */
  method ReplayInOrder(r: Rules, config: Config, base: State, blocks: seq<StoredBlock>, ghost step: BlockStep)
    returns (res: Result<State, ReplayError>)
    requires forall s, b {:trigger Agrees(step, r, config, s, b)} :: Agrees(step, r, config, s, b)
    ensures res == Fold(step, base, blocks, |blocks|)
  {
    var store := new StateStore(base);
    var i := 0;
    res := Ok(base);
    while i < |blocks| && res.Ok?
      invariant fresh(store) && i <= |blocks|
      invariant res == Fold(step, base, blocks, i) && (res.Ok? ==> store.Value() == res.value)
      decreases |blocks| - i
    {
      var failed := ReplayStored(store, r, config, blocks[i], step);
      res := if failed.Some? then Err(failed.value) else Ok(store.Value());
      i := i + 1;
    }
    if res.Err? {
      FirstBadBlockStays(step, base, blocks, i, |blocks|);
    }
  }

  /** Structure first, then every block; it succeeds exactly if the blocks are a linked window that replays. */
  method ReplayBlocksFromState(r: Rules, config: Config, base: State, anchor: BlockHash, blocks: seq<StoredBlock>)
    returns (res: Result<ReplayResult, ReplayError>)
    ensures res.Ok? <==> Replayable(r, config, base, anchor, blocks)
    ensures res.Err? ==> res.error == ReplayFailure(r, config, base, anchor, blocks)
    ensures res.Ok? ==>
              && ReplayAll(r, config, base, blocks) == Ok(res.value.state)
              && res.value.tipHash == Window(anchor, base.height, blocks).TipHash()
              && res.value.stateRoot == r.stateRoot(res.value.state)
  {
    var e := VerifyStructure(base.height + 1, anchor, blocks);
    if e.Some? {
      StructureIff(base.height, anchor, blocks);
      return Err(e.value);
    }
    var done := ReplayInOrder(r, config, base, blocks, Replayer(r, config));
    var tipHash := if blocks == [] then anchor else blocks[|blocks| - 1].metadata.blockHash;
    StructureIff(base.height, anchor, blocks);
    return if done.Err? then Err(done.error) else Ok(ReplayResult(done.value, tipHash, r.stateRoot(done.value)));
  }
}

/** The class that opens and writes the directories of `DiskStore`, one file-system step at a time. */
module DiskDb {
  import opened Prelude
  import opened Blocks
  import opened Chain
  import opened RocksStore
  import opened DiskStore

  datatype DiskError =
    | IncompleteWriteDetected
    | TipMissingWithExistingData
    | MissingBlockFile(height: nat)
    | MissingHashIndex(hash: BlockHash)
    | HashIndexMismatch(hash: BlockHash)
    | BadBlock(chain: ChainError)
    | UnexpectedBlockFile
    | UnexpectedHashIndex
    | TipHeightMismatch(expected: nat, got: nat)
    | TipHashMismatch
    | CheckpointHeightMismatch(expected: nat, got: nat)
    | CheckpointStateRootMismatch
    | Crashed

  /** Performs steps of a plan until it is done or the crash point is reached. */
  method Perform(fs: Fs, plan: seq<Step>, crash: nat) returns (r: Fs, done: bool)
    ensures done <==> crash >= |plan|
    ensures r == After(fs, plan, if done then |plan| else crash)
  {
    r := fs;
    for i := 0 to |plan|
      invariant i <= crash && r == After(fs, plan, i)
    {
      if i == crash {
        return r, false;
      }
      r := Do(r, plan[i]);
    }
    done := true;
  }

  /** The hash-index files of a run of heights. */
  ghost function HashesOf(blocks: map<nat, StoredBlock>, from: nat, to: nat): set<BlockHash>
    requires forall h :: from < h <= to ==> h in blocks
  {
    set h | from < h <= to :: blocks[h].metadata.blockHash
  }

  ghost predicate Checked(fs: Fs, from: nat, to: nat) {
    forall h :: from < h <= to ==>
      h in fs.blocks && fs.blocks[h].metadata.blockHash in fs.hashes && fs.hashes[fs.blocks[h].metadata.blockHash] == h
  }

  lemma HashesExtend(blocks: map<nat, StoredBlock>, from: nat, to: nat)
    requires from < to && forall h :: from < h <= to ==> h in blocks
    ensures HashesOf(blocks, from, to) == HashesOf(blocks, from, to - 1) + {blocks[to].metadata.blockHash}
  {
    assert forall x :: x in HashesOf(blocks, from, to) ==>
      x in HashesOf(blocks, from, to - 1) || x == blocks[to].metadata.blockHash;
  }

  function FileError(fs: Fs, height: nat): Option<DiskError> {
    if height !in fs.blocks then Some(MissingBlockFile(height))
    else
      var hash := fs.blocks[height].metadata.blockHash;
      if hash !in fs.hashes then Some(MissingHashIndex(hash))
      else if fs.hashes[hash] != height then Some(HashIndexMismatch(hash))
      else None
  }

  /** The pass over the heights: every file is checked, and blocks above the base of the window are appended. */
  ghost function Scan(fs: Fs, w: Window, height: nat, top: nat): Result<Window, DiskError>
    decreases top + 1 - height
  {
    if height > top then Ok(w)
    else if FileError(fs, height).Some? then Err(FileError(fs, height).value)
    else if height <= w.base then Scan(fs, w, height + 1, top)
    else if WindowError(w, fs.blocks[height]).Some? then Err(BadBlock(WindowError(w, fs.blocks[height]).value))
    else Scan(fs, Append(w, fs.blocks[height]), height + 1, top)
  }

  /** What an opening returns: the window, or the first error in the order of the checks. */
  ghost function OpenResult(fs: Fs, genesis: BlockHash): Result<Window, DiskError> {
    var start, base := StartOf(fs, genesis), MemoryBase(fs, genesis);
    var empty := Window(base.hash, base.height, []);
    if fs.staging != map[] then Err(IncompleteWriteDetected)
    else if fs.tip.None? then
      if fs.blocks == map[] && fs.hashes == map[] then Ok(empty) else Err(TipMissingWithExistingData)
    else TailResult(fs, empty, start.height, fs.tip.value)
  }

  /** The same for a store with a tip file: the pass over the heights, then the checks that end it. */
  ghost function TailResult(fs: Fs, empty: Window, start: nat, tip: Base): Result<Window, DiskError> {
    var w := Scan(fs, empty, start + 1, tip.height);
    if w.Ok? && TailError(fs, w.value, start, tip).Some? then Err(TailError(fs, w.value, start, tip).value) else w
  }

  /** The inventories, then height and hash of the tip. */
  ghost function TailError(fs: Fs, w: Window, start: nat, tip: Base): Option<DiskError> {
    if InventoryError(fs, start, tip.height).Some? then InventoryError(fs, start, tip.height)
    else if w.Height() != tip.height then Some(TipHeightMismatch(tip.height, w.Height()))
    else if w.TipHash() != tip.hash then Some(TipHashMismatch)
    else None
  }

  ghost function InventoryError(fs: Fs, start: nat, top: nat): Option<DiskError> {
    if !(forall h :: h in fs.blocks <==> start < h <= top) then Some(UnexpectedBlockFile)
    else if !InventoryExact(fs, start, top) then Some(UnexpectedHashIndex)
    else None
  }

  /** Where a pass stands: nothing is loaded up to the base, and everything from there. */
  ghost predicate InStep(w: Window, height: nat) {
    w.Valid() && if height <= w.base then w.blocks == [] else w.Height() + 1 == height
  }

  /** The pass succeeds exactly if all files are right and the blocks load, and then with the loaded window. */
  lemma {:induction false} ScanIff(fs: Fs, w: Window, height: nat, top: nat)
    requires InStep(w, height) && height > 0
    ensures Scan(fs, w, height, top).Ok? <==> Checked(fs, height - 1, top) && Loaded(AsDb(fs), w, top).Some?
    ensures Scan(fs, w, height, top).Ok? ==> Loaded(AsDb(fs), w, top) == Some(Scan(fs, w, height, top).value)
    decreases top + 1 - height
  {
    if height <= top {
      CheckedFrom(fs, height, top);
      if FileError(fs, height) == None {
        if height <= w.base {
          ScanIff(fs, w, height + 1, top);
        } else {
          var b := fs.blocks[height];
          WindowErrorIff(w, b);
          if Extends(w, b) {
            AppendKeepsValid(w, b);
            ScanIff(fs, Append(w, b), height + 1, top);
          }
        }
      }
    }
  }

  lemma CheckedFrom(fs: Fs, height: nat, top: nat)
    requires 0 < height <= top
    ensures Checked(fs, height - 1, top) <==> FileError(fs, height) == None && Checked(fs, height, top)
  {
  }

  /** Opening succeeds exactly for the directories for which `OpenedDisk` gives a window, with that window. */
  lemma OpenResultIff(fs: Fs, genesis: BlockHash)
    ensures OpenResult(fs, genesis).Ok? <==> OpenedDisk(fs, genesis).Some?
    ensures OpenResult(fs, genesis).Ok? ==> OpenedDisk(fs, genesis) == Some(OpenResult(fs, genesis).value)
    ensures OpenResult(fs, genesis) == Err(IncompleteWriteDetected) <==> fs.staging != map[]
  {
    if fs.staging == map[] && fs.tip.Some? {
      var base := MemoryBase(fs, genesis);
      TailResultIff(fs, Window(base.hash, base.height, []), StartOf(fs, genesis).height, fs.tip.value);
    }
  }

  lemma TailResultIff(fs: Fs, empty: Window, start: nat, tip: Base)
    requires empty.blocks == [] && start <= empty.base
    ensures var r, w := TailResult(fs, empty, start, tip), Loaded(AsDb(fs), empty, tip.height);
            && (r.Ok? <==> InventoryExact(fs, start, tip.height) && w.Some? && w.value.Height() == tip.height && w.value.TipHash() == tip.hash)
            && (r.Ok? ==> w == Some(r.value)) && r != Err(IncompleteWriteDetected)
  {
    ScanIff(fs, empty, start + 1, tip.height);
    ScanNeverIncomplete(fs, empty, start + 1, tip.height);
    ExactIsChecked(fs, start, tip.height);
    var w := Scan(fs, empty, start + 1, tip.height);
    if w.Ok? {
      TailErrorIff(fs, w.value, start, tip);
    }
  }

  lemma TailErrorIff(fs: Fs, w: Window, start: nat, tip: Base)
    ensures TailError(fs, w, start, tip) == None <==>
            InventoryExact(fs, start, tip.height) && w.Height() == tip.height && w.TipHash() == tip.hash
    ensures TailError(fs, w, start, tip) != Some(IncompleteWriteDetected)
  {
  }

  lemma ExactIsChecked(fs: Fs, start: nat, top: nat)
    ensures InventoryExact(fs, start, top) ==> Checked(fs, start, top)
  {
  }

  lemma {:induction false} ScanNeverIncomplete(fs: Fs, w: Window, height: nat, top: nat)
    ensures Scan(fs, w, height, top) != Err(IncompleteWriteDetected)
    decreases top + 1 - height
  {
    if height <= top && FileError(fs, height) == None {
      if height <= w.base {
        ScanNeverIncomplete(fs, w, height + 1, top);
      } else if WindowError(w, fs.blocks[height]) == None {
        ScanNeverIncomplete(fs, Append(w, fs.blocks[height]), height + 1, top);
      }
    }
  }

  /** The two inventory comparisons, after every file has been checked. */
  method CheckInventory(fs: Fs, start: nat, top: nat) returns (e: Option<DiskError>)
    requires Checked(fs, start, top)
    ensures e == InventoryError(fs, start, top)
  {
    var expectedBlocks: set<nat>, expectedHashes: set<BlockHash> := {}, {};
    var height := start + 1;
    while height <= top
      invariant start < height && (height <= top + 1 || height == start + 1)
      invariant forall h :: h in expectedBlocks <==> start < h < height
      invariant expectedHashes == HashesOf(fs.blocks, start, height - 1)
      decreases top + 1 - height
    {
      expectedBlocks := expectedBlocks + {height};
      HashesExtend(fs.blocks, start, height);
      expectedHashes := expectedHashes + {fs.blocks[height].metadata.blockHash};
      height := height + 1;
    }
    e := Compare(fs, start, top, expectedBlocks, expectedHashes);
  }

  method Compare(fs: Fs, start: nat, top: nat, expectedBlocks: set<nat>, expectedHashes: set<BlockHash>) returns (e: Option<DiskError>)
    requires Checked(fs, start, top)
    requires forall h :: h in expectedBlocks <==> start < h <= top
    requires expectedHashes == HashesOf(fs.blocks, start, top)
    ensures e == InventoryError(fs, start, top)
  {
    if fs.blocks.Keys != expectedBlocks {
      InventoryBlocks(fs, start, top, expectedBlocks);
      return Some(UnexpectedBlockFile);
    }
    InventoryHashes(fs, start, top);
    return if fs.hashes.Keys != expectedHashes then Some(UnexpectedHashIndex) else None;
  }

  lemma InventoryBlocks(fs: Fs, start: nat, top: nat, expected: set<nat>)
    requires (forall h :: h in expected <==> start < h <= top) && fs.blocks.Keys != expected
    ensures InventoryError(fs, start, top) == Some(UnexpectedBlockFile)
  {
    assert (forall h :: h in fs.blocks <==> start < h <= top) ==> fs.blocks.Keys == expected;
  }

  lemma InventoryHashes(fs: Fs, start: nat, top: nat)
    requires Checked(fs, start, top) && forall h :: h in fs.blocks <==> start < h <= top
    ensures InventoryExact(fs, start, top) <==> fs.hashes.Keys == HashesOf(fs.blocks, start, top)
  {
    var hashes := HashesOf(fs.blocks, start, top);
    if InventoryExact(fs, start, top) {
      forall x ensures x in fs.hashes <==> x in hashes {
        if x in fs.hashes {
          assert fs.blocks[fs.hashes[x]].metadata.blockHash == x;
        }
      }
    }
    if fs.hashes.Keys == hashes {
      forall x | x in fs.hashes ensures fs.hashes[x] in fs.blocks && fs.blocks[fs.hashes[x]].metadata.blockHash == x {
        assert x in hashes;
      }
    }
  }

  class DiskChainStore {
    var fs: Fs
    var chain: ChainStore
    var genesisAnchor: BlockHash

    ghost predicate Valid()
      reads this, chain
    {
      chain.Valid()
    }

    constructor (f: Fs, c: ChainStore, genesis: BlockHash)
      ensures fs == f && chain == c && genesisAnchor == genesis
    {
      fs, chain, genesisAnchor := f, c, genesis;
    }

    /** Checks in the order of the source; returns the window or the first error. */
    static method Open(f: Fs, genesis: BlockHash) returns (r: Result<DiskChainStore, DiskError>)
      ensures r.Ok? <==> OpenResult(f, genesis).Ok?
      ensures r.Ok? ==> fresh(r.value) && fresh(r.value.chain) && r.value.Valid() && r.value.fs == f
                        && OpenResult(f, genesis) == Ok(r.value.chain.View())
      ensures r.Err? ==> OpenResult(f, genesis) == Err(r.error)
    {
      if f.staging != map[] {
        return Err(IncompleteWriteDetected);
      }
      var start, base := StartOf(f, genesis), MemoryBase(f, genesis);
      var c := new ChainStore.WithBase(base.hash, base.height);
      if f.tip.None? {
        if f.blocks != map[] || f.hashes != map[] {
          return Err(TipMissingWithExistingData);
        }
        var s := new DiskChainStore(f, c, genesis);
        return Ok(s);
      }
      var e := LoadTail(f, start.height, f.tip.value, c);
      if e.Some? {
        return Err(e.value);
      }
      var s := new DiskChainStore(f, c, genesis);
      return Ok(s);
    }

    /** Loads the blocks above the window's base and checks that the directories hold exactly what the tip says. */
    static method LoadTail(f: Fs, start: nat, tip: Base, c: ChainStore) returns (e: Option<DiskError>)
      requires c.Valid() && c.View().blocks == [] && start <= c.baseHeight
      modifies c
      ensures c.Valid()
      ensures TailResult(f, old(c.View()), start, tip) == if e.Some? then Err(e.value) else Ok(c.View())
    {
      ScanIff(f, c.View(), start + 1, tip.height);
      e := LoadAll(f, start + 1, tip.height, c);
      if e == None {
        e := CheckTail(f, start, tip, c);
      }
    }

    static method CheckTail(f: Fs, start: nat, tip: Base, c: ChainStore) returns (e: Option<DiskError>)
      requires c.Valid() && Checked(f, start, tip.height)
      ensures e == TailError(f, c.View(), start, tip)
    {
      e := CheckInventory(f, start, tip.height);
      if e.Some? {
        return;
      }
      if c.Height() != tip.height {
        return Some(TipHeightMismatch(tip.height, c.Height()));
      }
      return if c.TipOrAnchor() != tip.hash then Some(TipHashMismatch) else None;
    }

    /** One pass over the heights from `from`. */
    static method LoadAll(f: Fs, from: nat, top: nat, c: ChainStore) returns (e: Option<DiskError>)
      requires c.Valid() && InStep(c.View(), from)
      modifies c
      ensures c.Valid()
      ensures Scan(f, old(c.View()), from, top) == if e.Some? then Err(e.value) else Ok(c.View())
    {
      var height := from;
      ghost var goal := Scan(f, c.View(), from, top);
      while height <= top
        invariant c.Valid() && goal == Scan(f, c.View(), height, top)
        decreases top + 1 - height
      {
        e := FileError(f, height);
        if e.Some? {
          return;
        }
        if height > c.baseHeight {
          WindowErrorIff(c.View(), f.blocks[height]);
          var a := c.AppendStoredBlock(f.blocks[height]);
          if a.Err? {
            return Some(BadBlock(a.error));
          }
        }
        height := height + 1;
      }
      return None;
    }

    /** Tries the append on a copy, writes the files step by step, and adopts the copy only if the write completes. */
    method AppendStoredBlock(b: StoredBlock, crash: nat) returns (r: Result<Metadata, DiskError>)
      requires Valid()
      modifies this
      ensures Valid()
      ensures var w, plan := old(chain.View()), Plan(old(chain.View()), WriteBlock(b));
              && (r.Ok? <==> Extends(w, b) && crash >= |plan|)
              && (r.Ok? ==> fs == After(old(fs), plan, |plan|) && chain.View() == Append(w, b))
              && (!Extends(w, b) ==> fs == old(fs) && chain.View() == w)
              && (Extends(w, b) && crash < |plan| ==> r == Err(Crashed) && fs == After(old(fs), plan, crash))
    {
      var trial := chain.Clone();
      var e := trial.AppendStoredBlock(b);
      if e.Err? {
        return Err(BadBlock(e.error));
      }
      var done;
      fs, done := Perform(fs, BlockPlan(b), crash);
      if !done {
        return Err(Crashed);
      }
      chain := trial;
      return Ok(e.value);
    }

    method WriteTrustedCheckpoint(height: nat, root: Root, crash: nat) returns (r: Result<Base, DiskError>)
      requires Valid()
      modifies this`fs
      ensures var w, plan := chain.View(), Plan(chain.View(), WriteCheckpoint);
              var accepted := height == w.Height()
                              && (height > 0 && w.blocks != [] ==> root == w.blocks[|w.blocks| - 1].metadata.stateRoot);
              && (r.Ok? <==> accepted && crash >= |plan|)
              && (r.Ok? ==> r.value == Base(w.Height(), w.TipHash()) && fs == After(old(fs), plan, |plan|))
              && (!accepted ==> fs == old(fs))
              && (accepted && crash < |plan| ==> r == Err(Crashed) && fs == After(old(fs), plan, crash))
    {
      if height != chain.Height() {
        return Err(CheckpointHeightMismatch(chain.Height(), height));
      }
      var tip := chain.GetStoredBlockByHeight(height);
      if height > 0 && tip.Some? && tip.value.metadata.stateRoot != root {
        return Err(CheckpointStateRootMismatch);
      }
      var c := Base(height, chain.TipOrAnchor());
      var done;
      fs, done := Perform(fs, CheckpointPlan(c), crash);
      return if done then Ok(c) else Err(Crashed);
    }
  }
}

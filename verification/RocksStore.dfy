/**
 * The database-backed chain store on values: column families as maps, one
 * atomic batch per operation, and the in-memory window beside them. The class
 * that performs the operations is in `RocksDb`.
 */
module RocksStore {
  import opened Prelude
  import opened Blocks
  import opened Chain

  datatype Checkpoint = Checkpoint(height: nat, tipHash: BlockHash, stateRoot: Root)

  datatype Base = Base(height: nat, hash: BlockHash)

  datatype Db = Db(
    blocks: map<nat, StoredBlock>,
    hashIndex: map<BlockHash, nat>,
    txIndex: map<TxHash, nat>,
    siblings: map<(BlockHash, nat), StoredBlock>,
    checkpoints: map<nat, Checkpoint>,
    tipHeight: Option<nat>,
    genesisAnchor: BlockHash,
    snapshotBase: Option<Base>)

  datatype Store = Store(db: Db, chain: Window)

  /** Where the stored history starts: the imported snapshot, or genesis. */
  function Floor(db: Db): Base {
    if db.snapshotBase.Some? && db.snapshotBase.value.height > 0 then db.snapshotBase.value
    else Base(0, db.genesisAnchor)
  }

  function TipHeight(db: Db): nat {
    if db.tipHeight.Some? then db.tipHeight.value else 0
  }

  // ----- Opening -----

  ghost predicate IsLatest(checkpoints: map<nat, Checkpoint>, k: nat) {
    k in checkpoints && k > 0 && forall j :: j in checkpoints ==> j <= k
  }

  /** Where opening starts: the newest checkpoint of a positive height, else the floor. */
  ghost predicate IsStart(db: Db, b: Base) {
    if exists k :: IsLatest(db.checkpoints, k)
    then IsLatest(db.checkpoints, b.height) && b.hash == db.checkpoints[b.height].tipHash
    else b == Floor(db)
  }

  /** `w` extended by every stored block up to `top`, if each is present and accepted. */
  ghost function Loaded(db: Db, w: Window, top: nat): Option<Window>
    decreases top - w.Height()
  {
    if w.Height() >= top then Some(w)
    else
      var h := w.Height() + 1;
      if h in db.blocks && Extends(w, db.blocks[h]) then Loaded(db, Append(w, db.blocks[h]), top) else None
  }

  /** The window that opening the database builds, if it succeeds. */
  ghost function Opened(db: Db, start: Base): Option<Window> {
    if TipHeight(db) == 0 then Some(Window(Floor(db).hash, Floor(db).height, []))
    else
      var w := Loaded(db, Window(start.hash, start.height, []), TipHeight(db));
      if w.Some? && w.value.Height() == TipHeight(db) then w else None
  }

  /** In-memory block first, then the database. */
  function Read(s: Store, height: nat): Option<StoredBlock> {
    if s.chain.Lookup(height).Some? then s.chain.Lookup(height)
    else if height in s.db.blocks then Some(s.db.blocks[height])
    else None
  }

  // ----- The invariant of a reachable store -----

  ghost predicate Linked(db: Db, h: nat) {
    h in db.blocks && h + 1 in db.blocks ==> db.blocks[h + 1].metadata.prevHash == db.blocks[h].metadata.blockHash
  }

  /** The database holds exactly the heights above `lo`, consistent and hash-linked. */
  ghost predicate BlocksOk(db: Db, lo: nat, top: nat) {
    (forall h :: h in db.blocks <==> lo < h <= top) &&
    (forall h :: h in db.blocks ==> Consistent(db.blocks[h]) && db.blocks[h].metadata.height == h) &&
    (forall h: nat :: Linked(db, h))
  }

  lemma SameBlocks(db: Db, other: Db, lo: nat, top: nat)
    requires BlocksOk(db, lo, top) && other.blocks == db.blocks
    ensures BlocksOk(other, lo, top)
  {
    forall h: nat ensures Linked(other, h) {
      assert Linked(db, h);
    }
  }

  /** The window and the database agree wherever both have a block. */
  ghost predicate WindowOk(db: Db, w: Window) {
    (forall h :: h in db.blocks && w.base < h ==> w.Lookup(h) == Some(db.blocks[h])) &&
    (w.base in db.blocks ==> w.anchor == db.blocks[w.base].metadata.blockHash)
  }

  /** The hash index is exactly the inverse of the block column. */
  ghost predicate HashIndexOk(db: Db) {
    (forall h :: h in db.blocks ==>
      db.blocks[h].metadata.blockHash in db.hashIndex && db.hashIndex[db.blocks[h].metadata.blockHash] == h) &&
    forall x :: x in db.hashIndex ==> db.hashIndex[x] in db.blocks && db.blocks[db.hashIndex[x]].metadata.blockHash == x
  }

  ghost predicate CheckpointsOk(db: Db, lo: nat, top: nat) {
    (forall k :: k in db.checkpoints ==> db.checkpoints[k].height == k <= top && (k == 0 || lo <= k)) &&
    Floor(db).height <= lo <= top &&
    ((forall k :: k in db.checkpoints ==> k == 0) ==> lo == Floor(db).height)
  }

  ghost predicate StoreOk(s: Store, lo: nat) {
    && s.chain.Valid()
    && BlocksOk(s.db, lo, s.chain.Height()) && WindowOk(s.db, s.chain)
    && HashIndexOk(s.db) && CheckpointsOk(s.db, lo, s.chain.Height())
    && TipHeight(s.db) == s.chain.Height() && FloorOk(s, lo)
  }

  /** A history without stored blocks has none in memory, and an unpruned history starts at the floor's hash. */
  ghost predicate FloorOk(s: Store, lo: nat) {
    (lo == s.chain.Height() ==> s.chain.blocks == []) &&
    (lo == Floor(s.db).height ==> Canonical(s, lo) == Floor(s.db).hash)
  }

  /** The canonical hash at a height: what its successor names, or the tip hash. */
  function Canonical(s: Store, k: nat): BlockHash {
    if k + 1 in s.db.blocks then s.db.blocks[k + 1].metadata.prevHash else s.chain.TipHash()
  }

  lemma CanonicalIsStored(s: Store, lo: nat, k: nat)
    requires s.chain.Valid() && BlocksOk(s.db, lo, s.chain.Height()) && WindowOk(s.db, s.chain) && k in s.db.blocks
    ensures Canonical(s, k) == s.db.blocks[k].metadata.blockHash
  {
    assert Linked(s.db, k);
    if k == s.chain.Height() && s.chain.base < k {
      assert s.chain.Lookup(k) == Some(s.db.blocks[k]);
    }
  }

  // ----- When reopening is faithful -----

  /** The reopened window has the live height and tip, and every read at a stored height agrees. */
  ghost predicate Faithful(s: Store, start: Base, lo: nat) {
    var w := Opened(s.db, start);
    w.Some? && w.value.Height() == s.chain.Height() && w.value.TipHash() == s.chain.TipHash() &&
    forall h :: lo < h ==> Read(Store(s.db, w.value), h) == Read(s, h)
  }

  /**
   * The starting point names the canonical block of its height, and the
   * transaction counts recorded above it are right.
   */
  ghost predicate Sound(s: Store, start: Base) {
    start.hash == Canonical(s, start.height) && CountedAbove(s.db, start.height)
  }

  ghost predicate CountedAbove(db: Db, k: nat) {
    forall h :: h in db.blocks && h > k ==> Counted(db.blocks[h])
  }

  /** A load succeeds exactly if the first block links to the window and all counts are right. */
  lemma {:induction false} LoadedIff(db: Db, w: Window, lo: nat, top: nat)
    requires BlocksOk(db, lo, top) && lo <= w.Height() <= top
    ensures Loaded(db, w, top).Some? <==>
              (w.Height() < top ==> db.blocks[w.Height() + 1].metadata.prevHash == w.TipHash())
              && forall h :: w.Height() < h <= top ==> Counted(db.blocks[h])
    decreases top - w.Height()
  {
    if w.Height() < top {
      var h := w.Height() + 1;
      assert h in db.blocks;
      if Extends(w, db.blocks[h]) {
        LoadedIff(db, Append(w, db.blocks[h]), lo, top);
        assert Linked(db, h);
      }
    }
  }

  lemma {:induction false} LoadedShape(db: Db, w: Window, top: nat)
    requires w.Valid() && w.Height() <= top && Loaded(db, w, top).Some?
    ensures var r := Loaded(db, w, top).value;
            && r.Valid() && r.base == w.base && r.anchor == w.anchor && r.Height() == top && w.blocks <= r.blocks
            && forall h :: w.Height() < h <= top ==> h in db.blocks && r.Lookup(h) == Some(db.blocks[h])
    decreases top - w.Height()
  {
    if w.Height() < top {
      var h := w.Height() + 1;
      var a := Append(w, db.blocks[h]);
      AppendKeepsValid(w, db.blocks[h]);
      LoadedShape(db, a, top);
      assert Loaded(db, a, top).value.blocks[|w.blocks|] == a.blocks[|w.blocks|];
    }
  }

  /** A start lies between the oldest stored block and the tip. */
  lemma StartInRange(s: Store, lo: nat, start: Base)
    requires StoreOk(s, lo) && IsStart(s.db, start)
    ensures lo <= start.height <= s.chain.Height()
  {
    if forall k :: !IsLatest(s.db.checkpoints, k) {
      forall k | k in s.db.checkpoints ensures k == 0 {
        if k > 0 {
          var _ := LatestExists(s.db.checkpoints, k, s.chain.Height());
        }
      }
    }
  }

  /** Every positive checkpoint is below some newest one. */
  lemma {:induction false} LatestExists(checkpoints: map<nat, Checkpoint>, k: nat, top: nat) returns (l: nat)
    requires k in checkpoints && k > 0 && forall j :: j in checkpoints ==> j <= top
    ensures IsLatest(checkpoints, l)
    decreases top - k
  {
    if IsLatest(checkpoints, k) {
      l := k;
    } else {
      var j :| j in checkpoints && j > k;
      l := LatestExists(checkpoints, j, top);
    }
  }

  /** Opening succeeds and reproduces the live store exactly if its starting point is sound. */
  lemma ReopenFaithfulIff(s: Store, lo: nat, start: Base)
    requires StoreOk(s, lo) && IsStart(s.db, start)
    ensures Faithful(s, start, lo) <==> Sound(s, start)
  {
    StartInRange(s, lo, start);
    if s.chain.Height() > 0 {
      ReloadFaithfulIff(s, lo, start);
    }
  }

  lemma ReloadFaithfulIff(s: Store, lo: nat, start: Base)
    requires s.chain.Valid() && BlocksOk(s.db, lo, s.chain.Height()) && WindowOk(s.db, s.chain)
    requires 0 < s.chain.Height() == TipHeight(s.db) && lo <= start.height <= s.chain.Height()
    ensures Faithful(s, start, lo) <==> Sound(s, start)
  {
    var top := s.chain.Height();
    var w := Window(start.hash, start.height, []);
    LoadedIff(s.db, w, lo, top);
    if Loaded(s.db, w, top).Some? {
      LoadedShape(s.db, w, top);
      ReadsAgree(s, lo, Loaded(s.db, w, top).value);
      if start.height < top {
        CanonicalIsStored(s, lo, top);
      }
    }
  }

  /** The reopened store cannot be told from the live one: same height, same tip, same answer to every read. */
  ghost predicate Exact(s: Store, start: Base) {
    var w := Opened(s.db, start);
    w.Some? && w.value.Height() == s.chain.Height() && w.value.TipHash() == s.chain.TipHash() &&
    forall h: nat :: Read(Store(s.db, w.value), h) == Read(s, h)
  }

  /** Reopening is exact if moreover memory holds nothing below the oldest stored block. */
  lemma ReopenExactIff(s: Store, lo: nat, start: Base)
    requires StoreOk(s, lo) && IsStart(s.db, start)
    ensures Exact(s, start) <==> Sound(s, start) && lo <= s.chain.base
  {
    ReopenFaithfulIff(s, lo, start);
    if Faithful(s, start, lo) {
      StartInRange(s, lo, start);
      LowReadsIff(s, lo, start);
    }
  }

  /** At and below `lo` the reopened store has nothing, and the live one what memory still holds. */
  lemma LowReadsIff(s: Store, lo: nat, start: Base)
    requires StoreOk(s, lo) && lo <= start.height <= s.chain.Height() && IsStart(s.db, start) && Faithful(s, start, lo)
    ensures (forall h: nat :: h <= lo ==> Read(Store(s.db, Opened(s.db, start).value), h) == Read(s, h)) <==> lo <= s.chain.base
  {
    var w := Opened(s.db, start).value;
    OpenedBase(s, lo, start);
    if s.chain.base < lo {
      var h := s.chain.base + 1;
      assert Read(s, h) == s.chain.Lookup(h) != None == Read(Store(s.db, w), h);
    }
  }

  lemma OpenedBase(s: Store, lo: nat, start: Base)
    requires StoreOk(s, lo) && lo <= start.height <= s.chain.Height() && IsStart(s.db, start) && Opened(s.db, start).Some?
    ensures Opened(s.db, start).value.base >= lo
  {
    if s.chain.Height() > 0 {
      LoadedShape(s.db, Window(start.hash, start.height, []), s.chain.Height());
    }
  }

  /** Any two windows that agree with the database read the same block at every stored height. */
  lemma ReadsAgree(s: Store, lo: nat, w: Window)
    requires BlocksOk(s.db, lo, s.chain.Height()) && WindowOk(s.db, s.chain) && w.Height() == s.chain.Height()
    requires forall h :: w.base < h <= w.Height() ==> h in s.db.blocks && w.Lookup(h) == Some(s.db.blocks[h])
    ensures forall h :: lo < h ==> Read(Store(s.db, w), h) == Read(s, h)
  {
  }
}

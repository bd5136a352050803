/**
 * The in-memory chain window. `Window` is what it means, a hash-linked run of
 * blocks above a base height; `ChainStore` is the class with its two indices.
 */
module Chain {
  import opened Prelude
  import opened Blocks

  // ----- Windows -----

  datatype Window = Window(anchor: BlockHash, base: nat, blocks: seq<StoredBlock>) {
    function Height(): nat {
      base + |blocks|
    }

    /** The hash at the base or at any height of the window. */
    function HashAt(height: nat): BlockHash
      requires base <= height <= Height()
    {
      if height == base then anchor else blocks[height - base - 1].metadata.blockHash
    }

    /** The parent hash the next block must name. */
    function TipHash(): BlockHash {
      HashAt(Height())
    }

    function Lookup(height: nat): Option<StoredBlock> {
      if base < height <= Height() then Some(blocks[height - base - 1]) else None
    }

    /** Block `i` sits at its height and names its predecessor. */
    ghost predicate BlockOk(i: nat)
      requires i < |blocks|
    {
      Consistent(blocks[i]) && blocks[i].metadata.height == base + 1 + i && blocks[i].metadata.prevHash == HashAt(base + i)
    }

    /** Heights are contiguous above the base and parent hashes link back to the anchor. */
    ghost predicate Valid() {
      forall i :: 0 <= i < |blocks| ==> BlockOk(i)
    }
  }

  /** The blocks a window accepts next. */
  ghost predicate Extends(w: Window, s: StoredBlock) {
    Consistent(s) && Counted(s) && s.metadata.height == w.Height() + 1 && s.metadata.prevHash == w.TipHash()
  }

  function Append(w: Window, s: StoredBlock): Window {
    w.(blocks := w.blocks + [s])
  }

  function Compact(w: Window, height: nat): Window
    requires w.base <= height <= w.Height()
  {
    Window(w.HashAt(height), height, w.blocks[height - w.base..])
  }

  /** A sibling of the tip: another block with the same parent and the same roots. */
  ghost predicate Sibling(w: Window, c: StoredBlock) {
    w.blocks != [] && Consistent(c) &&
    var tip := w.blocks[|w.blocks| - 1].metadata;
    c.metadata.height == tip.height && c.metadata.blockHash != tip.blockHash && c.metadata.prevHash == tip.prevHash
    && c.metadata.stateRoot == tip.stateRoot && c.metadata.txRoot == tip.txRoot
  }

  /** A swap changes the tip's hash and keeps its height, parent, state root and transaction root. */
  lemma SwapKeepsCommitments(w: Window, c: StoredBlock)
    requires Sibling(w, c)
    ensures var old', new' := w.blocks[|w.blocks| - 1].metadata, Swap(w, c).blocks[|w.blocks| - 1].metadata;
            && new'.blockHash != old'.blockHash && new'.height == old'.height && new'.prevHash == old'.prevHash
            && new'.stateRoot == old'.stateRoot && new'.txRoot == old'.txRoot
    ensures Swap(w, c).Height() == w.Height() && Swap(w, c).TipHash() == ComputeBlockHash(c.block)
  {
  }

  function Swap(w: Window, c: StoredBlock): Window
    requires w.blocks != []
  {
    w.(blocks := w.blocks[..|w.blocks| - 1] + [c])
  }

  lemma AppendKeepsValid(w: Window, s: StoredBlock)
    requires w.Valid() && Extends(w, s)
    ensures Append(w, s).Valid()
  {
    var a := Append(w, s);
    forall i | 0 <= i < |a.blocks| ensures a.BlockOk(i) {
      assert i < |w.blocks| ==> w.BlockOk(i);
    }
  }

  lemma SwapKeepsValid(w: Window, c: StoredBlock)
    requires w.Valid() && Sibling(w, c)
    ensures Swap(w, c).Valid()
  {
    var a := Swap(w, c);
    forall i | 0 <= i < |a.blocks| ensures a.BlockOk(i) {
      assert w.BlockOk(i);
    }
  }

  lemma CompactKeepsValid(w: Window, height: nat)
    requires w.Valid() && w.base <= height <= w.Height()
    ensures Compact(w, height).Valid()
  {
    var c := Compact(w, height);
    forall i | 0 <= i < |c.blocks| ensures c.BlockOk(i) {
      assert w.BlockOk(height - w.base + i);
    }
  }

  /** Compaction changes neither the height, nor the tip, nor which next block is accepted, nor the blocks kept. */
  lemma CompactionIsInvisible(w: Window, height: nat, s: StoredBlock)
    requires w.base <= height <= w.Height()
    ensures var c := Compact(w, height);
            && c.Height() == w.Height() && c.TipHash() == w.TipHash()
            && (Extends(c, s) <==> Extends(w, s))
            && forall h :: height < h ==> c.Lookup(h) == w.Lookup(h)
  {
  }

  /** Blocks of different heights have different hashes, so a window never holds a hash twice. */
  lemma HashesDistinct(w: Window, i: nat, j: nat)
    requires w.Valid() && i < |w.blocks| && j < |w.blocks|
    requires w.blocks[i].metadata.blockHash == w.blocks[j].metadata.blockHash
    ensures i == j
  {
    assert w.BlockOk(i) && w.BlockOk(j);
  }

  // ----- The indices -----

  /** The two indices are mutual inverses and list exactly the blocks of a window. */
  ghost predicate Indexed(w: Window, byHeight: map<nat, BlockHash>, byHash: map<BlockHash, StoredBlock>) {
    (forall h :: h in byHeight <==> w.base < h <= w.Height()) &&
    (forall h :: h in byHeight ==> byHeight[h] in byHash && byHash[byHeight[h]].metadata.height == h) &&
    forall x :: x in byHash ==> byHash[x].metadata.blockHash == x && byHash[x].metadata.height in byHeight
                                && byHeight[byHash[x].metadata.height] == x
                                && w.Lookup(byHash[x].metadata.height) == Some(byHash[x])
  }

  /** Where the indices hold the tip, and that an empty window has empty indices. */
  lemma IndexedTip(w: Window, byHeight: map<nat, BlockHash>, byHash: map<BlockHash, StoredBlock>)
    requires w.Valid() && Indexed(w, byHeight, byHash)
    ensures w.blocks == [] ==> byHash == map[]
    ensures w.blocks != [] ==>
              var tip := w.blocks[|w.blocks| - 1];
              tip.metadata.height == w.Height() && byHeight[w.Height()] == w.TipHash() == tip.metadata.blockHash
              && w.TipHash() in byHash && byHash[w.TipHash()] == tip
  {
    if w.blocks != [] {
      assert w.BlockOk(|w.blocks| - 1);
      assert w.Height() in byHeight;
      assert w.Lookup(w.Height()) == Some(byHash[byHeight[w.Height()]]);
    }
  }

  /** A consistent block whose hash is indexed has a height of the window: hashes commit to heights. */
  lemma IndexedHash(w: Window, byHeight: map<nat, BlockHash>, byHash: map<BlockHash, StoredBlock>, s: StoredBlock)
    requires w.Valid() && Indexed(w, byHeight, byHash) && Consistent(s) && s.metadata.blockHash in byHash
    ensures w.base < s.metadata.height <= w.Height()
    ensures byHash[s.metadata.blockHash].metadata.height == s.metadata.height
  {
    var known := byHash[s.metadata.blockHash];
    assert w.BlockOk(known.metadata.height - w.base - 1);
  }

  lemma IndexedAppend(w: Window, byHeight: map<nat, BlockHash>, byHash: map<BlockHash, StoredBlock>, s: StoredBlock)
    requires w.Valid() && Indexed(w, byHeight, byHash) && Extends(w, s)
    ensures Indexed(Append(w, s), byHeight[s.metadata.height := s.metadata.blockHash], byHash[s.metadata.blockHash := s])
  {
    if s.metadata.blockHash in byHash {
      IndexedHash(w, byHeight, byHash, s);
    }
    assert forall h :: h != w.Height() + 1 ==> Append(w, s).Lookup(h) == w.Lookup(h);
  }

  lemma IndexedCompact(w: Window, byHeight: map<nat, BlockHash>, byHash: map<BlockHash, StoredBlock>, height: nat,
                       heights: map<nat, BlockHash>, hashes: map<BlockHash, StoredBlock>)
    requires Indexed(w, byHeight, byHash) && w.base <= height <= w.Height()
    requires forall h :: h in heights <==> h in byHeight && h > height
    requires forall h :: h in heights ==> heights[h] == byHeight[h]
    requires forall x :: x in hashes <==> x in byHash && byHash[x].metadata.height > height
    requires forall x :: x in hashes ==> hashes[x] == byHash[x]
    ensures Indexed(Compact(w, height), heights, hashes)
  {
    assert forall h :: h > height ==> Compact(w, height).Lookup(h) == w.Lookup(h);
  }

  lemma IndexedSwap(w: Window, byHeight: map<nat, BlockHash>, byHash: map<BlockHash, StoredBlock>, c: StoredBlock)
    requires w.Valid() && Indexed(w, byHeight, byHash) && Sibling(w, c)
    ensures Indexed(Swap(w, c), byHeight[c.metadata.height := c.metadata.blockHash],
                    (byHash - {w.TipHash()})[c.metadata.blockHash := c])
  {
    assert forall h :: h != w.Height() ==> Swap(w, c).Lookup(h) == w.Lookup(h);
    IndexedTip(w, byHeight, byHash);
    if c.metadata.blockHash in byHash {
      IndexedHash(w, byHeight, byHash, c);
      assert false;
    }
  }

  /** Drops the entries up to a height from both indices. */
  method Evict(byHeight: map<nat, BlockHash>, byHash: map<BlockHash, StoredBlock>, height: nat)
    returns (heights: map<nat, BlockHash>, hashes: map<BlockHash, StoredBlock>)
    requires forall h :: h in byHeight ==> byHeight[h] in byHash && byHash[byHeight[h]].metadata.height == h
    requires forall x :: x in byHash ==> byHash[x].metadata.height in byHeight && byHeight[byHash[x].metadata.height] == x
    ensures forall h :: h in heights <==> h in byHeight && h > height
    ensures forall h :: h in heights ==> heights[h] == byHeight[h]
    ensures forall x :: x in hashes <==> x in byHash && byHash[x].metadata.height > height
    ensures forall x :: x in hashes ==> hashes[x] == byHash[x]
  {
    heights, hashes := byHeight, byHash;
    var evict := set h | h in byHeight && h <= height;
    while evict != {}
      invariant forall h :: h in evict ==> h in byHeight && h <= height
      invariant forall h :: h in heights <==> h in byHeight && (h > height || h in evict)
      invariant forall h :: h in heights ==> heights[h] == byHeight[h]
      invariant forall x :: x in hashes <==> x in byHash && (byHash[x].metadata.height > height || byHash[x].metadata.height in evict)
      invariant forall x :: x in hashes ==> hashes[x] == byHash[x]
      decreases evict
    {
      var h :| h in evict;
      var x := heights[h];
      heights := heights - {h};
      hashes := hashes - {x};
      evict := evict - {h};
    }
  }

  // ----- The class -----

  /** Compacting at the tip leaves no blocks and the tip hash set to the anchor. */
  ghost predicate TipMatches(w: Window, tipHash: Option<BlockHash>) {
    if w.blocks != [] then tipHash == Some(w.TipHash()) else tipHash == None || tipHash == Some(w.anchor)
  }

  lemma CompactKeepsTip(w: Window, height: nat, tipHash: Option<BlockHash>)
    requires w.base <= height <= w.Height() && TipMatches(w, tipHash)
    ensures TipMatches(Compact(w, height), tipHash)
  {
  }

  datatype ChainError =
    | DuplicateBlockHash
    | DuplicateBlockHeight(height: nat)
    | InvalidBlockHeight(expected: nat, got: nat)
    | ParentHashMismatch(expectedHash: BlockHash, gotHash: BlockHash)
    | StoredBlockHashMismatch
    | StoredBlockMetadataMismatch
    | StoredBlockBodyCountMismatch
    | ReplaceNotAtTip(requested: nat, tip: nat)
    | ReplaceEmptyChain
    | SiblingStateDivergence(atHeight: nat, field: SiblingField)
    | SiblingHashCollision

  datatype SiblingField = PrevHashField | StateRootField | TxRootField

  ghost predicate HasHash(w: Window, x: BlockHash) {
    exists i :: 0 <= i < |w.blocks| && w.blocks[i].metadata.blockHash == x
  }

  /** The first reason not to append a block, in terms of the window alone. */
  ghost function WindowError(w: Window, s: StoredBlock): Option<ChainError> {
    var m, b := s.metadata, s.block;
    if m.height != b.header.height || m.prevHash != b.header.prevHash || m.stateRoot != b.header.stateRoot
       || m.txRoot != b.header.txRoot || !Counted(s) then Some(StoredBlockMetadataMismatch)
    else if |b.txHashes| != |s.transactions| then Some(StoredBlockBodyCountMismatch)
    else if m.blockHash != ComputeBlockHash(b) then Some(StoredBlockHashMismatch)
    else if HasHash(w, m.blockHash) then Some(DuplicateBlockHash)
    else if w.base < m.height <= w.Height() then Some(DuplicateBlockHeight(m.height))
    else if m.height != w.Height() + 1 then Some(InvalidBlockHeight(w.Height() + 1, m.height))
    else if m.prevHash != w.TipHash() then Some(ParentHashMismatch(w.TipHash(), m.prevHash))
    else None
  }

  /** There is none exactly for the blocks that extend the window. */
  lemma WindowErrorIff(w: Window, s: StoredBlock)
    requires w.Valid()
    ensures WindowError(w, s) == None <==> Extends(w, s)
  {
    forall i | 0 <= i < |w.blocks| && Extends(w, s) ensures w.blocks[i].metadata.blockHash != s.metadata.blockHash {
      assert w.BlockOk(i);
    }
  }

  /** The first reason not to swap the tip for a block. */
  ghost function SwapError(w: Window, c: StoredBlock): Option<ChainError> {
    if w.blocks == [] then Some(ReplaceEmptyChain)
    else
      var t, m, h := w.blocks[|w.blocks| - 1].metadata, c.metadata, c.block.header;
      if t.height != m.height then Some(ReplaceNotAtTip(m.height, t.height))
      else if t.blockHash == m.blockHash then Some(SiblingHashCollision)
      else if t.prevHash != m.prevHash then Some(SiblingStateDivergence(t.height, PrevHashField))
      else if t.stateRoot != m.stateRoot then Some(SiblingStateDivergence(t.height, StateRootField))
      else if t.txRoot != m.txRoot then Some(SiblingStateDivergence(t.height, TxRootField))
      else if m.blockHash != ComputeBlockHash(c.block) then Some(StoredBlockHashMismatch)
      else if m.height != h.height || m.prevHash != h.prevHash || m.stateRoot != h.stateRoot || m.txRoot != h.txRoot
        then Some(StoredBlockMetadataMismatch)
      else if |c.block.txHashes| != |c.transactions| then Some(StoredBlockBodyCountMismatch)
      else None
  }

  /** There is none exactly for the siblings of the tip. */
  lemma SwapErrorIff(w: Window, c: StoredBlock)
    ensures SwapError(w, c) == None <==> Sibling(w, c)
  {
  }

  lemma IndexedIff(w: Window, byHeight: map<nat, BlockHash>, byHash: map<BlockHash, StoredBlock>, x: BlockHash)
    requires w.Valid() && Indexed(w, byHeight, byHash)
    ensures x in byHash <==> HasHash(w, x)
  {
    if x in byHash {
      var h := byHash[x].metadata.height;
      assert w.Lookup(h) == Some(w.blocks[h - w.base - 1]);
    }
    if HasHash(w, x) {
      var i :| 0 <= i < |w.blocks| && w.blocks[i].metadata.blockHash == x;
      var h := w.base + 1 + i;
      assert h in byHeight && w.Lookup(h) == Some(byHash[byHeight[h]]);
    }
  }

  class ChainStore {
    var anchorPrevHash: BlockHash
    var byHash: map<BlockHash, StoredBlock>
    var byHeight: map<nat, BlockHash>
    var tipHash: Option<BlockHash>
    var baseHeight: nat

    ghost var blocks: seq<StoredBlock>

    ghost function View(): Window
      reads this
    {
      Window(anchorPrevHash, baseHeight, blocks)
    }

    /** The two indices are mutual inverses over the blocks of the window, and the tip hash points at the last. */
    ghost predicate Valid()
      reads this
    {
      View().Valid() && Indexed(View(), byHeight, byHash) && TipMatches(View(), tipHash)
    }

    constructor WithBase(anchor: BlockHash, base: nat)
      ensures Valid() && View() == Window(anchor, base, [])
      ensures tipHash == None
    {
      anchorPrevHash := anchor;
      byHash := map[];
      byHeight := map[];
      tipHash := None;
      baseHeight := base;
      blocks := [];
    }

    function Tip(): (r: Option<StoredBlock>)
      requires Valid()
      reads this
      ensures r == if blocks == [] then None else Some(blocks[|blocks| - 1])
    {
      IndexedTip(View(), byHeight, byHash);
      if tipHash.Some? && tipHash.value in byHash then Some(byHash[tipHash.value]) else None
    }

    function Height(): (r: nat)
      requires Valid()
      reads this
      ensures r == View().Height()
    {
      IndexedTip(View(), byHeight, byHash);
      if Tip().Some? then Tip().value.metadata.height else baseHeight
    }

    function TipOrAnchor(): (r: BlockHash)
      requires Valid()
      reads this
      ensures r == View().TipHash()
    {
      if tipHash.Some? then tipHash.value else anchorPrevHash
    }

    function GetStoredBlockByHeight(height: nat): (r: Option<StoredBlock>)
      requires Valid()
      reads this
      ensures r == View().Lookup(height)
    {
      if height in byHeight && byHeight[height] in byHash then Some(byHash[byHeight[height]]) else None
    }

    /** The checks in their order; they pass exactly for the blocks that extend the window. */
    function ValidateStoredBlock(s: StoredBlock): (r: Option<ChainError>)
      requires Valid()
      reads this
      ensures r == WindowError(View(), s)
      ensures r == None <==> Extends(View(), s)
    {
      WindowErrorIff(View(), s);
      IndexedIff(View(), byHeight, byHash, s.metadata.blockHash);
      var m, b := s.metadata, s.block;
      if m.height != b.header.height || m.prevHash != b.header.prevHash
         || m.stateRoot != b.header.stateRoot || m.txRoot != b.header.txRoot
         || m.includedCount != |b.txHashes| then Some(StoredBlockMetadataMismatch)
      else if |b.txHashes| != |s.transactions| then Some(StoredBlockBodyCountMismatch)
      else if m.blockHash != ComputeBlockHash(b) then Some(StoredBlockHashMismatch)
      else if m.blockHash in byHash then Some(DuplicateBlockHash)
      else if m.height in byHeight then Some(DuplicateBlockHeight(m.height))
      else if m.height != Height() + 1 then Some(InvalidBlockHeight(Height() + 1, m.height))
      else if m.prevHash != TipOrAnchor() then Some(ParentHashMismatch(TipOrAnchor(), m.prevHash))
      else None
    }

    method AppendStoredBlock(s: StoredBlock) returns (r: Result<Metadata, ChainError>)
      requires Valid()
      modifies this
      ensures Valid()
      ensures r.Ok? <==> Extends(old(View()), s)
      ensures r.Ok? ==> r.value == s.metadata && View() == Append(old(View()), s)
      ensures r.Err? ==> Some(r.error) == WindowError(old(View()), s) && unchanged(this)
    {
      var e := ValidateStoredBlock(s);
      if e.Some? {
        return Err(e.value);
      }
      AppendKeepsValid(View(), s);
      IndexedAppend(View(), byHeight, byHash, s);
      var hash := s.metadata.blockHash;
      byHeight := byHeight[s.metadata.height := hash];
      byHash := byHash[hash := s];
      tipHash := Some(hash);
      blocks := blocks + [s];
      return Ok(s.metadata);
    }

    /**
     * Drops the blocks up to a height from both indices and moves the anchor.
     * The window is compacted if the height is its own and the hash the one at
     * that height; other arguments are taken as they come.
     */
    method CompactToCheckpoint(height: nat, hash: BlockHash)
      requires Valid()
      modifies this
      ensures anchorPrevHash == hash && baseHeight == height && tipHash == old(tipHash)
      ensures forall h :: h in byHeight <==> h in old(byHeight) && h > height
      ensures forall h :: h in byHeight ==> byHeight[h] == old(byHeight)[h]
      ensures forall x :: x in byHash <==> x in old(byHash) && old(byHash)[x].metadata.height > height
      ensures forall x :: x in byHash ==> byHash[x] == old(byHash)[x]
      ensures var w := old(View()); w.base <= height <= w.Height() && hash == w.HashAt(height) ==>
                Valid() && View() == Compact(w, height)
    {
      var heights, hashes := Evict(byHeight, byHash, height);
      ghost var w := View();
      if w.base <= height <= w.Height() {
        CompactKeepsValid(w, height);
        CompactKeepsTip(w, height, tipHash);
        IndexedCompact(w, byHeight, byHash, height, heights, hashes);
        blocks := Compact(w, height).blocks;
      }
      byHeight, byHash := heights, hashes;
      anchorPrevHash := hash;
      baseHeight := height;
    }

    /**
     * Replaces the tip by a sibling and returns the displaced block. The tip
     * hash must point into the window: after a compaction at the tip the
     * source panics here.
     */
    method ReplaceTipBlock(c: StoredBlock) returns (r: Result<StoredBlock, ChainError>)
      requires Valid() && (tipHash.Some? ==> tipHash.value in byHash)
      modifies this
      ensures Valid()
      ensures r.Ok? <==> Sibling(old(View()), c)
      ensures r.Ok? ==> r.value == old(blocks)[|old(blocks)| - 1] && View() == Swap(old(View()), c)
      ensures r.Err? ==> Some(r.error) == SwapError(old(View()), c) && unchanged(this)
      ensures r == Err(ReplaceEmptyChain) <==> old(tipHash) == None
    {
      SwapErrorIff(View(), c);
      if tipHash.None? {
        return Err(ReplaceEmptyChain);
      }
      IndexedTip(View(), byHeight, byHash);
      var tip := byHash[tipHash.value];
      var t, m := tip.metadata, c.metadata;
      if t.height != m.height {
        return Err(ReplaceNotAtTip(m.height, t.height));
      }
      if t.blockHash == m.blockHash {
        return Err(SiblingHashCollision);
      }
      if t.prevHash != m.prevHash {
        return Err(SiblingStateDivergence(t.height, PrevHashField));
      }
      if t.stateRoot != m.stateRoot {
        return Err(SiblingStateDivergence(t.height, StateRootField));
      }
      if t.txRoot != m.txRoot {
        return Err(SiblingStateDivergence(t.height, TxRootField));
      }
      if m.blockHash != ComputeBlockHash(c.block) {
        return Err(StoredBlockHashMismatch);
      }
      if m.height != c.block.header.height || m.prevHash != c.block.header.prevHash
         || m.stateRoot != c.block.header.stateRoot || m.txRoot != c.block.header.txRoot {
        return Err(StoredBlockMetadataMismatch);
      }
      if |c.block.txHashes| != |c.transactions| {
        return Err(StoredBlockBodyCountMismatch);
      }
      SwapKeepsValid(View(), c);
      IndexedSwap(View(), byHeight, byHash, c);
      byHeight := byHeight[m.height := m.blockHash];
      byHash := (byHash - {tipHash.value})[m.blockHash := c];
      tipHash := Some(m.blockHash);
      blocks := blocks[..|blocks| - 1] + [c];
      return Ok(tip);
    }

    method Clone() returns (c: ChainStore)
      requires Valid()
      ensures fresh(c) && c.Valid() && c.View() == View() && c.tipHash == tipHash && c.byHash == byHash
    {
      c := new ChainStore.WithBase(anchorPrevHash, baseHeight);
      c.byHash := byHash;
      c.byHeight := byHeight;
      c.tipHash := tipHash;
      c.blocks := blocks;
    }
  }
}

/** Blocks, their metadata and their hashes. */
module Blocks {
  import opened Prelude

  type Address = nat
  type TxHash = nat
  type Root = nat

  datatype Transaction = Transaction(
    sender: Address, nonce: nat, fee: nat, feeTip: nat, gasLimit: nat, sigAlg: nat, payload: nat)

  datatype Header = Header(
    version: nat, height: nat, prevHash: BlockHash, stateRoot: Root, txRoot: Root,
    timestamp: nat, proposer: seq<Byte>, extensionRoot: Root)

  /** The tagged hash of a header and its transaction list, idealised as a free constructor. */
  datatype BlockHash =
    | Anchor(id: nat)
    | Digest(header: Header, txHashes: seq<TxHash>)

  datatype Block = Block(header: Header, txHashes: seq<TxHash>, commitSignatures: seq<nat>)

  datatype Metadata = Metadata(
    blockHash: BlockHash, height: nat, prevHash: BlockHash, stateRoot: Root, txRoot: Root, timestamp: nat,
    bytesUsed: nat, includedCount: nat, deferredCount: nat, skippedCount: nat, vcBudgetConsumed: nat)

  datatype StoredBlock = StoredBlock(block: Block, metadata: Metadata, transactions: seq<Transaction>)

  /** Commit signatures are not part of the hash. */
  function ComputeBlockHash(b: Block): BlockHash {
    Digest(b.header, b.txHashes)
  }

  /** Metadata agrees with the block, except for the counts. */
  predicate Consistent(s: StoredBlock) {
    s.metadata.height == s.block.header.height &&
    s.metadata.prevHash == s.block.header.prevHash &&
    s.metadata.stateRoot == s.block.header.stateRoot &&
    s.metadata.txRoot == s.block.header.txRoot &&
    |s.block.txHashes| == |s.transactions| &&
    s.metadata.blockHash == ComputeBlockHash(s.block)
  }

  /** The hash of a block fixes everything its metadata says about it, except for the counts. */
  lemma HashFixesMetadata(s: StoredBlock, t: StoredBlock)
    requires Consistent(s) && Consistent(t) && s.metadata.blockHash == t.metadata.blockHash
    ensures var m, n := s.metadata, t.metadata;
            m.height == n.height && m.prevHash == n.prevHash && m.stateRoot == n.stateRoot && m.txRoot == n.txRoot
    ensures s.block.header == t.block.header && s.block.txHashes == t.block.txHashes && |s.transactions| == |t.transactions|
  {
  }

  predicate Counted(s: StoredBlock) {
    s.metadata.includedCount == |s.block.txHashes|
  }
}

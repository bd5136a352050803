/** The pending pool with its two indices, and admission with fee-bump replacement. */
module Mempool {
  import opened Prelude
  import opened Blocks

  const BUMP_NUM: nat := 110
  const BUMP_DEN: nat := 100

  datatype PendingEntry = PendingEntry(tx: Transaction, length: nat, txHash: TxHash, fee: nat, feeTip: nat)

  type Contents = map<TxHash, PendingEntry>
  type Slots = map<(Address, nat), TxHash>

  function Slot(e: PendingEntry): (Address, nat) {
    (e.tx.sender, e.tx.nonce)
  }

  /** The indices are mutual inverses, so a sender has at most one entry per nonce. */
  ghost predicate PoolOk(byHash: Contents, bySlot: Slots) {
    (forall h :: h in byHash ==>
      byHash[h].txHash == h && byHash[h].fee == byHash[h].tx.fee && byHash[h].feeTip == byHash[h].tx.feeTip
      && Slot(byHash[h]) in bySlot && bySlot[Slot(byHash[h])] == h) &&
    forall s :: s in bySlot ==> bySlot[s] in byHash && Slot(byHash[bySlot[s]]) == s
  }

  lemma OneEntryPerSlot(byHash: Contents, bySlot: Slots, g: TxHash, h: TxHash)
    requires PoolOk(byHash, bySlot) && g in byHash && h in byHash && Slot(byHash[g]) == Slot(byHash[h])
    ensures g == h
  {
    assert bySlot[Slot(byHash[g])] == g;
  }

  /** What is left after draining a sender's entries below a nonce. */
  function WithoutStale(byHash: Contents, sender: Address, nonce: nat): Contents {
    map h | h in byHash && !(byHash[h].tx.sender == sender && byHash[h].tx.nonce < nonce) :: byHash[h]
  }

  // ----- Replacement -----

  /** Ten percent above the pending fee; the product saturates at 64 bits. */
  function MinReplacement(fee: nat): nat {
    (if fee * BUMP_NUM <= U64_MAX then fee * BUMP_NUM else U64_MAX) / BUMP_DEN
  }

  /** Every fee that replaces is at least ten percent above the old one. */
  ghost predicate RaisesTenPercent(fee: nat) {
    forall n: nat :: n >= MinReplacement(fee) ==> BUMP_DEN * n >= BUMP_NUM * fee
  }

  /** That holds exactly for whole tens whose bump does not saturate: otherwise the division rounds part of it away. */
  lemma TenPercentIff(fee: nat)
    ensures RaisesTenPercent(fee) <==> fee % 10 == 0 && fee * BUMP_NUM <= U64_MAX
  {
    var least := MinReplacement(fee);
    assert RaisesTenPercent(fee) <==> BUMP_DEN * least >= BUMP_NUM * fee;
    var q, r := fee / 10, fee % 10;
    assert fee == 10 * q + r && BUMP_NUM * fee == BUMP_DEN * (11 * q + r) + 10 * r;
  }

  /** Weaker: replacing never lowers a fee, and always raises it, exactly within these bounds. */
  lemma BumpIff(fee: nat)
    ensures MinReplacement(fee) >= fee <==> fee <= U64_MAX / BUMP_DEN
    ensures MinReplacement(fee) > fee <==> 10 <= fee < U64_MAX / BUMP_DEN
  {
  }

  /** A fee of 16 replaces one of 15, a fee of 9 one of 9, and the largest fee gives way to a cheaper one. */
  lemma BumpFails()
    ensures MinReplacement(15) == 16 && !RaisesTenPercent(15)
    ensures MinReplacement(9) == 9 && MinReplacement(U64_MAX) < U64_MAX
  {
    TenPercentIff(15);
    BumpIff(U64_MAX);
  }

  datatype MempoolError =
    | Duplicate
    | VcCapReached
    | ValidationFailed(code: nat)
    | ReplacementUnderpriced(existingFee: nat, existingTip: nat, minRequiredFee: nat)

  datatype Admission = Admission(txHash: TxHash, replaced: Option<TxHash>)

  /** A pending entry gives way to a transaction that pays enough more. */
  predicate Outbids(tx: Transaction, existing: PendingEntry) {
    tx.fee >= MinReplacement(existing.fee) && tx.feeTip >= existing.feeTip
  }

  /** What a call brings: the decoded transaction and the verdicts of code outside the pool. */
  datatype Candidate = Candidate(
    tx: Transaction, length: nat, txHash: TxHash, lifecycle: Option<MempoolError>, premium: bool,
    validation: Option<MempoolError>)

  ghost predicate Admissible(byHash: Contents, bySlot: Slots, capFull: bool, c: Candidate)
    requires PoolOk(byHash, bySlot)
  {
    var slot := (c.tx.sender, c.tx.nonce);
    c.txHash !in byHash && c.lifecycle == None && !(c.premium && capFull) && c.validation == None &&
    (slot in bySlot ==> Outbids(c.tx, byHash[bySlot[slot]]))
  }

  /** The first check that refuses a candidate. */
  ghost function Refusal(byHash: Contents, bySlot: Slots, capFull: bool, c: Candidate): Option<MempoolError>
    requires PoolOk(byHash, bySlot)
  {
    var slot := (c.tx.sender, c.tx.nonce);
    if c.txHash in byHash then Some(Duplicate)
    else if c.lifecycle.Some? then c.lifecycle
    else if c.premium && capFull then Some(VcCapReached)
    else if c.validation.Some? then c.validation
    else if slot in bySlot && !Outbids(c.tx, byHash[bySlot[slot]]) then
      var e := byHash[bySlot[slot]];
      Some(ReplacementUnderpriced(e.fee, e.feeTip, MinReplacement(e.fee)))
    else None
  }

  /** Fees as far as the bump follows them. */
  function Capped(fee: nat): nat {
    Min(fee, U64_MAX / BUMP_DEN)
  }

  /** Who outbids an entry pays at least its fee, up to the cap, and at least its tip; for whole tens, ten percent more. */
  lemma OutbidsMeans(tx: Transaction, e: PendingEntry)
    ensures Outbids(tx, e) ==> Capped(tx.fee) >= Capped(e.fee) && tx.feeTip >= e.feeTip
    ensures e.fee % 10 == 0 && e.fee * BUMP_NUM <= U64_MAX ==>
              (Outbids(tx, e) <==> BUMP_DEN * tx.fee >= BUMP_NUM * e.fee && tx.feeTip >= e.feeTip)
  {
    assert e.fee % 10 == 0 && e.fee * BUMP_NUM <= U64_MAX ==> BUMP_DEN * MinReplacement(e.fee) == BUMP_NUM * e.fee by {
      var q := e.fee / 10;
      assert e.fee % 10 == 0 ==> e.fee == 10 * q && BUMP_NUM * e.fee == BUMP_DEN * (11 * q);
    }
  }

  datatype Pending = Pending(byHash: Contents, bySlot: Slots)

  /** The pool after one attempt to admit a transaction. */
  ghost function Offered(p: Pending, capFull: bool, c: Candidate): Pending
    requires PoolOk(p.byHash, p.bySlot)
  {
    var slot := (c.tx.sender, c.tx.nonce);
    if !Admissible(p.byHash, p.bySlot, capFull, c) then p
    else
      Pending((if slot in p.bySlot then p.byHash - {p.bySlot[slot]} else p.byHash)
              [c.txHash := PendingEntry(c.tx, c.length, c.txHash, c.tx.fee, c.tx.feeTip)],
              p.bySlot[slot := c.txHash])
  }

  lemma OfferedKeepsOk(p: Pending, capFull: bool, c: Candidate)
    requires PoolOk(p.byHash, p.bySlot)
    ensures PoolOk(Offered(p, capFull, c).byHash, Offered(p, capFull, c).bySlot)
  {
  }

  /** What a slot is worth: its fee up to the cap, and its tip. */
  ghost predicate NoCheaper(p: Pending, q: Pending, slot: (Address, nat))
    requires PoolOk(p.byHash, p.bySlot) && PoolOk(q.byHash, q.bySlot) && slot in p.bySlot
  {
    slot in q.bySlot &&
    var e, f := p.byHash[p.bySlot[slot]], q.byHash[q.bySlot[slot]];
    Capped(f.fee) >= Capped(e.fee) && f.feeTip >= e.feeTip
  }

  lemma OfferedNoCheaper(p: Pending, capFull: bool, c: Candidate, slot: (Address, nat))
    requires PoolOk(p.byHash, p.bySlot) && slot in p.bySlot && PoolOk(Offered(p, capFull, c).byHash, Offered(p, capFull, c).bySlot)
    ensures NoCheaper(p, Offered(p, capFull, c), slot)
  {
    var q := Offered(p, capFull, c);
    if slot == (c.tx.sender, c.tx.nonce) {
      OutbidsMeans(c.tx, p.byHash[p.bySlot[slot]]);
    }
  }

  /** Over any number of admissions an occupied slot stays occupied and never gets cheaper. */
  lemma {:induction false} SlotsNeverFall(ps: seq<Pending>, cs: seq<Candidate>, full: seq<bool>, slot: (Address, nat), n: nat)
    requires |ps| == |cs| + 1 == |full| + 1 && n < |ps| && forall i :: 0 <= i < |ps| ==> PoolOk(ps[i].byHash, ps[i].bySlot)
    requires forall i :: 0 <= i < |cs| ==> ps[i + 1] == Offered(ps[i], full[i], cs[i])
    requires slot in ps[0].bySlot
    ensures NoCheaper(ps[0], ps[n], slot)
  {
    if n > 0 {
      var k := n - 1;
      SlotsNeverFall(ps, cs, full, slot, k);
      assert ps[k + 1] == Offered(ps[k], full[k], cs[k]);
      OfferedNoCheaper(ps[k], full[k], cs[k], slot);
    }
  }

  class Pool {
    var byHash: Contents
    var bySlot: Slots
    var vcCount: nat
    var vcCap: nat

    ghost predicate Valid()
      reads this
    {
      PoolOk(byHash, bySlot)
    }

    constructor ()
      ensures Valid() && byHash == map[] && vcCount == 0 && vcCap == 10
    {
      byHash, bySlot, vcCount, vcCap := map[], map[], 0, 10;
    }

    /** Puts an entry into both indices; they stay inverse if its slot and hash were free. */
    method Insert(e: PendingEntry)
      requires Valid()
      modifies this`byHash, this`bySlot
      ensures byHash == old(byHash)[e.txHash := e] && bySlot == old(bySlot)[Slot(e) := e.txHash]
      ensures Slot(e) !in old(bySlot) && e.txHash !in old(byHash) && e.fee == e.tx.fee && e.feeTip == e.tx.feeTip ==> Valid()
    {
      bySlot := bySlot[Slot(e) := e.txHash];
      byHash := byHash[e.txHash := e];
    }

    method Evict(hash: TxHash) returns (e: Option<PendingEntry>)
      requires Valid()
      modifies this`byHash, this`bySlot
      ensures Valid() && byHash == old(byHash) - {hash}
      ensures e == if hash in old(byHash) then Some(old(byHash)[hash]) else None
      ensures forall s :: s in bySlot <==> s in old(bySlot) && old(bySlot)[s] != hash
    {
      if hash !in byHash {
        assert byHash - {hash} == byHash;
        return None;
      }
      var entry := byHash[hash];
      byHash := byHash - {hash};
      bySlot := bySlot - {Slot(entry)};
      return Some(entry);
    }

    method EvictStale(sender: Address, nonce: nat)
      requires Valid()
      modifies this`byHash, this`bySlot
      ensures Valid() && byHash == WithoutStale(old(byHash), sender, nonce)
    {
      var stale := set h | h in byHash && byHash[h].tx.sender == sender && byHash[h].tx.nonce < nonce;
      ghost var all := stale;
      while stale != {}
        invariant Valid() && stale <= all
        invariant byHash == old(byHash) - (all - stale)
        decreases stale
      {
        var h :| h in stale;
        var _ := Evict(h);
        stale := stale - {h};
        assert old(byHash) - (all - stale) == old(byHash) - (all - stale - {h}) - {h};
      }
    }

    method ResetVcCount()
      modifies this`vcCount
      ensures vcCount == 0
    {
      vcCount := 0;
    }

    /** The admission pipeline; a transaction gets in exactly if no check refuses it, and takes over its slot. */
    method TryAdmit(c: Candidate) returns (r: Result<Admission, MempoolError>)
      requires Valid()
      modifies this
      ensures Valid() && vcCap == old(vcCap)
      ensures r.Ok? <==> Admissible(old(byHash), old(bySlot), old(vcCount) >= old(vcCap), c)
      ensures r.Ok? ==>
                var slot := (c.tx.sender, c.tx.nonce);
                && r.value.txHash == c.txHash
                && r.value.replaced == (if slot in old(bySlot) then Some(old(bySlot)[slot]) else None)
                && byHash == (if slot in old(bySlot) then old(byHash) - {old(bySlot)[slot]} else old(byHash))
                             [c.txHash := PendingEntry(c.tx, c.length, c.txHash, c.tx.fee, c.tx.feeTip)]
                && vcCount == old(vcCount) + (if c.premium then 1 else 0)
      ensures r.Err? ==> unchanged(this) && Refusal(old(byHash), old(bySlot), old(vcCount) >= old(vcCap), c) == Some(r.error)
      ensures old(vcCount) <= vcCap ==> vcCount <= vcCap
    {
      if c.txHash in byHash {
        return Err(Duplicate);
      }
      if c.lifecycle.Some? {
        return Err(c.lifecycle.value);
      }
      if c.premium && vcCount >= vcCap {
        return Err(VcCapReached);
      }
      if c.validation.Some? {
        return Err(c.validation.value);
      }
      var slot := (c.tx.sender, c.tx.nonce);
      var replaced: Option<TxHash> := None;
      if slot in bySlot {
        var existing := byHash[bySlot[slot]];
        if !Outbids(c.tx, existing) {
          return Err(ReplacementUnderpriced(existing.fee, existing.feeTip, MinReplacement(existing.fee)));
        }
        replaced := Some(bySlot[slot]);
        var _ := Evict(bySlot[slot]);
      }
      Insert(PendingEntry(c.tx, c.length, c.txHash, c.tx.fee, c.tx.feeTip));
      if c.premium {
        vcCount := vcCount + 1;
      }
      return Ok(Admission(c.txHash, replaced));
    }
  }
}

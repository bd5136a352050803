/** Block assembly on values: the order of pending entries, the fold over them, and the end of a block. */
module Assembly {
  import opened Prelude
  import opened Blocks
  import opened Chain
  import opened Ledger
  import opened Execution
  import opened Mempool

  datatype Config = Config(maxBlockBytes: nat, shareBps: nat, validatorPool: seq<Address>, epochDuration: nat)

  // ----- The order -----

  /** Higher fee, then higher tip, then lower sender, nonce and hash. */
  predicate Precedes(a: PendingEntry, b: PendingEntry) {
    if a.fee != b.fee then a.fee > b.fee
    else if a.feeTip != b.feeTip then a.feeTip > b.feeTip
    else if a.tx.sender != b.tx.sender then a.tx.sender < b.tx.sender
    else if a.tx.nonce != b.tx.nonce then a.tx.nonce < b.tx.nonce
    else a.txHash < b.txHash
  }

  /** A strict total order on entries with distinct hashes. */
  lemma OrderLaws(a: PendingEntry, b: PendingEntry, c: PendingEntry)
    ensures !Precedes(a, a)
    ensures Precedes(a, b) ==> !Precedes(b, a)
    ensures Precedes(a, b) && Precedes(b, c) ==> Precedes(a, c)
    ensures a.txHash != b.txHash ==> Precedes(a, b) || Precedes(b, a)
  {
  }

  ghost predicate Ordered(es: seq<PendingEntry>) {
    forall i, j :: 0 <= i < j < |es| ==> Precedes(es[i], es[j])
  }

  /** The sequence lists exactly the entries of a pool. */
  ghost predicate Lists(es: seq<PendingEntry>, byHash: Contents) {
    forall e :: e in es <==> e.txHash in byHash && byHash[e.txHash] == e
  }

  /** Only one ordered sequence lists a pool, so its iteration order does not matter. */
  lemma {:induction false} OrderedUnique(es: seq<PendingEntry>, fs: seq<PendingEntry>)
    requires Ordered(es) && Ordered(fs) && forall e :: e in es <==> e in fs
    ensures es == fs
    decreases |es|
  {
    assert (es != [] ==> es[0] in fs) && (fs != [] ==> fs[0] in es);
    if es != [] {
      FirstIsLeast(es, fs[0]);
      FirstIsLeast(fs, es[0]);
      OrderLaws(es[0], fs[0], es[0]);
      TailElements(es, fs);
      OrderedUnique(es[1..], fs[1..]);
      assert es == [es[0]] + es[1..] && fs == [fs[0]] + fs[1..];
    }
  }

  /** Entries are taken by fee, then tip, highest first, and of equal ones by sender and nonce, lowest first. */
  lemma OrderedByFee(es: seq<PendingEntry>, i: nat, j: nat)
    requires Ordered(es) && i < j < |es|
    ensures var a, b := es[i], es[j];
            && a.fee >= b.fee && (a.fee == b.fee ==> a.feeTip >= b.feeTip)
            && (a.fee == b.fee && a.feeTip == b.feeTip ==>
                a.tx.sender <= b.tx.sender && (a.tx.sender == b.tx.sender ==> a.tx.nonce <= b.tx.nonce))
  {
    assert Precedes(es[i], es[j]);
  }

  /** Two assemblies of the same pool take its entries in the same order. */
  lemma PoolFixesOrder(es: seq<PendingEntry>, fs: seq<PendingEntry>, byHash: Contents)
    requires Ordered(es) && Ordered(fs) && Lists(es, byHash) && Lists(fs, byHash)
    ensures es == fs
  {
    OrderedUnique(es, fs);
  }

  lemma FirstIsLeast(es: seq<PendingEntry>, e: PendingEntry)
    requires Ordered(es) && e in es
    ensures e == es[0] || Precedes(es[0], e)
  {
    var i :| 0 <= i < |es| && es[i] == e;
  }

  lemma TailElements(es: seq<PendingEntry>, fs: seq<PendingEntry>)
    requires Ordered(es) && Ordered(fs) && es != [] && fs != [] && es[0] == fs[0]
    requires forall e :: e in es <==> e in fs
    ensures forall e :: e in es[1..] <==> e in fs[1..]
  {
    forall e ensures e in es[1..] <==> e in fs[1..] {
      TailElement(es, e);
      TailElement(fs, e);
    }
  }

  lemma TailElement(es: seq<PendingEntry>, e: PendingEntry)
    requires Ordered(es) && es != []
    ensures e in es[1..] <==> e in es && e != es[0]
  {
    OrderLaws(es[0], es[0], es[0]);
    if e in es && e != es[0] {
      var i :| 0 <= i < |es| && es[i] == e;
      assert es[1..][i - 1] == e;
    }
    if e in es[1..] {
      var i :| 0 <= i < |es[1..]| && es[1..][i] == e;
      assert Precedes(es[0], es[i + 1]);
    }
  }

  // ----- The fold over pending entries -----

  /** State, fees and gas so far; fees saturate at 128 bits and gas at 64. */
  datatype Acc = Acc(state: State, fees: nat, gas: nat)

  function Absorb(acc: Acc, a: Applied, tip: nat): Acc {
    Acc(a.state, SatAdd(SatAdd(acc.fees, a.outcome.feeCharged, U128_MAX), tip, U128_MAX),
        SatAdd(acc.gas, a.outcome.gasUsed, U64_MAX))
  }

  datatype Work = Work(
    acc: Acc, bytes: nat, included: seq<PendingEntry>, deferred: seq<PendingEntry>,
    skipped: seq<PendingEntry>, reasons: seq<ApplyError>)

  /** One pending entry: deferred if it does not fit, skipped if it fails, otherwise included. */
  function Take(r: Rules, max: nat, w: Work, e: PendingEntry): Work {
    var size := SatAdd(w.bytes, e.length, U64_MAX);
    if size > max then w.(deferred := w.deferred + [e])
    else
      var a := Apply(r, w.acc.state, e.tx, e.length, w.acc.state.baseFeeDynamic);
      if a.Err? then w.(skipped := w.skipped + [e], reasons := w.reasons + [a.error])
      else w.(acc := Absorb(w.acc, a.value, e.tx.feeTip), bytes := size, included := w.included + [e])
  }

  function TakeAll(r: Rules, max: nat, s: State, es: seq<PendingEntry>): Work {
    if es == [] then Work(Acc(s, 0, 0), 0, [], [], [], [])
    else Take(r, max, TakeAll(r, max, s, es[..|es| - 1]), es[|es| - 1])
  }

  /** Every entry ends in exactly one of the three lists. */
  lemma {:induction false} TakeAllPartitions(r: Rules, max: nat, s: State, es: seq<PendingEntry>)
    ensures Handled(TakeAll(r, max, s, es)) == multiset(es)
  {
    if es != [] {
      var front, e := es[..|es| - 1], es[|es| - 1];
      TakeAllPartitions(r, max, s, front);
      assert es == front + [e];
      TakeSorts(r, max, TakeAll(r, max, s, front), e);
    }
  }

  ghost function Handled(w: Work): multiset<PendingEntry> {
    multiset(w.included) + multiset(w.deferred) + multiset(w.skipped)
  }

  lemma TakeSorts(r: Rules, max: nat, w: Work, e: PendingEntry)
    ensures Handled(Take(r, max, w, e)) == Handled(w) + multiset{e}
  {
  }

  /** The included bytes are counted, saturating at 64 bits, and stay within the limit. */
  lemma {:induction false} TakeAllFits(r: Rules, max: nat, s: State, es: seq<PendingEntry>)
    ensures var w := TakeAll(r, max, s, es); w.bytes <= max && w.bytes == Min(Bytes(w.included), U64_MAX)
  {
    if es != [] {
      var front, e := es[..|es| - 1], es[|es| - 1];
      TakeAllFits(r, max, s, front);
      var v := TakeAll(r, max, s, front);
      assert (v.included + [e])[..|v.included|] == v.included;
    }
  }

  function Bytes(es: seq<PendingEntry>): nat {
    if es == [] then 0 else Bytes(es[..|es| - 1]) + es[|es| - 1].length
  }

  /** The included entries are in assembly order too, so a block lists its transactions by fee. */
  lemma {:induction false} IncludedOrdered(r: Rules, max: nat, s: State, es: seq<PendingEntry>)
    requires Ordered(es)
    ensures var included := TakeAll(r, max, s, es).included;
            Ordered(included) && forall e :: e in included ==> e in es
  {
    if es != [] {
      var front, e := es[..|es| - 1], es[|es| - 1];
      IncludedOrdered(r, max, s, front);
      var w := TakeAll(r, max, s, front);
      forall i | 0 <= i < |w.included| ensures Precedes(w.included[i], e) {
        assert w.included[i] in front;
        var k :| 0 <= k < |front| && front[k] == w.included[i];
        assert es[k] == front[k];
      }
    }
  }

  /**
   * What becomes of the next entry: deferred exactly if the bytes included so far
   * leave no room for it, else skipped with its error exactly if it does not apply
   * to the state so far, else included.
   */
  lemma NextEntry(r: Rules, max: nat, s: State, es: seq<PendingEntry>, e: PendingEntry, w: Work, t: Work)
    requires w == TakeAll(r, max, s, es) && t == TakeAll(r, max, s, es + [e])
    ensures var a := Apply(r, w.acc.state, e.tx, e.length, w.acc.state.baseFeeDynamic);
            if Min(Bytes(w.included) + e.length, U64_MAX) > max then t == w.(deferred := w.deferred + [e])
            else if a.Err? then t == w.(skipped := w.skipped + [e], reasons := w.reasons + [a.error])
            else
              && t.included == w.included + [e] && t.deferred == w.deferred && t.skipped == w.skipped && t.reasons == w.reasons
              && t.acc.state == a.value.state
  {
    assert (es + [e])[..|es|] == es;
    assert t == Take(r, max, w, e);
    BytesFit(r, max, s, es, w);
  }

  lemma BytesFit(r: Rules, max: nat, s: State, es: seq<PendingEntry>, w: Work)
    requires w == TakeAll(r, max, s, es)
    ensures w.bytes == Min(Bytes(w.included), U64_MAX)
  {
    TakeAllFits(r, max, s, es);
  }

  /** Gas of the included entries, unbounded. */
  function GasUsed(r: Rules, max: nat, s: State, es: seq<PendingEntry>): nat {
    if es == [] then 0
    else
      var front, e := es[..|es| - 1], es[|es| - 1];
      var w := TakeAll(r, max, s, front);
      GasUsed(r, max, s, front) +
      if Judge(r, max, w, e).Include? then Apply(r, w.acc.state, e.tx, e.length, w.acc.state.baseFeeDynamic).value.outcome.gasUsed else 0
  }

  lemma {:induction false} TakeAllGas(r: Rules, max: nat, s: State, es: seq<PendingEntry>)
    ensures TakeAll(r, max, s, es).acc.gas == Min(GasUsed(r, max, s, es), U64_MAX)
  {
    if es != [] {
      TakeAllGas(r, max, s, es[..|es| - 1]);
    }
  }

  /** What the payloads of the included entries add to the balances. */
  ghost function Shifts(r: Rules, max: nat, s: State, es: seq<PendingEntry>): int {
    if es == [] then 0
    else
      var front, e := es[..|es| - 1], es[|es| - 1];
      var w := TakeAll(r, max, s, front);
      Shifts(r, max, s, front) + if Judge(r, max, w, e).Include? then Shift(r, w.acc.state, e.tx) else 0
  }

  /** Fees and tips of the included entries, unbounded. */
  function Charged(r: Rules, max: nat, s: State, es: seq<PendingEntry>): nat {
    if es == [] then 0
    else
      var front, e := es[..|es| - 1], es[|es| - 1];
      var w := TakeAll(r, max, s, front);
      Charged(r, max, s, front) +
      if Judge(r, max, w, e).Include? then
        Apply(r, w.acc.state, e.tx, e.length, w.acc.state.baseFeeDynamic).value.outcome.feeCharged + e.tx.feeTip
      else 0
  }

  /** Beside what payloads move, the balances lose exactly what is charged, and that is collected up to the 128-bit limit. */
  lemma {:induction false} TakeAllConserves(r: Rules, max: nat, s: State, es: seq<PendingEntry>)
    ensures var acc := TakeAll(r, max, s, es).acc;
            && Total(acc.state) + Charged(r, max, s, es) == Total(s) + Shifts(r, max, s, es)
            && acc.fees == Min(Charged(r, max, s, es), U128_MAX)
  {
    if es != [] {
      var front, e := es[..|es| - 1], es[|es| - 1];
      TakeAllConserves(r, max, s, front);
      var w := TakeAll(r, max, s, front);
      var base := w.acc.state.baseFeeDynamic;
      if Apply(r, w.acc.state, e.tx, e.length, base).Ok? {
        ApplyTotal(r, w.acc.state, e.tx, e.length, base);
      }
    }
  }

  /** How many entries are from a sender. */
  function From(es: seq<PendingEntry>, a: Address): nat {
    if es == [] then 0 else From(es[..|es| - 1], a) + if es[|es| - 1].tx.sender == a then 1 else 0
  }

  /** An account's nonce grows by exactly the number of its transactions included, out-of-gas ones too. */
  lemma {:induction false} NoncesCountInclusions(r: Rules, max: nat, s: State, es: seq<PendingEntry>, a: Address)
    requires KeepsNonces(r) && a in s.accounts
    ensures var w := TakeAll(r, max, s, es); NonceOf(w.acc.state, a) == Some(s.accounts[a].nonce + From(w.included, a))
  {
    if es != [] {
      var front, e := es[..|es| - 1], es[|es| - 1];
      NoncesCountInclusions(r, max, s, front, a);
      TakeNonce(r, max, TakeAll(r, max, s, front), e, a);
    }
  }

  lemma TakeNonce(r: Rules, max: nat, v: Work, e: PendingEntry, a: Address)
    requires KeepsNonces(r) && a in v.acc.state.accounts
    ensures var w := Take(r, max, v, e);
            NonceOf(w.acc.state, a) == Some(v.acc.state.accounts[a].nonce + From(w.included, a) - From(v.included, a))
  {
    assert (v.included + [e])[..|v.included|] == v.included;
    var base := v.acc.state.baseFeeDynamic;
    if Apply(r, v.acc.state, e.tx, e.length, base).Ok? {
      ApplyNonce(r, v.acc.state, e.tx, e.length, base, a);
    }
  }

  /**
   * Executing a block and distributing its fees changes the balances by what its
   * payloads move, and by nothing else exactly if the burn does not exceed the fees.
   */
  lemma BlockConservesIff(r: Rules, max: nat, s: State, es: seq<PendingEntry>, proposer: Address, pool: seq<Address>, shareBps: nat)
    requires Total(s) + Shifts(r, max, s, es) <= U128_MAX
    requires var acc := TakeAll(r, max, s, es).acc; Total(acc.state) + Burned(acc.state, acc.fees) <= U128_MAX
    ensures var acc := TakeAll(r, max, s, es).acc;
            var after, burned := Distribute(acc.state, proposer, acc.fees, pool, shareBps), Burned(acc.state, acc.fees);
            && Total(after) == Total(s) + Shifts(r, max, s, es) + (if burned <= acc.fees then 0 else burned - acc.fees)
            && (Total(after) == Total(s) + Shifts(r, max, s, es) <==> burned <= acc.fees)
            && (acc.state.burnRateBps <= BPS ==> burned <= acc.fees)
  {
    TakeAllConserves(r, max, s, es);
    var acc := TakeAll(r, max, s, es).acc;
    DistributeTotal(acc.state, proposer, acc.fees, pool, shareBps);
    FeesConservedIff(acc.state, proposer, acc.fees, pool, shareBps);
  }

  /** The payload moves value between the balances and what the rest of the state holds, such as bonds. */
  ghost predicate Moves(r: Rules, s: State, tx: Transaction, held: nat -> nat) {
    !OutOfGas(r, tx) && r.payload(s, tx).Ok? ==>
      Total(r.payload(s, tx).value) + held(r.payload(s, tx).value.rest) == Total(s) + held(s.rest)
  }

  /** So do all payloads of the included entries, each on the state it runs on. */
  ghost predicate AllMove(r: Rules, max: nat, s: State, es: seq<PendingEntry>, held: nat -> nat) {
    es != [] ==>
      var front, e := es[..|es| - 1], es[|es| - 1];
      var w := TakeAll(r, max, s, front);
      AllMove(r, max, s, front, held) && (Judge(r, max, w, e).Include? ==> Moves(r, w.acc.state, e.tx, held))
  }

  /** Then the balances gain exactly what the rest of the state gives up. */
  lemma {:induction false} MovesShift(r: Rules, max: nat, s: State, es: seq<PendingEntry>, held: nat -> nat)
    requires AllMove(r, max, s, es, held)
    ensures Shifts(r, max, s, es) == held(s.rest) - held(TakeAll(r, max, s, es).acc.state.rest)
  {
    if es != [] {
      MovesShift(r, max, s, es[..|es| - 1], held);
    }
  }

  lemma {:induction false} CreditAllKeepsRest(s: State, pool: seq<Address>, amount: nat)
    ensures CreditAll(s, pool, amount).rest == s.rest
  {
    if pool != [] {
      CreditAllKeepsRest(s, pool[..|pool| - 1], amount);
    }
  }

  lemma DistributeKeepsRest(s: State, proposer: Address, fees: nat, pool: seq<Address>, shareBps: nat)
    ensures Distribute(s, proposer, fees, pool, shareBps).rest == s.rest
  {
    var t := Credit(s, ZERO_ADDRESS, Burned(s, fees));
    if Burned(s, fees) < fees && pool != [] {
      var rest := fees - Burned(s, fees);
      CreditAllKeepsRest(Credit(t, proposer, Priority(rest, shareBps) + Remainder(rest, |pool|, shareBps)),
                         pool, PerValidator(rest, |pool|, shareBps));
    }
  }

  /** If payloads only move value, balances and holdings together are conserved exactly if the burn does not exceed the fees. */
  lemma BlockKeepsWealthIff(r: Rules, max: nat, s: State, es: seq<PendingEntry>, proposer: Address, pool: seq<Address>,
                            shareBps: nat, held: nat -> nat)
    requires AllMove(r, max, s, es, held) && Total(s) + held(s.rest) <= U128_MAX
    requires var acc := TakeAll(r, max, s, es).acc; Total(acc.state) + Burned(acc.state, acc.fees) <= U128_MAX
    ensures var acc := TakeAll(r, max, s, es).acc;
            var after := Distribute(acc.state, proposer, acc.fees, pool, shareBps);
            Total(after) + held(after.rest) == Total(s) + held(s.rest) <==> Burned(acc.state, acc.fees) <= acc.fees
  {
    MovesShift(r, max, s, es, held);
    BlockConservesIff(r, max, s, es, proposer, pool, shareBps);
    var acc := TakeAll(r, max, s, es).acc;
    DistributeKeepsRest(acc.state, proposer, acc.fees, pool, shareBps);
  }

  // ----- The pool that is left -----

  datatype Verdict = Defer | Skip | Include

  function Judge(r: Rules, max: nat, w: Work, e: PendingEntry): Verdict {
    if SatAdd(w.bytes, e.length, U64_MAX) > max then Defer
    else if Apply(r, w.acc.state, e.tx, e.length, w.acc.state.baseFeeDynamic).Err? then Skip
    else Include
  }

  /** What one entry does to the pool: an included entry also drains what it makes stale. */
  function Drain(v: Verdict, e: PendingEntry, pool: Contents): Contents {
    match v
    case Defer => pool
    case Skip => pool - {e.txHash}
    case Include => WithoutStale(pool - {e.txHash}, e.tx.sender, SatAdd(e.tx.nonce, 1, U64_MAX))
  }

  function PoolAfter(r: Rules, max: nat, s: State, es: seq<PendingEntry>, pool: Contents): Contents {
    if es == [] then pool
    else
      var front, e := es[..|es| - 1], es[|es| - 1];
      Drain(Judge(r, max, TakeAll(r, max, s, front), e), e, PoolAfter(r, max, s, front, pool))
  }

  /** An entry of the same sender with an equal or higher nonce. */
  ghost predicate Supersedes(i: PendingEntry, e: PendingEntry) {
    i.tx.sender == e.tx.sender && e.tx.nonce <= i.tx.nonce
  }

  ghost predicate Superseded(included: seq<PendingEntry>, e: PendingEntry) {
    exists i :: 0 <= i < |included| && Supersedes(included[i], e)
  }

  /** Entries with 64-bit nonces, as the pool holds them. */
  ghost predicate NoncesFit(pool: Contents) {
    forall h :: h in pool ==> pool[h].tx.nonce <= U64_MAX
  }

  lemma DrainMember(v: Verdict, e: PendingEntry, pool: Contents, all: Contents, bySlot: Slots, f: PendingEntry)
    requires PoolOk(all, bySlot) && NoncesFit(all) && f.txHash in all && all[f.txHash] == f
    requires e.txHash in all && all[e.txHash] == e
    requires forall h :: h in pool ==> h in all && pool[h] == all[h]
    ensures f.txHash in Drain(v, e, pool) <==>
              f.txHash in pool && (v.Defer? || f != e) && !(v.Include? && Supersedes(e, f))
    ensures forall h :: h in Drain(v, e, pool) ==> h in all && Drain(v, e, pool)[h] == all[h]
  {
    if v.Include? && f.tx.sender == e.tx.sender && f.tx.nonce == e.tx.nonce {
      OneEntryPerSlot(all, bySlot, f.txHash, e.txHash);
    }
  }

  /** The pool left is the unprocessed and the deferred entries that no included one supersedes. */
  lemma {:induction false} PoolLeft(r: Rules, max: nat, s: State, es: seq<PendingEntry>, all: Contents, bySlot: Slots, f: PendingEntry)
    requires PoolOk(all, bySlot) && NoncesFit(all) && f.txHash in all && all[f.txHash] == f
    requires Ordered(es) && forall e :: e in es ==> e.txHash in all && all[e.txHash] == e
    ensures var w := TakeAll(r, max, s, es);
            f.txHash in PoolAfter(r, max, s, es, all) <==> (f in es ==> f in w.deferred) && !Superseded(w.included, f)
    ensures forall h :: h in PoolAfter(r, max, s, es, all) ==> h in all && PoolAfter(r, max, s, es, all)[h] == all[h]
  {
    if es != [] {
      var front, e := es[..|es| - 1], es[|es| - 1];
      PoolLeft(r, max, s, front, all, bySlot, f);
      assert e in es;
      var v := TakeAll(r, max, s, front);
      DrainMember(Judge(r, max, v, e), e, PoolAfter(r, max, s, front, all), all, bySlot, f);
      LastIsNew(es);
      DeferredAreTaken(r, max, s, front, f);
      SupersededBy(v.included, e, f);
    }
  }

  /** After a block the pool holds exactly the deferred entries that no included entry of their sender supersedes. */
  lemma PoolLeftIff(r: Rules, max: nat, s: State, es: seq<PendingEntry>, all: Contents, bySlot: Slots, f: PendingEntry)
    requires PoolOk(all, bySlot) && NoncesFit(all) && Ordered(es) && Lists(es, all)
    ensures var left, w := PoolAfter(r, max, s, es, all), TakeAll(r, max, s, es);
            f.txHash in left && left[f.txHash] == f <==> f in w.deferred && !Superseded(w.included, f)
  {
    DeferredAreTaken(r, max, s, es, f);
    if f in es {
      PoolLeft(r, max, s, es, all, bySlot, f);
    } else if f.txHash in PoolAfter(r, max, s, es, all) {
      PoolLeftWithin(r, max, s, es, all, f.txHash);
    }
  }

  lemma {:induction false} PoolLeftWithin(r: Rules, max: nat, s: State, es: seq<PendingEntry>, all: Contents, h: TxHash)
    ensures h in PoolAfter(r, max, s, es, all) ==> h in all && PoolAfter(r, max, s, es, all)[h] == all[h]
  {
    if es != [] {
      PoolLeftWithin(r, max, s, es[..|es| - 1], all, h);
    }
  }

  lemma LastIsNew(es: seq<PendingEntry>)
    requires Ordered(es) && es != []
    ensures es[|es| - 1] !in es[..|es| - 1]
    ensures forall e :: e in es <==> e in es[..|es| - 1] || e == es[|es| - 1]
  {
    var front, e := es[..|es| - 1], es[|es| - 1];
    assert es == front + [e];
    OrderLaws(e, e, e);
  }

  lemma SupersededBy(included: seq<PendingEntry>, e: PendingEntry, f: PendingEntry)
    ensures Superseded(included + [e], f) <==> Superseded(included, f) || Supersedes(e, f)
  {
    var all := included + [e];
    assert all[|included|] == e;
    if Superseded(included, f) {
      var i :| 0 <= i < |included| && Supersedes(included[i], f);
      assert Supersedes(all[i], f);
    }
  }

  lemma {:induction false} DeferredAreTaken(r: Rules, max: nat, s: State, es: seq<PendingEntry>, f: PendingEntry)
    ensures f in TakeAll(r, max, s, es).deferred ==> f in es
  {
    TakeAllPartitions(r, max, s, es);
    if f in TakeAll(r, max, s, es).deferred {
      assert f in multiset(es);
    }
  }

  // ----- The end of a block -----

  /** Bonds returned to operators that have an account. */
  function CreditBonds(s: State, exited: seq<(Address, nat)>): State {
    if exited == [] then s
    else
      var t := CreditBonds(s, exited[..|exited| - 1]);
      var (a, bond) := exited[|exited| - 1];
      if a in t.accounts
      then t.(accounts := t.accounts[a := t.accounts[a].(balance := SatAdd(t.accounts[a].balance, bond, U128_MAX))])
      else t
  }

  function FeePool(r: Rules, config: Config, s: State): seq<Address> {
    if r.activeValidators(s) == [] then config.validatorPool else r.activeValidators(s)
  }

  /** Fee distribution and the per-block updates, in their order, up to the next height. */
  function Seal(r: Rules, config: Config, acc: Acc, proposer: seq<Byte>, height: nat): State {
    var paid := Distribute(acc.state, BeValue(proposer), acc.fees, FeePool(r, config, acc.state), config.shareBps);
    var tallied := r.tallies(r.aimd(paid, acc.gas), height);
    var (unbonded, exited) := r.unbond(tallied, height);
    var rotated := r.rotateKeys(CreditBonds(unbonded, exited), height);
    r.activateKeys(rotated.(height := rotated.height + 1))
  }

  predicate IsEpochBoundary(height: nat, duration: nat) {
    height > 0 && duration > 0 && height % duration == 0
  }

  function AfterEpoch(r: Rules, config: Config, s: State, height: nat): State {
    if IsEpochBoundary(height, config.epochDuration) then r.epochTransitions(s, height) else s
  }

  datatype Context = Context(height: nat, prevHash: BlockHash, timestamp: nat, proposer: seq<Byte>)

  const HEADER_VERSION_V1: nat := 1
  const EMPTY_EXTENSION_ROOT: Root := 0

  function Hashes(es: seq<PendingEntry>): seq<TxHash> {
    seq(|es|, i requires 0 <= i < |es| => es[i].txHash)
  }

  function Txs(es: seq<PendingEntry>): seq<Transaction> {
    seq(|es|, i requires 0 <= i < |es| => es[i].tx)
  }

  /** The state and block that assembling an ordered pool yields. */
  function FinalState(r: Rules, config: Config, s: State, es: seq<PendingEntry>, ctx: Context): State {
    AfterEpoch(r, config, Seal(r, config, TakeAll(r, config.maxBlockBytes, s, es).acc, ctx.proposer, ctx.height), ctx.height)
  }

  function BlockOf(r: Rules, config: Config, s: State, es: seq<PendingEntry>, ctx: Context): Block {
    var hashes := Hashes(TakeAll(r, config.maxBlockBytes, s, es).included);
    Block(Header(HEADER_VERSION_V1, ctx.height, ctx.prevHash, r.stateRoot(FinalState(r, config, s, es, ctx)),
                 r.txRoot(hashes), ctx.timestamp, ctx.proposer, EMPTY_EXTENSION_ROOT), hashes, [])
  }

  /** What the chain stores of an assembled block. */
  function StoredOf(r: Rules, config: Config, s: State, es: seq<PendingEntry>, ctx: Context, vcBudget: nat): StoredBlock {
    var w := TakeAll(r, config.maxBlockBytes, s, es);
    var b := BlockOf(r, config, s, es, ctx);
    StoredBlock(b, Metadata(ComputeBlockHash(b), ctx.height, ctx.prevHash, b.header.stateRoot, b.header.txRoot, ctx.timestamp,
                            w.bytes, |w.included|, |w.deferred|, |w.skipped|, vcBudget), Txs(w.included))
  }

  /** An assembled block extends a chain exactly if it was assembled for its next height and on its tip. */
  lemma AssembledExtendsIff(r: Rules, config: Config, s: State, es: seq<PendingEntry>, ctx: Context, vcBudget: nat, w: Window)
    ensures Extends(w, StoredOf(r, config, s, es, ctx, vcBudget)) <==> ctx.height == w.Height() + 1 && ctx.prevHash == w.TipHash()
  {
  }

  /** Its metadata accounts for every pending entry and for the bytes of the included ones. */
  lemma AssembledCounts(r: Rules, config: Config, s: State, es: seq<PendingEntry>, ctx: Context, vcBudget: nat)
    ensures var b, w := StoredOf(r, config, s, es, ctx, vcBudget), TakeAll(r, config.maxBlockBytes, s, es);
            var m := b.metadata;
            && m.includedCount == |b.transactions| == |b.block.txHashes| && m.deferredCount == |w.deferred|
            && m.includedCount + m.deferredCount + m.skippedCount == |es|
            && m.bytesUsed == Min(Bytes(w.included), U64_MAX) <= config.maxBlockBytes
  {
    var w := TakeAll(r, config.maxBlockBytes, s, es);
    TakeAllPartitions(r, config.maxBlockBytes, s, es);
    TakeAllFits(r, config.maxBlockBytes, s, es);
    assert |Handled(w)| == |multiset(es)|;
  }

  /** Its hash commits to the whole context, the transactions included and the state reached. */
  lemma AssembledBinds(r: Rules, config: Config, s: State, es: seq<PendingEntry>, ctx: Context,
                       s': State, es': seq<PendingEntry>, ctx': Context)
    requires ComputeBlockHash(BlockOf(r, config, s, es, ctx)) == ComputeBlockHash(BlockOf(r, config, s', es', ctx'))
    ensures ctx == ctx' && r.stateRoot(FinalState(r, config, s, es, ctx)) == r.stateRoot(FinalState(r, config, s', es', ctx'))
    ensures Hashes(TakeAll(r, config.maxBlockBytes, s, es).included) == Hashes(TakeAll(r, config.maxBlockBytes, s', es').included)
  {
  }
}

/** What the end of a block does: which steps it takes and in what order, and what becomes of height and balances. */
module BlockEnd {
  import opened Prelude
  import opened Blocks
  import opened Chain
  import opened Ledger
  import opened Execution
  import opened Mempool
  import opened Assembly
  import opened Replay

  // ----- Height -----

  /** No step but the advance itself touches the height. */
  ghost predicate KeepsHeight(r: Rules) {
    (forall s, tx :: r.payload(s, tx).Ok? ==> r.payload(s, tx).value.height == s.height) &&
    (forall s, g :: r.aimd(s, g).height == s.height) && (forall s, h :: r.tallies(s, h).height == s.height) &&
    (forall s, h :: r.unbond(s, h).0.height == s.height) && (forall s, h :: r.rotateKeys(s, h).height == s.height) &&
    (forall s :: r.activateKeys(s).height == s.height) && (forall s, h :: r.epochTransitions(s, h).height == s.height)
  }

  lemma {:induction false} TakeAllKeepsHeight(r: Rules, max: nat, s: State, es: seq<PendingEntry>)
    requires KeepsHeight(r)
    ensures TakeAll(r, max, s, es).acc.state.height == s.height
  {
    if es != [] {
      TakeAllKeepsHeight(r, max, s, es[..|es| - 1]);
    }
  }

  lemma {:induction false} CreditAllKeepsHeight(s: State, pool: seq<Address>, amount: nat)
    ensures CreditAll(s, pool, amount).height == s.height
  {
    if pool != [] {
      CreditAllKeepsHeight(s, pool[..|pool| - 1], amount);
    }
  }

  lemma DistributeKeepsHeight(s: State, proposer: Address, fees: nat, pool: seq<Address>, shareBps: nat)
    ensures Distribute(s, proposer, fees, pool, shareBps).height == s.height
  {
    if Burned(s, fees) < fees && pool != [] {
      var rest, t := fees - Burned(s, fees), Credit(s, ZERO_ADDRESS, Burned(s, fees));
      CreditAllKeepsHeight(Credit(t, proposer, Priority(rest, shareBps) + Remainder(rest, |pool|, shareBps)),
                           pool, PerValidator(rest, |pool|, shareBps));
    }
  }

  lemma {:induction false} BondsKeepHeight(s: State, exited: seq<(Address, nat)>)
    ensures CreditBonds(s, exited).height == s.height
  {
    if exited != [] {
      BondsKeepHeight(s, exited[..|exited| - 1]);
    }
  }

  lemma SealAdvances(r: Rules, config: Config, acc: Acc, proposer: seq<Byte>, height: nat)
    requires KeepsHeight(r)
    ensures Seal(r, config, acc, proposer, height).height == acc.state.height + 1
    ensures ReplaySeal(r, config, acc, proposer, height).height == acc.state.height + 1
  {
    SealAdvancesWith(r, config, acc, proposer, height);
    SealAdvancesWith(r, config, acc.(fees := 0), proposer, height);
  }

  lemma SealAdvancesWith(r: Rules, config: Config, acc: Acc, proposer: seq<Byte>, height: nat)
    requires KeepsHeight(r)
    ensures Seal(r, config, acc, proposer, height).height == acc.state.height + 1
  {
    DistributeKeepsHeight(acc.state, BeValue(proposer), acc.fees, FeePool(r, config, acc.state), config.shareBps);
    var paid := Distribute(acc.state, BeValue(proposer), acc.fees, FeePool(r, config, acc.state), config.shareBps);
    var (unbonded, exited) := r.unbond(r.tallies(r.aimd(paid, acc.gas), height), height);
    BondsKeepHeight(unbonded, exited);
  }

  /** A block moves the state on by exactly one height, so the next one is assembled right above it. */
  lemma BlockAdvances(r: Rules, config: Config, s: State, es: seq<PendingEntry>, ctx: Context)
    requires KeepsHeight(r)
    ensures FinalState(r, config, s, es, ctx).height == s.height + 1
  {
    TakeAllKeepsHeight(r, config.maxBlockBytes, s, es);
    SealAdvances(r, config, TakeAll(r, config.maxBlockBytes, s, es).acc, ctx.proposer, ctx.height);
  }

  /** A production run of n blocks ends n heights higher. */
  lemma {:induction false} RunAdvances(r: Rules, config: Config, s: State, batches: seq<Batch>)
    requires KeepsHeight(r)
    ensures StateAfter(r, config, s, batches).height == s.height + |batches|
  {
    if batches != [] {
      var front, last := batches[..|batches| - 1], batches[|batches| - 1];
      RunAdvances(r, config, s, front);
      BlockAdvances(r, config, StateAfter(r, config, s, front), last.pending, last.ctx);
    }
  }

  // ----- Balances -----

  /** The per-block updates leave balances alone and neither open nor close accounts. */
  ghost predicate KeepsBalances(r: Rules) {
    (forall s, g :: SameBalances(s, r.aimd(s, g))) && (forall s, h :: SameBalances(s, r.tallies(s, h))) &&
    (forall s, h :: SameBalances(s, r.unbond(s, h).0)) && (forall s, h :: SameBalances(s, r.rotateKeys(s, h))) &&
    forall s :: SameBalances(s, r.activateKeys(s))
  }

  ghost predicate SameBalances(s: State, t: State) {
    t.accounts.Keys == s.accounts.Keys && forall a :: a in s.accounts ==> t.accounts[a].balance == s.accounts[a].balance
  }

  lemma SameTotal(s: State, t: State)
    requires SameBalances(s, t)
    ensures Total(t) == Total(s)
  {
    assert Balances(t.accounts) == Balances(s.accounts);
  }

  /** The bonds due to one address. */
  function BondsOf(exited: seq<(Address, nat)>, a: Address): nat {
    if exited == [] then 0 else BondsOf(exited[..|exited| - 1], a) + if exited[|exited| - 1].0 == a then exited[|exited| - 1].1 else 0
  }

  function BondSum(exited: seq<(Address, nat)>): nat {
    if exited == [] then 0 else BondSum(exited[..|exited| - 1]) + exited[|exited| - 1].1
  }

  /** Every exited operator with an account gets back exactly its bonds, and no account is opened. */
  lemma {:induction false} BondsReturned(s: State, exited: seq<(Address, nat)>, a: Address)
    requires Total(s) + BondSum(exited) <= U128_MAX
    ensures var t := CreditBonds(s, exited);
            && t.accounts.Keys == s.accounts.Keys && Total(t) <= Total(s) + BondSum(exited)
            && (a in s.accounts ==> t.accounts[a].balance == s.accounts[a].balance + BondsOf(exited, a))
  {
    if exited != [] {
      var front, last := exited[..|exited| - 1], exited[|exited| - 1];
      BondsReturned(s, front, a);
      BondReturned(CreditBonds(s, front), last.0, last.1, a, Total(s) + BondSum(front));
    }
  }

  lemma BondReturned(s: State, to: Address, bond: nat, a: Address, most: nat)
    requires Total(s) <= most && most + bond <= U128_MAX
    ensures var t := CreditBonds(s, [(to, bond)]);
            && t.accounts.Keys == s.accounts.Keys && Total(t) <= most + bond
            && (a in s.accounts ==> t.accounts[a].balance == s.accounts[a].balance + if a == to then bond else 0)
  {
    assert [(to, bond)][..0] == [];
    if to in s.accounts {
      TotalUpdate(s, to, s.accounts[to].(balance := s.accounts[to].balance + bond));
    }
  }

  /** The accounts once the fees are paid out: to the active validators if there are any, else to the configured pool. */
  function PaidOut(r: Rules, config: Config, acc: Acc, proposer: seq<Byte>): State {
    var active := r.activeValidators(acc.state);
    Distribute(acc.state, BeValue(proposer), acc.fees, if active != [] then active else config.validatorPool, config.shareBps)
  }

  /**
   * For rules whose updates leave balances alone, the end of a block adds to an
   * account exactly what the fee distribution pays it and the bonds it gets back.
   */
  lemma SealPays(r: Rules, config: Config, acc: Acc, proposer: seq<Byte>, height: nat, a: Address)
    requires KeepsBalances(r)
    requires var paid := PaidOut(r, config, acc, proposer); Total(paid) + BondSum(Exited(r, paid, acc.gas, height)) <= U128_MAX
    ensures var paid := PaidOut(r, config, acc, proposer);
            BalanceOf(Seal(r, config, acc, proposer, height), a) ==
            BalanceOf(paid, a) + if a in paid.accounts then BondsOf(Exited(r, paid, acc.gas, height), a) else 0
  {
    var paid := PaidOut(r, config, acc, proposer);
    var tallied := r.tallies(r.aimd(paid, acc.gas), height);
    var (unbonded, exited) := r.unbond(tallied, height);
    SameTotal(paid, r.aimd(paid, acc.gas));
    SameTotal(r.aimd(paid, acc.gas), tallied);
    SameTotal(tallied, unbonded);
    BondsReturned(unbonded, exited, a);
    var credited := CreditBonds(unbonded, exited);
    assert SameBalances(credited, r.rotateKeys(credited, height));
  }

  /** Replay pays out the same, and nothing for a proposer that is no address. */
  lemma ReplaySealPays(r: Rules, config: Config, acc: Acc, proposer: seq<Byte>, height: nat, a: Address)
    requires KeepsBalances(r)
    requires var paid := if |proposer| == 32 then PaidOut(r, config, acc, proposer) else acc.state;
             Total(paid) + BondSum(Exited(r, paid, acc.gas, height)) <= U128_MAX
    ensures var paid := if |proposer| == 32 then PaidOut(r, config, acc, proposer) else acc.state;
            BalanceOf(ReplaySeal(r, config, acc, proposer, height), a) ==
            BalanceOf(paid, a) + if a in paid.accounts then BondsOf(Exited(r, paid, acc.gas, height), a) else 0
  {
    if |proposer| == 32 {
      SealPays(r, config, acc, proposer, height, a);
    } else {
      assert PaidOut(r, config, acc.(fees := 0), proposer) == acc.state;
      SealPays(r, config, acc.(fees := 0), proposer, height, a);
    }
  }

  /** The operators whose unbonding ends with this block, with their bonds. */
  function Exited(r: Rules, paid: State, gas: nat, height: nat): seq<(Address, nat)> {
    r.unbond(r.tallies(r.aimd(paid, gas), height), height).1
  }

  // ----- Steps -----

  type Log = (nat, nat, nat, nat) -> nat

  /** Rules whose steps do nothing but log: which step it is, what it is given, and at which height it runs. */
  function Logging(log: Log, exited: seq<(Address, nat)>): Rules {
    Rules(tx => Ok(0), (s: State, tx) => Ok(s), (s, alg) => 0, (tx, length, gas, base, min) => 0, tx => None, s => [],
          (s: State, gas: nat) => s.(rest := log(s.rest, 1, gas, s.height)),
          (s: State, h: nat) => s.(rest := log(s.rest, 2, h, s.height)),
          (s: State, h: nat) => (s.(rest := log(s.rest, 3, h, s.height)), exited),
          (s: State, h: nat) => s.(rest := log(s.rest, 4, h, s.height)),
          (s: State) => s.(rest := log(s.rest, 5, 0, s.height)),
          (s: State, h: nat) => s.(rest := log(s.rest, 6, h, s.height)), (s: State) => s.rest, hashes => 0)
  }

  /**
   * Whatever the log: a block ends with the fee update, the tallies, the unbonding,
   * the rotations, all at the old height, then the activations at the new one, and
   * at an epoch boundary the transitions.
   */
  lemma StepsInOrder(log: Log, exited: seq<(Address, nat)>, config: Config, acc: Acc, proposer: seq<Byte>, height: nat)
    ensures var before, h := acc.state.rest, acc.state.height;
            var sealed := Seal(Logging(log, exited), config, acc, proposer, height);
            && sealed.rest == log(log(log(log(log(before, 1, acc.gas, h), 2, height, h), 3, height, h), 4, height, h), 5, 0, h + 1)
            && sealed.height == h + 1
            && AfterEpoch(Logging(log, exited), config, sealed, height).rest ==
               if height > 0 && config.epochDuration > 0 && (exists k: nat :: height == Times(k, config.epochDuration))
               then log(sealed.rest, 6, height, h + 1) else sealed.rest
  {
    var r := Logging(log, exited);
    var pool := FeePool(r, config, acc.state);
    var paid := Distribute(acc.state, BeValue(proposer), acc.fees, pool, config.shareBps);
    DistributeKeepsRest(acc.state, BeValue(proposer), acc.fees, pool, config.shareBps);
    DistributeKeepsHeight(acc.state, BeValue(proposer), acc.fees, pool, config.shareBps);
    var (unbonded, _) := r.unbond(r.tallies(r.aimd(paid, acc.gas), height), height);
    BondsKeepHeight(unbonded, exited);
    BondsKeepRest(unbonded, exited);
    BoundaryIff(height, config.epochDuration);
  }

  lemma {:induction false} BondsKeepRest(s: State, exited: seq<(Address, nat)>)
    ensures CreditBonds(s, exited).rest == s.rest
  {
    if exited != [] {
      BondsKeepRest(s, exited[..|exited| - 1]);
    }
  }

  function Times(k: nat, n: nat): nat {
    k * n
  }

  /** The epoch boundaries are the positive multiples of the duration. */
  lemma BoundaryIff(height: nat, duration: nat)
    ensures IsEpochBoundary(height, duration) <==>
            height > 0 && duration > 0 && exists k: nat :: height == Times(k, duration)
  {
    if duration > 0 {
      if IsEpochBoundary(height, duration) {
        assert height == Times(height / duration, duration);
      }
      if k: nat :| height == Times(k, duration) {
        MultipleHasNoRest(k, duration);
      }
    }
  }

  lemma MultipleHasNoRest(k: nat, n: nat)
    requires n > 0
    ensures Times(k, n) % n == 0
  {
    var x := Times(k, n);
    assert n * k == x && n * (k + 1) == x + n;
    FloorIs(k, n, x);
    assert x == n * (x / n) + x % n;
  }
}

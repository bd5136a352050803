/**
 * Accounts, fee settlement and fee distribution. `State` is a value of the
 * state store; what it holds besides accounts, height and fee market is opaque.
 */
module Ledger {
  import opened Prelude
  import opened Sums
  import opened Blocks

  const BPS: nat := 10_000
  const ZERO_ADDRESS: Address := 0
  const EMPTY_KEYS: nat := 0

  datatype Account = Account(balance: nat, nonce: nat, keys: nat)

  datatype State = State(
    accounts: map<Address, Account>, baseFeeDynamic: nat, burnRateBps: nat, height: nat, rest: nat)

  datatype ApplyError = InsufficientFunds | Rejected(code: nat)

  function SatAdd(a: nat, b: nat, max: nat): nat {
    if a + b <= max then a + b else max
  }

  // ----- The total supply -----

  ghost function Balances(accounts: map<Address, Account>): map<nat, nat> {
    map a | a in accounts :: accounts[a].balance
  }

  ghost function Total(s: State): nat {
    Sum(Balances(s.accounts), Balances(s.accounts).Keys)
  }

  function BalanceOf(s: State, a: Address): nat {
    if a in s.accounts then s.accounts[a].balance else 0
  }

  /** Setting an account shifts the supply by the change of its balance. */
  lemma TotalUpdate(s: State, a: Address, acc: Account)
    ensures Total(s.(accounts := s.accounts[a := acc])) == Total(s) - BalanceOf(s, a) + acc.balance
    ensures BalanceOf(s, a) <= Total(s)
  {
    assert Balances(s.accounts[a := acc]) == Balances(s.accounts)[a := acc.balance];
    SumUpdate(Balances(s.accounts), a, acc.balance);
  }

  // ----- Crediting and settling -----

  function Credit(s: State, a: Address, amount: nat): State {
    if amount == 0 then s
    else if a in s.accounts then
      s.(accounts := s.accounts[a := s.accounts[a].(balance := SatAdd(s.accounts[a].balance, amount, U128_MAX))])
    else s.(accounts := s.accounts[a := Account(amount, 0, EMPTY_KEYS)])
  }

  lemma CreditTotal(s: State, a: Address, amount: nat)
    requires Total(s) + amount <= U128_MAX
    ensures Total(Credit(s, a, amount)) == Total(s) + amount
    ensures BalanceOf(Credit(s, a, amount), a) == BalanceOf(s, a) + amount
  {
    if amount > 0 {
      TotalUpdate(s, a, Account(0, 0, 0));
      var c := Credit(s, a, amount).accounts[a];
      TotalUpdate(s, a, c);
    }
  }

  /** One equal credit per listed address, repeated addresses included. */
  function CreditAll(s: State, pool: seq<Address>, amount: nat): State {
    if pool == [] then s
    else Credit(CreditAll(s, pool[..|pool| - 1], amount), pool[|pool| - 1], amount)
  }

  lemma {:induction false} CreditAllTotal(s: State, pool: seq<Address>, amount: nat)
    requires Total(s) + amount * |pool| <= U128_MAX
    ensures Total(CreditAll(s, pool, amount)) == Total(s) + amount * |pool|
  {
    if pool != [] {
      var front := pool[..|pool| - 1];
      assert amount * |pool| == amount * |front| + amount;
      CreditAllTotal(s, front, amount);
      CreditTotal(CreditAll(s, front, amount), pool[|pool| - 1], amount);
    }
  }

  /** Debits fee and tip and counts the nonce, or fails without effect. */
  function Settle(s: State, tx: Transaction, fee: nat): Result<State, ApplyError> {
    if tx.sender !in s.accounts || s.accounts[tx.sender].balance < fee + tx.feeTip then Err(InsufficientFunds)
    else
      var acc := s.accounts[tx.sender];
      Ok(s.(accounts := s.accounts[tx.sender := acc.(balance := acc.balance - (fee + tx.feeTip), nonce := acc.nonce + 1)]))
  }

  /** Settlement counts one nonce of the sender and leaves every other account as it is. */
  lemma SettleOnlySender(s: State, tx: Transaction, fee: nat, a: Address)
    requires Settle(s, tx, fee).Ok? && a in s.accounts
    ensures var t := Settle(s, tx, fee).value;
            a in t.accounts && if a == tx.sender then t.accounts[a].nonce == s.accounts[a].nonce + 1 else t.accounts[a] == s.accounts[a]
  {
  }

  lemma SettleTotal(s: State, tx: Transaction, fee: nat)
    requires Settle(s, tx, fee).Ok?
    ensures Total(Settle(s, tx, fee).value) + fee + tx.feeTip == Total(s)
  {
    TotalUpdate(s, tx.sender, Settle(s, tx, fee).value.accounts[tx.sender]);
  }

  // ----- Distribution -----

  /** A share of an amount in basis points, with the product saturating at 128 bits. */
  function ShareOf(amount: nat, bps: nat): nat {
    (if amount * bps <= U128_MAX then amount * bps else U128_MAX) / BPS
  }

  lemma ShareWithin(amount: nat, bps: nat)
    requires bps <= BPS
    ensures ShareOf(amount, bps) <= amount
  {
    MulMono(amount, bps, BPS);
  }

  /** `q` is `x / d` rounded down, said without division. */
  predicate IsFloor(q: nat, d: nat, x: nat) {
    d * q <= x < d * (q + 1)
  }

  lemma FloorIs(q: nat, d: nat, x: nat)
    requires d > 0
    ensures IsFloor(q, d, x) <==> q == x / d
  {
    var f := x / d;
    assert d * f <= x < d * (f + 1) by {
      assert x == d * f + x % d;
      assert d * (f + 1) == d * f + d;
    }
    if q < f {
      MulMono(d, q + 1, f);
    } else if f < q {
      MulMono(d, f + 1, q);
    }
  }

  /** A share is the exact fraction rounded down, or what the largest product gives. */
  lemma ShareIs(amount: nat, bps: nat)
    ensures IsFloor(ShareOf(amount, bps), BPS, if amount * bps <= U128_MAX then amount * bps else U128_MAX)
  {
    FloorIs(ShareOf(amount, bps), BPS, if amount * bps <= U128_MAX then amount * bps else U128_MAX);
  }

  /** The burn follows the burn rate, and the proposer's priority the configured share, up to all of the fees. */
  lemma PartsFollowRates(s: State, fees: nat, shareBps: nat)
    ensures fees * s.burnRateBps <= U128_MAX ==> IsFloor(Burned(s, fees), BPS, fees * s.burnRateBps)
    ensures fees * Min(shareBps, BPS) <= U128_MAX ==> IsFloor(Priority(fees, shareBps), BPS, fees * Min(shareBps, BPS))
  {
    ShareIs(fees, s.burnRateBps);
    ShareIs(fees, Min(shareBps, BPS));
  }

  lemma MulMono(a: nat, b: nat, c: nat)
    requires b <= c
    ensures a * b <= a * c
  {
  }

  function Burned(s: State, fees: nat): nat {
    ShareOf(fees, s.burnRateBps)
  }

  /** What each pool member gets, and what the proposer gets with the rounding remainder. */
  function PerValidator(fees: nat, count: nat, shareBps: nat): nat
    requires count > 0
  {
    (fees - Priority(fees, shareBps)) / count
  }

  function Priority(fees: nat, shareBps: nat): (r: nat)
    ensures r <= fees
  {
    ShareWithin(fees, Min(shareBps, BPS));
    ShareOf(fees, Min(shareBps, BPS))
  }

  function Remainder(fees: nat, count: nat, shareBps: nat): (r: nat)
    requires count > 0
    ensures Priority(fees, shareBps) + r + PerValidator(fees, count, shareBps) * count == fees
  {
    (fees - Priority(fees, shareBps)) % count
  }

  /** The burn to the zero address, then proposer and pool. */
  function Distribute(s: State, proposer: Address, fees: nat, pool: seq<Address>, shareBps: nat): State {
    if fees == 0 then s
    else
      var burned := Burned(s, fees);
      var t := Credit(s, ZERO_ADDRESS, burned);
      if fees <= burned then t
      else if pool == [] then Credit(t, proposer, fees - burned)
      else
        var rest := fees - burned;
        CreditAll(Credit(t, proposer, Priority(rest, shareBps) + Remainder(rest, |pool|, shareBps)),
                  pool, PerValidator(rest, |pool|, shareBps))
  }

  /** Every fee is credited exactly once, unless the burn alone exceeds the fees. */
  lemma DistributeTotal(s: State, proposer: Address, fees: nat, pool: seq<Address>, shareBps: nat)
    requires Total(s) + fees <= U128_MAX && Total(s) + Burned(s, fees) <= U128_MAX
    ensures Total(Distribute(s, proposer, fees, pool, shareBps)) ==
            Total(s) + if Burned(s, fees) <= fees then fees else Burned(s, fees)
  {
    var burned := Burned(s, fees);
    if fees > 0 {
      CreditTotal(s, ZERO_ADDRESS, burned);
      if burned < fees {
        ShareOut(Credit(s, ZERO_ADDRESS, burned), proposer, fees - burned, pool, shareBps);
      }
    }
  }

  lemma ShareOut(t: State, proposer: Address, rest: nat, pool: seq<Address>, shareBps: nat)
    requires Total(t) + rest <= U128_MAX
    ensures Total(Credit(t, proposer, rest)) == Total(t) + rest
    ensures pool != [] ==>
              Total(CreditAll(Credit(t, proposer, Priority(rest, shareBps) + Remainder(rest, |pool|, shareBps)),
                              pool, PerValidator(rest, |pool|, shareBps))) == Total(t) + rest
  {
    CreditTotal(t, proposer, rest);
    if pool != [] {
      var own := Priority(rest, shareBps) + Remainder(rest, |pool|, shareBps);
      var each := PerValidator(rest, |pool|, shareBps);
      assert own + each * |pool| == rest;
      CreditTotal(t, proposer, own);
      CreditAllTotal(Credit(t, proposer, own), pool, each);
    }
  }

  /** Fees are conserved exactly if the burn does not exceed them, as it never does up to 10,000 basis points. */
  lemma FeesConservedIff(s: State, proposer: Address, fees: nat, pool: seq<Address>, shareBps: nat)
    requires Total(s) + fees <= U128_MAX && Total(s) + Burned(s, fees) <= U128_MAX
    ensures Total(Distribute(s, proposer, fees, pool, shareBps)) == Total(s) + fees <==> Burned(s, fees) <= fees
    ensures s.burnRateBps <= BPS ==> Burned(s, fees) <= fees
  {
    DistributeTotal(s, proposer, fees, pool, shareBps);
    if s.burnRateBps <= BPS {
      ShareWithin(fees, s.burnRateBps);
    }
  }

  /** One share for each time an address is listed. */
  function Shares(pool: seq<Address>, amount: nat, a: Address): nat {
    if pool == [] then 0
    else Shares(pool[..|pool| - 1], amount, a) + if pool[|pool| - 1] == a then amount else 0
  }

  lemma CreditBalance(s: State, to: Address, amount: nat, a: Address)
    requires Total(s) + amount <= U128_MAX
    ensures BalanceOf(Credit(s, to, amount), a) == BalanceOf(s, a) + if a == to then amount else 0
    ensures Total(Credit(s, to, amount)) == Total(s) + amount
  {
    CreditTotal(s, to, amount);
  }

  lemma {:induction false} CreditAllShares(s: State, pool: seq<Address>, amount: nat, a: Address)
    requires Total(s) + amount * |pool| <= U128_MAX
    ensures BalanceOf(CreditAll(s, pool, amount), a) == BalanceOf(s, a) + Shares(pool, amount, a)
  {
    if pool != [] {
      var front := pool[..|pool| - 1];
      assert amount * |pool| == amount * |front| + amount;
      CreditAllTotal(s, front, amount);
      CreditAllShares(s, front, amount, a);
      CreditBalance(CreditAll(s, front, amount), pool[|pool| - 1], amount, a);
    }
  }

  /** What an address receives of the fees left after the burn. */
  function Received(proposer: Address, rest: nat, pool: seq<Address>, shareBps: nat, a: Address): nat {
    if pool == [] then if a == proposer then rest else 0
    else
      (if a == proposer then Priority(rest, shareBps) + Remainder(rest, |pool|, shareBps) else 0) +
      Shares(pool, PerValidator(rest, |pool|, shareBps), a)
  }

  /** Each balance grows by exactly the burn, the proposer's part and the pool shares due to its address, whatever roles coincide. */
  lemma DistributeShares(s: State, proposer: Address, fees: nat, pool: seq<Address>, shareBps: nat, a: Address)
    requires Total(s) + fees <= U128_MAX && Total(s) + Burned(s, fees) <= U128_MAX
    ensures var burned := Burned(s, fees);
            BalanceOf(Distribute(s, proposer, fees, pool, shareBps), a) ==
            BalanceOf(s, a) + (if a == ZERO_ADDRESS then burned else 0)
            + if burned < fees then Received(proposer, fees - burned, pool, shareBps, a) else 0
  {
    var burned := Burned(s, fees);
    CreditBalance(s, ZERO_ADDRESS, burned, a);
    if burned < fees {
      ReceivedFrom(Credit(s, ZERO_ADDRESS, burned), proposer, fees - burned, pool, shareBps, a);
    } else if fees == 0 {
      assert fees * s.burnRateBps == 0;
    }
  }

  lemma ReceivedFrom(t: State, proposer: Address, rest: nat, pool: seq<Address>, shareBps: nat, a: Address)
    requires Total(t) + rest <= U128_MAX
    ensures pool == [] ==> BalanceOf(Credit(t, proposer, rest), a) == BalanceOf(t, a) + Received(proposer, rest, pool, shareBps, a)
    ensures pool != [] ==>
              BalanceOf(CreditAll(Credit(t, proposer, Priority(rest, shareBps) + Remainder(rest, |pool|, shareBps)),
                                  pool, PerValidator(rest, |pool|, shareBps)), a)
              == BalanceOf(t, a) + Received(proposer, rest, pool, shareBps, a)
  {
    if pool == [] {
      CreditBalance(t, proposer, rest, a);
    } else {
      var own := Priority(rest, shareBps) + Remainder(rest, |pool|, shareBps);
      var each := PerValidator(rest, |pool|, shareBps);
      assert own + each * |pool| == rest;
      CreditBalance(t, proposer, own, a);
      CreditAllShares(Credit(t, proposer, own), pool, each, a);
    }
  }

  lemma {:induction false} SharesCount(pool: seq<Address>, amount: nat, a: Address)
    ensures Shares(pool, amount, a) == amount * multiset(pool)[a]
  {
    if pool != [] {
      var front: seq<Address> := pool[..|pool| - 1];
      SharesCount(front, amount, a);
      assert pool == front + [pool[|pool| - 1]];
      OneShareMore(amount, multiset(front)[a], multiset(pool)[a], pool[|pool| - 1] == a);
    }
  }

  lemma OneShareMore(amount: nat, times: nat, times': nat, more: bool)
    requires times' == times + if more then 1 else 0
    ensures amount * times' == amount * times + if more then amount else 0
  {
  }

  /** The three amounts of a distribution, each fixed by its rate alone. */
  ghost predicate IsSplit(s: State, fees: nat, count: nat, shareBps: nat, burned: nat, own: nat, each: nat) {
    IsFloor(burned, BPS, fees * s.burnRateBps) && burned < fees && count > 0 &&
    IsFloor(own, BPS, (fees - burned) * Min(shareBps, BPS)) && own <= fees - burned && IsFloor(each, count, fees - burned - own)
  }

  /**
   * What a distribution pays: the burn rate's part of the fees to the zero address,
   * an equal part of what the proposer's share leaves to each pool entry, and the
   * rest to the proposer, added up for addresses in several roles.
   */
  lemma DistributePays(s: State, proposer: Address, fees: nat, pool: seq<Address>, shareBps: nat, a: Address,
                       burned: nat, own: nat, each: nat)
    requires Total(s) + fees <= U128_MAX && fees * s.burnRateBps <= U128_MAX && fees * Min(shareBps, BPS) <= U128_MAX
    requires IsSplit(s, fees, |pool|, shareBps, burned, own, each)
    ensures |pool| * each <= fees - burned
    ensures BalanceOf(Distribute(s, proposer, fees, pool, shareBps), a) ==
            BalanceOf(s, a) + (if a == ZERO_ADDRESS then burned else 0)
            + (if a == proposer then fees - burned - |pool| * each else 0) + each * multiset(pool)[a]
  {
    var rest := fees - burned;
    SplitIs(s, fees, |pool|, shareBps, burned, own, each);
    DistributeShares(s, proposer, fees, pool, shareBps, a);
    SharesCount(pool, each, a);
  }

  /** Without a pool the proposer gets all that is not burned, and nobody else anything if the burn takes it all. */
  lemma DistributePaysAlone(s: State, proposer: Address, fees: nat, pool: seq<Address>, shareBps: nat, a: Address, burned: nat)
    requires Total(s) + fees <= U128_MAX && Total(s) + burned <= U128_MAX && fees * s.burnRateBps <= U128_MAX
    requires IsFloor(burned, BPS, fees * s.burnRateBps) && (pool == [] || fees <= burned)
    ensures BalanceOf(Distribute(s, proposer, fees, pool, shareBps), a) ==
            BalanceOf(s, a) + (if a == ZERO_ADDRESS then burned else 0)
            + (if a == proposer && burned < fees then fees - burned else 0)
  {
    FloorIs(burned, BPS, fees * s.burnRateBps);
    DistributeShares(s, proposer, fees, pool, shareBps, a);
  }

  lemma SplitIs(s: State, fees: nat, count: nat, shareBps: nat, burned: nat, own: nat, each: nat)
    requires IsSplit(s, fees, count, shareBps, burned, own, each)
    requires fees * s.burnRateBps <= U128_MAX && fees * Min(shareBps, BPS) <= U128_MAX
    ensures burned == Burned(s, fees) && own == Priority(fees - burned, shareBps) && each == PerValidator(fees - burned, count, shareBps)
    ensures own + Remainder(fees - burned, count, shareBps) == fees - burned - count * each && count * each <= fees - burned
  {
    FloorIs(burned, BPS, fees * s.burnRateBps);
    MulMono(Min(shareBps, BPS), fees - burned, fees);
    FloorIs(own, BPS, (fees - burned) * Min(shareBps, BPS));
    FloorIs(each, count, fees - burned - own);
  }

  /** Of 1000 in fees at a share of a fifth the proposer gets 200, and each of two others 400. */
  lemma FifthToProposer(s: State)
    requires s == State(map[], 0, 0, 0, 0)
    ensures var t := Distribute(s, 9, 1000, [5, 6], 2000); BalanceOf(t, 9) == 200 && BalanceOf(t, 5) == 400 == BalanceOf(t, 6)
  {
    assert Total(s) == 0;
    assert multiset([5, 6])[9] == 0 && multiset([5, 6])[5] == 1 && multiset([5, 6])[6] == 1;
    DistributePays(s, 9, 1000, [5, 6], 2000, 9, 0, 200, 400);
    DistributePays(s, 9, 1000, [5, 6], 2000, 5, 0, 200, 400);
    DistributePays(s, 9, 1000, [5, 6], 2000, 6, 0, 200, 400);
  }

  /** A rate above 10,000 creates tokens. */
  lemma ExcessBurnInflates() returns (s: State)
    ensures s.burnRateBps == 20_000 && Total(Distribute(s, 1, 10, [], 0)) == Total(s) + 20
  {
    s := State(map[], 0, 20_000, 0, 0);
    DistributeTotal(s, 1, 10, [], 0);
  }
}

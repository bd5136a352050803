/** Transaction execution, on values and as the state store's methods. */
module Execution {
  import opened Prelude
  import opened Blocks
  import opened Ledger

  datatype Encoding = Encoding(length: nat, hash: TxHash)

  /** The deterministic steps whose code is outside the model. */
  datatype Rules = Rules(
    scheduledGas: Transaction -> Result<nat, ApplyError>,
    payload: (State, Transaction) -> Result<State, ApplyError>,
    algMinFee: (State, nat) -> nat,
    actualFee: (Transaction, nat, nat, nat, nat) -> nat,
    encode: Transaction -> Option<Encoding>,
    activeValidators: State -> seq<Address>,
    aimd: (State, nat) -> State,
    tallies: (State, nat) -> State,
    unbond: (State, nat) -> (State, seq<(Address, nat)>),
    rotateKeys: (State, nat) -> State,
    activateKeys: State -> State,
    epochTransitions: (State, nat) -> State,
    stateRoot: State -> Root,
    txRoot: seq<TxHash> -> Root)

  /** Payloads leave the adaptive base fee alone. */
  ghost predicate KeepsBaseFee(r: Rules) {
    forall s, tx :: r.payload(s, tx).Ok? ==> r.payload(s, tx).value.baseFeeDynamic == s.baseFeeDynamic
  }

  /** Payloads leave the nonces of existing accounts alone. */
  ghost predicate KeepsNonces(r: Rules) {
    forall s, tx, a :: r.payload(s, tx).Ok? && a in s.accounts ==> NonceOf(r.payload(s, tx).value, a) == NonceOf(s, a)
  }

  function NonceOf(s: State, a: Address): Option<nat> {
    if a in s.accounts then Some(s.accounts[a].nonce) else None
  }

  datatype Outcome = Outcome(outOfGas: bool, gasUsed: nat, feeCharged: nat, feeRefund: nat)

  datatype Applied = Applied(state: State, outcome: Outcome)

  /** The effect of a transaction, or an error and no effect. */
  function Apply(r: Rules, s: State, tx: Transaction, length: nat, baseFee: nat): Result<Applied, ApplyError> {
    var gas := r.scheduledGas(tx);
    if gas.Err? then Err(gas.error)
    else if tx.gasLimit < gas.value then
      var settled := Settle(s, tx, tx.fee);
      if settled.Err? then Err(settled.error)
      else Ok(Applied(settled.value, Outcome(true, tx.gasLimit, tx.fee, 0)))
    else
      var paid := r.payload(s, tx);
      if paid.Err? then Err(paid.error)
      else
        var fee := r.actualFee(tx, length, gas.value, baseFee, r.algMinFee(s, tx.sigAlg));
        var settled := Settle(paid.value, tx, fee);
        if settled.Err? then Err(settled.error)
        else Ok(Applied(settled.value, Outcome(false, gas.value, fee, if fee <= tx.fee then tx.fee - fee else 0)))
  }

  predicate OutOfGas(r: Rules, tx: Transaction) {
    r.scheduledGas(tx).Ok? && tx.gasLimit < r.scheduledGas(tx).value
  }

  /** What the payload adds to the balances: a registration takes its bond out, a slashing pays a bond in. */
  ghost function Shift(r: Rules, s: State, tx: Transaction): int {
    if OutOfGas(r, tx) || r.payload(s, tx).Err? then 0 else Total(r.payload(s, tx).value) - Total(s)
  }

  /** Beside what its payload moves, an applied transaction takes exactly its charged fee and its tip out of the balances. */
  lemma ApplyTotal(r: Rules, s: State, tx: Transaction, length: nat, baseFee: nat)
    requires Apply(r, s, tx, length, baseFee).Ok?
    ensures var a := Apply(r, s, tx, length, baseFee).value;
            Total(a.state) + a.outcome.feeCharged + tx.feeTip == Total(s) + Shift(r, s, tx)
  {
    var gas := r.scheduledGas(tx).value;
    if tx.gasLimit < gas {
      SettleTotal(s, tx, tx.fee);
    } else {
      SettleTotal(r.payload(s, tx).value, tx, Apply(r, s, tx, length, baseFee).value.outcome.feeCharged);
    }
  }

  /** The sender's account covers a fee and the tip. */
  predicate CanPay(s: State, tx: Transaction, fee: nat) {
    tx.sender in s.accounts && s.accounts[tx.sender].balance >= fee + tx.feeTip
  }

  /** A transaction applies exactly if its gas is scheduled, its payload succeeds or it is out of gas, and the sender can pay. */
  lemma AppliesIff(r: Rules, s: State, tx: Transaction, length: nat, baseFee: nat)
    ensures Apply(r, s, tx, length, baseFee).Ok? <==>
            r.scheduledGas(tx).Ok? &&
            if OutOfGas(r, tx) then CanPay(s, tx, tx.fee)
            else
              r.payload(s, tx).Ok? &&
              CanPay(r.payload(s, tx).value, tx, r.actualFee(tx, length, r.scheduledGas(tx).value, baseFee, r.algMinFee(s, tx.sigAlg)))
  {
  }

  /**
   * Out of gas: the whole offered fee and the tip leave the sender, who gets no
   * refund and pays for the whole gas limit, and nothing else changes but the nonce.
   */
  lemma OutOfGasTakesAll(r: Rules, s: State, tx: Transaction, length: nat, baseFee: nat, a: Address)
    requires OutOfGas(r, tx) && Apply(r, s, tx, length, baseFee).Ok?
    ensures var d := Apply(r, s, tx, length, baseFee).value;
            && d.outcome == Outcome(true, tx.gasLimit, tx.fee, 0)
            && BalanceOf(d.state, a) == BalanceOf(s, a) - (if a == tx.sender then tx.fee + tx.feeTip else 0)
            && d.state == s.(accounts := d.state.accounts) && d.state.accounts.Keys == s.accounts.Keys
  {
    var t := Apply(r, s, tx, length, baseFee).value.state;
    assert t.accounts.Keys == s.accounts.Keys;
  }

  /** Within the gas limit: the actual fee is charged for the scheduled gas, and what was offered beyond it is the refund. */
  lemma InGasTakesActual(r: Rules, s: State, tx: Transaction, length: nat, baseFee: nat, a: Address)
    requires !OutOfGas(r, tx) && Apply(r, s, tx, length, baseFee).Ok?
    ensures var d, paid := Apply(r, s, tx, length, baseFee).value, r.payload(s, tx).value;
            var fee := r.actualFee(tx, length, r.scheduledGas(tx).value, baseFee, r.algMinFee(s, tx.sigAlg));
            && !d.outcome.outOfGas && d.outcome.gasUsed == r.scheduledGas(tx).value && d.outcome.feeCharged == fee
            && (fee <= tx.fee ==> d.outcome.feeCharged + d.outcome.feeRefund == tx.fee) && (fee > tx.fee ==> d.outcome.feeRefund == 0)
            && BalanceOf(d.state, a) == BalanceOf(paid, a) - (if a == tx.sender then fee + tx.feeTip else 0)
            && d.state == paid.(accounts := d.state.accounts)
  {
  }

  lemma ApplyKeepsBaseFee(r: Rules, s: State, tx: Transaction, length: nat, baseFee: nat)
    requires KeepsBaseFee(r) && Apply(r, s, tx, length, baseFee).Ok?
    ensures Apply(r, s, tx, length, baseFee).value.state.baseFeeDynamic == s.baseFeeDynamic
  {
    assert tx.gasLimit >= r.scheduledGas(tx).value ==> r.payload(s, tx).value.baseFeeDynamic == s.baseFeeDynamic;
  }

  /** An applied transaction counts one nonce of its sender and no other. */
  lemma ApplyNonce(r: Rules, s: State, tx: Transaction, length: nat, baseFee: nat, a: Address)
    requires KeepsNonces(r) && Apply(r, s, tx, length, baseFee).Ok? && a in s.accounts
    ensures NonceOf(Apply(r, s, tx, length, baseFee).value.state, a) == Some(s.accounts[a].nonce + if a == tx.sender then 1 else 0)
  {
    var fee := Apply(r, s, tx, length, baseFee).value.outcome.feeCharged;
    if tx.gasLimit < r.scheduledGas(tx).value {
      SettleOnlySender(s, tx, fee, a);
    } else {
      assert NonceOf(r.payload(s, tx).value, a) == NonceOf(s, a);
      SettleOnlySender(r.payload(s, tx).value, tx, fee, a);
    }
  }

  class StateStore {
    var accounts: map<Address, Account>
    var baseFeeDynamic: nat
    var burnRateBps: nat
    var height: nat
    var rest: nat

    function Value(): State
      reads this
    {
      State(accounts, baseFeeDynamic, burnRateBps, height, rest)
    }

    constructor (s: State)
      ensures Value() == s
    {
      accounts, baseFeeDynamic, burnRateBps, height, rest := s.accounts, s.baseFeeDynamic, s.burnRateBps, s.height, s.rest;
    }

    method Assign(s: State)
      modifies this
      ensures Value() == s
    {
      accounts, baseFeeDynamic, burnRateBps, height, rest := s.accounts, s.baseFeeDynamic, s.burnRateBps, s.height, s.rest;
    }

    method CreditAccount(a: Address, amount: nat)
      modifies this
      ensures Value() == Credit(old(Value()), a, amount)
    {
      if amount == 0 {
        return;
      }
      if a in accounts {
        accounts := accounts[a := accounts[a].(balance := SatAdd(accounts[a].balance, amount, U128_MAX))];
      } else {
        accounts := accounts[a := Account(amount, 0, EMPTY_KEYS)];
      }
    }

    method SettleSender(tx: Transaction, fee: nat) returns (e: Option<ApplyError>)
      modifies this
      ensures e == None <==> Settle(old(Value()), tx, fee).Ok?
      ensures e == None ==> Value() == Settle(old(Value()), tx, fee).value
      ensures e.Some? ==> Settle(old(Value()), tx, fee) == Err(e.value) && unchanged(this)
    {
      var debit := fee + tx.feeTip;
      if tx.sender !in accounts {
        return Some(InsufficientFunds);
      }
      var acc := accounts[tx.sender];
      if acc.balance < debit {
        return Some(InsufficientFunds);
      }
      accounts := accounts[tx.sender := acc.(balance := acc.balance - debit, nonce := acc.nonce + 1)];
      return None;
    }

    method DistributeBlockFees(proposer: Address, fees: nat, pool: seq<Address>, shareBps: nat)
      modifies this
      ensures Value() == Distribute(old(Value()), proposer, fees, pool, shareBps)
    {
      if fees == 0 {
        return;
      }
      var burned := Burned(Value(), fees);
      CreditAccount(ZERO_ADDRESS, burned);
      if fees <= burned {
        return;
      }
      var rest := fees - burned;
      if pool == [] {
        CreditAccount(proposer, rest);
        return;
      }
      var own := Priority(rest, shareBps) + Remainder(rest, |pool|, shareBps);
      var each := PerValidator(rest, |pool|, shareBps);
      CreditAccount(proposer, own);
      CreditPool(pool, each);
    }

    method CreditPool(pool: seq<Address>, amount: nat)
      modifies this
      ensures Value() == CreditAll(old(Value()), pool, amount)
    {
      for i := 0 to |pool|
        invariant Value() == CreditAll(old(Value()), pool[..i], amount)
      {
        assert pool[..i + 1][..i] == pool[..i];
        CreditAccount(pool[i], amount);
      }
      assert pool[..|pool|] == pool;
    }

    /** Works on a copy and commits it only on success, so a failed transaction leaves no trace. */
    method ApplyTx(r: Rules, tx: Transaction, length: nat, baseFee: nat) returns (e: Result<Outcome, ApplyError>)
      modifies this
      ensures e.Ok? <==> Apply(r, old(Value()), tx, length, baseFee).Ok?
      ensures e.Ok? ==> Apply(r, old(Value()), tx, length, baseFee) == Ok(Applied(Value(), e.value))
      ensures e.Err? ==> Apply(r, old(Value()), tx, length, baseFee) == Err(e.error) && Value() == old(Value())
    {
      var gas := r.scheduledGas(tx);
      if gas.Err? {
        return Err(gas.error);
      }
      var minFee := r.algMinFee(Value(), tx.sigAlg);
      if tx.gasLimit < gas.value {
        var failed := SettleSender(tx, tx.fee);
        return if failed.Some? then Err(failed.value) else Ok(Outcome(true, tx.gasLimit, tx.fee, 0));
      }
      var working := new StateStore(Value());
      var paid := r.payload(working.Value(), tx);
      if paid.Err? {
        return Err(paid.error);
      }
      working.Assign(paid.value);
      var fee := r.actualFee(tx, length, gas.value, baseFee, minFee);
      var failed := working.SettleSender(tx, fee);
      if failed.Some? {
        return Err(failed.value);
      }
      Assign(working.Value());
      return Ok(Outcome(false, gas.value, fee, if fee <= tx.fee then tx.fee - fee else 0));
    }
  }
}

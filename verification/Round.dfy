/**
 * The per-height round machine: the vote store with equivocation detection and
 * the propose / prevote / precommit handlers.
 *
 * Each handler appears twice: as a function on values, which the safety proof
 * in `Agreement` reasons about, and as a method of the class that updates its
 * fields, proved to compute that function.
 */
module Round {
  import opened Prelude
  import opened Quorum

  /** A 32-byte block hash, idealised as an unbounded number. */
  type Hash = nat
  type Address = nat

  const NIL_HASH: Hash := 0

  datatype VoteStep = Prevote | Precommit

  /** A vote without its signature bytes, which the machine never reads. */
  datatype Vote = Vote(height: nat, round: nat, step: VoteStep, blockHash: Hash, validator: Address)

  datatype VoteKey = VoteKey(validator: Address, height: nat, round: nat, step: VoteStep)

  datatype Evidence = Evidence(validator: Address, height: nat, round: nat, step: VoteStep, voteA: Vote, voteB: Vote)

  function KeyOf(v: Vote): VoteKey {
    VoteKey(v.validator, v.height, v.round, v.step)
  }

  // ----- Vote store, as a value -----

  datatype Votes = Votes(votes: map<VoteKey, Vote>, equivocations: seq<Evidence>)

  const NO_VOTES := Votes(map[], [])

  /** First vote per key wins; a later vote for another hash becomes evidence. */
  function Recorded(s: Votes, v: Vote): Votes {
    var key := KeyOf(v);
    if key !in s.votes then
      s.(votes := s.votes[key := v])
    else if s.votes[key].blockHash == v.blockHash then
      s
    else
      s.(equivocations := s.equivocations + [Conflict(s.votes[key], v)])
  }

  function Conflict(existing: Vote, v: Vote): Evidence {
    Evidence(v.validator, v.height, v.round, v.step, existing, v)
  }

  predicate Matches(v: Vote, height: nat, round: nat, step: VoteStep, blockHash: Hash) {
    v.height == height && v.round == round && v.step == step && v.blockHash == blockHash
  }

  function Matching(s: Votes, height: nat, round: nat, step: VoteStep, blockHash: Hash): set<VoteKey> {
    set k | k in s.votes && Matches(s.votes[k], height, round, step, blockHash)
  }

  /** Number of recorded votes of one step for one hash. */
  function Count(s: Votes, height: nat, round: nat, step: VoteStep, blockHash: Hash): nat {
    |Matching(s, height, round, step, blockHash)|
  }

  predicate HasPolka(s: Votes, height: nat, round: nat, blockHash: Hash, quorum: nat) {
    blockHash != NIL_HASH && Count(s, height, round, Prevote, blockHash) >= quorum
  }

  predicate HasCommitQuorum(s: Votes, height: nat, round: nat, blockHash: Hash, quorum: nat) {
    blockHash != NIL_HASH && Count(s, height, round, Precommit, blockHash) >= quorum
  }

  // ----- Round machine, as a value -----

  datatype Phase = Propose | PrevotePhase | PrecommitPhase | Decided

  datatype Action =
    | BroadcastPrevote(blockHash: Hash)
    | BroadcastPrecommit(blockHash: Hash)
    | Commit(blockHash: Hash, round: nat)
    | NextRound

  datatype RoundState = RoundState(
    height: nat,
    round: nat,
    phase: Phase,
    validatorCount: nat,
    lockedBlock: Option<Hash>,
    lockedRound: Option<nat>,
    store: Votes)
  {
    function Quorum(): nat {
      QuorumSize(validatorCount)
    }
  }

  datatype Reaction = Reaction(state: RoundState, actions: seq<Action>)

  function NewRound(height: nat, validatorCount: nat): RoundState {
    RoundState(height, 0, Propose, validatorCount, None, None, NO_VOTES)
  }

  function OnProposalReceived(s: RoundState, blockHash: Hash): Reaction {
    if s.phase != Propose then Reaction(s, [])
    else
      var locked := s.lockedBlock.Some? && s.lockedBlock.value != blockHash;
      Reaction(s.(phase := PrevotePhase), [BroadcastPrevote(if locked then NIL_HASH else blockHash)])
  }

  function OnProposeTimeout(s: RoundState): Reaction {
    if s.phase != Propose then Reaction(s, [])
    else Reaction(s.(phase := PrevotePhase), [BroadcastPrevote(NIL_HASH)])
  }

  /** The vote concerns the current height and round and names a block. */
  predicate Relevant(s: RoundState, v: Vote) {
    s.phase != Decided && v.height == s.height && v.round == s.round && v.blockHash != NIL_HASH
  }

  function OnPrevote(s: RoundState, v: Vote): Reaction {
    var t := s.(store := Recorded(s.store, v));
    if Relevant(t, v) && t.phase == PrevotePhase && HasPolka(t.store, t.height, t.round, v.blockHash, t.Quorum()) then
      Reaction(t.(phase := PrecommitPhase, lockedBlock := Some(v.blockHash), lockedRound := Some(t.round)),
               [BroadcastPrecommit(v.blockHash)])
    else
      Reaction(t, [])
  }

  function OnPrevoteTimeout(s: RoundState): Reaction {
    if s.phase != PrevotePhase then Reaction(s, [])
    else Reaction(s.(phase := PrecommitPhase), [BroadcastPrecommit(NIL_HASH)])
  }

  function OnPrecommit(s: RoundState, v: Vote): Reaction {
    var t := s.(store := Recorded(s.store, v));
    if Relevant(t, v) && HasCommitQuorum(t.store, t.height, t.round, v.blockHash, t.Quorum()) then
      Reaction(t.(phase := Decided), [Commit(v.blockHash, t.round)])
    else
      Reaction(t, [])
  }

  /** The round counter is a 32-bit integer with overflow checks: no step leaves the last round. */
  predicate CanAdvance(s: RoundState) {
    s.phase == Decided || s.round < U32_MAX
  }

  function OnPrecommitTimeout(s: RoundState): Reaction
    requires CanAdvance(s)
  {
    if s.phase == Decided then Reaction(s, [])
    else Reaction(s.(round := s.round + 1, phase := Propose), [NextRound])
  }

  /**
   * What `committed_block_hash` may answer, over all iteration orders of the
   * vote map: a hash with a commit quorum in the least round that has one.
   */
  ghost predicate CommittedAnswer(s: RoundState, r: Option<Hash>) {
    match r
    case Some(b) =>
      s.phase == Decided &&
      exists round: nat :: round <= s.round && QuorumAt(s, round, b) && NoQuorumBefore(s, round)
    case None =>
      s.phase == Decided ==> NoQuorumBefore(s, s.round + 1)
  }

  predicate QuorumAt(s: RoundState, round: nat, b: Hash) {
    HasCommitQuorum(s.store, s.height, round, b, s.Quorum())
  }

  ghost predicate NoQuorumBefore(s: RoundState, round: nat) {
    forall r: nat, b: Hash :: r < round ==> !QuorumAt(s, r, b)
  }

  // ----- The classes -----

  class VoteStore {
    var votes: map<VoteKey, Vote>
    var equivocations: seq<Evidence>

    function View(): Votes
      reads this
    {
      Votes(votes, equivocations)
    }

    constructor ()
      ensures View() == NO_VOTES
    {
      votes := map[];
      equivocations := [];
    }

    method Record(v: Vote) returns (evidence: Option<Evidence>)
      modifies this
      ensures View() == Recorded(old(View()), v)
      ensures evidence.Some? <==> equivocations != old(equivocations)
      ensures evidence.Some? ==> equivocations == old(equivocations) + [evidence.value]
    {
      var key := KeyOf(v);
      if key in votes {
        var existing := votes[key];
        if existing.blockHash != v.blockHash {
          if existing.blockHash != NIL_HASH || v.blockHash != NIL_HASH {
            evidence := Some(Evidence(v.validator, v.height, v.round, v.step, existing, v));
            equivocations := equivocations + [evidence.value];
            return;
          }
        }
        return None;
      }
      votes := votes[key := v];
      return None;
    }
  }

  class ConsensusRound {
    var height: nat
    var round: nat
    var phase: Phase
    var validatorCount: nat
    var lockedBlock: Option<Hash>
    var lockedRound: Option<nat>
    const voteStore: VoteStore

    function View(): RoundState
      reads this, voteStore
    {
      RoundState(height, round, phase, validatorCount, lockedBlock, lockedRound, voteStore.View())
    }

    constructor (height: nat, validatorCount: nat)
      ensures View() == NewRound(height, validatorCount)
      ensures fresh(voteStore)
    {
      this.height := height;
      this.round := 0;
      this.phase := Propose;
      this.validatorCount := validatorCount;
      this.lockedBlock := None;
      this.lockedRound := None;
      this.voteStore := new VoteStore();
    }

    method ProposalReceived(blockHash: Hash) returns (actions: seq<Action>)
      modifies this
      ensures Reaction(View(), actions) == OnProposalReceived(old(View()), blockHash)
    {
      if phase != Propose {
        return [];
      }
      phase := PrevotePhase;
      var voteHash := blockHash;
      if lockedBlock.Some? && lockedBlock.value != blockHash {
        voteHash := NIL_HASH;
      }
      return [BroadcastPrevote(voteHash)];
    }

    method ProposeTimeout() returns (actions: seq<Action>)
      modifies this
      ensures Reaction(View(), actions) == OnProposeTimeout(old(View()))
    {
      if phase != Propose {
        return [];
      }
      phase := PrevotePhase;
      return [BroadcastPrevote(NIL_HASH)];
    }

    method PrevoteReceived(v: Vote) returns (actions: seq<Action>)
      modifies this, voteStore
      ensures Reaction(View(), actions) == OnPrevote(old(View()), v)
    {
      var _ := voteStore.Record(v);
      if phase == Decided {
        return [];
      }
      if v.height != height || v.round != round {
        return [];
      }
      if v.blockHash == NIL_HASH {
        return [];
      }
      if phase == PrevotePhase && HasPolka(voteStore.View(), height, round, v.blockHash, QuorumSize(validatorCount)) {
        phase := PrecommitPhase;
        lockedBlock := Some(v.blockHash);
        lockedRound := Some(round);
        return [BroadcastPrecommit(v.blockHash)];
      }
      return [];
    }

    method PrevoteTimeout() returns (actions: seq<Action>)
      modifies this
      ensures Reaction(View(), actions) == OnPrevoteTimeout(old(View()))
    {
      if phase != PrevotePhase {
        return [];
      }
      phase := PrecommitPhase;
      return [BroadcastPrecommit(NIL_HASH)];
    }

    method PrecommitReceived(v: Vote) returns (actions: seq<Action>)
      modifies this, voteStore
      ensures Reaction(View(), actions) == OnPrecommit(old(View()), v)
    {
      var _ := voteStore.Record(v);
      if phase == Decided {
        return [];
      }
      if v.height != height || v.round != round {
        return [];
      }
      if v.blockHash == NIL_HASH {
        return [];
      }
      if HasCommitQuorum(voteStore.View(), height, round, v.blockHash, QuorumSize(validatorCount)) {
        phase := Decided;
        return [Commit(v.blockHash, round)];
      }
      return [];
    }

    method PrecommitTimeout() returns (actions: seq<Action>)
      requires CanAdvance(View())
      modifies this
      ensures Reaction(View(), actions) == OnPrecommitTimeout(old(View()))
    {
      if phase == Decided {
        return [];
      }
      round := round + 1;
      phase := Propose;
      return [NextRound];
    }

    /** Scans rounds upward and, within a round, the recorded precommits in any order. */
    method CommittedBlockHash() returns (r: Option<Hash>)
      ensures CommittedAnswer(View(), r)
    {
      if phase != Decided {
        return None;
      }
      var current := 0;
      while current <= round
        invariant current <= round + 1
        invariant NoQuorumBefore(View(), current)
      {
        var todo := set k | k in voteStore.votes && voteStore.votes[k].height == height
                                 && voteStore.votes[k].round == current && voteStore.votes[k].step == Precommit;
        ghost var all := todo;
        while todo != {}
          invariant todo <= all
          invariant forall k :: k in all - todo ==> !QuorumAt(View(), current, voteStore.votes[k].blockHash)
        {
          var k :| k in todo;
          var b := voteStore.votes[k].blockHash;
          if b != NIL_HASH && HasCommitQuorum(voteStore.View(), height, current, b, QuorumSize(validatorCount)) {
            return Some(b);
          }
          todo := todo - {k};
        }
        QuorumHasVote(View(), current);
        current := current + 1;
      }
      return None;
    }
  }

  /** A hash with a commit quorum is the hash of some recorded precommit of that round. */
  lemma QuorumHasVote(s: RoundState, round: nat)
    ensures forall b: Hash :: QuorumAt(s, round, b) ==>
      exists k :: k in s.store.votes && Matches(s.store.votes[k], s.height, round, Precommit, b)
  {
    forall b: Hash | QuorumAt(s, round, b)
      ensures exists k :: k in s.store.votes && Matches(s.store.votes[k], s.height, round, Precommit, b)
    {
      var voters := Matching(s.store, s.height, round, Precommit, b);
      assert |voters| > 0;
      var k :| k in voters;
    }
  }
}

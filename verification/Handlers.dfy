/** What each event makes a node do, and from which states: the handlers of `Round` from the outside. */
module Handlers {
  import opened Prelude
  import opened Quorum
  import opened Round
  import opened Agreement

  ghost predicate SameLock(s: RoundState, t: RoundState) {
    t.lockedBlock == s.lockedBlock && t.lockedRound == s.lockedRound
  }

  /** What one action says about the states before and after it. */
  ghost predicate Explains(a: Action, s: RoundState, t: RoundState) {
    match a
    case BroadcastPrevote(b) =>
      s.phase == Propose && t.phase == PrevotePhase && t.round == s.round && SameLock(s, t)
    case BroadcastPrecommit(b) =>
      s.phase == PrevotePhase && t.phase == PrecommitPhase && t.round == s.round
      && if b == NIL_HASH then SameLock(s, t) else t.lockedBlock == Some(b) && t.lockedRound == Some(s.round)
    case Commit(b, r) =>
      s.phase != Decided && t.phase == Decided && r == t.round == s.round && QuorumAt(t, r, b) && SameLock(s, t)
    case NextRound =>
      s.phase != Decided && t.phase == Propose && t.round == s.round + 1 && SameLock(s, t)
  }

  /** A node announces every change of phase, round or lock by exactly one action, and acts on nothing else. */
  lemma ActionsTellAll(s: RoundState, e: Event)
    requires e.PrecommitTimer? ==> CanAdvance(s)
    ensures var r := React(s, e);
            if r.actions == [] then r.state.phase == s.phase && r.state.round == s.round && SameLock(s, r.state)
            else |r.actions| == 1 && Explains(r.actions[0], s, r.state)
  {
  }

  /** A precommit decides exactly in an undecided node, of any phase, that then holds a commit quorum of its round. */
  lemma CommitIff(s: RoundState, v: Vote)
    ensures var t := React(s, PrecommitMsg(v)).state;
            t.phase == Decided <==>
            s.phase == Decided || (v.height == s.height && v.round == s.round && QuorumAt(t, s.round, v.blockHash))
    ensures var r := React(s, PrecommitMsg(v));
            s.phase != Decided && r.state.phase == Decided ==> r.actions == [Commit(v.blockHash, s.round)]
  {
  }

  /** A prevote locks and precommits exactly in a prevoting node that then holds a polka of its round. */
  lemma LockIff(s: RoundState, v: Vote)
    ensures var r := React(s, PrevoteMsg(v));
            r.actions == [BroadcastPrecommit(v.blockHash)] <==>
            s.phase == PrevotePhase && v.height == s.height && v.round == s.round
            && HasPolka(r.state.store, s.height, s.round, v.blockHash, s.Quorum())
  {
  }

  /** A proposal is voted for exactly by a node in its first phase that is not locked on another block. */
  lemma PrevoteIff(s: RoundState, b: Hash)
    requires b != NIL_HASH
    ensures React(s, Proposal(b)).actions == [BroadcastPrevote(b)] <==>
            s.phase == Propose && (s.lockedBlock == None || s.lockedBlock == Some(b))
    ensures React(s, Proposal(b)).actions == [BroadcastPrevote(NIL_HASH)] <==>
            s.phase == Propose && s.lockedBlock.Some? && s.lockedBlock.value != b
  {
  }

  /** Timers alone carry an undecided node from the start of a round to the next, with nil votes and the lock kept. */
  lemma TimersCarryOn(s: RoundState)
    requires s.phase == Propose && s.round < U32_MAX
    ensures var one := React(s, ProposeTimer);
            var two := React(one.state, PrevoteTimer);
            var three := React(two.state, PrecommitTimer);
            && one.actions == [BroadcastPrevote(NIL_HASH)] && two.actions == [BroadcastPrecommit(NIL_HASH)]
            && three.actions == [NextRound] && three.state == s.(round := s.round + 1)
  {
  }

  // ----- Evidence -----

  function RecordAll(s: Votes, vs: seq<Vote>): Votes {
    if vs == [] then s else Recorded(RecordAll(s, vs[..|vs| - 1]), vs[|vs| - 1])
  }

  /** The key was voted for twice, with different hashes. */
  ghost predicate Equivocated(vs: seq<Vote>, k: VoteKey) {
    exists i, j :: Clash(vs, k, i, j)
  }

  ghost predicate Clash(vs: seq<Vote>, k: VoteKey, i: int, j: int) {
    0 <= i < j < |vs| && KeyOf(vs[i]) == k == KeyOf(vs[j]) && vs[i].blockHash != vs[j].blockHash
  }

  ghost predicate Accused(s: Votes, k: VoteKey) {
    exists e :: e in s.equivocations && e == Evidence(k.validator, k.height, k.round, k.step, e.voteA, e.voteB)
  }

  /** The vote on file for a key is the first one received. */
  ghost predicate FirstOnFile(s: Votes, vs: seq<Vote>, k: VoteKey) {
    (k in s.votes <==> exists i :: 0 <= i < |vs| && KeyOf(vs[i]) == k) &&
    (k in s.votes ==> exists i :: 0 <= i < |vs| && FirstFor(vs, k, i) && s.votes[k] == vs[i])
  }

  ghost predicate FirstFor(vs: seq<Vote>, k: VoteKey, i: nat)
    requires i < |vs|
  {
    KeyOf(vs[i]) == k && forall j :: 0 <= j < i ==> KeyOf(vs[j]) != k
  }

  /** A store holds the first vote for each key, and accuses exactly the keys that were voted for with two hashes. */
  lemma {:induction false} EvidenceIff(vs: seq<Vote>, k: VoteKey)
    ensures FirstOnFile(RecordAll(NO_VOTES, vs), vs, k)
    ensures Accused(RecordAll(NO_VOTES, vs), k) <==> Equivocated(vs, k)
  {
    if vs != [] {
      var front, v := vs[..|vs| - 1], vs[|vs| - 1];
      EvidenceIff(front, k);
      EvidenceStep(RecordAll(NO_VOTES, front), front, v, k);
      assert vs == front + [v];
    }
  }

  lemma EvidenceStep(s: Votes, vs: seq<Vote>, v: Vote, k: VoteKey)
    requires FirstOnFile(s, vs, k) && (Accused(s, k) <==> Equivocated(vs, k))
    ensures FirstOnFile(Recorded(s, v), vs + [v], k)
    ensures Accused(Recorded(s, v), k) <==> Equivocated(vs + [v], k)
  {
    FileStep(s, vs, v, k);
    ClashStep(vs, v, k);
    AccusedStep(s, v, k);
    if KeyOf(v) == k && k in s.votes {
      if s.votes[k].blockHash == v.blockHash && !Equivocated(vs, k) {
        SameAsFirst(s, vs, v, k);
      } else if s.votes[k].blockHash != v.blockHash {
        var i :| 0 <= i < |vs| && FirstFor(vs, k, i) && s.votes[k] == vs[i];
      }
    }
  }

  /** Only the new vote can complete an equivocation. */
  lemma ClashStep(vs: seq<Vote>, v: Vote, k: VoteKey)
    ensures Equivocated(vs + [v], k) <==>
            Equivocated(vs, k) || exists i :: 0 <= i < |vs| && KeyOf(vs[i]) == k == KeyOf(v) && vs[i].blockHash != v.blockHash
  {
    var all := vs + [v];
    if i, j :| Clash(vs, k, i, j) {
      assert Clash(all, k, i, j);
    }
    if i :| 0 <= i < |vs| && KeyOf(vs[i]) == k == KeyOf(v) && vs[i].blockHash != v.blockHash {
      assert Clash(all, k, i, |vs|);
    }
    if i, j :| Clash(all, k, i, j) {
      assert j < |vs| ==> Clash(vs, k, i, j);
    }
  }

  lemma AccusedStep(s: Votes, v: Vote, k: VoteKey)
    ensures Accused(Recorded(s, v), k) <==>
            Accused(s, k) || (KeyOf(v) == k && k in s.votes && s.votes[k].blockHash != v.blockHash)
  {
    var t := Recorded(s, v);
    if KeyOf(v) in s.votes && s.votes[KeyOf(v)].blockHash != v.blockHash {
      assert t.equivocations == s.equivocations + [Conflict(s.votes[KeyOf(v)], v)];
      assert t.equivocations[|s.equivocations|] == Conflict(s.votes[KeyOf(v)], v);
    }
    assert forall e :: e in s.equivocations ==> e in t.equivocations;
  }

  /** Without an equivocation so far all votes for a key agree with the first. */
  lemma SameAsFirst(s: Votes, vs: seq<Vote>, v: Vote, k: VoteKey)
    requires FirstOnFile(s, vs, k) && k in s.votes && s.votes[k].blockHash == v.blockHash && !Equivocated(vs, k)
    ensures forall i :: 0 <= i < |vs| && KeyOf(vs[i]) == k ==> vs[i].blockHash == v.blockHash
  {
    var i :| 0 <= i < |vs| && FirstFor(vs, k, i) && s.votes[k] == vs[i];
    forall j | 0 <= j < |vs| && KeyOf(vs[j]) == k ensures vs[j].blockHash == v.blockHash {
      assert i <= j && !Clash(vs, k, i, j);
    }
  }

  lemma FileStep(s: Votes, vs: seq<Vote>, v: Vote, k: VoteKey)
    requires FirstOnFile(s, vs, k)
    ensures FirstOnFile(Recorded(s, v), vs + [v], k)
  {
    var all, t := vs + [v], Recorded(s, v);
    assert all[|vs|] == v;
    if k in s.votes {
      var i :| 0 <= i < |vs| && FirstFor(vs, k, i) && s.votes[k] == vs[i];
      assert FirstFor(all, k, i) && all[i] == vs[i];
    } else if KeyOf(v) == k {
      assert FirstFor(all, k, |vs|);
    }
  }
}

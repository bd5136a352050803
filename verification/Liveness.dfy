/**
 * When a height can be decided by the correct validators alone. A commit quorum
 * carries every node of its round; and from a common start of a round the
 * correct validators can decide exactly if a quorum of them can vote for one block.
 */
module Liveness {
  import opened Prelude
  import opened Quorum
  import opened Round
  import opened Agreement
  import H = Handlers

  // ----- Continuations by correct nodes alone -----

  ghost predicate Acts(c: Config, g: System, g': System) {
    exists p, e :: NodeStep(c, g, g', p, e)
  }

  ghost predicate IsPath(c: Config, path: seq<System>) {
    |path| > 0 && forall i :: 0 <= i < |path| - 1 ==> Acts(c, path[i], path[i + 1])
  }

  ghost predicate Leads(c: Config, g: System, g': System) {
    exists path :: IsPath(c, path) && path[0] == g && path[|path| - 1] == g'
  }

  lemma LeadsSelf(c: Config, g: System)
    ensures Leads(c, g, g)
  {
    assert IsPath(c, [g]) && [g][0] == g && [g][|[g]| - 1] == g;
  }

  lemma LeadsOn(c: Config, g: System, g1: System, g2: System, p: Address, e: Event)
    requires Leads(c, g, g1) && NodeStep(c, g1, g2, p, e)
    ensures Leads(c, g, g2)
  {
    var path :| IsPath(c, path) && path[0] == g && path[|path| - 1] == g1;
    var longer := path + [g2];
    assert Acts(c, g1, g2);
    forall i | 0 <= i < |longer| - 1 ensures Acts(c, longer[i], longer[i + 1]) {
      assert i < |path| - 1 ==> Acts(c, path[i], path[i + 1]);
    }
    assert longer[0] == g && longer[|longer| - 1] == g2;
  }

  lemma LeadsFurther(c: Config, g: System, g1: System, g2: System)
    requires Leads(c, g, g1) && Leads(c, g1, g2)
    ensures Leads(c, g, g2)
  {
    var one :| IsPath(c, one) && one[0] == g && one[|one| - 1] == g1;
    var two :| IsPath(c, two) && two[0] == g1 && two[|two| - 1] == g2;
    var both := one + two[1..];
    forall i | 0 <= i < |both| - 1 ensures Acts(c, both[i], both[i + 1]) {
      if i < |one| - 1 {
        assert Acts(c, one[i], one[i + 1]);
      } else {
        var j := i - (|one| - 1);
        assert both[i] == two[j] && both[i + 1] == two[j + 1] && Acts(c, two[j], two[j + 1]);
      }
    }
    assert both[0] == g && both[|both| - 1] == g2;
  }

  /** The network gets here in some run; the faulty may have acted before. */
  ghost predicate Reached(c: Config, g: System) {
    FewFaulty(c) && exists run :: IsRun(c, run) && run[|run| - 1] == g
  }

  lemma ReachedInv(c: Config, g: System)
    requires Reached(c, g)
    ensures Inv(c, g)
  {
    var run :| IsRun(c, run) && run[|run| - 1] == g;
    RunKeepsInv(c, run, |run| - 1);
  }

  lemma ReachedOn(c: Config, g: System, g': System, p: Address, e: Event)
    requires Reached(c, g) && NodeStep(c, g, g', p, e)
    ensures Reached(c, g')
  {
    var run :| IsRun(c, run) && run[|run| - 1] == g;
    var longer := run + [g'];
    forall i | 0 <= i < |longer| - 1 ensures Next(c, longer[i], longer[i + 1]) {
      assert i < |run| - 1 ==> Next(c, run[i], run[i + 1]);
    }
    assert longer[|longer| - 1] == g';
  }

  // ----- One node hears the votes of several validators -----

  /** The node has on file this vote of each of these validators. */
  ghost predicate Heard(s: RoundState, r: nat, step: VoteStep, b: Hash, senders: set<Address>) {
    forall q :: q in senders ==> Voted(s.store, Vote(s.height, r, step, b, q))
  }

  ghost predicate Voted(store: Votes, v: Vote) {
    KeyOf(v) in store.votes && store.votes[KeyOf(v)] == v
  }

  lemma HeardCounts(s: RoundState, r: nat, step: VoteStep, b: Hash, senders: set<Address>)
    requires Heard(s, r, step, b, senders)
    ensures Count(s.store, s.height, r, step, b) >= |senders|
  {
    var f := (q: Address) => VoteKey(q, s.height, r, step);
    InjectiveImageSize(senders, f);
    forall k | k in Image(senders, f) ensures k in Matching(s.store, s.height, r, step, b) {
      var q :| q in senders && f(q) == k;
      assert Voted(s.store, Vote(s.height, r, step, b, q));
    }
    SubsetSize(Image(senders, f), Matching(s.store, s.height, r, step, b));
  }

  /** Votes of correct validators are never shadowed by others on file. */
  lemma CorrectIsHeard(c: Config, g: System, p: Address, v: Vote)
    requires Reached(c, g) && p in g.nodes && v in g.sent && v.validator in Correct(c)
    ensures Voted(Recorded(g.nodes[p].store, v), v)
  {
    ReachedInv(c, g);
    assert NodeInv(c, g, p) && NodeInv(c, g, v.validator);
    var store := g.nodes[p].store;
    if KeyOf(v) in store.votes {
      assert store.votes[KeyOf(v)] == v;
    }
  }

  lemma RecordedKeepsVoted(store: Votes, w: Vote, v: Vote)
    requires Voted(store, v)
    ensures Voted(Recorded(store, w), v)
  {
  }

  /** The same network but for one node, with all that was sent and decided. */
  ghost predicate OnlyMoved(g: System, g': System, p: Address) {
    g'.nodes.Keys == g.nodes.Keys && g.sent <= g'.sent && g.decisions <= g'.decisions &&
    forall q :: q in g.nodes && q != p ==> g'.nodes[q] == g.nodes[q]
  }

  /** Still where it was, or moved on by these votes: a polka makes it precommit, a commit quorum decide. */
  ghost predicate MovedOn(g: System, s: RoundState, t: RoundState, p: Address, step: VoteStep, b: Hash) {
    t.height == s.height && t.round == s.round && t.validatorCount == s.validatorCount &&
    match step
    case Prevote =>
      (t.phase == s.phase == PrevotePhase && H.SameLock(s, t)) ||
      (t.phase == PrecommitPhase && t.lockedBlock == Some(b) && Vote(s.height, s.round, Precommit, b, p) in g.sent)
    case Precommit =>
      (t.phase == s.phase != Decided && H.SameLock(s, t)) || (t.phase == Decided && Decision(p, b, s.round) in g.decisions)
  }

  ghost predicate Waiting(s: RoundState, step: VoteStep) {
    if step == Prevote then s.phase == PrevotePhase else s.phase != Decided
  }

  function Arrival(v: Vote): Event {
    if v.step == Prevote then PrevoteMsg(v) else PrecommitMsg(v)
  }

  function Received(g: System, p: Address, v: Vote): System
    requires p in g.nodes
  {
    var r := React(g.nodes[p], Arrival(v));
    System(g.nodes[p := r.state], g.sent + Broadcasts(p, g.nodes[p], r.actions),
           g.decisions + Decisions(p, r.actions), g.proposals + Receipts(p, Arrival(v)))
  }

  /** One more vote keeps the node on its way, and with a quorum on file it has moved on. */
  lemma HearOne(g0: System, g: System, p: Address, v: Vote, b: Hash)
    requires p in g0.nodes && p in g.nodes && b != NIL_HASH
    requires v == Vote(g0.nodes[p].height, g0.nodes[p].round, v.step, b, v.validator)
    requires MovedOn(g, g0.nodes[p], g.nodes[p], p, v.step, b)
    ensures var g' := Received(g, p, v);
            && MovedOn(g', g0.nodes[p], g'.nodes[p], p, v.step, b)
            && g'.nodes[p].store == Recorded(g.nodes[p].store, v)
            && (Count(g'.nodes[p].store, g0.nodes[p].height, g0.nodes[p].round, v.step, b) >= g0.nodes[p].Quorum() ==>
                !Waiting(g'.nodes[p], v.step))
  {
    var r := React(g.nodes[p], Arrival(v));
    if r.actions != [] && r.actions[0].BroadcastPrecommit? {
      assert r.actions == [BroadcastPrecommit(b)];
      assert BroadcastPrecommit(b) in r.actions;
    }
    if r.actions != [] && r.actions[0].Commit? {
      assert r.actions == [Commit(b, g.nodes[p].round)];
      assert Commit(b, g.nodes[p].round) in r.actions;
    }
  }

  /** A node that receives the votes of these correct validators has them on file. */
  lemma {:induction false} Hear(c: Config, g0: System, p: Address, step: VoteStep, b: Hash, senders: set<Address>) returns (g: System)
    requires Reached(c, g0) && p in g0.nodes && b != NIL_HASH && Waiting(g0.nodes[p], step) && senders <= Correct(c)
    requires forall q :: q in senders ==> Vote(g0.nodes[p].height, g0.nodes[p].round, step, b, q) in g0.sent
    ensures Leads(c, g0, g) && OnlyMoved(g0, g, p) && Reached(c, g)
    ensures MovedOn(g, g0.nodes[p], g.nodes[p], p, step, b) && Heard(g.nodes[p], g0.nodes[p].round, step, b, senders)
    ensures |senders| >= QuorumOf(c) ==> !Waiting(g.nodes[p], step)
    decreases |senders|
  {
    if senders == {} {
      g := g0;
      LeadsSelf(c, g0);
      assert QuorumOf(c) > 0;
    } else {
      var q :| q in senders;
      var before := Hear(c, g0, p, step, b, senders - {q});
      var v := Vote(g0.nodes[p].height, g0.nodes[p].round, step, b, q);
      g := Received(before, p, v);
      QuorumIs(c, g0, p);
      HearOne(g0, before, p, v, b);
      ReceiveStep(c, g0, before, p, v);
      CorrectIsHeard(c, before, p, v);
      HearMore(before.nodes[p], g.nodes[p], v, senders);
    }
  }

  lemma QuorumIs(c: Config, g: System, p: Address)
    requires Reached(c, g) && p in g.nodes
    ensures g.nodes[p].Quorum() == QuorumOf(c) && g.nodes[p].height == c.height && p in Correct(c)
  {
    ReachedInv(c, g);
    assert NodeInv(c, g, p);
  }

  lemma ReceiveStep(c: Config, g0: System, before: System, p: Address, v: Vote)
    requires Reached(c, before) && p in g0.nodes && OnlyMoved(g0, before, p) && Leads(c, g0, before) && v in g0.sent && p in Correct(c)
    ensures var g := Received(before, p, v); Leads(c, g0, g) && OnlyMoved(g0, g, p) && Reached(c, g)
  {
    var g := Received(before, p, v);
    assert NodeStep(c, before, g, p, Arrival(v));
    LeadsOn(c, g0, before, g, p, Arrival(v));
    ReachedOn(c, before, g, p, Arrival(v));
  }

  lemma HearMore(s: RoundState, t: RoundState, v: Vote, senders: set<Address>)
    requires t.store == Recorded(s.store, v) && t.height == s.height == v.height && v.validator in senders
    requires Heard(s, v.round, v.step, v.blockHash, senders - {v.validator}) && Voted(t.store, v)
    ensures Heard(t, v.round, v.step, v.blockHash, senders)
    ensures Count(t.store, v.height, v.round, v.step, v.blockHash) >= |senders|
  {
    forall q | q in senders ensures Voted(t.store, Vote(t.height, v.round, v.step, v.blockHash, q)) {
      if q != v.validator {
        RecordedKeepsVoted(s.store, v, Vote(t.height, v.round, v.step, v.blockHash, q));
      }
    }
    HeardCounts(t, v.round, v.step, v.blockHash, senders);
  }

  /**
   * In every run: once a quorum of correct validators has precommitted a block in
   * a round, every undecided correct node in that round, whatever its phase, can
   * go on to commit it.
   */
  lemma CommitQuorumCarries(c: Config, run: seq<System>, p: Address, b: Hash, senders: set<Address>) returns (g: System)
    requires FewFaulty(c) && IsRun(c, run) && p in Correct(c) && b != NIL_HASH
    requires p in run[|run| - 1].nodes && run[|run| - 1].nodes[p].phase != Decided
    requires senders <= Correct(c) && |senders| >= QuorumOf(c)
    requires forall q :: q in senders ==> Vote(c.height, run[|run| - 1].nodes[p].round, Precommit, b, q) in run[|run| - 1].sent
    ensures Leads(c, run[|run| - 1], g) && p in g.nodes && g.nodes[p].phase == Decided
    ensures Decision(p, b, run[|run| - 1].nodes[p].round) in g.decisions
  {
    var last := run[|run| - 1];
    QuorumIs(c, last, p);
    g := Hear(c, last, p, Precommit, b, senders);
  }

  // ----- A round in which a quorum can vote for one block -----

  /** The correct nodes that are free to vote for a block. */
  function Free(g: System, b: Hash): set<Address> {
    set p | p in g.nodes && (g.nodes[p].lockedBlock == None || g.nodes[p].lockedBlock == Some(b))
  }

  /** The state further on: nodes as given, everything sent and decided kept. */
  ghost predicate Later(c: Config, g: System, g': System) {
    Leads(c, g, g') && Reached(c, g') && g'.nodes.Keys == g.nodes.Keys && g.sent <= g'.sent && g.decisions <= g'.decisions
  }

  /** All these nodes receive the proposal. */
  lemma {:induction false} ProposeAll(c: Config, g0: System, b: Hash, todo: set<Address>) returns (g: System)
    requires Reached(c, g0) && todo <= g0.nodes.Keys && forall p :: p in todo ==> g0.nodes[p].phase == Propose
    ensures Later(c, g0, g)
    ensures forall p :: p in g0.nodes ==> g.nodes[p] == if p in todo then g0.nodes[p].(phase := PrevotePhase) else g0.nodes[p]
    ensures forall p :: p in todo && p in Free(g0, b) ==> Vote(c.height, g0.nodes[p].round, Prevote, b, p) in g.sent
    decreases |todo|
  {
    if todo == {} {
      g := g0;
      LeadsSelf(c, g0);
    } else {
      var p :| p in todo;
      var before := ProposeAll(c, g0, b, todo - {p});
      g := ProposeTo(c, g0, before, p, b);
    }
  }

  lemma ProposeTo(c: Config, g0: System, before: System, p: Address, b: Hash) returns (g: System)
    requires Later(c, g0, before) && p in g0.nodes && before.nodes[p] == g0.nodes[p] && g0.nodes[p].phase == Propose
    ensures Later(c, g0, g) && before.sent <= g.sent && g.nodes == before.nodes[p := g0.nodes[p].(phase := PrevotePhase)]
    ensures p in Free(g0, b) ==> Vote(c.height, g0.nodes[p].round, Prevote, b, p) in g.sent
  {
    var r := React(before.nodes[p], Proposal(b));
    g := System(before.nodes[p := r.state], before.sent + Broadcasts(p, before.nodes[p], r.actions),
                before.decisions + Decisions(p, r.actions), before.proposals + Receipts(p, Proposal(b)));
    QuorumIs(c, before, p);
    assert NodeStep(c, before, g, p, Proposal(b));
    LeadsOn(c, g0, before, g, p, Proposal(b));
    ReachedOn(c, before, g, p, Proposal(b));
    if p in Free(g0, b) {
      assert r.actions == [BroadcastPrevote(b)];
      assert BroadcastPrevote(b) in r.actions;
    }
  }

  /** All these nodes receive the votes of a quorum of correct validators, and move on. */
  lemma {:induction false} HearAll(c: Config, g0: System, r: nat, step: VoteStep, b: Hash, voters: set<Address>, todo: set<Address>)
    returns (g: System)
    requires Reached(c, g0) && b != NIL_HASH && todo <= g0.nodes.Keys && voters <= Correct(c) && |voters| >= QuorumOf(c)
    requires forall p :: p in todo ==> g0.nodes[p].round == r && Waiting(g0.nodes[p], step)
    requires forall q :: q in voters ==> Vote(c.height, r, step, b, q) in g0.sent
    ensures Later(c, g0, g)
    ensures AllMoved(g0, g, step, b, todo)
    decreases |todo|
  {
    if todo == {} {
      g := g0;
      LeadsSelf(c, g0);
    } else {
      var p :| p in todo;
      var before := HearAll(c, g0, r, step, b, voters, todo - {p});
      QuorumIs(c, before, p);
      g := Hear(c, before, p, step, b, voters);
      LeadsFurther(c, g0, before, g);
      OneMoreMoved(g0, before, g, step, b, todo, p);
    }
  }

  ghost predicate AllMoved(g0: System, g: System, step: VoteStep, b: Hash, todo: set<Address>)
    requires g.nodes.Keys == g0.nodes.Keys && todo <= g0.nodes.Keys
  {
    (forall p :: p in g0.nodes && p !in todo ==> g.nodes[p] == g0.nodes[p]) &&
    forall p :: p in todo ==> MovedOn(g, g0.nodes[p], g.nodes[p], p, step, b) && !Waiting(g.nodes[p], step)
  }

  lemma OneMoreMoved(g0: System, before: System, g: System, step: VoteStep, b: Hash, todo: set<Address>, p: Address)
    requires g.nodes.Keys == before.nodes.Keys == g0.nodes.Keys && todo <= g0.nodes.Keys && p in todo
    requires AllMoved(g0, before, step, b, todo - {p}) && OnlyMoved(before, g, p)
    requires MovedOn(g, before.nodes[p], g.nodes[p], p, step, b) && !Waiting(g.nodes[p], step)
    ensures AllMoved(g0, g, step, b, todo)
  {
    forall q | q in todo ensures MovedOn(g, g0.nodes[q], g.nodes[q], q, step, b) && !Waiting(g.nodes[q], step) {
      assert q != p ==> MovedOn(before, g0.nodes[q], before.nodes[q], q, step, b);
    }
  }

  /**
   * From a common start of a round, if a quorum of correct validators is free to
   * vote for a block, then the correct validators alone can all commit it, and
   * those locked on another block follow.
   */
  lemma GoodRound(c: Config, g: System, r: nat, b: Hash) returns (last: System)
    requires Reached(c, g) && b != NIL_HASH && |Free(g, b)| >= QuorumOf(c)
    requires forall p :: p in g.nodes ==> g.nodes[p].round == r && g.nodes[p].phase == Propose
    ensures Leads(c, g, last) && forall p :: p in Correct(c) ==> Decision(p, b, r) in last.decisions
  {
    var g2 := GoodPolka(c, g, r, b);
    HeightIs(c, g);
    SubsetSize(Free(g, b), Correct(c));
    last := HearAll(c, g2, r, Precommit, b, Correct(c), Correct(c));
    LeadsFurther(c, g, g2, last);
  }

  /** Its first half: every correct validator precommits the block. */
  lemma GoodPolka(c: Config, g: System, r: nat, b: Hash) returns (g2: System)
    requires Reached(c, g) && b != NIL_HASH && |Free(g, b)| >= QuorumOf(c)
    requires forall p :: p in g.nodes ==> g.nodes[p].round == r && g.nodes[p].phase == Propose
    ensures Later(c, g, g2)
    ensures forall p :: p in g.nodes ==> g2.nodes[p].round == r && g2.nodes[p].phase == PrecommitPhase
    ensures forall p :: p in g.nodes ==> Vote(c.height, r, Precommit, b, p) in g2.sent
  {
    HeightIs(c, g);
    var g1 := ProposeAll(c, g, b, g.nodes.Keys);
    g2 := HearAll(c, g1, r, Prevote, b, Free(g, b), g.nodes.Keys);
    LeadsFurther(c, g, g1, g2);
    forall p | p in g.nodes
      ensures g2.nodes[p].round == r && g2.nodes[p].phase == PrecommitPhase && Vote(c.height, r, Precommit, b, p) in g2.sent
    {
      assert MovedOn(g2, g1.nodes[p], g2.nodes[p], p, Prevote, b);
    }
  }

  lemma HeightIs(c: Config, g: System)
    requires Reached(c, g)
    ensures g.nodes.Keys == Correct(c) && forall p :: p in g.nodes ==> g.nodes[p].height == c.height
  {
    ReachedInv(c, g);
    forall p | p in g.nodes ensures g.nodes[p].height == c.height {
      QuorumIs(c, g, p);
    }
  }

  // ----- And only then -----

  /** The correct nodes at the start of a round for which the faulty have sent nothing, nor for later ones. */
  ghost predicate CommonStart(c: Config, g: System, r: nat) {
    (forall p :: p in g.nodes ==> g.nodes[p].round == r && g.nodes[p].phase == Propose) &&
    forall v :: v in g.sent && v.validator in c.faulty ==> v.round < r
  }

  /** No block has a quorum free to vote for it. */
  ghost predicate Split(c: Config, g: System) {
    forall b: Hash :: b != NIL_HASH ==> |Free(g, b)| < QuorumOf(c)
  }

  /** Nothing has moved: the locks are as they were, and votes for blocks are prevotes of nodes free to cast them. */
  ghost predicate Frozen(c: Config, g0: System, g: System, r: nat) {
    Reached(c, g) && g.nodes.Keys == g0.nodes.Keys &&
    (forall p :: p in g0.nodes ==> StillThere(g0.nodes[p], g.nodes[p], r)) &&
    forall v :: v in g.sent && v.round >= r ==> Harmless(g0, v)
  }

  ghost predicate StillThere(s: RoundState, t: RoundState, r: nat) {
    t.lockedBlock == s.lockedBlock && t.round >= r && t.phase != Decided
  }

  ghost predicate Harmless(g0: System, v: Vote) {
    v.blockHash != NIL_HASH ==> v.step == Prevote && v.validator in Free(g0, v.blockHash)
  }

  lemma NoVoteAhead(c: Config, g: System, r: nat, v: Vote)
    requires Reached(c, g) && CommonStart(c, g, r) && v in g.sent
    ensures v.round < r
  {
    ReachedInv(c, g);
    if v.validator in Correct(c) {
      assert NodeInv(c, g, v.validator);
    }
  }

  lemma StartIsFrozen(c: Config, g: System, r: nat)
    requires Reached(c, g) && CommonStart(c, g, r)
    ensures Frozen(c, g, g, r)
  {
    forall v | v in g.sent ensures v.round < r {
      NoVoteAhead(c, g, r, v);
    }
  }

  /** In a frozen network with no quorum free for any block there is neither a polka nor a commit quorum. */
  lemma FrozenHasNoQuorum(c: Config, g0: System, g: System, r: nat, store: Votes, round: nat, b: Hash)
    requires Frozen(c, g0, g, r) && Split(c, g0) && round >= r && b != NIL_HASH && StoreOk(store, g.sent)
    ensures Count(store, c.height, round, Prevote, b) < QuorumOf(c) && Count(store, c.height, round, Precommit, b) < QuorumOf(c)
  {
    CountBoundsVoters(store, g.sent, c.height, round, Prevote, b);
    CountBoundsVoters(store, g.sent, c.height, round, Precommit, b);
    forall a | a in Voters(g.sent, c.height, round, Prevote, b) ensures a in Free(g0, b) {
      var v :| v in g.sent && Matches(v, c.height, round, Prevote, b) && v.validator == a;
      assert Harmless(g0, v);
    }
    SubsetSize(Voters(g.sent, c.height, round, Prevote, b), Free(g0, b));
    assert Voters(g.sent, c.height, round, Precommit, b) == {};
  }

  lemma FrozenStep(c: Config, g0: System, g: System, g': System, r: nat, p: Address, e: Event)
    requires Frozen(c, g0, g, r) && Split(c, g0) && NodeStep(c, g, g', p, e)
    ensures Frozen(c, g0, g', r)
  {
    ReachedOn(c, g, g', p, e);
    StepAdds(c, g, g', p, e);
    FrozenReaction(c, g0, g, r, p, e);
    forall v | v in g'.sent && v.round >= r ensures Harmless(g0, v) {
      assert v in g.sent ==> Harmless(g0, v);
    }
  }

  lemma FrozenReaction(c: Config, g0: System, g: System, r: nat, p: Address, e: Event)
    requires Frozen(c, g0, g, r) && Split(c, g0) && p in g.nodes && Enabled(g.nodes[p], e, g.sent)
    ensures StillThere(g0.nodes[p], React(g.nodes[p], e).state, r)
    ensures forall v :: v in Broadcasts(p, g.nodes[p], React(g.nodes[p], e).actions) ==> Harmless(g0, v)
  {
    var s := g.nodes[p];
    QuorumIs(c, g, p);
    assert StillThere(g0.nodes[p], s, r);
    if (e.PrevoteMsg? || e.PrecommitMsg?) && e.vote.blockHash != NIL_HASH {
      StoreIsOk(c, g, p, e.vote);
      FrozenHasNoQuorum(c, g0, g, r, Recorded(s.store, e.vote), s.round, e.vote.blockHash);
    }
  }

  lemma StoreIsOk(c: Config, g: System, p: Address, v: Vote)
    requires Reached(c, g) && p in g.nodes && v in g.sent
    ensures StoreOk(Recorded(g.nodes[p].store, v), g.sent)
  {
    ReachedInv(c, g);
    assert NodeInv(c, g, p);
    RecordedKeeps(g.nodes[p].store, g.sent, v);
  }

  lemma {:induction false} FrozenPath(c: Config, g0: System, path: seq<System>, r: nat, i: nat)
    requires IsPath(c, path) && Frozen(c, g0, path[0], r) && Split(c, g0) && i < |path|
    ensures Frozen(c, g0, path[i], r)
  {
    if i > 0 {
      FrozenPath(c, g0, path, r, i - 1);
      assert Acts(c, path[i - 1], path[i - 1 + 1]);
      var p, e :| NodeStep(c, path[i - 1], path[i], p, e);
      FrozenStep(c, g0, path[i - 1], path[i], r, p, e);
    }
  }

  /** Without such a quorum no continuation by the correct validators ever decides, whatever they propose. */
  lemma SplitNeverDecides(c: Config, g: System, r: nat, g': System)
    requires Reached(c, g) && CommonStart(c, g, r) && Split(c, g) && Leads(c, g, g')
    ensures g'.decisions == {}
  {
    StartIsFrozen(c, g, r);
    var path :| IsPath(c, path) && path[0] == g && path[|path| - 1] == g';
    FrozenPath(c, g, path, r, |path| - 1);
    if d :| d in g'.decisions {
      DeciderIsDecided(c, g', d);
      assert false;
    }
  }

  lemma DeciderIsDecided(c: Config, g: System, d: Decision)
    requires Reached(c, g) && d in g.decisions
    ensures d.node in g.nodes && g.nodes[d.node].phase == Decided
  {
    ReachedInv(c, g);
    assert NodeInv(c, g, d.node);
  }

  ghost predicate CanDecide(c: Config, g: System) {
    exists g' :: Leads(c, g, g') && g'.decisions != {}
  }

  ghost predicate AllCanDecide(c: Config, g: System, r: nat, b: Hash) {
    exists g' :: Leads(c, g, g') && forall p :: p in Correct(c) ==> Decision(p, b, r) in g'.decisions
  }

  /**
   * In every run: at a common start of a round the correct validators can decide
   * on their own exactly if a quorum of them is free to vote for one block, and
   * then all of them can, in this very round.
   */
  lemma DecidesIff(c: Config, run: seq<System>, r: nat)
    requires FewFaulty(c) && IsRun(c, run) && CommonStart(c, run[|run| - 1], r)
    ensures var g := run[|run| - 1];
            && (CanDecide(c, g) <==> exists b: Hash :: b != NIL_HASH && |Free(g, b)| >= QuorumOf(c))
            && forall b: Hash :: b != NIL_HASH && |Free(g, b)| >= QuorumOf(c) ==> AllCanDecide(c, g, r, b)
  {
    var g := run[|run| - 1];
    assert Reached(c, g);
    forall b: Hash | b != NIL_HASH && |Free(g, b)| >= QuorumOf(c) ensures AllCanDecide(c, g, r, b) && CanDecide(c, g) {
      SomeoneCan(c, g, r, b);
    }
    if CanDecide(c, g) && Split(c, g) {
      var g' :| Leads(c, g, g') && g'.decisions != {};
      SplitNeverDecides(c, g, r, g');
      assert false;
    }
  }

  lemma SomeoneCan(c: Config, g: System, r: nat, b: Hash)
    requires Reached(c, g) && CommonStart(c, g, r) && b != NIL_HASH && |Free(g, b)| >= QuorumOf(c)
    ensures AllCanDecide(c, g, r, b) && CanDecide(c, g)
  {
    HeightIs(c, g);
    var last := GoodRound(c, g, r, b);
    assert Free(g, b) != {};
    var p :| p in Free(g, b);
    assert Decision(p, b, r) in last.decisions;
  }
}

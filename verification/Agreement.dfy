/**
 * One height of the network as a transition system: correct validators run the
 * handlers of `Round` and send exactly the votes the handlers return; faulty
 * validators send anything. Safety over every run follows.
 */
module Agreement {
  import opened Prelude
  import opened Quorum
  import opened Round

  datatype Config = Config(height: nat, validators: set<Address>, faulty: set<Address>)

  /** Fewer faulty validators than two quorums must share. */
  ghost predicate FewFaulty(c: Config) {
    c.faulty <= c.validators && |c.validators| + |c.faulty| < 2 * QuorumOf(c)
  }

  /** The usual bound, fewer than a third faulty, is enough. */
  lemma UnderOneThirdIsFew(c: Config)
    requires c.faulty <= c.validators && 3 * |c.faulty| < |c.validators|
    ensures FewFaulty(c)
  {
  }

  function Correct(c: Config): set<Address> {
    c.validators - c.faulty
  }

  function QuorumOf(c: Config): nat {
    QuorumSize(|c.validators|)
  }

  datatype Decision = Decision(node: Address, blockHash: Hash, round: nat)
  datatype Receipt = Receipt(node: Address, blockHash: Hash)

  /**
   * `sent` holds every vote ever sent. `decisions` and `proposals` are the log
   * of `Commit` actions returned and of proposals received by correct nodes.
   */
  datatype System = System(
    nodes: map<Address, RoundState>,
    sent: set<Vote>,
    decisions: set<Decision>,
    proposals: set<Receipt>)

  datatype Event =
    | Proposal(blockHash: Hash)
    | ProposeTimer
    | PrevoteMsg(vote: Vote)
    | PrevoteTimer
    | PrecommitMsg(vote: Vote)
    | PrecommitTimer

  /** Any sent vote may reach either vote handler, whatever its step, height or round. */
  predicate Enabled(s: RoundState, e: Event, sent: set<Vote>) {
    match e
    case PrevoteMsg(v) => v in sent
    case PrecommitMsg(v) => v in sent
    case PrecommitTimer => CanAdvance(s)
    case _ => true
  }

  function React(s: RoundState, e: Event): Reaction
    requires e.PrecommitTimer? ==> CanAdvance(s)
  {
    match e
    case Proposal(b) => OnProposalReceived(s, b)
    case ProposeTimer => OnProposeTimeout(s)
    case PrevoteMsg(v) => OnPrevote(s, v)
    case PrevoteTimer => OnPrevoteTimeout(s)
    case PrecommitMsg(v) => OnPrecommit(s, v)
    case PrecommitTimer => OnPrecommitTimeout(s)
  }

  function Broadcasts(p: Address, s: RoundState, actions: seq<Action>): set<Vote> {
    (set a | a in actions && a.BroadcastPrevote? :: Vote(s.height, s.round, Prevote, a.blockHash, p)) +
    (set a | a in actions && a.BroadcastPrecommit? :: Vote(s.height, s.round, Precommit, a.blockHash, p))
  }

  function Decisions(p: Address, actions: seq<Action>): set<Decision> {
    set a | a in actions && a.Commit? :: Decision(p, a.blockHash, a.round)
  }

  function Receipts(p: Address, e: Event): set<Receipt> {
    if e.Proposal? then {Receipt(p, e.blockHash)} else {}
  }

  ghost predicate Init(c: Config, g: System) {
    g.nodes.Keys == Correct(c) &&
    (forall p :: p in g.nodes ==> g.nodes[p] == NewRound(c.height, |c.validators|)) &&
    g.sent == {} && g.decisions == {} && g.proposals == {}
  }

  ghost predicate NodeStep(c: Config, g: System, g': System, p: Address, e: Event) {
    p in Correct(c) && p in g.nodes && Enabled(g.nodes[p], e, g.sent) &&
    var r := React(g.nodes[p], e);
    g' == System(g.nodes[p := r.state],
                 g.sent + Broadcasts(p, g.nodes[p], r.actions),
                 g.decisions + Decisions(p, r.actions),
                 g.proposals + Receipts(p, e))
  }

  ghost predicate FaultyStep(c: Config, g: System, g': System, v: Vote) {
    v.validator in c.faulty && g' == g.(sent := g.sent + {v})
  }

  ghost predicate Next(c: Config, g: System, g': System) {
    (exists p, e :: NodeStep(c, g, g', p, e)) || (exists v :: FaultyStep(c, g, g', v))
  }

  ghost predicate IsRun(c: Config, run: seq<System>) {
    |run| > 0 && Init(c, run[0]) && forall i :: 0 <= i < |run| - 1 ==> Next(c, run[i], run[i + 1])
  }

  // ----- Quorums among the sent votes -----

  function Voters(sent: set<Vote>, height: nat, round: nat, step: VoteStep, b: Hash): set<Address> {
    set v | v in sent && Matches(v, height, round, step, b) :: v.validator
  }

  ghost predicate Quorate(c: Config, sent: set<Vote>, round: nat, step: VoteStep, b: Hash) {
    |Voters(sent, c.height, round, step, b)| >= QuorumOf(c)
  }

  lemma QuorateMonotone(c: Config, sent: set<Vote>, sent': set<Vote>, round: nat, step: VoteStep, b: Hash)
    requires sent <= sent' && Quorate(c, sent, round, step, b)
    ensures Quorate(c, sent', round, step, b)
  {
    SubsetSize(Voters(sent, c.height, round, step, b), Voters(sent', c.height, round, step, b));
  }

  /** The store files votes under their own key and holds only sent votes. */
  ghost predicate StoreOk(store: Votes, sent: set<Vote>) {
    forall k :: k in store.votes ==> KeyOf(store.votes[k]) == k && store.votes[k] in sent
  }

  /** A count in one node's store never exceeds the number of distinct senders. */
  lemma CountBoundsVoters(store: Votes, sent: set<Vote>, height: nat, round: nat, step: VoteStep, b: Hash)
    requires StoreOk(store, sent)
    ensures Count(store, height, round, step, b) <= |Voters(sent, height, round, step, b)|
  {
    var keys := Matching(store, height, round, step, b);
    var f := (k: VoteKey) => k.validator;
    InjectiveImageSize(keys, f);
    forall a | a in Image(keys, f) ensures a in Voters(sent, height, round, step, b) {
      var k :| k in keys && f(k) == a;
      assert store.votes[k] in sent && store.votes[k].validator == a;
    }
    SubsetSize(Image(keys, f), Voters(sent, height, round, step, b));
  }

  // ----- The voting discipline of a correct validator -----

  ghost predicate PrevoteBy(sent: set<Vote>, p: Address, v: Vote) {
    v in sent && v.validator == p && v.step == Prevote && v.blockHash != NIL_HASH
  }

  ghost predicate PrecommitBy(sent: set<Vote>, p: Address, v: Vote) {
    v in sent && v.validator == p && v.step == Precommit && v.blockHash != NIL_HASH
  }

  /** At most one prevote and one precommit per round. */
  ghost predicate VotesOnce(sent: set<Vote>, p: Address) {
    forall v, w :: v in sent && w in sent && v.validator == p == w.validator && v.round == w.round && v.step == w.step ==>
      v == w
  }

  /** A non-nil precommit is backed by a polka of its round. */
  ghost predicate PrecommitsBacked(c: Config, sent: set<Vote>, p: Address) {
    forall v :: PrecommitBy(sent, p, v) ==> Quorate(c, sent, v.round, Prevote, v.blockHash)
  }

  /** Prevoting against an earlier precommit needs a polka for the new block in between. */
  ghost predicate LockRespected(c: Config, sent: set<Vote>, p: Address) {
    forall v, w :: PrecommitBy(sent, p, v) && PrevoteBy(sent, p, w) && v.round < w.round
                   && v.blockHash != w.blockHash ==>
      exists r: nat :: v.round < r < w.round && Quorate(c, sent, r, Prevote, w.blockHash)
  }

  ghost predicate Disciplined(c: Config, sent: set<Vote>, p: Address) {
    VotesOnce(sent, p) && PrecommitsBacked(c, sent, p) && LockRespected(c, sent, p)
    && forall v :: v in sent && v.validator == p ==> v.height == c.height
  }

  // ----- Safety from the discipline alone -----

  ghost predicate SentByMembers(c: Config, sent: set<Vote>) {
    forall v :: v in sent ==> v.validator in c.validators
  }

  ghost predicate AllDisciplined(c: Config, sent: set<Vote>) {
    FewFaulty(c) && SentByMembers(c, sent) && forall p :: p in Correct(c) ==> Disciplined(c, sent, p)
  }

  /** Two quorums of votes share a correct sender, who sent both votes. */
  lemma SharedSender(c: Config, sent: set<Vote>, r: nat, step: VoteStep, b: Hash, r': nat, step': VoteStep, b': Hash)
    returns (v: Vote, w: Vote)
    requires FewFaulty(c) && SentByMembers(c, sent)
    requires Quorate(c, sent, r, step, b) && Quorate(c, sent, r', step', b')
    ensures v in sent && w in sent && v.validator == w.validator && v.validator in Correct(c)
    ensures Matches(v, c.height, r, step, b) && Matches(w, c.height, r', step', b')
  {
    var p := QuorumsShareCorrect(c.validators, c.faulty,
                                 Voters(sent, c.height, r, step, b), Voters(sent, c.height, r', step', b'));
    v :| v in sent && Matches(v, c.height, r, step, b) && v.validator == p;
    w :| w in sent && Matches(w, c.height, r', step', b') && w.validator == p;
  }

  /** Precommits for `b` in two adjacent rounds, together of a quorum. */
  ghost predicate Pinned(c: Config, sent: set<Vote>, r: nat, b: Hash) {
    |PinVoters(c, sent, r, b)| >= QuorumOf(c)
  }

  function PinVoters(c: Config, sent: set<Vote>, r: nat, b: Hash): set<Address> {
    Voters(sent, c.height, r, Precommit, b) + Voters(sent, c.height, r + 1, Precommit, b)
  }

  lemma QuorateIsPinned(c: Config, sent: set<Vote>, r: nat, b: Hash)
    requires Quorate(c, sent, r, Precommit, b)
    ensures Pinned(c, sent, r, b)
  {
    SubsetSize(Voters(sent, c.height, r, Precommit, b), PinVoters(c, sent, r, b));
  }

  /** A quorum of any votes shares a correct sender with the precommits that pin a block. */
  lemma PinnedSender(c: Config, sent: set<Vote>, r: nat, b: Hash, others: set<Address>) returns (v: Vote)
    requires FewFaulty(c) && SentByMembers(c, sent) && Pinned(c, sent, r, b)
    requires others <= c.validators && |others| >= QuorumOf(c)
    ensures v in sent && v.validator in others && v.validator in Correct(c)
    ensures v.height == c.height && r <= v.round <= r + 1 && v.step == Precommit && v.blockHash == b
  {
    var p := QuorumsShareCorrect(c.validators, c.faulty, PinVoters(c, sent, r, b), others);
    v :| v in sent && v.validator == p && (Matches(v, c.height, r, Precommit, b) || Matches(v, c.height, r + 1, Precommit, b));
  }

  /** Polkas of one round agree. */
  lemma PolkasAgree(c: Config, sent: set<Vote>, r: nat, b: Hash, b': Hash)
    requires AllDisciplined(c, sent) && Quorate(c, sent, r, Prevote, b) && Quorate(c, sent, r, Prevote, b')
    ensures b == b'
  {
    var v, w := SharedSender(c, sent, r, Prevote, b, r, Prevote, b');
    assert Disciplined(c, sent, v.validator);
  }

  /** After a block is pinned, every later polka is for it. */
  lemma {:induction false} LaterPolkasAgree(c: Config, sent: set<Vote>, r: nat, b: Hash, r': nat, b': Hash)
    requires AllDisciplined(c, sent) && b != NIL_HASH && b' != NIL_HASH
    requires Pinned(c, sent, r, b) && Quorate(c, sent, r', Prevote, b')
    requires r < r'
    ensures b == b'
    decreases r'
  {
    if b != b' {
      var voters := Voters(sent, c.height, r', Prevote, b');
      var v := PinnedSender(c, sent, r, b, voters);
      var p := v.validator;
      var w :| w in sent && Matches(w, c.height, r', Prevote, b') && w.validator == p;
      assert PrecommitBy(sent, p, v) && PrevoteBy(sent, p, w);
      assert Disciplined(c, sent, p);
      if v.round == r' {
        PolkasAgree(c, sent, r', b, b');
      } else {
        var r'' :| v.round < r'' < w.round && Quorate(c, sent, r'', Prevote, w.blockHash);
        LaterPolkasAgree(c, sent, r, b, r'', b');
      }
    }
  }

  /** A correct precommit after a block is pinned is for that block. */
  lemma LaterPrecommitAgrees(c: Config, sent: set<Vote>, r: nat, b: Hash, w: Vote)
    requires AllDisciplined(c, sent) && b != NIL_HASH && Pinned(c, sent, r, b)
    requires w.validator in Correct(c) && PrecommitBy(sent, w.validator, w) && r < w.round
    ensures b == w.blockHash
  {
    assert Disciplined(c, sent, w.validator);
    LaterPolkasAgree(c, sent, r, b, w.round, w.blockHash);
  }

  /** Two pinned blocks share a correct sender, who precommitted both. */
  lemma PinnedPair(c: Config, sent: set<Vote>, r: nat, b: Hash, r': nat, b': Hash) returns (v: Vote, w: Vote)
    requires FewFaulty(c) && SentByMembers(c, sent) && b != NIL_HASH && b' != NIL_HASH
    requires Pinned(c, sent, r, b) && Pinned(c, sent, r', b')
    ensures v.validator == w.validator && v.validator in Correct(c)
    ensures PrecommitBy(sent, v.validator, v) && PrecommitBy(sent, w.validator, w) && v.blockHash == b && w.blockHash == b'
    ensures r <= v.round <= r + 1 && r' <= w.round <= r' + 1
  {
    v := PinnedSender(c, sent, r, b, PinVoters(c, sent, r', b'));
    w :| w in sent && w.validator == v.validator
         && (Matches(w, c.height, r', Precommit, b') || Matches(w, c.height, r' + 1, Precommit, b'));
  }

  /** All blocks pinned at one height, in whatever rounds, are one block. */
  lemma PinnedAgree(c: Config, sent: set<Vote>, r: nat, b: Hash, r': nat, b': Hash)
    requires AllDisciplined(c, sent) && b != NIL_HASH && b' != NIL_HASH
    requires Pinned(c, sent, r, b) && Pinned(c, sent, r', b')
    ensures b == b'
  {
    var v, w := PinnedPair(c, sent, r, b, r', b');
    if r < w.round {
      LaterPrecommitAgrees(c, sent, r, b, w);
    } else if r' < v.round {
      LaterPrecommitAgrees(c, sent, r', b', v);
    } else {
      assert Disciplined(c, sent, v.validator);
    }
  }

  /** All commit quorums of one height, in whatever rounds, name one block. */
  lemma CommitQuorumsAgree(c: Config, sent: set<Vote>, r: nat, b: Hash, r': nat, b': Hash)
    requires AllDisciplined(c, sent) && b != NIL_HASH && b' != NIL_HASH
    requires Quorate(c, sent, r, Precommit, b) && Quorate(c, sent, r', Precommit, b')
    ensures b == b'
  {
    QuorateIsPinned(c, sent, r, b);
    QuorateIsPinned(c, sent, r', b');
    PinnedAgree(c, sent, r, b, r', b');
  }

  // ----- The inductive invariant of a run -----

  /** What the node's fields say about the votes it has sent. */
  ghost predicate Progress(c: Config, s: RoundState, sent: set<Vote>, p: Address) {
    s.height == c.height && s.validatorCount == |c.validators| &&
    forall v :: v in sent && v.validator == p ==>
      v.round <= s.round &&
      (v.round == s.round && v.step == Prevote ==> s.phase != Propose) &&
      (v.round == s.round && v.step == Precommit ==> s.phase == PrecommitPhase || s.phase == Decided)
  }

  /** The lock is at or above every non-nil precommit sent, and is itself backed by a polka. */
  ghost predicate LockOk(c: Config, s: RoundState, sent: set<Vote>, p: Address) {
    (s.lockedBlock.Some? <==> s.lockedRound.Some?) &&
    (s.lockedBlock.Some? ==>
      Quorate(c, sent, s.lockedRound.value, Prevote, s.lockedBlock.value) &&
      s.lockedRound.value <= s.round &&
      (s.lockedRound.value == s.round ==> s.phase == PrecommitPhase || s.phase == Decided)) &&
    forall v :: PrecommitBy(sent, p, v) ==>
      s.lockedBlock.Some? && v.round <= s.lockedRound.value &&
      (v.round == s.lockedRound.value ==> v.blockHash == s.lockedBlock.value)
  }

  /** The part of the invariant that speaks of a node's own votes. */
  ghost predicate VotingOk(c: Config, s: RoundState, sent: set<Vote>, p: Address) {
    Disciplined(c, sent, p) && Progress(c, s, sent, p) && LockOk(c, s, sent, p)
  }

  /** Every evidence item names two conflicting votes that its subject really sent. */
  ghost predicate EvidenceOk(store: Votes, sent: set<Vote>) {
    forall e :: e in store.equivocations ==>
      e.voteA in sent && e.voteB in sent && KeyOf(e.voteA) == KeyOf(e.voteB) && e.voteA.blockHash != e.voteB.blockHash
      && e.validator == e.voteA.validator
  }

  /** A node is decided exactly when it returned one `Commit`, for a quorum still in its store. */
  ghost predicate DecisionOk(s: RoundState, decisions: set<Decision>, p: Address) {
    (s.phase == Decided <==> exists d :: d in decisions && d.node == p) &&
    (forall d, d' :: d in decisions && d' in decisions && d.node == p && d'.node == p ==> d == d') &&
    forall d :: d in decisions && d.node == p ==> d.round == s.round && QuorumAt(s, s.round, d.blockHash)
  }

  ghost predicate ProposalsOk(c: Config, sent: set<Vote>, proposals: set<Receipt>, p: Address) {
    forall v :: PrevoteBy(sent, p, v) ==> Receipt(p, v.blockHash) in proposals
  }

  /** The polka behind a non-nil precommit is in the node's own store. */
  ghost predicate PolkasSeen(c: Config, s: RoundState, sent: set<Vote>, p: Address) {
    forall v :: PrecommitBy(sent, p, v) ==> HasPolka(s.store, c.height, v.round, v.blockHash, QuorumOf(c))
  }

  ghost predicate NodeInv(c: Config, g: System, p: Address)
    requires p in g.nodes
  {
    var s := g.nodes[p];
    VotingOk(c, s, g.sent, p) && StoreOk(s.store, g.sent) && EvidenceOk(s.store, g.sent) &&
    DecisionOk(s, g.decisions, p) && ProposalsOk(c, g.sent, g.proposals, p) && PolkasSeen(c, s, g.sent, p)
  }

  ghost predicate Inv(c: Config, g: System) {
    g.nodes.Keys == Correct(c) && SentByMembers(c, g.sent) &&
    (forall d :: d in g.decisions ==> d.node in Correct(c)) &&
    forall p :: p in g.nodes ==> NodeInv(c, g, p)
  }

  // ----- Preservation -----

  /** A node keeps its invariant while others send votes, decide and receive proposals. */
  lemma FrameOthers(c: Config, g: System, g': System, p: Address)
    requires p in g.nodes && p in g'.nodes && g'.nodes[p] == g.nodes[p]
    requires g.sent <= g'.sent && g.proposals <= g'.proposals && g.decisions <= g'.decisions
    requires forall v :: v in g'.sent && v !in g.sent ==> v.validator != p
    requires forall d :: d in g'.decisions && d !in g.decisions ==> d.node != p
    requires NodeInv(c, g, p)
    ensures NodeInv(c, g', p)
  {
    QuorumsSurvive(c, g.sent, g'.sent);
    FrameVoting(c, g.nodes[p], g.sent, g'.sent, p);
  }

  lemma FrameVoting(c: Config, s: RoundState, sent: set<Vote>, sent': set<Vote>, p: Address)
    requires sent <= sent' && (forall v :: v in sent' && v !in sent ==> v.validator != p)
    requires VotingOk(c, s, sent, p) && PolkasSeen(c, s, sent, p)
    ensures VotingOk(c, s, sent', p) && PolkasSeen(c, s, sent', p)
  {
    QuorumsSurvive(c, sent, sent');
    assert forall v :: PrecommitBy(sent', p, v) ==> PrecommitBy(sent, p, v);
    assert forall v :: PrevoteBy(sent', p, v) ==> PrevoteBy(sent, p, v);
  }

  lemma QuorumsSurvive(c: Config, sent: set<Vote>, sent': set<Vote>)
    requires sent <= sent'
    ensures forall r: nat, step, b: Hash :: Quorate(c, sent, r, step, b) ==> Quorate(c, sent', r, step, b)
  {
    forall r: nat, step, b: Hash | Quorate(c, sent, r, step, b) ensures Quorate(c, sent', r, step, b) {
      QuorateMonotone(c, sent, sent', r, step, b);
    }
  }

  /** Recording a sent vote keeps the store's invariants and never lowers a count. */
  lemma RecordedKeeps(store: Votes, sent: set<Vote>, v: Vote)
    requires StoreOk(store, sent) && EvidenceOk(store, sent) && v in sent
    ensures StoreOk(Recorded(store, v), sent) && EvidenceOk(Recorded(store, v), sent)
    ensures forall h: nat, r: nat, step, b: Hash :: Count(store, h, r, step, b) <= Count(Recorded(store, v), h, r, step, b)
  {
    forall h: nat, r: nat, step, b: Hash
      ensures Count(store, h, r, step, b) <= Count(Recorded(store, v), h, r, step, b)
    {
      SubsetSize(Matching(store, h, r, step, b), Matching(Recorded(store, v), h, r, step, b));
    }
  }

  /** Sending the prevote of the current round, for a block the lock allows. */
  lemma SendPrevote(c: Config, s: RoundState, sent: set<Vote>, p: Address, vote: Vote)
    requires VotingOk(c, s, sent, p) && s.phase == Propose
    requires vote == Vote(s.height, s.round, Prevote, vote.blockHash, p)
    requires vote.blockHash == NIL_HASH || s.lockedBlock == None || s.lockedBlock == Some(vote.blockHash)
    ensures VotingOk(c, s.(phase := PrevotePhase), sent + {vote}, p)
  {
    var sent' := sent + {vote};
    QuorumsSurvive(c, sent, sent');
    assert forall v :: PrecommitBy(sent', p, v) ==> PrecommitBy(sent, p, v);
    forall v, w | PrecommitBy(sent', p, v) && PrevoteBy(sent', p, w) && v.round < w.round && v.blockHash != w.blockHash
      ensures exists r: nat :: v.round < r < w.round && Quorate(c, sent', r, Prevote, w.blockHash)
    {
      if w == vote {
        assert v.round < s.lockedRound.value < w.round;
        assert Quorate(c, sent', s.lockedRound.value, Prevote, w.blockHash);
      } else {
        assert PrevoteBy(sent, p, w);
        var r: nat :| v.round < r < w.round && Quorate(c, sent, r, Prevote, w.blockHash);
        assert Quorate(c, sent', r, Prevote, w.blockHash);
      }
    }
  }

  /** Sending the precommit of the current round: nil, or for a block with a polka, which becomes the lock. */
  lemma SendPrecommit(c: Config, s: RoundState, s': RoundState, sent: set<Vote>, p: Address, vote: Vote)
    requires VotingOk(c, s, sent, p) && s.phase == PrevotePhase
    requires vote == Vote(s.height, s.round, Precommit, vote.blockHash, p)
    requires vote.blockHash != NIL_HASH ==> Quorate(c, sent, s.round, Prevote, vote.blockHash)
    requires s'.height == s.height && s'.round == s.round && s'.validatorCount == s.validatorCount
    requires s'.phase == PrecommitPhase
    requires if vote.blockHash == NIL_HASH then s'.lockedBlock == s.lockedBlock && s'.lockedRound == s.lockedRound
             else s'.lockedBlock == Some(vote.blockHash) && s'.lockedRound == Some(s.round)
    ensures VotingOk(c, s', sent + {vote}, p)
  {
    var sent' := sent + {vote};
    QuorumsSurvive(c, sent, sent');
    PrecommitRespectsLock(c, s, sent, p, vote);
    assert forall v :: PrecommitBy(sent', p, v) ==> v == vote || PrecommitBy(sent, p, v);
  }

  /** A precommit of the current round comes before no prevote sent so far. */
  lemma PrecommitRespectsLock(c: Config, s: RoundState, sent: set<Vote>, p: Address, vote: Vote)
    requires Progress(c, s, sent, p) && LockRespected(c, sent, p)
    requires vote == Vote(s.height, s.round, Precommit, vote.blockHash, p)
    ensures LockRespected(c, sent + {vote}, p)
  {
    var sent' := sent + {vote};
    QuorumsSurvive(c, sent, sent');
    forall v, w | PrecommitBy(sent', p, v) && PrevoteBy(sent', p, w) && v.round < w.round && v.blockHash != w.blockHash
      ensures exists r: nat :: v.round < r < w.round && Quorate(c, sent', r, Prevote, w.blockHash)
    {
      assert PrevoteBy(sent, p, w) && PrecommitBy(sent, p, v);
      var r: nat :| v.round < r < w.round && Quorate(c, sent, r, Prevote, w.blockHash);
      assert Quorate(c, sent', r, Prevote, w.blockHash);
    }
  }

  /** One reaction keeps the voting invariant. */
  lemma ReactVoting(c: Config, s: RoundState, e: Event, sent: set<Vote>, p: Address)
    requires VotingOk(c, s, sent, p) && StoreOk(s.store, sent) && EvidenceOk(s.store, sent) && Enabled(s, e, sent)
    ensures VotingOk(c, React(s, e).state, sent + Broadcasts(p, s, React(s, e).actions), p)
  {
    var r := React(s, e);
    if r.actions != [] && r.actions[0].BroadcastPrevote? {
      var vote := Vote(s.height, s.round, Prevote, r.actions[0].blockHash, p);
      assert Broadcasts(p, s, r.actions) == {vote};
      SendPrevote(c, s, sent, p, vote);
    } else if r.actions != [] && r.actions[0].BroadcastPrecommit? {
      ReactPrecommit(c, s, e, sent, p);
    } else {
      assert Broadcasts(p, s, r.actions) == {};
      assert sent + Broadcasts(p, s, r.actions) == sent;
    }
  }

  lemma ReactPrecommit(c: Config, s: RoundState, e: Event, sent: set<Vote>, p: Address)
    requires VotingOk(c, s, sent, p) && StoreOk(s.store, sent) && EvidenceOk(s.store, sent) && Enabled(s, e, sent)
    requires React(s, e).actions != [] && React(s, e).actions[0].BroadcastPrecommit?
    ensures VotingOk(c, React(s, e).state, sent + Broadcasts(p, s, React(s, e).actions), p)
  {
    var r := React(s, e);
    var vote := Vote(s.height, s.round, Precommit, r.actions[0].blockHash, p);
    assert Broadcasts(p, s, r.actions) == {vote};
    if e.PrevoteMsg? {
      RecordedKeeps(s.store, sent, e.vote);
      CountBoundsVoters(r.state.store, sent, s.height, s.round, Prevote, vote.blockHash);
    }
    SendPrecommit(c, s, r.state, sent, p, vote);
  }

  lemma ReactStore(s: RoundState, e: Event, sent: set<Vote>)
    requires StoreOk(s.store, sent) && EvidenceOk(s.store, sent) && Enabled(s, e, sent)
    ensures StoreOk(React(s, e).state.store, sent) && EvidenceOk(React(s, e).state.store, sent)
    ensures forall r: nat, b: Hash :: QuorumAt(s, r, b) ==> QuorumAt(React(s, e).state, r, b)
  {
    if e.PrevoteMsg? || e.PrecommitMsg? {
      RecordedKeeps(s.store, sent, e.vote);
    }
  }

  lemma ReactDecision(s: RoundState, e: Event, sent: set<Vote>, decisions: set<Decision>, p: Address)
    requires StoreOk(s.store, sent) && EvidenceOk(s.store, sent) && Enabled(s, e, sent) && DecisionOk(s, decisions, p)
    ensures DecisionOk(React(s, e).state, decisions + Decisions(p, React(s, e).actions), p)
  {
    var r := React(s, e);
    ReactStore(s, e, sent);
    if r.actions != [] && r.actions[0].Commit? {
      assert Decisions(p, r.actions) == {Decision(p, e.vote.blockHash, s.round)};
    } else {
      assert Decisions(p, r.actions) == {};
      assert decisions + Decisions(p, r.actions) == decisions;
    }
  }

  lemma ReactProposals(c: Config, s: RoundState, e: Event, sent: set<Vote>, proposals: set<Receipt>, p: Address)
    requires Enabled(s, e, sent) && ProposalsOk(c, sent, proposals, p)
    ensures ProposalsOk(c, sent + Broadcasts(p, s, React(s, e).actions), proposals + Receipts(p, e), p)
  {
    var sent' := sent + Broadcasts(p, s, React(s, e).actions);
    forall v | PrevoteBy(sent', p, v) ensures Receipt(p, v.blockHash) in proposals + Receipts(p, e) {
      if v in sent {
        assert PrevoteBy(sent, p, v);
      }
    }
  }

  /** A node precommits a block only on a polka in its store, and stores forget no vote. */
  lemma ReactPolkas(c: Config, s: RoundState, e: Event, sent: set<Vote>, p: Address)
    requires StoreOk(s.store, sent) && EvidenceOk(s.store, sent) && Enabled(s, e, sent)
    requires s.height == c.height && s.validatorCount == |c.validators| && PolkasSeen(c, s, sent, p)
    ensures PolkasSeen(c, React(s, e).state, sent + Broadcasts(p, s, React(s, e).actions), p)
  {
    var r := React(s, e);
    if e.PrevoteMsg? || e.PrecommitMsg? {
      RecordedKeeps(s.store, sent, e.vote);
    }
    forall v | PrecommitBy(sent + Broadcasts(p, s, r.actions), p, v)
      ensures HasPolka(r.state.store, c.height, v.round, v.blockHash, QuorumOf(c))
    {
      if v in sent {
        assert PrecommitBy(sent, p, v);
      }
    }
  }

  lemma OwnStep(c: Config, g: System, g': System, p: Address, e: Event)
    requires p in g.nodes && NodeInv(c, g, p) && NodeStep(c, g, g', p, e)
    ensures NodeInv(c, g', p)
  {
    var s := g.nodes[p];
    ReactVoting(c, s, e, g.sent, p);
    ReactStore(s, e, g.sent);
    ReactDecision(s, e, g.sent, g.decisions, p);
    ReactProposals(c, s, e, g.sent, g.proposals, p);
    ReactPolkas(c, s, e, g.sent, p);
  }

  /** A step of `p` adds only votes and decisions of `p`. */
  lemma StepAdds(c: Config, g: System, g': System, p: Address, e: Event)
    requires NodeStep(c, g, g', p, e)
    ensures g'.nodes.Keys == g.nodes.Keys
    ensures forall q :: q in g.nodes && q != p ==> g'.nodes[q] == g.nodes[q]
    ensures g.sent <= g'.sent && g.proposals <= g'.proposals && g.decisions <= g'.decisions
    ensures forall v :: v in g'.sent && v !in g.sent ==> v.validator == p
    ensures forall d :: d in g'.decisions && d !in g.decisions ==> d.node == p
  {
  }

  lemma NodeStepKeepsInv(c: Config, g: System, g': System, p: Address, e: Event)
    requires Inv(c, g) && NodeStep(c, g, g', p, e)
    ensures Inv(c, g')
  {
    StepAdds(c, g, g', p, e);
    forall q | q in g'.nodes ensures NodeInv(c, g', q) {
      assert NodeInv(c, g, q);
      if q == p {
        OwnStep(c, g, g', p, e);
      } else {
        FrameOthers(c, g, g', q);
      }
    }
  }

  lemma FaultyStepKeepsInv(c: Config, g: System, g': System, v: Vote)
    requires FewFaulty(c) && Inv(c, g) && FaultyStep(c, g, g', v)
    ensures Inv(c, g')
  {
    forall q | q in g'.nodes ensures NodeInv(c, g', q) {
      assert NodeInv(c, g, q);
      FrameOthers(c, g, g', q);
    }
  }

  lemma StepKeepsInv(c: Config, g: System, g': System)
    requires FewFaulty(c) && Inv(c, g) && Next(c, g, g')
    ensures Inv(c, g')
  {
    if p, e :| NodeStep(c, g, g', p, e) {
      NodeStepKeepsInv(c, g, g', p, e);
    } else {
      var v :| FaultyStep(c, g, g', v);
      FaultyStepKeepsInv(c, g, g', v);
    }
  }

  /** The invariant holds at every point of every run. */
  lemma {:induction false} RunKeepsInv(c: Config, run: seq<System>, i: nat)
    requires FewFaulty(c) && IsRun(c, run) && i < |run|
    ensures Inv(c, run[i])
  {
    if i > 0 {
      RunKeepsInv(c, run, i - 1);
      assert Next(c, run[i - 1], run[i - 1 + 1]);
      StepKeepsInv(c, run[i - 1], run[i]);
    }
  }

  // ----- What every run guarantees -----

  lemma DecisionIsQuorate(c: Config, g: System, p: Address, round: nat, b: Hash)
    requires Inv(c, g) && p in g.nodes && QuorumAt(g.nodes[p], round, b)
    ensures Quorate(c, g.sent, round, Precommit, b) && b != NIL_HASH
  {
    CountBoundsVoters(g.nodes[p].store, g.sent, c.height, round, Precommit, b);
  }

  lemma InvIsDisciplined(c: Config, g: System)
    requires FewFaulty(c) && Inv(c, g)
    ensures AllDisciplined(c, g.sent)
  {
    forall p | p in Correct(c) ensures Disciplined(c, g.sent, p) {
      assert NodeInv(c, g, p);
    }
  }

  /** Any two commits returned by correct nodes, at any two points of a run, name the same block. */
  lemma AgreementHolds(c: Config, run: seq<System>, i: nat, j: nat, d: Decision, d': Decision)
    requires FewFaulty(c) && IsRun(c, run) && i < |run| && j < |run|
    requires d in run[i].decisions && d' in run[j].decisions
    ensures d.blockHash == d'.blockHash
  {
    var last := if i <= j then j else i;
    DecisionsGrow(c, run, i, last);
    DecisionsGrow(c, run, j, last);
    var g := run[last];
    RunKeepsInv(c, run, last);
    InvIsDisciplined(c, g);
    DecisionIsQuorate(c, g, d.node, d.round, d.blockHash);
    DecisionIsQuorate(c, g, d'.node, d'.round, d'.blockHash);
    CommitQuorumsAgree(c, g.sent, d.round, d.blockHash, d'.round, d'.blockHash);
  }

  lemma {:induction false} DecisionsGrow(c: Config, run: seq<System>, i: nat, j: nat)
    requires IsRun(c, run) && i <= j < |run|
    ensures run[i].decisions <= run[j].decisions
    decreases j
  {
    if i < j {
      DecisionsGrow(c, run, i, j - 1);
      assert Next(c, run[j - 1], run[j - 1 + 1]);
    }
  }

  /** A committed block is non-nil and was received as a proposal by some correct node. */
  lemma ValidityHolds(c: Config, run: seq<System>, i: nat, d: Decision) returns (p: Address)
    requires FewFaulty(c) && IsRun(c, run) && i < |run| && d in run[i].decisions
    ensures d.blockHash != NIL_HASH
    ensures p in Correct(c) && Receipt(p, d.blockHash) in run[i].proposals
  {
    var g := run[i];
    RunKeepsInv(c, run, i);
    DecisionIsQuorate(c, g, d.node, d.round, d.blockHash);
    var v, _ := SharedSender(c, g.sent, d.round, Precommit, d.blockHash, d.round, Precommit, d.blockHash);
    assert NodeInv(c, g, v.validator) && PrecommitBy(g.sent, v.validator, v);
    var w, _ := SharedSender(c, g.sent, d.round, Prevote, d.blockHash, d.round, Prevote, d.blockHash);
    assert NodeInv(c, g, w.validator) && PrevoteBy(g.sent, w.validator, w);
    p := w.validator;
  }

  /**
   * A decided node's `committed_block_hash` is the block of its `Commit`
   * action, for every answer the map iteration order could produce and
   * whatever late votes its store holds.
   */
  lemma CommittedHashIsDecision(c: Config, run: seq<System>, i: nat, d: Decision, answer: Option<Hash>)
    requires FewFaulty(c) && IsRun(c, run) && i < |run| && d in run[i].decisions
    requires d.node in run[i].nodes && CommittedAnswer(run[i].nodes[d.node], answer)
    ensures answer == Some(d.blockHash)
  {
    var g := run[i];
    RunKeepsInv(c, run, i);
    var s := g.nodes[d.node];
    assert NodeInv(c, g, d.node);
    assert QuorumAt(s, s.round, d.blockHash);
    assert answer.Some?;
    var round: nat :| round <= s.round && QuorumAt(s, round, answer.value);
    InvIsDisciplined(c, g);
    DecisionIsQuorate(c, g, d.node, s.round, d.blockHash);
    DecisionIsQuorate(c, g, d.node, round, answer.value);
    CommitQuorumsAgree(c, g.sent, s.round, d.blockHash, round, answer.value);
  }

  /** A node answers a hash exactly when it has returned a `Commit`. */
  lemma DecidedIffCommitted(c: Config, run: seq<System>, i: nat, p: Address, answer: Option<Hash>)
    requires FewFaulty(c) && IsRun(c, run) && i < |run| && p in run[i].nodes
    requires CommittedAnswer(run[i].nodes[p], answer)
    ensures answer.Some? <==> exists d :: d in run[i].decisions && d.node == p
  {
    RunKeepsInv(c, run, i);
    assert NodeInv(c, run[i], p);
    if d :| d in run[i].decisions && d.node == p {
      CommittedHashIsDecision(c, run, i, d, answer);
    }
  }

  /** The handlers make every correct node follow the voting discipline. */
  lemma HandlersDiscipline(c: Config, run: seq<System>, i: nat, p: Address)
    requires FewFaulty(c) && IsRun(c, run) && i < |run| && p in Correct(c)
    ensures p in run[i].nodes && PolkasSeen(c, run[i].nodes[p], run[i].sent, p)
    ensures VotesOnce(run[i].sent, p)
    ensures PrecommitsBacked(c, run[i].sent, p)
    ensures LockRespected(c, run[i].sent, p)
  {
    RunKeepsInv(c, run, i);
    assert NodeInv(c, run[i], p);
  }

  /** No correct node's store ever holds evidence against a correct node. */
  lemma NoFalseEvidence(c: Config, run: seq<System>, i: nat, p: Address, e: Evidence)
    requires FewFaulty(c) && IsRun(c, run) && i < |run|
    requires p in run[i].nodes && e in run[i].nodes[p].store.equivocations
    ensures e.validator in c.faulty
    ensures e.voteA in run[i].sent && e.voteB in run[i].sent && e.voteA.blockHash != e.voteB.blockHash
  {
    RunKeepsInv(c, run, i);
    assert NodeInv(c, run[i], p);
    if e.validator in Correct(c) {
      HandlersDiscipline(c, run, i, e.validator);
      assert false;
    }
  }
}

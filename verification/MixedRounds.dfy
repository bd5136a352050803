/**
 * Why the rounds of a certificate must be adjacent. For every distance above one
 * there are runs of four validators, one of them faulty, after which certificates
 * of two rounds at that distance are accepted for two blocks of one height, or
 * for a block other than the one a correct node commits.
 */
module MixedRounds {
  import opened Prelude
  import opened Quorum
  import opened Round
  import opened Agreement
  import C = CommitCertificate
  import F = Finality

  /** Validators 0, 1 and 2 are correct, 3 is faulty. */
  const FOUR: Config := Config(1, {0, 1, 2, 3}, {3})

  const B: Hash := 10
  const B': Hash := 20

  // ----- Reaching states -----

  ghost predicate Reached(g: System) {
    exists run :: IsRun(FOUR, run) && run[|run| - 1] == g
  }

  lemma ReachedNext(g: System, g': System)
    requires Reached(g) && Next(FOUR, g, g')
    ensures Reached(g')
  {
    var run :| IsRun(FOUR, run) && run[|run| - 1] == g;
    var longer := run + [g'];
    forall i | 0 <= i < |longer| - 1 ensures Next(FOUR, longer[i], longer[i + 1]) {
      assert i < |run| - 1 ==> longer[i + 1] == run[i + 1];
    }
    assert longer[|longer| - 1] == g';
  }

  /** What a node looks like from outside. */
  datatype Look = Look(round: nat, phase: Phase, locked: Option<Hash>)

  /** A node has recorded prevotes only, and none of its round until it precommits. */
  ghost predicate Looks(s: RoundState, l: Look) {
    s.height == 1 && s.validatorCount == 4 && s.round == l.round && s.phase == l.phase && s.lockedBlock == l.locked &&
    forall k :: k in s.store.votes ==>
      KeyOf(s.store.votes[k]) == k && k.step == Prevote && (k.round < l.round || (k.round == l.round && l.phase == PrecommitPhase))
  }

  /** A reached state in which the nodes look like this and at least these votes are out. */
  ghost predicate Scene(g: System, looks: map<Address, Look>, votes: set<Vote>) {
    Reached(g) && looks.Keys == {0, 1, 2} && votes <= g.sent && AllLook(g.nodes, looks) && NoneAhead(g.sent, looks)
  }

  /** The faulty validator has not voted for a round that some node has not entered, or only just entered. */
  ghost predicate NoneAhead(sent: set<Vote>, looks: map<Address, Look>) {
    forall v, p :: v in sent && v.validator == 3 && p in looks ==> Behind(v, looks[p])
  }

  predicate Behind(v: Vote, l: Look) {
    v.round < l.round || (v.round == l.round && l.phase != Propose)
  }

  /** A node does not go back. */
  predicate Onward(l: Look, l': Look) {
    l.round < l'.round || (l.round == l'.round && (l.phase != Propose ==> l'.phase != Propose))
  }

  lemma StillNoneAhead(sent: set<Vote>, sent': set<Vote>, looks: map<Address, Look>, p: Address, l: Look)
    requires NoneAhead(sent, looks) && p in looks && Onward(looks[p], l)
    requires forall v :: v in sent' && v.validator == 3 ==> v in sent
    ensures NoneAhead(sent', looks[p := l])
  {
    var looks' := looks[p := l];
    forall v, q | v in sent' && v.validator == 3 && q in looks' ensures Behind(v, looks'[q]) {
      assert q in looks && Behind(v, looks[q]);
    }
  }

  ghost predicate AllLook(nodes: map<Address, RoundState>, looks: map<Address, Look>) {
    nodes.Keys == looks.Keys && forall p :: p in looks ==> Looks(nodes[p], looks[p])
  }

  ghost function After(g: System, p: Address, e: Event): System
    requires p in g.nodes && Enabled(g.nodes[p], e, g.sent)
  {
    var r := React(g.nodes[p], e);
    System(g.nodes[p := r.state], g.sent + Broadcasts(p, g.nodes[p], r.actions),
           g.decisions + Decisions(p, r.actions), g.proposals + Receipts(p, e))
  }

  lemma ReachedAfter(g: System, p: Address, e: Event)
    requires Reached(g) && p in {0, 1, 2} && p in g.nodes && Enabled(g.nodes[p], e, g.sent)
    ensures Reached(After(g, p, e))
  {
    assert NodeStep(FOUR, g, After(g, p, e), p, e);
    ReachedNext(g, After(g, p, e));
  }

  lemma OneLooksNew(nodes: map<Address, RoundState>, looks: map<Address, Look>, p: Address, s: RoundState, l: Look)
    requires AllLook(nodes, looks) && p in looks && Looks(s, l)
    ensures AllLook(nodes[p := s], looks[p := l]) && looks[p := l].Keys == looks.Keys
  {
    var nodes', looks' := nodes[p := s], looks[p := l];
    forall q | q in looks' ensures Looks(nodes'[q], looks'[q]) {
      assert q != p ==> q in looks;
    }
  }

  /** One event at one node. */
  lemma Act(g: System, looks: map<Address, Look>, votes: set<Vote>, p: Address, e: Event, l: Look) returns (g': System)
    requires Scene(g, looks, votes) && p in looks && Enabled(g.nodes[p], e, g.sent) && Looks(React(g.nodes[p], e).state, l)
    requires Onward(looks[p], l)
    ensures Scene(g', looks[p := l], votes + Broadcasts(p, g.nodes[p], React(g.nodes[p], e).actions))
  {
    g' := After(g, p, e);
    ReachedAfter(g, p, e);
    OneLooksNew(g.nodes, looks, p, React(g.nodes[p], e).state, l);
    SendsOwn(g, p, e);
    StillNoneAhead(g.sent, g'.sent, looks, p, l);
  }

  lemma SendsOwn(g: System, p: Address, e: Event)
    requires p in {0, 1, 2} && p in g.nodes && Enabled(g.nodes[p], e, g.sent)
    ensures forall v :: v in After(g, p, e).sent && v.validator == 3 ==> v in g.sent
  {
  }

  /** A scene promises no more than it needs to. */
  lemma Fewer(g: System, looks: map<Address, Look>, votes: set<Vote>, fewer: set<Vote>)
    requires Scene(g, looks, votes) && fewer <= votes
    ensures Scene(g, looks, fewer)
  {
  }

  // ----- The moves -----

  /** A node that is free to prevote for a proposal does so. */
  lemma Vouch(g: System, looks: map<Address, Look>, votes: set<Vote>, p: Address, b: Hash) returns (g': System)
    requires Scene(g, looks, votes) && p in looks && looks[p].phase == Propose
    requires looks[p].locked == None || looks[p].locked == Some(b)
    ensures Scene(g', looks[p := looks[p].(phase := PrevotePhase)], votes + {Vote(1, looks[p].round, Prevote, b, p)})
  {
    var s := g.nodes[p];
    assert Looks(s, looks[p]);
    g' := Act(g, looks, votes, p, Proposal(b), looks[p].(phase := PrevotePhase));
    assert BroadcastPrevote(b) in React(s, Proposal(b)).actions;
    Fewer(g', looks[p := looks[p].(phase := PrevotePhase)], votes + Broadcasts(p, s, React(s, Proposal(b)).actions),
          votes + {Vote(1, looks[p].round, Prevote, b, p)});
  }

  /** A timer that only moves the node on. */
  lemma Wait(g: System, looks: map<Address, Look>, votes: set<Vote>, p: Address, e: Event) returns (g': System)
    requires Scene(g, looks, votes) && p in looks && looks[p].round < U32_MAX
    requires (looks[p].phase == Propose && e == ProposeTimer) || (looks[p].phase == PrevotePhase && e == PrevoteTimer)
             || (looks[p].phase == PrecommitPhase && e == PrecommitTimer)
    ensures Scene(g', looks[p := Moved(looks[p])], votes)
  {
    var s := g.nodes[p];
    assert Looks(s, looks[p]);
    g' := Act(g, looks, votes, p, e, Moved(looks[p]));
    Fewer(g', looks[p := Moved(looks[p])], votes + Broadcasts(p, s, React(s, e).actions), votes);
  }

  function Moved(l: Look): Look {
    match l.phase
    case Propose => l.(phase := PrevotePhase)
    case PrevotePhase => l.(phase := PrecommitPhase)
    case _ => l.(phase := Propose, round := l.round + 1)
  }

  lemma Cheat(g: System, looks: map<Address, Look>, votes: set<Vote>, v: Vote) returns (g': System)
    requires Scene(g, looks, votes) && v.validator == 3 && forall p :: p in looks ==> Behind(v, looks[p])
    ensures Scene(g', looks, votes + {v})
  {
    g' := g.(sent := g.sent + {v});
    assert FaultyStep(FOUR, g, g', v);
    ReachedNext(g, g');
  }

  /** Votes of three validators for one block in one round and step. */
  ghost predicate Alike(v: Vote, w: Vote, x: Vote, r: nat, step: VoteStep, b: Hash) {
    v == Vote(1, r, step, b, v.validator) && w == Vote(1, r, step, b, w.validator) && x == Vote(1, r, step, b, x.validator)
    && Distinct([v.validator, w.validator, x.validator])
  }

  ghost predicate Filed(store: Votes) {
    forall k :: k in store.votes ==> KeyOf(store.votes[k]) == k
  }

  /** Recording the votes of one round and step one by one counts them. */
  lemma Counts(store: Votes, v: Vote, w: Vote, x: Vote, r: nat, step: VoteStep, b: Hash)
    requires Filed(store) && forall k :: k in store.votes ==> k.round < r || k.step != step
    requires Alike(v, w, x, r, step, b)
    ensures var one, two := Recorded(store, v), Recorded(Recorded(store, v), w);
            && Count(one, 1, r, step, b) == 1 && Count(two, 1, r, step, b) == 2
            && Count(Recorded(two, x), 1, r, step, b) == 3
            && Filed(Recorded(two, x))
            && forall k :: k in Recorded(two, x).votes ==> k in store.votes || (k.round == r && k.step == step)
  {
    var one, two := Recorded(store, v), Recorded(Recorded(store, v), w);
    var vs := [v.validator, w.validator, x.validator];
    assert vs[0] != vs[1] && vs[0] != vs[2] && vs[1] != vs[2];
    assert Matching(one, 1, r, step, b) == {KeyOf(v)};
    assert Matching(two, 1, r, step, b) == {KeyOf(v), KeyOf(w)};
    assert Matching(Recorded(two, x), 1, r, step, b) == {KeyOf(v), KeyOf(w), KeyOf(x)};
  }

  /** Two reactions that only record, and a third that completes the polka. */
  lemma Completes(s: RoundState, l: Look, v: Vote, w: Vote, x: Vote, b: Hash)
    requires Looks(s, l) && l.phase == PrevotePhase && b != NIL_HASH && Alike(v, w, x, l.round, Prevote, b)
    ensures var one := s.(store := Recorded(s.store, v));
            var two := s.(store := Recorded(one.store, w));
            && OnPrevote(s, v) == Reaction(one, []) && OnPrevote(one, w) == Reaction(two, [])
            && OnPrevote(two, x).actions == [BroadcastPrecommit(b)]
            && Looks(OnPrevote(two, x).state, Look(l.round, PrecommitPhase, Some(b)))
  {
    Counts(s.store, v, w, x, l.round, Prevote, b);
    var one := s.(store := Recorded(s.store, v));
    var two := s.(store := Recorded(one.store, w));
    assert QuorumSize(4) == 3;
    assert OnPrevote(one, w) == Reaction(two, []);
  }

  /** The same for precommits: the third completes the commit quorum. */
  lemma Commits(s: RoundState, l: Look, v: Vote, w: Vote, x: Vote, b: Hash)
    requires Looks(s, l) && l.phase == PrecommitPhase && b != NIL_HASH && Alike(v, w, x, l.round, Precommit, b)
    ensures var one := s.(store := Recorded(s.store, v));
            var two := s.(store := Recorded(one.store, w));
            && OnPrecommit(s, v) == Reaction(one, []) && OnPrecommit(one, w) == Reaction(two, [])
            && OnPrecommit(two, x).actions == [Commit(b, l.round)]
  {
    Counts(s.store, v, w, x, l.round, Precommit, b);
    var one := s.(store := Recorded(s.store, v));
    var two := s.(store := Recorded(one.store, w));
    assert QuorumSize(4) == 3;
    assert OnPrecommit(one, w) == Reaction(two, []);
  }

  /** An event that returns no action only changes the node. */
  lemma Silent(g: System, p: Address, e: Event, s: RoundState)
    requires Reached(g) && p in {0, 1, 2} && p in g.nodes && Enabled(g.nodes[p], e, g.sent) && !e.Proposal?
    requires React(g.nodes[p], e) == Reaction(s, [])
    ensures Reached(g.(nodes := g.nodes[p := s]))
  {
    ReachedAfter(g, p, e);
    assert After(g, p, e) == g.(nodes := g.nodes[p := s]);
  }

  /** A node that receives three prevotes for a block locks and precommits it. */
  lemma Witness(g: System, looks: map<Address, Look>, votes: set<Vote>, p: Address, b: Hash, x: Address, y: Address) returns (g': System)
    requires Scene(g, looks, votes) && p in looks && looks[p].phase == PrevotePhase && b != NIL_HASH
    requires Distinct([x, y, 3]) && Backed(votes, looks[p].round, Prevote, b, x, y)
    ensures Scene(g', looks[p := Look(looks[p].round, PrecommitPhase, Some(b))], votes + {Vote(1, looks[p].round, Precommit, b, p)})
  {
    var l := looks[p];
    var three: RoundState;
    assert Looks(g.nodes[p], l);
    g', three := ReceiveThree(g, p, l, b, x, y);
    OneLooksNew(g.nodes, looks, p, three, Look(l.round, PrecommitPhase, Some(b)));
    StillNoneAhead(g.sent, g'.sent, looks, p, Look(l.round, PrecommitPhase, Some(b)));
  }

  lemma ReceiveThree(g: System, p: Address, l: Look, b: Hash, x: Address, y: Address) returns (g': System, three: RoundState)
    requires Reached(g) && p in {0, 1, 2} && p in g.nodes && Looks(g.nodes[p], l) && l.phase == PrevotePhase && b != NIL_HASH
    requires Distinct([x, y, 3]) && Backed(g.sent, l.round, Prevote, b, x, y)
    ensures Reached(g') && g'.nodes == g.nodes[p := three] && Looks(three, Look(l.round, PrecommitPhase, Some(b)))
    ensures g.sent + {Vote(1, l.round, Precommit, b, p)} <= g'.sent && forall v :: v in g'.sent && v.validator == 3 ==> v in g.sent
  {
    var s := g.nodes[p];
    var v, w, z := Vote(1, l.round, Prevote, b, x), Vote(1, l.round, Prevote, b, y), Vote(1, l.round, Prevote, b, 3);
    Completes(s, l, v, w, z, b);
    var one := s.(store := Recorded(s.store, v));
    var two := s.(store := Recorded(one.store, w));
    var g2 := ReceiveTwo(g, p, v, w, one, two);
    three := OnPrevote(two, z).state;
    g' := Precommits(g2, p, z, b, three);
    assert g2.nodes[p := three] == g.nodes[p := three];
  }

  lemma Precommits(g: System, p: Address, z: Vote, b: Hash, s: RoundState) returns (g': System)
    requires Reached(g) && p in {0, 1, 2} && p in g.nodes && z in g.sent
    requires OnPrevote(g.nodes[p], z) == Reaction(s, [BroadcastPrecommit(b)])
    ensures Reached(g') && g'.nodes == g.nodes[p := s]
    ensures g.sent + {Vote(g.nodes[p].height, g.nodes[p].round, Precommit, b, p)} <= g'.sent
    ensures forall v :: v in g'.sent && v.validator == 3 ==> v in g.sent
  {
    ReachedAfter(g, p, PrevoteMsg(z));
    g' := After(g, p, PrevoteMsg(z));
    assert BroadcastPrecommit(b) in OnPrevote(g.nodes[p], z).actions;
  }

  /** Two correct validators and the faulty one sent this vote. */
  ghost predicate Backed(votes: set<Vote>, round: nat, step: VoteStep, b: Hash, x: Address, y: Address) {
    Vote(1, round, step, b, x) in votes && Vote(1, round, step, b, y) in votes && Vote(1, round, step, b, 3) in votes
  }

  function Arrival(v: Vote): Event {
    if v.step == Prevote then PrevoteMsg(v) else PrecommitMsg(v)
  }

  lemma ReceiveTwo(g: System, p: Address, v: Vote, w: Vote, one: RoundState, two: RoundState) returns (g2: System)
    requires Reached(g) && p in {0, 1, 2} && p in g.nodes && v in g.sent && w in g.sent
    requires React(g.nodes[p], Arrival(v)) == Reaction(one, []) && React(one, Arrival(w)) == Reaction(two, [])
    ensures Reached(g2) && g2 == g.(nodes := g.nodes[p := two])
  {
    Silent(g, p, Arrival(v), one);
    var g1 := g.(nodes := g.nodes[p := one]);
    Silent(g1, p, Arrival(w), two);
    g2 := g1.(nodes := g1.nodes[p := two]);
    assert g1.nodes[p := two] == g.nodes[p := two];
  }

  /** A node that receives three precommits for a block commits it. */
  lemma Decide(g: System, looks: map<Address, Look>, votes: set<Vote>, p: Address, b: Hash, x: Address, y: Address)
    returns (g': System)
    requires Scene(g, looks, votes) && p in looks && looks[p].phase == PrecommitPhase && b != NIL_HASH
    requires Distinct([x, y, 3]) && Backed(votes, looks[p].round, Precommit, b, x, y)
    ensures Reached(g') && votes <= g'.sent && Decision(p, b, looks[p].round) in g'.decisions
  {
    var s, l := g.nodes[p], looks[p];
    var v, w, z := Vote(1, l.round, Precommit, b, x), Vote(1, l.round, Precommit, b, y), Vote(1, l.round, Precommit, b, 3);
    assert Looks(s, l);
    Commits(s, l, v, w, z, b);
    var one := s.(store := Recorded(s.store, v));
    var two := s.(store := Recorded(one.store, w));
    var g2 := ReceiveTwo(g, p, v, w, one, two);
    g' := LogsCommit(g2, p, z, b, l.round);
  }

  lemma LogsCommit(g: System, p: Address, z: Vote, b: Hash, r: nat) returns (g': System)
    requires Reached(g) && p in {0, 1, 2} && p in g.nodes && z in g.sent
    requires OnPrecommit(g.nodes[p], z).actions == [Commit(b, r)]
    ensures Reached(g') && g.sent <= g'.sent && Decision(p, b, r) in g'.decisions
  {
    ReachedAfter(g, p, PrecommitMsg(z));
    g' := After(g, p, PrecommitMsg(z));
    assert Commit(b, r) in OnPrecommit(g.nodes[p], z).actions;
  }

  // ----- The moves as a game on what is visible -----

  datatype Board = Board(looks: map<Address, Look>, votes: set<Vote>)

  datatype Move = VouchFor(p: Address, b: Hash) | WaitFor(p: Address) | CheatWith(v: Vote) | SeePolka(p: Address, b: Hash, x: Address, y: Address)

  ghost predicate CanMove(d: Board, m: Move) {
    match m
    case VouchFor(p, b) =>
      p in d.looks && d.looks[p].phase == Propose && (d.looks[p].locked == None || d.looks[p].locked == Some(b))
    case WaitFor(p) => p in d.looks && d.looks[p].phase != Decided && d.looks[p].round < U32_MAX
    case CheatWith(v) => v.validator == 3 && forall p :: p in d.looks ==> Behind(v, d.looks[p])
    case SeePolka(p, b, x, y) =>
      p in d.looks && d.looks[p].phase == PrevotePhase && b != NIL_HASH && Distinct([x, y, 3])
      && Backed(d.votes, d.looks[p].round, Prevote, b, x, y)
  }

  function Play(d: Board, m: Move): Board {
    match m
    case VouchFor(p, b) =>
      if p in d.looks then Board(d.looks[p := Moved(d.looks[p])], d.votes + {Vote(1, d.looks[p].round, Prevote, b, p)}) else d
    case WaitFor(p) => if p in d.looks then d.(looks := d.looks[p := Moved(d.looks[p])]) else d
    case CheatWith(v) => d.(votes := d.votes + {v})
    case SeePolka(p, b, x, y) =>
      if p in d.looks then
        Board(d.looks[p := Look(d.looks[p].round, PrecommitPhase, Some(b))], d.votes + {Vote(1, d.looks[p].round, Precommit, b, p)})
      else d
  }

  /** The protocol can make every move of the game. */
  lemma MoveIsReal(g: System, d: Board, m: Move) returns (g': System)
    requires Scene(g, d.looks, d.votes) && CanMove(d, m)
    ensures Scene(g', Play(d, m).looks, Play(d, m).votes)
  {
    match m
    case VouchFor(p, b) => g' := Vouch(g, d.looks, d.votes, p, b);
    case WaitFor(p) =>
      var e := if d.looks[p].phase == Propose then ProposeTimer else if d.looks[p].phase == PrevotePhase then PrevoteTimer else PrecommitTimer;
      g' := Wait(g, d.looks, d.votes, p, e);
    case CheatWith(v) => g' := Cheat(g, d.looks, d.votes, v);
    case SeePolka(p, b, x, y) => g' := Witness(g, d.looks, d.votes, p, b, x, y);
  }

  /** A property of boards that no move ends. */
  ghost predicate Closed(holds: Board -> bool) {
    forall d, m {:trigger holds(Play(d, m))} :: holds(d) && CanMove(d, m) ==> holds(Play(d, m))
  }

  // ----- One round -----

  datatype Locks = Locks(a: Option<Hash>, b: Option<Hash>, c: Option<Hash>) {
    function Of(p: Address): Option<Hash> {
      if p == 0 then a else if p == 1 then b else c
    }

    function With(p: Address, h: Hash): Locks {
      if p == 0 then this.(a := Some(h)) else if p == 1 then this.(b := Some(h)) else this.(c := Some(h))
    }
  }

  /** All three nodes in one round and phase. */
  function Row(round: nat, phase: Phase, locks: Locks): map<Address, Look> {
    map[0 := Look(round, phase, locks.a), 1 := Look(round, phase, locks.b), 2 := Look(round, phase, locks.c)]
  }

  predicate Trio(x: Address, y: Address, z: Address) {
    x < 3 && y < 3 && z < 3 && x != y && y != z && x != z
  }

  /** Moving the three nodes on, in any order, moves the row. */
  lemma RowMoved(r: nat, phase: Phase, locks: Locks, x: Address, y: Address, z: Address)
    requires Trio(x, y, z) && phase != Decided
    ensures var row := Row(r, phase, locks);
            var next := Moved(Look(r, phase, None));
            row[x := Moved(row[x])][y := Moved(row[y])][z := Moved(row[z])] == Row(next.round, next.phase, locks)
  {
  }

  /** Two correct nodes and the faulty one prevote for a block, the third correct node for none. */
  lemma Prevoting(holds: Board -> bool, r: nat, locks: Locks, votes: set<Vote>, b: Hash, x: Address, y: Address, z: Address)
    returns (votes': set<Vote>)
    requires Closed(holds) && holds(Board(Row(r, Propose, locks), votes)) && Trio(x, y, z) && r < U32_MAX
    requires (locks.Of(x) == None || locks.Of(x) == Some(b)) && (locks.Of(y) == None || locks.Of(y) == Some(b))
    ensures holds(Board(Row(r, PrevotePhase, locks), votes')) && votes <= votes' && Backed(votes', r, Prevote, b, x, y)
  {
    var d := Board(Row(r, Propose, locks), votes);
    var d1 := Play(d, VouchFor(x, b));
    var d2 := Play(d1, VouchFor(y, b));
    var d3 := Play(d2, WaitFor(z));
    var d4 := Play(d3, CheatWith(Vote(1, r, Prevote, b, 3)));
    assert holds(d1);
    assert holds(d2);
    assert holds(d3);
    RowMoved(r, Propose, locks, x, y, z);
    votes' := d4.votes;
  }

  /** One node witnesses the polka and precommits the block, the others give up waiting. */
  lemma Precommitting(holds: Board -> bool, r: nat, locks: Locks, votes: set<Vote>, b: Hash, x: Address, y: Address,
                      w: Address, u: Address, t: Address)
    requires Closed(holds) && holds(Board(Row(r, PrevotePhase, locks), votes)) && Trio(w, u, t) && r < U32_MAX && b != NIL_HASH
    requires x < 3 && y < 3 && x != y && Backed(votes, r, Prevote, b, x, y)
    ensures holds(Board(Row(r, PrecommitPhase, locks.With(w, b)), votes + {Vote(1, r, Precommit, b, w)}))
  {
    var d1 := Play(Board(Row(r, PrevotePhase, locks), votes), SeePolka(w, b, x, y));
    var d2 := Play(d1, WaitFor(u));
    var d3 := Play(d2, WaitFor(t));
    assert holds(d1);
    assert holds(d2);
    RowLocked(r, locks, b, w, u, t);
  }

  lemma RowLocked(r: nat, locks: Locks, b: Hash, w: Address, u: Address, t: Address)
    requires Trio(w, u, t)
    ensures var row := Row(r, PrevotePhase, locks);
            row[w := Look(r, PrecommitPhase, Some(b))][u := Moved(row[u])][t := Moved(row[t])]
            == Row(r, PrecommitPhase, locks.With(w, b))
  {
  }

  /** All three nodes wait for their timer. */
  lemma AllWait(holds: Board -> bool, r: nat, phase: Phase, locks: Locks, votes: set<Vote>)
    requires Closed(holds) && holds(Board(Row(r, phase, locks), votes)) && r < U32_MAX && phase != Decided
    ensures var next := Moved(Look(r, phase, None)); holds(Board(Row(next.round, next.phase, locks), votes))
  {
    var d1 := Play(Board(Row(r, phase, locks), votes), WaitFor(0));
    var d2 := Play(d1, WaitFor(1));
    var d3 := Play(d2, WaitFor(2));
    assert holds(d1);
    assert holds(d2);
    RowMoved(r, phase, locks, 0, 1, 2);
  }

  /** A round in which `x`, `y` and the faulty validator form a polka that only `w` sees in time. */
  lemma PlayRound(holds: Board -> bool, r: nat, locks: Locks, votes: set<Vote>, b: Hash, x: Address, y: Address, z: Address,
                  w: Address, u: Address, t: Address) returns (votes': set<Vote>)
    requires Closed(holds) && holds(Board(Row(r, Propose, locks), votes))
    requires Trio(x, y, z) && Trio(w, u, t) && r < U32_MAX && b != NIL_HASH
    requires (locks.Of(x) == None || locks.Of(x) == Some(b)) && (locks.Of(y) == None || locks.Of(y) == Some(b))
    ensures holds(Board(Row(r + 1, Propose, locks.With(w, b)), votes'))
    ensures votes <= votes' && Vote(1, r, Precommit, b, w) in votes'
  {
    votes' := Prevoting(holds, r, locks, votes, b, x, y, z);
    Precommitting(holds, r, locks, votes', b, x, y, w, u, t);
    votes' := votes' + {Vote(1, r, Precommit, b, w)};
    AllWait(holds, r, PrecommitPhase, locks.With(w, b), votes');
  }

  /** A round in which nothing is proposed and nothing precommitted. */
  lemma IdleRound(holds: Board -> bool, r: nat, locks: Locks, votes: set<Vote>)
    requires Closed(holds) && holds(Board(Row(r, Propose, locks), votes)) && r < U32_MAX
    ensures holds(Board(Row(r + 1, Propose, locks), votes))
  {
    AllWait(holds, r, Propose, locks, votes);
    AllWait(holds, r, PrevotePhase, locks, votes);
    AllWait(holds, r, PrecommitPhase, locks, votes);
  }

  lemma {:induction false} IdleRounds(holds: Board -> bool, r: nat, n: nat, locks: Locks, votes: set<Vote>)
    requires Closed(holds) && holds(Board(Row(r, Propose, locks), votes)) && r + n <= U32_MAX
    ensures holds(Board(Row(r + n, Propose, locks), votes))
  {
    if n > 0 {
      IdleRounds(holds, r, n - 1, locks, votes);
      IdleRound(holds, r + n - 1, locks, votes);
    }
  }

  // ----- The run -----

  /** The precommits of correct validators that the two certificates use. */
  ghost predicate BothOut(votes: set<Vote>, d: nat) {
    Vote(1, 0, Precommit, B, 0) in votes && Vote(1, 1, Precommit, B', 0) in votes &&
    Vote(1, d, Precommit, B, 1) in votes && Vote(1, d + 1, Precommit, B', 2) in votes
  }

  /** Validator 0 precommits both blocks, and `d` rounds after the start 1 the first of them again. */
  lemma FirstRounds(holds: Board -> bool, d: nat) returns (votes: set<Vote>)
    requires Closed(holds) && holds(Board(Row(0, Propose, Locks(None, None, None)), {})) && 2 <= d < U32_MAX
    ensures holds(Board(Row(d + 1, Propose, Locks(Some(B'), Some(B), None)), votes))
    ensures Vote(1, 0, Precommit, B, 0) in votes && Vote(1, 1, Precommit, B', 0) in votes && Vote(1, d, Precommit, B, 1) in votes
  {
    votes := PlayRound(holds, 0, Locks(None, None, None), {}, B, 0, 1, 2, 0, 1, 2);
    votes := PlayRound(holds, 1, Locks(Some(B), None, None), votes, B', 1, 2, 0, 0, 1, 2);
    IdleRounds(holds, 2, d - 2, Locks(Some(B'), None, None), votes);
    votes := PlayRound(holds, d, Locks(Some(B'), None, None), votes, B, 1, 2, 0, 1, 0, 2);
  }

  /** Then 2 precommits the other block. */
  lemma FourRounds(holds: Board -> bool, d: nat) returns (last: Board)
    requires Closed(holds) && holds(Board(Row(0, Propose, Locks(None, None, None)), {})) && 2 <= d < U32_MAX - 1
    ensures holds(last) && BothOut(last.votes, d)
  {
    var votes := FirstRounds(holds, d);
    votes := PlayRound(holds, d + 1, Locks(Some(B'), Some(B), None), votes, B', 0, 2, 1, 2, 0, 1);
    last := Board(Row(d + 2, Propose, Locks(Some(B'), Some(B), Some(B'))), votes);
  }

  /** A round whose polka both correct voters see, so that with the faulty one they form a commit quorum. */
  lemma JointRound(holds: Board -> bool, r: nat, locks: Locks, votes: set<Vote>, b: Hash, x: Address, y: Address, z: Address)
    returns (d: Board)
    requires Closed(holds) && holds(Board(Row(r, Propose, locks), votes)) && Trio(x, y, z) && r < U32_MAX && b != NIL_HASH
    requires (locks.Of(x) == None || locks.Of(x) == Some(b)) && (locks.Of(y) == None || locks.Of(y) == Some(b))
    ensures holds(d) && votes <= d.votes && Backed(d.votes, r, Precommit, b, x, y)
    ensures y in d.looks && d.looks[y] == Look(r, PrecommitPhase, Some(b))
  {
    var all := Prevoting(holds, r, locks, votes, b, x, y, z);
    var d1 := Play(Board(Row(r, PrevotePhase, locks), all), SeePolka(x, b, x, y));
    var d2 := Play(d1, SeePolka(y, b, x, y));
    d := Play(d2, CheatWith(Vote(1, r, Precommit, b, 3)));
    assert holds(d1);
    assert holds(d2);
  }

  lemma Start() returns (g: System)
    ensures Scene(g, Row(0, Propose, Locks(None, None, None)), {})
  {
    var s := NewRound(1, 4);
    g := System(map[0 := s, 1 := s, 2 := s], {}, {}, {});
    assert Correct(FOUR) == {0, 1, 2} && |FOUR.validators| == 4;
    assert IsRun(FOUR, [g]) && [g][|[g]| - 1] == g;
  }

  ghost predicate Shown(d: Board) {
    exists g :: Scene(g, d.looks, d.votes)
  }

  /** Every board the game reaches is shown by a state the protocol reaches. */
  lemma GameIsReal() returns (shown: Board -> bool)
    ensures Closed(shown) && shown(Board(Row(0, Propose, Locks(None, None, None)), {}))
    ensures forall d :: shown(d) ==> Shown(d)
  {
    shown := (d: Board) => Shown(d);
    forall d, m | shown(d) && CanMove(d, m) ensures shown(Play(d, m)) {
      var h :| Scene(h, d.looks, d.votes);
      var _ := MoveIsReal(h, d, m);
    }
    var start := Start();
    assert Shown(Board(Row(0, Propose, Locks(None, None, None)), {}));
  }

  lemma BothBlocks(d: nat) returns (g: System)
    requires 2 <= d < U32_MAX - 1
    ensures Reached(g) && BothOut(g.sent, d)
  {
    var shown := GameIsReal();
    var last := FourRounds(shown, d);
    assert Shown(last);
    g :| Scene(g, last.looks, last.votes);
  }

  /** The precommits of correct validators for the first block, and a commit of the second. */
  ghost predicate OneDecides(g: System, d: nat) {
    Vote(1, 0, Precommit, B, 0) in g.sent && Vote(1, d, Precommit, B, 1) in g.sent && Decision(2, B', d + 1) in g.decisions
  }

  /** Validator 2 is about to commit the second block. */
  ghost predicate Poised(board: Board, d: nat) {
    Vote(1, 0, Precommit, B, 0) in board.votes && Vote(1, d, Precommit, B, 1) in board.votes
    && Backed(board.votes, d + 1, Precommit, B', 0, 2)
    && 2 in board.looks && board.looks[2] == Look(d + 1, PrecommitPhase, Some(B'))
  }

  lemma LastIsJoint(holds: Board -> bool, d: nat) returns (last: Board)
    requires Closed(holds) && holds(Board(Row(0, Propose, Locks(None, None, None)), {})) && 2 <= d < U32_MAX - 1
    ensures holds(last) && Poised(last, d)
  {
    var votes := FirstRounds(holds, d);
    last := JointRound(holds, d + 1, Locks(Some(B'), Some(B), None), votes, B', 0, 2, 1);
  }

  lemma PoisedIsReached(d: nat) returns (g: System, last: Board)
    requires 2 <= d < U32_MAX - 1
    ensures Scene(g, last.looks, last.votes) && Poised(last, d)
  {
    var shown := GameIsReal();
    last := LastIsJoint(shown, d);
    assert Shown(last);
    g :| Scene(g, last.looks, last.votes);
  }

  lemma CommitsOther(d: nat) returns (g: System)
    requires 2 <= d < U32_MAX - 1
    ensures Reached(g) && OneDecides(g, d)
  {
    var before, last := PoisedIsReached(d);
    g := Decide(before, last.looks, last.votes, 2, B', 0, 2);
  }

  // ----- The certificates -----

  const VALIDATORS := [C.CommitValidator(0, 0), C.CommitValidator(1, 1), C.CommitValidator(2, 2), C.CommitValidator(3, 3)]

  ghost predicate OfRounds(c: C.Certificate, r: nat, r': nat) {
    forall s :: s in c.signatures ==> s.round == r || s.round == r'
  }

  /** Signatures of two correct validators, each of its own round, and one of the faulty validator. */
  function Signed(b: Hash, x: nat, rx: nat, y: nat, ry: nat): C.Certificate {
    C.Certificate(1, b, [C.CommitSig(x, 0, rx), C.CommitSig(y, 0, ry), C.CommitSig(3, 0, rx)])
  }

  /** Accepts what the faulty validator signs, and of the others exactly the precommits they sent. */
  ghost function VerifierOf(sent: set<Vote>): C.Verifier {
    (key: nat, m: C.Preimage, signature: nat) =>
      key == 3 ||
      match m
      case CommitPreimage(_, h, b) => exists v :: v in sent && v == Vote(h, v.round, Precommit, b, key)
      case PrecommitPreimage(_, h, r, b) => Vote(h, r, Precommit, b, key) in sent
  }

  lemma Known(a: nat)
    requires a < 4
    ensures C.ValidatorByAddress(VALIDATORS, a) == Some(C.CommitValidator(a, a))
  {
    assert VALIDATORS[a].address == a;
  }

  lemma PolicyFits(mode: C.PreimageMode)
    ensures Fits(PolicyIn(mode))
  {
    var addresses := C.Addresses(VALIDATORS);
    assert addresses == [0, 1, 2, 3];
  }

  function PolicyIn(mode: C.PreimageMode): C.Policy {
    C.Policy(VALIDATORS, 3, mode, 0)
  }

  /** A signature that verifies, by a validator that if correct has sent the vote. */
  ghost predicate Genuine(sent: set<Vote>, verify: C.Verifier, p: C.Policy, c: C.Certificate, s: C.CommitSig) {
    C.SignedBy(verify, p, c, s) && (s.validator in Correct(FOUR) ==> F.WasSent(sent, p, c, s))
  }

  ghost predicate Fits(p: C.Policy) {
    C.WellFormed(p) && ToSet(C.Addresses(p.validators)) == FOUR.validators && QuorumSize(|p.validators|) <= p.threshold <= 3
  }

  lemma SignatureHolds(sent: set<Vote>, mode: C.PreimageMode, c: C.Certificate, s: C.CommitSig)
    requires s.validator < 4 && c.height == 1 && (s.validator == 3 || F.VoteFor(c, s) in sent)
    ensures Genuine(sent, VerifierOf(sent), PolicyIn(mode), c, s)
  {
    Known(s.validator);
    var v := F.VoteFor(c, s);
    assert s.validator != 3 ==> v == Vote(1, v.round, Precommit, c.blockHash, s.validator) && v == F.VoteFor(c, s).(round := v.round);
  }

  lemma GenuineIsAccepted(sent: set<Vote>, verify: C.Verifier, p: C.Policy, c: C.Certificate)
    requires Fits(p) && c.height == 1 && c.blockHash != NIL_HASH && |c.signatures| == 3 && Distinct(C.Signers(c))
    requires Genuine(sent, verify, p, c, c.signatures[0])
    requires Genuine(sent, verify, p, c, c.signatures[1]) && Genuine(sent, verify, p, c, c.signatures[2])
    ensures F.Accepted(FOUR, sent, verify, p, c)
  {
    GenuineIsCertified(sent, verify, p, c);
    GenuineIsUnforged(sent, verify, p, c);
  }

  lemma GenuineIsCertified(sent: set<Vote>, verify: C.Verifier, p: C.Policy, c: C.Certificate)
    requires p.threshold <= 3 == |c.signatures| && Distinct(C.Signers(c))
    requires Genuine(sent, verify, p, c, c.signatures[0])
    requires Genuine(sent, verify, p, c, c.signatures[1]) && Genuine(sent, verify, p, c, c.signatures[2])
    ensures C.Certified(verify, p, c)
  {
    forall i | 0 <= i < 3 ensures C.SignedBy(verify, p, c, c.signatures[i]) {
      assert i == 0 || i == 1 || i == 2;
    }
  }

  lemma GenuineIsUnforged(sent: set<Vote>, verify: C.Verifier, p: C.Policy, c: C.Certificate)
    requires |c.signatures| == 3
    requires Genuine(sent, verify, p, c, c.signatures[0])
    requires Genuine(sent, verify, p, c, c.signatures[1]) && Genuine(sent, verify, p, c, c.signatures[2])
    ensures F.Unforgeable(FOUR, sent, verify, p, c)
  {
    forall s | s in c.signatures && s.validator in Correct(FOUR) ensures F.WasSent(sent, p, c, s) {
      assert s == c.signatures[0] || s == c.signatures[1] || s == c.signatures[2];
    }
  }

  lemma SignedIsAccepted(sent: set<Vote>, mode: C.PreimageMode, b: Hash, x: nat, rx: nat, y: nat, ry: nat)
    requires x < 3 && y < 3 && x != y && b != NIL_HASH
    requires Vote(1, rx, Precommit, b, x) in sent && Vote(1, ry, Precommit, b, y) in sent
    ensures F.Accepted(FOUR, sent, VerifierOf(sent), PolicyIn(mode), Signed(b, x, rx, y, ry))
  {
    var c := Signed(b, x, rx, y, ry);
    SignatureHolds(sent, mode, c, c.signatures[0]);
    SignatureHolds(sent, mode, c, c.signatures[1]);
    SignatureHolds(sent, mode, c, c.signatures[2]);
    SignersDiffer(b, x, rx, y, ry);
    PolicyFits(mode);
    GenuineIsAccepted(sent, VerifierOf(sent), PolicyIn(mode), c);
  }

  lemma SignersDiffer(b: Hash, x: nat, rx: nat, y: nat, ry: nat)
    requires x < 3 && y < 3 && x != y
    ensures Distinct(C.Signers(Signed(b, x, rx, y, ry)))
  {
    assert C.Signers(Signed(b, x, rx, y, ry)) == [x, y, 3];
  }

  lemma SignedRounds(b: Hash, x: nat, rx: nat, y: nat, ry: nat)
    ensures OfRounds(Signed(b, x, rx, y, ry), rx, ry)
  {
  }

  lemma RunOfBoth(d: nat) returns (run: seq<System>, sent: set<Vote>)
    requires 2 <= d < U32_MAX - 1
    ensures IsRun(FOUR, run) && sent == run[|run| - 1].sent && BothOut(sent, d)
  {
    var g := BothBlocks(d);
    run :| IsRun(FOUR, run) && run[|run| - 1] == g;
    sent := g.sent;
  }

  lemma RunOfDecision(d: nat) returns (run: seq<System>)
    requires 2 <= d < U32_MAX - 1
    ensures IsRun(FOUR, run) && OneDecides(run[|run| - 1], d)
  {
    var g := CommitsOther(d);
    run :| IsRun(FOUR, run) && run[|run| - 1] == g;
  }

  lemma FourIsFew()
    ensures FewFaulty(FOUR)
  {
    assert |FOUR.validators| == 4 && |FOUR.faulty| == 1;
  }

  /**
   * With few enough faulty validators, in either mode and for every distance above
   * one, a run after which certificates of rounds at that distance are accepted for
   * two different blocks of one height.
   */
  lemma MixedRoundsDisagree(mode: C.PreimageMode, d: nat)
    returns (run: seq<System>, sent: set<Vote>, c: C.Certificate, c': C.Certificate)
    requires 2 <= d < U32_MAX - 1
    ensures FewFaulty(FOUR) && IsRun(FOUR, run) && sent == run[|run| - 1].sent
    ensures F.Accepted(FOUR, sent, VerifierOf(sent), PolicyIn(mode), c)
    ensures F.Accepted(FOUR, sent, VerifierOf(sent), PolicyIn(mode), c')
    ensures c.blockHash != c'.blockHash && OfRounds(c, 0, d) && OfRounds(c', 1, d + 1)
  {
    FourIsFew();
    run, sent := RunOfBoth(d);
    c := AcceptedFrom(sent, mode, B, 0, 0, 1, d);
    c' := AcceptedFrom(sent, mode, B', 0, 1, 2, d + 1);
  }

  lemma AcceptedFrom(sent: set<Vote>, mode: C.PreimageMode, b: Hash, x: nat, rx: nat, y: nat, ry: nat) returns (c: C.Certificate)
    requires x < 3 && y < 3 && x != y && b != NIL_HASH
    requires Vote(1, rx, Precommit, b, x) in sent && Vote(1, ry, Precommit, b, y) in sent
    ensures F.Accepted(FOUR, sent, VerifierOf(sent), PolicyIn(mode), c) && c.blockHash == b && OfRounds(c, rx, ry)
  {
    c := Signed(b, x, rx, y, ry);
    SignedIsAccepted(sent, mode, b, x, rx, y, ry);
    SignedRounds(b, x, rx, y, ry);
  }

  /** The same with a correct node that commits one block while a certificate for another is accepted. */
  lemma MixedRoundsMissDecision(mode: C.PreimageMode, d: nat)
    returns (run: seq<System>, sent: set<Vote>, c: C.Certificate, decision: Decision)
    requires 2 <= d < U32_MAX - 1
    ensures FewFaulty(FOUR) && IsRun(FOUR, run) && sent == run[|run| - 1].sent
    ensures F.Accepted(FOUR, sent, VerifierOf(sent), PolicyIn(mode), c)
    ensures decision in run[|run| - 1].decisions && decision.node in Correct(FOUR)
    ensures c.blockHash != decision.blockHash && OfRounds(c, 0, d)
  {
    FourIsFew();
    run := RunOfDecision(d);
    sent := run[|run| - 1].sent;
    decision := Decision(2, B', d + 1);
    c := AcceptedFrom(sent, mode, B, 0, 0, 1, d);
  }

  // ----- Which distances are safe -----

  /** An accepted certificate in distributed mode, of two rounds at a distance. */
  ghost predicate Spans(cfg: Config, sent: set<Vote>, verify: C.Verifier, p: C.Policy, c: C.Certificate, r: nat, d: nat) {
    F.Accepted(cfg, sent, verify, p, c) && p.mode.Distributed? && OfRounds(c, r, r + d)
  }

  ghost predicate BothSpan(cfg: Config, run: seq<System>, i: nat, verify: C.Verifier, p: C.Policy,
                           c: C.Certificate, r: nat, c': C.Certificate, r': nat, d: nat) {
    FewFaulty(cfg) && IsRun(cfg, run) && i < |run|
    && Spans(cfg, run[i].sent, verify, p, c, r, d) && Spans(cfg, run[i].sent, verify, p, c', r', d)
  }

  /** In every network and every run, two such certificates of one height name one block. */
  ghost predicate SafeDistance(d: nat) {
    forall cfg, run, i: nat, verify, p, c, r: nat, c', r': nat ::
      BothSpan(cfg, run, i, verify, p, c, r, c', r', d) ==> c.blockHash == c'.blockHash
  }

  lemma CloseAgree(cfg: Config, run: seq<System>, i: nat, verify: C.Verifier, p: C.Policy,
                   c: C.Certificate, r: nat, c': C.Certificate, r': nat, d: nat)
    requires BothSpan(cfg, run, i, verify, p, c, r, c', r', d) && d <= 1
    ensures c.blockHash == c'.blockHash
  {
    F.CloseIsAdjacent(cfg, run[i].sent, verify, p, c, r);
    F.CloseIsAdjacent(cfg, run[i].sent, verify, p, c', r');
    F.CertificatesAgree(cfg, run, i, verify, p, c, r, c', r');
  }

  /** Rounds may be adjacent and no further apart, as far as the 32-bit round counter reaches. */
  lemma SafeDistanceIff(d: nat)
    requires d < U32_MAX - 1
    ensures SafeDistance(d) <==> d <= 1
  {
    if d <= 1 {
      forall cfg, run, i: nat, verify, p, c, r: nat, c', r': nat | BothSpan(cfg, run, i, verify, p, c, r, c', r', d)
        ensures c.blockHash == c'.blockHash
      {
        CloseAgree(cfg, run, i, verify, p, c, r, c', r', d);
      }
    } else {
      var mode := C.Distributed(0);
      var run, sent, c, c' := MixedRoundsDisagree(mode, d);
      assert BothSpan(FOUR, run, |run| - 1, VerifierOf(sent), PolicyIn(mode), c, 0, c', 1, d);
    }
  }
}

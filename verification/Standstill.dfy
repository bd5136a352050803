/** A run after which the correct validators are locked on different blocks and cannot decide without the faulty one. */
module Standstill {
  import opened Prelude
  import opened Quorum
  import opened Round
  import opened Agreement
  import L = Liveness
  import M = MixedRounds

  /** Validator 0 is locked on one block, 1 on another, 2 on none. */
  ghost predicate Torn(g: System, r: nat) {
    L.CommonStart(M.FOUR, g, r) && g.nodes.Keys == {0, 1, 2} &&
    g.nodes[0].lockedBlock == Some(M.B') && g.nodes[1].lockedBlock == Some(M.B) && g.nodes[2].lockedBlock == None
  }

  lemma TornIsReached() returns (run: seq<System>)
    ensures IsRun(M.FOUR, run) && Torn(run[|run| - 1], 3)
  {
    var shown := M.GameIsReal();
    var votes := M.FirstRounds(shown, 2);
    var looks := M.Row(3, Propose, M.Locks(Some(M.B'), Some(M.B), None));
    assert M.Shown(M.Board(looks, votes));
    var g :| M.Scene(g, looks, votes);
    run :| IsRun(M.FOUR, run) && run[|run| - 1] == g;
    SceneIsTorn(g, looks, votes);
  }

  lemma SceneIsTorn(g: System, looks: map<Address, M.Look>, votes: set<Vote>)
    requires looks == M.Row(3, Propose, M.Locks(Some(M.B'), Some(M.B), None)) && M.Scene(g, looks, votes)
    ensures Torn(g, 3)
  {
    assert M.Looks(g.nodes[0], looks[0]) && M.Looks(g.nodes[1], looks[1]) && M.Looks(g.nodes[2], looks[2]);
    forall v | v in g.sent && v.validator in M.FOUR.faulty ensures v.round < 3 {
      assert 0 in looks && M.Behind(v, looks[0]);
    }
  }

  lemma TornIsSplit(g: System, r: nat, b: Hash)
    requires Torn(g, r)
    ensures |L.Free(g, b)| < QuorumOf(M.FOUR)
  {
    assert |M.FOUR.validators| == 4;
    var most := if b == M.B' then {0, 2} else {1, 2};
    SubsetSize(L.Free(g, b), most);
  }

  /** With one of four validators faulty: a run after which no continuation by the correct ones ever decides. */
  lemma CorrectCanStall() returns (run: seq<System>)
    ensures FewFaulty(M.FOUR) && IsRun(M.FOUR, run) && L.CommonStart(M.FOUR, run[|run| - 1], 3)
    ensures !L.CanDecide(M.FOUR, run[|run| - 1])
  {
    M.FourIsFew();
    run := TornIsReached();
    var g := run[|run| - 1];
    L.DecidesIff(M.FOUR, run, 3);
    forall b: Hash ensures |L.Free(g, b)| < QuorumOf(M.FOUR) {
      TornIsSplit(g, 3, b);
    }
  }
}

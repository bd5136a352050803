/** Certificates meet the round machine: what a certificate says about the commits of a run. */
module Finality {
  import opened Prelude
  import opened Quorum
  import R = Round
  import A = Agreement
  import C = CommitCertificate

  /** The precommit a signature stands for. */
  function VoteFor(c: C.Certificate, s: C.CommitSig): R.Vote {
    R.Vote(c.height, s.round, R.Precommit, c.blockHash, s.validator)
  }

  /** The vote was sent: in legacy mode the signature names no round, so in some round. */
  ghost predicate WasSent(sent: set<R.Vote>, p: C.Policy, c: C.Certificate, s: C.CommitSig) {
    match p.mode
    case Legacy => exists v :: v in sent && v == VoteFor(c, s).(round := v.round)
    case Distributed(_) => VoteFor(c, s) in sent
  }

  /** No one signs for a correct validator: its verifying signatures are on precommits it sent. */
  ghost predicate Unforgeable(cfg: A.Config, sent: set<R.Vote>, verify: C.Verifier, p: C.Policy, c: C.Certificate) {
    forall s :: s in c.signatures && C.SignedBy(verify, p, c, s) && s.validator in A.Correct(cfg) ==> WasSent(sent, p, c, s)
  }

  /** An accepted certificate of this height, under the policy of this validator set. */
  ghost predicate Accepted(cfg: A.Config, sent: set<R.Vote>, verify: C.Verifier, p: C.Policy, c: C.Certificate) {
    C.WellFormed(p) && ToSet(C.Addresses(p.validators)) == cfg.validators && p.threshold >= QuorumSize(|p.validators|) &&
    C.Certified(verify, p, c) && c.height == cfg.height && c.blockHash != R.NIL_HASH && Unforgeable(cfg, sent, verify, p, c)
  }

  /** The validators that signed for a round or the next. */
  function SignersNear(c: C.Certificate, round: nat): set<R.Address> {
    set s | s in c.signatures && (s.round == round || s.round == round + 1) :: s.validator
  }

  /** Such a certificate in which a quorum signed for two adjacent rounds, and the others for any. */
  ghost predicate Adjacent(cfg: A.Config, sent: set<R.Vote>, verify: C.Verifier, p: C.Policy, c: C.Certificate, round: nat) {
    Accepted(cfg, sent, verify, p, c) && p.mode.Distributed? && |SignersNear(c, round)| >= QuorumSize(|p.validators|)
  }

  /** In particular if all signatures carry one round or the next. */
  lemma CloseIsAdjacent(cfg: A.Config, sent: set<R.Vote>, verify: C.Verifier, p: C.Policy, c: C.Certificate, round: nat)
    requires Accepted(cfg, sent, verify, p, c) && p.mode.Distributed?
    requires forall s :: s in c.signatures ==> s.round == round || s.round == round + 1
    ensures Adjacent(cfg, sent, verify, p, c, round)
  {
    DistinctSize(C.Signers(c));
    forall a | a in C.Signers(c) ensures a in SignersNear(c, round) {
      var i :| 0 <= i < |c.signatures| && C.Signers(c)[i] == a;
      assert c.signatures[i] in c.signatures;
    }
    SubsetSize(ToSet(C.Signers(c)), SignersNear(c, round));
  }

  /** The certificate's votes of faulty signers, which count as sent once the certificate exists. */
  function FaultyVotes(cfg: A.Config, c: C.Certificate): set<R.Vote> {
    set s | s in c.signatures && s.validator in cfg.faulty :: VoteFor(c, s)
  }

  lemma DisciplineIgnoresFaulty(cfg: A.Config, sent: set<R.Vote>, extra: set<R.Vote>)
    requires A.AllDisciplined(cfg, sent) && forall v :: v in extra ==> v.validator in cfg.faulty
    ensures A.AllDisciplined(cfg, sent + extra)
  {
    A.QuorumsSurvive(cfg, sent, sent + extra);
    forall p | p in A.Correct(cfg) ensures A.Disciplined(cfg, sent + extra, p) {
      assert A.Disciplined(cfg, sent, p);
      assert forall v :: v in sent + extra && v.validator == p ==> v in sent;
      assert forall v :: A.PrecommitBy(sent + extra, p, v) ==> A.PrecommitBy(sent, p, v);
      assert forall v :: A.PrevoteBy(sent + extra, p, v) ==> A.PrevoteBy(sent, p, v);
    }
  }

  /** Its votes pin the block. */
  lemma CertificateIsPinned(cfg: A.Config, sent: set<R.Vote>, all: set<R.Vote>, verify: C.Verifier, p: C.Policy,
                            c: C.Certificate, round: nat)
    requires Adjacent(cfg, sent, verify, p, c, round) && sent + FaultyVotes(cfg, c) <= all
    ensures A.Pinned(cfg, all, round, c.blockHash)
  {
    C.SignersInUniverse(verify, p, c);
    DistinctSize(C.Addresses(p.validators));
    var voters := A.PinVoters(cfg, all, round, c.blockHash);
    forall a | a in SignersNear(c, round) ensures a in voters {
      var s :| s in c.signatures && (s.round == round || s.round == round + 1) && s.validator == a;
      var i :| 0 <= i < |c.signatures| && c.signatures[i] == s;
      assert C.Signers(c)[i] == a && C.SignedBy(verify, p, c, s) && a in cfg.validators;
      assert VoteFor(c, s) in all;
    }
    SubsetSize(SignersNear(c, round), voters);
  }

  /** Certificates of one height, each with a quorum in two adjacent rounds, name one block. */
  lemma CertificatesAgree(cfg: A.Config, run: seq<A.System>, i: nat, verify: C.Verifier, p: C.Policy,
                          c: C.Certificate, round: nat, c': C.Certificate, round': nat)
    requires A.FewFaulty(cfg) && A.IsRun(cfg, run) && i < |run|
    requires Adjacent(cfg, run[i].sent, verify, p, c, round) && Adjacent(cfg, run[i].sent, verify, p, c', round')
    ensures c.blockHash == c'.blockHash
  {
    var sent, extra := run[i].sent, FaultyVotes(cfg, c) + FaultyVotes(cfg, c');
    A.RunKeepsInv(cfg, run, i);
    A.InvIsDisciplined(cfg, run[i]);
    DisciplineIgnoresFaulty(cfg, sent, extra);
    CertificateIsPinned(cfg, sent, sent + extra, verify, p, c, round);
    CertificateIsPinned(cfg, sent, sent + extra, verify, p, c', round');
    A.PinnedAgree(cfg, sent + extra, round, c.blockHash, round', c'.blockHash);
  }

  /** Such a certificate names the block that correct nodes commit. */
  lemma CertificateMatchesDecision(cfg: A.Config, run: seq<A.System>, i: nat, verify: C.Verifier, p: C.Policy,
                                   c: C.Certificate, round: nat, d: A.Decision)
    requires A.FewFaulty(cfg) && A.IsRun(cfg, run) && i < |run| && d in run[i].decisions
    requires Adjacent(cfg, run[i].sent, verify, p, c, round)
    ensures c.blockHash == d.blockHash
  {
    var sent, extra := run[i].sent, FaultyVotes(cfg, c);
    A.RunKeepsInv(cfg, run, i);
    A.InvIsDisciplined(cfg, run[i]);
    DisciplineIgnoresFaulty(cfg, sent, extra);
    CertificateIsPinned(cfg, sent, sent + extra, verify, p, c, round);
    A.DecisionIsQuorate(cfg, run[i], d.node, d.round, d.blockHash);
    A.QuorateMonotone(cfg, sent, sent + extra, d.round, R.Precommit, d.blockHash);
    A.QuorateIsPinned(cfg, sent + extra, d.round, d.blockHash);
    A.PinnedAgree(cfg, sent + extra, round, c.blockHash, d.round, d.blockHash);
  }
}

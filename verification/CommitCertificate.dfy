/** Commit certificates: the signatures a block carries, checked against a validator set and a threshold. */
module CommitCertificate {
  import opened Prelude
  import opened Quorum

  type Address = nat
  type BlockHash = nat

  datatype CommitValidator = CommitValidator(address: Address, publicKey: nat)
  datatype CommitSig = CommitSig(validator: Address, signature: nat, round: nat)
  datatype Certificate = Certificate(height: nat, blockHash: BlockHash, signatures: seq<CommitSig>)

  datatype PreimageMode = Legacy | Distributed(round: nat)

  /** The signed digest, idealised: distinct inputs or domains give distinct digests. */
  datatype Preimage =
    | CommitPreimage(forkDigest: nat, height: nat, blockHash: BlockHash)
    | PrecommitPreimage(forkDigest: nat, height: nat, round: nat, blockHash: BlockHash)

  datatype Policy = Policy(validators: seq<CommitValidator>, threshold: nat, mode: PreimageMode, forkDigest: nat)

  datatype PolicyError = EmptyValidatorSet | DuplicateValidator(address: Address) | InvalidThreshold(threshold: nat, count: nat)

  datatype CertError =
    | MissingSignatures
    | UnauthorizedSigner(address: Address)
    | DuplicateSigner(address: Address)
    | InvalidSignature(address: Address)
    | InsufficientQuorum(required: nat, got: nat)

  type Verifier = (nat, Preimage, nat) -> bool

  // ----- Policies -----

  function Addresses(validators: seq<CommitValidator>): (r: seq<Address>)
    ensures |r| == |validators| && forall i :: 0 <= i < |r| ==> r[i] == validators[i].address
  {
    seq(|validators|, i requires 0 <= i < |validators| => validators[i].address)
  }

  /** What a policy accepted by the constructor satisfies. */
  ghost predicate WellFormed(p: Policy) {
    |p.validators| > 0 && Distinct(Addresses(p.validators)) && 1 <= p.threshold <= |p.validators|
  }

  method NewPolicy(validators: seq<CommitValidator>, threshold: Option<nat>, forkDigest: nat) returns (r: Result<Policy, PolicyError>)
    ensures var t := if threshold.Some? then threshold.value else QuorumSize(|validators|);
            var p := Policy(validators, t, Legacy, forkDigest);
            if WellFormed(p) then r == Ok(p) else r.Err?
    ensures r.Err? ==>
              var t := if threshold.Some? then threshold.value else QuorumSize(|validators|);
              && (r.error == EmptyValidatorSet <==> validators == [])
              && (r.error.DuplicateValidator? <==> validators != [] && !Distinct(Addresses(validators)))
              && (r.error.InvalidThreshold? ==> r.error == InvalidThreshold(t, |validators|))
    ensures r.Err? && r.error.DuplicateValidator? ==>
              exists i, j :: 0 <= i < j < |validators| && validators[i].address == validators[j].address == r.error.address
  {
    if |validators| == 0 {
      return Err(EmptyValidatorSet);
    }
    var seen: set<Address> := {};
    for i := 0 to |validators|
      invariant forall a :: a in seen <==> exists j :: 0 <= j < i && validators[j].address == a
      invariant forall j, k :: 0 <= j < k < i ==> validators[j].address != validators[k].address
    {
      var key := validators[i].address;
      if key in seen {
        var j :| 0 <= j < i && validators[j].address == key;
        assert Addresses(validators)[j] == Addresses(validators)[i];
        return Err(DuplicateValidator(key));
      }
      seen := seen + {key};
    }
    var t := if threshold.Some? then threshold.value else QuorumSize(|validators|);
    if t == 0 || t > |validators| {
      return Err(InvalidThreshold(t, |validators|));
    }
    return Ok(Policy(validators, t, Legacy, forkDigest));
  }

  function ValidatorByAddress(validators: seq<CommitValidator>, a: Address): (r: Option<CommitValidator>)
    ensures r.Some? ==> r.value in validators && r.value.address == a
    ensures r.None? ==> forall i :: 0 <= i < |validators| ==> validators[i].address != a
  {
    if validators == [] then None
    else if validators[0].address == a then Some(validators[0])
    else ValidatorByAddress(validators[1..], a)
  }

  // ----- Validation -----

  /** In distributed mode each signature is checked under its own round. */
  function PreimageFor(p: Policy, c: Certificate, s: CommitSig): Preimage {
    match p.mode
    case Legacy => CommitPreimage(p.forkDigest, c.height, c.blockHash)
    case Distributed(_) => PrecommitPreimage(p.forkDigest, c.height, s.round, c.blockHash)
  }

  /** What is signed for one fork, mode, height, block or round is signed for no other. */
  lemma PreimageBinds(p: Policy, c: Certificate, s: CommitSig, p': Policy, c': Certificate, s': CommitSig)
    ensures PreimageFor(p, c, s) == PreimageFor(p', c', s') <==>
            && p.forkDigest == p'.forkDigest && c.height == c'.height && c.blockHash == c'.blockHash
            && p.mode.Legacy? == p'.mode.Legacy? && (p.mode.Distributed? ==> s.round == s'.round)
  {
  }

  /** A configured validator's signature over this certificate's block. */
  predicate SignedBy(verify: Verifier, p: Policy, c: Certificate, s: CommitSig) {
    var v := ValidatorByAddress(p.validators, s.validator);
    v.Some? && verify(v.value.publicKey, PreimageFor(p, c, s), s.signature)
  }

  function Signers(c: Certificate): (r: seq<Address>)
    ensures |r| == |c.signatures| && forall i :: 0 <= i < |r| ==> r[i] == c.signatures[i].validator
  {
    seq(|c.signatures|, i requires 0 <= i < |c.signatures| => c.signatures[i].validator)
  }

  /** Enough signatures, all valid, by distinct configured validators. */
  ghost predicate Certified(verify: Verifier, p: Policy, c: Certificate) {
    |c.signatures| > 0 && |c.signatures| >= p.threshold &&
    Distinct(Signers(c)) && forall i :: 0 <= i < |c.signatures| ==> SignedBy(verify, p, c, c.signatures[i])
  }

  /** The check of one signature, after those before it passed. */
  function SignatureError(verify: Verifier, p: Policy, c: Certificate, i: nat): Option<CertError>
    requires i < |c.signatures|
  {
    var s := c.signatures[i];
    if exists j :: 0 <= j < i && c.signatures[j].validator == s.validator then Some(DuplicateSigner(s.validator))
    else if ValidatorByAddress(p.validators, s.validator).None? then Some(UnauthorizedSigner(s.validator))
    else if !SignedBy(verify, p, c, s) then Some(InvalidSignature(s.validator))
    else None
  }

  /** All signatures before `i` pass. */
  ghost predicate PassUpTo(verify: Verifier, p: Policy, c: Certificate, i: nat)
    requires i <= |c.signatures|
  {
    forall j :: 0 <= j < i ==> SignatureError(verify, p, c, j) == None
  }

  ghost predicate Reported(verify: Verifier, p: Policy, c: Certificate, e: CertError) {
    match e
    case MissingSignatures => c.signatures == []
    case InsufficientQuorum(required, got) =>
      required == p.threshold && got == |c.signatures| < required && PassUpTo(verify, p, c, got)
    case _ => exists i :: 0 <= i < |c.signatures| && PassUpTo(verify, p, c, i) && SignatureError(verify, p, c, i) == Some(e)
  }

  /** Accepts exactly the certified blocks; otherwise reports the first offending signature. */
  method ValidateBlockCommitQuorum(verify: Verifier, c: Certificate, p: Policy) returns (r: Result<nat, CertError>)
    ensures r.Ok? <==> Certified(verify, p, c)
    ensures r.Ok? ==> r.value == |c.signatures|
    ensures r.Err? ==> Reported(verify, p, c, r.error)
  {
    if c.signatures == [] {
      return Err(MissingSignatures);
    }
    var unique: set<Address> := {};
    var valid := 0;
    for i := 0 to |c.signatures|
      invariant valid == i
      invariant forall a :: a in unique <==> exists j :: 0 <= j < i && c.signatures[j].validator == a
      invariant PassUpTo(verify, p, c, i)
    {
      var s := c.signatures[i];
      if s.validator in unique {
        assert SignatureError(verify, p, c, i) == Some(DuplicateSigner(s.validator));
        return Err(DuplicateSigner(s.validator));
      }
      unique := unique + {s.validator};
      var v := ValidatorByAddress(p.validators, s.validator);
      if v.None? {
        assert SignatureError(verify, p, c, i) == Some(UnauthorizedSigner(s.validator));
        return Err(UnauthorizedSigner(s.validator));
      }
      if !verify(v.value.publicKey, PreimageFor(p, c, s), s.signature) {
        assert SignatureError(verify, p, c, i) == Some(InvalidSignature(s.validator));
        return Err(InvalidSignature(s.validator));
      }
      valid := valid + 1;
    }
    assert forall i :: 0 <= i < |c.signatures| ==> SignatureError(verify, p, c, i) == None ==> SignedBy(verify, p, c, c.signatures[i]);
    if valid < p.threshold {
      return Err(InsufficientQuorum(p.threshold, valid));
    }
    return Ok(valid);
  }

  // ----- Overlap -----

  /** `a` has a verifying signature among those of `c`. */
  ghost predicate HasSigned(verify: Verifier, p: Policy, c: Certificate, a: Address) {
    exists s :: s in c.signatures && s.validator == a && SignedBy(verify, p, c, s)
  }

  /**
   * Two certified blocks of one height share more than a third of the
   * configured validators, each with a verifying signature on both.
   */
  lemma CertificatesOverlap(verify: Verifier, p: Policy, c: Certificate, c': Certificate) returns (both: set<Address>)
    requires WellFormed(p) && p.threshold >= QuorumSize(|p.validators|)
    requires Certified(verify, p, c) && Certified(verify, p, c')
    ensures |both| >= |p.validators| / 3 + 1
    ensures forall a :: a in both ==>
              ValidatorByAddress(p.validators, a).Some? && HasSigned(verify, p, c, a) && HasSigned(verify, p, c', a)
  {
    var universe := ToSet(Addresses(p.validators));
    DistinctSize(Addresses(p.validators));
    SignersInUniverse(verify, p, c);
    SignersInUniverse(verify, p, c');
    both := ToSet(Signers(c)) * ToSet(Signers(c'));
    QuorumOverlap(universe, ToSet(Signers(c)), ToSet(Signers(c')));
  }

  lemma SignersInUniverse(verify: Verifier, p: Policy, c: Certificate)
    requires Certified(verify, p, c)
    ensures ToSet(Signers(c)) <= ToSet(Addresses(p.validators)) && |ToSet(Signers(c))| == |c.signatures|
    ensures forall a :: a in Signers(c) ==> ValidatorByAddress(p.validators, a).Some? && HasSigned(verify, p, c, a)
  {
    DistinctSize(Signers(c));
    forall a | a in Signers(c)
      ensures a in Addresses(p.validators) && ValidatorByAddress(p.validators, a).Some? && HasSigned(verify, p, c, a)
    {
      var i :| 0 <= i < |c.signatures| && Signers(c)[i] == a;
      assert SignedBy(verify, p, c, c.signatures[i]);
      var v := ValidatorByAddress(p.validators, a).value;
      var k :| 0 <= k < |p.validators| && p.validators[k] == v;
      assert Addresses(p.validators)[k] == a;
    }
  }
}

/** Verification of finality proofs, and why two verified proofs cannot disagree. */
module Justification {
  import opened Basics
  import opened BeefyPrimitives

  /** How many validators may be faulty. */
  function Faulty(authorities: nat): (f: nat)
  {
    (if authorities == 0 then 0 else authorities - 1) / 3
  }

  /** The least number of valid signatures that finalizes a block. */
  function Threshold(authorities: nat): (t: nat)
    ensures t <= authorities && (authorities > 0 ==> t > 0)
  {
    authorities - Faulty(authorities)
  }

  /** The number of faulty validators tolerated is the largest below a third; the others reach the threshold
      on their own, two quorums always share more than the faulty ones, and one signature less would not do. */
  lemma ThresholdBalances(n: nat)
    requires n > 0
    ensures 3 * Faulty(n) < n <= 3 * Faulty(n) + 3
    ensures Threshold(n) <= n - Faulty(n)
    ensures 2 * Threshold(n) - n > Faulty(n)
    ensures n == 3 * Faulty(n) + 1 ==> 2 * (Threshold(n) - 1) - n <= Faulty(n)
  {
  }

  predicate ValidAt(valid: Verifier, id: AuthorityId, signature: Option<Signature>, commitment: Commitment)
  {
    signature.Some? && valid(id, signature.value, commitment)
  }

  function CountValid(valid: Verifier, ids: seq<AuthorityId>, signatures: seq<Option<Signature>>, commitment: Commitment): (n: nat)
    requires |ids| == |signatures|
    ensures n <= |ids|
  {
    if ids == [] then 0
    else (if ValidAt(valid, ids[0], signatures[0], commitment) then 1 else 0) + CountValid(valid, ids[1..], signatures[1..], commitment)
  }

  predicate VerifyWithValidatorSet(valid: Verifier, target: nat, vs: ValidatorSet, proof: SignedCommitment)
  {
    && |proof.signatures| == |vs.validators|
    && proof.commitment.validatorSetId == vs.id
    && proof.commitment.blockNumber == target
    && CountValid(valid, vs.validators, proof.signatures, proof.commitment) >= Threshold(|vs.validators|)
  }

  // ----- agreement

  function Elements(ids: seq<AuthorityId>): (s: set<AuthorityId>)
  {
    set id <- ids
  }

  /** The validators with a valid signature in their slot. */
  function Signers(valid: Verifier, ids: seq<AuthorityId>, signatures: seq<Option<Signature>>, commitment: Commitment): (s: set<AuthorityId>)
    requires |ids| == |signatures|
    ensures s <= Elements(ids)
    ensures forall id <- s :: exists sig :: valid(id, sig, commitment)
  {
    if ids == [] then {}
    else
      var rest := Signers(valid, ids[1..], signatures[1..], commitment);
      if ValidAt(valid, ids[0], signatures[0], commitment) then
        assert valid(ids[0], signatures[0].value, commitment);
        {ids[0]} + rest
      else rest
  }

  lemma {:induction false} SignersCounted(valid: Verifier, ids: seq<AuthorityId>, signatures: seq<Option<Signature>>, commitment: Commitment)
    requires |ids| == |signatures|
    ensures |Signers(valid, ids, signatures, commitment)| <= CountValid(valid, ids, signatures, commitment)
    ensures Distinct(ids) ==> |Signers(valid, ids, signatures, commitment)| == CountValid(valid, ids, signatures, commitment)
  {
    if ids != [] {
      SignersCounted(valid, ids[1..], signatures[1..], commitment);
    }
  }

  lemma {:induction false} DistinctSize(ids: seq<AuthorityId>)
    requires Distinct(ids)
    ensures |Elements(ids)| == |ids|
  {
    if ids != [] {
      DistinctSize(ids[1..]);
      assert Elements(ids) == Elements(ids[1..]) + {ids[0]};
    }
  }

  lemma {:induction false} SubsetSize<T>(a: set<T>, b: set<T>)
    requires a <= b
    ensures |a| <= |b|
    decreases |b|
  {
    if a != {} {
      var x :| x in a;
      SubsetSize(a - {x}, b - {x});
    }
  }

  /** Two quorums of distinct validators share a member that is not faulty. */
  lemma QuorumsIntersect(all: set<AuthorityId>, a: set<AuthorityId>, b: set<AuthorityId>, faulty: set<AuthorityId>) returns (id: AuthorityId)
    requires a <= all && b <= all && |all| > 0
    requires |a| >= Threshold(|all|) && |b| >= Threshold(|all|)
    requires |faulty| <= Faulty(|all|)
    ensures id in a && id in b && id !in faulty
  {
    SubsetSize(a + b, all);
    assert |a * b| + |a + b| == |a| + |b|;
    if a * b <= faulty {
      SubsetSize(a * b, faulty);
      assert false;
    }
    id :| id in a * b && id !in faulty;
  }

  /** A validator that never signs two payloads for the same block number and validator set. */
  ghost predicate SignsOnce(valid: Verifier, id: AuthorityId)
  {
    forall s1, s2, c1, c2 ::
      valid(id, s1, c1) && valid(id, s2, c2) && c1.blockNumber == c2.blockNumber && c1.validatorSetId == c2.validatorSetId
      ==> c1.payload == c2.payload
  }

  /** With at most a third of the validators faulty, no two verified proofs for a block number disagree. */
  lemma Agreement(valid: Verifier, vs: ValidatorSet, faulty: set<AuthorityId>, target: nat, p1: SignedCommitment, p2: SignedCommitment)
    requires Distinct(vs.validators) && |vs.validators| > 0
    requires |faulty| <= Faulty(|vs.validators|)
    requires forall id <- vs.validators :: id !in faulty ==> SignsOnce(valid, id)
    requires VerifyWithValidatorSet(valid, target, vs, p1) && VerifyWithValidatorSet(valid, target, vs, p2)
    ensures p1.commitment == p2.commitment
  {
    var all := Elements(vs.validators);
    var a := Signers(valid, vs.validators, p1.signatures, p1.commitment);
    var b := Signers(valid, vs.validators, p2.signatures, p2.commitment);
    SignersCounted(valid, vs.validators, p1.signatures, p1.commitment);
    SignersCounted(valid, vs.validators, p2.signatures, p2.commitment);
    DistinctSize(vs.validators);
    var id := QuorumsIntersect(all, a, b, faulty);
    assert SignsOnce(valid, id);
  }
}

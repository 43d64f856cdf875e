/** The values BEEFY validators exchange: commitments, votes and finality proofs. */
module BeefyPrimitives {
  import opened Basics

  type AuthorityId(==, !new)
  type Signature(==, !new)
  type Payload(==, !new)

  datatype ValidatorSet = ValidatorSet(validators: seq<AuthorityId>, id: nat)

  datatype Commitment = Commitment(payload: Payload, blockNumber: nat, validatorSetId: nat)

  datatype VoteMessage = VoteMessage(commitment: Commitment, id: AuthorityId, signature: Signature)

  /** A finality proof: one slot per validator, in the order of the validator set. */
  datatype SignedCommitment = SignedCommitment(commitment: Commitment, signatures: seq<Option<Signature>>)

  /** Whether a signature by a validator is valid for a commitment. */
  type Verifier = (AuthorityId, Signature, Commitment) -> bool
}

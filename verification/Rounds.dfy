/** The voting rounds of one session: who voted for which payload at which block number. */
module Rounds {
  import opened Basics
  import opened BeefyPrimitives
  import opened Justification

  /** A voting round: a payload proposed for a block number. */
  datatype RoundKey = RoundKey(payload: Payload, number: nat)

  datatype Tracker = Tracker(selfVote: bool, votes: map<AuthorityId, Signature>)

  /** The rounds of a session as a value. */
  datatype Session = Session(
    rounds: map<RoundKey, Tracker>, start: nat, validatorSet: ValidatorSet, mandatoryDone: bool, bestDone: Option<nat>)

  function NewSession(start: nat, vs: ValidatorSet): (s: Session)
  {
    Session(map[], start, vs, false, None)
  }

  /** Rounds up to the best concluded number, or before the session, are of no interest any more. */
  predicate Stale(s: Session, number: nat)
  {
    number < s.start || (s.bestDone.Some? && number <= s.bestDone.value)
  }

  predicate ShouldSelfVote(s: Session, r: RoundKey)
  {
    && (s.bestDone.None? || r.number > s.bestDone.value)
    && (r in s.rounds ==> !s.rounds[r].selfVote)
  }

  /** Whether a vote is new and counts in this session. */
  predicate AcceptsVote(s: Session, r: RoundKey, id: AuthorityId)
  {
    !Stale(s, r.number) && id in s.validatorSet.validators && (r in s.rounds ==> id !in s.rounds[r].votes)
  }

  function AddVote(s: Session, r: RoundKey, id: AuthorityId, signature: Signature, selfVote: bool): (s': Session)
  {
    if AcceptsVote(s, r, id) then
      var t := if r in s.rounds then s.rounds[r] else Tracker(false, map[]);
      s.(rounds := s.rounds[r := Tracker(t.selfVote || selfVote, t.votes[id := signature])])
    else s
  }

  predicate IsDone(s: Session, r: RoundKey)
  {
    r in s.rounds && |s.rounds[r].votes| >= Threshold(|s.validatorSet.validators|)
  }

  /** The recorded signatures of a round, one slot per validator. */
  function Signatures(ids: seq<AuthorityId>, votes: map<AuthorityId, Signature>): (sigs: seq<Option<Signature>>)
    ensures |sigs| == |ids|
    ensures forall i :: 0 <= i < |ids| ==> sigs[i] == if ids[i] in votes then Some(votes[ids[i]]) else None
  {
    seq(|ids|, i requires 0 <= i < |ids| => if ids[i] in votes then Some(votes[ids[i]]) else None)
  }

  function RemoveRound(s: Session, r: RoundKey): (s': Session)
  {
    s.(rounds := s.rounds - {r})
  }

  function Conclude(s: Session, number: nat): (s': Session)
  {
    s.(rounds := map r <- s.rounds | r.number > number :: s.rounds[r],
       mandatoryDone := s.mandatoryDone || number == s.start,
       bestDone := if s.bestDone.Some? && s.bestDone.value >= number then s.bestDone else Some(number))
  }

  /** Every tracked round is current, was voted on, and by validators of the session only. */
  ghost predicate SessionInv(s: Session)
  {
    forall r <- s.rounds ::
      !Stale(s, r.number) && s.rounds[r].votes.Keys != {} && s.rounds[r].votes.Keys <= Elements(s.validatorSet.validators)
  }

  lemma SessionInvKept(s: Session, r: RoundKey, id: AuthorityId, signature: Signature, selfVote: bool, number: nat)
    requires SessionInv(s)
    ensures SessionInv(AddVote(s, r, id, signature, selfVote))
    ensures SessionInv(RemoveRound(s, r))
    ensures SessionInv(Conclude(s, number))
  {
    var t := AddVote(s, r, id, signature, selfVote);
    if AcceptsVote(s, r, id) {
      assert id in t.rounds[r].votes;
    }
  }

  /** Who has voted in a round. */
  ghost function Voters(s: Session, r: RoundKey): (ids: set<AuthorityId>)
  {
    if r in s.rounds then s.rounds[r].votes.Keys else {}
  }

  /** A vote that counts joins the others of its round, whose signatures stay; nothing else changes. */
  lemma VotesAddUp(s: Session, r: RoundKey, id: AuthorityId, signature: Signature, selfVote: bool)
    ensures var s' := AddVote(s, r, id, signature, selfVote);
            if Stale(s, r.number) || id !in s.validatorSet.validators || id in Voters(s, r) then s' == s
            else
              && Voters(s', r) == Voters(s, r) + {id} && s'.rounds[r].votes[id] == signature
              && (forall k <- Voters(s, r) :: s'.rounds[r].votes[k] == s.rounds[r].votes[k])
              && (s'.rounds[r].selfVote <==> selfVote || (r in s.rounds && s.rounds[r].selfVote))
              && s'.rounds - {r} == s.rounds - {r}
              && s' == s.(rounds := s'.rounds)
  {
  }

  /** The node votes in a round at most once, and not any more once its number is concluded. */
  lemma SelfVotesOnce(s: Session, r: RoundKey, id: AuthorityId, signature: Signature, number: nat)
    ensures AcceptsVote(s, r, id) ==> !ShouldSelfVote(AddVote(s, r, id, signature, true), r)
    ensures ShouldSelfVote(Conclude(s, number), r) <==> r.number > number && ShouldSelfVote(s, r)
  {
  }

  // ----- produced proofs

  function Proof(vs: ValidatorSet, r: RoundKey, votes: map<AuthorityId, Signature>): (p: SignedCommitment)
  {
    SignedCommitment(Commitment(r.payload, r.number, vs.id), Signatures(vs.validators, votes))
  }

  /** The voters whose recorded signature is valid for a commitment. */
  ghost function ValidVoters(valid: Verifier, votes: map<AuthorityId, Signature>, commitment: Commitment): (s: set<AuthorityId>)
  {
    set id <- votes | valid(id, votes[id], commitment)
  }

  lemma {:induction false} SignersAreValidVoters(valid: Verifier, ids: seq<AuthorityId>, votes: map<AuthorityId, Signature>, commitment: Commitment)
    ensures Signers(valid, ids, Signatures(ids, votes), commitment) == ValidVoters(valid, votes, commitment) * Elements(ids)
  {
    if ids != [] {
      SignersAreValidVoters(valid, ids[1..], votes, commitment);
      assert Signatures(ids, votes)[1..] == Signatures(ids[1..], votes);
      assert Elements(ids) == {ids[0]} + Elements(ids[1..]);
    }
  }

  /** The assembled proof verifies for its block number and the session's validators exactly when enough
      of the recorded signatures are valid for the session's commitment. */
  lemma ProofVerifiesExactly(valid: Verifier, s: Session, r: RoundKey)
    requires SessionInv(s) && r in s.rounds && Distinct(s.validatorSet.validators)
    ensures var p := Proof(s.validatorSet, r, s.rounds[r].votes);
            VerifyWithValidatorSet(valid, r.number, s.validatorSet, p) <==>
            |ValidVoters(valid, s.rounds[r].votes, p.commitment)| >= Threshold(|s.validatorSet.validators|)
  {
    var ids, votes := s.validatorSet.validators, s.rounds[r].votes;
    var p := Proof(s.validatorSet, r, votes);
    SignersAreValidVoters(valid, ids, votes, p.commitment);
    SignersCounted(valid, ids, p.signatures, p.commitment);
    var voters := ValidVoters(valid, votes, p.commitment);
    assert voters * Elements(ids) == voters;
  }

  /** All recorded signatures of a round are valid for the session's commitment. */
  ghost predicate AllValid(valid: Verifier, s: Session, r: RoundKey)
    requires r in s.rounds
  {
    forall id <- s.rounds[r].votes ::
      valid(id, s.rounds[r].votes[id], Commitment(r.payload, r.number, s.validatorSet.id))
  }

  /** If every recorded signature is valid for the session's commitment, a concluded round yields a proof
      that verifies, whether or not the validator set repeats a validator. */
  lemma ProducedProofVerifies(valid: Verifier, s: Session, r: RoundKey)
    requires SessionInv(s) && IsDone(s, r) && AllValid(valid, s, r)
    ensures VerifyWithValidatorSet(valid, r.number, s.validatorSet, Proof(s.validatorSet, r, s.rounds[r].votes))
  {
    var ids, votes := s.validatorSet.validators, s.rounds[r].votes;
    var commitment := Commitment(r.payload, r.number, s.validatorSet.id);
    SignersAreValidVoters(valid, ids, votes, commitment);
    SignersCounted(valid, ids, Signatures(ids, votes), commitment);
    assert ValidVoters(valid, votes, commitment) * Elements(ids) == votes.Keys;
  }

  // ----- the rounds of a session as an object

  class SessionRounds {
    var rounds: map<RoundKey, Tracker>
    const sessionStart: nat
    const validatorSet: ValidatorSet
    var mandatoryDone: bool
    var bestDone: Option<nat>

    function View(): (s: Session)
      reads this
    {
      Session(rounds, sessionStart, validatorSet, mandatoryDone, bestDone)
    }

    constructor (sessionStart: nat, vs: ValidatorSet)
      ensures View() == NewSession(sessionStart, vs)
    {
      this.sessionStart, validatorSet := sessionStart, vs;
      rounds, mandatoryDone, bestDone := map[], false, None;
    }

    /** Records a vote; returns whether it was new and counted. */
    method RecordVote(r: RoundKey, id: AuthorityId, signature: Signature, selfVote: bool) returns (added: bool)
      modifies this`rounds
      ensures added == AcceptsVote(old(View()), r, id)
      ensures View() == AddVote(old(View()), r, id, signature, selfVote)
    {
      if r.number < sessionStart || (bestDone.Some? && r.number <= bestDone.value) {
        return false;
      }
      if id !in validatorSet.validators {
        return false;
      }
      var tracker := if r in rounds then rounds[r] else Tracker(false, map[]);
      if id in tracker.votes {
        return false;
      }
      rounds := rounds[r := Tracker(tracker.selfVote || selfVote, tracker.votes[id := signature])];
      return true;
    }

    /** Takes a round with enough votes off the list and returns its signatures. */
    method ShouldConclude(r: RoundKey) returns (signatures: Option<seq<Option<Signature>>>)
      modifies this`rounds
      ensures signatures == if IsDone(old(View()), r) then Some(Signatures(validatorSet.validators, old(rounds)[r].votes)) else None
      ensures View() == if IsDone(old(View()), r) then RemoveRound(old(View()), r) else old(View())
    {
      if r in rounds && |rounds[r].votes| >= Threshold(|validatorSet.validators|) {
        var votes := rounds[r].votes;
        rounds := rounds - {r};
        signatures := Some(Signatures(validatorSet.validators, votes));
      } else {
        signatures := None;
      }
    }

    method ConcludeRound(number: nat)
      modifies this
      ensures View() == Conclude(old(View()), number)
    {
      rounds := map r <- rounds | r.number > number :: rounds[r];
      mandatoryDone := mandatoryDone || number == sessionStart;
      bestDone := if bestDone.Some? && bestDone.value >= number then bestDone else Some(number);
    }
  }
}

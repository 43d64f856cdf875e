/** Resuming the voter from its saved state. */
module VoterResume {
  import opened Basics
  import opened BeefyPrimitives
  import opened Rounds
  import opened VoterModel
  import opened VoterInvariant
  import opened VoterSafety
  import opened VoterPending
  import opened VoterRuns
  import opened VoterTally

  /** The saved voter goes on from a newly finalized block, with empty buffers; no session is started. */
  function Resume(saved: Voter, best: nat, minDelta: nat): (v: Voter)
  {
    saved.(bestGrandpa := best, minDelta := Max(minDelta, 1), pendingVotes := map[], pendingJustifications := map[])
  }

  /** Nothing was announced while the voter was away. */
  ghost predicate NothingMissed(w: Setting, saved: Voter, best: nat)
  {
    forall n: nat | saved.bestGrandpa < n <= best :: !w.announces(n)
  }

  /** Validator sets change at announcing blocks only. */
  ghost predicate SetsChangeAnnounced(w: Setting, saved: Voter, best: nat)
  {
    forall n: nat | saved.bestGrandpa < n <= best :: w.announces(n) || w.setAt(n) == w.setAt(n - 1)
  }

  lemma {:induction false} NothingMissedGood(w: Setting, saved: Voter, best: nat, n: nat)
    requires Good(w, saved) && saved.bestGrandpa < best && saved.bestGrandpa <= n <= best
    requires NothingMissed(w, saved, best) && SetsChangeAnnounced(w, saved, best)
    ensures GoodUpTo(w, saved.(bestGrandpa := best), n)
    decreases n
  {
    hide Good, GoodUpTo;
    if n == saved.bestGrandpa {
      RaisedGrandpa(w, saved, best);
    } else {
      NothingMissedGood(w, saved, best, n - 1);
      SameSessionKeepsGood(w, saved.(bestGrandpa := best), n);
    }
  }

  lemma UpToIsGood(w: Setting, v: Voter)
    requires GoodUpTo(w, v, v.bestGrandpa)
    ensures Good(w, v)
  {
    hide VoterInv, Proved, Settled, InCharge, Recorded, Buffered, Cast;
  }

  lemma NewDeltaKeepsGood(w: Setting, v: Voter, minDelta: nat)
    requires Good(w, v) && minDelta >= 1
    ensures Good(w, v.(minDelta := minDelta))
  {
    hide Settled, VerifiedProof, ArrivingVote, AllValid, SelfVoted, SessionInv;
    var v' := v.(minDelta := minDelta);
    StillSettled(w, v, v');
    forall vote | ArrivingVote(w, v, vote)
      ensures ArrivingVote(w, v', vote)
    {
      SameArrivals(w, v, v', vote);
    }
  }

  lemma EmptiedBuffersKeepGood(w: Setting, v: Voter, v': Voter)
    requires GoodUpTo(w, v, v.bestGrandpa) && v'.minDelta >= 1
    requires v' == v.(minDelta := v'.minDelta, pendingVotes := map[], pendingJustifications := map[])
    ensures Good(w, v')
  {
    hide *;
    UpToIsGood(w, v);
    var v1 := v.(pendingVotes := map[], pendingJustifications := map[]);
    ShrunkBuffersKeepGood(w, v, v1);
    NewDeltaKeepsGood(w, v1, v'.minDelta);
  }

  lemma GoodIsUpTo(w: Setting, v: Voter)
    requires Good(w, v)
    ensures GoodUpTo(w, v, v.bestGrandpa)
  {
    hide VerifiedProof, VerifiedVote, AllValid, SessionInv, SelfVoted, Settled, Buffered, Buffers;
  }

  lemma MissedIsBad(w: Setting, saved: Voter, best: nat, minDelta: nat, n: nat)
    requires Good(w, saved) && saved.bestGrandpa < n <= best && w.announces(n)
    ensures !Good(w, Resume(saved, best, minDelta))
  {
    hide VerifiedProof, SessionInv, InCharge, Recorded, Buffered, Cast, Buffers;
    var v := Resume(saved, best, minDelta);
    assert !Emitted(v, n) && !Queued(v, n);
    assert Mandatory(w, n);
  }

  /** Resuming is safe exactly if no validator set was announced between the saved and the new best GRANDPA block. */
  lemma ResumeIsGoodExactly(w: Setting, saved: Voter, best: nat, minDelta: nat)
    requires Good(w, saved) && saved.bestGrandpa <= best && SetsChangeAnnounced(w, saved, best)
    ensures Good(w, Resume(saved, best, minDelta)) <==> NothingMissed(w, saved, best)
  {
    hide Good, GoodUpTo, SetsChangeAnnounced;
    if NothingMissed(w, saved, best) {
      if best == saved.bestGrandpa {
        GoodIsUpTo(w, saved);
      } else {
        NothingMissedGood(w, saved, best, best);
      }
      EmptiedBuffersKeepGood(w, saved.(bestGrandpa := best), Resume(saved, best, minDelta));
    } else {
      var n: nat :| saved.bestGrandpa < n <= best && w.announces(n);
      MissedIsBad(w, saved, best, minDelta, n);
    }
  }

  /** A resumed voter that is up to date goes on voting where it was, by the minimum it is now given: once GRANDPA
      is that far ahead, and never again in a round it has voted in. */
  lemma ResumedVoterVotes(w: Setting, saved: Voter, best: nat, minDelta: nat, b: Ballot)
    requires Good(w, saved) && saved.sessions[0].mandatoryDone && saved.bestGrandpa <= best
    requires NothingMissed(w, saved, best) && SetsChangeAnnounced(w, saved, best)
    ensures var v := Resume(saved, best, minDelta);
            && (VotingTarget(v).Some? <==> best >= saved.bestBeefy + Max(minDelta, 1))
            && (HonestBallot(w, v, b) && OwnVote(v, b).Some? ==> !Gossiped(saved, RoundOf(OwnVote(v, b).value)))
  {
    hide Good, VotingTarget, OwnVote, HonestBallot, Gossiped, SetsChangeAnnounced, NothingMissed;
    var v := Resume(saved, best, minDelta);
    ResumeIsGoodExactly(w, saved, best, minDelta);
    GoodIsValid(w, saved);
    GoodIsValid(w, v);
    OwnTargetExactly(v);
    if HonestBallot(w, v, b) && OwnVote(v, b).Some? {
      OwnVoteIsNew(w, v, b);
      SameGossip(saved, v, RoundOf(OwnVote(v, b).value));
    }
  }

  lemma SameGossip(v: Voter, v': Voter, r: RoundKey)
    requires v'.gossiped == v.gossiped
    ensures Gossiped(v, r) <==> Gossiped(v', r)
  {
  }

  /** Otherwise an up-to-date voter finalizes past a block that announced a set, without a proof for it, as
      soon as it gets a proof for a later one. */
  lemma ResumeSkipsMandatory(w: Setting, saved: Voter, best: nat, minDelta: nat, n: nat, proof: SignedCommitment)
    requires Good(w, saved) && saved.sessions[0].mandatoryDone
    requires w.announces(n) && saved.bestGrandpa < n < proof.commitment.blockNumber <= best
    ensures var v := Step(Resume(saved, best, minDelta), Justif(proof));
            w.since < n <= v.bestBeefy && !Emitted(v, n) && !Queued(v, n)
  {
    hide VerifiedProof, InCharge, Recorded, Buffered, Cast, Settled;
    var v := Resume(saved, best, minDelta);
    assert |saved.sessions| == 1;
    assert Prune([Conclude(v.sessions[0], proof.commitment.blockNumber)]) == [Conclude(v.sessions[0], proof.commitment.blockNumber)];
    assert v.sessions[0 := Conclude(v.sessions[0], proof.commitment.blockNumber)] == [Conclude(v.sessions[0], proof.commitment.blockNumber)];
  }
}

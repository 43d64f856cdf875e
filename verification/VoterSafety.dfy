/** Safety of the voter over whole runs: which proofs it emits, which mandatory blocks it settles and which
    votes it casts. */
module VoterSafety {
  import opened Basics
  import opened BeefyPrimitives
  import opened Justification
  import opened Rounds
  import opened VoterModel
  import opened VoterInvariant

  /** The surroundings of a voter: signature checking, the validator set in charge of each block, the
      blocks that announce a new set, the node's own authorities, and the best BEEFY block and queued
      mandatory blocks it started with. */
  datatype Setting = Setting(
    valid: Verifier, setAt: nat -> ValidatorSet, announces: nat -> bool, own: set<AuthorityId>, since: nat, first: set<nat>)

  ghost predicate Mandatory(w: Setting, n: nat)
  {
    w.announces(n) || n in w.first
  }

  ghost predicate VerifiedProof(w: Setting, proof: SignedCommitment)
  {
    VerifyWithValidatorSet(w.valid, proof.commitment.blockNumber, w.setAt(proof.commitment.blockNumber), proof)
  }

  ghost predicate VerifiedVote(w: Setting, r: RoundKey, id: AuthorityId, signature: Signature)
  {
    w.valid(id, signature, Commitment(r.payload, r.number, w.setAt(r.number).id))
  }

  ghost predicate Gossiped(v: Voter, r: RoundKey)
  {
    exists g <- v.gossiped :: RoundOf(g) == r
  }

  /** A vote as it may arrive: validly signed for the set in charge, and nobody else votes in the node's name. */
  ghost predicate ArrivingVote(w: Setting, v: Voter, vote: VoteMessage)
  {
    && VerifiedVote(w, RoundOf(vote), vote.id, vote.signature)
    && (vote.id in w.own ==> Gossiped(v, RoundOf(vote)))
  }

  // ----- what holds in every state

  /** The emitted proofs verify and ascend strictly, from the first best BEEFY block to the present one. */
  ghost predicate Proved(w: Setting, v: Voter)
  {
    && (forall e <- v.emitted :: VerifiedProof(w, e) && w.since < e.commitment.blockNumber <= v.bestBeefy)
    && (forall i, j :: 0 <= i < j < |v.emitted| ==> v.emitted[i].commitment.blockNumber < v.emitted[j].commitment.blockNumber)
    && v.bestBeefy == if v.emitted == [] then w.since else v.emitted[|v.emitted| - 1].commitment.blockNumber
  }

  ghost predicate Emitted(v: Voter, n: nat)
  {
    exists e <- v.emitted :: e.commitment.blockNumber == n
  }

  ghost predicate Queued(v: Voter, n: nat)
  {
    exists s <- v.sessions :: s.start == n && !s.mandatoryDone
  }

  /** Every mandatory block up to a number has its proof emitted or is still queued. */
  ghost predicate Settled(w: Setting, v: Voter, upTo: nat)
  {
    && (forall n <- w.first :: n <= upTo)
    && forall n | w.since < n <= upTo && Mandatory(w, n) :: Emitted(v, n) || Queued(v, n)
  }

  /** Sessions carry the validator set in charge, the last one up to a number. */
  ghost predicate InCharge(w: Setting, v: Voter, upTo: nat)
    requires v.sessions != []
  {
    && (forall s <- v.sessions :: s.validatorSet == w.setAt(s.start))
    && var last := v.sessions[|v.sessions| - 1];
       forall n | last.start <= n <= upTo :: w.setAt(n) == last.validatorSet
  }

  /** All recorded votes are valid. */
  ghost predicate Recorded(w: Setting, v: Voter)
    requires v.sessions != []
  {
    forall r <- v.sessions[0].rounds :: AllValid(w.valid, v.sessions[0], r)
  }

  ghost predicate Buffered(w: Setting, v: Voter)
  {
    && (forall n <- v.pendingVotes :: forall vote <- v.pendingVotes[n] :: ArrivingVote(w, v, vote))
    && (forall n <- v.pendingJustifications :: VerifiedProof(w, v.pendingJustifications[n]))
  }

  ghost predicate SelfVoted(s: Session, r: RoundKey)
  {
    Stale(s, r.number) || (r in s.rounds && s.rounds[r].selfVote)
  }

  /** The node's own votes are for different rounds, each marked as voted on until it is stale. */
  ghost predicate Cast(w: Setting, v: Voter)
    requires v.sessions != []
  {
    && (forall i, j :: 0 <= i < j < |v.gossiped| ==> RoundOf(v.gossiped[i]) != RoundOf(v.gossiped[j]))
    && (forall g <- v.gossiped :: RoundOf(g).number <= End(v) && SelfVoted(v.sessions[0], RoundOf(g)))
    && (forall r <- v.sessions[0].rounds :: forall id <- v.sessions[0].rounds[r].votes :: id in w.own ==> v.sessions[0].rounds[r].selfVote)
  }

  ghost predicate Good(w: Setting, v: Voter)
  {
    VoterInv(v) && Proved(w, v) && Settled(w, v, v.bestGrandpa) && InCharge(w, v, v.bestGrandpa)
    && Recorded(w, v) && Buffered(w, v) && Cast(w, v)
  }

  lemma GoodIsValid(w: Setting, v: Voter)
    requires Good(w, v)
    ensures VoterInv(v) && v.sessions != []
  {
  }

  /** In a good state the front session's validators are in charge of all accepted blocks. */
  lemma FrontInCharge(w: Setting, v: Voter, n: nat)
    requires VoterInv(v) && InCharge(w, v, v.bestGrandpa) && Start(v) <= n <= End(v)
    ensures w.setAt(n) == v.sessions[0].validatorSet
  {
  }

  // ----- finalizing

  lemma FinalizeProves(w: Setting, v: Voter, proof: SignedCommitment)
    requires VoterInv(v) && Start(v) <= proof.commitment.blockNumber <= End(v)
    requires Proved(w, v) && Settled(w, v, v.bestGrandpa) && VerifiedProof(w, proof)
    ensures Proved(w, Finalize(v, proof)) && Settled(w, Finalize(v, proof), v.bestGrandpa)
  {
    hide Finalize, VerifiedProof;
    FinalizeShape(v, proof);
    var n, v' := proof.commitment.blockNumber, Finalize(v, proof);
    forall m | w.since < m <= v.bestGrandpa && Mandatory(w, m)
      ensures Emitted(v', m) || Queued(v', m)
    {
      FinalizeSettles(v, proof, m);
    }
  }

  lemma FinalizeSettles(v: Voter, proof: SignedCommitment, m: nat)
    requires VoterInv(v) && Start(v) <= proof.commitment.blockNumber <= End(v)
    requires Emitted(v, m) || Queued(v, m)
    ensures Emitted(Finalize(v, proof), m) || Queued(Finalize(v, proof), m)
  {
    hide Finalize;
    FinalizeShape(v, proof);
    var n, v' := proof.commitment.blockNumber, Finalize(v, proof);
    if Emitted(v, m) {
      assert v.emitted <= v'.emitted;
    } else if |v.sessions| > 1 && m != Start(v) {
      var s :| s in v.sessions && s.start == m && !s.mandatoryDone;
      assert s in v.sessions[1..];
    } else if !v.sessions[0].mandatoryDone {
      assert v'.emitted[|v.emitted|] == proof;
    }
  }

  lemma FinalizeKeepsRecords(w: Setting, v: Voter, proof: SignedCommitment)
    requires VoterInv(v) && Start(v) <= proof.commitment.blockNumber <= End(v)
    requires InCharge(w, v, v.bestGrandpa) && Recorded(w, v) && Buffered(w, v)
    ensures var v' := Finalize(v, proof);
            v'.sessions != [] && InCharge(w, v', v.bestGrandpa) && Recorded(w, v') && Buffered(w, v')
  {
    hide Finalize;
    FinalizeShape(v, proof);
    var v' := Finalize(v, proof);
    forall r <- v'.sessions[0].rounds
      ensures AllValid(w.valid, v'.sessions[0], r)
    {
      assert AllValid(w.valid, v.sessions[0], r);
    }
    assert v'.gossiped == v.gossiped;
  }

  lemma FinalizeKeepsCast(w: Setting, v: Voter, proof: SignedCommitment)
    requires VoterInv(v) && Start(v) <= proof.commitment.blockNumber <= End(v) && Cast(w, v)
    ensures Finalize(v, proof).sessions != [] && Cast(w, Finalize(v, proof))
  {
    hide Finalize;
    FinalizeShape(v, proof);
    FinalizeKeepsInv(v, proof);
    var v' := Finalize(v, proof);
    forall g <- v'.gossiped
      ensures RoundOf(g).number <= End(v') && SelfVoted(v'.sessions[0], RoundOf(g))
    {
      assert SelfVoted(v.sessions[0], RoundOf(g));
    }
  }

  lemma FinalizeKeepsGood(w: Setting, v: Voter, proof: SignedCommitment)
    requires Good(w, v) && Start(v) <= proof.commitment.blockNumber <= End(v) && VerifiedProof(w, proof)
    ensures Good(w, Finalize(v, proof)) && Advances(v, Finalize(v, proof))
  {
    hide Finalize, Queue, Front, Buffers, Proved, Settled, InCharge, Recorded, Buffered, Cast, VerifiedProof;
    FinalizeShape(v, proof);
    FinalizeKeepsInv(v, proof);
    FinalizeProves(w, v, proof);
    FinalizeKeepsRecords(w, v, proof);
    FinalizeKeepsCast(w, v, proof);
  }

  // ----- votes

  lemma RecordKeepsRecords(w: Setting, v: Voter, r: RoundKey, id: AuthorityId, signature: Signature, selfVote: bool)
    requires VoterInv(v) && InCharge(w, v, v.bestGrandpa) && Recorded(w, v)
    requires AcceptsVote(v.sessions[0], r, id) && r.number <= End(v) && VerifiedVote(w, r, id, signature)
    ensures Recorded(w, Record(v, r, id, signature, selfVote))
  {
    FrontInCharge(w, v, r.number);
    var s, s' := v.sessions[0], Record(v, r, id, signature, selfVote).sessions[0];
    forall k <- s'.rounds
      ensures AllValid(w.valid, s', k)
    {
      assert k in s.rounds ==> AllValid(w.valid, s, k);
    }
  }

  lemma RecordKeepsSets(w: Setting, v: Voter, r: RoundKey, id: AuthorityId, signature: Signature, selfVote: bool)
    requires VoterInv(v)
    requires Proved(w, v) && Settled(w, v, v.bestGrandpa) && InCharge(w, v, v.bestGrandpa) && Buffered(w, v)
    ensures var v' := Record(v, r, id, signature, selfVote);
            Proved(w, v') && Settled(w, v', v.bestGrandpa) && InCharge(w, v', v.bestGrandpa) && Buffered(w, v')
  {
    hide Front, Buffers, SessionInv, VerifiedProof;
    var v' := Record(v, r, id, signature, selfVote);
    forall n | w.since < n <= v.bestGrandpa && Mandatory(w, n)
      ensures Emitted(v', n) || Queued(v', n)
    {
      if Queued(v, n) {
        var i :| 0 <= i < |v.sessions| && v.sessions[i].start == n && !v.sessions[i].mandatoryDone;
        assert v'.sessions[i] in v'.sessions;
      }
    }
    assert v'.gossiped == v.gossiped;
  }

  lemma RecordKeepsCast(w: Setting, v: Voter, r: RoundKey, id: AuthorityId, signature: Signature, selfVote: bool)
    requires VoterInv(v) && Cast(w, v)
    requires AcceptsVote(v.sessions[0], r, id)
    requires id in w.own && !selfVote ==> Gossiped(v, r)
    ensures Cast(w, Record(v, r, id, signature, selfVote))
  {
    var s, v' := v.sessions[0], Record(v, r, id, signature, selfVote);
    if id in w.own && !selfVote {
      assert SelfVoted(s, r);
    }
    forall g <- v'.gossiped
      ensures SelfVoted(v'.sessions[0], RoundOf(g))
    {
      assert SelfVoted(s, RoundOf(g));
    }
  }

  lemma RecordKeepsGood(w: Setting, v: Voter, r: RoundKey, id: AuthorityId, signature: Signature, selfVote: bool)
    requires Good(w, v) && r.number <= End(v) && AcceptsVote(v.sessions[0], r, id)
    requires VerifiedVote(w, r, id, signature) && (id in w.own && !selfVote ==> Gossiped(v, r))
    ensures Good(w, Record(v, r, id, signature, selfVote)) && Advances(v, Record(v, r, id, signature, selfVote))
  {
    hide Queue, Front, Buffers, Proved, Settled, InCharge, Recorded, Buffered, Cast, AcceptsVote, AddVote, VerifiedVote, Gossiped;
    RecordKeepsInv(v, r, id, signature, selfVote);
    RecordKeepsRecords(w, v, r, id, signature, selfVote);
    RecordKeepsSets(w, v, r, id, signature, selfVote);
    RecordKeepsCast(w, v, r, id, signature, selfVote);
  }

  /** The proof assembled from a round with enough votes verifies. */
  lemma AssembledProofVerifies(w: Setting, v: Voter, r: RoundKey)
    requires Good(w, v) && IsDone(v.sessions[0], r)
    ensures VerifiedProof(w, Proof(v.sessions[0].validatorSet, r, v.sessions[0].rounds[r].votes))
    ensures Start(v) <= r.number <= End(v)
  {
    hide Proved, Settled, Cast, Buffered, VerifyWithValidatorSet, Buffers;
    FrontInCharge(w, v, r.number);
    ProducedProofVerifies(w.valid, v.sessions[0], r);
  }

  lemma HandleVoteKeepsGood(w: Setting, v: Voter, r: RoundKey, id: AuthorityId, signature: Signature, selfVote: bool)
    requires Good(w, v) && r.number <= End(v)
    requires VerifiedVote(w, r, id, signature) && (id in w.own && !selfVote ==> Gossiped(v, r))
    ensures Good(w, HandleVote(v, r, id, signature, selfVote)) && Advances(v, HandleVote(v, r, id, signature, selfVote))
  {
    hide HandleVote, Finalize, Front, Buffers, Proved, Settled, InCharge, Recorded, Buffered, Cast, AcceptsVote, AddVote;
    hide VerifiedVote, VerifiedProof, Gossiped;
    HandleVoteShape(v, r, id, signature, selfVote);
    if AcceptsVote(v.sessions[0], r, id) {
      RecordKeepsGood(w, v, r, id, signature, selfVote);
      var v1 := Record(v, r, id, signature, selfVote);
      var s := v1.sessions[0];
      if IsDone(s, r) {
        AssembledProofVerifies(w, v1, r);
        FinalizeKeepsGood(w, v1, Proof(s.validatorSet, r, s.rounds[r].votes));
      }
    }
  }

  // ----- the node's own vote

  /** The vote cast is for an accepted block above the best BEEFY one. */
  lemma OwnVoteIsAccepted(v: Voter, b: Ballot)
    requires VoterInv(v) && OwnVote(v, b).Some?
    ensures var n := OwnVote(v, b).value.commitment.blockNumber;
            Start(v) <= n <= End(v) && v.bestBeefy < n <= v.bestGrandpa && Triage(v, n) == Some(Process)
    ensures OwnVote(v, b).value.commitment.validatorSetId == v.sessions[0].validatorSet.id
  {
  }

  /** The key store signs with an authority of the session, and validly. */
  ghost predicate HonestBallot(w: Setting, v: Voter, b: Ballot)
  {
    v.sessions != [] && OwnVote(v, b).Some? ==>
      var vote := OwnVote(v, b).value;
      && vote.id in w.own && vote.id in v.sessions[0].validatorSet.validators
      && w.valid(vote.id, vote.signature, vote.commitment)
  }

  lemma OwnVoteIsNew(w: Setting, v: Voter, b: Ballot)
    requires Good(w, v) && HonestBallot(w, v, b) && OwnVote(v, b).Some?
    ensures var vote := OwnVote(v, b).value;
            !Gossiped(v, RoundOf(vote)) && AcceptsVote(v.sessions[0], RoundOf(vote), vote.id)
            && VerifiedVote(w, RoundOf(vote), vote.id, vote.signature)
  {
  }

  lemma HandledVoteIsMarked(v: Voter, r: RoundKey, id: AuthorityId, signature: Signature)
    requires VoterInv(v) && r.number <= End(v) && AcceptsVote(v.sessions[0], r, id)
    ensures var v' := HandleVote(v, r, id, signature, true);
            v'.gossiped == v.gossiped && v'.sessions != [] && SelfVoted(v'.sessions[0], r)
  {
    hide HandleVote, Finalize;
    HandleVoteShape(v, r, id, signature, true);
    RecordKeepsInv(v, r, id, signature, true);
    var v1 := Record(v, r, id, signature, true);
    var s := v1.sessions[0];
    if IsDone(s, r) {
      FinalizeShape(v1, Proof(s.validatorSet, r, s.rounds[r].votes));
    }
  }

  /** Buffers and sent votes do not matter to most of what holds. */
  lemma SessionsAloneMatter(w: Setting, v: Voter, v': Voter)
    requires Good(w, v)
    requires v' == v.(pendingVotes := v'.pendingVotes, pendingJustifications := v'.pendingJustifications, gossiped := v'.gossiped)
    ensures Queue(v') && Front(v') && Proved(w, v') && Settled(w, v', v.bestGrandpa)
    ensures InCharge(w, v', v.bestGrandpa) && Recorded(w, v')
  {
    hide Buffers, Buffered, Cast, SessionInv, VerifiedProof, AllValid;
    assert forall n :: (Emitted(v, n) <==> Emitted(v', n)) && (Queued(v, n) <==> Queued(v', n));
  }

  lemma GossipedStays(v: Voter, v': Voter, r: RoundKey)
    requires v.gossiped <= v'.gossiped && Gossiped(v, r)
    ensures Gossiped(v', r)
  {
  }

  lemma GossipKeepsGood(w: Setting, v: Voter, vote: VoteMessage)
    requires Good(w, v) && !Gossiped(v, RoundOf(vote))
    requires RoundOf(vote).number <= End(v) && SelfVoted(v.sessions[0], RoundOf(vote))
    ensures var v' := v.(gossiped := v.gossiped + [vote]);
            Good(w, v') && Advances(v, v')
  {
    hide Front, Proved, Settled, Recorded, InCharge, VerifiedVote, VerifiedProof;
    var v' := v.(gossiped := v.gossiped + [vote]);
    SessionsAloneMatter(w, v, v');
    forall r | Gossiped(v, r)
      ensures Gossiped(v', r)
    {
      GossipedStays(v, v', r);
    }
  }

  lemma TryToVoteKeepsGood(w: Setting, v: Voter, b: Ballot)
    requires Good(w, v) && HonestBallot(w, v, b)
    ensures Good(w, TryToVote(v, b)) && Advances(v, TryToVote(v, b))
  {
    hide HandleVote, OwnVote, Front, Buffers, Proved, Settled, InCharge, Recorded, Buffered, Cast, AcceptsVote, VerifiedVote;
    hide HonestBallot, SelfVoted;
    if OwnVote(v, b).Some? {
      var vote := OwnVote(v, b).value;
      OwnVoteIsAccepted(v, b);
      OwnVoteIsNew(w, v, b);
      HandleVoteKeepsGood(w, v, RoundOf(vote), vote.id, vote.signature, true);
      HandledVoteIsMarked(v, RoundOf(vote), vote.id, vote.signature);
      GossipKeepsGood(w, HandleVote(v, RoundOf(vote), vote.id, vote.signature, true), vote);
    }
  }

  // ----- new sessions

  /** Between the headers of a notification: everything holds up to the header just looked at. */
  ghost predicate GoodUpTo(w: Setting, v: Voter, upTo: nat)
  {
    && VoterInv(v) && Proved(w, v) && Settled(w, v, upTo) && InCharge(w, v, upTo)
    && Recorded(w, v) && Buffered(w, v) && Cast(w, v)
    && v.bestBeefy <= upTo <= v.bestGrandpa
    && (forall s <- v.sessions :: s.start <= upTo)
    && (forall g <- v.gossiped :: RoundOf(g).number <= upTo)
  }

  lemma NewSessionSettles(w: Setting, v: Voter, n: nat)
    requires n > 0 && Queue(v) && Front(v) && Settled(w, v, n - 1)
    ensures Settled(w, AddSession(v, NewSession(n, w.setAt(n))), n)
  {
    hide AddSession, SessionInv;
    var s := NewSession(n, w.setAt(n));
    AddSessionShape(v, s);
    var v' := AddSession(v, s);
    forall m | w.since < m <= n && Mandatory(w, m)
      ensures Emitted(v', m) || Queued(v', m)
    {
      if m == n {
        assert v'.sessions[|v'.sessions| - 1] == s;
      } else if Emitted(v, m) {
        assert v'.emitted == v.emitted;
      } else {
        var t :| t in v.sessions && t.start == m && !t.mandatoryDone;
        assert t in v'.sessions;
      }
    }
  }

  lemma NewSessionKeepsInv(v: Voter, s: Session)
    requires VoterInv(v) && s == NewSession(s.start, s.validatorSet)
    requires v.bestBeefy < s.start <= v.bestGrandpa && forall t <- v.sessions :: t.start < s.start
    ensures VoterInv(AddSession(v, s))
  {
    hide AddSession;
    AddSessionShape(v, s);
  }

  lemma NewSessionKeepsRecords(w: Setting, v: Voter, n: nat)
    requires n > 0 && GoodUpTo(w, v, n - 1) && n <= v.bestGrandpa
    ensures var v' := AddSession(v, NewSession(n, w.setAt(n)));
            v'.sessions != [] && InCharge(w, v', n) && Recorded(w, v') && Buffered(w, v') && Proved(w, v') && Cast(w, v')
  {
    hide AddSession, Settled, VerifiedProof, VerifiedVote, AllValid, SessionInv;
    AddSessionShape(v, NewSession(n, w.setAt(n)));
    var v' := AddSession(v, NewSession(n, w.setAt(n)));
    assert v'.gossiped == v.gossiped;
  }

  lemma NewSessionKeepsGood(w: Setting, v: Voter, n: nat)
    requires n > 0 && GoodUpTo(w, v, n - 1) && n <= v.bestGrandpa
    ensures GoodUpTo(w, AddSession(v, NewSession(n, w.setAt(n))), n)
  {
    hide AddSession, Front, Buffers, Proved, Settled, InCharge, Recorded, Buffered, Cast;
    AddSessionShape(v, NewSession(n, w.setAt(n)));
    NewSessionKeepsInv(v, NewSession(n, w.setAt(n)));
    NewSessionKeepsRecords(w, v, n);
    NewSessionSettles(w, v, n);
  }

  lemma SameSessionKeepsGood(w: Setting, v: Voter, n: nat)
    requires n > 0 && GoodUpTo(w, v, n - 1) && n <= v.bestGrandpa
    requires !w.announces(n) && w.setAt(n) == w.setAt(n - 1)
    ensures GoodUpTo(w, v, n)
  {
    hide Front, Buffers, Proved, Recorded, Buffered, Cast, VerifiedProof;
    assert v.sessions[|v.sessions| - 1].start <= n - 1;
  }
}

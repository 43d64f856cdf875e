/** What every voter step keeps: the shape of the session queue and of the buffers, and how the accepted
    interval moves. */
module VoterInvariant {
  import opened Basics
  import opened BeefyPrimitives
  import opened Justification
  import opened Rounds
  import opened VoterModel

  // ----- the invariant

  /** Sessions start in strictly ascending order, none beyond GRANDPA; behind the front one they are untouched. */
  ghost predicate Queue(v: Voter)
  {
    && v.sessions != []
    && (forall i, j :: 0 <= i < j < |v.sessions| ==> v.sessions[i].start < v.sessions[j].start)
    && (forall s <- v.sessions :: s.start <= v.bestGrandpa)
    && (forall i :: 0 < i < |v.sessions| ==> v.sessions[i] == NewSession(v.sessions[i].start, v.sessions[i].validatorSet))
  }

  /** Either up to date (one session, its mandatory block done, voting beyond the best BEEFY block) or
      lagging (only the mandatory block of the front session is voted on). */
  ghost predicate Front(v: Voter)
    requires v.sessions != []
  {
    var front := v.sessions[0];
    && SessionInv(front)
    && v.bestBeefy <= v.bestGrandpa && v.minDelta >= 1
    && if front.mandatoryDone then
         && |v.sessions| == 1 && front.start <= v.bestBeefy && front.bestDone == Some(v.bestBeefy)
         && (forall r <- front.rounds :: r.number <= v.bestGrandpa)
       else
         && v.bestBeefy < front.start && front.bestDone.None?
         && (forall r <- front.rounds :: r.number == front.start)
  }

  ghost predicate Buffers(v: Voter)
  {
    && |v.pendingVotes| <= MAX_BUFFERED_VOTE_ROUNDS
    && |v.pendingJustifications| <= MAX_BUFFERED_JUSTIFICATIONS
    && (forall n <- v.pendingVotes :: |v.pendingVotes[n]| <= MAX_BUFFERED_VOTES_PER_ROUND)
    && (forall n <- v.pendingVotes :: forall vote <- v.pendingVotes[n] :: vote.commitment.blockNumber == n)
    && (forall n <- v.pendingJustifications :: v.pendingJustifications[n].commitment.blockNumber == n)
  }

  ghost predicate VoterInv(v: Voter)
  {
    Queue(v) && Front(v) && Buffers(v)
  }

  function Start(v: Voter): (n: nat)
    requires v.sessions != []
  {
    v.sessions[0].start
  }

  function End(v: Voter): (n: nat)
    requires v.sessions != []
  {
    AcceptedInterval(v).value.1
  }

  /** Nothing the voter relies on moves backwards: a block number rejected or handled once stays so. */
  ghost predicate Advances(v: Voter, v': Voter)
    requires v.sessions != [] && v'.sessions != []
  {
    && v.bestGrandpa <= v'.bestGrandpa && v.bestBeefy <= v'.bestBeefy && v.minDelta == v'.minDelta
    && Start(v) <= Start(v') && End(v) <= End(v')
    && v.emitted <= v'.emitted && v.gossiped <= v'.gossiped
  }

  // ----- shapes of the operations

  lemma {:induction false} UnfinishedAll(sessions: seq<Session>)
    requires forall s <- sessions :: !s.mandatoryDone
    ensures Unfinished(sessions) == sessions
  {
    if sessions != [] {
      UnfinishedAll(sessions[1..]);
    }
  }

  /** A finished session makes room for the next one if there is one. */
  lemma FinalizeShape(v: Voter, proof: SignedCommitment)
    requires VoterInv(v) && Start(v) <= proof.commitment.blockNumber <= End(v)
    ensures var n, v' := proof.commitment.blockNumber, Finalize(v, proof);
            && v' == v.(sessions := v'.sessions, bestBeefy := v'.bestBeefy, emitted := v'.emitted)
            && v'.sessions == (if |v.sessions| > 1 then v.sessions[1..] else [Conclude(v.sessions[0], n)])
            && (if n > v.bestBeefy then v'.bestBeefy == n && v'.emitted == v.emitted + [proof]
                else v'.bestBeefy == v.bestBeefy && v'.emitted == v.emitted && v.sessions[0].mandatoryDone)
  {
    var n := proof.commitment.blockNumber;
    var concluded := v.sessions[0 := Conclude(v.sessions[0], n)];
    if |v.sessions| > 1 {
      assert concluded[1..] == v.sessions[1..];
      UnfinishedAll(v.sessions[1..]);
    } else {
      assert concluded == [Conclude(v.sessions[0], n)];
    }
  }

  lemma AddSessionShape(v: Voter, s: Session)
    requires Queue(v) && Front(v) && !s.mandatoryDone
    ensures AddSession(v, s) == v.(sessions := if v.sessions[0].mandatoryDone then [s] else v.sessions + [s])
  {
    var all := v.sessions + [s];
    if v.sessions[0].mandatoryDone {
      assert all[1..] == [s];
      UnfinishedAll(all[1..]);
    } else {
      UnfinishedAll(all);
    }
  }

  function Record(v: Voter, r: RoundKey, id: AuthorityId, signature: Signature, selfVote: bool): (v': Voter)
    requires v.sessions != []
  {
    v.(sessions := v.sessions[0 := AddVote(v.sessions[0], r, id, signature, selfVote)])
  }

  lemma ConcludeDropsRound(s: Session, r: RoundKey)
    ensures Conclude(RemoveRound(s, r), r.number) == Conclude(s, r.number)
  {
  }

  /** Concluding a round drops it anyway, so taking it off the list first changes nothing. */
  lemma HandleVoteShape(v: Voter, r: RoundKey, id: AuthorityId, signature: Signature, selfVote: bool)
    requires v.sessions != []
    ensures var v1 := Record(v, r, id, signature, selfVote);
            var s := v1.sessions[0];
            HandleVote(v, r, id, signature, selfVote) ==
            if !AcceptsVote(v.sessions[0], r, id) then v
            else if IsDone(s, r) then Finalize(v1, Proof(s.validatorSet, r, s.rounds[r].votes))
            else v1
  {
    hide Conclude, RemoveRound, AddVote, Prune, AcceptsVote;
    var s := AddVote(v.sessions[0], r, id, signature, selfVote);
    var v1 := Record(v, r, id, signature, selfVote);
    if AcceptsVote(v.sessions[0], r, id) && IsDone(s, r) {
      ConcludeDropsRound(s, r);
      var removed := v.(sessions := v.sessions[0 := RemoveRound(s, r)]);
      assert removed.sessions[0 := Conclude(removed.sessions[0], r.number)] == v1.sessions[0 := Conclude(s, r.number)];
    }
  }

  // ----- the invariant is kept

  lemma FinalizeKeepsInv(v: Voter, proof: SignedCommitment)
    requires VoterInv(v) && Start(v) <= proof.commitment.blockNumber <= End(v)
    ensures VoterInv(Finalize(v, proof)) && Advances(v, Finalize(v, proof))
  {
    hide Finalize, Conclude, SessionInv;
    FinalizeShape(v, proof);
    if |v.sessions| > 1 {
      NewSessionIsFresh(v.sessions[1]);
    } else {
      ConcludeFacts(v.sessions[0], proof.commitment.blockNumber);
    }
  }

  lemma NewSessionIsFresh(s: Session)
    requires s == NewSession(s.start, s.validatorSet)
    ensures SessionInv(s) && !s.mandatoryDone && s.bestDone.None? && s.rounds == map[]
  {
  }

  lemma ConcludeFacts(s: Session, n: nat)
    requires SessionInv(s)
    ensures var s' := Conclude(s, n);
            && SessionInv(s') && s'.start == s.start && s'.mandatoryDone == (s.mandatoryDone || n == s.start)
            && s'.bestDone == (if s.bestDone.Some? && s.bestDone.value >= n then s.bestDone else Some(n))
            && forall r <- s'.rounds :: r in s.rounds && r.number > n
  {
  }

  lemma RecordKeepsInv(v: Voter, r: RoundKey, id: AuthorityId, signature: Signature, selfVote: bool)
    requires VoterInv(v) && r.number <= End(v)
    ensures VoterInv(Record(v, r, id, signature, selfVote)) && Advances(v, Record(v, r, id, signature, selfVote))
  {
    SessionInvKept(v.sessions[0], r, id, signature, selfVote, 0);
  }

  lemma HandleVoteKeepsInv(v: Voter, r: RoundKey, id: AuthorityId, signature: Signature, selfVote: bool)
    requires VoterInv(v) && r.number <= End(v)
    ensures VoterInv(HandleVote(v, r, id, signature, selfVote)) && Advances(v, HandleVote(v, r, id, signature, selfVote))
  {
    hide HandleVote, Finalize, Front, Buffers, SessionInv;
    HandleVoteShape(v, r, id, signature, selfVote);
    if AcceptsVote(v.sessions[0], r, id) {
      RecordKeepsInv(v, r, id, signature, selfVote);
      var v1 := Record(v, r, id, signature, selfVote);
      var s := v1.sessions[0];
      if IsDone(s, r) {
        FinalizeKeepsInv(v1, Proof(s.validatorSet, r, s.rounds[r].votes));
      }
    }
  }
}

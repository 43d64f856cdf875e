/** Votes add up: enough of them conclude a round, fewer do not, and no step forgets one. */
module VoterTally {
  import opened Basics
  import opened BeefyPrimitives
  import opened Justification
  import opened Rounds
  import opened VoterModel
  import opened VoterInvariant
  import opened VoterSafety
  import opened VoterPending
  import opened VoterRuns
  import VoteTarget

  // ----- one round

  /** Who votes in a round, among a list of votes. */
  ghost function VotersOf(votes: seq<VoteMessage>, r: RoundKey): (ids: set<AuthorityId>)
  {
    set vote <- votes | RoundOf(vote) == r :: vote.id
  }

  /** The validators of a session among some voters. */
  ghost function Entitled(s: Session, ids: set<AuthorityId>): (r: set<AuthorityId>)
  {
    ids * Elements(s.validatorSet.validators)
  }

  /** No tracked round has enough votes: as soon as one has, it is concluded. */
  ghost predicate Undecided(v: Voter)
    requires v.sessions != []
  {
    forall r <- v.sessions[0].rounds :: !IsDone(v.sessions[0], r)
  }

  /** Whether voters are enough to conclude a round of a session. */
  ghost predicate Quorum(s: Session, ids: set<AuthorityId>)
  {
    ids != {} && |ids| >= Threshold(|s.validatorSet.validators|)
  }

  lemma DoneIsQuorum(s: Session, r: RoundKey)
    requires SessionInv(s)
    ensures IsDone(s, r) <==> Quorum(s, Voters(s, r))
  {
    if r in s.rounds {
      assert |s.rounds[r].votes| == |s.rounds[r].votes.Keys|;
    }
  }

  /** A round at or below the best BEEFY block takes no more votes. */
  lemma SettledRoundIsStale(v: Voter, r: RoundKey)
    requires VoterInv(v) && r.number <= v.bestBeefy
    ensures Stale(v.sessions[0], r.number)
  {
  }

  /** A round above the best BEEFY block in the accepted interval takes votes. */
  lemma OpenRoundIsCurrent(v: Voter, r: RoundKey)
    requires VoterInv(v) && Start(v) <= r.number <= End(v) && r.number > v.bestBeefy
    ensures !Stale(v.sessions[0], r.number)
  {
  }

  lemma {:induction false} MoreVoters(a: set<AuthorityId>, b: set<AuthorityId>)
    requires a <= b
    ensures |a| <= |b|
  {
    SubsetSize(a, b);
  }

  /** The state after a round is concluded by votes: a proof with a threshold of signatures is emitted. */
  ghost predicate Concluded(v: Voter, v': Voter, r: RoundKey, ids: set<AuthorityId>)
    requires v.sessions != []
  {
    var s := v.sessions[0];
    && v'.bestBeefy == r.number
    && exists votes: map<AuthorityId, Signature> ::
         && v'.emitted == v.emitted + [Proof(s.validatorSet, r, votes)]
         && votes.Keys <= ids && |votes| == Threshold(|s.validatorSet.validators|)
  }

  /** The state while a round is open: exactly the given voters are on record, nothing is emitted. */
  ghost predicate Open(v: Voter, v': Voter, r: RoundKey, ids: set<AuthorityId>)
    requires v.sessions != []
  {
    && v'.sessions != [] && v' == v.(sessions := v'.sessions)
    && v'.sessions[0] == v.sessions[0].(rounds := v'.sessions[0].rounds)
    && Voters(v'.sessions[0], r) == ids && !IsDone(v'.sessions[0], r)
  }

  lemma VotersCounted(s: Session, r: RoundKey)
    requires r in s.rounds
    ensures |s.rounds[r].votes| == |Voters(s, r)|
  {
    assert |s.rounds[r].votes| == |s.rounds[r].votes.Keys|;
  }

  lemma OneMoreVoter(s: Session, r: RoundKey, id: AuthorityId, signature: Signature, selfVote: bool)
    requires SessionInv(s) && !IsDone(s, r) && AcceptsVote(s, r, id)
    ensures var s' := AddVote(s, r, id, signature, selfVote);
            && s' == s.(rounds := s'.rounds) && r in s'.rounds && Voters(s', r) == Voters(s, r) + {id}
            && |s'.rounds[r].votes| <= Threshold(|s.validatorSet.validators|)
            && (IsDone(s', r) <==> Quorum(s, Voters(s', r)))
  {
    var s' := AddVote(s, r, id, signature, selfVote);
    VotesAddUp(s, r, id, signature, selfVote);
    VotersCounted(s', r);
    if r in s.rounds {
      VotersCounted(s, r);
    }
  }

  /** One vote more for an open round. */
  lemma HandleVoteInRound(v: Voter, r: RoundKey, id: AuthorityId, signature: Signature, selfVote: bool)
    requires VoterInv(v) && Start(v) <= r.number <= End(v) && r.number > v.bestBeefy && !IsDone(v.sessions[0], r)
    ensures var s, v' := v.sessions[0], HandleVote(v, r, id, signature, selfVote);
            var ids := Voters(s, r) + if id in s.validatorSet.validators then {id} else {};
            if Quorum(s, ids) then Concluded(v, v', r, ids) else Open(v, v', r, ids)
  {
    hide HandleVote, Finalize, AddVote, IsDone, Quorum, SessionInv, Buffers;
    var s := v.sessions[0];
    HandleVoteShape(v, r, id, signature, selfVote);
    OpenRoundIsCurrent(v, r);
    DoneIsQuorum(s, r);
    if AcceptsVote(s, r, id) {
      OneMoreVoter(s, r, id, signature, selfVote);
      var v1 := Record(v, r, id, signature, selfVote);
      RecordKeepsInv(v, r, id, signature, selfVote);
      var votes := v1.sessions[0].rounds[r].votes;
      if IsDone(v1.sessions[0], r) {
        FinalizeShape(v1, Proof(s.validatorSet, r, votes));
        DoneReachesThreshold(v1.sessions[0], r);
      }
    } else {
      RejectedVoter(s, r, id);
    }
  }

  lemma RejectedVoter(s: Session, r: RoundKey, id: AuthorityId)
    requires !Stale(s, r.number) && !AcceptsVote(s, r, id)
    ensures Voters(s, r) + (if id in s.validatorSet.validators then {id} else {}) == Voters(s, r)
  {
  }

  lemma DoneReachesThreshold(s: Session, r: RoundKey)
    requires IsDone(s, r)
    ensures r in s.rounds && |s.rounds[r].votes| >= Threshold(|s.validatorSet.validators|)
  {
  }

  lemma SessionIsValid(v: Voter)
    requires VoterInv(v)
    ensures v.sessions != [] && SessionInv(v.sessions[0])
  {
  }

  lemma VoteIgnored(v: Voter, r: RoundKey, id: AuthorityId, signature: Signature, selfVote: bool)
    requires VoterInv(v) && r.number <= v.bestBeefy
    ensures HandleVote(v, r, id, signature, selfVote) == v
  {
    SettledRoundIsStale(v, r);
  }

  lemma LastVoter(votes: seq<VoteMessage>, r: RoundKey)
    requires votes != []
    ensures var last := votes[|votes| - 1];
            VotersOf(votes, r) == VotersOf(votes[..|votes| - 1], r) + if RoundOf(last) == r then {last.id} else {}
  {
    assert votes == votes[..|votes| - 1] + [votes[|votes| - 1]];
  }

  lemma HandleAllNext(v: Voter, votes: seq<VoteMessage>)
    requires votes != []
    ensures var last := votes[|votes| - 1];
            HandleAll(v, votes) == HandleVote(HandleAll(v, votes[..|votes| - 1]), RoundOf(last), last.id, last.signature, false)
  {
  }

  lemma OpenStays(v: Voter, v1: Voter, v2: Voter, r: RoundKey, ids: set<AuthorityId>, more: set<AuthorityId>)
    requires v.sessions != [] && Open(v, v1, r, ids)
    ensures Open(v1, v2, r, more) ==> Open(v, v2, r, more)
    ensures Concluded(v1, v2, r, more) ==> Concluded(v, v2, r, more)
    ensures Start(v1) == Start(v) && End(v1) == End(v) && v1.bestBeefy == v.bestBeefy && !IsDone(v1.sessions[0], r)
    ensures v1.sessions[0].validatorSet == v.sessions[0].validatorSet && Voters(v1.sessions[0], r) == ids
  {
    hide IsDone, Voters, Proof;
  }

  lemma ConcludedByMore(v: Voter, v': Voter, r: RoundKey, ids: set<AuthorityId>, more: set<AuthorityId>)
    requires v.sessions != [] && Concluded(v, v', r, ids) && ids <= more
    ensures Concluded(v, v', r, more) && v'.bestBeefy == r.number
  {
  }

  lemma QuorumOfMore(s: Session, ids: set<AuthorityId>, more: set<AuthorityId>)
    requires Quorum(s, ids) && ids <= more
    ensures Quorum(s, more)
  {
    MoreVoters(ids, more);
  }

  lemma OpenFromNothing(v: Voter, r: RoundKey)
    requires VoterInv(v) && !IsDone(v.sessions[0], r)
    ensures Open(v, v, r, Voters(v.sessions[0], r)) && !Quorum(v.sessions[0], Voters(v.sessions[0], r))
  {
    DoneIsQuorum(v.sessions[0], r);
  }

  /** Votes for an open round conclude it, with a proof emitted, exactly if they and those on record make up
      the threshold; otherwise exactly these voters are on record and nothing else changed. */
  lemma {:induction false} RoundConcludesExactly(v: Voter, r: RoundKey, votes: seq<VoteMessage>)
    requires VoterInv(v) && Start(v) <= r.number <= End(v) && r.number > v.bestBeefy && !IsDone(v.sessions[0], r)
    requires forall vote <- votes :: RoundOf(vote) == r
    ensures var s, v' := v.sessions[0], HandleAll(v, votes);
            var ids := Voters(s, r) + Entitled(s, VotersOf(votes, r));
            VoterInv(v') && if Quorum(s, ids) then Concluded(v, v', r, ids) else Open(v, v', r, ids)
    decreases |votes|
  {
    hide *;
    SessionIsValid(v);
    var s := v.sessions[0];
    if votes == [] {
      HandleNone(v);
      OpenFromNothing(v, r);
      assert votes == [];
      NoVoters(s, r);
    } else {
      var last, some := votes[|votes| - 1], votes[..|votes| - 1];
      var v1 := HandleAll(v, some);
      RoundConcludesExactly(v, r, some);
      HandleAllNext(v, votes);
      LastVoter(votes, r);
      var ids := Voters(s, r) + Entitled(s, VotersOf(some, r));
      var more := Voters(s, r) + Entitled(s, VotersOf(votes, r));
      OneMoreEntitled(s, r, VotersOf(some, r), last.id);
      if Quorum(s, ids) {
        QuorumOfMore(s, ids, more);
        ConcludedByMore(v, v1, r, ids, more);
        VoteIgnored(v1, r, last.id, last.signature, false);
      } else {
        var v2 := HandleVote(v1, r, last.id, last.signature, false);
        SessionIsValid(v1);
        OpenStays(v, v1, v2, r, ids, more);
        HandleVoteInRound(v1, r, last.id, last.signature, false);
        HandleVoteKeepsInv(v1, r, last.id, last.signature, false);
        SameQuorum(s, v1.sessions[0], more);
      }
    }
  }

  lemma NoVoters(s: Session, r: RoundKey)
    ensures Voters(s, r) + Entitled(s, VotersOf([], r)) == Voters(s, r)
  {
  }

  lemma SameQuorum(s: Session, s': Session, ids: set<AuthorityId>)
    requires s.validatorSet == s'.validatorSet
    ensures Quorum(s, ids) == Quorum(s', ids)
  {
  }

  lemma OneMoreEntitled(s: Session, r: RoundKey, ids: set<AuthorityId>, id: AuthorityId)
    ensures var some, more := Voters(s, r) + Entitled(s, ids), Voters(s, r) + Entitled(s, ids + {id});
            some <= more && more == some + if id in s.validatorSet.validators then {id} else {}
  {
  }

  // ----- every step

  /** What a step does to an open round: it is decided, or its session is over, or its voters are still on
      record and have been joined by those given. */
  ghost predicate Tallies(v: Voter, v': Voter, r: RoundKey, ids: set<AuthorityId>)
    requires v.sessions != [] && v'.sessions != []
  {
    Start(v) <= r.number <= End(v) && r.number > v.bestBeefy ==>
      || v'.bestBeefy >= r.number
      || Start(v') > r.number
      || Keeps(v.sessions[0], v'.sessions[0], r, ids)
  }

  /** And no round with enough votes is left open. */
  ghost predicate Carries(v: Voter, v': Voter, r: RoundKey, ids: set<AuthorityId>)
    requires v.sessions != [] && v'.sessions != []
  {
    (Undecided(v) ==> Undecided(v')) && Tallies(v, v', r, ids)
  }

  ghost predicate Keeps(s: Session, s': Session, r: RoundKey, ids: set<AuthorityId>)
  {
    s'.start == s.start && s'.validatorSet == s.validatorSet && Voters(s, r) + Entitled(s, ids) <= Voters(s', r)
  }

  lemma TalliesTwice(a: Voter, b: Voter, c: Voter, r: RoundKey, ids: set<AuthorityId>, more: set<AuthorityId>, all: set<AuthorityId>)
    requires a.sessions != [] && b.sessions != [] && c.sessions != []
    requires Tallies(a, b, r, ids) && Tallies(b, c, r, more) && Advances(a, b) && Advances(b, c) && all <= ids + more
    ensures Tallies(a, c, r, all)
  {
    hide Voters;
  }

  lemma CarriesTwice(a: Voter, b: Voter, c: Voter, r: RoundKey, ids: set<AuthorityId>, more: set<AuthorityId>, all: set<AuthorityId>)
    requires a.sessions != [] && b.sessions != [] && c.sessions != []
    requires Carries(a, b, r, ids) && Carries(b, c, r, more) && Advances(a, b) && Advances(b, c) && all <= ids + more
    ensures Carries(a, c, r, all)
  {
    hide Undecided, Tallies;
    TalliesTwice(a, b, c, r, ids, more, all);
  }

  lemma SameSessionCarries(v: Voter, v': Voter, r: RoundKey, ids: set<AuthorityId>)
    requires v.sessions != [] && v'.sessions != [] && v'.sessions[0] == v.sessions[0]
    requires ids == {} || r.number < Start(v) || r.number > End(v)
    ensures Carries(v, v', r, ids)
  {
  }

  lemma FinalizeCarries(v: Voter, proof: SignedCommitment, r: RoundKey)
    requires VoterInv(v) && Start(v) <= proof.commitment.blockNumber <= End(v)
    ensures Finalize(v, proof).sessions != [] && Carries(v, Finalize(v, proof), r, {})
  {
    hide Finalize, Buffers, SessionInv;
    FinalizeShape(v, proof);
  }

  lemma RecordTallies(v: Voter, k: RoundKey, id: AuthorityId, signature: Signature, selfVote: bool, r: RoundKey)
    requires VoterInv(v) && AcceptsVote(v.sessions[0], k, id)
    ensures var v1 := Record(v, k, id, signature, selfVote);
            && Start(v1) == Start(v) && Tallies(v, v1, r, if k == r then {id} else {})
            && (Undecided(v) ==> UndecidedBut(v1.sessions[0], k))
  {
    VotesAddUp(v.sessions[0], k, id, signature, selfVote);
    var s, s' := v.sessions[0], Record(v, k, id, signature, selfVote).sessions[0];
    forall x <- s'.rounds | x != k
      ensures x in s.rounds && s'.rounds[x] == s.rounds[x]
    {
      assert x in s'.rounds - {k};
    }
  }

  ghost predicate UndecidedBut(s: Session, k: RoundKey)
  {
    forall x <- s.rounds :: x != k ==> !IsDone(s, x)
  }

  lemma DecidedByVotes(v: Voter, proof: SignedCommitment, k: RoundKey)
    requires VoterInv(v) && Start(v) <= proof.commitment.blockNumber <= End(v)
    requires UndecidedBut(v.sessions[0], k) && proof.commitment.blockNumber == k.number
    ensures Finalize(v, proof).sessions != [] && Undecided(Finalize(v, proof))
  {
    hide Finalize, Buffers, SessionInv;
    FinalizeShape(v, proof);
  }

  lemma UndecidedThen(v: Voter, k: RoundKey)
    requires v.sessions != [] && UndecidedBut(v.sessions[0], k) && !IsDone(v.sessions[0], k)
    ensures Undecided(v)
  {
  }

  lemma HandleVoteCarries(v: Voter, k: RoundKey, id: AuthorityId, signature: Signature, selfVote: bool, r: RoundKey)
    requires VoterInv(v) && k.number <= End(v)
    ensures var v' := HandleVote(v, k, id, signature, selfVote);
            v'.sessions != [] && Carries(v, v', r, if k == r then {id} else {})
  {
    hide HandleVote, Finalize, AddVote, IsDone, Queue, Front, Buffers, Undecided, UndecidedBut, Tallies;
    SessionIsValid(v);
    HandleVoteShape(v, k, id, signature, selfVote);
    if AcceptsVote(v.sessions[0], k, id) {
      RecordTallies(v, k, id, signature, selfVote, r);
      RecordKeepsInv(v, k, id, signature, selfVote);
      var v1 := Record(v, k, id, signature, selfVote);
      var s := v1.sessions[0];
      if IsDone(s, k) {
        DoneReachesThreshold(s, k);
        var proof := Proof(s.validatorSet, k, s.rounds[k].votes);
        FinalizeKeepsInv(v1, proof);
        FinalizeCarries(v1, proof, r);
        TalliesTwice(v, v1, Finalize(v1, proof), r, if k == r then {id} else {}, {}, if k == r then {id} else {});
        assert Undecided(v) ==> Undecided(Finalize(v1, proof)) by {
          if Undecided(v) {
            DecidedByVotes(v1, proof, k);
          }
        }
      } else if Undecided(v) {
        UndecidedThen(v1, k);
      }
    } else {
      RejectedTallies(v, k, id, r);
    }
  }

  lemma RejectedTallies(v: Voter, k: RoundKey, id: AuthorityId, r: RoundKey)
    requires VoterInv(v) && !AcceptsVote(v.sessions[0], k, id)
    ensures Tallies(v, v, r, if k == r then {id} else {})
  {
    if k == r && Start(v) <= r.number <= End(v) && r.number > v.bestBeefy {
      OpenRoundIsCurrent(v, r);
    }
  }

  lemma {:induction false} FinalizeAllCarries(w: Setting, v: Voter, proofs: map<nat, SignedCommitment>, bound: nat, r: RoundKey)
    requires Good(w, v) && bound <= End(v) + 1
    requires forall n <- proofs :: proofs[n].commitment.blockNumber == n && VerifiedProof(w, proofs[n])
    ensures var v' := FinalizeAll(v, proofs, Start(v), bound);
            v'.sessions != [] && Carries(v, v', r, {})
    decreases bound
  {
    hide *;
    GoodIsValid(w, v);
    FinalizeAllNext(v, proofs, Start(v), bound);
    if bound <= Start(v) {
      SameSessionCarries(v, v, r, {});
    } else {
      var v1 := FinalizeAll(v, proofs, Start(v), bound - 1);
      FinalizeAllCarries(w, v, proofs, bound - 1, r);
      FinalizeAllGood(w, v, proofs, bound - 1);
      PassStaysInside(w, v, proofs, bound - 1);
      if bound - 1 in proofs {
        var v' := Finalize(v1, proofs[bound - 1]);
        FinalizeCarries(v1, proofs[bound - 1], r);
        FinalizeKeepsInv(v1, proofs[bound - 1]);
        CarriesTwice(v, v1, v', r, {}, {}, {});
      }
    }
  }

  lemma ArrivedEarlier(v: Voter, v': Voter, w: Setting, votes: seq<VoteMessage>)
    requires v.sessions != [] && v'.sessions != [] && Advances(v, v') && v'.gossiped == v.gossiped && votes != []
    requires forall vote <- votes :: vote.commitment.blockNumber <= End(v) && ArrivingVote(w, v, vote)
    ensures forall vote <- votes[..|votes| - 1] :: vote.commitment.blockNumber <= End(v) && ArrivingVote(w, v, vote)
    ensures RoundOf(votes[|votes| - 1]).number <= End(v')
  {
    hide ArrivingVote;
  }

  lemma {:induction false} HandleAllCarries(w: Setting, v: Voter, votes: seq<VoteMessage>, r: RoundKey)
    requires Good(w, v)
    requires forall vote <- votes :: vote.commitment.blockNumber <= End(v) && ArrivingVote(w, v, vote)
    ensures HandleAll(v, votes).sessions != [] && Carries(v, HandleAll(v, votes), r, VotersOf(votes, r))
    decreases |votes|
  {
    hide *;
    GoodIsValid(w, v);
    if votes == [] {
      HandleNone(v);
      assert VotersOf(votes, r) == {} by {
        NobodyVotes(r);
      }
      SameSessionCarries(v, v, r, {});
    } else {
      var last, some := votes[|votes| - 1], votes[..|votes| - 1];
      AdvancesNowhere(v);
      ArrivedEarlier(v, v, w, votes);
      HandleAllNext(v, votes);
      HandleAllGood(w, v, some);
      HandleAllCarries(w, v, some, r);
      var v1, v' := HandleAll(v, some), HandleAll(v, votes);
      GoodIsValid(w, v1);
      ArrivedEarlier(v, v1, w, votes);
      HandleVoteCarries(v1, RoundOf(last), last.id, last.signature, false, r);
      HandleVoteKeepsInv(v1, RoundOf(last), last.id, last.signature, false);
      LastVoter(votes, r);
      CarriesTwice(v, v1, v', r, VotersOf(some, r), if RoundOf(last) == r then {last.id} else {}, VotersOf(votes, r));
    }
  }

  lemma NobodyVotes(r: RoundKey)
    ensures VotersOf([], r) == {}
  {
  }

  lemma ProcessJustificationsCarries(w: Setting, v: Voter, r: RoundKey)
    requires Good(w, v)
    ensures ProcessJustifications(v).sessions != [] && Carries(v, ProcessJustifications(v), r, {})
  {
    hide FinalizeAll, Between, Front, Buffers, Proved, Settled, InCharge, Recorded, Buffered, Cast, VerifiedProof, Carries;
    if v.pendingJustifications == map[] {
      SameSessionCarries(v, v, r, {});
    } else {
      var v1 := v.(pendingJustifications := Beyond(v.pendingJustifications, End(v)));
      ShrunkBuffersKeepGood(w, v, v1);
      BufferedProofs(w, v, Start(v), End(v));
      FinalizeAllCarries(w, v1, Between(v.pendingJustifications, Start(v), End(v)), End(v) + 1, r);
      FinalizeAllGood(w, v1, Between(v.pendingJustifications, Start(v), End(v)), End(v) + 1);
      SameSessionCarries(v, v1, r, {});
      assert Start(v1) == Start(v);
      CarriesTwice(v, v1, ProcessJustifications(v), r, {}, {}, {});
    }
  }

  lemma InIntervalArrived(w: Setting, v: Voter, v1: Voter)
    requires Good(w, v) && v1.gossiped == v.gossiped
    ensures forall vote <- VotesInOrder(v.pendingVotes, Start(v), End(v) + 1) ::
              vote.commitment.blockNumber <= End(v) && ArrivingVote(w, v1, vote)
  {
    hide Front, Proved, Settled, InCharge, Recorded, Cast, ArrivingVote, VerifiedProof;
    forall vote <- VotesInOrder(v.pendingVotes, Start(v), End(v) + 1)
      ensures vote.commitment.blockNumber <= End(v) && ArrivingVote(w, v1, vote)
    {
      var n := vote.commitment.blockNumber;
      VotesInOrderExactly(v.pendingVotes, Start(v), End(v) + 1, vote);
      assert vote in multiset(v.pendingVotes[n]);
      SameArrivals(w, v, v1, vote);
    }
  }

  /** A pass over the buffered votes counts every one of the accepted interval. */
  lemma ProcessVotesCarries(w: Setting, v: Voter, r: RoundKey)
    requires Good(w, v)
    ensures ProcessVotes(v).sessions != []
    ensures Carries(v, ProcessVotes(v), r, VotersOf(VotesInOrder(v.pendingVotes, Start(v), End(v) + 1), r))
  {
    hide *;
    GoodIsValid(w, v);
    ProcessVotesInOrder(v);
    var v1 := v.(pendingVotes := Beyond(v.pendingVotes, End(v)));
    FewerVotesKeepGood(w, v);
    var votes := VotesInOrder(v.pendingVotes, Start(v), End(v) + 1);
    InIntervalArrived(w, v, v1);
    SameInterval(v, v1);
    HandleAllCarries(w, v1, votes, r);
    HandleAllGood(w, v1, votes);
    SameSessionCarries(v, v1, r, {});
    CarriesTwice(v, v1, ProcessVotes(v), r, {}, VotersOf(votes, r), VotersOf(votes, r));
  }

  lemma FewerVotesKeepGood(w: Setting, v: Voter)
    requires Good(w, v)
    ensures var v1 := v.(pendingVotes := Beyond(v.pendingVotes, End(v)));
            Good(w, v1) && Advances(v, v1)
  {
    hide Front, Buffers, Proved, Settled, InCharge, Recorded, Cast, Buffered;
    ShrunkBuffersKeepGood(w, v, v.(pendingVotes := Beyond(v.pendingVotes, End(v))));
  }

  lemma SameInterval(v: Voter, v': Voter)
    requires v.sessions != [] && v'.sessions == v.sessions && v'.bestGrandpa == v.bestGrandpa
    ensures End(v) == End(v')
  {
  }

  // ----- every run

  /** Who votes in a round, among the events of a run. */
  ghost function VotersAmong(events: seq<Event>, r: RoundKey): (ids: set<AuthorityId>)
  {
    set e <- events | e.Vote? && RoundOf(e.vote) == r :: e.vote.id
  }

  lemma FirstAndRest(events: seq<Event>, r: RoundKey)
    requires events != []
    ensures VotersAmong(events, r) == VotersAmong(events[..1], r) + VotersAmong(events[1..], r)
  {
    assert events == events[..1] + events[1..];
  }

  lemma VoterOfOne(e: Event, r: RoundKey)
    ensures VotersAmong([e], r) == if e.Vote? && RoundOf(e.vote) == r then {e.vote.id} else {}
  {
  }

  lemma IncomingVoteCarries(w: Setting, v: Voter, vote: VoteMessage, r: RoundKey)
    requires Good(w, v)
    ensures IncomingVote(v, vote).sessions != []
    ensures Carries(v, IncomingVote(v, vote), r, if RoundOf(vote) == r then {vote.id} else {})
  {
    hide HandleVote, Front, Buffers, Proved, Settled, InCharge, Recorded, Buffered, Cast, Carries;
    var ids := if RoundOf(vote) == r then {vote.id} else {};
    if Triage(v, vote.commitment.blockNumber) == Some(Process) {
      HandleVoteCarries(v, RoundOf(vote), vote.id, vote.signature, false, r);
    } else {
      SameSessionCarries(v, IncomingVote(v, vote), r, ids);
    }
  }

  lemma IncomingJustificationCarries(w: Setting, v: Voter, proof: SignedCommitment, r: RoundKey)
    requires Good(w, v)
    ensures IncomingJustification(v, proof).sessions != [] && Carries(v, IncomingJustification(v, proof), r, {})
  {
    hide Finalize, Front, Buffers, Proved, Settled, InCharge, Recorded, Buffered, Cast, Carries;
    if Triage(v, proof.commitment.blockNumber) == Some(Process) {
      FinalizeCarries(v, proof, r);
    } else {
      SameSessionCarries(v, IncomingJustification(v, proof), r, {});
    }
  }

  lemma MovedCarries(v: Voter, v': Voter, r: RoundKey)
    requires VoterInv(v) && v'.sessions != [] && SessionsMoved(v, v', v.bestGrandpa)
    ensures Carries(v, v', r, {})
  {
    if v'.sessions[0] == v.sessions[0] {
      SameSessionCarries(v, v', r, {});
    }
  }

  lemma FinalityCarries(w: Setting, v: Voter, route: seq<Header>, header: Header, r: RoundKey)
    requires Good(w, v)
    requires header.number > v.bestGrandpa ==> GenuineHeaders(w, v.bestGrandpa, route + [header])
    ensures FinalityNotification(v, route, header).sessions != []
    ensures Carries(v, FinalityNotification(v, route, header), r, {})
  {
    hide *;
    GoodIsValid(w, v);
    NotificationStarts(v, route, header);
    if header.number > v.bestGrandpa {
      var headers, v1 := route + [header], v.(bestGrandpa := header.number);
      LastHeader(w, v.bestGrandpa, route, header);
      RaisedGrandpa(w, v, header.number);
      StartSessionsGood(w, v1, v.bestGrandpa, headers);
      var v' := StartSessions(v1, headers);
      SessionsMovedFrom(v1, v, v', v.bestGrandpa);
      MovedCarries(v, v', r);
    } else {
      SameSessionCarries(v, v, r, {});
    }
  }

  lemma ProcessPendingCarries(w: Setting, v: Voter, r: RoundKey)
    requires Good(w, v)
    ensures ProcessPending(v).sessions != [] && Carries(v, ProcessPending(v), r, {})
  {
    hide *;
    PendingInTurn(w, v);
    var v1 := ProcessJustifications(v);
    ProcessJustificationsGood(w, v);
    ProcessJustificationsCarries(w, v, r);
    ProcessVotesGood(w, v1);
    ProcessVotesCarries(w, v1, r);
    CarriesTwice(v, v1, ProcessPending(v), r, {}, VotersOf(VotesInOrder(v1.pendingVotes, Start(v1), End(v1) + 1), r), {});
  }

  lemma TryToVoteCarries(w: Setting, v: Voter, b: Ballot, r: RoundKey)
    requires Good(w, v)
    ensures TryToVote(v, b).sessions != [] && Carries(v, TryToVote(v, b), r, {})
  {
    hide HandleVote, OwnVote, Front, Buffers, Proved, Settled, InCharge, Recorded, Buffered, Cast, Carries;
    if OwnVote(v, b).None? {
      SameSessionCarries(v, v, r, {});
    } else {
      var vote := OwnVote(v, b).value;
      OwnVoteIsAccepted(v, b);
      HandleVoteCarries(v, RoundOf(vote), vote.id, vote.signature, true, r);
      HandleVoteKeepsInv(v, RoundOf(vote), vote.id, vote.signature, true);
      var v1, v' := HandleVote(v, RoundOf(vote), vote.id, vote.signature, true), TryToVote(v, b);
      SameSessionCarries(v1, v', r, {});
      CarriesTwice(v, v1, v', r, if RoundOf(vote) == r then {vote.id} else {}, {}, {});
    }
  }

  /** Every step carries an open round on, with the vote it brings. */
  lemma StepCarries(w: Setting, v: Voter, e: Event, r: RoundKey)
    requires Good(w, v) && GoodEvent(w, v, e)
    ensures Step(v, e).sessions != [] && Carries(v, Step(v, e), r, VotersAmong([e], r))
  {
    hide FinalityNotification, IncomingVote, IncomingJustification, ProcessPending, TryToVote, VotersAmong, Carries, Good;
    hide ArrivingVote, VerifiedProof, HonestBallot, GenuineHeaders;
    VoterOfOne(e, r);
    match e
    case Finality(route, header) => FinalityCarries(w, v, route, header, r);
    case Vote(vote) => IncomingVoteCarries(w, v, vote, r);
    case Justif(proof) => IncomingJustificationCarries(w, v, proof, r);
    case TryPending => ProcessPendingCarries(w, v, r);
    case TryVote(ballot) => TryToVoteCarries(w, v, ballot, r);
  }

  lemma RunNext(w: Setting, v: Voter, events: seq<Event>)
    requires GoodEvents(w, v, events)
    ensures events == [] ==> Run(v, events) == v
    ensures events != [] ==>
              && Run(v, events) == Run(Step(v, events[0]), events[1..])
              && GoodEvent(w, v, events[0]) && GoodEvents(w, Step(v, events[0]), events[1..])
  {
    hide Step, GoodEvent;
  }

  lemma {:induction false} RunCarries(w: Setting, v: Voter, events: seq<Event>, r: RoundKey)
    requires Good(w, v) && GoodEvents(w, v, events)
    ensures Run(v, events).sessions != [] && Carries(v, Run(v, events), r, VotersAmong(events, r))
    decreases |events|
  {
    hide *;
    GoodIsValid(w, v);
    RunNext(w, v, events);
    if events == [] {
      assert VotersAmong(events, r) == {} by {
        NobodyAmong(r);
      }
      SameSessionCarries(v, v, r, {});
    } else {
      var v1, rest := Step(v, events[0]), events[1..];
      StepKeepsGood(w, v, events[0]);
      StepCarries(w, v, events[0], r);
      assert [events[0]] == events[..1];
      RunCarries(w, v1, rest, r);
      RunKeepsGood(w, v1, rest);
      FirstAndRest(events, r);
      CarriesTwice(v, v1, Run(v, events), r, VotersAmong(events[..1], r), VotersAmong(rest, r), VotersAmong(events, r));
    }
  }

  lemma NobodyAmong(r: RoundKey)
    ensures VotersAmong([], r) == {}
  {
  }

  /** A round that is carried on with a quorum is not left open. */
  lemma QuorumDecides(w: Setting, v: Voter, v': Voter, r: RoundKey, ids: set<AuthorityId>)
    requires v.sessions != [] && Good(w, v') && v'.sessions != [] && Undecided(v) && Carries(v, v', r, ids)
    requires Triage(v, r.number) == Some(Process) && r.number > v.bestBeefy
    requires Quorum(v.sessions[0], Voters(v.sessions[0], r) + Entitled(v.sessions[0], ids))
    ensures v'.bestBeefy >= r.number || v'.sessions[0].start > r.number
  {
    hide Quorum, Voters, Front, Buffers, Proved, Settled, InCharge, Recorded, Buffered, Cast;
    if v'.bestBeefy < r.number && v'.sessions[0].start <= r.number {
      var s, s' := v.sessions[0], v'.sessions[0];
      QuorumOfMore(s, Voters(s, r) + Entitled(s, ids), Voters(s', r));
      SameQuorum(s, s', Voters(s', r));
      SessionIsValid(v');
      DoneIsQuorum(s', r);
      assert false;
    }
  }

  lemma BestIsProved(w: Setting, v: Voter, n: nat)
    requires Good(w, v) && w.since < n <= v.bestBeefy
    ensures exists e <- v.emitted :: e.commitment.blockNumber >= n && VerifiedProof(w, e)
  {
    hide Queue, Front, Buffers, Settled, InCharge, Recorded, Buffered, Cast, VerifiedProof;
    assert v.emitted[|v.emitted| - 1] in v.emitted;
  }

  lemma BestSince(w: Setting, v: Voter)
    requires Good(w, v)
    ensures w.since <= v.bestBeefy
  {
    hide Queue, Front, Buffers, Settled, InCharge, Recorded, Buffered, Cast, VerifiedProof;
  }

  /** In every run: once the validators that voted in an accepted round make up the threshold, that block is
      final for BEEFY, by a verified proof for it or a later one, unless its session is over. */
  lemma EnoughVotesDecide(w: Setting, v: Voter, events: seq<Event>, r: RoundKey)
    requires Good(w, v) && Undecided(v) && GoodEvents(w, v, events)
    requires Triage(v, r.number) == Some(Process) && r.number > v.bestBeefy
    requires Quorum(v.sessions[0], Voters(v.sessions[0], r) + Entitled(v.sessions[0], VotersAmong(events, r)))
    ensures var v' := Run(v, events);
            || (exists e <- v'.emitted :: e.commitment.blockNumber >= r.number && VerifiedProof(w, e))
            || (v'.sessions != [] && v'.sessions[0].start > r.number)
  {
    hide *;
    var v' := Run(v, events);
    GoodIsValid(w, v);
    RunKeepsGood(w, v, events);
    RunCarries(w, v, events, r);
    QuorumDecides(w, v, v', r, VotersAmong(events, r));
    BestSince(w, v);
    if v'.bestBeefy >= r.number {
      BestIsProved(w, v', r.number);
    }
  }

  // ----- votes alone

  function Arrivals(votes: seq<VoteMessage>): (events: seq<Event>)
  {
    seq(|votes|, i requires 0 <= i < |votes| => Vote(votes[i]))
  }

  lemma VoteHandled(v: Voter, vote: VoteMessage)
    requires VoterInv(v) && vote.commitment.blockNumber <= End(v)
    ensures Step(v, Vote(vote)) == HandleVote(v, RoundOf(vote), vote.id, vote.signature, false) == HandleAll(v, [vote])
  {
    hide Finalize, AddVote, RemoveRound, IsDone, Proof, Buffers, SessionInv;
    HandleNone(v);
    assert [vote][..0] == [];
  }

  /** Arriving votes that are not beyond the accepted interval are handled one after the other. */
  lemma {:induction false} ArrivalsAreHandled(v: Voter, votes: seq<VoteMessage>)
    requires VoterInv(v) && forall vote <- votes :: vote.commitment.blockNumber <= End(v)
    ensures Run(v, Arrivals(votes)) == HandleAll(v, votes)
    decreases |votes|
  {
    hide Step, HandleVote, HandleAll, Queue, Front, Buffers;
    if votes == [] {
      HandleNone(v);
    } else {
      var vote, rest := votes[0], votes[1..];
      VoteHandled(v, vote);
      HandleVoteKeepsInv(v, RoundOf(vote), vote.id, vote.signature, false);
      var v1 := Step(v, Vote(vote));
      ArrivalsAreHandled(v1, rest);
      assert Arrivals(votes)[1..] == Arrivals(rest);
      HandleAllAppend(v, [vote], rest);
      assert [vote] + rest == votes;
    }
  }

  /** A run of arriving votes for an accepted round above the best BEEFY block emits a proof for it exactly if
      they and those on record make up the threshold. */
  lemma ArrivalsConcludeExactly(v: Voter, r: RoundKey, votes: seq<VoteMessage>)
    requires VoterInv(v) && Undecided(v) && Triage(v, r.number) == Some(Process) && r.number > v.bestBeefy
    requires forall vote <- votes :: RoundOf(vote) == r
    ensures var s, v' := v.sessions[0], Run(v, Arrivals(votes));
            var ids := Voters(s, r) + Entitled(s, VotersOf(votes, r));
            if Quorum(s, ids) then Concluded(v, v', r, ids) else Open(v, v', r, ids)
  {
    hide Run, HandleAll, Voters, Entitled, VotersOf, Quorum, Concluded, Open, Queue, Front, Buffers;
    SessionIsValid(v);
    NotDone(v, r);
    ArrivalsAreHandled(v, votes);
    RoundConcludesExactly(v, r, votes);
  }

  lemma NotDone(v: Voter, r: RoundKey)
    requires v.sessions != [] && Undecided(v)
    ensures !IsDone(v.sessions[0], r)
  {
  }

  // ----- the node's own vote

  /** A lagging voter votes on its mandatory block. One that is up to date votes as soon as GRANDPA is the minimum
      ahead, on the block that the least step leads to. */
  lemma OwnTargetExactly(v: Voter)
    requires VoterInv(v)
    ensures !v.sessions[0].mandatoryDone ==> VotingTarget(v) == Some(Start(v))
    ensures v.sessions[0].mandatoryDone ==>
              && (VotingTarget(v).Some? <==> v.bestGrandpa >= v.bestBeefy + v.minDelta)
              && (VotingTarget(v).Some? ==>
                  && v.bestBeefy < VotingTarget(v).value <= v.bestGrandpa
                  && VoteTarget.LeastStep(v.bestGrandpa - v.bestBeefy, v.minDelta, VotingTarget(v).value - v.bestBeefy))
  {
    hide VoteTarget.Target, VoteTarget.LeastStep, SessionInv, Buffers;
    VoteTarget.TargetExists(v.bestGrandpa, v.bestBeefy, Start(v), v.minDelta);
    if v.sessions[0].mandatoryDone && VotingTarget(v).Some? {
      VoteTarget.TargetIsExact(v.bestGrandpa, v.bestBeefy, Start(v), v.minDelta);
    }
  }

  /** With all it takes at hand, the node casts its vote for the target unless it has voted in that round: the
      vote goes out, and counts like any other of a validator. Otherwise nothing happens. */
  lemma OwnVoteExactly(v: Voter, b: Ballot)
    requires VoterInv(v) && Undecided(v)
    ensures var s, v' := v.sessions[0], TryToVote(v, b);
            if VotingTarget(v).None? || b.payload.None? || b.id.None? || b.signature.None? then v' == v
            else
              var r, id := RoundKey(b.payload.value, VotingTarget(v).value), b.id.value;
              if r in s.rounds && s.rounds[r].selfVote then v' == v
              else
                var ids := Voters(s, r) + if id in s.validatorSet.validators then {id} else {};
                && v'.gossiped == v.gossiped + [VoteMessage(Commitment(r.payload, r.number, s.validatorSet.id), id, b.signature.value)]
                && var v1 := v'.(gossiped := v.gossiped);
                   if Quorum(s, ids) then Concluded(v, v1, r, ids) else Open(v, v1, r, ids)
  {
    hide HandleVote, Voters, Quorum, Concluded, Open, VoteTarget.Target, VotingTarget, Buffers, SessionInv;
    OwnTargetExactly(v);
    if VotingTarget(v).Some? && b.payload.Some? && b.id.Some? && b.signature.Some? {
      var r := RoundKey(b.payload.value, VotingTarget(v).value);
      IntervalEnds(v);
      OpenRoundIsCurrent(v, r);
      NotDone(v, r);
      HandleVoteInRound(v, r, b.id.value, b.signature.value, true);
      HandleVoteFrame(v, r, b.id.value, b.signature.value, true);
    }
  }
}

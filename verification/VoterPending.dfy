/** The voter's buffers: what is kept in them, and what a pass over them handles. */
module VoterPending {
  import opened Basics
  import opened BeefyPrimitives
  import opened Justification
  import opened Rounds
  import opened VoterModel
  import opened VoterInvariant
  import opened VoterSafety

  // ----- buffering

  lemma {:induction false} KeptSize<T>(a: map<nat, T>, b: map<nat, T>)
    requires a.Keys <= b.Keys
    ensures |a| <= |b|
  {
    SubsetSize(a.Keys, b.Keys);
    assert |a| == |a.Keys| && |b| == |b.Keys|;
  }

  lemma OnlyBuffersChanged(w: Setting, v: Voter, v': Voter)
    requires Good(w, v) && Buffers(v') && Buffered(w, v')
    requires v' == v.(pendingVotes := v'.pendingVotes, pendingJustifications := v'.pendingJustifications)
    ensures Good(w, v') && Advances(v, v')
  {
    hide Front, Proved, Settled, InCharge, Recorded, Buffers, Buffered, SelfVoted;
    SessionsAloneMatter(w, v, v');
  }

  lemma SameArrivals(w: Setting, v: Voter, v': Voter, vote: VoteMessage)
    requires v'.gossiped == v.gossiped && ArrivingVote(w, v, vote)
    ensures ArrivingVote(w, v', vote)
  {
  }

  lemma BufferVoteBounded(v: Voter, vote: VoteMessage)
    requires Buffers(v)
    ensures Buffers(BufferVote(v, vote))
  {
  }

  lemma BufferVoteKeepsGood(w: Setting, v: Voter, vote: VoteMessage)
    requires Good(w, v) && ArrivingVote(w, v, vote)
    ensures Good(w, BufferVote(v, vote)) && Advances(v, BufferVote(v, vote))
  {
    hide Queue, Front, Buffers, Proved, Settled, InCharge, Recorded, Cast, ArrivingVote, VerifiedProof, Advances;
    var v' := BufferVote(v, vote);
    BufferVoteBounded(v, vote);
    forall n <- v'.pendingVotes, m <- v'.pendingVotes[n]
      ensures ArrivingVote(w, v', m)
    {
      SameArrivals(w, v, v', m);
    }
    OnlyBuffersChanged(w, v, v');
  }

  lemma BufferJustificationKeepsGood(w: Setting, v: Voter, proof: SignedCommitment)
    requires Good(w, v) && VerifiedProof(w, proof)
    ensures Good(w, BufferJustification(v, proof)) && Advances(v, BufferJustification(v, proof))
  {
    hide Queue, Front, Proved, Settled, InCharge, Recorded, Cast, ArrivingVote, VerifiedProof, Advances;
    var v' := BufferJustification(v, proof);
    forall n <- v'.pendingVotes, m <- v'.pendingVotes[n]
      ensures ArrivingVote(w, v', m)
    {
      SameArrivals(w, v, v', m);
    }
    OnlyBuffersChanged(w, v, v');
  }

  /** Shrinking the buffers keeps everything. */
  lemma ShrunkBuffersKeepGood(w: Setting, v: Voter, v': Voter)
    requires Good(w, v)
    requires v' == v.(pendingVotes := v'.pendingVotes, pendingJustifications := v'.pendingJustifications)
    requires forall n <- v'.pendingVotes :: n in v.pendingVotes && v'.pendingVotes[n] == v.pendingVotes[n]
    requires forall n <- v'.pendingJustifications :: n in v.pendingJustifications && v'.pendingJustifications[n] == v.pendingJustifications[n]
    ensures Good(w, v') && Advances(v, v')
  {
    hide Queue, Front, Proved, Settled, InCharge, Recorded, Cast, ArrivingVote, VerifiedProof, Advances;
    KeptSize(v'.pendingVotes, v.pendingVotes);
    KeptSize(v'.pendingJustifications, v.pendingJustifications);
    forall n <- v'.pendingVotes, m <- v'.pendingVotes[n]
      ensures ArrivingVote(w, v', m)
    {
      SameArrivals(w, v, v', m);
    }
    OnlyBuffersChanged(w, v, v');
  }

  // ----- handling what was buffered

  lemma FinalizeUpToDate(v: Voter, proof: SignedCommitment)
    requires VoterInv(v) && Start(v) <= proof.commitment.blockNumber <= End(v)
    ensures var v' := Finalize(v, proof);
            && v'.pendingVotes == v.pendingVotes && v'.pendingJustifications == v.pendingJustifications
            && (v.sessions[0].mandatoryDone ==> v'.sessions != [] && v'.sessions[0].mandatoryDone && Start(v') == Start(v))
  {
  }

  lemma AdvancesNowhere(v: Voter)
    requires v.sessions != []
    ensures Advances(v, v)
  {
  }

  lemma AdvancesForward(v: Voter, v': Voter)
    requires v.sessions != [] && v'.sessions != [] && Advances(v, v')
    ensures v.bestBeefy <= v'.bestBeefy && End(v) <= End(v')
  {
  }

  lemma AdvancesTwice(a: Voter, b: Voter, c: Voter)
    requires a.sessions != [] && b.sessions != [] && c.sessions != [] && Advances(a, b) && Advances(b, c)
    ensures Advances(a, c)
  {
  }

  lemma IntervalEnds(v: Voter)
    requires v.sessions != []
    ensures End(v) == if v.sessions[0].mandatoryDone then v.bestGrandpa else Start(v)
  {
  }

  lemma {:induction false} FinalizeAllGood(w: Setting, v: Voter, proofs: map<nat, SignedCommitment>, bound: nat)
    requires Good(w, v) && bound <= End(v) + 1
    requires forall n <- proofs :: proofs[n].commitment.blockNumber == n && VerifiedProof(w, proofs[n])
    ensures var v' := FinalizeAll(v, proofs, Start(v), bound);
            && Good(w, v') && Advances(v, v')
            && (v.sessions[0].mandatoryDone ==> v'.sessions[0].mandatoryDone && Start(v') == Start(v))
            && (Start(v) <= bound <= End(v) ==> Start(v') <= bound <= End(v'))
            && v'.pendingVotes == v.pendingVotes && v'.pendingJustifications == v.pendingJustifications
    decreases bound
  {
    hide *;
    GoodIsValid(w, v);
    FinalizeAllNext(v, proofs, Start(v), bound);
    if bound <= Start(v) {
      AdvancesNowhere(v);
    } else {
      FinalizeAllGood(w, v, proofs, bound - 1);
      var v1 := FinalizeAll(v, proofs, Start(v), bound - 1);
      GoodIsValid(w, v1);
      IntervalEnds(v);
      AdvancesForward(v, v1);
      if bound - 1 in proofs {
        var v' := Finalize(v1, proofs[bound - 1]);
        FinalizeUpToDate(v1, proofs[bound - 1]);
        FinalizeKeepsGood(w, v1, proofs[bound - 1]);
        GoodIsValid(w, v');
        AdvancesTwice(v, v1, v');
        AdvancesForward(v, v');
      }
    }
  }

  /** The keys of a map within bounds, ascending. */
  function Numbers<T>(m: map<nat, T>, from: nat, bound: nat): (ns: seq<nat>)
    ensures forall n :: n in ns <==> n in m && from <= n < bound
    ensures forall i, j :: 0 <= i < j < |ns| ==> ns[i] < ns[j]
    decreases bound
  {
    if bound <= from then []
    else
      var ns := Numbers(m, from, bound - 1);
      assert forall i :: 0 <= i < |ns| ==> ns[i] in ns;
      ns + if bound - 1 in m then [bound - 1] else []
  }

  /** The values of a map within bounds, by ascending key. */
  function InOrder<T>(m: map<nat, T>, from: nat, bound: nat): (values: seq<T>)
  {
    var ns := Numbers(m, from, bound);
    seq(|ns|, i requires 0 <= i < |ns| => m[ns[i]])
  }

  lemma InOrderNext<T>(m: map<nat, T>, from: nat, bound: nat)
    requires from <= bound
    ensures InOrder(m, from, bound + 1) == InOrder(m, from, bound) + if bound in m then [m[bound]] else []
  {
  }

  lemma {:induction false} InOrderBetween<T>(m: map<nat, T>, start: nat, end: nat, from: nat, bound: nat)
    requires start <= from && bound <= end + 1
    ensures InOrder(Between(m, start, end), from, bound) == InOrder(m, from, bound)
    decreases bound
  {
    hide InOrder;
    if bound <= from {
      NoneInOrder(m, from, bound);
      NoneInOrder(Between(m, start, end), from, bound);
    } else {
      InOrderBetween(m, start, end, from, bound - 1);
      InOrderNext(m, from, bound - 1);
      InOrderNext(Between(m, start, end), from, bound - 1);
    }
  }

  /** What a pass over justifications has emitted and reached before a number. */
  ghost predicate EmittedBefore(v: Voter, v': Voter, proofs: map<nat, SignedCommitment>, from: nat, bound: nat)
  {
    v'.emitted == v.emitted + InOrder(proofs, from, bound) && (v'.bestBeefy == v.bestBeefy || v'.bestBeefy < bound)
  }

  lemma EmitNext(v: Voter, v1: Voter, proofs: map<nat, SignedCommitment>, from: nat, bound: nat)
    requires EmittedBefore(v, v1, proofs, from, bound) && v1.bestBeefy >= v.bestBeefy && v.bestBeefy < from
    requires VoterInv(v1) && Start(v1) <= bound <= End(v1) && bound in proofs && proofs[bound].commitment.blockNumber == bound
    requires from <= bound || bound <= v.bestBeefy
    ensures EmittedBefore(v, Finalize(v1, proofs[bound]), proofs, from, bound + 1)
  {
    hide VoterInv, Finalize, InOrder;
    FinalizeEmits(v1, proofs[bound]);
    if from <= bound {
      InOrderNext(proofs, from, bound);
      AppendTwice(v.emitted, InOrder(proofs, from, bound), [proofs[bound]]);
    } else {
      NoneInOrder(proofs, from, bound);
      NoneInOrder(proofs, from, bound + 1);
    }
  }

  lemma EmitNothing(v: Voter, v1: Voter, proofs: map<nat, SignedCommitment>, from: nat, bound: nat)
    requires EmittedBefore(v, v1, proofs, from, bound) && bound !in proofs
    ensures EmittedBefore(v, v1, proofs, from, bound + 1)
  {
    hide InOrder;
    if from <= bound {
      InOrderNext(proofs, from, bound);
    } else {
      NoneInOrder(proofs, from, bound);
      NoneInOrder(proofs, from, bound + 1);
    }
  }

  lemma FinalizeAllNext(v: Voter, proofs: map<nat, SignedCommitment>, from: nat, bound: nat)
    ensures bound <= from ==> FinalizeAll(v, proofs, from, bound) == v
    ensures bound > from ==>
              var v1 := FinalizeAll(v, proofs, from, bound - 1);
              FinalizeAll(v, proofs, from, bound) == if bound - 1 in proofs then Finalize(v1, proofs[bound - 1]) else v1
  {
  }

  /** Halfway through a pass, the next number is still an accepted one. */
  lemma PassStaysInside(w: Setting, v: Voter, proofs: map<nat, SignedCommitment>, n: nat)
    requires Good(w, v) && Start(v) <= n <= End(v)
    requires forall k <- proofs :: proofs[k].commitment.blockNumber == k && VerifiedProof(w, proofs[k])
    ensures var v1 := FinalizeAll(v, proofs, Start(v), n);
            VoterInv(v1) && v1.sessions != [] && v.bestBeefy <= v1.bestBeefy && Start(v1) <= n <= End(v1)
  {
    hide Finalize, FinalizeAll, Good, VoterInv, VerifiedProof;
    GoodIsValid(w, v);
    FinalizeAllGood(w, v, proofs, n);
    GoodIsValid(w, FinalizeAll(v, proofs, Start(v), n));
  }

  lemma FirstEmitted(w: Setting, v: Voter, from: nat)
    requires Good(w, v) && from == Max(Start(v), v.bestBeefy + 1)
    ensures v.sessions != [] && Start(v) <= from && v.bestBeefy < from && (from == Start(v) || from == v.bestBeefy + 1)
  {
  }

  /** A pass over justifications emits exactly those above the best BEEFY block, in order. */
  lemma {:induction false} FinalizeAllEmits(w: Setting, v: Voter, proofs: map<nat, SignedCommitment>, from: nat, bound: nat)
    requires Good(w, v) && bound <= End(v) + 1 && from == Max(Start(v), v.bestBeefy + 1)
    requires forall n <- proofs :: proofs[n].commitment.blockNumber == n && VerifiedProof(w, proofs[n])
    ensures EmittedBefore(v, FinalizeAll(v, proofs, Start(v), bound), proofs, from, bound)
    decreases bound
  {
    hide *;
    FirstEmitted(w, v, from);
    FinalizeAllNext(v, proofs, Start(v), bound);
    if bound <= Start(v) {
      NothingEmitted(v, proofs, from, bound);
    } else {
      FinalizeAllEmits(w, v, proofs, from, bound - 1);
      PassStaysInside(w, v, proofs, bound - 1);
      var v1 := FinalizeAll(v, proofs, Start(v), bound - 1);
      if bound - 1 in proofs {
        EmitNext(v, v1, proofs, from, bound - 1);
      } else {
        EmitNothing(v, v1, proofs, from, bound - 1);
      }
    }
  }

  lemma NothingEmitted(v: Voter, proofs: map<nat, SignedCommitment>, from: nat, bound: nat)
    requires bound <= from
    ensures EmittedBefore(v, v, proofs, from, bound)
  {
    NoneInOrder(proofs, from, bound);
  }

  lemma FinalizeEmits(v: Voter, proof: SignedCommitment)
    requires VoterInv(v) && Start(v) <= proof.commitment.blockNumber <= End(v)
    ensures var n, v' := proof.commitment.blockNumber, Finalize(v, proof);
            && v'.emitted == v.emitted + (if n > v.bestBeefy then [proof] else [])
            && v'.bestBeefy == Max(v.bestBeefy, n)
  {
    hide Finalize, Front, Buffers;
    FinalizeShape(v, proof);
  }

  lemma AppendTwice<T>(a: seq<T>, b: seq<T>, c: seq<T>)
    ensures (a + b) + c == a + (b + c)
  {
  }

  lemma NoneInOrder<T>(m: map<nat, T>, from: nat, bound: nat)
    requires bound <= from
    ensures InOrder(m, from, bound) == []
  {
  }

  /** The buffered votes within bounds, by ascending number and within a number as they came. */
  function VotesInOrder(m: map<nat, seq<VoteMessage>>, from: nat, bound: nat): (votes: seq<VoteMessage>)
    decreases bound
  {
    if bound <= from then []
    else VotesInOrder(m, from, bound - 1) + if bound - 1 in m then m[bound - 1] else []
  }

  /** Every vote of the buffer is about the block number it is filed under. */
  ghost predicate Filed(m: map<nat, seq<VoteMessage>>)
  {
    forall n <- m :: forall vote <- m[n] :: vote.commitment.blockNumber == n
  }

  lemma {:induction false} VotesInOrderExactly(m: map<nat, seq<VoteMessage>>, from: nat, bound: nat, x: VoteMessage)
    requires Filed(m)
    ensures var n := x.commitment.blockNumber;
            multiset(VotesInOrder(m, from, bound))[x] == if n in m && from <= n < bound then multiset(m[n])[x] else 0
    decreases bound
  {
    if from < bound {
      VotesInOrderExactly(m, from, bound - 1, x);
      assert bound - 1 in m && x.commitment.blockNumber != bound - 1 ==> x !in m[bound - 1];
    }
  }

  ghost predicate Ascending(votes: seq<VoteMessage>, bound: nat)
  {
    && (forall i :: 0 <= i < |votes| ==> votes[i].commitment.blockNumber < bound)
    && (forall i, j :: 0 <= i < j < |votes| ==> votes[i].commitment.blockNumber <= votes[j].commitment.blockNumber)
  }

  lemma AscendingNext(a: seq<VoteMessage>, b: seq<VoteMessage>, bound: nat)
    requires Ascending(a, bound) && forall vote <- b :: vote.commitment.blockNumber == bound
    ensures Ascending(a + b, bound + 1)
  {
    var all := a + b;
    forall i | 0 <= i < |all|
      ensures i < |a| ==> all[i] == a[i]
      ensures i >= |a| ==> all[i].commitment.blockNumber == bound
    {
      assert i >= |a| ==> all[i] in b;
    }
  }

  lemma {:induction false} VotesInOrderAscend(m: map<nat, seq<VoteMessage>>, from: nat, bound: nat)
    requires Filed(m)
    ensures Ascending(VotesInOrder(m, from, bound), bound)
    decreases bound
  {
    if from < bound {
      VotesInOrderAscend(m, from, bound - 1);
      AscendingNext(VotesInOrder(m, from, bound - 1), if bound - 1 in m then m[bound - 1] else [], bound - 1);
    }
  }

  lemma {:induction false} HandleAllAppend(v: Voter, a: seq<VoteMessage>, b: seq<VoteMessage>)
    ensures HandleAll(v, a + b) == HandleAll(HandleAll(v, a), b)
    decreases |b|
  {
    hide HandleVote;
    if b == [] {
      assert a + b == a;
    } else {
      var last := |b| - 1;
      HandleAllAppend(v, a, b[..last]);
      assert (a + b)[..|a + b| - 1] == a + b[..last];
    }
  }

  lemma {:induction false} HandleRoundsInOrder(v: Voter, m: map<nat, seq<VoteMessage>>, start: nat, end: nat, bound: nat)
    requires bound <= end + 1
    ensures HandleRounds(v, Between(m, start, end), start, bound) == HandleAll(v, VotesInOrder(m, start, bound))
    decreases bound
  {
    hide HandleAll;
    if start < bound {
      HandleRoundsInOrder(v, m, start, end, bound - 1);
      HandleAllAppend(v, VotesInOrder(m, start, bound - 1), if bound - 1 in m then m[bound - 1] else []);
      HandleNone(HandleAll(v, VotesInOrder(m, start, bound - 1)));
    } else {
      HandleNone(v);
    }
  }

  lemma HandleNone(v: Voter)
    ensures HandleAll(v, []) == v
  {
  }

  lemma HandleVoteFrame(v: Voter, r: RoundKey, id: AuthorityId, signature: Signature, selfVote: bool)
    ensures var v' := HandleVote(v, r, id, signature, selfVote);
            v'.pendingVotes == v.pendingVotes && v'.pendingJustifications == v.pendingJustifications && v'.gossiped == v.gossiped
  {
    hide AddVote, AcceptsVote, IsDone, RemoveRound, Conclude, Prune, Proof;
  }

  lemma {:induction false} HandleAllGood(w: Setting, v: Voter, votes: seq<VoteMessage>)
    requires Good(w, v)
    requires forall vote <- votes :: vote.commitment.blockNumber <= End(v) && ArrivingVote(w, v, vote)
    ensures var v' := HandleAll(v, votes);
            && Good(w, v') && Advances(v, v')
            && v'.pendingVotes == v.pendingVotes && v'.pendingJustifications == v.pendingJustifications && v'.gossiped == v.gossiped
    decreases |votes|
  {
    hide HandleVote, Front, Buffers, Proved, Settled, InCharge, Recorded, Buffered, Cast, VerifiedVote;
    if votes != [] {
      var last := |votes| - 1;
      HandleAllGood(w, v, votes[..last]);
      var v1, vote := HandleAll(v, votes[..last]), votes[last];
      assert Gossiped(v, RoundOf(vote)) ==> Gossiped(v1, RoundOf(vote));
      HandleVoteKeepsGood(w, v1, RoundOf(vote), vote.id, vote.signature, false);
      HandleVoteFrame(v1, RoundOf(vote), vote.id, vote.signature, false);
    }
  }

  lemma {:induction false} HandleRoundsGood(w: Setting, v: Voter, votes: map<nat, seq<VoteMessage>>, from: nat, bound: nat)
    requires Good(w, v) && bound <= End(v) + 1
    requires forall n <- votes :: forall vote <- votes[n] :: vote.commitment.blockNumber == n && ArrivingVote(w, v, vote)
    ensures var v' := HandleRounds(v, votes, from, bound);
            && Good(w, v') && Advances(v, v')
            && v'.pendingVotes == v.pendingVotes && v'.pendingJustifications == v.pendingJustifications && v'.gossiped == v.gossiped
    decreases bound
  {
    hide HandleAll, Front, Buffers, Proved, Settled, InCharge, Recorded, Buffered, Cast, VerifiedVote;
    if bound > from {
      HandleRoundsGood(w, v, votes, from, bound - 1);
      var v1 := HandleRounds(v, votes, from, bound - 1);
      if bound - 1 in votes {
        assert forall r :: Gossiped(v, r) ==> Gossiped(v1, r);
        HandleAllGood(w, v1, votes[bound - 1]);
      }
    }
  }

  lemma BufferedProofs(w: Setting, v: Voter, start: nat, end: nat)
    requires Buffers(v) && Buffered(w, v)
    ensures var proofs := Between(v.pendingJustifications, start, end);
            forall n <- proofs :: proofs[n].commitment.blockNumber == n && VerifiedProof(w, proofs[n])
  {
  }

  lemma BufferedVotes(w: Setting, v: Voter, v': Voter, start: nat, end: nat)
    requires Buffers(v) && Buffered(w, v) && v'.gossiped == v.gossiped
    ensures var votes := Between(v.pendingVotes, start, end);
            forall n <- votes :: forall vote: VoteMessage <- votes[n] :: vote.commitment.blockNumber == n && ArrivingVote(w, v', vote)
  {
    hide ArrivingVote;
    var votes := Between(v.pendingVotes, start, end);
    forall n <- votes, vote: VoteMessage <- votes[n]
      ensures vote.commitment.blockNumber == n && ArrivingVote(w, v', vote)
    {
      SameArrivals(w, v, v', vote);
    }
  }

  lemma ProcessJustificationsGood(w: Setting, v: Voter)
    requires Good(w, v)
    ensures var v' := ProcessJustifications(v);
            && Good(w, v') && Advances(v, v')
            && v'.pendingJustifications == Beyond(v.pendingJustifications, End(v)) && v'.pendingVotes == v.pendingVotes
  {
    hide FinalizeAll, Between, Front, Buffers, Proved, Settled, InCharge, Recorded, Buffered, Cast, VerifiedProof;
    if v.pendingJustifications == map[] {
      assert ProcessJustifications(v) == v;
    } else {
      var v1 := v.(pendingJustifications := Beyond(v.pendingJustifications, End(v)));
      ShrunkBuffersKeepGood(w, v, v1);
      BufferedProofs(w, v, Start(v), End(v));
      FinalizeAllGood(w, v1, Between(v.pendingJustifications, Start(v), End(v)), End(v) + 1);
    }
  }

  /** A pass over the buffered justifications emits exactly those of the accepted interval that are above
      the best BEEFY block, in ascending order. */
  lemma ProcessJustificationsEmits(w: Setting, v: Voter)
    requires Good(w, v)
    ensures ProcessJustifications(v).emitted ==
              v.emitted + InOrder(v.pendingJustifications, Max(Start(v), v.bestBeefy + 1), End(v) + 1)
  {
    hide FinalizeAll, Between, InOrder, Front, Buffers, Proved, Settled, InCharge, Recorded, Buffered, Cast, VerifiedProof;
    var from := Max(Start(v), v.bestBeefy + 1);
    if v.pendingJustifications == map[] {
      NothingInOrder(v.pendingJustifications, from, End(v) + 1);
    } else {
      var v1 := v.(pendingJustifications := Beyond(v.pendingJustifications, End(v)));
      ShrunkBuffersKeepGood(w, v, v1);
      BufferedProofs(w, v, Start(v), End(v));
      FinalizeAllEmits(w, v1, Between(v.pendingJustifications, Start(v), End(v)), from, End(v) + 1);
      InOrderBetween(v.pendingJustifications, Start(v), End(v), from, End(v) + 1);
    }
  }

  lemma NothingInOrder<T>(m: map<nat, T>, from: nat, bound: nat)
    requires m == map[]
    ensures InOrder(m, from, bound) == []
  {
    NoNumbers(m, from, bound);
  }

  lemma {:induction false} NoNumbers<T>(m: map<nat, T>, from: nat, bound: nat)
    requires m == map[]
    ensures Numbers(m, from, bound) == []
    decreases bound
  {
    if from < bound {
      NoNumbers(m, from, bound - 1);
    }
  }

  lemma ProcessVotesGood(w: Setting, v: Voter)
    requires Good(w, v)
    ensures var v' := ProcessVotes(v);
            && Good(w, v') && Advances(v, v')
            && v'.pendingVotes == Beyond(v.pendingVotes, End(v)) && v'.pendingJustifications == v.pendingJustifications
  {
    hide HandleRounds, Between, Front, Buffers, Proved, Settled, InCharge, Recorded, Buffered, Cast, ArrivingVote;
    if v.pendingVotes == map[] {
      assert ProcessVotes(v) == v;
    } else {
      var v1 := v.(pendingVotes := Beyond(v.pendingVotes, End(v)));
      ShrunkBuffersKeepGood(w, v, v1);
      BufferedVotes(w, v, v1, Start(v), End(v));
      HandleRoundsGood(w, v1, Between(v.pendingVotes, Start(v), End(v)), Start(v), End(v) + 1);
    }
  }

  /** A pass over the buffered votes handles those of the accepted interval one after the other, by
      ascending number and within a number as they came. */
  lemma ProcessVotesInOrder(v: Voter)
    requires v.sessions != []
    ensures ProcessVotes(v) ==
              HandleAll(v.(pendingVotes := Beyond(v.pendingVotes, End(v))), VotesInOrder(v.pendingVotes, Start(v), End(v) + 1))
  {
    hide HandleAll, VotesInOrder, HandleRounds, Between;
    if v.pendingVotes == map[] {
      NoVotesInOrder(v.pendingVotes, Start(v), End(v) + 1);
      HandleNone(v);
    } else {
      HandleRoundsInOrder(v.(pendingVotes := Beyond(v.pendingVotes, End(v))), v.pendingVotes, Start(v), End(v), End(v) + 1);
    }
  }

  lemma {:induction false} NoVotesInOrder(m: map<nat, seq<VoteMessage>>, from: nat, bound: nat)
    requires m == map[]
    ensures VotesInOrder(m, from, bound) == []
    decreases bound
  {
    if from < bound {
      NoVotesInOrder(m, from, bound - 1);
    }
  }
}

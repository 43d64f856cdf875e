/** What gets into the voter's buffers stays there until a pass reaches it, and is handled by that pass. */
module VoterBuffering {
  import opened Basics
  import opened BeefyPrimitives
  import opened Rounds
  import opened VoterModel
  import opened VoterInvariant
  import opened VoterSafety
  import opened VoterPending
  import opened VoterRuns
  import opened VoterTally

  /** The buffered votes for a block number. */
  function VotesFor(v: Voter, n: nat): (votes: seq<VoteMessage>)
  {
    if n in v.pendingVotes then v.pendingVotes[n] else []
  }

  // ----- into the buffers

  /** A vote goes behind those buffered for its number exactly if fewer than 600 numbers and fewer than 1000
      votes for this one are buffered; no other vote, nor anything else, changes. */
  ghost predicate TakesVote(v: Voter, v': Voter, vote: VoteMessage)
  {
    var n := vote.commitment.blockNumber;
    var room := |v.pendingVotes| < 600 && |VotesFor(v, n)| < 1000;
    && VotesFor(v', n) == VotesFor(v, n) + (if room then [vote] else [])
    && (forall m :: m != n ==> VotesFor(v', m) == VotesFor(v, m))
    && v'.pendingVotes.Keys == v.pendingVotes.Keys + (if room then {n} else {})
    && v' == v.(pendingVotes := v'.pendingVotes)
  }

  /** A justification is taken exactly if it is the first for its number and fewer than 2400 are buffered; no
      other one, nor anything else, changes. */
  ghost predicate TakesProof(v: Voter, v': Voter, proof: SignedCommitment)
  {
    var n := proof.commitment.blockNumber;
    var room := |v.pendingJustifications| < 2400 && n !in v.pendingJustifications;
    && (room ==> n in v'.pendingJustifications && v'.pendingJustifications[n] == proof)
    && (forall m <- v.pendingJustifications :: m in v'.pendingJustifications && v'.pendingJustifications[m] == v.pendingJustifications[m])
    && v'.pendingJustifications.Keys == v.pendingJustifications.Keys + (if room then {n} else {})
    && v' == v.(pendingJustifications := v'.pendingJustifications)
  }

  lemma BufferTakesVote(v: Voter, vote: VoteMessage)
    ensures TakesVote(v, BufferVote(v, vote), vote)
  {
  }

  lemma BufferTakesProof(v: Voter, proof: SignedCommitment)
    ensures TakesProof(v, BufferJustification(v, proof), proof)
  {
  }

  /** A vote beyond the accepted interval is buffered, as far as there is room. */
  lemma VoteIsBuffered(v: Voter, vote: VoteMessage)
    requires Triage(v, vote.commitment.blockNumber) == Some(Enqueue)
    ensures TakesVote(v, Step(v, Vote(vote)), vote)
  {
    hide HandleVote, BufferVote, TakesVote;
    BufferTakesVote(v, vote);
  }

  /** So is a justification. */
  lemma JustificationIsBuffered(v: Voter, proof: SignedCommitment)
    requires Triage(v, proof.commitment.blockNumber) == Some(Enqueue)
    ensures TakesProof(v, Step(v, Justif(proof)), proof)
  {
    hide Finalize, BufferJustification, TakesProof;
    BufferTakesProof(v, proof);
  }

  // ----- until a pass reaches them

  /** Whatever is buffered for a number is still there, in its place. */
  ghost predicate Kept(v: Voter, v': Voter, n: nat)
  {
    && VotesFor(v, n) <= VotesFor(v', n)
    && (n in v.pendingJustifications ==> n in v'.pendingJustifications && v'.pendingJustifications[n] == v.pendingJustifications[n])
  }

  /** No pass of a run finds a number within the accepted interval or below it. */
  ghost predicate Unreached(v: Voter, events: seq<Event>, n: nat)
    decreases |events|
  {
    events == [] ||
    ((events[0].TryPending? ==> Triage(ProcessJustifications(v), n) == Some(Enqueue)) && Unreached(Step(v, events[0]), events[1..], n))
  }

  lemma SameBuffersKept(v: Voter, v': Voter, n: nat)
    requires v'.pendingVotes == v.pendingVotes && v'.pendingJustifications == v.pendingJustifications
    ensures Kept(v, v', n)
  {
  }

  lemma FinalizeFrame(v: Voter, proof: SignedCommitment)
    ensures var v' := Finalize(v, proof);
            v'.pendingVotes == v.pendingVotes && v'.pendingJustifications == v.pendingJustifications
  {
  }

  lemma {:induction false} StartSessionsFrame(v: Voter, headers: seq<Header>)
    ensures StartSessions(v, headers) == v.(sessions := StartSessions(v, headers).sessions)
    decreases |headers|
  {
    hide Prune;
    if headers != [] {
      StartSessionsFrame(v, headers[..|headers| - 1]);
    }
  }

  lemma OtherVoteStep(v: Voter, vote: VoteMessage)
    requires Triage(v, vote.commitment.blockNumber) != Some(Enqueue)
    ensures Step(v, Vote(vote)) == v || Step(v, Vote(vote)) == HandleVote(v, RoundOf(vote), vote.id, vote.signature, false)
  {
    hide HandleVote;
  }

  lemma VoteStepKeeps(v: Voter, vote: VoteMessage, n: nat)
    ensures Kept(v, Step(v, Vote(vote)), n)
  {
    hide HandleVote, Step, Triage;
    if Triage(v, vote.commitment.blockNumber) == Some(Enqueue) {
      VoteIsBuffered(v, vote);
    } else {
      OtherVoteStep(v, vote);
      HandleVoteFrame(v, RoundOf(vote), vote.id, vote.signature, false);
    }
  }

  lemma OtherJustificationStep(v: Voter, proof: SignedCommitment)
    requires Triage(v, proof.commitment.blockNumber) != Some(Enqueue)
    ensures Step(v, Justif(proof)) == v || Step(v, Justif(proof)) == Finalize(v, proof)
  {
    hide Finalize;
  }

  lemma JustificationStepKeeps(v: Voter, proof: SignedCommitment, n: nat)
    ensures Kept(v, Step(v, Justif(proof)), n)
  {
    hide Finalize, Step, Triage;
    if Triage(v, proof.commitment.blockNumber) == Some(Enqueue) {
      JustificationIsBuffered(v, proof);
    } else {
      OtherJustificationStep(v, proof);
      FinalizeFrame(v, proof);
    }
  }

  lemma PassKeeps(w: Setting, v: Voter, n: nat)
    requires Good(w, v) && Triage(ProcessJustifications(v), n) == Some(Enqueue)
    ensures Kept(v, Step(v, TryPending), n)
  {
    hide ProcessJustifications, ProcessVotes, Front, Buffers, Proved, Settled, InCharge, Recorded, Buffered, Cast;
    var v1 := ProcessJustifications(v);
    ProcessJustificationsGood(w, v);
    ProcessVotesGood(w, v1);
  }

  lemma StepKeeps(w: Setting, v: Voter, e: Event, n: nat)
    requires Good(w, v) && (e.TryPending? ==> Triage(ProcessJustifications(v), n) == Some(Enqueue))
    ensures Kept(v, Step(v, e), n)
  {
    hide Good, Kept, HandleVote, StartSessions, OwnVote, ProcessPending, IncomingVote, IncomingJustification;
    match e
    case Finality(route, header) =>
      StartSessionsFrame(v.(bestGrandpa := header.number), route + [header]);
      SameBuffersKept(v, Step(v, e), n);
    case Vote(vote) => VoteStepKeeps(v, vote, n);
    case Justif(proof) => JustificationStepKeeps(v, proof, n);
    case TryPending => PassKeeps(w, v, n);
    case TryVote(ballot) =>
      if OwnVote(v, ballot).Some? {
        var vote := OwnVote(v, ballot).value;
        HandleVoteFrame(v, RoundOf(vote), vote.id, vote.signature, true);
      }
      SameBuffersKept(v, Step(v, e), n);
  }

  lemma KeptTwice(a: Voter, b: Voter, c: Voter, n: nat)
    requires Kept(a, b, n) && Kept(b, c, n)
    ensures Kept(a, c, n)
  {
  }

  lemma UnreachedNext(v: Voter, events: seq<Event>, n: nat)
    requires Unreached(v, events, n) && events != []
    ensures events[0].TryPending? ==> Triage(ProcessJustifications(v), n) == Some(Enqueue)
    ensures Unreached(Step(v, events[0]), events[1..], n)
  {
  }

  /** A run loses nothing buffered for a number that none of its passes reaches. */
  lemma {:induction false} BufferedStays(w: Setting, v: Voter, events: seq<Event>, n: nat)
    requires Good(w, v) && GoodEvents(w, v, events) && Unreached(v, events, n)
    ensures Kept(v, Run(v, events), n)
    decreases |events|
  {
    hide *;
    RunNext(w, v, events);
    if events == [] {
      SameBuffersKept(v, v, n);
    } else {
      var v1 := Step(v, events[0]);
      UnreachedNext(v, events, n);
      StepKeeps(w, v, events[0], n);
      StepKeepsGood(w, v, events[0]);
      BufferedStays(w, v1, events[1..], n);
      KeptTwice(v, v1, Run(v, events), n);
    }
  }

  // ----- and then

  lemma PassHandles(w: Setting, v: Voter, vote: VoteMessage)
    requires Good(w, v) && vote in VotesFor(v, vote.commitment.blockNumber)
    requires Triage(ProcessJustifications(v), vote.commitment.blockNumber) == Some(Process)
    ensures var v1 := ProcessJustifications(v);
            && v1.sessions != []
            && var handled := VotesInOrder(v.pendingVotes, Start(v1), End(v1) + 1);
               vote in handled && Step(v, TryPending) == HandleAll(v1.(pendingVotes := Beyond(v.pendingVotes, End(v1))), handled)
  {
    hide ProcessJustifications, ProcessPending, HandleAll, VotesInOrder, Good;
    PendingIsPartitioned(w, v, vote);
    var v1, n := ProcessJustifications(v), vote.commitment.blockNumber;
    var handled := VotesInOrder(v.pendingVotes, Start(v1), End(v1) + 1);
    assert vote in multiset(v.pendingVotes[n]);
    assert vote in multiset(handled);
  }

  lemma KeptVote(v: Voter, v': Voter, vote: VoteMessage, n: nat)
    requires Kept(v, v', n) && vote in VotesFor(v, n)
    ensures vote in VotesFor(v', n)
  {
  }

  /** A vote that got into the buffer is there until a pass finds its number accepted, whatever happens in
      between, and that pass handles it. */
  lemma BufferedVoteIsHandled(w: Setting, v: Voter, vote: VoteMessage, events: seq<Event>)
    requires Good(w, v) && ArrivingVote(w, v, vote) && GoodEvents(w, Step(v, Vote(vote)), events)
    requires Triage(v, vote.commitment.blockNumber) == Some(Enqueue)
    requires |v.pendingVotes| < 600 && |VotesFor(v, vote.commitment.blockNumber)| < 1000
    requires Unreached(Step(v, Vote(vote)), events, vote.commitment.blockNumber)
    ensures var n, u := vote.commitment.blockNumber, Run(Step(v, Vote(vote)), events);
            var u1 := ProcessJustifications(u);
            && vote in VotesFor(u, n)
            && (Triage(u1, n) == Some(Process) ==>
                && u1.sessions != []
                && var handled := VotesInOrder(u.pendingVotes, Start(u1), End(u1) + 1);
                   vote in handled && Step(u, TryPending) == HandleAll(u1.(pendingVotes := Beyond(u.pendingVotes, End(u1))), handled))
  {
    hide *;
    var n, v1 := vote.commitment.blockNumber, Step(v, Vote(vote));
    VoteIsBuffered(v, vote);
    TakenVoteIsThere(v, v1, vote);
    ArrivalIsGood(w, v, vote);
    StepKeepsGood(w, v, Vote(vote));
    BufferedStays(w, v1, events, n);
    var u := Run(v1, events);
    KeptVote(v1, u, vote, n);
    RunKeepsGood(w, v1, events);
    if Triage(ProcessJustifications(u), n) == Some(Process) {
      PassHandles(w, u, vote);
    }
  }

  lemma TakenVoteIsThere(v: Voter, v': Voter, vote: VoteMessage)
    requires TakesVote(v, v', vote) && |v.pendingVotes| < 600 && |VotesFor(v, vote.commitment.blockNumber)| < 1000
    ensures vote in VotesFor(v', vote.commitment.blockNumber)
  {
  }

  lemma TakenProofIsThere(v: Voter, v': Voter, proof: SignedCommitment)
    requires TakesProof(v, v', proof) && |v.pendingJustifications| < 2400 && proof.commitment.blockNumber !in v.pendingJustifications
    ensures var n := proof.commitment.blockNumber;
            n in v'.pendingJustifications && v'.pendingJustifications[n] == proof
  {
  }

  lemma ArrivalIsGood(w: Setting, v: Voter, vote: VoteMessage)
    requires ArrivingVote(w, v, vote)
    ensures GoodEvent(w, v, Vote(vote))
  {
  }

  lemma InOrderHas<T>(m: map<nat, T>, from: nat, bound: nat, n: nat)
    requires n in m && from <= n < bound
    ensures m[n] in InOrder(m, from, bound)
  {
    var ns := Numbers(m, from, bound);
    var i :| 0 <= i < |ns| && ns[i] == n;
    assert InOrder(m, from, bound)[i] == m[n];
  }

  /** The same for a justification: the pass that finds its number accepted emits it, unless a proof for that
      number or a later one has been emitted before. */
  lemma BufferedProofIsEmitted(w: Setting, v: Voter, proof: SignedCommitment, events: seq<Event>)
    requires Good(w, v) && VerifiedProof(w, proof) && GoodEvents(w, Step(v, Justif(proof)), events)
    requires Triage(v, proof.commitment.blockNumber) == Some(Enqueue)
    requires |v.pendingJustifications| < 2400 && proof.commitment.blockNumber !in v.pendingJustifications
    requires Unreached(Step(v, Justif(proof)), events, proof.commitment.blockNumber)
    ensures var n, u := proof.commitment.blockNumber, Run(Step(v, Justif(proof)), events);
            && n in u.pendingJustifications && u.pendingJustifications[n] == proof
            && (Triage(u, n) == Some(Process) && n > u.bestBeefy ==> proof in Step(u, TryPending).emitted)
  {
    hide *;
    var n, v1 := proof.commitment.blockNumber, Step(v, Justif(proof));
    JustificationIsBuffered(v, proof);
    TakenProofIsThere(v, v1, proof);
    assert GoodEvent(w, v, Justif(proof)) by {
      ProofIsGood(w, v, proof);
    }
    StepKeepsGood(w, v, Justif(proof));
    BufferedStays(w, v1, events, n);
    var u := Run(v1, events);
    KeptProof(v1, u, n);
    RunKeepsGood(w, v1, events);
    if Triage(u, n) == Some(Process) && n > u.bestBeefy {
      PassEmits(w, u, n);
    }
  }

  lemma ProofIsGood(w: Setting, v: Voter, proof: SignedCommitment)
    requires VerifiedProof(w, proof)
    ensures GoodEvent(w, v, Justif(proof))
  {
  }

  lemma KeptProof(v: Voter, v': Voter, n: nat)
    requires Kept(v, v', n) && n in v.pendingJustifications
    ensures n in v'.pendingJustifications && v'.pendingJustifications[n] == v.pendingJustifications[n]
  {
  }

  lemma PassEmits(w: Setting, v: Voter, n: nat)
    requires Good(w, v) && n in v.pendingJustifications && Triage(v, n) == Some(Process) && n > v.bestBeefy
    ensures v.pendingJustifications[n] in Step(v, TryPending).emitted
  {
    hide ProcessJustifications, ProcessVotes, InOrder, Front, Buffers, Proved, Settled, InCharge, Recorded, Buffered, Cast;
    var v1 := ProcessJustifications(v);
    ProcessJustificationsGood(w, v);
    ProcessJustificationsEmits(w, v);
    InOrderHas(v.pendingJustifications, Max(Start(v), v.bestBeefy + 1), End(v) + 1, n);
    ProcessVotesGood(w, v1);
    var proof, later := v.pendingJustifications[n], ProcessVotes(v1).emitted;
    assert proof in v1.emitted && v1.emitted <= later;
    var i :| 0 <= i < |v1.emitted| && v1.emitted[i] == proof;
    assert later[i] == proof;
  }

  lemma VotersInOrder(v: Voter, r: RoundKey, from: nat, bound: nat)
    requires Filed(v.pendingVotes) && from <= r.number < bound
    ensures VotersOf(VotesFor(v, r.number), r) <= VotersOf(VotesInOrder(v.pendingVotes, from, bound), r)
  {
    hide VotesInOrder;
    forall vote <- VotesFor(v, r.number) | RoundOf(vote) == r
      ensures vote in VotesInOrder(v.pendingVotes, from, bound)
    {
      VotesInOrderExactly(v.pendingVotes, from, bound, vote);
      assert vote in multiset(v.pendingVotes[r.number]);
      assert vote in multiset(VotesInOrder(v.pendingVotes, from, bound));
    }
  }

  /** A pass over the buffers decides every round for which the votes on record and the buffered ones of its
      validators make up the threshold. */
  lemma BufferedVotesDecide(w: Setting, v: Voter, r: RoundKey)
    requires Good(w, v) && Undecided(v)
    requires var v1 := ProcessJustifications(v);
             && Triage(v1, r.number) == Some(Process) && r.number > v1.bestBeefy && v1.sessions != []
             && var s := v1.sessions[0];
                Quorum(s, Voters(s, r) + Entitled(s, VotersOf(VotesFor(v, r.number), r)))
    ensures var v' := Step(v, TryPending);
            v'.bestBeefy >= r.number || (v'.sessions != [] && v'.sessions[0].start > r.number)
  {
    hide *;
    var v1 := ProcessJustifications(v);
    PendingInTurn(w, v);
    ProcessJustificationsGood(w, v);
    ProcessJustificationsCarries(w, v, r);
    CarriedUndecided(v, v1, r);
    ProcessVotesCarries(w, v1, r);
    ProcessVotesGood(w, v1);
    var s, votes := v1.sessions[0], VotesInOrder(v1.pendingVotes, Start(v1), End(v1) + 1);
    InInterval(v1, r.number);
    VotersInOrder(v, r, Start(v1), End(v1) + 1);
    EntitledMore(s, VotersOf(VotesFor(v, r.number), r), VotersOf(votes, r));
    QuorumOfMore(s, Voters(s, r) + Entitled(s, VotersOf(VotesFor(v, r.number), r)), Voters(s, r) + Entitled(s, VotersOf(votes, r)));
    QuorumDecides(w, v1, ProcessVotes(v1), r, VotersOf(votes, r));
    StepOfPass(v);
  }

  lemma StepOfPass(v: Voter)
    ensures Step(v, TryPending) == ProcessPending(v)
  {
  }

  lemma InInterval(v: Voter, n: nat)
    requires Triage(v, n) == Some(Process)
    ensures v.sessions != [] && Start(v) <= n <= End(v)
  {
  }

  lemma EntitledMore(s: Session, ids: set<AuthorityId>, more: set<AuthorityId>)
    requires ids <= more
    ensures Entitled(s, ids) <= Entitled(s, more)
  {
  }

  lemma CarriedUndecided(v: Voter, v': Voter, r: RoundKey)
    requires v.sessions != [] && v'.sessions != [] && Carries(v, v', r, {}) && Undecided(v)
    ensures Undecided(v')
  {
  }
}

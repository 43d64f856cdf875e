/** Theorems about every run of the voter. */
module VoterRuns {
  import opened Basics
  import opened BeefyPrimitives
  import opened Justification
  import opened Rounds
  import opened VoterModel
  import opened VoterInvariant
  import opened VoterSafety
  import opened VoterPending
  import VoteTarget

  // ----- GRANDPA finality

  /** A notification carries on where the last one stopped, and its headers announce the sets in charge. */
  ghost predicate GenuineHeaders(w: Setting, grandpa: nat, headers: seq<Header>)
  {
    forall i :: 0 <= i < |headers| ==>
      var n := headers[i].number;
      && n == grandpa + 1 + i
      && headers[i].change == (if w.announces(n) then Some(w.setAt(n)) else None)
      && (!w.announces(n) ==> w.setAt(n) == w.setAt(n - 1))
  }

  /** The front session stays, or makes room for an untouched one that starts later. */
  ghost predicate SessionsMoved(v: Voter, v': Voter, grandpa: nat)
    requires v.sessions != [] && v'.sessions != []
  {
    v'.sessions[0] == v.sessions[0] || (v'.sessions[0].start > grandpa && v'.sessions[0].rounds == map[])
  }

  lemma StartSessionsNext(v: Voter, headers: seq<Header>)
    ensures headers == [] ==> StartSessions(v, headers) == v
    ensures headers != [] ==>
              var last, v1 := headers[|headers| - 1], StartSessions(v, headers[..|headers| - 1]);
              StartSessions(v, headers) == if last.change.Some? then AddSession(v1, NewSession(last.number, last.change.value)) else v1
  {
  }

  lemma LastOfHeaders(w: Setting, grandpa: nat, headers: seq<Header>)
    requires GenuineHeaders(w, grandpa, headers) && headers != []
    ensures var last, n := headers[|headers| - 1], grandpa + |headers|;
            && GenuineHeaders(w, grandpa, headers[..|headers| - 1]) && last.number == n
            && last.change == (if w.announces(n) then Some(w.setAt(n)) else None)
            && (!w.announces(n) ==> w.setAt(n) == w.setAt(n - 1))
  {
  }

  lemma UpToIsValid(w: Setting, v: Voter, upTo: nat)
    requires GoodUpTo(w, v, upTo)
    ensures Queue(v) && Front(v) && v.sessions != []
  {
  }

  lemma SessionsUnmoved(v: Voter, grandpa: nat)
    requires v.sessions != []
    ensures SessionsMoved(v, v, grandpa)
  {
  }

  lemma SessionsMoveOn(v: Voter, v1: Voter, n: nat, vs: ValidatorSet, grandpa: nat)
    requires v.sessions != [] && Queue(v1) && Front(v1) && SessionsMoved(v, v1, grandpa) && n > grandpa
    ensures var v' := AddSession(v1, NewSession(n, vs));
            v'.sessions != [] && v' == v1.(sessions := v'.sessions) && SessionsMoved(v, v', grandpa)
  {
    hide Queue, Front;
    AddSessionShape(v1, NewSession(n, vs));
  }

  lemma {:induction false} StartSessionsGood(w: Setting, v: Voter, grandpa: nat, headers: seq<Header>)
    requires GoodUpTo(w, v, grandpa) && grandpa + |headers| <= v.bestGrandpa
    requires GenuineHeaders(w, grandpa, headers)
    ensures var v' := StartSessions(v, headers);
            && GoodUpTo(w, v', grandpa + |headers|) && v'.sessions != []
            && v' == v.(sessions := v'.sessions)
            && SessionsMoved(v, v', grandpa)
    decreases |headers|
  {
    hide *;
    UpToIsValid(w, v, grandpa);
    StartSessionsNext(v, headers);
    if headers == [] {
      SessionsUnmoved(v, grandpa);
    } else {
      var last := |headers| - 1;
      var v1 := StartSessions(v, headers[..last]);
      LastOfHeaders(w, grandpa, headers);
      StartSessionsGood(w, v, grandpa, headers[..last]);
      var n := headers[last].number;
      if w.announces(n) {
        NewSessionKeepsGood(w, v1, n);
        UpToIsValid(w, v1, n - 1);
        SessionsMoveOn(v, v1, n, w.setAt(n), grandpa);
      } else {
        SameSessionKeepsGood(w, v1, n);
      }
    }
  }

  lemma RaisedGrandpa(w: Setting, v: Voter, best: nat)
    requires Good(w, v) && best > v.bestGrandpa
    ensures GoodUpTo(w, v.(bestGrandpa := best), v.bestGrandpa)
  {
    hide VerifiedProof, VerifiedVote, AllValid, SessionInv, SelfVoted, Settled;
    var v' := v.(bestGrandpa := best);
    assert v'.gossiped == v.gossiped;
    StillSettled(w, v, v');
  }

  lemma StillSettled(w: Setting, v: Voter, v': Voter)
    requires Settled(w, v, v.bestGrandpa) && v'.emitted == v.emitted && v'.sessions == v.sessions
    ensures Settled(w, v', v.bestGrandpa)
  {
    assert forall n :: (Emitted(v, n) <==> Emitted(v', n)) && (Queued(v, n) <==> Queued(v', n));
  }

  lemma NotificationStarts(v: Voter, route: seq<Header>, header: Header)
    ensures FinalityNotification(v, route, header) ==
            if header.number > v.bestGrandpa then StartSessions(v.(bestGrandpa := header.number), route + [header]) else v
  {
  }

  lemma LastHeader(w: Setting, grandpa: nat, route: seq<Header>, header: Header)
    requires GenuineHeaders(w, grandpa, route + [header])
    ensures header.number == grandpa + 1 + |route|
  {
    assert (route + [header])[|route|] == header;
  }

  lemma SessionsMovedFrom(v: Voter, u: Voter, v': Voter, grandpa: nat)
    requires v.sessions != [] && v'.sessions != [] && u.sessions == v.sessions && SessionsMoved(v, v', grandpa)
    ensures SessionsMoved(u, v', grandpa)
  {
  }

  lemma RaisedAdvances(w: Setting, v: Voter, best: nat, v': Voter)
    requires VoterInv(v) && best > v.bestGrandpa && GoodUpTo(w, v', best) && v' == v.(bestGrandpa := best, sessions := v'.sessions)
    requires SessionsMoved(v, v', v.bestGrandpa)
    ensures Good(w, v') && Advances(v, v')
  {
    hide Front, Buffers, Proved, Settled, InCharge, Recorded, Buffered, Cast;
  }

  lemma FinalityKeepsGood(w: Setting, v: Voter, route: seq<Header>, header: Header)
    requires Good(w, v)
    requires header.number > v.bestGrandpa ==> GenuineHeaders(w, v.bestGrandpa, route + [header])
    ensures Good(w, FinalityNotification(v, route, header)) && Advances(v, FinalityNotification(v, route, header))
  {
    hide *;
    GoodIsValid(w, v);
    NotificationStarts(v, route, header);
    if header.number > v.bestGrandpa {
      var headers, v1 := route + [header], v.(bestGrandpa := header.number);
      LastHeader(w, v.bestGrandpa, route, header);
      RaisedGrandpa(w, v, header.number);
      StartSessionsGood(w, v1, v.bestGrandpa, headers);
      SessionsMovedFrom(v1, v, StartSessions(v1, headers), v.bestGrandpa);
      RaisedAdvances(w, v, header.number, StartSessions(v1, headers));
    } else {
      AdvancesNowhere(v);
    }
  }

  /** A new session for each announcing block of a range, in order. */
  ghost function Announced(w: Setting, from: nat, upTo: nat): (sessions: seq<Session>)
    decreases upTo
  {
    if upTo < from || upTo == 0 then []
    else Announced(w, from, upTo - 1) + if w.announces(upTo) then [NewSession(upTo, w.setAt(upTo))] else []
  }

  /** The queue with more sessions behind it; a finished front session makes room for them. */
  ghost function Extended(sessions: seq<Session>, more: seq<Session>): (r: seq<Session>)
  {
    if more == [] then sessions
    else if sessions != [] && sessions[0].mandatoryDone then more
    else sessions + more
  }

  lemma ExtendedBy(v: Voter, more: seq<Session>, v1: Voter, s: Session)
    requires v.sessions != [] && Queue(v1) && Front(v1) && v1.sessions == Extended(v.sessions, more)
    requires (forall m <- more :: !m.mandatoryDone) && !s.mandatoryDone
    ensures AddSession(v1, s).sessions == Extended(v.sessions, more + [s])
  {
    hide Queue, Front;
    AddSessionShape(v1, s);
    assert more != [] ==> more[0] in more && (more + [s])[0] == more[0];
    assert (v.sessions + more) + [s] == v.sessions + (more + [s]);
  }

  lemma {:induction false} AnnouncedAreOpen(w: Setting, from: nat, upTo: nat)
    ensures forall s <- Announced(w, from, upTo) :: !s.mandatoryDone
    decreases upTo
  {
    if from <= upTo && upTo > 0 {
      AnnouncedAreOpen(w, from, upTo - 1);
    }
  }

  lemma {:induction false} StartSessionsExactly(w: Setting, v: Voter, grandpa: nat, headers: seq<Header>)
    requires GoodUpTo(w, v, grandpa) && grandpa + |headers| <= v.bestGrandpa
    requires GenuineHeaders(w, grandpa, headers)
    ensures StartSessions(v, headers).sessions == Extended(v.sessions, Announced(w, grandpa + 1, grandpa + |headers|))
    decreases |headers|
  {
    hide GoodUpTo, GenuineHeaders, AddSession, StartSessions, Extended;
    StartSessionsNext(v, headers);
    if headers == [] {
      assert Extended(v.sessions, []) == v.sessions by {
        ExtendedByNothing(v.sessions);
      }
    } else {
      var last := |headers| - 1;
      var v1 := StartSessions(v, headers[..last]);
      LastOfHeaders(w, grandpa, headers);
      StartSessionsExactly(w, v, grandpa, headers[..last]);
      StartSessionsGood(w, v, grandpa, headers[..last]);
      UpToIsValid(w, v, grandpa);
      UpToIsValid(w, v1, grandpa + last);
      var n := headers[last].number;
      if w.announces(n) {
        AnnouncedAreOpen(w, grandpa + 1, grandpa + last);
        ExtendedBy(v, Announced(w, grandpa + 1, grandpa + last), v1, NewSession(n, w.setAt(n)));
      } else {
        assert Announced(w, grandpa + 1, n) == Announced(w, grandpa + 1, n - 1) + [] == Announced(w, grandpa + 1, n - 1);
      }
    }
  }

  lemma ExtendedByNothing(sessions: seq<Session>)
    ensures Extended(sessions, []) == sessions
  {
  }

  /** A finality notification moves the best GRANDPA block and queues a session for each block that announces a
      validator set on the way, in order; a finished session makes room for them. Nothing else changes. */
  lemma FinalityExactly(w: Setting, v: Voter, route: seq<Header>, header: Header)
    requires Good(w, v) && header.number > v.bestGrandpa && GenuineHeaders(w, v.bestGrandpa, route + [header])
    ensures FinalityNotification(v, route, header) ==
            v.(bestGrandpa := header.number, sessions := Extended(v.sessions, Announced(w, v.bestGrandpa + 1, header.number)))
  {
    hide *;
    NotificationStarts(v, route, header);
    var headers, v1 := route + [header], v.(bestGrandpa := header.number);
    LastHeader(w, v.bestGrandpa, route, header);
    RaisedGrandpa(w, v, header.number);
    StartSessionsGood(w, v1, v.bestGrandpa, headers);
    StartSessionsExactly(w, v1, v.bestGrandpa, headers);
  }

  // ----- steps and runs

  /** What may happen to a voter: finality goes forward along the chain, arriving votes and justifications
      have been verified, and the key store is honest. */
  ghost predicate GoodEvent(w: Setting, v: Voter, e: Event)
  {
    match e
    case Finality(route, header) => header.number > v.bestGrandpa ==> GenuineHeaders(w, v.bestGrandpa, route + [header])
    case Vote(vote) => ArrivingVote(w, v, vote)
    case Justif(proof) => VerifiedProof(w, proof)
    case TryPending => true
    case TryVote(ballot) => HonestBallot(w, v, ballot)
  }

  ghost predicate GoodEvents(w: Setting, v: Voter, events: seq<Event>)
    decreases |events|
  {
    events == [] || (GoodEvent(w, v, events[0]) && GoodEvents(w, Step(v, events[0]), events[1..]))
  }

  lemma StepKeepsGood(w: Setting, v: Voter, e: Event)
    requires Good(w, v) && GoodEvent(w, v, e)
    ensures Good(w, Step(v, e)) && Advances(v, Step(v, e))
  {
    hide FinalityNotification, HandleVote, BufferVote, Finalize, BufferJustification, ProcessJustifications, ProcessVotes, TryToVote;
    hide Front, Buffers, Proved, Settled, InCharge, Recorded, Buffered, Cast, VerifiedVote, VerifiedProof, Gossiped, HonestBallot, GenuineHeaders;
    match e
    case Finality(route, header) => FinalityKeepsGood(w, v, route, header);
    case Vote(vote) =>
      if Triage(v, vote.commitment.blockNumber) == Some(Process) {
        HandleVoteKeepsGood(w, v, RoundOf(vote), vote.id, vote.signature, false);
      } else if Triage(v, vote.commitment.blockNumber) == Some(Enqueue) {
        BufferVoteKeepsGood(w, v, vote);
      }
    case Justif(proof) =>
      if Triage(v, proof.commitment.blockNumber) == Some(Process) {
        FinalizeKeepsGood(w, v, proof);
      } else if Triage(v, proof.commitment.blockNumber) == Some(Enqueue) {
        BufferJustificationKeepsGood(w, v, proof);
      }
    case TryPending =>
      ProcessJustificationsGood(w, v);
      ProcessVotesGood(w, ProcessJustifications(v));
    case TryVote(ballot) => TryToVoteKeepsGood(w, v, ballot);
  }

  /** Every run keeps the voter good and moves it forward only. */
  lemma {:induction false} RunKeepsGood(w: Setting, v: Voter, events: seq<Event>)
    requires Good(w, v) && GoodEvents(w, v, events)
    ensures Good(w, Run(v, events)) && Advances(v, Run(v, events))
    decreases |events|
  {
    hide Step, GoodEvent, Front, Buffers, Proved, Settled, InCharge, Recorded, Buffered, Cast;
    if events != [] {
      StepKeepsGood(w, v, events[0]);
      RunKeepsGood(w, Step(v, events[0]), events[1..]);
    }
  }

  // ----- theorems

  /** No run finalizes past a mandatory block without having emitted a proof for it. */
  lemma MandatoryNeverSkipped(w: Setting, v: Voter, events: seq<Event>, n: nat)
    requires Good(w, v) && GoodEvents(w, v, events)
    requires Mandatory(w, n) && w.since < n <= Run(v, events).bestBeefy
    ensures exists e <- Run(v, events).emitted :: e.commitment.blockNumber == n && VerifiedProof(w, e)
  {
    hide Run, GoodEvents, VerifiedProof, SessionInv, InCharge, Recorded, Buffered, Cast, Buffers;
    RunKeepsGood(w, v, events);
    var v' := Run(v, events);
    assert Emitted(v', n) || Queued(v', n);
  }

  /** A block number once below the accepted interval is discarded ever after, and one no longer beyond it
      is never buffered again. */
  lemma DiscardedForever(w: Setting, v: Voter, events: seq<Event>, n: nat)
    requires Good(w, v) && GoodEvents(w, v, events)
    ensures Triage(v, n) == Some(Discard) ==> Triage(Run(v, events), n) == Some(Discard)
    ensures Triage(v, n) != Some(Enqueue) ==> Triage(Run(v, events), n) != Some(Enqueue)
  {
    hide Run, GoodEvents, Front, Buffers, Proved, Settled, InCharge, Recorded, Buffered, Cast;
    RunKeepsGood(w, v, events);
  }

  /** A node never votes twice in a round; if the payload depends on the block number alone, it never votes
      twice on a block number. */
  lemma VotesOnce(w: Setting, v: Voter, events: seq<Event>, payloadAt: nat -> Payload, i: nat, j: nat)
    requires Good(w, v) && GoodEvents(w, v, events)
    requires i < j < |Run(v, events).gossiped|
    ensures var g := Run(v, events).gossiped;
            && RoundOf(g[i]) != RoundOf(g[j])
            && ((forall vote <- g :: vote.commitment.payload == payloadAt(vote.commitment.blockNumber)) ==>
                g[i].commitment.blockNumber != g[j].commitment.blockNumber)
  {
    hide Run, GoodEvents, Front, Buffers, Proved, Settled, InCharge, Recorded, Buffered;
    RunKeepsGood(w, v, events);
  }

  /** Two nodes never emit proofs for different payloads of a block, whatever their runs, while at most a
      third of its validators is faulty. */
  lemma NodesAgree(w1: Setting, v1: Voter, run1: seq<Event>, w2: Setting, v2: Voter, run2: seq<Event>,
                   faulty: set<AuthorityId>, e1: SignedCommitment, e2: SignedCommitment)
    requires Good(w1, v1) && GoodEvents(w1, v1, run1) && Good(w2, v2) && GoodEvents(w2, v2, run2)
    requires w1.valid == w2.valid && w1.setAt == w2.setAt
    requires e1 in Run(v1, run1).emitted && e2 in Run(v2, run2).emitted
    requires e1.commitment.blockNumber == e2.commitment.blockNumber
    requires var vs := w1.setAt(e1.commitment.blockNumber);
             && Distinct(vs.validators) && |vs.validators| > 0 && |faulty| <= Faulty(|vs.validators|)
             && forall id <- vs.validators :: id !in faulty ==> SignsOnce(w1.valid, id)
    ensures e1.commitment == e2.commitment
  {
    hide Run, GoodEvents, Queue, Front, Buffers, Settled, InCharge, Recorded, Buffered, Cast, VerifyWithValidatorSet, SignsOnce, Distinct;
    RunKeepsGood(w1, v1, run1);
    RunKeepsGood(w2, v2, run2);
    Agreement(w1.valid, w1.setAt(e1.commitment.blockNumber), faulty, e1.commitment.blockNumber, e1, e2);
  }

  /** Handling the buffers loses nothing that may still be needed. Beyond the interval everything stays. Of the
      justifications within it exactly those above the best BEEFY block are emitted, in order; of the votes
      within it, as it is after that, each is handled once, in order. */
  lemma PendingIsPartitioned(w: Setting, v: Voter, x: VoteMessage)
    requires Good(w, v)
    ensures var v1, v' := ProcessJustifications(v), ProcessPending(v);
            && v1.sessions != []
            && v'.pendingJustifications == Beyond(v.pendingJustifications, End(v))
            && v1.emitted == v.emitted + InOrder(v.pendingJustifications, Max(Start(v), v.bestBeefy + 1), End(v) + 1)
            && v'.pendingVotes == Beyond(v.pendingVotes, End(v1))
            && var handled, n := VotesInOrder(v.pendingVotes, Start(v1), End(v1) + 1), x.commitment.blockNumber;
               && v' == HandleAll(v1.(pendingVotes := Beyond(v.pendingVotes, End(v1))), handled)
               && multiset(handled)[x] == (if n in v.pendingVotes && Start(v1) <= n <= End(v1) then multiset(v.pendingVotes[n])[x] else 0)
               && Ascending(handled, End(v1) + 1)
  {
    hide *;
    var v1 := ProcessJustifications(v);
    PendingInTurn(w, v);
    ProcessJustificationsGood(w, v);
    ProcessJustificationsEmits(w, v);
    GoodIsValid(w, v1);
    ProcessVotesGood(w, v1);
    ProcessVotesInOrder(v1);
    VotesInOrderExactly(v.pendingVotes, Start(v1), End(v1) + 1, x);
    VotesInOrderAscend(v.pendingVotes, Start(v1), End(v1) + 1);
  }

  lemma PendingInTurn(w: Setting, v: Voter)
    requires Good(w, v)
    ensures ProcessPending(v) == ProcessVotes(ProcessJustifications(v)) && v.sessions != [] && Filed(v.pendingVotes)
  {
  }

  /** A vote just cast would be cast again exactly if it was not recorded: the signer is no validator of the
      session, or a vote in its name was there before. */
  lemma VotesAgainExactly(v: Voter, b: Ballot)
    requires VoterInv(v) && OwnVote(v, b).Some?
    ensures var vote, s := OwnVote(v, b).value, v.sessions[0];
            OwnVote(TryToVote(v, b), b) == OwnVote(v, b) <==>
            || vote.id !in s.validatorSet.validators
            || (RoundOf(vote) in s.rounds && vote.id in s.rounds[RoundOf(vote)].votes)
  {
    hide Buffers, VoteTarget.Target;
    OwnVoteIsAccepted(v, b);
    var vote := OwnVote(v, b).value;
    if AcceptsVote(v.sessions[0], RoundOf(vote), vote.id) {
      hide HandleVote, Front;
      HandledVoteIsMarked(v, RoundOf(vote), vote.id, vote.signature);
      HandleVoteKeepsInv(v, RoundOf(vote), vote.id, vote.signature, true);
      var v' := TryToVote(v, b);
      if OwnVote(v', b) == Some(vote) {
        OwnVoteIsAccepted(HandleVote(v, RoundOf(vote), vote.id, vote.signature, true), b);
        assert false;
      }
    }
  }

  lemma MandatoryStep(v: Voter, proof: SignedCommitment)
    requires VoterInv(v) && !v.sessions[0].mandatoryDone && proof.commitment.blockNumber == Start(v)
    ensures var v' := Step(v, Justif(proof));
            && VoterInv(v') && v'.emitted == v.emitted + [proof] && v'.bestBeefy == Start(v)
            && v'.sessions == (if |v.sessions| > 1 then v.sessions[1..] else [Conclude(v.sessions[0], Start(v))])
            && (|v.sessions| > 1 ==> !v'.sessions[0].mandatoryDone)
  {
    hide Finalize, Buffers;
    FinalizeShape(v, proof);
    FinalizeKeepsInv(v, proof);
  }

  function Justifs(proofs: seq<SignedCommitment>): (events: seq<Event>)
  {
    seq(|proofs|, i requires 0 <= i < |proofs| => Justif(proofs[i]))
  }

  /** A lagging voter that gets the proofs of its pending mandatory blocks is up to date. */
  lemma {:induction false} QueueDrains(v: Voter, proofs: seq<SignedCommitment>)
    requires VoterInv(v) && !v.sessions[0].mandatoryDone && |proofs| == |v.sessions| > 0
    requires forall i :: 0 <= i < |proofs| ==> proofs[i].commitment.blockNumber == v.sessions[i].start
    ensures var v', last := Run(v, Justifs(proofs)), v.sessions[|v.sessions| - 1];
            && v'.emitted == v.emitted + proofs && v'.bestBeefy == last.start
            && v'.sessions == [Conclude(last, last.start)]
    decreases |proofs|
  {
    hide Step, Queue, Front, Buffers, Conclude;
    MandatoryStep(v, proofs[0]);
    var v1 := Step(v, Justif(proofs[0]));
    assert Justifs(proofs)[1..] == Justifs(proofs[1..]);
    if |v.sessions| > 1 {
      QueueDrains(v1, proofs[1..]);
      assert v.emitted + [proofs[0]] + proofs[1..] == v.emitted + proofs;
    } else {
      assert proofs == [proofs[0]];
    }
  }
}

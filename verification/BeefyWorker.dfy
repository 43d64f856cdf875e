/** The voting oracle and the BEEFY worker as objects, each method proved against the voter model. */
module BeefyWorker {
  import opened Basics
  import opened BeefyPrimitives
  import opened Justification
  import opened Rounds
  import opened VoterModel
  import VoteTarget

  ghost function Views(sessions: seq<SessionRounds>): (r: seq<Session>)
    reads sessions
    ensures |r| == |sessions|
    ensures forall i :: 0 <= i < |sessions| ==> r[i] == sessions[i].View()
  {
    if sessions == [] then [] else [sessions[0].View()] + Views(sessions[1..])
  }

  lemma {:induction false} UnfinishedAppend(a: seq<Session>, s: Session)
    ensures Unfinished(a + [s]) == Unfinished(a) + if s.mandatoryDone then [] else [s]
  {
    if a == [] {
      assert a + [s] == [s];
    } else {
      UnfinishedAppend(a[1..], s);
      assert (a + [s])[1..] == a[1..] + [s];
    }
  }

  lemma ViewsAppend(sessions: seq<SessionRounds>, s: SessionRounds)
    ensures Views(sessions + [s]) == Views(sessions) + [s.View()]
  {
  }

  ghost predicate PickedFrom(kept: seq<SessionRounds>, sessions: seq<SessionRounds>, i: nat)
  {
    i <= |sessions| && Distinct(kept) && forall s <- kept :: s in sessions[..i]
  }

  lemma PickNext(kept: seq<SessionRounds>, sessions: seq<SessionRounds>, i: nat)
    requires PickedFrom(kept, sessions, i) && i < |sessions| && Distinct(sessions)
    ensures PickedFrom(kept, sessions, i + 1) && PickedFrom(kept + [sessions[i]], sessions, i + 1)
  {
    assert sessions[..i + 1] == sessions[..i] + [sessions[i]];
    assert sessions[i] !in kept;
  }

  /** The unfinished sessions, in order. */
  method Retain(sessions: seq<SessionRounds>) returns (kept: seq<SessionRounds>)
    requires Distinct(sessions)
    ensures PickedFrom(kept, sessions, |sessions|) && Views(kept) == Unfinished(Views(sessions))
  {
    kept := [];
    ghost var views := Views(sessions);
    for i := 0 to |sessions|
      invariant PickedFrom(kept, sessions, i)
      invariant Views(kept) == Unfinished(views[..i])
    {
      hide Unfinished, Views, PickedFrom, Distinct;
      assert views[..i + 1] == views[..i] + [views[i]];
      UnfinishedAppend(views[..i], views[i]);
      PickNext(kept, sessions, i);
      if !sessions[i].mandatoryDone {
        ViewsAppend(kept, sessions[i]);
        kept := kept + [sessions[i]];
      }
    }
    assert views[..|sessions|] == views;
  }

  class VoterOracle {
    var sessions: seq<SessionRounds>
    var minBlockDelta: nat

    ghost predicate Valid()
      reads this
    {
      Distinct(sessions)
    }

    ghost function Repr(): (r: set<SessionRounds>)
      reads this
    {
      set s <- sessions
    }

    constructor (sessions: seq<SessionRounds>, minBlockDelta: nat)
      requires Distinct(sessions)
      ensures Valid() && this.sessions == sessions && this.minBlockDelta == minBlockDelta
    {
      this.sessions, this.minBlockDelta := sessions, minBlockDelta;
    }

    /** Drops the finished sessions when there is more than one. */
    method TryPrune()
      requires Valid()
      modifies this`sessions
      ensures Valid() && Views(sessions) == Prune(old(Views(sessions)))
      ensures Repr() <= old(Repr())
    {
      if |sessions| > 1 {
        sessions := Retain(sessions);
      }
    }

    method AddSession(rounds: SessionRounds)
      requires Valid() && rounds !in sessions
      modifies this`sessions
      ensures Valid() && Views(sessions) == Prune(old(Views(sessions)) + [old(rounds.View())])
      ensures Repr() <= old(Repr()) + {rounds}
    {
      sessions := sessions + [rounds];
      assert Views(sessions) == old(Views(sessions)) + [rounds.View()];
      TryPrune();
    }

    /** Concludes a block in the front session, if there is one. */
    method Finalize(block: nat) returns (ok: bool)
      requires Valid()
      modifies this`sessions, Repr()
      ensures Valid() && ok == (old(sessions) != [])
      ensures ok ==> Views(sessions) == Prune(old(Views(sessions))[0 := Conclude(old(sessions[0].View()), block)])
      ensures !ok ==> sessions == old(sessions)
      ensures Repr() <= old(Repr())
    {
      if sessions == [] {
        return false;
      }
      sessions[0].ConcludeRound(block);
      assert Views(sessions) == old(Views(sessions))[0 := sessions[0].View()];
      TryPrune();
      return true;
    }

    method AcceptedInterval(bestGrandpa: nat) returns (interval: Option<(nat, nat)>)
      ensures forall v: Voter | v.sessions == Views(sessions) && v.bestGrandpa == bestGrandpa ::
                interval == VoterModel.AcceptedInterval(v)
    {
      if sessions == [] {
        return None;
      }
      if sessions[0].mandatoryDone {
        return Some((sessions[0].sessionStart, bestGrandpa));
      }
      return Some((sessions[0].sessionStart, sessions[0].sessionStart));
    }
  }

  class Worker {
    const oracle: VoterOracle
    var bestGrandpa: nat
    var bestBeefy: nat
    var pendingVotes: map<nat, seq<VoteMessage>>
    var pendingJustifications: map<nat, SignedCommitment>
    // what went out to the RPC layer and to the gossip engine
    var emitted: seq<SignedCommitment>
    var gossiped: seq<VoteMessage>

    ghost predicate Valid()
      reads this, oracle
    {
      oracle.Valid()
    }

    ghost function View(): (v: Voter)
      reads this, oracle, oracle.sessions
    {
      Voter(bestGrandpa, bestBeefy, Views(oracle.sessions), oracle.minBlockDelta, pendingVotes, pendingJustifications, emitted, gossiped)
    }

    constructor (oracle: VoterOracle, bestGrandpa: nat, bestBeefy: nat)
      requires oracle.Valid()
      ensures Valid() && this.oracle == oracle
      ensures View() == Voter(bestGrandpa, bestBeefy, Views(oracle.sessions), oracle.minBlockDelta, map[], map[], [], [])
    {
      this.oracle, this.bestGrandpa, this.bestBeefy := oracle, bestGrandpa, bestBeefy;
      pendingVotes, pendingJustifications, emitted, gossiped := map[], map[], [], [];
    }

    method FinalizeProof(proof: SignedCommitment)
      requires Valid()
      modifies this`bestBeefy, this`emitted, oracle`sessions, oracle.Repr()
      ensures Valid() && View() == Finalize(old(View()), proof)
      ensures oracle.Repr() <= old(oracle.Repr())
    {
      var n := proof.commitment.blockNumber;
      var ok := oracle.Finalize(n);
      if ok && n > bestBeefy {
        bestBeefy := n;
        emitted := emitted + [proof];
      }
    }

    method ProcessVote(r: RoundKey, id: AuthorityId, signature: Signature, selfVote: bool)
      requires Valid()
      modifies this`bestBeefy, this`emitted, oracle`sessions, oracle.Repr()
      ensures Valid() && View() == HandleVote(old(View()), r, id, signature, selfVote)
      ensures oracle.Repr() <= old(oracle.Repr())
    {
      if oracle.sessions == [] {
        return;
      }
      var rounds := oracle.sessions[0];
      var added := rounds.RecordVote(r, id, signature, selfVote);
      assert Views(oracle.sessions) == old(Views(oracle.sessions))[0 := rounds.View()];
      if added {
        ghost var recorded := rounds.View();
        var signatures := rounds.ShouldConclude(r);
        assert Views(oracle.sessions) == old(Views(oracle.sessions))[0 := rounds.View()];
        if signatures.Some? {
          var proof := SignedCommitment(Commitment(r.payload, r.number, rounds.validatorSet.id), signatures.value);
          assert proof == Proof(recorded.validatorSet, r, recorded.rounds[r].votes);
          FinalizeProof(proof);
        }
      }
    }

    method TriageRound(round: nat) returns (action: Option<RoundAction>)
      ensures action == Triage(View(), round)
    {
      var interval := oracle.AcceptedInterval(bestGrandpa);
      if interval.None? {
        return None;
      }
      var (start, end) := interval.value;
      if start <= round && round <= end {
        return Some(Process);
      }
      return Some(if round > end then Enqueue else Discard);
    }

    method TriageIncomingVote(vote: VoteMessage)
      requires Valid()
      modifies this, oracle`sessions, oracle.Repr()
      ensures Valid() && View() == IncomingVote(old(View()), vote)
    {
      hide HandleVote;
      var n := vote.commitment.blockNumber;
      var action := TriageRound(n);
      if action == Some(Process) {
        ProcessVote(RoundKey(vote.commitment.payload, n), vote.id, vote.signature, false);
      } else if action == Some(Enqueue) && |pendingVotes| < MAX_BUFFERED_VOTE_ROUNDS {
        var votes := if n in pendingVotes then pendingVotes[n] else [];
        if |votes| < MAX_BUFFERED_VOTES_PER_ROUND {
          votes := votes + [vote];
        }
        pendingVotes := pendingVotes[n := votes];
      }
    }

    method TriageIncomingJustification(proof: SignedCommitment)
      requires Valid()
      modifies this, oracle`sessions, oracle.Repr()
      ensures Valid() && View() == IncomingJustification(old(View()), proof)
    {
      hide Finalize;
      var n := proof.commitment.blockNumber;
      var action := TriageRound(n);
      if action == Some(Process) {
        FinalizeProof(proof);
      } else if action == Some(Enqueue) && |pendingJustifications| < MAX_BUFFERED_JUSTIFICATIONS {
        if n !in pendingJustifications {
          pendingJustifications := pendingJustifications[n := proof];
        }
      }
    }

    method HandleFinalityNotification(route: seq<Header>, header: Header)
      requires Valid()
      modifies this`bestGrandpa, oracle`sessions
      ensures Valid() && View() == FinalityNotification(old(View()), route, header)
    {
      if header.number > bestGrandpa {
        bestGrandpa := header.number;
        ghost var v := View();
        var headers := route + [header];
        for i := 0 to |headers|
          invariant Valid() && View() == StartSessions(v, headers[..i])
          invariant fresh(oracle.Repr() - old(oracle.Repr()))
        {
          hide AddSession, Views;
          assert headers[..i + 1][..i] == headers[..i];
          if headers[i].change.Some? {
            InitSessionAt(headers[i].change.value, headers[i].number);
          }
        }
        assert headers[..|headers|] == headers;
      }
    }

    method InitSessionAt(vs: ValidatorSet, sessionStart: nat)
      requires Valid()
      modifies oracle`sessions
      ensures Valid() && View() == AddSession(old(View()), NewSession(sessionStart, vs))
      ensures fresh(oracle.Repr() - old(oracle.Repr()))
    {
      var rounds := new SessionRounds(sessionStart, vs);
      oracle.AddSession(rounds);
    }

    method FinalizeProofs(proofs: map<nat, SignedCommitment>, start: nat, end: nat)
      requires Valid()
      modifies this`bestBeefy, this`emitted, oracle`sessions, oracle.Repr()
      ensures Valid() && View() == FinalizeAll(old(View()), proofs, start, end + 1)
      ensures oracle.Repr() <= old(oracle.Repr())
    {
      hide Finalize;
      var n := start;
      while n <= end
        invariant start <= n && (n == start || n <= end + 1)
        invariant Valid() && View() == FinalizeAll(old(View()), proofs, start, n)
        invariant oracle.Repr() <= old(oracle.Repr())
      {
        if n in proofs {
          FinalizeProof(proofs[n]);
        }
        n := n + 1;
      }
    }

    method TryPendingJustifications()
      requires Valid()
      modifies this, oracle`sessions, oracle.Repr()
      ensures Valid() && View() == ProcessJustifications(old(View()))
      ensures oracle.Repr() <= old(oracle.Repr())
    {
      hide FinalizeAll, Views;
      var interval := oracle.AcceptedInterval(bestGrandpa);
      if interval.Some? && pendingJustifications != map[] {
        var (start, end) := interval.value;
        var proofs := Between(pendingJustifications, start, end);
        pendingJustifications := Beyond(pendingJustifications, end);
        FinalizeProofs(proofs, start, end);
      }
    }

    method ProcessVotesOf(votes: seq<VoteMessage>)
      requires Valid()
      modifies this`bestBeefy, this`emitted, oracle`sessions, oracle.Repr()
      ensures Valid() && View() == HandleAll(old(View()), votes)
      ensures oracle.Repr() <= old(oracle.Repr())
    {
      for i := 0 to |votes|
        invariant Valid() && View() == HandleAll(old(View()), votes[..i])
        invariant oracle.Repr() <= old(oracle.Repr())
      {
        hide HandleVote;
        assert votes[..i + 1][..i] == votes[..i];
        ProcessVote(RoundKey(votes[i].commitment.payload, votes[i].commitment.blockNumber), votes[i].id, votes[i].signature, false);
      }
      assert votes[..|votes|] == votes;
    }

    method ProcessRounds(votes: map<nat, seq<VoteMessage>>, start: nat, end: nat)
      requires Valid()
      modifies this`bestBeefy, this`emitted, oracle`sessions, oracle.Repr()
      ensures Valid() && View() == HandleRounds(old(View()), votes, start, end + 1)
      ensures oracle.Repr() <= old(oracle.Repr())
    {
      hide HandleAll;
      var n := start;
      while n <= end
        invariant start <= n && (n == start || n <= end + 1)
        invariant Valid() && View() == HandleRounds(old(View()), votes, start, n)
        invariant oracle.Repr() <= old(oracle.Repr())
      {
        if n in votes {
          ProcessVotesOf(votes[n]);
        }
        n := n + 1;
      }
    }

    method TryPendingVotes()
      requires Valid()
      modifies this, oracle`sessions, oracle.Repr()
      ensures Valid() && View() == ProcessVotes(old(View()))
      ensures oracle.Repr() <= old(oracle.Repr())
    {
      hide HandleRounds, Views;
      var interval := oracle.AcceptedInterval(bestGrandpa);
      if interval.Some? && pendingVotes != map[] {
        var (start, end) := interval.value;
        var votes := Between(pendingVotes, start, end);
        pendingVotes := Beyond(pendingVotes, end);
        ProcessRounds(votes, start, end);
      }
    }

    method TryPendingJustificationsAndVotes()
      requires Valid()
      modifies this, oracle`sessions, oracle.Repr()
      ensures Valid() && View() == ProcessPending(old(View()))
    {
      hide ProcessJustifications, ProcessVotes;
      TryPendingJustifications();
      TryPendingVotes();
    }

    /** Votes on the current target, if there is one and the environment supplies payload, key and signature. */
    method CastVote(b: Ballot)
      requires Valid()
      modifies this, oracle`sessions, oracle.Repr()
      ensures Valid() && View() == TryToVote(old(View()), b)
    {
      hide HandleVote;
      if oracle.sessions == [] {
        return;
      }
      var rounds := oracle.sessions[0];
      var target := VoteTarget.Target(bestGrandpa, bestBeefy, rounds.sessionStart, oracle.minBlockDelta);
      if target.None? || b.payload.None? {
        return;
      }
      if !ShouldSelfVote(rounds.View(), RoundKey(b.payload.value, target.value)) {
        return;
      }
      if b.id.None? || b.signature.None? {
        return;
      }
      var commitment := Commitment(b.payload.value, target.value, rounds.validatorSet.id);
      var message := VoteMessage(commitment, b.id.value, b.signature.value);
      ProcessVote(RoundKey(commitment.payload, commitment.blockNumber), message.id, message.signature, true);
      gossiped := gossiped + [message];
    }
  }
}

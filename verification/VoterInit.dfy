/** Building the voter state from the chain on first startup. */
module VoterInit {
  import opened Basics
  import opened BeefyPrimitives
  import opened Justification
  import opened Rounds
  import opened VoterModel
  import opened VoterInvariant
  import opened VoterSafety

  const GENESIS_AUTHORITY_SET_ID: nat := 0

  /** A block as the walk sees it: whether it has a BEEFY justification, the validator set its header
      announces, and the one its state holds, if that is still there. */
  datatype Block = Block(justified: bool, change: Option<ValidatorSet>, active: Option<ValidatorSet>)

  datatype InitError = StateUnavailable | NoValidatorSet | GenesisCheckFailed | InvalidChain

  datatype Result<+T> = Ok(value: T) | Err(error: InitError)

  // ----- the checks on a session queue

  ghost predicate CheckedQueue(sessions: seq<Session>)
  {
    && sessions != []
    && (forall s <- sessions :: s.validatorSet.validators != [] && s.start > 0)
    && (forall i, j :: 0 <= i < j < |sessions| ==>
          sessions[i].start < sessions[j].start && sessions[i].validatorSet.id < sessions[j].validatorSet.id)
    && (forall i :: 0 < i < |sessions| ==> !sessions[i].mandatoryDone)
  }

  method CheckSessions(sessions: seq<Session>) returns (ok: bool)
    ensures ok == CheckedQueue(sessions)
  {
    if sessions == [] {
      return false;
    }
    var prevStart := 0;
    var prevId := None;
    for i := 0 to |sessions|
      invariant prevStart == if i == 0 then 0 else sessions[i - 1].start
      invariant prevId == if i == 0 then None else Some(sessions[i - 1].validatorSet.id)
      invariant i > 0 ==> CheckedQueue(sessions[..i])
    {
      var s := sessions[i];
      assert i > 0 ==> sessions[i - 1] == sessions[..i][i - 1];
      if s.validatorSet.validators == [] || s.start <= prevStart || (prevId.Some? && s.validatorSet.id <= prevId.value) {
        return false;
      }
      if i != 0 && s.mandatoryDone {
        return false;
      }
      prevStart := s.start;
      prevId := Some(s.validatorSet.id);
    }
    assert sessions[..|sessions|] == sessions;
    return true;
  }

  // ----- what the walk should find

  /** Where the walk down from a block ends: at the latest justified block, else at block 1. */
  function Base(chain: seq<Block>, n: nat): (b: nat)
    requires n < |chain|
    ensures b <= n && (b <= 1 || chain[b].justified)
    ensures forall m | b < m <= n :: m > 1 && !chain[m].justified
  {
    if chain[n].justified || n <= 1 then n else Base(chain, n - 1)
  }

  /** A session for each authority change from a block on, in ascending order. */
  function Changes(chain: seq<Block>, from: nat): (sessions: seq<Session>)
    requires from <= |chain|
    decreases |chain| - from
  {
    if from == |chain| then []
    else (if chain[from].change.Some? then [NewSession(from, chain[from].change.value)] else []) + Changes(chain, from + 1)
  }

  ghost predicate StatesAvailable(chain: seq<Block>, base: nat)
  {
    forall n | base <= n < |chain| - 1 :: chain[n].active.Some?
  }

  /** The sessions to vote on: all authority changes above the base, after the base itself where it has no
      proof yet or nothing else is to be voted on. */
  function InitialQueue(chain: seq<Block>, base: nat, vs: ValidatorSet): (sessions: seq<Session>)
    requires base < |chain|
  {
    var above := Changes(chain, base + 1);
    if !chain[base].justified then [NewSession(base, vs)] + above
    else if above == [] then [Conclude(NewSession(base, vs), base)]
    else above
  }

  /** The best block that has a proof when the walk ends, zero if none has. */
  function InitialBeefy(chain: seq<Block>): (n: nat)
    requires chain != []
  {
    var base := Base(chain, |chain| - 1);
    if chain[base].justified then base else 0
  }

  ghost function Init(chain: seq<Block>, minDelta: nat): (r: Result<Voter>)
    requires chain != []
  {
    var best := |chain| - 1;
    var base := Base(chain, best);
    if !StatesAvailable(chain, base) || (base == 0 && !chain[base].justified) then Err(StateUnavailable)
    else if chain[base].active.None? then Err(NoValidatorSet)
    else if !chain[base].justified && chain[base].active.value.id != GENESIS_AUTHORITY_SET_ID then Err(GenesisCheckFailed)
    else
      var sessions := InitialQueue(chain, base, chain[base].active.value);
      if !CheckedQueue(sessions) then Err(InvalidChain)
      else Ok(Voter(best, InitialBeefy(chain), sessions, Max(minDelta, 1), map[], map[], [], []))
  }

  method CheckedNew(bestGrandpa: nat, bestBeefy: nat, sessions: seq<Session>, minDelta: nat) returns (r: Result<Voter>)
    ensures r == if CheckedQueue(sessions)
                 then Ok(Voter(bestGrandpa, bestBeefy, sessions, Max(minDelta, 1), map[], map[], [], []))
                 else Err(InvalidChain)
  {
    var ok := CheckSessions(sessions);
    if !ok {
      return Err(InvalidChain);
    }
    return Ok(Voter(bestGrandpa, bestBeefy, sessions, Max(minDelta, 1), map[], map[], [], []));
  }

  lemma BaseIsUnique(chain: seq<Block>, n: nat, best: nat)
    requires n <= best < |chain| && (chain[n].justified || n <= 1)
    requires forall m | n < m <= best :: m > 1 && !chain[m].justified
    ensures Base(chain, best) == n
  {
  }

  /** Walks down the chain from its best block. */
  method InitializeVoterState(chain: seq<Block>, minDelta: nat) returns (r: Result<Voter>)
    requires chain != []
    ensures r == Init(chain, minDelta)
  {
    hide CheckedQueue;
    var sessions: seq<Session> := [];
    var best: nat := |chain| - 1;
    var n: nat := best;
    while true
      invariant n <= best && sessions == Changes(chain, n + 1)
      invariant forall m | n < m <= best :: m > 1 && !chain[m].justified
      invariant StatesAvailable(chain, n)
      decreases n
    {
      if chain[n].justified {
        BaseIsUnique(chain, n, best);
        if sessions == [] {
          if chain[n].active.None? {
            return Err(NoValidatorSet);
          }
          sessions := [Conclude(NewSession(n, chain[n].active.value), n)];
        }
        r := CheckedNew(best, n, sessions, minDelta);
        return;
      }
      if n == 1 {
        BaseIsUnique(chain, n, best);
        if chain[n].active.None? {
          return Err(NoValidatorSet);
        }
        if chain[n].active.value.id != GENESIS_AUTHORITY_SET_ID {
          return Err(GenesisCheckFailed);
        }
        sessions := [NewSession(n, chain[n].active.value)] + sessions;
        r := CheckedNew(best, 0, sessions, minDelta);
        return;
      }
      if chain[n].change.Some? {
        sessions := [NewSession(n, chain[n].change.value)] + sessions;
      }
      if n == 0 || chain[n - 1].active.None? {
        return Err(StateUnavailable);
      }
      n := n - 1;
    }
  }

  // ----- what is queued

  /** Exactly the blocks of a range that announce a set have a session, with the set announced, in order. */
  ghost predicate ExactlyAnnounced(chain: seq<Block>, from: nat, sessions: seq<Session>)
  {
    && (forall s <- sessions :: from <= s.start < |chain| && chain[s.start].change.Some?
                                && s == NewSession(s.start, chain[s.start].change.value))
    && (forall n | from <= n < |chain| && chain[n].change.Some? :: NewSession(n, chain[n].change.value) in sessions)
    && (forall i, j :: 0 <= i < j < |sessions| ==> sessions[i].start < sessions[j].start)
  }

  lemma AnnouncedBefore(chain: seq<Block>, from: nat, rest: seq<Session>)
    requires from < |chain| && chain[from].change.Some? && ExactlyAnnounced(chain, from + 1, rest)
    ensures ExactlyAnnounced(chain, from, [NewSession(from, chain[from].change.value)] + rest)
  {
  }

  lemma NothingAnnounced(chain: seq<Block>, from: nat, rest: seq<Session>)
    requires from < |chain| && chain[from].change.None? && ExactlyAnnounced(chain, from + 1, rest)
    ensures ExactlyAnnounced(chain, from, rest)
  {
  }

  lemma {:induction false} ChangesAreExact(chain: seq<Block>, from: nat)
    requires from <= |chain|
    ensures ExactlyAnnounced(chain, from, Changes(chain, from))
    decreases |chain| - from
  {
    if from < |chain| {
      hide ExactlyAnnounced;
      ChangesAreExact(chain, from + 1);
      if chain[from].change.Some? {
        AnnouncedBefore(chain, from, Changes(chain, from + 1));
      } else {
        NothingAnnounced(chain, from, Changes(chain, from + 1));
      }
    }
  }

  /** The blocks the voter starts a session for: those above the base that announce a set, and the base
      itself where it has no proof yet or nothing was announced since. */
  ghost predicate Starts(chain: seq<Block>, base: nat, n: nat)
    requires base < |chain|
  {
    && base <= n < |chain|
    && if n > base then chain[n].change.Some?
       else !chain[base].justified || forall m | base < m < |chain| :: chain[m].change.None?
  }

  /** The validator set such a session has. */
  ghost function SetOf(chain: seq<Block>, base: nat, n: nat): (vs: ValidatorSet)
    requires base < |chain| && chain[base].active.Some? && Starts(chain, base, n)
  {
    if n == base then chain[base].active.value else chain[n].change.value
  }

  /** A session as the voter starts it: only a justified base counts as finished. */
  ghost predicate FirstSession(chain: seq<Block>, base: nat, s: Session)
    requires base < |chain| && chain[base].active.Some?
  {
    && Starts(chain, base, s.start)
    && var begun := NewSession(s.start, SetOf(chain, base, s.start));
       s == if s.start == base && chain[base].justified then Conclude(begun, base) else begun
  }

  /** The first queue has a session for each block that starts one, and no other, in ascending order. */
  ghost predicate QueueOf(chain: seq<Block>, base: nat, q: seq<Session>)
    requires base < |chain| && chain[base].active.Some?
  {
    && q != []
    && (forall i, j :: 0 <= i < j < |q| ==> q[i].start < q[j].start)
    && (forall s <- q :: FirstSession(chain, base, s))
    && (forall n: nat | Starts(chain, base, n) :: exists s <- q :: s.start == n)
  }

  lemma AnnouncedStart(chain: seq<Block>, base: nat, above: seq<Session>, s: Session)
    requires base < |chain| && chain[base].active.Some? && ExactlyAnnounced(chain, base + 1, above) && s in above
    ensures FirstSession(chain, base, s)
  {
  }

  lemma AnnouncedNothing(chain: seq<Block>, base: nat, above: seq<Session>)
    requires base < |chain| && ExactlyAnnounced(chain, base + 1, above)
    ensures above == [] <==> forall m | base < m < |chain| :: chain[m].change.None?
  {
    if above != [] {
      assert above[0] in above;
    }
  }

  lemma InitialQueueShape(chain: seq<Block>, base: nat)
    requires base < |chain| && chain[base].active.Some?
    ensures QueueOf(chain, base, InitialQueue(chain, base, chain[base].active.value))
  {
    hide Changes, FirstSession;
    var above := Changes(chain, base + 1);
    var q := InitialQueue(chain, base, chain[base].active.value);
    ChangesAreExact(chain, base + 1);
    AnnouncedNothing(chain, base, above);
    forall s <- q
      ensures FirstSession(chain, base, s)
    {
      if s in above {
        AnnouncedStart(chain, base, above, s);
      } else {
        BaseStart(chain, base);
      }
    }
    forall n: nat | Starts(chain, base, n)
      ensures exists s <- q :: s.start == n
    {
      if n > base {
        assert NewSession(n, chain[n].change.value) in above;
        assert NewSession(n, chain[n].change.value) in q;
      } else {
        assert q[0] in q;
      }
    }
  }

  lemma BaseStart(chain: seq<Block>, base: nat)
    requires base < |chain| && chain[base].active.Some? && Starts(chain, base, base)
    ensures var begun := NewSession(base, chain[base].active.value);
            FirstSession(chain, base, if chain[base].justified then Conclude(begun, base) else begun)
  {
  }

  // ----- when the voter starts

  /** All that startup needs of a chain: more than its genesis block, states down to the base, the genesis
      set at an unproven block 1, and among the blocks that start a session no empty set and ids that go up. */
  ghost predicate Startable(chain: seq<Block>)
    requires chain != []
  {
    var base := Base(chain, |chain| - 1);
    && |chain| > 1
    && StatesAvailable(chain, base) && chain[base].active.Some?
    && (!chain[base].justified ==> chain[base].active.value.id == GENESIS_AUTHORITY_SET_ID)
    && GoodSets(chain, base)
  }

  lemma FirstSessionFacts(chain: seq<Block>, base: nat, s: Session)
    requires base < |chain| && chain[base].active.Some? && FirstSession(chain, base, s)
    ensures Starts(chain, base, s.start) && s.validatorSet == SetOf(chain, base, s.start)
    ensures s.mandatoryDone <==> s.start == base && chain[base].justified
  {
  }

  /** No empty set, and ids that go up. */
  ghost predicate GoodSets(chain: seq<Block>, base: nat)
    requires base < |chain| && chain[base].active.Some?
  {
    && (forall n: nat | Starts(chain, base, n) :: SetOf(chain, base, n).validators != [])
    && (forall m: nat, n: nat | Starts(chain, base, m) && Starts(chain, base, n) && m < n ::
          SetOf(chain, base, m).id < SetOf(chain, base, n).id)
  }

  lemma CheckedQueueHasGoodSets(chain: seq<Block>, base: nat, q: seq<Session>)
    requires base < |chain| && chain[base].active.Some? && QueueOf(chain, base, q) && CheckedQueue(q)
    ensures GoodSets(chain, base) && (base == 0 ==> !Starts(chain, base, base))
  {
    hide FirstSession, Starts, SetOf;
    forall s <- q
      ensures Starts(chain, base, s.start) && s.validatorSet == SetOf(chain, base, s.start)
    {
      FirstSessionFacts(chain, base, s);
    }
    forall m: nat, n: nat | Starts(chain, base, m) && Starts(chain, base, n) && m < n
      ensures SetOf(chain, base, m).id < SetOf(chain, base, n).id
    {
      var i :| 0 <= i < |q| && q[i].start == m;
      var j :| 0 <= j < |q| && q[j].start == n;
      assert q[i] in q && q[j] in q;
    }
  }

  lemma GoodSetsAreChecked(chain: seq<Block>, base: nat, q: seq<Session>)
    requires base < |chain| && chain[base].active.Some? && QueueOf(chain, base, q)
    requires GoodSets(chain, base) && (base == 0 ==> !Starts(chain, base, base))
    ensures CheckedQueue(q)
  {
    hide FirstSession, SetOf;
    forall s <- q
      ensures Starts(chain, base, s.start) && s.validatorSet == SetOf(chain, base, s.start)
      ensures s.mandatoryDone ==> s.start == base
    {
      FirstSessionFacts(chain, base, s);
    }
    forall i, j | 0 <= i < j < |q|
      ensures q[i].validatorSet.id < q[j].validatorSet.id && !q[j].mandatoryDone
    {
      assert q[i] in q && q[j] in q;
    }
    forall i | 0 < i < |q|
      ensures !q[i].mandatoryDone
    {
      assert q[0].start < q[i].start;
    }
  }

  /** The walk yields a voter exactly for a chain that has all this. */
  lemma InitSucceedsExactly(chain: seq<Block>, minDelta: nat)
    requires chain != []
    ensures Init(chain, minDelta).Ok? <==> Startable(chain)
  {
    hide CheckedQueue, InitialQueue, QueueOf, GoodSets;
    var base := Base(chain, |chain| - 1);
    assert |chain| > 1 ==> base > 0 by {
      assert |chain| > 1 ==> chain[1] == chain[1];
    }
    if chain[base].active.Some? {
      var q := InitialQueue(chain, base, chain[base].active.value);
      InitialQueueShape(chain, base);
      if CheckedQueue(q) {
        CheckedQueueHasGoodSets(chain, base, q);
      } else if GoodSets(chain, base) && base > 0 {
        GoodSetsAreChecked(chain, base, q);
      }
    }
  }

  // ----- the state it starts from

  /** The chain up to its best block as seen in a setting. */
  ghost predicate ChainMatches(w: Setting, chain: seq<Block>)
  {
    forall n :: 0 <= n < |chain| ==>
      && chain[n].change == (if w.announces(n) then Some(w.setAt(n)) else None)
      && (chain[n].active.Some? ==> chain[n].active.value == w.setAt(n))
      && (n > 0 && !w.announces(n) ==> w.setAt(n) == w.setAt(n - 1))
  }

  /** With no announcement in between, the validator set stays. */
  lemma {:induction false} SetStays(w: Setting, chain: seq<Block>, from: nat, n: nat)
    requires ChainMatches(w, chain) && from <= n < |chain|
    requires forall m | from < m <= n :: chain[m].change.None?
    ensures w.setAt(n) == w.setAt(from)
  {
    if from < n {
      SetStays(w, chain, from, n - 1);
      assert chain[n].change.None?;
    }
  }

  lemma LastInCharge(w: Setting, chain: seq<Block>, base: nat, q: seq<Session>, n: nat)
    requires ChainMatches(w, chain) && base < |chain| && chain[base].active.Some? && QueueOf(chain, base, q)
    requires q[|q| - 1].start <= n < |chain|
    ensures w.setAt(n) == w.setAt(q[|q| - 1].start)
  {
    hide FirstSession, ChainMatches;
    var last := q[|q| - 1];
    FirstSessionFacts(chain, base, last);
    forall m: nat | last.start < m <= n
      ensures chain[m].change.None?
    {
      assert Starts(chain, base, m) ==> exists i :: 0 <= i < |q| && q[i].start == m;
    }
    SetStays(w, chain, last.start, n);
  }

  /** A voter as startup makes it: at the best block, with at least 1 as minimum, and nothing voted on yet. */
  ghost predicate Started(chain: seq<Block>, minDelta: nat, v: Voter)
    requires chain != []
  {
    var base := Base(chain, |chain| - 1);
    && chain[base].active.Some? && QueueOf(chain, base, v.sessions) && base > 0
    && v == Voter(|chain| - 1, InitialBeefy(chain), v.sessions, if minDelta > 1 then minDelta else 1, map[], map[], [], [])
  }

  lemma StartedIsValid(chain: seq<Block>, minDelta: nat, v: Voter)
    requires chain != [] && Started(chain, minDelta, v)
    ensures VoterInv(v)
  {
    hide FirstSession, Base;
    var base := Base(chain, |chain| - 1);
    forall i | 0 <= i < |v.sessions|
      ensures v.sessions[i].start <= v.bestGrandpa
      ensures i > 0 ==> v.sessions[i] == NewSession(v.sessions[i].start, v.sessions[i].validatorSet)
    {
      assert v.sessions[i] in v.sessions && v.sessions[0] in v.sessions;
      FirstSessionFacts(chain, base, v.sessions[0]);
      FreshSession(chain, base, v.sessions[i]);
    }
    StartedFront(chain, minDelta, v);
  }

  lemma FreshSession(chain: seq<Block>, base: nat, s: Session)
    requires base < |chain| && chain[base].active.Some? && FirstSession(chain, base, s)
    ensures base <= s.start < |chain| && (s.start > base || !chain[base].justified ==> s == NewSession(s.start, s.validatorSet))
  {
  }

  lemma StartedFront(chain: seq<Block>, minDelta: nat, v: Voter)
    requires chain != [] && Started(chain, minDelta, v)
    ensures Front(v)
  {
    var base := Base(chain, |chain| - 1);
    var front := v.sessions[0];
    assert front in v.sessions;
    assert |v.sessions| > 1 ==> v.sessions[1] in v.sessions && front.start < v.sessions[1].start;
  }

  lemma StartedSettles(w: Setting, chain: seq<Block>, minDelta: nat, v: Voter)
    requires chain != [] && ChainMatches(w, chain) && Started(chain, minDelta, v) && w.since == v.bestBeefy
    requires forall n <- w.first :: Queued(v, n)
    ensures Settled(w, v, v.bestGrandpa)
  {
    hide FirstSession, Base;
    var base := Base(chain, |chain| - 1);
    forall s <- v.sessions
      ensures s.start <= v.bestGrandpa && (s.start > base || !chain[base].justified ==> !s.mandatoryDone)
    {
      FirstSessionFacts(chain, base, s);
    }
    forall n: nat | w.since < n <= v.bestGrandpa && Mandatory(w, n)
      ensures Queued(v, n)
    {
      if n !in w.first {
        assert chain[n].change.Some? && (n >= base ==> Starts(chain, base, n));
      }
    }
  }

  lemma StartedInCharge(w: Setting, chain: seq<Block>, minDelta: nat, v: Voter)
    requires chain != [] && ChainMatches(w, chain) && Started(chain, minDelta, v)
    ensures InCharge(w, v, v.bestGrandpa)
  {
    hide FirstSession, Base;
    var base := Base(chain, |chain| - 1);
    forall s <- v.sessions
      ensures s.validatorSet == w.setAt(s.start)
    {
      FirstSessionFacts(chain, base, s);
    }
    var last := v.sessions[|v.sessions| - 1];
    forall n: nat | last.start <= n <= v.bestGrandpa
      ensures w.setAt(n) == last.validatorSet
    {
      LastInCharge(w, chain, base, v.sessions, n);
    }
  }

  lemma StartedIdle(chain: seq<Block>, minDelta: nat, v: Voter)
    requires chain != [] && Started(chain, minDelta, v)
    ensures v.sessions != [] && v.sessions[0].rounds == map[]
  {
    assert v.sessions[0] in v.sessions;
  }

  lemma StartedIsGood(w: Setting, chain: seq<Block>, minDelta: nat, v: Voter)
    requires chain != [] && ChainMatches(w, chain) && Started(chain, minDelta, v) && w.since == v.bestBeefy
    requires forall n <- w.first :: Queued(v, n)
    ensures Good(w, v)
  {
    hide QueueOf, Base, ChainMatches, Queue, Front, Buffers, Settled, InCharge;
    StartedIsValid(chain, minDelta, v);
    StartedSettles(w, chain, minDelta, v);
    StartedInCharge(w, chain, minDelta, v);
    StartedIdle(chain, minDelta, v);
  }

  /** A voter built from a chain with all that startup needs is in a state from which every run is safe. */
  lemma InitialVoterIsGood(w: Setting, chain: seq<Block>, minDelta: nat)
    requires chain != [] && ChainMatches(w, chain) && Startable(chain) && w.since == InitialBeefy(chain)
    requires var base := Base(chain, |chain| - 1);
             forall n <- w.first :: Starts(chain, base, n) && (n == base ==> !chain[base].justified)
    ensures Init(chain, minDelta).Ok? && Started(chain, minDelta, Init(chain, minDelta).value) && Good(w, Init(chain, minDelta).value)
  {
    hide InitialQueue, CheckedQueue, QueueOf, ChainMatches, GoodSets, Good;
    InitSucceedsExactly(chain, minDelta);
    var base, v := Base(chain, |chain| - 1), Init(chain, minDelta).value;
    InitialQueueShape(chain, base);
    assert base > 0 by {
      assert chain[1] == chain[1];
    }
    forall n <- w.first
      ensures Queued(v, n)
    {
      QueuedAtStart(chain, base, v, n);
    }
    StartedIsGood(w, chain, minDelta, v);
  }

  lemma QueuedAtStart(chain: seq<Block>, base: nat, v: Voter, n: nat)
    requires base < |chain| && chain[base].active.Some? && QueueOf(chain, base, v.sessions)
    requires Starts(chain, base, n) && (n == base ==> !chain[base].justified)
    ensures Queued(v, n)
  {
    var s :| s in v.sessions && s.start == n;
    assert FirstSession(chain, base, s);
  }
}

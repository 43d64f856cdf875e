/** The BEEFY voter as a state machine on values: its sessions, its best blocks, its buffers, and what it
    has sent out. */
module VoterModel {
  import opened Basics
  import opened BeefyPrimitives
  import opened Justification
  import opened Rounds
  import VoteTarget

  const MAX_BUFFERED_VOTE_ROUNDS: nat := 600
  const MAX_BUFFERED_VOTES_PER_ROUND: nat := 1000
  const MAX_BUFFERED_JUSTIFICATIONS: nat := 2400

  /** `emitted` are the finality proofs handed on as new best ones, `gossiped` the votes sent out. */
  datatype Voter = Voter(
    bestGrandpa: nat, bestBeefy: nat, sessions: seq<Session>, minDelta: nat,
    pendingVotes: map<nat, seq<VoteMessage>>, pendingJustifications: map<nat, SignedCommitment>,
    emitted: seq<SignedCommitment>, gossiped: seq<VoteMessage>)

  datatype RoundAction = Discard | Process | Enqueue

  /** A GRANDPA-finalized header: its number and the validator set it announces, if any. */
  datatype Header = Header(number: nat, change: Option<ValidatorSet>)

  // ----- sessions

  function Unfinished(sessions: seq<Session>): (r: seq<Session>)
  {
    if sessions == [] then []
    else (if sessions[0].mandatoryDone then [] else [sessions[0]]) + Unfinished(sessions[1..])
  }

  function Prune(sessions: seq<Session>): (r: seq<Session>)
  {
    if |sessions| > 1 then Unfinished(sessions) else sessions
  }

  function AddSession(v: Voter, s: Session): (v': Voter)
  {
    v.(sessions := Prune(v.sessions + [s]))
  }

  /** Only the mandatory block of the front session while that lacks a proof, else all blocks of the
      session that are final for GRANDPA. */
  function AcceptedInterval(v: Voter): (interval: Option<(nat, nat)>)
  {
    if v.sessions == [] then None
    else
      var front := v.sessions[0];
      Some((front.start, if front.mandatoryDone then v.bestGrandpa else front.start))
  }

  function Triage(v: Voter, round: nat): (action: Option<RoundAction>)
  {
    match AcceptedInterval(v)
    case None => None
    case Some((start, end)) =>
      if start <= round <= end then Some(Process)
      else if round > end then Some(Enqueue)
      else Some(Discard)
  }

  // ----- finalizing

  function Finalize(v: Voter, proof: SignedCommitment): (v': Voter)
  {
    if v.sessions == [] then v
    else
      var n := proof.commitment.blockNumber;
      var v1 := v.(sessions := Prune(v.sessions[0 := Conclude(v.sessions[0], n)]));
      if n > v.bestBeefy then v1.(bestBeefy := n, emitted := v.emitted + [proof]) else v1
  }

  function HandleVote(v: Voter, r: RoundKey, id: AuthorityId, signature: Signature, selfVote: bool): (v': Voter)
  {
    if v.sessions == [] || !AcceptsVote(v.sessions[0], r, id) then v
    else
      var s := AddVote(v.sessions[0], r, id, signature, selfVote);
      if IsDone(s, r) then
        Finalize(v.(sessions := v.sessions[0 := RemoveRound(s, r)]), Proof(s.validatorSet, r, s.rounds[r].votes))
      else v.(sessions := v.sessions[0 := s])
  }

  function RoundOf(vote: VoteMessage): (r: RoundKey)
  {
    RoundKey(vote.commitment.payload, vote.commitment.blockNumber)
  }

  // ----- events

  function BufferVote(v: Voter, vote: VoteMessage): (v': Voter)
  {
    var n := vote.commitment.blockNumber;
    if |v.pendingVotes| >= MAX_BUFFERED_VOTE_ROUNDS then v
    else
      var votes := if n in v.pendingVotes then v.pendingVotes[n] else [];
      v.(pendingVotes := v.pendingVotes[n := if |votes| < MAX_BUFFERED_VOTES_PER_ROUND then votes + [vote] else votes])
  }

  function IncomingVote(v: Voter, vote: VoteMessage): (v': Voter)
  {
    match Triage(v, vote.commitment.blockNumber)
    case Some(Process) => HandleVote(v, RoundOf(vote), vote.id, vote.signature, false)
    case Some(Enqueue) => BufferVote(v, vote)
    case _ => v
  }

  function BufferJustification(v: Voter, proof: SignedCommitment): (v': Voter)
  {
    var n := proof.commitment.blockNumber;
    if |v.pendingJustifications| >= MAX_BUFFERED_JUSTIFICATIONS || n in v.pendingJustifications then v
    else v.(pendingJustifications := v.pendingJustifications[n := proof])
  }

  function IncomingJustification(v: Voter, proof: SignedCommitment): (v': Voter)
  {
    match Triage(v, proof.commitment.blockNumber)
    case Some(Process) => Finalize(v, proof)
    case Some(Enqueue) => BufferJustification(v, proof)
    case _ => v
  }

  function StartSessions(v: Voter, headers: seq<Header>): (v': Voter)
    decreases |headers|
  {
    if headers == [] then v
    else
      var last := |headers| - 1;
      var v1 := StartSessions(v, headers[..last]);
      if headers[last].change.Some? then AddSession(v1, NewSession(headers[last].number, headers[last].change.value)) else v1
  }

  /** GRANDPA finalized a block, and the blocks of a route on the way to it. */
  function FinalityNotification(v: Voter, route: seq<Header>, header: Header): (v': Voter)
  {
    if header.number > v.bestGrandpa then StartSessions(v.(bestGrandpa := header.number), route + [header]) else v
  }

  /** Entries between two keys, inclusive. */
  function Between<T>(m: map<nat, T>, start: nat, end: nat): (r: map<nat, T>)
  {
    map n <- m | start <= n <= end :: m[n]
  }

  function Beyond<T>(m: map<nat, T>, end: nat): (r: map<nat, T>)
  {
    map n <- m | n > end :: m[n]
  }

  /** Finalizes the buffered justifications numbered below `bound`, in ascending order from `from`. */
  function FinalizeAll(v: Voter, proofs: map<nat, SignedCommitment>, from: nat, bound: nat): (v': Voter)
    decreases bound
  {
    if bound <= from then v
    else
      var v1 := FinalizeAll(v, proofs, from, bound - 1);
      if bound - 1 in proofs then Finalize(v1, proofs[bound - 1]) else v1
  }

  function HandleAll(v: Voter, votes: seq<VoteMessage>): (v': Voter)
    decreases |votes|
  {
    if votes == [] then v
    else
      var last := |votes| - 1;
      var vote := votes[last];
      HandleVote(HandleAll(v, votes[..last]), RoundOf(vote), vote.id, vote.signature, false)
  }

  function HandleRounds(v: Voter, votes: map<nat, seq<VoteMessage>>, from: nat, bound: nat): (v': Voter)
    decreases bound
  {
    if bound <= from then v
    else
      var v1 := HandleRounds(v, votes, from, bound - 1);
      if bound - 1 in votes then HandleAll(v1, votes[bound - 1]) else v1
  }

  function ProcessJustifications(v: Voter): (v': Voter)
  {
    match AcceptedInterval(v)
    case None => v
    case Some((start, end)) =>
      if v.pendingJustifications == map[] then v
      else
        FinalizeAll(v.(pendingJustifications := Beyond(v.pendingJustifications, end)),
                    Between(v.pendingJustifications, start, end), start, end + 1)
  }

  function ProcessVotes(v: Voter): (v': Voter)
  {
    match AcceptedInterval(v)
    case None => v
    case Some((start, end)) =>
      if v.pendingVotes == map[] then v
      else
        HandleRounds(v.(pendingVotes := Beyond(v.pendingVotes, end)), Between(v.pendingVotes, start, end), start, end + 1)
  }

  /** Buffered justifications and votes that now land in the accepted interval are handled, older ones dropped. */
  function ProcessPending(v: Voter): (v': Voter)
  {
    ProcessVotes(ProcessJustifications(v))
  }

  function VotingTarget(v: Voter): (target: Option<nat>)
  {
    if v.sessions == [] then None
    else VoteTarget.Target(v.bestGrandpa, v.bestBeefy, v.sessions[0].start, v.minDelta)
  }

  /** What the environment supplies when the node tries to vote: the payload of the target block, the
      node's own authority in the session, and its signature; any of them may be missing. */
  datatype Ballot = Ballot(payload: Option<Payload>, id: Option<AuthorityId>, signature: Option<Signature>)

  /** The vote the node casts now, if any. */
  function OwnVote(v: Voter, b: Ballot): (vote: Option<VoteMessage>)
  {
    var target := VotingTarget(v);
    if target.None? || b.payload.None? || b.id.None? || b.signature.None? || v.sessions == [] then None
    else if !ShouldSelfVote(v.sessions[0], RoundKey(b.payload.value, target.value)) then None
    else Some(VoteMessage(Commitment(b.payload.value, target.value, v.sessions[0].validatorSet.id), b.id.value, b.signature.value))
  }

  function TryToVote(v: Voter, b: Ballot): (v': Voter)
  {
    match OwnVote(v, b)
    case None => v
    case Some(vote) =>
      var v1 := HandleVote(v, RoundOf(vote), vote.id, vote.signature, true);
      v1.(gossiped := v1.gossiped + [vote])
  }

  // ----- runs

  datatype Event =
    | Finality(route: seq<Header>, header: Header)
    | Vote(vote: VoteMessage)
    | Justif(proof: SignedCommitment)
    | TryPending
    | TryVote(ballot: Ballot)

  function Step(v: Voter, e: Event): (v': Voter)
  {
    match e
    case Finality(route, header) => FinalityNotification(v, route, header)
    case Vote(vote) => IncomingVote(v, vote)
    case Justif(proof) => IncomingJustification(v, proof)
    case TryPending => ProcessPending(v)
    case TryVote(ballot) => TryToVote(v, ballot)
  }

  function Run(v: Voter, events: seq<Event>): (v': Voter)
    decreases |events|
  {
    if events == [] then v else Run(Step(v, events[0]), events[1..])
  }
}

/** The state of one match, its state machine, and the three mutators that drive it. */
module MatchState {
  import opened Wrappers

  type UserId = string
  type Time = int  // milliseconds

  const ROUND_DEADLINE_MS: Time := 12_000
  const MAX_ROUNDS: nat := 5
  const WINS_TO_END: nat := 2

  datatype Move = Rock | Paper | Scissors
  datatype RoundWinner = WonByA | WonByB | Draw
  datatype MatchStatus = WaitingPlays | Resolving | Over
  datatype EndReason = BestOf3 | ForfeitTimeout | DisconnectForfeit | MaxRoundsDraw
  datatype Silent = SilentA | SilentB | SilentBoth

  datatype MatchPlayer = MatchPlayer(userId: UserId, displayName: string, rating: int)

  datatype RoundPlays = RoundPlays(a: Option<Move>, b: Option<Move>)

  datatype ResolvedRound = ResolvedRound(
    roundNumber: nat,
    moveA: Option<Move>,
    moveB: Option<Move>,
    winner: RoundWinner,
    resolvedAt: Time)

  /** An absent `rounds` field and an empty one are read alike everywhere, so one list models both. */
  datatype MatchState = MatchState(
    matchId: string,
    playerA: MatchPlayer,
    playerB: MatchPlayer,
    scoreA: nat,
    scoreB: nat,
    currentRound: nat,
    status: MatchStatus,
    startedAt: Time,
    roundDeadline: Time,
    plays: RoundPlays,
    rounds: seq<ResolvedRound>,
    winnerId: Option<UserId>,
    endReason: Option<EndReason>,
    tournamentMatchId: Option<string>)

  const NO_PLAYS := RoundPlays(None, None)

  function BuildInitialState(a: MatchPlayer, b: MatchPlayer, matchId: string, now: Time,
                             tournamentMatchId: Option<string>): MatchState
  {
    MatchState(matchId, a, b, 0, 0, 1, WaitingPlays, now, now + ROUND_DEADLINE_MS, NO_PLAYS, [], None, None,
               tournamentMatchId)
  }

  // ----- rock, paper, scissors

  function ParseMove(s: string): Option<Move> {
    if s == "rock" then Some(Rock)
    else if s == "paper" then Some(Paper)
    else if s == "scissors" then Some(Scissors)
    else None
  }

  function Beats(m: Move): Move {
    match m
    case Rock => Scissors
    case Paper => Rock
    case Scissors => Paper
  }

  function ResolveMoves(a: Move, b: Move): (r: RoundWinner)
    ensures r == Draw <==> a == b
    ensures r == WonByA <==> (a, b) in {(Rock, Scissors), (Paper, Rock), (Scissors, Paper)}
  {
    if a == b then Draw else if Beats(a) == b then WonByA else WonByB
  }

  // ----- the state machine

  datatype Event =
    | PlaysReceived
    | RoundResolved(winner: RoundWinner, now: Time)
    | Timeout(silent: Silent)

  datatype MatchError =
    | InvalidTransition
    | WrongRound
    | InvalidMove
    | NotInMatch
    | AlreadyPlayed

  function EndMatch(s: MatchState, winnerId: Option<UserId>, reason: EndReason): MatchState {
    s.(status := Over, winnerId := winnerId, endReason := Some(reason))
  }

  function ResolveRound(s: MatchState, winner: RoundWinner, now: Time): MatchState {
    var scoreA := s.scoreA + if winner == WonByA then 1 else 0;
    var scoreB := s.scoreB + if winner == WonByB then 1 else 0;
    var scored := s.(scoreA := scoreA, scoreB := scoreB);
    if scoreA == WINS_TO_END || scoreB == WINS_TO_END then
      EndMatch(scored, Some(if scoreA == WINS_TO_END then s.playerA.userId else s.playerB.userId), BestOf3)
    else if s.currentRound >= MAX_ROUNDS then EndMatch(scored, None, MaxRoundsDraw)
    else scored.(status := WaitingPlays, currentRound := s.currentRound + 1,
                 roundDeadline := now + ROUND_DEADLINE_MS, plays := NO_PLAYS)
  }

  function Transition(s: MatchState, e: Event): Result<MatchState, MatchError> {
    if s.status == Over then Failure(InvalidTransition)
    else match e
         case PlaysReceived =>
           if s.status == WaitingPlays then Success(s.(status := Resolving)) else Failure(InvalidTransition)
         case RoundResolved(winner, now) =>
           if s.status == Resolving then Success(ResolveRound(s, winner, now)) else Failure(InvalidTransition)
         case Timeout(silent) =>
           if s.status != WaitingPlays then Failure(InvalidTransition)
           else match silent
                case SilentBoth => Success(EndMatch(s, None, ForfeitTimeout))
                case SilentA => Success(EndMatch(s, Some(s.playerB.userId), ForfeitTimeout))
                case SilentB => Success(EndMatch(s, Some(s.playerA.userId), ForfeitTimeout))
  }

  // ----- the mutators

  datatype Side = SideA | SideB

  function PlayerIndex(s: MatchState, userId: UserId): Option<Side> {
    if s.playerA.userId == userId then Some(SideA)
    else if s.playerB.userId == userId then Some(SideB)
    else None
  }

  function PlayOf(plays: RoundPlays, side: Side): Option<Move> {
    if side == SideA then plays.a else plays.b
  }

  function WithPlay(plays: RoundPlays, side: Side, move: Move): RoundPlays {
    if side == SideA then plays.(a := Some(move)) else plays.(b := Some(move))
  }

  /** The body run under the lock when a player submits a move. */
  function Play(s: MatchState, userId: UserId, roundNumber: int, move: Move, now: Time): Result<MatchState, MatchError> {
    match PlayerIndex(s, userId)
    case None => Failure(NotInMatch)
    case Some(side) =>
      if s.status != WaitingPlays || roundNumber != s.currentRound then Failure(WrongRound)
      else if PlayOf(s.plays, side).Some? then Failure(AlreadyPlayed)
      else
        var plays := WithPlay(s.plays, side, move);
        var updated := s.(plays := plays);
        if plays.a.None? || plays.b.None? then Success(updated)
        else Resolve(updated, plays.a.value, plays.b.value, now)
  }

  /** Both moves are in: record the round and let the state machine resolve it. */
  function Resolve(s: MatchState, moveA: Move, moveB: Move, now: Time): Result<MatchState, MatchError> {
    match Transition(s, PlaysReceived)
    case Failure(e) => Failure(e)
    case Success(resolving) =>
      var winner := ResolveMoves(moveA, moveB);
      var record := ResolvedRound(s.currentRound, Some(moveA), Some(moveB), winner, now);
      Transition(resolving.(rounds := s.rounds + [record]), RoundResolved(winner, now))
  }

  function ResolveSilentPlayer(plays: RoundPlays): Silent {
    if plays.a.None? && plays.b.Some? then SilentA
    else if plays.b.None? && plays.a.Some? then SilentB
    else SilentBoth
  }

  /** The body run under the lock when a round's deadline passes. */
  function PhaseTimeout(s: MatchState, roundNumber: int, now: Time): Result<MatchState, MatchError> {
    if s.status != WaitingPlays || s.currentRound != roundNumber then Success(s)
    else match ResolveSilentPlayer(s.plays)
         case SilentBoth => Transition(s, Timeout(SilentBoth))
         case silent =>
           var record := ResolvedRound(s.currentRound, s.plays.a, s.plays.b,
                                       if silent == SilentA then WonByB else WonByA, now);
           Transition(s.(rounds := s.rounds + [record]), Timeout(silent))
  }

  /** The body run under the lock when a disconnected player did not come back. */
  function Disconnect(s: MatchState, userId: UserId): MatchState {
    if s.status == Over then s
    else match PlayerIndex(s, userId)
         case None => s
         case Some(SideA) => EndMatch(s, Some(s.playerB.userId), DisconnectForfeit)
         case Some(SideB) => EndMatch(s, Some(s.playerA.userId), DisconnectForfeit)
  }

  /** One call of a mutator. */
  datatype Step =
    | PlayStep(userId: UserId, roundNumber: int, move: string, now: Time)
    | TimeoutStep(roundNumber: int, now: Time)
    | DisconnectStep(userId: UserId)

  function Mutate(s: MatchState, step: Step): Result<MatchState, MatchError> {
    match step
    case PlayStep(userId, roundNumber, move, now) =>
      (match ParseMove(move)
       case None => Failure(InvalidMove)
       case Some(m) => Play(s, userId, roundNumber, m, now))
    case TimeoutStep(roundNumber, now) => PhaseTimeout(s, roundNumber, now)
    case DisconnectStep(userId) => Success(Disconnect(s, userId))
  }

  /** A failed mutator saves nothing. */
  function After(s: MatchState, step: Step): MatchState {
    match Mutate(s, step)
    case Success(next) => next
    case Failure(_) => s
  }

  function Run(s: MatchState, steps: seq<Step>): MatchState {
    if steps == [] then s else After(Run(s, steps[..|steps| - 1]), steps[|steps| - 1])
  }

  predicate AcceptedPlay(s: MatchState, step: Step) {
    step.PlayStep? && Mutate(s, step).Success?
  }

  /** How many of the steps were accepted plays. */
  function AcceptedPlays(s: MatchState, steps: seq<Step>): nat {
    if steps == [] then 0
    else
      var before := steps[..|steps| - 1];
      AcceptedPlays(s, before) + if AcceptedPlay(Run(s, before), steps[|steps| - 1]) then 1 else 0
  }
}

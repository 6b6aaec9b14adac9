/** What every reachable match state satisfies, over whole runs of the mutators. */
module MatchRuns {
  import opened Wrappers
  import opened MatchState

  predicate Initial(s: MatchState) {
    && s.playerA.userId != s.playerB.userId
    && s == BuildInitialState(s.playerA, s.playerB, s.matchId, s.startedAt, s.tournamentMatchId)
  }

  function Wins(rounds: seq<ResolvedRound>, winner: RoundWinner): nat {
    if rounds == [] then 0
    else Wins(rounds[..|rounds| - 1], winner) + if rounds[|rounds| - 1].winner == winner then 1 else 0
  }

  /** A round that was played out, recorded at place i. */
  predicate PlayedRound(round: ResolvedRound, i: nat) {
    && round.roundNumber == i + 1
    && round.moveA.Some? && round.moveB.Some?
    && round.winner == ResolveMoves(round.moveA.value, round.moveB.value)
  }

  predicate AllPlayed(rounds: seq<ResolvedRound>) {
    forall i :: 0 <= i < |rounds| ==> PlayedRound(rounds[i], i)
  }

  predicate NotBothPending(plays: RoundPlays) {
    plays.a.None? || plays.b.None?
  }

  /** A live state as it is stored between two mutators. */
  predicate Live(s: MatchState) {
    && s.status == WaitingPlays
    && 1 <= s.currentRound <= MAX_ROUNDS
    && |s.rounds| == s.currentRound - 1 && AllPlayed(s.rounds)
    && s.scoreA == Wins(s.rounds, WonByA) <= 1
    && s.scoreB == Wins(s.rounds, WonByB) <= 1
    && NotBothPending(s.plays)
    && s.winnerId.None? && s.endReason.None?
  }

  function SideId(s: MatchState, winner: RoundWinner): Option<UserId> {
    match winner
    case WonByA => Some(s.playerA.userId)
    case WonByB => Some(s.playerB.userId)
    case Draw => None
  }

  /** The last round was settled by a timeout: one player had moved and takes it, but it does not count in the score. */
  predicate TimeoutRound(s: MatchState) {
    && |s.rounds| == s.currentRound && s.currentRound >= 1
    && AllPlayed(s.rounds[..|s.rounds| - 1])
    && s.scoreA == Wins(s.rounds[..|s.rounds| - 1], WonByA)
    && s.scoreB == Wins(s.rounds[..|s.rounds| - 1], WonByB)
    && var last := s.rounds[|s.rounds| - 1];
    && last.roundNumber == s.currentRound
    && (last.moveA.Some? <==> last.winner == WonByA)
    && (last.moveB.Some? <==> last.winner == WonByB)
    && last.winner != Draw
    && s.winnerId == SideId(s, last.winner)
  }

  /** What each end reason says about winner, scores and rounds. */
  predicate Ended(s: MatchState) {
    && s.status == Over && 1 <= s.currentRound <= MAX_ROUNDS
    && match s.endReason
       case Some(BestOf3) =>
         && |s.rounds| == s.currentRound && AllPlayed(s.rounds)
         && s.scoreA == Wins(s.rounds, WonByA) && s.scoreB == Wins(s.rounds, WonByB)
         && ((s.scoreA == 2 && s.scoreB <= 1 && s.winnerId == Some(s.playerA.userId)) ||
             (s.scoreB == 2 && s.scoreA <= 1 && s.winnerId == Some(s.playerB.userId)))
       case Some(MaxRoundsDraw) =>
         && |s.rounds| == s.currentRound == MAX_ROUNDS && AllPlayed(s.rounds)
         && s.scoreA == Wins(s.rounds, WonByA) <= 1 && s.scoreB == Wins(s.rounds, WonByB) <= 1
         && s.winnerId.None?
       case Some(ForfeitTimeout) =>
         && s.scoreA <= 1 && s.scoreB <= 1
         && if s.winnerId.None?
            then && |s.rounds| == s.currentRound - 1 && AllPlayed(s.rounds) && s.plays == NO_PLAYS
                 && s.scoreA == Wins(s.rounds, WonByA) && s.scoreB == Wins(s.rounds, WonByB)
            else TimeoutRound(s)
       case Some(DisconnectForfeit) =>
         && s.scoreA == Wins(s.rounds, WonByA) <= 1 && s.scoreB == Wins(s.rounds, WonByB) <= 1
         && |s.rounds| == s.currentRound - 1 && AllPlayed(s.rounds)
         && s.winnerId in {Some(s.playerA.userId), Some(s.playerB.userId)}
       case None => false
  }

  predicate Valid(s: MatchState) {
    s.playerA.userId != s.playerB.userId && (Live(s) || Ended(s))
  }

  lemma OneMoreRound(rounds: seq<ResolvedRound>, round: ResolvedRound)
    requires AllPlayed(rounds)
    ensures forall w :: Wins(rounds + [round], w) == Wins(rounds, w) + if round.winner == w then 1 else 0
    ensures PlayedRound(round, |rounds|) ==> AllPlayed(rounds + [round])
    ensures (rounds + [round])[..|rounds|] == rounds
  {
    assert (rounds + [round])[..|rounds|] == rounds;
  }

  /** With the new round recorded, scoring it ends the match or opens the next round. */
  lemma ScoringKeepsValid(s: MatchState, winner: RoundWinner, now: Time)
    requires s.status == Resolving && s.playerA.userId != s.playerB.userId
    requires 1 <= s.currentRound <= MAX_ROUNDS && |s.rounds| == s.currentRound && AllPlayed(s.rounds)
    requires s.winnerId.None? && s.endReason.None? && s.scoreA <= 1 && s.scoreB <= 1
    requires Wins(s.rounds, WonByA) == s.scoreA + if winner == WonByA then 1 else 0
    requires Wins(s.rounds, WonByB) == s.scoreB + if winner == WonByB then 1 else 0
    ensures Valid(ResolveRound(s, winner, now))
  {}

  lemma ResolveKeepsValid(s: MatchState, moveA: Move, moveB: Move, now: Time)
    requires s.status == WaitingPlays && s.playerA.userId != s.playerB.userId
    requires Live(s.(plays := NO_PLAYS))
    ensures Resolve(s, moveA, moveB, now).Success? && Valid(Resolve(s, moveA, moveB, now).value)
  {
    var winner := ResolveMoves(moveA, moveB);
    var round := ResolvedRound(s.currentRound, Some(moveA), Some(moveB), winner, now);
    OneMoreRound(s.rounds, round);
    ScoringKeepsValid(s.(status := Resolving, rounds := s.rounds + [round]), winner, now);
  }

  /** One player moved and the other did not: the recorded round goes to the one who moved. */
  lemma SilenceKeepsValid(s: MatchState, round: ResolvedRound, winner: UserId)
    requires s.playerA.userId != s.playerB.userId && Live(s)
    requires round.roundNumber == s.currentRound && round.winner != Draw && SideId(s, round.winner) == Some(winner)
    requires round.moveA.Some? <==> round.winner == WonByA
    requires round.moveB.Some? <==> round.winner == WonByB
    ensures Valid(EndMatch(s.(rounds := s.rounds + [round]), Some(winner), ForfeitTimeout))
  {
    var rounds := s.rounds + [round];
    assert rounds[..|rounds| - 1] == s.rounds && rounds[|rounds| - 1] == round;
  }

  lemma TimeoutKeepsValid(s: MatchState, roundNumber: int, now: Time)
    requires Valid(s)
    ensures PhaseTimeout(s, roundNumber, now).Success? && Valid(PhaseTimeout(s, roundNumber, now).value)
  {
    if Live(s) && s.plays != NO_PLAYS {
      var winner := if ResolveSilentPlayer(s.plays) == SilentA then WonByB else WonByA;
      var round := ResolvedRound(s.currentRound, s.plays.a, s.plays.b, winner, now);
      SilenceKeepsValid(s, round, SideId(s, winner).value);
    }
  }

  lemma PlayKeepsValid(s: MatchState, userId: UserId, roundNumber: int, move: Move, now: Time)
    requires Valid(s) && Play(s, userId, roundNumber, move, now).Success?
    ensures Valid(Play(s, userId, roundNumber, move, now).value)
  {
    var plays := WithPlay(s.plays, PlayerIndex(s, userId).value, move);
    if plays.a.Some? && plays.b.Some? {
      ResolveKeepsValid(s.(plays := plays), plays.a.value, plays.b.value, now);
    }
  }

  lemma StepKeepsValid(s: MatchState, step: Step)
    requires Valid(s)
    ensures Valid(After(s, step))
    ensures After(s, step).playerA == s.playerA && After(s, step).playerB == s.playerB
    ensures After(s, step).matchId == s.matchId && After(s, step).tournamentMatchId == s.tournamentMatchId
  {
    if Mutate(s, step).Success? {
      match step
      case PlayStep(userId, roundNumber, move, now) =>
        PlayKeepsValid(s, userId, roundNumber, ParseMove(move).value, now);
      case TimeoutStep(roundNumber, now) => TimeoutKeepsValid(s, roundNumber, now);
      case DisconnectStep(_) =>
    }
  }

  /** Every reachable state, whatever calls were made. */
  lemma {:induction false} RunsStayValid(s: MatchState, steps: seq<Step>)
    requires Initial(s)
    ensures Valid(Run(s, steps)) && Run(s, steps).matchId == s.matchId
    ensures Run(s, steps).playerA == s.playerA && Run(s, steps).playerB == s.playerB
  {
    if steps != [] {
      RunsStayValid(s, steps[..|steps| - 1]);
      StepKeepsValid(Run(s, steps[..|steps| - 1]), steps[|steps| - 1]);
    }
  }

  /** An ended state is never changed again. */
  lemma EndedIsFinal(s: MatchState, step: Step)
    requires s.status == Over
    ensures After(s, step) == s
  {}

  /** A disconnect forfeit of a live match names the player who stayed. */
  lemma ForfeitNamesTheOther(s: MatchState, userId: UserId)
    requires Valid(s) && Live(s) && PlayerIndex(s, userId).Some?
    ensures var next := After(s, DisconnectStep(userId));
            && Ended(next) && next.endReason == Some(DisconnectForfeit)
            && next.winnerId in {Some(s.playerA.userId), Some(s.playerB.userId)} - {Some(userId)}
  {}

  /** The move that a string names. */
  predicate Names(text: string, move: Option<Move>) {
    || (text == "rock" && move == Some(Rock))
    || (text == "paper" && move == Some(Paper))
    || (text == "scissors" && move == Some(Scissors))
  }

  /** A play is accepted exactly from a player of the match, for the current round, once; each refusal has its own cause. */
  lemma PlayAcceptedExactly(s: MatchState, userId: UserId, roundNumber: int, move: string, now: Time)
    requires Valid(s)
    ensures var r := Mutate(s, PlayStep(userId, roundNumber, move, now));
            var valid := move in {"rock", "paper", "scissors"};
            var plays := userId in {s.playerA.userId, s.playerB.userId};
            var current := Live(s) && roundNumber == s.currentRound;
            var free := if userId == s.playerA.userId then s.plays.a.None? else s.plays.b.None?;
            && (r.Success? <==> valid && plays && current && free)
            && (r == Failure(InvalidMove) <==> !valid)
            && (r == Failure(NotInMatch) <==> valid && !plays)
            && (r == Failure(WrongRound) <==> valid && plays && !current)
            && (r == Failure(AlreadyPlayed) <==> valid && plays && current && !free)
  {
    if ParseMove(move).Some? && Play(s, userId, roundNumber, ParseMove(move).value, now).Failure? {
      var side := PlayerIndex(s, userId);
      if side.Some? && Live(s) && roundNumber == s.currentRound && PlayOf(s.plays, side.value).None? {
        var plays := WithPlay(s.plays, side.value, ParseMove(move).value);
        ResolveKeepsValid(s.(plays := plays), plays.a.value, plays.b.value, now);
      }
    }
  }

  /** The two moves of the round that was being played: pending still, or recorded with the round. */
  function MovesAfter(s: MatchState, next: MatchState): RoundPlays {
    if |next.rounds| > |s.rounds| && next.rounds != [] then
      RoundPlays(next.rounds[|next.rounds| - 1].moveA, next.rounds[|next.rounds| - 1].moveB)
    else next.plays
  }

  /**
   * An accepted play puts down the very move that was submitted, for the one
   * who submitted it, and leaves the opponent's as it was; the round is
   * recorded, with its number and time, exactly when both moves are there.
   */
  lemma PlayRecordsTheMove(s: MatchState, userId: UserId, roundNumber: int, move: string, now: Time)
    requires Valid(s) && AcceptedPlay(s, PlayStep(userId, roundNumber, move, now))
    ensures var next := After(s, PlayStep(userId, roundNumber, move, now));
            var moves := MovesAfter(s, next);
            && (userId == s.playerA.userId ==> Names(move, moves.a) && moves.b == s.plays.b)
            && (userId == s.playerB.userId ==> Names(move, moves.b) && moves.a == s.plays.a)
            && (if moves.a.Some? && moves.b.Some?
                then && |next.rounds| == |s.rounds| + 1 && next.rounds[..|s.rounds|] == s.rounds
                     && next.rounds[|s.rounds|].roundNumber == s.currentRound
                     && next.rounds[|s.rounds|].resolvedAt == now
                else next == s.(plays := moves))
  {
    var side := PlayerIndex(s, userId).value;
    var plays := WithPlay(s.plays, side, ParseMove(move).value);
    if plays.a.Some? && plays.b.Some? {
      var round := ResolvedRound(s.currentRound, plays.a, plays.b, ResolveMoves(plays.a.value, plays.b.value), now);
      assert (s.rounds + [round])[..|s.rounds|] == s.rounds;
      assert After(s, PlayStep(userId, roundNumber, move, now)).rounds == s.rounds + [round];
    }
  }

  predicate Beating(x: string, y: string) {
    (x, y) in {("rock", "scissors"), ("paper", "rock"), ("scissors", "paper")}
  }

  /** What a played round does to the state: the record, and one point for its winner alone. */
  predicate ScoredAs(s: MatchState, end: MatchState, x: string, y: string) {
    && |end.rounds| == |s.rounds| + 1
    && (end.rounds[|s.rounds|].winner == WonByA <==> Beating(x, y))
    && (end.rounds[|s.rounds|].winner == WonByB <==> Beating(y, x))
    && (end.rounds[|s.rounds|].winner == Draw <==> x == y)
    && end.scoreA == s.scoreA + (if Beating(x, y) then 1 else 0)
    && end.scoreB == s.scoreB + (if Beating(y, x) then 1 else 0)
    && (end.status == WaitingPlays ==> end.currentRound == s.currentRound + 1 && end.plays == NO_PLAYS)
  }

  lemma ResolveScores(s: MatchState, x: string, y: string, now: Time)
    requires Live(s.(plays := NO_PLAYS)) && ParseMove(x).Some? && ParseMove(y).Some?
    ensures var r := Resolve(s, ParseMove(x).value, ParseMove(y).value, now);
            r.Success? && ScoredAs(s, r.value, x, y)
  {}

  /** The first play of a round waits; the second one resolves it. */
  lemma PlayFirst(s: MatchState, side: Side, text: string, now: Time)
    requires Valid(s) && Live(s) && s.plays == NO_PLAYS && ParseMove(text).Some?
    ensures var u := if side == SideA then s.playerA.userId else s.playerB.userId;
            After(s, PlayStep(u, s.currentRound, text, now)) ==
            s.(plays := WithPlay(NO_PLAYS, side, ParseMove(text).value))
  {}

  lemma PlaySecond(s: MatchState, side: Side, text: string, other: Move, now: Time)
    requires Valid(s) && Live(s) && ParseMove(text).Some?
    requires s.plays == if side == SideA then RoundPlays(None, Some(other)) else RoundPlays(Some(other), None)
    ensures var u := if side == SideA then s.playerA.userId else s.playerB.userId;
            var plays := WithPlay(s.plays, side, ParseMove(text).value);
            var r := Resolve(s.(plays := plays), plays.a.value, plays.b.value, now);
            r.Success? ==> After(s, PlayStep(u, s.currentRound, text, now)) == r.value
  {}

  /**
   * One round from the strings submitted to the score: the round goes to A, to
   * B or to nobody as rock, paper and scissors have it, whoever plays first, and
   * the score of the round's winner alone goes up by one.
   */
  lemma RoundIsScored(s: MatchState, x: string, y: string, aFirst: bool, t1: Time, t2: Time)
    requires Valid(s) && Live(s) && s.plays == NO_PLAYS
    requires x in {"rock", "paper", "scissors"} && y in {"rock", "paper", "scissors"}
    ensures var a, b, n := s.playerA.userId, s.playerB.userId, s.currentRound;
            var mid := After(s, if aFirst then PlayStep(a, n, x, t1) else PlayStep(b, n, y, t1));
            ScoredAs(s, After(mid, if aFirst then PlayStep(b, n, y, t2) else PlayStep(a, n, x, t2)), x, y)
  {
    var moveA, moveB := ParseMove(x).value, ParseMove(y).value;
    ResolveScores(s.(plays := RoundPlays(Some(moveA), Some(moveB))), x, y, t2);
    if aFirst {
      PlayFirst(s, SideA, x, t1);
      PlaySecond(s.(plays := RoundPlays(Some(moveA), None)), SideB, y, moveA, t2);
    } else {
      PlayFirst(s, SideB, y, t1);
      PlaySecond(s.(plays := RoundPlays(None, Some(moveB))), SideA, x, moveB, t2);
    }
  }

  /**
   * A deadline ends the match exactly when it is the deadline of the round
   * being played; the pending moves are recorded with the round unless there
   * are none.
   */
  lemma TimeoutExactly(s: MatchState, roundNumber: int, now: Time)
    requires Valid(s)
    ensures var next := After(s, TimeoutStep(roundNumber, now));
            if Live(s) && roundNumber == s.currentRound
            then && Ended(next) && next.endReason == Some(ForfeitTimeout)
                 && (next.winnerId == Some(s.playerA.userId) <==> s.plays.a.Some?)
                 && (next.winnerId == Some(s.playerB.userId) <==> s.plays.b.Some?)
                 && next.scoreA == s.scoreA && next.scoreB == s.scoreB && next.plays == s.plays
                 && next.rounds == if s.plays == NO_PLAYS then s.rounds
                                   else s.rounds + [ResolvedRound(s.currentRound, s.plays.a, s.plays.b,
                                                                  if s.plays.a.Some? then WonByA else WonByB, now)]
            else next == s
  {
    TimeoutKeepsValid(s, roundNumber, now);
  }

  /** A round that is being played ends twelve seconds after the match's start or the last round's end. */
  predicate OnTheClock(s: MatchState) {
    var start := if s.rounds == [] then s.startedAt else s.rounds[|s.rounds| - 1].resolvedAt;
    s.status == WaitingPlays ==> s.roundDeadline == start + 12_000
  }

  lemma ResolveResetsClock(s: MatchState, moveA: Move, moveB: Move, now: Time)
    ensures var r := Resolve(s, moveA, moveB, now);
            r.Success? ==> OnTheClock(r.value) && r.value.startedAt == s.startedAt
  {}

  lemma ClockKept(s: MatchState, step: Step)
    requires OnTheClock(s)
    ensures OnTheClock(After(s, step)) && After(s, step).startedAt == s.startedAt
  {
    if AcceptedPlay(s, step) {
      var plays := WithPlay(s.plays, PlayerIndex(s, step.userId).value, ParseMove(step.move).value);
      if plays.a.Some? && plays.b.Some? {
        ResolveResetsClock(s.(plays := plays), plays.a.value, plays.b.value, step.now);
      }
    }
  }

  /** Over whole runs, every round has its twelve seconds. */
  lemma {:induction false} DeadlinesFollowRounds(s: MatchState, steps: seq<Step>)
    requires Initial(s)
    ensures OnTheClock(Run(s, steps)) && Run(s, steps).startedAt == s.startedAt
  {
    if steps != [] {
      DeadlinesFollowRounds(s, steps[..|steps| - 1]);
      ClockKept(Run(s, steps[..|steps| - 1]), steps[|steps| - 1]);
    }
  }

  // ----- progress

  function EmptyPlays(plays: RoundPlays): nat {
    (if plays.a.None? then 1 else 0) + (if plays.b.None? then 1 else 0)
  }

  /** Lexicographically below: ended, or a later round, or fewer plays missing. */
  predicate Below(t: MatchState, s: MatchState) {
    && s.status != Over
    && (|| t.status == Over
        || MAX_ROUNDS - t.currentRound < MAX_ROUNDS - s.currentRound
        || (t.currentRound == s.currentRound && EmptyPlays(t.plays) < EmptyPlays(s.plays)))
  }

  /** A step either changes nothing or goes down. */
  lemma EveryStepDescends(s: MatchState, step: Step)
    requires Valid(s)
    ensures After(s, step) == s || Below(After(s, step), s)
    ensures AcceptedPlay(s, step) ==> Below(After(s, step), s)
  {}

  /** The plays that a state can still accept. */
  function PlaysLeft(s: MatchState): int {
    if s.status == Over then 0 else 2 * (MAX_ROUNDS - s.currentRound) + EmptyPlays(s.plays)
  }

  lemma PlayCounts(s: MatchState, step: Step)
    requires Valid(s)
    ensures PlaysLeft(After(s, step)) + (if AcceptedPlay(s, step) then 1 else 0) <= PlaysLeft(s)
    ensures PlaysLeft(s) >= 0
  {
    match step
    case PlayStep(userId, roundNumber, move, now) =>
      if AcceptedPlay(s, step) {
        EveryStepDescends(s, step);
      }
    case TimeoutStep(_, _) =>
    case DisconnectStep(_) =>
  }

  lemma {:induction false} PlaysAreBounded(s: MatchState, steps: seq<Step>)
    requires Initial(s)
    ensures AcceptedPlays(s, steps) + PlaysLeft(Run(s, steps)) <= 10
    ensures PlaysLeft(Run(s, steps)) >= 0
  {
    RunsStayValid(s, steps);
    PlayCounts(Run(s, steps), DisconnectStep(""));
    if steps != [] {
      var before := steps[..|steps| - 1];
      PlaysAreBounded(s, before);
      RunsStayValid(s, before);
      PlayCounts(Run(s, before), steps[|steps| - 1]);
    }
  }

  /** At most ten plays are accepted in one match. */
  lemma AtMostTenPlays(s: MatchState, steps: seq<Step>)
    requires Initial(s)
    ensures AcceptedPlays(s, steps) <= 10
  {
    PlaysAreBounded(s, steps);
  }

  // ----- mirror symmetry

  function SwapWinner(w: RoundWinner): RoundWinner {
    match w
    case WonByA => WonByB
    case WonByB => WonByA
    case Draw => Draw
  }

  function SwapRound(r: ResolvedRound): ResolvedRound {
    r.(moveA := r.moveB, moveB := r.moveA, winner := SwapWinner(r.winner))
  }

  function SwapRounds(rounds: seq<ResolvedRound>): seq<ResolvedRound> {
    seq(|rounds|, i requires 0 <= i < |rounds| => SwapRound(rounds[i]))
  }

  /** The same match with the two players' seats exchanged. Calls name users, so they stay as they are. */
  function Swap(s: MatchState): MatchState {
    s.(playerA := s.playerB, playerB := s.playerA, scoreA := s.scoreB, scoreB := s.scoreA,
       plays := RoundPlays(s.plays.b, s.plays.a), rounds := SwapRounds(s.rounds))
  }

  lemma SwapMoves(a: Move, b: Move)
    ensures ResolveMoves(b, a) == SwapWinner(ResolveMoves(a, b))
  {}

  lemma SwapAppend(rounds: seq<ResolvedRound>, round: ResolvedRound)
    ensures SwapRounds(rounds + [round]) == SwapRounds(rounds) + [SwapRound(round)]
  {}

  lemma SwapResolve(s: MatchState, moveA: Move, moveB: Move, now: Time)
    requires s.status == WaitingPlays && s.scoreA <= 1 && s.scoreB <= 1
    ensures Resolve(s, moveA, moveB, now).Success? && Resolve(Swap(s), moveB, moveA, now).Success?
    ensures Swap(Resolve(s, moveA, moveB, now).value) == Resolve(Swap(s), moveB, moveA, now).value
  {
    SwapMoves(moveA, moveB);
    SwapAppend(s.rounds, ResolvedRound(s.currentRound, Some(moveA), Some(moveB), ResolveMoves(moveA, moveB), now));
  }

  lemma SwapPlay(s: MatchState, userId: UserId, roundNumber: int, move: Move, now: Time)
    requires Valid(s)
    ensures var p, q := Play(s, userId, roundNumber, move, now), Play(Swap(s), userId, roundNumber, move, now);
            if p.Success? then q.Success? && Swap(p.value) == q.value else q == p
  {
    if Play(s, userId, roundNumber, move, now).Success? {
      var plays := WithPlay(s.plays, PlayerIndex(s, userId).value, move);
      if plays.a.Some? && plays.b.Some? {
        SwapResolve(s.(plays := plays), plays.a.value, plays.b.value, now);
      }
    }
  }

  lemma SwapTimeout(s: MatchState, roundNumber: int, now: Time)
    requires Valid(s)
    ensures var p, q := PhaseTimeout(s, roundNumber, now), PhaseTimeout(Swap(s), roundNumber, now);
            p.Success? && q.Success? && Swap(p.value) == q.value
  {
    var winner := if ResolveSilentPlayer(s.plays) == SilentA then WonByB else WonByA;
    SwapAppend(s.rounds, ResolvedRound(s.currentRound, s.plays.a, s.plays.b, winner, now));
  }

  /** One call, seen from the other seat: same effect, same error. */
  lemma SwapCommutes(s: MatchState, step: Step)
    requires Valid(s)
    ensures Swap(After(s, step)) == After(Swap(s), step)
    ensures Mutate(s, step).Failure? ==> Mutate(Swap(s), step) == Mutate(s, step)
    ensures Mutate(s, step).Success? ==> Mutate(Swap(s), step).Success?
  {
    match step
    case PlayStep(userId, roundNumber, move, now) =>
      if ParseMove(move).Some? {
        SwapPlay(s, userId, roundNumber, ParseMove(move).value, now);
      }
    case TimeoutStep(roundNumber, now) => SwapTimeout(s, roundNumber, now);
    case DisconnectStep(_) =>
  }

  /** Over whole runs: neither seat is favoured. */
  lemma {:induction false} SeatsAreEqual(s: MatchState, steps: seq<Step>)
    requires Initial(s)
    ensures Initial(Swap(s)) && Swap(Run(s, steps)) == Run(Swap(s), steps)
  {
    assert SwapRounds(s.rounds) == s.rounds;
    if steps != [] {
      SeatsAreEqual(s, steps[..|steps| - 1]);
      RunsStayValid(s, steps[..|steps| - 1]);
      SwapCommutes(Run(s, steps[..|steps| - 1]), steps[|steps| - 1]);
    }
  }
}

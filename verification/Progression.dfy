/** Playing the bracket: one finished game at a time. */
module Progression {
  import opened Wrappers
  import opened Seeding
  import opened BracketStructure

  /** A finished game as the job reports it. */
  datatype Ended = Ended(gameId: string, winnerId: Option<PlayerId>, tournamentMatchId: Option<MatchId>)

  datatype ProgressResult =
    | NoWinner
    | NotTournamentMatch
    | AlreadyAdvanced
    | TournamentCompleted
    | Advanced
    | NextMatchNotFound  // thrown; the transaction leaves no trace

  /** The rows of one tournament. `matchOfGame` is the matchId column, read from game to match. */
  datatype Tournament = Tournament(
    rounds: Rounds,
    matchOfGame: map<string, MatchId>,
    completed: bool,
    winnerId: Option<PlayerId>)

  /** The parity slot rule with its fallback. */
  function ResolveFeederTargetSlotUpdate(feederPosition: nat, parent: MatchDraft, winnerId: PlayerId): Option<Slot> {
    if parent.slotAId == Some(winnerId) || parent.slotBId == Some(winnerId) then None
    else if SlotOf(feederPosition) == A then
      if parent.slotAId.None? then Some(A) else if parent.slotBId.None? then Some(B) else None
    else
      if parent.slotBId.None? then Some(B) else if parent.slotAId.None? then Some(A) else None
  }

  predicate Exists(rounds: Rounds, id: MatchId) {
    Has(rounds, id.round, id.position)
  }

  function At(rounds: Rounds, id: MatchId): MatchDraft
    requires Exists(rounds, id)
  {
    rounds[id.round][id.position]
  }

  function FindTournamentMatch(t: Tournament, e: Ended): (r: Option<MatchId>)
    ensures r.Some? ==> Exists(t.rounds, r.value)
  {
    if e.tournamentMatchId.Some? && Exists(t.rounds, e.tournamentMatchId.value) then e.tournamentMatchId
    else if e.gameId in t.matchOfGame && Exists(t.rounds, t.matchOfGame[e.gameId])
    then Some(t.matchOfGame[e.gameId])
    else None
  }

  function ResolveWinnerSlot(m: MatchDraft, winnerId: PlayerId): Option<Slot> {
    if m.slotAId == Some(winnerId) then Some(A)
    else if m.slotBId == Some(winnerId) then Some(B)
    else None
  }

  /** A match that can be played: both slots filled, no winner. */
  predicate Ready(m: MatchDraft) {
    m.winnerSlot.None? && m.slotAId.Some? && m.slotBId.Some?
  }

  /** The effect of one delivery: the rows after it, its result, and the match to announce. */
  datatype Delivery = Delivery(after: Tournament, result: ProgressResult, notify: Option<MatchId>)

  function Deliver(t: Tournament, e: Ended): Delivery {
    if e.winnerId.None? then Delivery(t, NoWinner, None)
    else match FindTournamentMatch(t, e)
         case None => Delivery(t, NotTournamentMatch, None)
         case Some(id) =>
           var m := At(t.rounds, id);
           if m.winnerSlot.Some? then Delivery(t, AlreadyAdvanced, None)
           else match ResolveWinnerSlot(m, e.winnerId.value)
                case None => Delivery(t, NotTournamentMatch, None)
                case Some(slot) => Decide(t, id, slot, e.winnerId.value)
  }

  function Decide(t: Tournament, id: MatchId, slot: Slot, winnerId: PlayerId): Delivery
    requires Exists(t.rounds, id)
  {
    var m := At(t.rounds, id);
    var decided := Put(t.rounds, id.round, id.position, m.(winnerSlot := Some(slot)));
    if m.nextMatchId.None? then
      Delivery(t.(rounds := decided, completed := true, winnerId := Some(winnerId)), TournamentCompleted, None)
    else if !Exists(decided, m.nextMatchId.value) then Delivery(t, NextMatchNotFound, None)
    else
      var next := m.nextMatchId.value;
      match ResolveFeederTargetSlotUpdate(m.positionIndex, At(decided, next), winnerId)
      case None => Delivery(t.(rounds := decided), Advanced, None)
      case Some(target) =>
        var parent := At(decided, next).Fill(target, winnerId);
        var moved := t.(rounds := Put(decided, next.round, next.position, parent));
        Delivery(moved, Advanced,
                 if Ready(parent) && parent.id !in t.matchOfGame.Values then Some(parent.id) else None)
  }

  /** The service over its stored rows. A transaction that throws puts the rows back. */
  class ProgressionService {
    var rounds: Rounds
    var matchOfGame: map<string, MatchId>
    var completed: bool
    var winnerId: Option<PlayerId>

    function State(): Tournament
      reads this
    {
      Tournament(rounds, matchOfGame, completed, winnerId)
    }

    constructor (rounds: Rounds, matchOfGame: map<string, MatchId>)
      ensures State() == Tournament(rounds, matchOfGame, false, None)
    {
      this.rounds, this.matchOfGame := rounds, matchOfGame;
      completed, winnerId := false, None;
    }

    method ProcessMatchEnded(e: Ended) returns (result: ProgressResult, notify: Option<MatchId>)
      modifies this
      ensures Delivery(State(), result, notify) == Deliver(old(State()), e)
    {
      notify := None;
      if e.winnerId.None? {
        return NoWinner, None;
      }
      var found := FindTournamentMatch(State(), e);
      if found.None? {
        return NotTournamentMatch, None;
      }
      var m := At(rounds, found.value);
      if m.winnerSlot.Some? {
        return AlreadyAdvanced, None;
      }
      var winnerSlot := ResolveWinnerSlot(m, e.winnerId.value);
      if winnerSlot.None? {
        return NotTournamentMatch, None;
      }
      if m.nextMatchId.None? {
        CompleteTournament(found.value, winnerSlot.value, e.winnerId.value);
        return TournamentCompleted, None;
      }
      result, notify := AdvanceWinner(found.value, winnerSlot.value, e.winnerId.value);
    }

    method CompleteTournament(id: MatchId, slot: Slot, winner: PlayerId)
      requires Exists(rounds, id) && At(rounds, id).nextMatchId.None?
      modifies this
      ensures State() == Decide(old(State()), id, slot, winner).after
    {
      rounds := Put(rounds, id.round, id.position, At(rounds, id).(winnerSlot := Some(slot)));
      winnerId, completed := Some(winner), true;
    }

    method AdvanceWinner(id: MatchId, slot: Slot, winner: PlayerId)
      returns (result: ProgressResult, notify: Option<MatchId>)
      requires Exists(rounds, id) && At(rounds, id).nextMatchId.Some?
      modifies this`rounds
      ensures Delivery(State(), result, notify) == Decide(old(State()), id, slot, winner)
    {
      var before := rounds;
      var m := At(rounds, id);
      rounds := Put(rounds, id.round, id.position, m.(winnerSlot := Some(slot)));
      if !Exists(rounds, m.nextMatchId.value) {
        rounds := before;
        return NextMatchNotFound, None;
      }
      var next := m.nextMatchId.value;
      var parentMatch := At(rounds, next);
      var target := ResolveFeederTargetSlotUpdate(m.positionIndex, parentMatch, winner);
      if target.None? {
        return Advanced, None;
      }
      var updatedParent := parentMatch.Fill(target.value, winner);
      rounds := Put(rounds, next.round, next.position, updatedParent);
      if updatedParent.slotAId.None? || updatedParent.slotBId.None?
         || updatedParent.id in matchOfGame.Values || updatedParent.winnerSlot.Some? {
        return Advanced, None;
      }
      return Advanced, Some(updatedParent.id);
    }
  }
}

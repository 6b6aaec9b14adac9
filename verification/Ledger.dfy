/** Persisting ended matches under at-least-once delivery. */
module Ledger {
  import opened Wrappers
  import opened Elo

  type UserId = string

  const DEFAULT_RATING: int := 1000

  datatype EndedRound = EndedRound(roundNumber: nat, moveA: Option<string>, moveB: Option<string>,
                                   winner: string, resolvedAt: int)

  datatype Payload = Payload(
    matchId: string,
    playerA: UserId,
    playerB: UserId,
    rounds: seq<EndedRound>,
    winner: Option<UserId>,
    scoreA: nat,
    scoreB: nat,
    startedAt: int,
    tournamentMatchId: Option<string>)

  datatype MatchRow = MatchRow(playerA: UserId, playerB: UserId, winnerId: Option<UserId>,
                               scoreA: nat, scoreB: nat, startedAt: int, endedAt: int)

  datatype RatingRow = RatingRow(rating: int, gamesPlayed: nat)

  datatype HistoryRow = HistoryRow(userId: UserId, matchId: string, ratingBefore: int, ratingAfter: int, delta: int)

  datatype Ledger = Ledger(
    matches: map<string, MatchRow>,
    ratings: map<UserId, RatingRow>,
    history: seq<HistoryRow>,
    rounds: map<(string, nat), EndedRound>,
    links: map<string, Option<string>>)  // tournament match -> its game, for every tournament match

  datatype PersistResult = Created | AlreadyExists | Thrown

  /** The expected score of one rating against another. */
  type Expected = f: (int, int) -> real | forall a, b :: 0.0 <= f(a, b) <= 1.0
    witness (a: int, b: int) => 0.5

  function FindOrCreate(ratings: map<UserId, RatingRow>, u: UserId): RatingRow {
    if u in ratings then ratings[u] else RatingRow(DEFAULT_RATING, 0)
  }

  function ToEloOutcome(p: Payload): Outcome {
    if p.winner == Some(p.playerA) then AWins
    else if p.winner == Some(p.playerB) then BWins
    else Drawn
  }

  function GetEndedAt(p: Payload, now: int): int {
    if p.rounds == [] then now else p.rounds[|p.rounds| - 1].resolvedAt
  }

  /** Upserting rounds one by one: a round number that is already there is left alone. */
  function WithRounds(stored: map<(string, nat), EndedRound>, id: string, rounds: seq<EndedRound>): map<(string, nat), EndedRound> {
    if rounds == [] then stored
    else
      var before := WithRounds(stored, id, rounds[..|rounds| - 1]);
      var r := rounds[|rounds| - 1];
      if (id, r.roundNumber) in before then before else before[(id, r.roundNumber) := r]
  }

  /** Nothing stored is overwritten, every round of the game is there, and a repeated number keeps its first round. */
  lemma {:induction false} RoundsExactly(stored: map<(string, nat), EndedRound>, id: string, rounds: seq<EndedRound>,
                                         key: (string, nat))
    ensures var after := WithRounds(stored, id, rounds);
            && (key in after <==> key in stored || exists i :: 0 <= i < |rounds| && key == (id, rounds[i].roundNumber))
            && (key in stored ==> after[key] == stored[key])
            && (key in after && key !in stored ==>
                  exists i :: && 0 <= i < |rounds| && key == (id, rounds[i].roundNumber) && after[key] == rounds[i]
                              && forall j :: 0 <= j < i ==> key != (id, rounds[j].roundNumber))
  {
    if rounds != [] {
      var before, last := rounds[..|rounds| - 1], rounds[|rounds| - 1];
      RoundsExactly(stored, id, before, key);
      assert forall i :: 0 <= i < |before| ==> before[i] == rounds[i];
      if key == (id, last.roundNumber) && key !in WithRounds(stored, id, before) {
        assert rounds[|before|] == last;
      }
    }
  }

  function EloOf(l: Ledger, p: Payload, expected: Expected): Result<EloResult, EloError> {
    var a, b := FindOrCreate(l.ratings, p.playerA), FindOrCreate(l.ratings, p.playerB);
    ComputeElo(a.rating, b.rating, ToEloOutcome(p), a.gamesPlayed, b.gamesPlayed, expected(a.rating, b.rating))
  }

  predicate LinkedAlready(l: Ledger, p: Payload) {
    p.tournamentMatchId.Some? && p.tournamentMatchId.value in l.links && l.links[p.tournamentMatchId.value].Some?
  }

  predicate LinkMissing(l: Ledger, p: Payload) {
    p.tournamentMatchId.Some? && p.tournamentMatchId.value !in l.links
  }

  /** One user's new rating, and one more game. */
  function Rated(ratings: map<UserId, RatingRow>, u: UserId, rating: int): map<UserId, RatingRow> {
    ratings[u := RatingRow(rating, FindOrCreate(ratings, u).gamesPlayed + 1)]
  }

  /** The whole transaction: all of it, or none. */
  function Persist(l: Ledger, p: Payload, now: int, expected: Expected): (Ledger, PersistResult) {
    if p.matchId in l.matches || LinkedAlready(l, p) then (l, AlreadyExists)
    else match EloOf(l, p, expected)
         case Failure(_) => (l, Thrown)
         case Success(elo) => if LinkMissing(l, p) then (l, Thrown) else (Recorded(l, p, elo, now), Created)
  }

  function Recorded(l: Ledger, p: Payload, elo: EloResult, now: int): Ledger {
    var a, b := FindOrCreate(l.ratings, p.playerA), FindOrCreate(l.ratings, p.playerB);
    Ledger(
      l.matches[p.matchId := MatchRow(p.playerA, p.playerB, p.winner, p.scoreA, p.scoreB, p.startedAt, GetEndedAt(p, now))],
      Rated(Rated(l.ratings, p.playerA, elo.newRatingA), p.playerB, elo.newRatingB),
      l.history + [HistoryRow(p.playerA, p.matchId, a.rating, elo.newRatingA, elo.deltaA),
                   HistoryRow(p.playerB, p.matchId, b.rating, elo.newRatingB, elo.deltaB)],
      WithRounds(l.rounds, p.matchId, p.rounds),
      if p.tournamentMatchId.Some? then l.links[p.tournamentMatchId.value := Some(p.matchId)] else l.links)
  }

  /** The same transaction statement by statement; a throw restores what it had written. */
  class LedgerStore {
    var matches: map<string, MatchRow>
    var ratings: map<UserId, RatingRow>
    var history: seq<HistoryRow>
    var rounds: map<(string, nat), EndedRound>
    var links: map<string, Option<string>>

    function State(): Ledger
      reads this
    {
      Ledger(matches, ratings, history, rounds, links)
    }

    constructor (links: map<string, Option<string>>)
      ensures State() == Ledger(map[], map[], [], map[], links)
    {
      matches, ratings, history, rounds, this.links := map[], map[], [], map[], links;
    }

    method Rollback(saved: Ledger)
      modifies this
      ensures State() == saved
    {
      matches, ratings, history, rounds, links := saved.matches, saved.ratings, saved.history, saved.rounds, saved.links;
    }

    method FindOrCreateRating(u: UserId) returns (row: RatingRow)
      modifies this`ratings
      ensures row == FindOrCreate(old(ratings), u) && ratings == old(ratings)[u := row]
    {
      if u !in ratings {
        ratings := ratings[u := RatingRow(DEFAULT_RATING, 0)];
      }
      row := ratings[u];
    }

    method UpdateRating(u: UserId, rating: int)
      requires u in ratings
      modifies this`ratings
      ensures ratings == Rated(old(ratings), u, rating)
    {
      ratings := ratings[u := RatingRow(rating, ratings[u].gamesPlayed + 1)];
    }

    method UpsertRounds(id: string, ended: seq<EndedRound>)
      modifies this`rounds
      ensures rounds == WithRounds(old(rounds), id, ended)
    {
      for i := 0 to |ended|
        invariant rounds == WithRounds(old(rounds), id, ended[..i])
      {
        var r := ended[i];
        assert ended[..i + 1][..i] == ended[..i];
        if (id, r.roundNumber) !in rounds {
          rounds := rounds[(id, r.roundNumber) := r];
        }
      }
      assert ended[..|ended|] == ended;
    }

    /** The writes of the transaction, once the ratings are known. */
    method Record(p: Payload, ratingA: RatingRow, ratingB: RatingRow, elo: EloResult, now: int, ghost saved: Ledger)
      requires State() == saved.(ratings := saved.ratings[p.playerA := ratingA][p.playerB := ratingB])
      requires ratingA == FindOrCreate(saved.ratings, p.playerA) && ratingB == FindOrCreate(saved.ratings, p.playerB)
      modifies this
      ensures State() == Recorded(saved, p, elo, now)
    {
      matches := matches[p.matchId :=
        MatchRow(p.playerA, p.playerB, p.winner, p.scoreA, p.scoreB, p.startedAt, GetEndedAt(p, now))];
      if p.tournamentMatchId.Some? {
        links := links[p.tournamentMatchId.value := Some(p.matchId)];
      }
      UpsertRounds(p.matchId, p.rounds);
      UpdateRating(p.playerA, elo.newRatingA);
      UpdateRating(p.playerB, elo.newRatingB);
      CreatedRowsAreOverwritten(saved.ratings, p, elo);
      history := history +
        [HistoryRow(p.playerA, p.matchId, ratingA.rating, elo.newRatingA, elo.deltaA),
         HistoryRow(p.playerB, p.matchId, ratingB.rating, elo.newRatingB, elo.deltaB)];
    }

    method PersistMatchEnded(p: Payload, now: int, expected: Expected) returns (result: PersistResult)
      modifies this
      ensures (State(), result) == Persist(old(State()), p, now, expected)
    {
      if p.matchId in matches {
        return AlreadyExists;
      }
      if p.tournamentMatchId.Some? && p.tournamentMatchId.value in links && links[p.tournamentMatchId.value].Some? {
        return AlreadyExists;
      }
      var saved := State();
      var ratingA := FindOrCreateRating(p.playerA);
      var ratingB := FindOrCreateRating(p.playerB);
      var elo := ComputeElo(ratingA.rating, ratingB.rating, ToEloOutcome(p), ratingA.gamesPlayed, ratingB.gamesPlayed,
                            expected(ratingA.rating, ratingB.rating));
      assert elo == EloOf(saved, p, expected);
      if elo.Failure? || (p.tournamentMatchId.Some? && p.tournamentMatchId.value !in links) {
        Rollback(saved);
        return Thrown;
      }
      Record(p, ratingA, ratingB, elo.value, now, saved);
      return Created;
    }
  }

  /** Creating the default rows first makes no difference to what is written. */
  lemma CreatedRowsAreOverwritten(ratings: map<UserId, RatingRow>, p: Payload, elo: EloResult)
    ensures var a, b := FindOrCreate(ratings, p.playerA), FindOrCreate(ratings, p.playerB);
            Rated(Rated(ratings[p.playerA := a][p.playerB := b], p.playerA, elo.newRatingA), p.playerB, elo.newRatingB)
            == Rated(Rated(ratings, p.playerA, elo.newRatingA), p.playerB, elo.newRatingB)
  {
    var a, b := FindOrCreate(ratings, p.playerA), FindOrCreate(ratings, p.playerB);
    var both := ratings[p.playerA := a][p.playerB := b];
    assert FindOrCreate(both, p.playerA) == a;
    assert FindOrCreate(Rated(both, p.playerA, elo.newRatingA), p.playerB) ==
           FindOrCreate(Rated(ratings, p.playerA, elo.newRatingA), p.playerB);
  }
}

/** The ledger over whole job sequences with duplicates, retries and crashes. */
module LedgerRuns {
  import opened Wrappers
  import opened Elo
  import opened Ledger

  /** One attempt at a job. An attempt that crashes is rolled back. */
  datatype Attempt = Attempt(payload: Payload, now: int, crashes: bool)

  function After(l: Ledger, a: Attempt, expected: Expected): Ledger {
    if a.crashes then l else Persist(l, a.payload, a.now, expected).0
  }

  function Run(l: Ledger, attempts: seq<Attempt>, expected: Expected): Ledger {
    if attempts == [] then l
    else After(Run(l, attempts[..|attempts| - 1], expected), attempts[|attempts| - 1], expected)
  }

  predicate Seen(attempts: seq<Attempt>, id: string) {
    exists i :: 0 <= i < |attempts| && !attempts[i].crashes && attempts[i].payload.matchId == id
  }

  /** The first attempt of each job that did not crash, in order. */
  function Deduplicated(attempts: seq<Attempt>): seq<Attempt> {
    if attempts == [] then []
    else
      var before, last := attempts[..|attempts| - 1], attempts[|attempts| - 1];
      Deduplicated(before) + if last.crashes || Seen(before, last.payload.matchId) then [] else [last]
  }

  /** Deduplicating leaves exactly one attempt of every job that had one without a crash, and no other attempt. */
  lemma {:induction false} DeduplicatedMeaning(attempts: seq<Attempt>, id: string)
    ensures var kept := Deduplicated(attempts);
            && (Seen(kept, id) <==> Seen(attempts, id))
            && (forall i :: 0 <= i < |kept| ==> !kept[i].crashes && kept[i] in attempts)
            && (forall i, j | 0 <= i < j < |kept| ::
                  !(kept[i].payload.matchId == id && kept[j].payload.matchId == id))
  {
    if attempts != [] {
      var before, last := attempts[..|attempts| - 1], attempts[|attempts| - 1];
      DeduplicatedMeaning(before, id);
      assert attempts == before + [last];
      SeenAppended(before, last, id);
      if !last.crashes && !Seen(before, last.payload.matchId) {
        SeenAppended(Deduplicated(before), last, id);
      } else {
        assert Deduplicated(before) + [] == Deduplicated(before);
      }
    }
  }

  lemma SeenAppended(attempts: seq<Attempt>, last: Attempt, id: string)
    ensures Seen(attempts + [last], id) <==> Seen(attempts, id) || (!last.crashes && last.payload.matchId == id)
  {
    var more := attempts + [last];
    if i :| 0 <= i < |attempts| && !attempts[i].crashes && attempts[i].payload.matchId == id {
      assert more[i] == attempts[i];
    }
    assert more[|attempts|] == last;
  }

  /** Deliveries of one job carry one payload. */
  predicate SameJobSamePayload(attempts: seq<Attempt>) {
    forall i, j | 0 <= i < |attempts| && 0 <= j < |attempts|
                  && attempts[i].payload.matchId == attempts[j].payload.matchId ::
      attempts[i].payload == attempts[j].payload
  }

  /** The job has no effect on this ledger. */
  predicate Inert(l: Ledger, p: Payload, expected: Expected) {
    Persist(l, p, 0, expected).1 != Created
  }

  /** Once without effect, always without effect: whatever else is persisted in between. */
  lemma InertStays(l: Ledger, p: Payload, q: Attempt, expected: Expected)
    requires Inert(l, p, expected)
    ensures Inert(After(l, q, expected), p, expected)
  {
    var after := After(l, q, expected);
    if after != l {
      if FindOrCreate(l.ratings, p.playerA).rating < 0 {
        NegativeIsFrozen(l, q, p.playerA, expected);
      }
      if FindOrCreate(l.ratings, p.playerB).rating < 0 {
        NegativeIsFrozen(l, q, p.playerB, expected);
      }
    }
  }

  /**
   * Exactly which ended matches are persisted: new ones, whose tournament match
   * (if any) exists and has no game yet, between users neither of whom has a
   * negative rating. Games played are never negative, so nothing else throws.
   */
  lemma PersistedExactly(l: Ledger, p: Payload, now: int, expected: Expected)
    ensures Persist(l, p, now, expected).1 == Created <==>
            && p.matchId !in l.matches
            && (p.tournamentMatchId.Some? ==>
                  p.tournamentMatchId.value in l.links && l.links[p.tournamentMatchId.value].None?)
            && FindOrCreate(l.ratings, p.playerA).rating >= 0
            && FindOrCreate(l.ratings, p.playerB).rating >= 0
    ensures Persist(l, p, now, expected).1 != Created ==> Persist(l, p, now, expected).0 == l
  {
    KFactorNeverGrows(FindOrCreate(l.ratings, p.playerA).rating, FindOrCreate(l.ratings, p.playerA).gamesPlayed,
                      FindOrCreate(l.ratings, p.playerA).rating, FindOrCreate(l.ratings, p.playerA).gamesPlayed);
  }

  function Fifty(a: int, b: int): real {
    0.5
  }

  /** Ratings do become negative: of two users at 10 points the loser drops to -10, and no later match of theirs is persisted. */
  lemma RatingsCanGoNegative(l: Ledger, p: Payload, now: int)
    requires p.playerA != p.playerB && p.winner == Some(p.playerB)
    requires p.matchId !in l.matches && p.tournamentMatchId.None?
    requires p.playerA in l.ratings && l.ratings[p.playerA] == RatingRow(10, 0)
    requires p.playerB in l.ratings && l.ratings[p.playerB] == RatingRow(10, 0)
    ensures var (after, result) := Persist(l, p, now, Fifty);
            && result == Created && after.ratings[p.playerA].rating == -10 && after.ratings[p.playerB].rating == 30
            && forall q: Payload, later: int | q.playerA == p.playerA || q.playerB == p.playerA ::
                 Persist(after, q, later, Fifty).1 != Created
  {
    assert Delta(40, 0.0 - 0.5) == -20 && Delta(40, 1.0 - 0.5) == 20;
    var after := Persist(l, p, now, Fifty).0;
    forall q: Payload, later: int | q.playerA == p.playerA || q.playerB == p.playerA
      ensures Persist(after, q, later, Fifty).1 != Created
    {
      PersistedExactly(after, q, later, Fifty);
    }
  }

  /** A user with a negative rating is in no persisted match until a reset: computing the rating throws. */
  lemma NegativeIsFrozen(l: Ledger, q: Attempt, u: UserId, expected: Expected)
    requires FindOrCreate(l.ratings, u).rating < 0
    ensures FindOrCreate(After(l, q, expected).ratings, u) == FindOrCreate(l.ratings, u)
  {
    PersistedExactly(l, q.payload, q.now, expected);
  }

  /** A job that has been attempted without a crash is without effect from then on. */
  lemma InertAfterAttempt(l: Ledger, a: Attempt, expected: Expected)
    requires !a.crashes
    ensures Inert(After(l, a, expected), a.payload, expected)
  {}

  lemma {:induction false} SeenIsInert(l: Ledger, attempts: seq<Attempt>, p: Payload, expected: Expected)
    requires exists i :: 0 <= i < |attempts| && !attempts[i].crashes && attempts[i].payload == p
    ensures Inert(Run(l, attempts, expected), p, expected)
  {
    var before, last := attempts[..|attempts| - 1], attempts[|attempts| - 1];
    if !last.crashes && last.payload == p {
      InertAfterAttempt(Run(l, before, expected), last, expected);
    } else {
      var i :| 0 <= i < |attempts| && !attempts[i].crashes && attempts[i].payload == p;
      assert before[i] == attempts[i];
      SeenIsInert(l, before, p, expected);
      InertStays(Run(l, before, expected), p, last, expected);
    }
  }

  /** Duplicates, retries and crashes leave the ledger of the deduplicated sequence. */
  lemma {:induction false} DuplicatesDoNotMatter(l: Ledger, attempts: seq<Attempt>, expected: Expected)
    requires SameJobSamePayload(attempts)
    ensures Run(l, attempts, expected) == Run(l, Deduplicated(attempts), expected)
  {
    if attempts != [] {
      var before, last := attempts[..|attempts| - 1], attempts[|attempts| - 1];
      DuplicatesDoNotMatter(l, before, expected);
      if Seen(before, last.payload.matchId) && !last.crashes {
        var i :| 0 <= i < |before| && !before[i].crashes && before[i].payload.matchId == last.payload.matchId;
        assert attempts[i] == before[i];
        SeenIsInert(l, before, last.payload, expected);
      }
      var kept := Deduplicated(before);
      assert (kept + [last])[..|kept|] == kept;
      assert kept + [] == kept;
    }
  }

  // ----- conservation, between two season resets

  /** The rating a user has after the given rows, counted from the ledger at the last reset. */
  function LastRating(base: Ledger, rows: seq<HistoryRow>, u: UserId): int {
    if rows == [] then FindOrCreate(base.ratings, u).rating
    else if rows[|rows| - 1].userId == u then rows[|rows| - 1].ratingAfter
    else LastRating(base, rows[..|rows| - 1], u)
  }

  function SumOfDeltas(rows: seq<HistoryRow>, u: UserId): int {
    if rows == [] then 0
    else SumOfDeltas(rows[..|rows| - 1], u) + if rows[|rows| - 1].userId == u then rows[|rows| - 1].delta else 0
  }

  function RowsOf(rows: seq<HistoryRow>, u: UserId): nat {
    if rows == [] then 0
    else RowsOf(rows[..|rows| - 1], u) + if rows[|rows| - 1].userId == u then 1 else 0
  }

  /** Every row starts where the user's previous row ended, and adds its delta. */
  predicate Chained(base: Ledger, rows: seq<HistoryRow>) {
    forall i :: 0 <= i < |rows| ==>
      && rows[i].ratingBefore == LastRating(base, rows[..i], rows[i].userId)
      && rows[i].ratingAfter == rows[i].ratingBefore + rows[i].delta
  }

  ghost function MatchesOf(l: Ledger, u: UserId): set<string> {
    set id | id in l.matches && (l.matches[id].playerA == u || l.matches[id].playerB == u)
  }

  /** `rows` is the history written since `base`, and it accounts for ratings, games and matches. */
  ghost predicate Balanced(base: Ledger, l: Ledger, rows: seq<HistoryRow>) {
    && l.history == base.history + rows
    && Chained(base, rows)
    && (forall u :: FindOrCreate(l.ratings, u).rating == LastRating(base, rows, u))
    && (forall u :: FindOrCreate(l.ratings, u).gamesPlayed == FindOrCreate(base.ratings, u).gamesPlayed + RowsOf(rows, u))
    && (forall u :: |MatchesOf(l, u)| == |MatchesOf(base, u)| + RowsOf(rows, u))
  }

  lemma RowAppended(base: Ledger, rows: seq<HistoryRow>, row: HistoryRow)
    requires Chained(base, rows)
    requires row.ratingBefore == LastRating(base, rows, row.userId) && row.ratingAfter == row.ratingBefore + row.delta
    ensures Chained(base, rows + [row])
    ensures forall u :: LastRating(base, rows + [row], u) ==
                        if u == row.userId then row.ratingAfter else LastRating(base, rows, u)
    ensures forall u :: RowsOf(rows + [row], u) == RowsOf(rows, u) + if u == row.userId then 1 else 0
  {
    var more := rows + [row];
    assert more[..|rows|] == rows;
    assert forall i :: 0 <= i < |rows| ==> more[i] == rows[i] && more[..i] == rows[..i];
  }

  lemma MatchesGrow(l: Ledger, id: string, row: MatchRow, u: UserId)
    requires id !in l.matches
    ensures id !in MatchesOf(l, u)
    ensures MatchesOf(l.(matches := l.matches[id := row]), u) ==
            if row.playerA == u || row.playerB == u then MatchesOf(l, u) + {id} else MatchesOf(l, u)
  {}

  lemma MatchesAfter(l: Ledger, id: string, row: MatchRow, u: UserId)
    requires id !in l.matches
    ensures |MatchesOf(l.(matches := l.matches[id := row]), u)| ==
            |MatchesOf(l, u)| + if row.playerA == u || row.playerB == u then 1 else 0
  {
    MatchesGrow(l, id, row, u);
  }

  /** The two rows that a persisted match adds. */
  function NewRows(l: Ledger, p: Payload, elo: EloResult): seq<HistoryRow> {
    [HistoryRow(p.playerA, p.matchId, FindOrCreate(l.ratings, p.playerA).rating, elo.newRatingA, elo.deltaA)] +
    [HistoryRow(p.playerB, p.matchId, FindOrCreate(l.ratings, p.playerB).rating, elo.newRatingB, elo.deltaB)]
  }

  predicate Adds(l: Ledger, p: Payload, elo: EloResult) {
    && elo.newRatingA == FindOrCreate(l.ratings, p.playerA).rating + elo.deltaA
    && elo.newRatingB == FindOrCreate(l.ratings, p.playerB).rating + elo.deltaB
  }

  lemma NewRowsChain(base: Ledger, l: Ledger, rows: seq<HistoryRow>, p: Payload, elo: EloResult)
    requires Balanced(base, l, rows) && p.playerA != p.playerB && Adds(l, p, elo)
    ensures Chained(base, rows + NewRows(l, p, elo))
    ensures forall u :: LastRating(base, rows + NewRows(l, p, elo), u) ==
                        if u == p.playerB then elo.newRatingB
                        else if u == p.playerA then elo.newRatingA
                        else LastRating(base, rows, u)
    ensures forall u :: RowsOf(rows + NewRows(l, p, elo), u) ==
                        RowsOf(rows, u) + if u == p.playerA || u == p.playerB then 1 else 0
  {
    var rowA, rowB := NewRows(l, p, elo)[0], NewRows(l, p, elo)[1];
    assert rows + NewRows(l, p, elo) == rows + [rowA] + [rowB];
    RowAppended(base, rows, rowA);
    RowAppended(base, rows + [rowA], rowB);
  }

  lemma HistoryGrows(base: Ledger, l: Ledger, rows: seq<HistoryRow>, p: Payload, elo: EloResult, now: int)
    requires l.history == base.history + rows
    ensures Recorded(l, p, elo, now).history == base.history + (rows + NewRows(l, p, elo))
  {}

  lemma NewRating(l: Ledger, p: Payload, elo: EloResult, now: int, u: UserId)
    requires p.playerA != p.playerB
    ensures FindOrCreate(Recorded(l, p, elo, now).ratings, u).rating ==
            if u == p.playerB then elo.newRatingB
            else if u == p.playerA then elo.newRatingA
            else FindOrCreate(l.ratings, u).rating
  {}

  lemma OneMoreGame(l: Ledger, p: Payload, elo: EloResult, now: int, u: UserId)
    requires p.playerA != p.playerB && p.matchId !in l.matches
    ensures var after, plays := Recorded(l, p, elo, now), if u == p.playerA || u == p.playerB then 1 else 0;
            && FindOrCreate(after.ratings, u).gamesPlayed == FindOrCreate(l.ratings, u).gamesPlayed + plays
            && |MatchesOf(after, u)| == |MatchesOf(l, u)| + plays
  {
    var after := Recorded(l, p, elo, now);
    MatchesAfter(l, p.matchId, after.matches[p.matchId], u);
    assert MatchesOf(after, u) == MatchesOf(l.(matches := after.matches), u);
  }

  lemma RecordedKeepsBalance(base: Ledger, l: Ledger, rows: seq<HistoryRow>, p: Payload, elo: EloResult, now: int)
    requires Balanced(base, l, rows) && p.playerA != p.playerB && Adds(l, p, elo) && p.matchId !in l.matches
    ensures Balanced(base, Recorded(l, p, elo, now), rows + NewRows(l, p, elo))
  {
    HistoryGrows(base, l, rows, p, elo, now);
    NewRowsChain(base, l, rows, p, elo);
    var all := rows + NewRows(l, p, elo);
    forall u
      ensures FindOrCreate(Recorded(l, p, elo, now).ratings, u).rating == LastRating(base, all, u)
    {
      NewRating(l, p, elo, now, u);
    }
    forall u
      ensures FindOrCreate(Recorded(l, p, elo, now).ratings, u).gamesPlayed ==
              FindOrCreate(base.ratings, u).gamesPlayed + RowsOf(all, u)
      ensures |MatchesOf(Recorded(l, p, elo, now), u)| == |MatchesOf(base, u)| + RowsOf(all, u)
    {
      OneMoreGame(l, p, elo, now, u);
    }
  }

  /** One attempt keeps the books balanced, whatever its fate. */
  lemma PersistKeepsBalance(base: Ledger, l: Ledger, rows: seq<HistoryRow>, a: Attempt, expected: Expected)
    returns (more: seq<HistoryRow>)
    requires Balanced(base, l, rows) && a.payload.playerA != a.payload.playerB
    ensures Balanced(base, After(l, a, expected), more)
  {
    more := rows;
    if !a.crashes && Persist(l, a.payload, a.now, expected).1 == Created {
      var elo := EloOf(l, a.payload, expected).value;
      RecordedKeepsBalance(base, l, rows, a.payload, elo, a.now);
      more := rows + NewRows(l, a.payload, elo);
    }
  }

  predicate BetweenDifferentUsers(attempts: seq<Attempt>) {
    forall i :: 0 <= i < |attempts| ==> attempts[i].payload.playerA != attempts[i].payload.playerB
  }

  lemma {:induction false} DeltasTelescope(base: Ledger, rows: seq<HistoryRow>, u: UserId)
    requires Chained(base, rows)
    ensures LastRating(base, rows, u) == FindOrCreate(base.ratings, u).rating + SumOfDeltas(rows, u)
  {
    if rows != [] {
      var before := rows[..|rows| - 1];
      assert forall i :: 0 <= i < |before| ==> before[i] == rows[i] && before[..i] == rows[..i];
      DeltasTelescope(base, before, u);
    }
  }

  lemma {:induction false} RunsStayBalanced(base: Ledger, attempts: seq<Attempt>, expected: Expected)
    returns (rows: seq<HistoryRow>)
    requires BetweenDifferentUsers(attempts)
    ensures Balanced(base, Run(base, attempts, expected), rows)
  {
    rows := [];
    if attempts != [] {
      var before, last := attempts[..|attempts| - 1], attempts[|attempts| - 1];
      rows := RunsStayBalanced(base, before, expected);
      rows := PersistKeepsBalance(base, Run(base, before, expected), rows, last, expected);
    }
  }

  /**
   * Whatever the attempts since the last reset: history is only appended to, a
   * rating is the rating at the reset plus the sum of the user's deltas since,
   * the new rows chain, and games played and persisted matches grow alike.
   */
  lemma RatingsAddUp(base: Ledger, attempts: seq<Attempt>, expected: Expected, u: UserId)
    returns (rows: seq<HistoryRow>)
    requires BetweenDifferentUsers(attempts)
    ensures var l := Run(base, attempts, expected);
            && l.history == base.history + rows && Chained(base, rows)
            && FindOrCreate(l.ratings, u).rating == FindOrCreate(base.ratings, u).rating + SumOfDeltas(rows, u)
            && FindOrCreate(l.ratings, u).gamesPlayed - FindOrCreate(base.ratings, u).gamesPlayed ==
               |MatchesOf(l, u)| - |MatchesOf(base, u)| == RowsOf(rows, u)
  {
    rows := RunsStayBalanced(base, attempts, expected);
    DeltasTelescope(base, rows, u);
  }

  /** A tournament match is linked once: the link never changes, and no second game of it is persisted. */
  lemma {:induction false} OneGamePerTournamentMatch(l: Ledger, attempts: seq<Attempt>, expected: Expected, t: string)
    requires t in l.links && l.links[t].Some?
    ensures var after := Run(l, attempts, expected);
            && t in after.links && after.links[t] == l.links[t]
            && forall a: Attempt :: a.payload.tournamentMatchId == Some(t) ==>
                 Persist(after, a.payload, a.now, expected) == (after, AlreadyExists)
  {
    if attempts != [] {
      OneGamePerTournamentMatch(l, attempts[..|attempts| - 1], expected, t);
    }
  }

  // ----- what a persisted match changes

  /** The points of a user in a match: the winner's 1, the loser's 0, 1/2 each when the winner is neither. */
  function Points(p: Payload, u: UserId): real {
    if p.winner == Some(u) then 1.0
    else if p.winner == Some(p.playerA) || p.winner == Some(p.playerB) then 0.0
    else 0.5
  }

  /** A user's rating and games before the match: 1000 and none when there is no row. */
  function Standing(l: Ledger, u: UserId): RatingRow {
    if u in l.ratings then l.ratings[u] else RatingRow(1000, 0)
  }

  function KOf(row: RatingRow): real {
    if row.rating > 2400 then 16.0 else if row.gamesPlayed < 30 then 40.0 else 32.0
  }

  /** The rounded gain of a user whose expected score was e. */
  function Gain(l: Ledger, p: Payload, u: UserId, e: real): int {
    Round(KOf(Standing(l, u)) * (Points(p, u) - e))
  }

  lemma EloOfPayload(l: Ledger, p: Payload, expected: Expected)
    requires p.playerA != p.playerB && EloOf(l, p, expected).Success?
    ensures var a, b := Standing(l, p.playerA), Standing(l, p.playerB);
            var e := expected(a.rating, b.rating);
            var gainA, gainB := Gain(l, p, p.playerA, e), Gain(l, p, p.playerB, 1.0 - e);
            EloOf(l, p, expected).value == EloResult(a.rating + gainA, b.rating + gainB, gainA, gainB)
  {
    var a, b := Standing(l, p.playerA), Standing(l, p.playerB);
    var e, outcome := expected(a.rating, b.rating), ToEloOutcome(p);
    assert EloOf(l, p, expected) == ComputeElo(a.rating, b.rating, outcome, a.gamesPlayed, b.gamesPlayed, e);
    ComputedDeltas(a.rating, b.rating, outcome, a.gamesPlayed, b.gamesPlayed, e);
    PointsAreScores(p);
    GainIsDelta(l, p, p.playerA, e, ScoreA(outcome) - e);
    GainIsDelta(l, p, p.playerB, 1.0 - e, (1.0 - ScoreA(outcome)) - (1.0 - e));
  }

  lemma PointsAreScores(p: Payload)
    requires p.playerA != p.playerB
    ensures Points(p, p.playerA) == ScoreA(ToEloOutcome(p)) && Points(p, p.playerB) == 1.0 - ScoreA(ToEloOutcome(p))
  {}

  lemma GainIsDelta(l: Ledger, p: Payload, u: UserId, e: real, surprise: real)
    requires Standing(l, u).rating >= 0 && surprise == Points(p, u) - e
    ensures var row := Standing(l, u);
            Gain(l, p, u, e) == Delta(GetKFactor(row.rating, row.gamesPlayed).value, surprise)
  {
    var row := Standing(l, u);
    assert KOf(row) == GetKFactor(row.rating, row.gamesPlayed).value as real;
  }

  /**
   * Everything a persisted match writes, from the payload and the old rows: the
   * match row, both ratings by the rounded K * (score - expected), one more
   * game each, two history rows; nobody else's rating row changes.
   */
  lemma PersistedRows(l: Ledger, p: Payload, now: int, expected: Expected)
    requires p.playerA != p.playerB && Persist(l, p, now, expected).1 == Created
    ensures var after := Persist(l, p, now, expected).0;
            var a, b := Standing(l, p.playerA), Standing(l, p.playerB);
            var e := expected(a.rating, b.rating);
            var gainA, gainB := Gain(l, p, p.playerA, e), Gain(l, p, p.playerB, 1.0 - e);
            && after.ratings == l.ratings[p.playerA := RatingRow(a.rating + gainA, a.gamesPlayed + 1)]
                                         [p.playerB := RatingRow(b.rating + gainB, b.gamesPlayed + 1)]
            && after.history == l.history +
                 [HistoryRow(p.playerA, p.matchId, a.rating, a.rating + gainA, gainA),
                  HistoryRow(p.playerB, p.matchId, b.rating, b.rating + gainB, gainB)]
            && after.matches == l.matches[p.matchId :=
                 MatchRow(p.playerA, p.playerB, p.winner, p.scoreA, p.scoreB, p.startedAt,
                          if p.rounds == [] then now else p.rounds[|p.rounds| - 1].resolvedAt)]
  {
    EloOfPayload(l, p, expected);
  }

  lemma GainSigns(l: Ledger, p: Payload, u: UserId, e: real)
    requires 0.0 <= e <= 1.0
    ensures Points(p, u) == 1.0 ==> Gain(l, p, u, e) >= 0
    ensures Points(p, u) == 0.0 ==> Gain(l, p, u, e) <= 0
  {
    var row := Standing(l, u);
    DeltaWithin(if row.rating > 2400 then 16 else if row.gamesPlayed < 30 then 40 else 32, Points(p, u) - e);
  }

  /** The winner of a persisted match never drops, and the loser never rises. */
  lemma WinnersDoNotDrop(l: Ledger, p: Payload, now: int, expected: Expected, winner: UserId, loser: UserId)
    requires p.playerA != p.playerB && Persist(l, p, now, expected).1 == Created
    requires p.winner == Some(winner) && winner != loser && {winner, loser} == {p.playerA, p.playerB}
    ensures var after := Persist(l, p, now, expected).0;
            && Standing(after, winner).rating >= Standing(l, winner).rating
            && Standing(after, loser).rating <= Standing(l, loser).rating
  {
    assert p.playerA in {winner, loser} && p.playerB in {winner, loser};
    var e := expected(Standing(l, p.playerA).rating, Standing(l, p.playerB).rating);
    PersistedRows(l, p, now, expected);
    GainSigns(l, p, p.playerA, e);
    GainSigns(l, p, p.playerB, 1.0 - e);
  }

  /** A persisted game of a tournament match is linked to it, and a link names a persisted game. */
  lemma PersistLinks(l: Ledger, p: Payload, now: int, expected: Expected)
    requires Persist(l, p, now, expected).1 == Created
    ensures var after := Persist(l, p, now, expected).0;
            && p.matchId !in l.matches && p.matchId in after.matches
            && (p.tournamentMatchId.Some? ==>
                  && l.links[p.tournamentMatchId.value] == None
                  && after.links == l.links[p.tournamentMatchId.value := Some(p.matchId)])
            && (p.tournamentMatchId.None? ==> after.links == l.links)
  {}
}

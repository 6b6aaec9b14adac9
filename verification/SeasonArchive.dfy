/** Closing a season: leagues, ranked standings, and the reset of every rating. */
module SeasonArchive {
  import opened Wrappers
  import opened Sorting
  import opened Elo

  type UserId = string

  datatype League = League(name: string, minRating: int, maxRating: Option<int>)

  datatype LeagueError = EmptyLeagues | InvalidLeagueConfig | NoMatchingLeague

  predicate InLeague(rating: int, league: League) {
    rating >= league.minRating && (league.maxRating.None? || rating <= league.maxRating.value)
  }

  predicate BadConfig(league: League) {
    league.maxRating.Some? && league.maxRating.value < league.minRating
  }

  /** The first league that holds the rating; a bad configuration is noticed when it is reached. */
  function FindLeague(rating: int, leagues: seq<League>): Result<League, LeagueError> {
    if leagues == [] then Failure(NoMatchingLeague)
    else if BadConfig(leagues[0]) then Failure(InvalidLeagueConfig)
    else if InLeague(rating, leagues[0]) then Success(leagues[0])
    else FindLeague(rating, leagues[1..])
  }

  function GetLeagueForRating(rating: int, leagues: seq<League>): Result<League, LeagueError> {
    if leagues == [] then Failure(EmptyLeagues) else FindLeague(rating, leagues)
  }

  /** The league passes: its bounds make sense, and the rating is outside them. */
  predicate Passes(rating: int, league: League) {
    match league.maxRating
    case None => rating < league.minRating
    case Some(top) => league.minRating <= top && (rating < league.minRating || top < rating)
  }

  /** The rating is within the league's bounds. */
  predicate Within(rating: int, league: League) {
    league.minRating <= rating && (league.maxRating == None || rating <= league.maxRating.value)
  }

  lemma {:induction false} FirstFound(rating: int, leagues: seq<League>, league: League)
    ensures FindLeague(rating, leagues) == Success(league) <==>
            exists i :: && 0 <= i < |leagues| && leagues[i] == league && Within(rating, league)
                        && forall j :: 0 <= j < i ==> Passes(rating, leagues[j])
  {
    if leagues != [] {
      var rest := leagues[1..];
      FirstFound(rating, rest, league);
      assert forall j :: 1 <= j < |leagues| ==> leagues[j] == rest[j - 1];
      if i :| && 0 <= i < |leagues| && leagues[i] == league && Within(rating, league)
              && forall j :: 0 <= j < i ==> Passes(rating, leagues[j]) {
        if i > 0 {
          assert rest[i - 1] == league;
          assert forall j :: 0 <= j < i - 1 ==> rest[j] == leagues[j + 1];
        }
      }
      if i :| && 0 <= i < |rest| && rest[i] == league && Within(rating, league)
              && forall j :: 0 <= j < i ==> Passes(rating, rest[j]) {
        assert leagues[i + 1] == league;
      }
    }
  }

  /**
   * Whatever the configuration: the league of a rating is the first one that
   * holds it, all earlier ones being sound and outside; without leagues there
   * is an error of its own.
   */
  lemma FirstLeague(rating: int, leagues: seq<League>, league: League)
    ensures GetLeagueForRating(rating, leagues) == Success(league) <==>
            exists i :: && 0 <= i < |leagues| && leagues[i] == league && Within(rating, league)
                        && forall j :: 0 <= j < i ==> Passes(rating, leagues[j])
    ensures GetLeagueForRating(rating, leagues) == Failure(EmptyLeagues) <==> leagues == []
  {
    FirstFound(rating, leagues, league);
    NeverEmpty(rating, leagues);
  }

  lemma {:induction false} NeverEmpty(rating: int, leagues: seq<League>)
    ensures FindLeague(rating, leagues) != Failure(EmptyLeagues)
  {
    if leagues != [] {
      NeverEmpty(rating, leagues[1..]);
    }
  }

  /** Each league starts one point above the previous one, and the last has no ceiling. */
  predicate Contiguous(leagues: seq<League>) {
    && leagues != []
    && leagues[|leagues| - 1].maxRating.None?
    && (forall i :: 0 <= i < |leagues| - 1 ==>
          leagues[i].maxRating.Some? && leagues[i].maxRating.value + 1 == leagues[i + 1].minRating)
    && (forall i :: 0 <= i < |leagues| && leagues[i].maxRating.Some? ==>
          leagues[i].minRating <= leagues[i].maxRating.value)
  }

  lemma {:induction false} OneHolds(rating: int, leagues: seq<League>)
    requires Contiguous(leagues)
    ensures FindLeague(rating, leagues).Success? <==> rating >= leagues[0].minRating
    ensures FindLeague(rating, leagues).Success? ==>
              exists i :: && 0 <= i < |leagues| && FindLeague(rating, leagues) == Success(leagues[i])
                          && forall j :: 0 <= j < |leagues| ==> (Within(rating, leagues[j]) <==> i == j)
    ensures rating < leagues[0].minRating ==> forall j :: 0 <= j < |leagues| ==> !Within(rating, leagues[j])
  {
    if |leagues| > 1 {
      var rest := leagues[1..];
      assert forall i :: 0 <= i < |rest| ==> rest[i] == leagues[i + 1];
      OneHolds(rating, rest);
      assert forall j :: 1 <= j < |leagues| ==> leagues[j] == rest[j - 1];
      if Within(rating, leagues[0]) {
        assert FindLeague(rating, leagues) == Success(leagues[0]);
      } else if FindLeague(rating, rest).Success? {
        var i :| && 0 <= i < |rest| && FindLeague(rating, rest) == Success(rest[i])
                 && forall j :: 0 <= j < |rest| ==> (Within(rating, rest[j]) <==> i == j);
        assert leagues[i + 1] == rest[i];
      }
    }
  }

  /** With contiguous leagues a rating has a league exactly from the lowest bound up, and it is the only one. */
  lemma LeagueExactly(rating: int, leagues: seq<League>)
    requires Contiguous(leagues)
    ensures GetLeagueForRating(rating, leagues).Success? <==> rating >= leagues[0].minRating
    ensures GetLeagueForRating(rating, leagues).Success? ==>
              exists i :: && 0 <= i < |leagues| && GetLeagueForRating(rating, leagues) == Success(leagues[i])
                          && forall j :: 0 <= j < |leagues| ==> (Within(rating, leagues[j]) <==> i == j)
    ensures rating < leagues[0].minRating ==> forall j :: 0 <= j < |leagues| ==> !Within(rating, leagues[j])
  {
    OneHolds(rating, leagues);
  }

  // ----- the archive

  datatype RatingRow = RatingRow(userId: UserId, rating: int, gamesPlayed: nat)

  datatype Standing = Standing(userId: UserId, finalRating: int, league: string, rank: nat, rewardsDistributed: bool)

  predicate RanksAbove(x: RatingRow, y: RatingRow) {
    x.rating > y.rating || (x.rating == y.rating && x.gamesPlayed >= y.gamesPlayed)
  }

  predicate DistinctUsers(rows: seq<RatingRow>) {
    forall i, j :: 0 <= i < j < |rows| ==> rows[i].userId != rows[j].userId
  }

  function Ranked(rows: seq<RatingRow>): (r: seq<RatingRow>)
    ensures |r| == |rows|
  {
    StableSort(rows, RanksAbove)
  }

  /** The standings of rows in rank order, or nothing when a rating has no league. */
  function StandingsOf(ranked: seq<RatingRow>, leagues: seq<League>): Option<seq<Standing>>
  {
    if ranked == [] then Some([])
    else
      var before, last := ranked[..|ranked| - 1], ranked[|ranked| - 1];
      match (StandingsOf(before, leagues), GetLeagueForRating(last.rating, leagues))
      case (Some(standings), Success(league)) =>
        Some(standings + [Standing(last.userId, last.rating, league.name, |ranked|, false)])
      case _ => None
  }

  function ResetRow(row: RatingRow): RatingRow {
    RatingRow(row.userId, SoftResetRating(row.rating), 0)
  }

  function ResetAll(rows: seq<RatingRow>): (r: seq<RatingRow>)
    ensures |r| == |rows|
  {
    seq(|rows|, i requires 0 <= i < |rows| => ResetRow(rows[i]))
  }

  lemma {:induction false} StandingsFollowRows(ranked: seq<RatingRow>, leagues: seq<League>)
    ensures StandingsOf(ranked, leagues).Some? <==>
            forall i :: 0 <= i < |ranked| ==> GetLeagueForRating(ranked[i].rating, leagues).Success?
    ensures StandingsOf(ranked, leagues).Some? ==>
              var standings := StandingsOf(ranked, leagues).value;
              && |standings| == |ranked|
              && forall i :: 0 <= i < |ranked| ==>
                   standings[i] == Standing(ranked[i].userId, ranked[i].rating,
                                            GetLeagueForRating(ranked[i].rating, leagues).value.name, i + 1, false)
  {
    if ranked != [] {
      var before := ranked[..|ranked| - 1];
      StandingsFollowRows(before, leagues);
      assert forall i :: 0 <= i < |before| ==> before[i] == ranked[i];
    }
  }

  /** One standing per rated user; ranks are 1..N by non-increasing rating, then by games played. */
  lemma ArchiveMeaning(rows: seq<RatingRow>, leagues: seq<League>)
    requires StandingsOf(Ranked(rows), leagues).Some?
    ensures var standings := StandingsOf(Ranked(rows), leagues).value;
            && |standings| == |rows|
            && multiset(Ranked(rows)) == multiset(rows)
            && (forall i :: 0 <= i < |rows| ==> standings[i].rank == i + 1 && !standings[i].rewardsDistributed
                                                && standings[i].userId == Ranked(rows)[i].userId
                                                && standings[i].finalRating == Ranked(rows)[i].rating)
            && (forall i, j :: 0 <= i < j < |rows| ==>
                  standings[i].finalRating > standings[j].finalRating ||
                  (standings[i].finalRating == standings[j].finalRating &&
                   Ranked(rows)[i].gamesPlayed >= Ranked(rows)[j].gamesPlayed))
  {
    assert TotalPreorder(RanksAbove);
    StableSortSorts(rows, RanksAbove);
    StandingsFollowRows(Ranked(rows), leagues);
    assert forall i, j :: 0 <= i < j < |rows| ==> RanksAbove(Ranked(rows)[i], Ranked(rows)[j]);
  }

  // ----- pending rewards

  function Pending(standings: seq<Standing>): seq<nat> {
    if standings == [] then []
    else
      Pending(standings[..|standings| - 1]) +
      if standings[|standings| - 1].rewardsDistributed then [] else [|standings| - 1]
  }

  function Marked(standings: seq<Standing>, i: nat): seq<Standing>
    requires i < |standings|
  {
    standings[i := standings[i].(rewardsDistributed := true)]
  }

  function Rewarded(standings: seq<Standing>): (r: seq<Standing>)
    ensures |r| == |standings|
  {
    seq(|standings|, i requires 0 <= i < |standings| => standings[i].(rewardsDistributed := true))
  }

  predicate AllRewarded(standings: seq<Standing>) {
    forall i :: 0 <= i < |standings| ==> standings[i].rewardsDistributed
  }

  lemma {:induction false} PendingExactly(standings: seq<Standing>)
    ensures forall i: nat :: i in Pending(standings) <==> i < |standings| && !standings[i].rewardsDistributed
    ensures forall j, k :: 0 <= j < k < |Pending(standings)| ==> Pending(standings)[j] < Pending(standings)[k]
    ensures |Pending(standings)| <= |standings|
  {
    if standings != [] {
      var before := standings[..|standings| - 1];
      PendingExactly(before);
      assert forall k :: 0 <= k < |Pending(before)| ==> Pending(before)[k] in Pending(before);
    }
  }

  /** Marking the first pending standing leaves the others pending. */
  lemma {:induction false} MarkFirst(standings: seq<Standing>)
    requires Pending(standings) != []
    ensures Pending(standings)[0] < |standings|
    ensures Pending(Marked(standings, Pending(standings)[0])) == Pending(standings)[1..]
  {
    var before := standings[..|standings| - 1];
    if Pending(before) == [] {
      assert Pending(standings) == [|standings| - 1];
      var after := Marked(standings, |standings| - 1);
      assert after[..|standings| - 1] == before;
    } else {
      MarkFirst(before);
      var first := Pending(before)[0];
      assert Pending(standings)[0] == first;
      var after := Marked(standings, first);
      assert after[..|standings| - 1] == Marked(before, first);
      assert after[|standings| - 1] == standings[|standings| - 1];
    }
  }
}

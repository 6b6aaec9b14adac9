/** From registrations to stored matches, once. */
module GenerateBracket {
  import opened Wrappers
  import opened PowersOfTwo
  import opened Seeding
  import opened Sorting
  import opened BracketShape
  import opened BracketStructure
  import opened BracketBuilder

  datatype Registration = Registration(userId: PlayerId, seed: Option<nat>)

  datatype GenerateResult = Generated | AlreadyGenerated

  datatype GenerateError =
    | NotInProgress
    | LockNotAcquired
    | FewerThanTwo
    | TooMany
    | BadBracket(error: BracketError)

  const DEFAULT_RATING: real := 1000.0

  function RatingFor(ratings: map<PlayerId, Rating>, userId: PlayerId): Rating {
    if userId in ratings && ratings[userId].Finite? then ratings[userId] else Finite(DEFAULT_RATING)
  }

  function PlayersOf(registrations: seq<Registration>, ratings: map<PlayerId, Rating>): (r: seq<Player>)
    ensures |r| == |registrations|
  {
    seq(|registrations|, i requires 0 <= i < |registrations| =>
      Player(registrations[i].userId, RatingFor(ratings, registrations[i].userId)))
  }

  /** Writes one player's seed on the registration rows of that player. */
  function WithSeed(registrations: seq<Registration>, userId: PlayerId, seed: nat): (r: seq<Registration>)
    ensures |r| == |registrations|
  {
    seq(|registrations|, i requires 0 <= i < |registrations| =>
      if registrations[i].userId == userId then registrations[i].(seed := Some(seed)) else registrations[i])
  }

  predicate DistinctUsers(registrations: seq<Registration>) {
    forall i, j :: 0 <= i < j < |registrations| ==> registrations[i].userId != registrations[j].userId
  }

  predicate SameUsers(a: seq<Registration>, b: seq<Registration>) {
    |a| == |b| && forall i :: 0 <= i < |a| ==> a[i].userId == b[i].userId
  }

  /** Each registration of one of the first n seeded players carries that player's seed. */
  predicate SeedsWritten(registrations: seq<Registration>, seeds: seq<SeededPlayer>, n: nat)
    requires n <= |seeds|
  {
    forall i, j | 0 <= i < |registrations| && 0 <= j < n && seeds[j].id == registrations[i].userId ::
      registrations[i].seed == Some(seeds[j].seed)
  }

  /** Every registration has a seed: that of the player who registered. */
  ghost predicate EverybodySeeded(registrations: seq<Registration>, seeds: seq<SeededPlayer>) {
    forall i :: 0 <= i < |registrations| ==>
      exists j :: && 0 <= j < |seeds| && seeds[j].id == registrations[i].userId
                  && registrations[i].seed == Some(j + 1)
  }

  /** What a user counts as: the stored rating when it is finite, and 1000 without one. */
  predicate RatedAs(ratings: map<PlayerId, Rating>, userId: PlayerId, x: real) {
    if userId in ratings && ratings[userId] != NotFinite then ratings[userId] == Finite(x) else x == 1000.0
  }

  predicate SeedBelow(registrations: seq<Registration>, i: int, j: int) {
    && 0 <= i < |registrations| && 0 <= j < |registrations|
    && registrations[i].seed.Some? && registrations[j].seed.Some?
    && registrations[i].seed.value < registrations[j].seed.value
  }

  /** Better rated users have better seeds, and equally rated ones are seeded in the order of their registrations. */
  ghost predicate SeededByRating(registrations: seq<Registration>, ratings: map<PlayerId, Rating>) {
    forall i, j, x, y | 0 <= i < |registrations| && 0 <= j < |registrations|
                        && RatedAs(ratings, registrations[i].userId, x) && RatedAs(ratings, registrations[j].userId, y)
                        && (x > y || (x == y && i < j)) ::
      SeedBelow(registrations, i, j)
  }

  /** What a bracket can be generated from. */
  predicate Generatable(registrations: seq<Registration>, bracketSize: int) {
    2 <= |registrations| <= bracketSize < TWO_TO_THE_32 && IsPow2(bracketSize)
  }

  /** The players fit, and still no bracket of this size can be generated. */
  predicate BadSize(registrations: seq<Registration>, bracketSize: int) {
    2 <= |registrations| <= bracketSize && !Generatable(registrations, bracketSize)
  }

  /** Why a size that is large enough is refused. */
  function SizeError(bracketSize: int): BracketError {
    if PassesBitTest(bracketSize) then InvalidArrayLength else InvalidBracketSize
  }

  lemma BadSizeError(registrations: seq<Registration>, seeds: seq<SeededPlayer>, bracketSize: int)
    requires |seeds| == |registrations| && BadSize(registrations, bracketSize)
    ensures FirstRoundError(seeds, bracketSize) == Some(SizeError(bracketSize))
  {
    BitTestExactly(bracketSize);
  }

  /** Every registered player has a finite rating, so seeding itself never fails here. */
  lemma SeedingSucceeds(registrations: seq<Registration>, ratings: map<PlayerId, Rating>)
    requires DistinctUsers(registrations) && |registrations| >= 2
    ensures var seeded := SeedPlayers(PlayersOf(registrations, ratings));
            seeded.Success? && |seeded.value| == |registrations| && DistinctIds(seeded.value)
  {
    var players := PlayersOf(registrations, ratings);
    SeedPlayersMeaning(players);
    SeedsAreDistinct(players);
  }

  /** The stored rows of one tournament, and the lock of its generation job. */
  class GenerateBracketService {
    var inProgress: bool
    var bracketSize: int
    var registrations: seq<Registration>
    var ratings: map<PlayerId, Rating>
    var matches: Rounds
    var lock: Option<string>

    /** The seeding that this call would use. */
    function Seeds(): Result<seq<SeededPlayer>, BracketError>
      reads this
    {
      SeedPlayers(PlayersOf(registrations, ratings))
    }

    constructor (bracketSize: int, registrations: seq<Registration>, ratings: map<PlayerId, Rating>)
      requires DistinctUsers(registrations)
      ensures matches == [] && this.bracketSize == bracketSize && lock == None && inProgress
      ensures this.registrations == registrations && this.ratings == ratings
    {
      inProgress, this.bracketSize, this.registrations, this.ratings := true, bracketSize, registrations, ratings;
      matches, lock := [], None;
    }

    /**
     * A bracket is generated at most once: stored matches are never replaced.
     * A generated bracket is the built bracket of the seeded players, and each
     * registration carries its player's seed.
     */
    method ProcessGenerateBracket(token: string) returns (r: Result<GenerateResult, GenerateError>)
      requires DistinctUsers(registrations)
      modifies this
      ensures lock == old(lock) && inProgress == old(inProgress) && bracketSize == old(bracketSize) && ratings == old(ratings)
      ensures SameUsers(registrations, old(registrations))
      ensures r == Failure(NotInProgress) <==> !inProgress
      ensures r == Success(AlreadyGenerated) <==> inProgress && old(matches) != []
      ensures r == Failure(LockNotAcquired) <==> inProgress && old(matches) == [] && lock.Some?
      ensures r == Success(Generated) <==>
                inProgress && old(matches) == [] && lock.None? && Generatable(registrations, bracketSize)
      ensures r == Failure(FewerThanTwo) <==>
                inProgress && old(matches) == [] && lock.None? && |registrations| < 2
      ensures r == Failure(TooMany) <==>
                inProgress && old(matches) == [] && lock.None? && |registrations| >= 2 && |registrations| > bracketSize
      ensures r.Failure? && r.error.BadBracket? <==>
                inProgress && old(matches) == [] && lock.None? && BadSize(registrations, bracketSize)
      ensures r.Failure? && r.error.BadBracket? ==> r.error.error == SizeError(bracketSize)
      ensures r != Success(Generated) ==> matches == old(matches) && registrations == old(registrations)
      ensures r == Success(Generated) ==>
                && old(Seeds()).Success?
                && var f := Field(old(Seeds()).value, Log2(bracketSize));
                && f.Valid() && Built(matches, f) && EverybodySeeded(registrations, f.seeds)
                && SeededByRating(registrations, ratings)
    {
      if !inProgress {
        return Failure(NotInProgress);
      }
      if matches != [] {
        return Success(AlreadyGenerated);
      }
      if lock.Some? {
        return Failure(LockNotAcquired);
      }
      lock := Some(token);
      r := GenerateUnderLock();
      lock := None;
    }

    /** Counts the matches again, because another job may have stored some before this one had the lock. */
    method GenerateUnderLock() returns (r: Result<GenerateResult, GenerateError>)
      requires DistinctUsers(registrations)
      modifies this`registrations, this`matches
      ensures SameUsers(registrations, old(registrations))
      ensures r == Success(AlreadyGenerated) <==> old(matches) != []
      ensures r == Success(Generated) <==> old(matches) == [] && Generatable(registrations, bracketSize)
      ensures r == Failure(FewerThanTwo) <==> old(matches) == [] && |registrations| < 2
      ensures r == Failure(TooMany) <==>
                old(matches) == [] && |registrations| >= 2 && |registrations| > bracketSize
      ensures r.Failure? && r.error.BadBracket? <==> old(matches) == [] && BadSize(registrations, bracketSize)
      ensures r.Failure? && r.error.BadBracket? ==> r.error.error == SizeError(bracketSize)
      ensures r != Success(Generated) ==> matches == old(matches) && registrations == old(registrations)
      ensures r == Success(Generated) ==>
                && old(Seeds()).Success?
                && var f := Field(old(Seeds()).value, Log2(bracketSize));
                && f.Valid() && Built(matches, f) && EverybodySeeded(registrations, f.seeds)
                && SeededByRating(registrations, ratings)
    {
      if matches != [] {
        return Success(AlreadyGenerated);
      }
      if |registrations| < 2 {
        return Failure(FewerThanTwo);
      }
      if |registrations| > bracketSize {
        return Failure(TooMany);
      }
      var seeded := SeedPlayers(PlayersOf(registrations, ratings));
      if seeded.Failure? {
        SeedingSucceeds(registrations, ratings);
        assert false;
      }
      SeedingSucceeds(registrations, ratings);
      var seededPlayers := seeded.value;
      var pairings := GenerateFirstRound(seededPlayers, bracketSize);
      if pairings.Failure? {
        BadSizeError(registrations, seededPlayers, bracketSize);
        return Failure(BadBracket(pairings.error));
      }
      var builder := new Builder();
      builder.Build(seededPlayers, bracketSize, pairings.value);
      WriteSeeds(seededPlayers);
      EveryUserIsSeeded(old(registrations), registrations, ratings, seededPlayers);
      SeedsFollowRatings(old(registrations), registrations, ratings, seededPlayers);
      matches := builder.rounds;
      return Success(Generated);
    }

    method WriteSeeds(seeds: seq<SeededPlayer>)
      requires DistinctIds(seeds)
      modifies this`registrations
      ensures SameUsers(registrations, old(registrations))
      ensures SeedsWritten(registrations, seeds, |seeds|)
    {
      for n := 0 to |seeds|
        invariant SameUsers(registrations, old(registrations))
        invariant SeedsWritten(registrations, seeds, n)
      {
        registrations := WithSeed(registrations, seeds[n].id, seeds[n].seed);
      }
    }
  }

  lemma SeedOf(before: seq<Registration>, after: seq<Registration>, ratings: map<PlayerId, Rating>,
               seeds: seq<SeededPlayer>, i: nat) returns (a: nat)
    requires SeedPlayers(PlayersOf(before, ratings)) == Success(seeds) && i < |before|
    requires SameUsers(after, before) && SeedsWritten(after, seeds, |seeds|)
    ensures a < |seeds| && Registered(seeds)[a] == PlayersOf(before, ratings)[i] && after[i].seed == Some(a + 1)
  {
    a := PlaceOf(PlayersOf(before, ratings), i);
    assert seeds[a].id == after[i].userId;
  }

  lemma EveryUserIsSeeded(before: seq<Registration>, after: seq<Registration>, ratings: map<PlayerId, Rating>,
                          seeds: seq<SeededPlayer>)
    requires SeedPlayers(PlayersOf(before, ratings)) == Success(seeds)
    requires SameUsers(after, before) && SeedsWritten(after, seeds, |seeds|)
    ensures EverybodySeeded(after, seeds)
  {
    forall i | 0 <= i < |after|
      ensures exists j :: && 0 <= j < |seeds| && seeds[j].id == after[i].userId && after[i].seed == Some(j + 1)
    {
      var a := SeedOf(before, after, ratings, seeds, i);
      assert seeds[a].id == after[i].userId;
    }
  }

  lemma SeedsFollowRatings(before: seq<Registration>, after: seq<Registration>, ratings: map<PlayerId, Rating>,
                           seeds: seq<SeededPlayer>)
    requires DistinctUsers(before) && SeedPlayers(PlayersOf(before, ratings)) == Success(seeds)
    requires SameUsers(after, before) && SeedsWritten(after, seeds, |seeds|)
    ensures SeededByRating(after, ratings)
  {
    forall i, j, x, y | 0 <= i < |after| && 0 <= j < |after|
                        && RatedAs(ratings, after[i].userId, x) && RatedAs(ratings, after[j].userId, y)
                        && (x > y || (x == y && i < j))
      ensures SeedBelow(after, i, j)
    {
      SeedsOfTwo(before, after, ratings, seeds, i, j, x, y);
    }
  }

  lemma SeedsOfTwo(before: seq<Registration>, after: seq<Registration>, ratings: map<PlayerId, Rating>,
                   seeds: seq<SeededPlayer>, i: nat, j: nat, x: real, y: real)
    requires DistinctUsers(before) && SeedPlayers(PlayersOf(before, ratings)) == Success(seeds)
    requires SameUsers(after, before) && SeedsWritten(after, seeds, |seeds|)
    requires i < |after| && j < |after|
    requires RatedAs(ratings, after[i].userId, x) && RatedAs(ratings, after[j].userId, y)
    requires x > y || (x == y && i < j)
    ensures SeedBelow(after, i, j)
  {
    var players := PlayersOf(before, ratings);
    var a := SeedOf(before, after, ratings, seeds, i);
    var b := SeedOf(before, after, ratings, seeds, j);
    assert Registered(seeds)[a].rating == Finite(x) && Registered(seeds)[b].rating == Finite(y);
    assert i != j ==> before[i].userId != before[j].userId;
    SeedsInOrder(players, seeds, i, j, a, b);
  }

  /** Two different players sit in the seeding by rating, and by registration when they are rated alike. */
  lemma SeedsInOrder(players: seq<Player>, seeds: seq<SeededPlayer>, i: nat, j: nat, a: nat, b: nat)
    requires DistinctPlayers(players) && SeedPlayers(players) == Success(seeds)
    requires i < |players| && j < |players| && a < |seeds| && b < |seeds|
    requires Registered(seeds)[a] == players[i] && Registered(seeds)[b] == players[j]
    requires seeds[a].rating > seeds[b].rating || (seeds[a].rating == seeds[b].rating && i < j)
    ensures a < b
  {
    SeedPlayersMeaning(players);
    SeedsAreDistinct(players);
    if seeds[a].rating == seeds[b].rating {
      assert Before(Registered(seeds), players[i], players[j]);
      var a', b' :| 0 <= a' < b' < |seeds| && Registered(seeds)[a'] == players[i] && Registered(seeds)[b'] == players[j];
      assert seeds[a'].id == seeds[a].id && seeds[b'].id == seeds[b].id;
    }
  }
}

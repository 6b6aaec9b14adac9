/** The bracket package: seeding, bracket size and first-round pairings. */
module Seeding {
  import opened Wrappers
  import opened PowersOfTwo
  import opened Sorting

  type PlayerId = string

  /** A JavaScript number: finite, or one of NaN and the infinities. */
  datatype Rating = Finite(value: real) | NotFinite

  datatype Player = Player(id: PlayerId, rating: Rating)

  datatype SeededPlayer = SeededPlayer(id: PlayerId, rating: real, seed: nat)

  datatype Pairing = Pairing(player1: SeededPlayer, player2: Option<SeededPlayer>)

  datatype BracketError =
    | InsufficientPlayers
    | InvalidPlayerRating(id: PlayerId)
    | InvalidBracketSize
    | PlayersExceedBracketSize
    | InvalidArrayLength  // the RangeError of an array longer than 2^32 - 1

  const MAX_BRACKET_SIZE: nat := 1024

  // ----- seeding

  predicate RatedAtLeast(a: Player, b: Player) {
    match (a.rating, b.rating)
    case (Finite(x), Finite(y)) => x >= y
    case (NotFinite, Finite(_)) => false
    case (_, NotFinite) => true
  }

  function FirstNotFinite(players: seq<Player>): (r: Option<PlayerId>)
    ensures r.None? <==> forall p :: p in players ==> p.rating.Finite?
  {
    if players == [] then None
    else if players[0].rating.NotFinite? then Some(players[0].id)
    else
      assert players == [players[0]] + players[1..];
      FirstNotFinite(players[1..])
  }

  function SeedPlayers(players: seq<Player>): Result<seq<SeededPlayer>, BracketError> {
    if |players| < 2 then Failure(InsufficientPlayers)
    else match FirstNotFinite(players)
         case Some(id) => Failure(InvalidPlayerRating(id))
         case None =>
           var sorted := StableSort(players, RatedAtLeast);
           assert forall p :: p in sorted ==> p in multiset(players);
           Success(seq(|sorted|, i requires 0 <= i < |sorted| =>
             SeededPlayer(sorted[i].id,
                          if sorted[i].rating.Finite? then sorted[i].rating.value else 0.0,
                          i + 1)))
  }

  function Unseeded(s: SeededPlayer): Player {
    Player(s.id, Finite(s.rating))
  }

  function Registered(seeded: seq<SeededPlayer>): (r: seq<Player>)
    ensures |r| == |seeded|
  {
    seq(|seeded|, i requires 0 <= i < |seeded| => Unseeded(seeded[i]))
  }

  lemma SeededIsSorted(players: seq<Player>)
    requires SeedPlayers(players).Success?
    ensures Registered(SeedPlayers(players).value) == StableSort(players, RatedAtLeast)
    ensures forall p :: p in StableSort(players, RatedAtLeast) ==> p.rating.Finite?
  {
    var sorted := StableSort(players, RatedAtLeast);
    forall p | p in sorted
      ensures p.rating.Finite?
    {
      assert p in multiset(sorted);
      assert p in multiset(players);
    }
    var seeded := SeedPlayers(players).value;
    forall i | 0 <= i < |seeded|
      ensures Registered(seeded)[i] == sorted[i]
    {
      assert sorted[i] in sorted;
    }
  }

  /** Where a player is in the seeding. */
  lemma PlaceOf(players: seq<Player>, i: nat) returns (a: nat)
    requires SeedPlayers(players).Success? && i < |players|
    ensures var seeded := SeedPlayers(players).value;
            && a < |seeded| && Registered(seeded)[a] == players[i]
            && seeded[a].id == players[i].id && seeded[a].seed == a + 1
  {
    var sorted := StableSort(players, RatedAtLeast);
    SeededIsSorted(players);
    assert players[i] in multiset(players);
    assert players[i] in multiset(sorted);
    a :| 0 <= a < |sorted| && sorted[a] == players[i];
  }

  /**
   * Seeding renumbers the same players 1..n from the best rating to the worst,
   * and equally rated players keep their registration order. It fails exactly
   * on fewer than two players or a rating that is not finite.
   */
  lemma SeedPlayersMeaning(players: seq<Player>)
    ensures SeedPlayers(players).Success? <==>
            |players| >= 2 && forall p :: p in players ==> p.rating.Finite?
    ensures SeedPlayers(players).Success? ==>
              var seeded := SeedPlayers(players).value;
              && |seeded| == |players|
              && multiset(Registered(seeded)) == multiset(players)
              && (forall i :: 0 <= i < |seeded| ==> seeded[i].seed == i + 1)
              && (forall i, j :: 0 <= i < j < |seeded| ==> seeded[i].rating >= seeded[j].rating)
              && (forall i, j :: 0 <= i < j < |players| && players[i].rating == players[j].rating ==>
                    Before(Registered(seeded), players[i], players[j]))
  {
    if SeedPlayers(players).Success? {
      assert TotalPreorder(RatedAtLeast);
      StableSortSorts(players, RatedAtLeast);
      SeededIsSorted(players);
      var seeded, sorted := SeedPlayers(players).value, StableSort(players, RatedAtLeast);
      forall i, j | 0 <= i < j < |seeded|
        ensures seeded[i].rating >= seeded[j].rating
      {
        assert RatedAtLeast(sorted[i], sorted[j]);
      }
      forall i, j | 0 <= i < j < |players| && players[i].rating == players[j].rating
        ensures Before(sorted, players[i], players[j])
      {
        StableSortKeepsOrder(players, players[i], players[j], RatedAtLeast);
      }
    }
  }

  predicate DistinctIds(seeds: seq<SeededPlayer>) {
    forall i, j :: 0 <= i < j < |seeds| ==> seeds[i].id != seeds[j].id
  }

  predicate DistinctPlayers(players: seq<Player>) {
    DistinctBy(players, IdOf)
  }

  function IdOf(player: Player): PlayerId { player.id }

  /** Distinct registrations give distinct seeds. */
  lemma SeedsAreDistinct(players: seq<Player>)
    requires DistinctPlayers(players) && SeedPlayers(players).Success?
    ensures DistinctIds(SeedPlayers(players).value)
  {
    ReorderKeepsDistinct(players, StableSort(players, RatedAtLeast), IdOf);
  }

  // ----- bracket size

  /**
   * The doubling loop: the smallest power of two that holds every player, up
   * to 1024, and an error exactly outside 2..1024.
   */
  method ComputeBracketSize(registrationCount: int) returns (r: Result<nat, BracketError>)
    ensures registrationCount < 2 <==> r == Failure(InsufficientPlayers)
    ensures registrationCount > MAX_BRACKET_SIZE <==> r == Failure(InvalidBracketSize)
    ensures r.Success? ==> IsPow2(r.value) && r.value < 2 * registrationCount && registrationCount <= r.value
    ensures 2 <= registrationCount <= MAX_BRACKET_SIZE ==> r.Success?
  {
    if registrationCount < 2 {
      return Failure(InsufficientPlayers);
    }
    Log2OfPow2(10);
    assert Pow2(5) == 32;
    assert MAX_BRACKET_SIZE == Pow2(10);
    var size := 1;
    ghost var k := 0;
    while size < registrationCount
      invariant size == Pow2(k) && k <= 10 && size < 2 * registrationCount
      decreases 10 - k
    {
      size := size * 2;
      if size > MAX_BRACKET_SIZE {
        if k < 10 {
          Pow2Monotone(k + 1, 10);
          assert false;
        }
        return Failure(InvalidBracketSize);
      }
      k := k + 1;
      if k > 10 {
        Pow2Monotone(10, k);
        assert false;
      }
    }
    Log2OfPow2(k);
    Pow2Monotone(k, 10);
    return Success(size);
  }

  // ----- first round

  /** Seed i + 1 against seed S - i, or a bye, for every occupied left-hand slot. */
  function FirstRound(seeds: seq<SeededPlayer>, size: nat): (r: seq<Pairing>)
    requires |seeds| <= size
    ensures |r| == if |seeds| < size / 2 then |seeds| else size / 2
  {
    seq(if |seeds| < size / 2 then |seeds| else size / 2,
        i requires 0 <= i < |seeds| && i < size =>
          Pairing(seeds[i], if size - 1 - i < |seeds| then Some(seeds[size - 1 - i]) else None))
  }

  function FirstRoundError(seeds: seq<SeededPlayer>, size: int): Option<BracketError> {
    if size < 2 || !PassesBitTest(size) then Some(InvalidBracketSize)
    else if |seeds| < 2 then Some(InsufficientPlayers)
    else if |seeds| > size then Some(PlayersExceedBracketSize)
    else if size >= TWO_TO_THE_32 then Some(InvalidArrayLength)
    else None
  }

  method GenerateFirstRound(seeds: seq<SeededPlayer>, bracketSize: int)
    returns (r: Result<seq<Pairing>, BracketError>)
    ensures FirstRoundError(seeds, bracketSize).Some? ==>
              r == Failure(FirstRoundError(seeds, bracketSize).value)
    ensures r.Success? <==> 2 <= |seeds| <= bracketSize < TWO_TO_THE_32 && IsPow2(bracketSize)
    ensures r.Success? ==> r.value == FirstRound(seeds, bracketSize)
  {
    BitTestExactly(bracketSize);
    if bracketSize < 2 || !PassesBitTest(bracketSize) {
      return Failure(InvalidBracketSize);
    }
    if |seeds| < 2 {
      return Failure(InsufficientPlayers);
    }
    if |seeds| > bracketSize {
      return Failure(PlayersExceedBracketSize);
    }
    if bracketSize >= TWO_TO_THE_32 {
      return Failure(InvalidArrayLength);
    }
    var slots: seq<Option<SeededPlayer>> :=
      seq(bracketSize, i requires 0 <= i < bracketSize => if i < |seeds| then Some(seeds[i]) else None);
    var matches: seq<Pairing> := [];
    var halfSize := bracketSize / 2;
    for i := 0 to halfSize
      invariant |matches| == if i < |seeds| then i else |seeds|
      invariant forall j :: 0 <= j < |matches| ==> matches[j] == FirstRound(seeds, bracketSize)[j]
    {
      var player1, player2 := slots[i], slots[bracketSize - 1 - i];
      if player1.None? {
        continue;
      }
      matches := matches + [Pairing(player1.value, player2)];
    }
    assert matches == FirstRound(seeds, bracketSize);
    return Success(matches);
  }

  /** The seat of seed i in the first round: its position, and whether it sits on the left. */
  function Seat(size: nat, i: nat): (nat, bool)
    requires i < size
  {
    if i < size / 2 then (i, true) else (size - 1 - i, false)
  }

  function Seated(pairings: seq<Pairing>, position: nat, left: bool): Option<SeededPlayer> {
    if position >= |pairings| then None
    else if left then Some(pairings[position].player1)
    else pairings[position].player2
  }

  lemma SeatHolds(seeds: seq<SeededPlayer>, size: nat, i: nat)
    requires i < |seeds| <= size && size % 2 == 0
    ensures Seated(FirstRound(seeds, size), Seat(size, i).0, Seat(size, i).1) == Some(seeds[i])
  {}

  lemma SeatOf(seeds: seq<SeededPlayer>, size: nat, position: nat, left: bool) returns (i: nat)
    requires |seeds| <= size && size % 2 == 0
    requires Seated(FirstRound(seeds, size), position, left).Some?
    ensures i < |seeds| && Seat(size, i) == (position, left)
  {
    i := if left then position else size - 1 - position;
  }

  /**
   * Pairing loses and repeats nobody: every seed sits in its own seat, every
   * occupied seat is the seat of one seed, and two seeds never share a seat.
   */
  lemma EverySeedHasOneSeat(seeds: seq<SeededPlayer>, size: nat)
    requires |seeds| <= size && size % 2 == 0
    ensures forall i :: 0 <= i < |seeds| ==>
              Seated(FirstRound(seeds, size), Seat(size, i).0, Seat(size, i).1) == Some(seeds[i])
    ensures forall position: nat, left ::
              Seated(FirstRound(seeds, size), position, left).Some? ==>
                exists i :: 0 <= i < |seeds| && Seat(size, i) == (position, left)
    ensures forall i, j :: 0 <= i < j < size ==> Seat(size, i) != Seat(size, j)
  {
    forall i | 0 <= i < |seeds|
      ensures Seated(FirstRound(seeds, size), Seat(size, i).0, Seat(size, i).1) == Some(seeds[i])
    {
      SeatHolds(seeds, size, i);
    }
    forall position: nat, left | Seated(FirstRound(seeds, size), position, left).Some?
      ensures exists i :: 0 <= i < |seeds| && Seat(size, i) == (position, left)
    {
      var i := SeatOf(seeds, size, position, left);
    }
  }
}

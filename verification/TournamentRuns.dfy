/** Whole runs of a tournament, and exactly which fields finish as they should. */
module TournamentRuns {
  import opened Wrappers
  import opened PowersOfTwo
  import opened Seeding
  import opened BracketShape
  import opened BracketStructure
  import opened BracketTheorems
  import opened Progression
  import opened ProgressionInvariant
  import opened Completion

  function StartOf(f: Field, links: map<string, MatchId>): Tournament {
    Tournament(BuiltRounds(f), links, false, None)
  }

  /**
   * Games are played between the two players of a match: a delivery never
   * names a winner for an undecided match that still misses a player. Nothing
   * else is asked: drawn games, replays, strangers and unknown ids may occur.
   */
  predicate Legal(t: Tournament, e: Ended) {
    var found := FindTournamentMatch(t, e);
    e.winnerId.Some? && found.Some? && At(t.rounds, found.value).winnerSlot.None?
    && ResolveWinnerSlot(At(t.rounds, found.value), e.winnerId.value).Some?
    ==> Ready(At(t.rounds, found.value))
  }

  /** A result is delivered, or persistence links a new game to a match that has none. */
  datatype Event = Finished(e: Ended) | Persisted(gameId: string, id: MatchId)

  function Link(t: Tournament, gameId: string, id: MatchId): Tournament {
    if gameId in t.matchOfGame || id in t.matchOfGame.Values then t
    else t.(matchOfGame := t.matchOfGame[gameId := id])
  }

  function Happen(t: Tournament, event: Event): Tournament {
    match event
    case Finished(e) => Deliver(t, e).after
    case Persisted(gameId, id) => Link(t, gameId, id)
  }

  predicate Allowed(t: Tournament, event: Event) {
    event.Finished? ==> Legal(t, event.e)
  }

  predicate LegalRun(t: Tournament, es: seq<Event>)
    decreases |es|
  {
    es == [] || (Allowed(t, es[0]) && LegalRun(Happen(t, es[0]), es[1..]))
  }

  function Run(t: Tournament, es: seq<Event>): Tournament
    decreases |es|
  {
    if es == [] then t else Run(Happen(t, es[0]), es[1..])
  }

  predicate Effective(t: Tournament, e: Ended) {
    Deliver(t, e).result in {Advanced, TournamentCompleted}
  }

  /** How many deliveries decided a match. */
  function Games(t: Tournament, es: seq<Event>): nat
    decreases |es|
  {
    if es == [] then 0 else Decides(t, es[0]) + Games(Happen(t, es[0]), es[1..])
  }

  function Decides(t: Tournament, event: Event): nat {
    if event.Finished? && Effective(t, event.e) then 1 else 0
  }

  ghost predicate HasReady(t: Tournament, f: Field)
    requires Shaped(t.rounds, f)
  {
    exists r: nat, p: nat :: f.InRange(r, p) && Ready(t.rounds[r][p])
  }

  // ----- the invariant

  /** A decided match with nowhere to send its winner: this is what closes the tournament. */
  predicate Closing(rounds: Rounds, f: Field, r: nat, p: nat) {
    Next(f, r, p).None? && Decided(rounds, r, p)
  }

  ghost predicate Inv(t: Tournament, f: Field) {
    && f.Valid() && Wired(t.rounds, f)
    && (t.completed <==> exists r: nat, p: nat :: f.InRange(r, p) && Closing(t.rounds, f, r, p))
    && (t.completed ==> exists r: nat, p: nat ::
          f.InRange(r, p) && Closing(t.rounds, f, r, p) && WinnerOf(t.rounds, r, p) == t.winnerId)
    && (!t.completed ==> t.winnerId.None?)
  }

  lemma NothingClosedAtFirst(rounds: Rounds, f: Field, r: nat, p: nat)
    requires f.Valid() && Built(rounds, f) && Wired(rounds, f) && f.InRange(r, p)
    ensures !Closing(rounds, f, r, p)
  {
    BuiltWinner(rounds, f, r, p);
    assert CellOk(rounds, f, r, p);
    if r == f.rounds - 1 {
      assert p == 0;
      FinalHoldsAll(f);
      SoleIffOne(f, r, p);
    }
  }

  lemma StartKeepsInv(f: Field, links: map<string, MatchId>)
    requires f.Valid()
    ensures Inv(StartOf(f, links), f) && AllGames(BuiltRounds(f), f) == 0
  {
    BuiltIsWired(f);
    NoGameAtFirst(f, f.rounds - 1, 0);
    var rounds := BuiltRounds(f);
    BuiltIsUnique(rounds, f);
    forall r: nat, p: nat | f.InRange(r, p)
      ensures !Closing(rounds, f, r, p)
    {
      NothingClosedAtFirst(rounds, f, r, p);
    }
  }

  /** What one delivery does: nothing, or one ready match is played. */
  lemma DeliveryStep(t: Tournament, f: Field, e: Ended)
    requires Inv(t, f) && Legal(t, e)
    ensures Inv(Deliver(t, e).after, f)
    ensures Deliver(t, e).result != NextMatchNotFound
    ensures !Effective(t, e) ==> Deliver(t, e).after == t
    ensures AllGames(Deliver(t, e).after.rounds, f) ==
            AllGames(t.rounds, f) + if Effective(t, e) then 1 else 0
  {
    var d := Deliver(t, e);
    if e.winnerId.Some? && FindTournamentMatch(t, e).Some? {
      var id := FindTournamentMatch(t, e).value;
      var m := At(t.rounds, id);
      if m.winnerSlot.None? && ResolveWinnerSlot(m, e.winnerId.value).Some? {
        var slot, x := ResolveWinnerSlot(m, e.winnerId.value).value, e.winnerId.value;
        assert f.InRange(id.round, id.position) && CellOk(t.rounds, f, id.round, id.position);
        DecideIsPlayed(t, f, id.round, id.position, slot, x);
        PlayedKeepsWired(t.rounds, f, id.round, id.position, slot, x);
        PlayedAddsOne(t.rounds, f, id.round, id.position, slot, x);
        ClosingAfter(t, f, id.round, id.position, slot, x);
      }
    }
  }

  lemma ClosingAfter(t: Tournament, f: Field, r: nat, p: nat, slot: Slot, x: PlayerId)
    requires Inv(t, f) && f.InRange(r, p)
    requires Ready(t.rounds[r][p]) && SlotId(t.rounds[r][p], slot) == Some(x)
    ensures Inv(Decide(t, MatchId(r, p), slot, x).after, f)
  {
    var after := Decide(t, MatchId(r, p), slot, x).after;
    DecideIsPlayed(t, f, r, p, slot, x);
    PlayedKeepsWired(t.rounds, f, r, p, slot, x);
    assert Next(f, r, p).Some? ==> f.InRange(r + 1, p / 2);
    forall s: nat, q: nat | f.InRange(s, q)
      ensures Closing(after.rounds, f, s, q) ==
              (Closing(t.rounds, f, s, q) || (s == r && q == p && Next(f, r, p).None?))
      ensures WinnerOf(after.rounds, s, q) ==
              if s == r && q == p then Some(x) else WinnerOf(t.rounds, s, q)
    {
      WinnerAfter(t.rounds, f, r, p, slot, x, s, q);
    }
    if Next(f, r, p).None? {
      assert Closing(after.rounds, f, r, p);
    } else if t.completed {
      var s: nat, q: nat :| f.InRange(s, q) && Closing(t.rounds, f, s, q) && WinnerOf(t.rounds, s, q) == t.winnerId;
      assert Closing(after.rounds, f, s, q);
    }
  }

  lemma EventStep(t: Tournament, f: Field, event: Event)
    requires Inv(t, f) && Allowed(t, event)
    ensures Inv(Happen(t, event), f)
    ensures AllGames(Happen(t, event).rounds, f) == AllGames(t.rounds, f) + Decides(t, event)
  {
    if event.Finished? {
      DeliveryStep(t, f, event.e);
    } else {
      LinkKeepsInv(t, f, event.gameId, event.id);
    }
  }

  lemma LinkKeepsInv(t: Tournament, f: Field, gameId: string, id: MatchId)
    requires Inv(t, f)
    ensures Inv(Link(t, gameId, id), f)
  {}

  /** Over whole runs: the invariant holds, and games are counted one by one. */
  lemma {:induction false} RunKeepsInv(t: Tournament, f: Field, es: seq<Event>)
    requires Inv(t, f) && LegalRun(t, es)
    ensures Inv(Run(t, es), f)
    ensures AllGames(Run(t, es).rounds, f) == AllGames(t.rounds, f) + Games(t, es)
    decreases |es|
  {
    if es != [] {
      EventStep(t, f, es[0]);
      RunKeepsInv(Happen(t, es[0]), f, es[1..]);
    }
  }

  /** Delivering the same finished game again changes nothing. */
  lemma ReplayChangesNothing(t: Tournament, f: Field, e: Ended)
    requires Inv(t, f) && Legal(t, e)
    ensures var once := Deliver(t, e).after; Deliver(once, e).after == once
  {
    var once := Deliver(t, e).after;
    DeliveryStep(t, f, e);
    if Effective(t, e) {
      var id := FindTournamentMatch(t, e).value;
      assert f.InRange(id.round, id.position) && CellOk(t.rounds, f, id.round, id.position);
      var slot := ResolveWinnerSlot(At(t.rounds, id), e.winnerId.value).value;
      DecideIsPlayed(t, f, id.round, id.position, slot, e.winnerId.value);
      WinnerAfter(t.rounds, f, id.round, id.position, slot, e.winnerId.value, id.round, id.position);
      assert FindTournamentMatch(once, e) == Some(id);
    }
  }

  /** The game is known, and its match is decided. */
  predicate Recorded(t: Tournament, e: Ended, id: MatchId) {
    FindTournamentMatch(t, e) == Some(id) && At(t.rounds, id).winnerSlot.Some?
  }

  lemma RecordStays(t: Tournament, f: Field, event: Event, e: Ended, id: MatchId)
    requires Inv(t, f) && Allowed(t, event) && Recorded(t, e, id)
    ensures Recorded(Happen(t, event), e, id)
  {
    assert f.InRange(id.round, id.position);
    if event.Finished? && Effective(t, event.e) {
      var played := FindTournamentMatch(t, event.e).value;
      var slot := ResolveWinnerSlot(At(t.rounds, played), event.e.winnerId.value).value;
      assert f.InRange(played.round, played.position);
      DecideIsPlayed(t, f, played.round, played.position, slot, event.e.winnerId.value);
      WinnerSlotAfter(t.rounds, f, played.round, played.position, slot, event.e.winnerId.value, id.round, id.position);
      PlayedStaysShaped(t.rounds, f, played.round, played.position, slot, event.e.winnerId.value);
    } else if event.Finished? {
      DeliveryStep(t, f, event.e);
    }
  }

  lemma {:induction false} RecordStaysOverRuns(t: Tournament, f: Field, es: seq<Event>, e: Ended, id: MatchId)
    requires Inv(t, f) && LegalRun(t, es) && Recorded(t, e, id)
    ensures Recorded(Run(t, es), e, id)
    decreases |es|
  {
    if es != [] {
      EventStep(t, f, es[0]);
      RecordStays(t, f, es[0], e, id);
      RecordStaysOverRuns(Happen(t, es[0]), f, es[1..], e, id);
    }
  }

  /** A result that has decided its match is refused whenever it is delivered again, whatever happened since. */
  lemma ReplayedLater(t: Tournament, f: Field, e: Ended, es: seq<Event>)
    requires Inv(t, f) && Legal(t, e) && Effective(t, e) && LegalRun(Deliver(t, e).after, es)
    ensures var later := Run(Deliver(t, e).after, es); Deliver(later, e) == Delivery(later, AlreadyAdvanced, None)
  {
    var once := Deliver(t, e).after;
    var id := FindTournamentMatch(t, e).value;
    DeliveryStep(t, f, e);
    assert f.InRange(id.round, id.position);
    var slot := ResolveWinnerSlot(At(t.rounds, id), e.winnerId.value).value;
    DecideIsPlayed(t, f, id.round, id.position, slot, e.winnerId.value);
    WinnerSlotAfter(t.rounds, f, id.round, id.position, slot, e.winnerId.value, id.round, id.position);
    RecordStaysOverRuns(once, f, es, e, id);
  }

  // ----- the fields that finish

  /** The match that decides the champion. */
  function Root(f: Field): nat
    requires f.rounds >= 1
  {
    if |f.seeds| == 2 && f.rounds >= 3 then 1 else f.rounds - 1
  }

  ghost predicate Sound(f: Field)
    requires f.rounds >= 1
  {
    && NobodyStarves(f, Root(f), 0)
    && forall r: nat, p: nat :: f.InRange(r, p) && Cut(f, r, p) ==> r == Root(f) && p == 0
  }

  lemma {:induction false} PlayersGrow(f: Field, r: nat, s: nat)
    requires r <= s
    ensures f.Players(r, 0) <= f.Players(s, 0)
    decreases s
  {
    if r < s {
      PlayersGrow(f, r, s - 1);
    }
  }

  /** When everybody starts below (r, 0), the matches above it see no game of their own. */
  lemma {:induction false} NoGameAbove(rounds: Rounds, f: Field, r: nat, s: nat)
    requires f.Valid() && r <= s < f.rounds && f.Players(r, 0) == f.Players(s, 0)
    ensures GamesPlayed(rounds, f, r, 0) == GamesPlayed(rounds, f, s, 0)
    decreases s
  {
    if r < s {
      PlayersGrow(f, r, s - 1);
      ChildrenInRange(f, s, 0);
      NoGameAbove(rounds, f, r, s - 1);
      AtMostOneGameLess(rounds, f, s - 1, 1);
    }
  }

  lemma RootFacts(f: Field)
    requires f.Valid()
    ensures f.InRange(Root(f), 0) && f.Players(Root(f), 0) == |f.seeds| && Next(f, Root(f), 0).None?
    ensures Root(f) < f.rounds - 1 ==> !NobodyStarves(f, f.rounds - 1, 0)
  {
    FinalHoldsAll(f);
    if Root(f) < f.rounds - 1 {
      var k := f.rounds;
      Pow2Monotone(2, k - 1);
      assert f.Size() == 2 * f.Width(0) && f.Width(0) >= 4;
      PlayersWhenSparse(f, 1, 0);
      CutExactly(f, 1, 0);
      PlayersGrow(f, 1, k - 2);
      ChildrenInRange(f, k - 1, 0);
      assert Starved(f, k - 1, 0);
    }
  }

  /** On a wired sound bracket only the root can close the tournament. */
  lemma OnlyTheRootCloses(rounds: Rounds, f: Field, r: nat, p: nat)
    requires f.Valid() && Wired(rounds, f) && Sound(f) && f.InRange(r, p) && Closing(rounds, f, r, p)
    ensures r == Root(f) && p == 0
  {
    RootFacts(f);
    if r == f.rounds - 1 {
      DecidedSawEveryGame(rounds, f, r, p);
    }
  }

  lemma GamesAreBounded(rounds: Rounds, f: Field)
    requires f.Valid()
    ensures AllGames(rounds, f) < |f.seeds|
  {
    FinalHoldsAll(f);
    AtMostOneGameLess(rounds, f, f.rounds - 1, 0);
  }

  lemma GamesOfRoot(rounds: Rounds, f: Field)
    requires f.Valid()
    ensures f.InRange(Root(f), 0) && f.Players(Root(f), 0) == |f.seeds|
    ensures AllGames(rounds, f) == GamesPlayed(rounds, f, Root(f), 0) < |f.seeds|
  {
    RootFacts(f);
    FinalHoldsAll(f);
    NoGameAbove(rounds, f, Root(f), f.rounds - 1);
    AtMostOneGameLess(rounds, f, f.rounds - 1, 0);
  }

  /** Once all games are played, nothing is left to play. */
  lemma NothingLeft(t: Tournament, f: Field)
    requires Inv(t, f) && AllGames(t.rounds, f) == |f.seeds| - 1
    ensures !HasReady(t, f)
  {
    forall r: nat, p: nat | f.InRange(r, p)
      ensures !Ready(t.rounds[r][p])
    {
      if Ready(t.rounds[r][p]) {
        var x := t.rounds[r][p].slotAId.value;
        PlayedAddsOne(t.rounds, f, r, p, A, x);
        GamesAreBounded(Played(t.rounds, f, r, p, A, x), f);
      }
    }
  }

  lemma CompletedSound(t: Tournament, f: Field)
    requires Inv(t, f) && Sound(f) && t.completed
    ensures Decided(t.rounds, Root(f), 0) && AllGames(t.rounds, f) == |f.seeds| - 1
    ensures t.winnerId == WinnerOf(t.rounds, Root(f), 0) && !HasReady(t, f)
  {
    GamesOfRoot(t.rounds, f);
    var r: nat, p: nat :| f.InRange(r, p) && Closing(t.rounds, f, r, p) && WinnerOf(t.rounds, r, p) == t.winnerId;
    OnlyTheRootCloses(t.rounds, f, r, p);
    DecidedSawEveryGame(t.rounds, f, Root(f), 0);
    NothingLeft(t, f);
  }

  lemma OpenSound(t: Tournament, f: Field)
    requires Inv(t, f) && Sound(f) && !t.completed
    ensures f.InRange(Root(f), 0) && !Decided(t.rounds, Root(f), 0) && AllGames(t.rounds, f) < |f.seeds| - 1
    ensures t.winnerId == WinnerOf(t.rounds, Root(f), 0) && HasReady(t, f)
  {
    RootFacts(f);
    GamesOfRoot(t.rounds, f);
    assert !Closing(t.rounds, f, Root(f), 0);
    if AllGames(t.rounds, f) == |f.seeds| - 1 {
      EveryGameDecides(t.rounds, f, Root(f), 0);
    }
    assert CellOk(t.rounds, f, Root(f), 0);
    var r, p := ReadyBelow(t.rounds, f, Root(f), 0);
  }

  /** The facts about every reachable state of a sound field. */
  lemma SoundRuns(f: Field, links: map<string, MatchId>, es: seq<Event>)
    requires f.Valid() && Sound(f) && LegalRun(StartOf(f, links), es)
    ensures var t := Run(StartOf(f, links), es);
            && Shaped(t.rounds, f)
            && (t.completed <==> Decided(t.rounds, Root(f), 0))
            && (t.completed <==> Games(StartOf(f, links), es) == |f.seeds| - 1)
            && Games(StartOf(f, links), es) <= |f.seeds| - 1
            && t.winnerId == WinnerOf(t.rounds, Root(f), 0)
            && (t.completed <==> !HasReady(t, f))
  {
    StartKeepsInv(f, links);
    RunKeepsInv(StartOf(f, links), f, es);
    var t := Run(StartOf(f, links), es);
    if t.completed {
      CompletedSound(t, f);
    } else {
      OpenSound(t, f);
    }
  }

  /**
   * A tournament finishes: in every reachable state it is marked completed
   * exactly when n - 1 games have been decided, and it never stops before that
   * for want of a match to play.
   */
  ghost predicate FinishesFrom(start: Tournament, f: Field) {
    forall es :: LegalRun(start, es) ==>
      var t := Run(start, es);
      && (t.completed <==> Games(start, es) == |f.seeds| - 1)
      && (Shaped(t.rounds, f) && !HasReady(t, f) ==> t.completed)
  }

  ghost predicate Finishes(f: Field, links: map<string, MatchId>) {
    FinishesFrom(StartOf(f, links), f)
  }

  // ----- the fields that do not

  lemma ParentSlotOpen(rounds: Rounds, f: Field, r: nat, p: nat)
    requires f.Valid() && Wired(rounds, f) && f.InRange(r, p) && Next(f, r, p).Some?
    requires rounds[r][p].winnerSlot.None?
    ensures f.InRange(r + 1, p / 2) && Feeder(p / 2, SlotOf(p)) == p
    ensures SlotId(rounds[r + 1][p / 2], SlotOf(p)).None? && rounds[r + 1][p / 2].id == MatchId(r + 1, p / 2)
  {
    assert f.InRange(r + 1, p / 2) && CellOk(rounds, f, r + 1, p / 2) && CellOk(rounds, f, r, p);
    assert Feeder(p / 2, SlotOf(p)) == p;
  }

  /** The game that a player of match (r, p) wins, as the job reports it. */
  function WonBy(m: MatchDraft, slot: Slot): Ended {
    Ended("", SlotId(m, slot), Some(m.id))
  }

  /** The result names match id: by its tournament match id, or else by a game that is linked to it. */
  predicate NamedBy(t: Tournament, e: Ended, id: MatchId) {
    && Exists(t.rounds, id)
    && (|| e.tournamentMatchId == Some(id)
        || (&& (e.tournamentMatchId.Some? ==> !Exists(t.rounds, e.tournamentMatchId.value))
            && e.gameId in t.matchOfGame && t.matchOfGame[e.gameId] == id))
  }

  /**
   * Either player of a ready match may win it, whichever way the result names
   * the match: it is decided for that player, who moves into the parent's slot
   * given by parity, or the tournament closes where there is no parent.
   */
  lemma EitherMayWin(t: Tournament, f: Field, r: nat, p: nat, slot: Slot, e: Ended)
    requires Inv(t, f) && f.InRange(r, p) && Ready(t.rounds[r][p])
    requires NamedBy(t, e, MatchId(r, p)) && e.winnerId == SlotId(t.rounds[r][p], slot)
    ensures var after := Deliver(t, e).after;
            && Legal(t, e) && Effective(t, e) && Shaped(after.rounds, f)
            && after.rounds[r][p].WinnerId() == e.winnerId
            && (Next(f, r, p).Some? ==>
                  && f.InRange(r + 1, p / 2) && SlotId(after.rounds[r + 1][p / 2], SlotOf(p)) == e.winnerId
                  && after.completed == t.completed)
            && (Next(f, r, p).None? ==> after.completed && after.winnerId == e.winnerId)
  {
    assert CellOk(t.rounds, f, r, p);
    var x := e.winnerId.value;
    assert FindTournamentMatch(t, e) == Some(MatchId(r, p));
    DifferentPlayers(t.rounds, f, r, p);
    assert ResolveWinnerSlot(t.rounds[r][p], x) == Some(slot);
    DecideIsPlayed(t, f, r, p, slot, x);
    WinnerAfter(t.rounds, f, r, p, slot, x, r, p);
    if Next(f, r, p).Some? {
      ParentSlotOpen(t.rounds, f, r, p);
      SlotAfter(t.rounds, f, r, p, slot, x, r + 1, p / 2, SlotOf(p));
    }
  }

  /** A result that decides anything decides the match it names, for its winner, and no other. */
  lemma DecidesOnlyNamed(t: Tournament, f: Field, e: Ended) returns (id: MatchId)
    requires Inv(t, f) && Legal(t, e) && Effective(t, e)
    ensures NamedBy(t, e, id) && Ready(At(t.rounds, id))
    ensures var after := Deliver(t, e).after.rounds;
            && Shaped(after, f) && Exists(after, id) && At(after, id).WinnerId() == e.winnerId
            && forall r: nat, p: nat :: f.InRange(r, p) && MatchId(r, p) != id ==>
                 after[r][p].winnerSlot == t.rounds[r][p].winnerSlot
  {
    id := FindTournamentMatch(t, e).value;
    var slot := ResolveWinnerSlot(At(t.rounds, id), e.winnerId.value).value;
    assert f.InRange(id.round, id.position);
    EitherMayWin(t, f, id.round, id.position, slot, e);
    DecideIsPlayed(t, f, id.round, id.position, slot, e.winnerId.value);
    forall r: nat, p: nat | f.InRange(r, p) && MatchId(r, p) != id
      ensures Deliver(t, e).after.rounds[r][p].winnerSlot == t.rounds[r][p].winnerSlot
    {
      WinnerSlotAfter(t.rounds, f, id.round, id.position, slot, e.winnerId.value, r, p);
    }
  }

  /** A new game linked to a match without one: its result then finds that match without naming it. */
  lemma LinkedGameIsFound(t: Tournament, gameId: string, id: MatchId, winnerId: Option<PlayerId>)
    requires gameId !in t.matchOfGame && id !in t.matchOfGame.Values && Exists(t.rounds, id)
    ensures var linked := Happen(t, Persisted(gameId, id));
            && NamedBy(linked, Ended(gameId, winnerId, None), id)
            && linked.rounds == t.rounds && linked.matchOfGame.Keys == t.matchOfGame.Keys + {gameId}
  {}

  lemma NamesItself(t: Tournament, f: Field, r: nat, p: nat)
    requires Inv(t, f) && f.InRange(r, p)
    ensures t.rounds[r][p].id == MatchId(r, p) && Exists(t.rounds, MatchId(r, p))
  {
    assert CellOk(t.rounds, f, r, p);
  }

  lemma DifferentPlayers(rounds: Rounds, f: Field, r: nat, p: nat)
    requires f.Valid() && Wired(rounds, f) && f.InRange(r, p) && Ready(rounds[r][p])
    ensures rounds[r][p].slotAId != rounds[r][p].slotBId
  {
    if rounds[r][p].slotAId == rounds[r][p].slotBId {
      OneSlotPerRound(rounds, f, r, p, p, A, B, rounds[r][p].slotAId.value);
    }
  }

  lemma RunCons(t: Tournament, event: Event, es: seq<Event>)
    requires Allowed(t, event) && LegalRun(Happen(t, event), es)
    ensures LegalRun(t, [event] + es) && Run(t, [event] + es) == Run(Happen(t, event), es)
    ensures Games(t, [event] + es) == Decides(t, event) + Games(Happen(t, event), es)
  {
    assert ([event] + es)[1..] == es;
  }

  lemma PlayOne(t: Tournament, f: Field) returns (e: Ended)
    requires Inv(t, f) && HasReady(t, f)
    ensures Legal(t, e) && Inv(Deliver(t, e).after, f)
    ensures AllGames(t.rounds, f) < AllGames(Deliver(t, e).after.rounds, f) < |f.seeds|
  {
    var r: nat, p: nat :| f.InRange(r, p) && Ready(t.rounds[r][p]);
    e := WonBy(t.rounds[r][p], A);
    NamesItself(t, f, r, p);
    EitherMayWin(t, f, r, p, A, e);
    DeliveryStep(t, f, e);
    GamesAreBounded(Deliver(t, e).after.rounds, f);
  }

  /** From any state, play on until nothing can be played. */
  lemma {:induction false} PlayOut(t: Tournament, f: Field) returns (es: seq<Event>)
    requires Inv(t, f)
    ensures LegalRun(t, es) && Inv(Run(t, es), f) && !HasReady(Run(t, es), f)
    decreases |f.seeds| - AllGames(t.rounds, f)
  {
    es := [];
    if HasReady(t, f) {
      var e := PlayOne(t, f);
      var rest := PlayOut(Deliver(t, e).after, f);
      RunCons(t, Finished(e), rest);
      es := [Finished(e)] + rest;
    }
  }

  /** A pruned match of a larger field closes the tournament after one game. */
  lemma PrunedClosesEarly(start: Tournament, f: Field, r: nat, p: nat)
    requires Inv(start, f) && start.rounds == BuiltRounds(f)
    requires f.InRange(r, p) && Cut(f, r, p) && !(r == Root(f) && p == 0)
    ensures !FinishesFrom(start, f)
  {
    CutExactly(f, r, p);
    BuiltIsUnique(start.rounds, f);
    BuiltWinner(start.rounds, f, r, p);
    assert CellOk(start.rounds, f, r, p);
    var e := WonBy(start.rounds[r][p], A);
    NamesItself(start, f, r, p);
    EitherMayWin(start, f, r, p, A, e);
    RunCons(start, Finished(e), []);
    assert Run(start, [Finished(e)] + []).completed;
  }

  /** With nothing pruned but a starving match, play stops and the tournament stays open. */
  lemma StarvedNeverCloses(start: Tournament, f: Field)
    requires Inv(start, f) && !NobodyStarves(f, f.rounds - 1, 0)
    requires forall r: nat, p: nat :: f.InRange(r, p) ==> !Cut(f, r, p)
    ensures !FinishesFrom(start, f)
  {
    var es := PlayOut(start, f);
    NeverCompleted(Run(start, es), f);
  }

  lemma NeverCompleted(t: Tournament, f: Field)
    requires Inv(t, f) && !NobodyStarves(f, f.rounds - 1, 0)
    requires forall r: nat, p: nat :: f.InRange(r, p) ==> !Cut(f, r, p)
    ensures !t.completed
  {
    forall r: nat, p: nat | f.InRange(r, p)
      ensures !Closing(t.rounds, f, r, p)
    {
      if Closing(t.rounds, f, r, p) {
        assert r == f.rounds - 1 && p == 0;
        DecidedSawEveryGame(t.rounds, f, r, p);
      }
    }
  }

  // ----- the theorem

  /**
   * n players finish in 2^k slots exactly when they fill more than half of
   * them, or there are two of them, or n = 2^(k-1) - 2^m + 1 for some m.
   */
  ghost predicate SizeFits(f: Field)
    requires f.rounds >= 1
  {
    || 2 * |f.seeds| > f.Size()
    || |f.seeds| == 2
    || exists m: nat :: m < f.rounds && |f.seeds| + Pow2(m) == f.Width(0) + 1
  }

  predicate Fits(r: nat, c: nat) {
    r == 0 || c <= 1 || (c > Pow2(r - 1) && Fits(r - 1, c - Pow2(r - 1)))
  }

  lemma {:induction false} FullFits(r: nat)
    ensures Fits(r, Pow2(r))
  {
    if r > 0 {
      FullFits(r - 1);
    }
  }

  lemma {:induction false} FitsExactly(r: nat, c: nat)
    requires 1 <= c <= Pow2(r)
    ensures Fits(r, c) <==> exists m: nat :: m <= r && c + Pow2(m) == Pow2(r) + 1
  {
    if c == 1 {
      assert c + Pow2(r) == Pow2(r) + 1;
    } else if r > 0 {
      var h := Pow2(r - 1);
      if c > h {
        FitsExactly(r - 1, c - h);
        if m: nat :| m <= r && c + Pow2(m) == Pow2(r) + 1 {
          assert m < r;
          assert (c - h) + Pow2(m) == Pow2(r - 1) + 1;
        }
        if m: nat :| m <= r - 1 && (c - h) + Pow2(m) == Pow2(r - 1) + 1 {
          assert c + Pow2(m) == Pow2(r) + 1;
        }
      } else if m: nat :| m <= r && c + Pow2(m) == Pow2(r) + 1 {
        if m < r {
          Pow2Monotone(m, r - 1);
        }
        assert false;
      }
    }
  }

  lemma FitsHalves(r: nat, left: nat, right: nat)
    requires r > 0 && left <= Pow2(r - 1) && right <= Pow2(r - 1) && (right > 0 ==> left == Pow2(r - 1))
    ensures Fits(r, left + right) <==> !(right == 0 && left >= 2) && Fits(r - 1, left) && Fits(r - 1, right)
  {
    FullFits(r - 1);
  }

  lemma {:induction false} SparseStarvation(f: Field, r: nat, p: nat)
    requires f.Valid() && f.InRange(r, p) && 2 * |f.seeds| <= f.Size()
    ensures NobodyStarves(f, r, p) <==> Fits(r, f.Players(r, p))
    decreases r
  {
    if r > 0 {
      ChildrenInRange(f, r, p);
      SparseStarvation(f, r - 1, 2 * p);
      SparseStarvation(f, r - 1, 2 * p + 1);
      PlayersWhenSparse(f, r - 1, 2 * p);
      PlayersWhenSparse(f, r - 1, 2 * p + 1);
      StartNext(r - 1, 2 * p);
      FitsHalves(r, f.Players(r - 1, 2 * p), f.Players(r - 1, 2 * p + 1));
    }
  }

  lemma {:induction false} DenseNeverStarves(f: Field, r: nat, p: nat)
    requires f.Valid() && f.InRange(r, p) && 2 * |f.seeds| > f.Size()
    ensures NobodyStarves(f, r, p)
    decreases r
  {
    if r > 0 {
      ChildrenInRange(f, r, p);
      DenseNeverStarves(f, r - 1, 2 * p);
      DenseNeverStarves(f, r - 1, 2 * p + 1);
      PlayersWhenDense(f, r - 1, 2 * p);
      PlayersWhenDense(f, r - 1, 2 * p + 1);
    }
  }

  lemma SoundIffSizeFits(f: Field)
    requires f.Valid()
    ensures Sound(f) <==> SizeFits(f)
  {
    RootFacts(f);
    assert f.Size() == 2 * f.Width(0);
    forall r: nat, p: nat | f.InRange(r, p)
      ensures Cut(f, r, p) <==> r == 1 && f.rounds >= 3 && |f.seeds| == 2 * p + 2 && p % 2 == 0
    {
      CutExactly(f, r, p);
    }
    if 2 * |f.seeds| > f.Size() {
      DenseNeverStarves(f, Root(f), 0);
      assert f.rounds >= 2 ==> f.Width(0) == 2 * f.Width(1);
    } else {
      SparseStarvation(f, Root(f), 0);
      if |f.seeds| == 2 {
        TwoPlayersFit(f);
      } else {
        ManyPlayersFit(f);
      }
    }
  }

  lemma ManyPlayersFit(f: Field)
    requires f.Valid() && |f.seeds| != 2 && 2 * |f.seeds| <= f.Size()
    ensures Fits(f.rounds - 1, |f.seeds|) <==> SizeFits(f)
    ensures SizeFits(f) ==> |f.seeds| % 4 != 2
  {
    assert f.rounds != 1 && f.rounds != 2 by {
      assert Pow2(2) == 4;
    }
    assert f.Size() == 2 * f.Width(0) && f.Width(0) == Pow2(f.rounds - 1);
    FitsExactly(f.rounds - 1, |f.seeds|);
    if Fits(f.rounds - 1, |f.seeds|) {
      var m: nat :| m <= f.rounds - 1 && |f.seeds| + Pow2(m) == Pow2(f.rounds - 1) + 1;
      assert m < f.rounds && |f.seeds| + Pow2(m) == f.Width(0) + 1;
    }
    if SizeFits(f) {
      var m: nat :| m < f.rounds && |f.seeds| + Pow2(m) == f.Width(0) + 1;
      assert m <= f.rounds - 1 && |f.seeds| + Pow2(m) == Pow2(f.rounds - 1) + 1;
      OddWhenItFits(f);
    }
  }

  lemma TwoPlayersFit(f: Field)
    requires f.Valid() && |f.seeds| == 2 && 2 * |f.seeds| <= f.Size()
    ensures Fits(Root(f), 2)
  {
    assert f.rounds != 1 && f.rounds != 0;
    assert Fits(1, 2);
    assert Pow2(1) == 2;
  }

  /** A sparse field that fits is full, or odd: so nothing is pruned in it. */
  lemma OddWhenItFits(f: Field)
    requires f.Valid() && SizeFits(f) && |f.seeds| != 2 && 2 * |f.seeds| <= f.Size() && f.rounds >= 3
    ensures |f.seeds| % 4 != 2
  {
    assert f.Width(0) == 2 * Pow2(f.rounds - 2) && Pow2(f.rounds - 2) == 2 * Pow2(f.rounds - 3);
    var m: nat :| m < f.rounds && |f.seeds| + Pow2(m) == f.Width(0) + 1;
    if m >= 2 {
      assert Pow2(m) == 2 * Pow2(m - 1) && Pow2(m - 1) == 2 * Pow2(m - 2);
    }
  }

  /**
   * Exactly which tournaments finish, in any of the slot counts an admin may
   * choose. In particular every size given by ComputeBracketSize does, because
   * it leaves less than half the slots free.
   */
  lemma FinishesExactly(f: Field, links: map<string, MatchId>)
    requires f.Valid()
    ensures Finishes(f, links) <==> SizeFits(f)
  {
    SoundIffSizeFits(f);
    StartKeepsInv(f, links);
    if Sound(f) {
      forall es | LegalRun(StartOf(f, links), es)
        ensures var t := Run(StartOf(f, links), es);
                && (t.completed <==> Games(StartOf(f, links), es) == |f.seeds| - 1)
                && (Shaped(t.rounds, f) && !HasReady(t, f) ==> t.completed)
      {
        SoundRuns(f, links, es);
      }
    } else if r: nat, p: nat :| f.InRange(r, p) && Cut(f, r, p) && !(r == Root(f) && p == 0) {
      PrunedClosesEarly(StartOf(f, links), f, r, p);
    } else if Root(f) == f.rounds - 1 {
      StarvedNeverCloses(StartOf(f, links), f);
    }
  }

  lemma {:induction false} RunAppend(t: Tournament, es: seq<Event>, more: seq<Event>)
    requires LegalRun(t, es) && LegalRun(Run(t, es), more)
    ensures LegalRun(t, es + more) && Run(t, es + more) == Run(Run(t, es), more)
    decreases |es|
  {
    if es == [] {
      assert es + more == more;
    } else {
      RunAppend(Happen(t, es[0]), es[1..], more);
      assert (es + more)[1..] == es[1..] + more;
    }
  }

  /** Never stuck: a field that fits can be played to its champion from every reachable state. */
  lemma EveryRunCanFinish(f: Field, links: map<string, MatchId>, es: seq<Event>) returns (more: seq<Event>)
    requires f.Valid() && SizeFits(f) && LegalRun(StartOf(f, links), es)
    ensures LegalRun(StartOf(f, links), es + more)
    ensures var t := Run(StartOf(f, links), es + more);
            && t.completed && t.winnerId.Some?
            && Games(StartOf(f, links), es + more) == |f.seeds| - 1
  {
    StartKeepsInv(f, links);
    RunKeepsInv(StartOf(f, links), f, es);
    more := PlayOut(Run(StartOf(f, links), es), f);
    RunAppend(StartOf(f, links), es, more);
    SoundIffSizeFits(f);
    SoundRuns(f, links, es + more);
    RunKeepsInv(StartOf(f, links), f, es + more);
    RootFacts(f);
    assert CellOk(Run(StartOf(f, links), es + more).rounds, f, Root(f), 0);
  }

  /** Six players in sixteen slots, or three: allowed sizes that do not finish. */
  lemma SparseFieldsThatDoNotFinish(f: Field, links: map<string, MatchId>)
    requires f.Valid() && f.rounds == 4 && |f.seeds| in {3, 4, 6}
    ensures !Finishes(f, links)
  {
    FinishesExactly(f, links);
    assert Pow2(0) == 1 && Pow2(1) == 2 && Pow2(2) == 4 && Pow2(3) == 8;
  }

  // ----- what the players see, in every reachable state

  lemma SlotFollowsFeeder(rounds: Rounds, f: Field, r: nat, p: nat, slot: Slot)
    requires f.Valid() && Wired(rounds, f) && f.InRange(r, p) && r > 0 && !Cut(f, r - 1, Feeder(p, slot))
    ensures f.InRange(r - 1, Feeder(p, slot))
    ensures SlotId(rounds[r][p], slot) == rounds[r - 1][Feeder(p, slot)].WinnerId()
    ensures SlotId(rounds[r][p], slot).Some? <==> rounds[r - 1][Feeder(p, slot)].winnerSlot.Some?
  {
    ChildrenInRange(f, r, p);
    assert CellOk(rounds, f, r, p) && CellOk(rounds, f, r - 1, Feeder(p, slot));
  }

  /** After any run, a slot holds the winner of its feeder, and is empty while the feeder is open. */
  lemma SlotsFollowFeeders(f: Field, links: map<string, MatchId>, es: seq<Event>, r: nat, p: nat, slot: Slot)
    requires f.Valid() && LegalRun(StartOf(f, links), es) && f.InRange(r, p) && r > 0
    requires !Cut(f, r - 1, Feeder(p, slot))
    ensures var rounds := Run(StartOf(f, links), es).rounds;
            && Shaped(rounds, f) && f.InRange(r - 1, Feeder(p, slot))
            && SlotId(rounds[r][p], slot) == rounds[r - 1][Feeder(p, slot)].WinnerId()
            && (SlotId(rounds[r][p], slot).Some? <==> rounds[r - 1][Feeder(p, slot)].winnerSlot.Some?)
  {
    StartKeepsInv(f, links);
    RunKeepsInv(StartOf(f, links), f, es);
    SlotFollowsFeeder(Run(StartOf(f, links), es).rounds, f, r, p, slot);
  }

  lemma AnnouncedByGame(t: Tournament, f: Field, r: nat, p: nat, slot: Slot, x: PlayerId, r': nat, p': nat)
    requires f.Valid() && Wired(t.rounds, f) && f.InRange(r, p) && f.InRange(r', p')
    requires Ready(t.rounds[r][p]) && SlotId(t.rounds[r][p], slot) == Some(x)
    requires MatchId(r', p') !in t.matchOfGame.Values
    ensures var d := Decide(t, MatchId(r, p), slot, x);
            && Shaped(d.after.rounds, f)
            && (d.notify == Some(MatchId(r', p')) <==> !Ready(t.rounds[r'][p']) && Ready(d.after.rounds[r'][p']))
  {
    assert CellOk(t.rounds, f, r, p);
    DecideIsPlayed(t, f, r, p, slot, x);
    WinnerSlotAfter(t.rounds, f, r, p, slot, x, r', p');
    SlotAfter(t.rounds, f, r, p, slot, x, r', p', A);
    SlotAfter(t.rounds, f, r, p, slot, x, r', p', B);
    if Next(f, r, p).Some? {
      FallbackNeverTaken(t, f, r, p, slot, x);
      ParentSlotOpen(t.rounds, f, r, p);
      assert CellOk(t.rounds, f, r', p');
    }
  }

  /** A match is announced to its players by exactly the delivery that makes it ready. */
  lemma AnnouncedWhenReady(t: Tournament, f: Field, e: Ended, r: nat, p: nat)
    requires Inv(t, f) && Legal(t, e) && f.InRange(r, p) && MatchId(r, p) !in t.matchOfGame.Values
    ensures Shaped(Deliver(t, e).after.rounds, f)
    ensures Deliver(t, e).notify == Some(MatchId(r, p)) <==>
            !Ready(t.rounds[r][p]) && Ready(Deliver(t, e).after.rounds[r][p])
  {
    DeliveryStep(t, f, e);
    if Effective(t, e) {
      var id := FindTournamentMatch(t, e).value;
      var slot := ResolveWinnerSlot(At(t.rounds, id), e.winnerId.value).value;
      assert f.InRange(id.round, id.position);
      AnnouncedByGame(t, f, id.round, id.position, slot, e.winnerId.value, r, p);
    }
  }

  lemma WinnerMovesUp(rounds: Rounds, f: Field, r: nat, q: nat)
    requires f.Valid() && Wired(rounds, f) && r > 0 && f.InRange(r - 1, q) && f.InRange(r, q / 2)
    requires !Cut(f, r - 1, q)
    ensures SlotId(rounds[r][q / 2], SlotOf(q)) == rounds[r - 1][q].WinnerId()
  {
    assert CellOk(rounds, f, r, q / 2);
    assert Feeder(q / 2, SlotOf(q)) == q;
  }

  /** A player still in the bracket at round r has won every match below; any other has lost one. */
  lemma {:induction false} StillInOrLost(rounds: Rounds, f: Field, i: nat, r: nat)
    returns (slot: Slot, lostAt: Option<nat>)
    requires f.Valid() && Wired(rounds, f) && i < |f.seeds| && r < f.rounds
    requires forall s: nat, q: nat :: s < r && f.InRange(s, q) ==> !Cut(f, s, q)
    requires r > 0 ==> Decided(rounds, r - 1, f.Block(i, r - 1))
    ensures f.InRange(r, f.Block(i, r))
    ensures lostAt.None? ==> SlotId(rounds[r][f.Block(i, r)], slot) == Some(f.seeds[i].id)
    ensures lostAt.Some? ==> lostAt.value < r && LostAt(rounds, f, i, lostAt.value)
  {
    BlockInRange(f, i, r);
    assert CellOk(rounds, f, r, f.Block(i, r));
    if r == 0 {
      slot, lostAt := if Seat(f.Size(), i).1 then A else B, None;
    } else {
      if r > 1 {
        DecidedBelow(rounds, f, i, r - 1, r - 2);
      }
      slot, lostAt := StillInOrLost(rounds, f, i, r - 1);
      if lostAt.None? {
        var m := rounds[r - 1][f.Block(i, r - 1)];
        if m.winnerSlot == Some(slot) {
          WinnerMovesUp(rounds, f, r, f.Block(i, r - 1));
          slot := SlotOf(f.Block(i, r - 1));
        } else {
          lostAt := Some(r - 1);
          assert LostWith(rounds, f, i, r - 1, slot);
        }
      }
    }
  }

  predicate LostWith(rounds: Rounds, f: Field, i: nat, r: nat, slot: Slot)
    requires i < |f.seeds| && i < f.Size()
  {
    && Decided(rounds, r, f.Block(i, r))
    && SlotId(rounds[r][f.Block(i, r)], slot) == Some(f.seeds[i].id)
    && rounds[r][f.Block(i, r)].winnerSlot != Some(slot)
  }

  /** Seed i has lost its match of round r. */
  ghost predicate LostAt(rounds: Rounds, f: Field, i: nat, r: nat)
    requires i < |f.seeds| && i < f.Size()
  {
    exists slot :: LostWith(rounds, f, i, r, slot)
  }

  lemma ChampionOrLoser(rounds: Rounds, f: Field, i: nat)
    requires f.Valid() && Wired(rounds, f) && Sound(f) && i < |f.seeds|
    requires f.InRange(Root(f), 0) && Decided(rounds, Root(f), 0)
    ensures WinnerOf(rounds, Root(f), 0) == Some(f.seeds[i].id) ||
            exists r: nat :: r <= Root(f) && LostAt(rounds, f, i, r)
  {
    RootBlock(f, i);
    if Root(f) > 0 {
      DecidedBelow(rounds, f, i, Root(f), Root(f) - 1);
    }
    var slot, lostAt := StillInOrLost(rounds, f, i, Root(f));
    if lostAt.None? && rounds[Root(f)][0].winnerSlot != Some(slot) {
      assert LostWith(rounds, f, i, Root(f), slot);
      assert LostAt(rounds, f, i, Root(f));
    }
  }

  /** One champion: when a sound tournament is completed, every other player has lost a match. */
  lemma EverybodyElseLost(f: Field, links: map<string, MatchId>, es: seq<Event>, i: nat)
    requires f.Valid() && SizeFits(f) && LegalRun(StartOf(f, links), es) && i < |f.seeds|
    requires Run(StartOf(f, links), es).completed
    ensures var t := Run(StartOf(f, links), es);
            t.winnerId == Some(f.seeds[i].id) || exists r: nat :: r <= Root(f) && LostAt(t.rounds, f, i, r)
  {
    SoundIffSizeFits(f);
    SoundRuns(f, links, es);
    StartKeepsInv(f, links);
    RunKeepsInv(StartOf(f, links), f, es);
    RootFacts(f);
    ChampionOrLoser(Run(StartOf(f, links), es).rounds, f, i);
  }

  lemma RootBlock(f: Field, i: nat)
    requires f.Valid() && i < |f.seeds|
    ensures f.Block(i, Root(f)) == 0
  {
    if Root(f) == f.rounds - 1 {
      BlockInRange(f, i, Root(f));
    } else {
      Pow2Monotone(3, f.rounds);
      assert Pow2(3) == 8;
      assert f.Block(i, 0) == i;
    }
  }
}

/** Counting games, and when a player waits for an opponent who never comes. */
module Completion {
  import opened Wrappers
  import opened Seeding
  import opened BracketShape
  import opened BracketStructure
  import opened Progression
  import opened ProgressionInvariant

  /** Players come up from both sides of (r, p): a game is needed here. */
  predicate Branching(f: Field, r: nat, p: nat) {
    if r == 0 then f.Players(0, p) == 2
    else f.Players(r - 1, 2 * p) >= 1 && f.Players(r - 1, 2 * p + 1) >= 1
  }

  /** Games decided below and at (r, p). */
  function GamesPlayed(rounds: Rounds, f: Field, r: nat, p: nat): nat
    decreases r
  {
    (if r == 0 then 0
     else GamesPlayed(rounds, f, r - 1, 2 * p) + GamesPlayed(rounds, f, r - 1, 2 * p + 1))
    + (if Branching(f, r, p) && Decided(rounds, r, p) then 1 else 0)
  }

  /** Somebody who must play to get here would find an empty side. */
  predicate Starved(f: Field, r: nat, p: nat)
    requires r > 0
  {
    || (f.Players(r - 1, 2 * p) == 0 && f.Players(r - 1, 2 * p + 1) >= 2)
    || (f.Players(r - 1, 2 * p + 1) == 0 && f.Players(r - 1, 2 * p) >= 2)
  }

  predicate NobodyStarves(f: Field, r: nat, p: nat)
    decreases r
  {
    r == 0 || (!Starved(f, r, p) && NobodyStarves(f, r - 1, 2 * p) && NobodyStarves(f, r - 1, 2 * p + 1))
  }

  lemma {:induction false} AtMostOneGameLess(rounds: Rounds, f: Field, r: nat, p: nat)
    requires f.Valid() && f.InRange(r, p)
    ensures GamesPlayed(rounds, f, r, p) <= if f.Players(r, p) == 0 then 0 else f.Players(r, p) - 1
    decreases r
  {
    if r > 0 {
      ChildrenInRange(f, r, p);
      AtMostOneGameLess(rounds, f, r - 1, 2 * p);
      AtMostOneGameLess(rounds, f, r - 1, 2 * p + 1);
    }
  }

  /** A decided match of at least two players had both feeders decided. */
  lemma DecidedFeeders(rounds: Rounds, f: Field, r: nat, p: nat)
    requires f.Valid() && Wired(rounds, f) && f.InRange(r, p) && r > 0
    requires rounds[r][p].slotAId.Some? && rounds[r][p].slotBId.Some?
    ensures Decided(rounds, r - 1, 2 * p) && Decided(rounds, r - 1, 2 * p + 1)
  {
    assert CellOk(rounds, f, r, p);
    assert Feeder(p, A) == 2 * p && Feeder(p, B) == 2 * p + 1;
  }

  lemma {:induction false} DecidedHoldsSomebody(rounds: Rounds, f: Field, r: nat, p: nat)
    requires f.Valid() && Wired(rounds, f) && f.InRange(r, p) && Decided(rounds, r, p)
    ensures f.Players(r, p) >= 1
    decreases r
  {
    assert CellOk(rounds, f, r, p);
    if r > 0 && f.Players(r, p) != 1 {
      ChildrenInRange(f, r, p);
      DecidedFeeders(rounds, f, r, p);
      DecidedHoldsSomebody(rounds, f, r - 1, 2 * p);
    }
  }

  lemma {:induction false} LoneOrEmptyNeverStarves(f: Field, r: nat, p: nat)
    requires f.Valid() && f.InRange(r, p) && f.Players(r, p) <= 1
    ensures NobodyStarves(f, r, p)
    decreases r
  {
    if r > 0 {
      ChildrenInRange(f, r, p);
      LoneOrEmptyNeverStarves(f, r - 1, 2 * p);
      LoneOrEmptyNeverStarves(f, r - 1, 2 * p + 1);
    }
  }

  /** A decided match has seen all the games below it, and nobody below it starves. */
  lemma {:induction false} DecidedSawEveryGame(rounds: Rounds, f: Field, r: nat, p: nat)
    requires f.Valid() && Wired(rounds, f) && f.InRange(r, p) && Decided(rounds, r, p)
    ensures f.Players(r, p) >= 1 && GamesPlayed(rounds, f, r, p) == f.Players(r, p) - 1
    ensures NobodyStarves(f, r, p)
    decreases r
  {
    DecidedHoldsSomebody(rounds, f, r, p);
    assert CellOk(rounds, f, r, p);
    if f.Players(r, p) == 1 {
      AtMostOneGameLess(rounds, f, r, p);
      LoneOrEmptyNeverStarves(f, r, p);
    } else if r > 0 {
      ChildrenInRange(f, r, p);
      DecidedFeeders(rounds, f, r, p);
      DecidedSawEveryGame(rounds, f, r - 1, 2 * p);
      DecidedSawEveryGame(rounds, f, r - 1, 2 * p + 1);
    }
  }

  /** A side without players has seen no game, any other one game less than it has players at most. */
  lemma GamesOfSides(rounds: Rounds, f: Field, r: nat, p: nat)
    requires f.Valid() && f.InRange(r, p) && r > 0
    ensures var a, b := f.Players(r - 1, 2 * p), f.Players(r - 1, 2 * p + 1);
            && (a >= 1 && b >= 1 ==> GamesPlayed(rounds, f, r - 1, 2 * p) + GamesPlayed(rounds, f, r - 1, 2 * p + 1) <= a + b - 2)
            && (a >= 1 && b >= 1 ==> Branching(f, r, p))
  {
    ChildrenInRange(f, r, p);
    AtMostOneGameLess(rounds, f, r - 1, 2 * p);
    AtMostOneGameLess(rounds, f, r - 1, 2 * p + 1);
  }

  lemma LoneIsDecided(rounds: Rounds, f: Field, r: nat, p: nat)
    requires Wired(rounds, f) && f.InRange(r, p) && f.Players(r, p) == 1
    ensures Decided(rounds, r, p)
  {
    assert CellOk(rounds, f, r, p);
  }

  /** Where nobody starves, playing all the games decides the match. */
  lemma EveryGameDecides(rounds: Rounds, f: Field, r: nat, p: nat)
    requires f.Valid() && Wired(rounds, f) && f.InRange(r, p) && NobodyStarves(f, r, p)
    requires f.Players(r, p) >= 1 && GamesPlayed(rounds, f, r, p) == f.Players(r, p) - 1
    ensures Decided(rounds, r, p)
  {
    if f.Players(r, p) == 1 {
      LoneIsDecided(rounds, f, r, p);
    } else if r > 0 {
      assert !Starved(f, r, p);
      GamesOfSides(rounds, f, r, p);
    }
  }

  lemma SomebodyBelow(f: Field, i: nat, r: nat)
    requires f.Valid() && i < |f.seeds| && r < f.rounds
    ensures f.InRange(r, f.Block(i, r)) && f.Players(r, f.Block(i, r)) >= 1
  {
    BlockInRange(f, i, r);
    PlayersCountsMembers(f, r, f.Block(i, r));
    assert i in Members(f, r, f.Block(i, r));
  }

  lemma FeederDecided(rounds: Rounds, f: Field, i: nat, r: nat)
    requires f.Valid() && Wired(rounds, f) && i < |f.seeds| && 0 < r < f.rounds
    requires Decided(rounds, r, f.Block(i, r))
    ensures Decided(rounds, r - 1, f.Block(i, r - 1))
  {
    var p, q := f.Block(i, r), f.Block(i, r - 1);
    BlockInRange(f, i, r);
    SomebodyBelow(f, i, r - 1);
    assert p == q / 2 && (q == 2 * p || q == 2 * p + 1);
    if f.Players(r, p) == 1 {
      assert f.Players(r, p) == f.Players(r - 1, 2 * p) + f.Players(r - 1, 2 * p + 1);
      LoneIsDecided(rounds, f, r - 1, q);
    } else {
      assert CellOk(rounds, f, r, p);
      DecidedFeeders(rounds, f, r, p);
    }
  }

  /** Every match on a player's way below a decided one is decided. */
  lemma {:induction false} DecidedBelow(rounds: Rounds, f: Field, i: nat, r: nat, r': nat)
    requires f.Valid() && Wired(rounds, f) && i < |f.seeds| && r' <= r < f.rounds
    requires Decided(rounds, r, f.Block(i, r))
    ensures Decided(rounds, r', f.Block(i, r'))
    decreases r
  {
    if r' < r {
      FeederDecided(rounds, f, i, r);
      DecidedBelow(rounds, f, i, r - 1, r');
    }
  }

  /** A player in a slot won every match on the way there. */
  lemma {:induction false} WonTheWay(rounds: Rounds, f: Field, r: nat, p: nat, slot: Slot, i: nat, r': nat)
    requires f.Valid() && Wired(rounds, f) && f.InRange(r, p) && i < |f.seeds| && r' < r
    requires SlotId(rounds[r][p], slot) == Some(f.seeds[i].id)
    ensures WinnerOf(rounds, r', f.Block(i, r')) == Some(f.seeds[i].id)
    decreases r
  {
    var j := HomeOf(rounds, f, r, p, slot, f.seeds[i].id);
    assert i == j;
    if r' < r - 1 {
      ChildrenInRange(f, r, p);
      var child := rounds[r - 1][Feeder(p, slot)];
      WonTheWay(rounds, f, r - 1, Feeder(p, slot), child.winnerSlot.value, i, r');
    }
  }

  /** The loser of a decided match sits in no undecided match. */
  lemma LoserIsOut(rounds: Rounds, f: Field, r: nat, p: nat, lost: Slot, x: PlayerId, r': nat, p': nat, s: Slot)
    requires f.Valid() && Wired(rounds, f) && f.InRange(r, p) && f.InRange(r', p')
    requires Decided(rounds, r, p) && SlotId(rounds[r][p], lost) == Some(x) && rounds[r][p].winnerSlot != Some(lost)
    requires SlotId(rounds[r'][p'], s) == Some(x)
    ensures Decided(rounds, r', p')
  {
    var i := HomeOf(rounds, f, r, p, lost, x);
    var j := HomeOf(rounds, f, r', p', s, x);
    assert i == j;
    if r' <= r {
      DecidedBelow(rounds, f, i, r, r');
    } else {
      WonTheWay(rounds, f, r', p', s, i, r);
      OneSlotPerRound(rounds, f, r, p, p, lost, rounds[r][p].winnerSlot.value, x);
    }
  }

  // ----- a ready match can always be found

  /** Descend from an undecided match to one that can be played. */
  lemma {:induction false} ReadyBelow(rounds: Rounds, f: Field, r: nat, p: nat) returns (r': nat, p': nat)
    requires f.Valid() && Wired(rounds, f) && f.InRange(r, p) && NobodyStarves(f, r, p)
    requires f.Players(r, p) >= 2 && !Decided(rounds, r, p)
    requires forall s: nat, q: nat :: s < r && f.InRange(s, q) ==> !Cut(f, s, q)
    ensures f.InRange(r', p') && Ready(rounds[r'][p'])
    decreases r
  {
    assert CellOk(rounds, f, r, p);
    r', p' := r, p;
    if r > 0 {
      ChildrenInRange(f, r, p);
      assert CellOk(rounds, f, r - 1, 2 * p) && CellOk(rounds, f, r - 1, 2 * p + 1);
      if !Decided(rounds, r - 1, 2 * p) {
        r', p' := ReadyBelow(rounds, f, r - 1, 2 * p);
      } else if !Decided(rounds, r - 1, 2 * p + 1) {
        r', p' := ReadyBelow(rounds, f, r - 1, 2 * p + 1);
      } else {
        assert Feeder(p, A) == 2 * p && Feeder(p, B) == 2 * p + 1;
      }
    }
  }

  // ----- one game adds one

  function Up(p: nat, steps: nat): nat {
    if steps == 0 then p else Up(p, steps - 1) / 2
  }

  lemma {:induction false} UpInRange(f: Field, r: nat, p: nat, steps: nat)
    requires f.InRange(r, p) && r + steps < f.rounds
    ensures f.InRange(r + steps, Up(p, steps))
  {
    if steps > 0 {
      UpInRange(f, r, p, steps - 1);
    }
  }

  lemma UpIsFinal(f: Field, r: nat, p: nat)
    requires f.Valid() && f.InRange(r, p)
    ensures Up(p, f.rounds - 1 - r) == 0
  {
    UpInRange(f, r, p, f.rounds - 1 - r);
  }

  lemma ReadyIsBranching(rounds: Rounds, f: Field, r: nat, p: nat)
    requires f.Valid() && Wired(rounds, f) && f.InRange(r, p) && Ready(rounds[r][p])
    ensures Branching(f, r, p)
  {
    assert CellOk(rounds, f, r, p);
    if r > 0 {
      ChildrenInRange(f, r, p);
      DecidedFeeders(rounds, f, r, p);
      DecidedHoldsSomebody(rounds, f, r - 1, 2 * p);
      DecidedHoldsSomebody(rounds, f, r - 1, 2 * p + 1);
    }
  }

  lemma {:induction false} OneGameMore(rounds: Rounds, after: Rounds, f: Field, r: nat, p: nat, r': nat, p': nat)
    requires f.InRange(r, p) && Branching(f, r, p) && !Decided(rounds, r, p)
    requires forall s: nat, q: nat :: f.InRange(s, q) ==>
               Decided(after, s, q) == (Decided(rounds, s, q) || (s == r && q == p))
    requires f.InRange(r', p')
    ensures GamesPlayed(after, f, r', p') == GamesPlayed(rounds, f, r', p') +
            if r <= r' && Up(p, r' - r) == p' then 1 else 0
    decreases r'
  {
    if r' > 0 {
      ChildrenInRange(f, r', p');
      OneGameMore(rounds, after, f, r, p, r' - 1, 2 * p');
      OneGameMore(rounds, after, f, r, p, r' - 1, 2 * p' + 1);
    }
  }

  /** Games played in the whole bracket. */
  function AllGames(rounds: Rounds, f: Field): nat
    requires f.rounds >= 1
  {
    GamesPlayed(rounds, f, f.rounds - 1, 0)
  }

  /** A game decides its own match and no other. */
  lemma DecidedAfter(rounds: Rounds, f: Field, r: nat, p: nat, slot: Slot, x: PlayerId)
    requires Shaped(rounds, f) && f.InRange(r, p)
    ensures forall s: nat, q: nat :: f.InRange(s, q) ==>
              Decided(Played(rounds, f, r, p, slot, x), s, q) == (Decided(rounds, s, q) || (s == r && q == p))
  {
    forall s: nat, q: nat | f.InRange(s, q)
      ensures Decided(Played(rounds, f, r, p, slot, x), s, q) == (Decided(rounds, s, q) || (s == r && q == p))
    {
      DecidedAt(rounds, f, r, p, slot, x, s, q);
    }
  }

  lemma DecidedAt(rounds: Rounds, f: Field, r: nat, p: nat, slot: Slot, x: PlayerId, s: nat, q: nat)
    requires Shaped(rounds, f) && f.InRange(r, p) && f.InRange(s, q)
    ensures Decided(Played(rounds, f, r, p, slot, x), s, q) == (Decided(rounds, s, q) || (s == r && q == p))
  {
    WinnerSlotAfter(rounds, f, r, p, slot, x, s, q);
    PlayedStaysShaped(rounds, f, r, p, slot, x);
  }

  lemma PlayedAddsOne(rounds: Rounds, f: Field, r: nat, p: nat, slot: Slot, x: PlayerId)
    requires f.Valid() && Wired(rounds, f) && f.InRange(r, p)
    requires Ready(rounds[r][p]) && SlotId(rounds[r][p], slot) == Some(x)
    ensures AllGames(Played(rounds, f, r, p, slot, x), f) == AllGames(rounds, f) + 1
  {
    ReadyIsBranching(rounds, f, r, p);
    DecidedAfter(rounds, f, r, p, slot, x);
    UpIsFinal(f, r, p);
    OneGameMore(rounds, Played(rounds, f, r, p, slot, x), f, r, p, f.rounds - 1, 0);
  }

  lemma {:induction false} NoGameAtFirst(f: Field, r: nat, p: nat)
    requires f.Valid() && f.InRange(r, p)
    ensures GamesPlayed(BuiltRounds(f), f, r, p) == 0
    decreases r
  {
    SoleIffOne(f, r, p);
    if r > 0 {
      ChildrenInRange(f, r, p);
      NoGameAtFirst(f, r - 1, 2 * p);
      NoGameAtFirst(f, r - 1, 2 * p + 1);
    }
  }
}

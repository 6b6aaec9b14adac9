/** The imperative construction of the bracket, proved to end in BracketStructure.Built. */
module BracketBuilder {
  import opened Wrappers
  import opened PowersOfTwo
  import opened Seeding
  import opened BracketShape
  import opened BracketStructure

  /** First-round matches with two players, in order of position. */
  function PlayableBelow(f: Field, p: nat): seq<Playable>
    requires p <= f.Width(0)
  {
    if p == 0 then []
    else PlayableBelow(f, p - 1) +
         if f.LeafA(p - 1).Some? && f.LeafB(p - 1).Some?
         then [Playable(MatchId(0, p - 1), f.LeafA(p - 1).value, f.LeafB(p - 1).value)]
         else []
  }

  /** Placing one occupied first-round match, and moving up a player with a bye. */
  lemma FirstRoundStep(rounds: Rounds, f: Field, p: nat)
    requires f.Valid() && f.InRange(0, p) && f.LeafA(p).Some? && Snapshot(rounds, f, Point(0, p), START)
    ensures var m := rounds[0][p].(slotAId := f.LeafA(p), slotBId := f.LeafB(p));
            Snapshot(if f.LeafB(p).Some? then Put(rounds, 0, p, m)
                     else Advance(Put(rounds, 0, p, m.(winnerSlot := Some(A))), 0, p, f.LeafA(p).value),
                     f, Point(0, p + 1), START)
  {}

  class Builder {
    var rounds: Rounds
    var roundOnePlayable: seq<Playable>

    constructor ()
      ensures rounds == [] && roundOnePlayable == []
    {
      rounds, roundOnePlayable := [], [];
    }

    /** The whole construction, in the order of the source. */
    method Build(seeds: seq<SeededPlayer>, bracketSize: nat, firstRoundPairings: seq<Pairing>)
      requires IsPow2(bracketSize) && bracketSize >= 2
      requires 2 <= |seeds| <= bracketSize && DistinctIds(seeds)
      requires firstRoundPairings == FirstRound(seeds, bracketSize)
      modifies this
      ensures Built(rounds, Field(seeds, Log2(bracketSize)))
      ensures roundOnePlayable == PlayableBelow(Field(seeds, Log2(bracketSize)), bracketSize / 2)
    {
      var totalRounds := Log2(bracketSize);
      roundOnePlayable := [];
      ghost var f := Field(seeds, totalRounds);
      CreateRounds(f, bracketSize, totalRounds);
      WireParents(f);
      PlaceFirstRound(f, seeds, bracketSize, firstRoundPairings);
      EndOfRow(rounds, f, 0, START);
      AdvanceUnopposedPlayers(f);
      PrunePlayableMatchesWithEmptySibling(f);
    }

    method CreateRounds(ghost f: Field, bracketSize: nat, totalRounds: nat)
      requires f.Valid() && f.rounds == totalRounds && bracketSize == Pow2(totalRounds)
      modifies this`rounds
      ensures Shaped(rounds, f)
      ensures forall r: nat, p: nat :: f.InRange(r, p) ==>
                rounds[r][p] == Draft(f, r, p, START, START).(nextMatchId := None)
    {
      rounds := [];
      var matchCount := bracketSize / 2;
      for round := 1 to totalRounds + 1
        invariant |rounds| == round - 1
        invariant round <= totalRounds ==> matchCount == f.Width(round - 1)
        invariant forall r :: 0 <= r < |rounds| ==> |rounds[r]| == f.Width(r)
        invariant forall r: nat, p: nat :: r < |rounds| && p < f.Width(r) ==>
                    rounds[r][p] == MatchDraft(MatchId(r, p), r + 1, p, None, None, None, None)
      {
        var roundMatches: seq<MatchDraft> := [];
        for positionIndex := 0 to matchCount
          invariant |roundMatches| == positionIndex
          invariant forall p: nat :: p < positionIndex ==>
                      roundMatches[p] == MatchDraft(MatchId(round - 1, p), round, p, None, None, None, None)
        {
          roundMatches := roundMatches +
            [MatchDraft(MatchId(round - 1, positionIndex), round, positionIndex, None, None, None, None)];
        }
        rounds := rounds + [roundMatches];
        matchCount := matchCount / 2;
      }
    }

    method WireParents(ghost f: Field)
      requires f.Valid() && Shaped(rounds, f)
      requires forall r: nat, p: nat :: f.InRange(r, p) ==>
                 rounds[r][p] == Draft(f, r, p, START, START).(nextMatchId := None)
      modifies this`rounds
      ensures Snapshot(rounds, f, START, START)
    {
      for roundIndex := 0 to |rounds| - 1
        invariant Shaped(rounds, f)
        invariant forall r: nat, p: nat :: f.InRange(r, p) ==>
                    rounds[r][p] == if r < roundIndex then Draft(f, r, p, START, START)
                                    else Draft(f, r, p, START, START).(nextMatchId := None)
      {
        for positionIndex := 0 to |rounds[roundIndex]|
          invariant Shaped(rounds, f)
          invariant forall r: nat, p: nat :: f.InRange(r, p) ==>
                      rounds[r][p] == if r < roundIndex || (r == roundIndex && p < positionIndex)
                                      then Draft(f, r, p, START, START)
                                      else Draft(f, r, p, START, START).(nextMatchId := None)
        {
          assert f.InRange(roundIndex, positionIndex) && f.InRange(roundIndex + 1, positionIndex / 2);
          var parent := rounds[roundIndex + 1][positionIndex / 2];
          rounds := Put(rounds, roundIndex, positionIndex,
                        rounds[roundIndex][positionIndex].(nextMatchId := Some(parent.id)));
        }
      }
    }

    /** Moves a player into the parent's slot given by the parity of the position. */
    method AdvanceWinner(r: nat, p: nat, winnerId: PlayerId)
      modifies this`rounds
      ensures rounds == Advance(old(rounds), r, p, winnerId)
    {
      if r + 1 >= |rounds| || p / 2 >= |rounds[r + 1]| {
        return;
      }
      var parent := rounds[r + 1][p / 2];
      if p % 2 == 0 {
        rounds := Put(rounds, r + 1, p / 2, parent.(slotAId := Some(winnerId)));
      } else {
        rounds := Put(rounds, r + 1, p / 2, parent.(slotBId := Some(winnerId)));
      }
    }

    method PlaceFirstRound(ghost f: Field, seeds: seq<SeededPlayer>, bracketSize: nat, pairings: seq<Pairing>)
      requires f.Valid() && f.seeds == seeds && bracketSize == f.Size()
      requires pairings == FirstRound(seeds, bracketSize)
      requires Snapshot(rounds, f, START, START) && roundOnePlayable == []
      modifies this
      ensures Snapshot(rounds, f, Point(0, f.Width(0)), START)
      ensures roundOnePlayable == PlayableBelow(f, bracketSize / 2)
    {
      var slots: seq<Option<SeededPlayer>> :=
        seq(bracketSize, i requires 0 <= i < bracketSize => if i < |seeds| then Some(seeds[i]) else None);
      var halfSize := bracketSize / 2;
      var pairingIndex := 0;
      for positionIndex := 0 to halfSize
        invariant pairingIndex == if positionIndex < |seeds| then positionIndex else |seeds|
        invariant Snapshot(rounds, f, Point(0, positionIndex), START)
        invariant roundOnePlayable == PlayableBelow(f, positionIndex)
      {
        assert f.InRange(0, positionIndex);
        var slotA := slots[positionIndex];
        if slotA.None? {
          continue;
        }
        var pairing := pairings[pairingIndex];
        pairingIndex := pairingIndex + 1;
        PlacePairing(f, positionIndex, pairing);
      }
    }

    method PlacePairing(ghost f: Field, p: nat, pairing: Pairing)
      requires f.Valid() && f.InRange(0, p) && f.LeafA(p) == Some(pairing.player1.id)
      requires f.LeafB(p) == if pairing.player2.Some? then Some(pairing.player2.value.id) else None
      requires Snapshot(rounds, f, Point(0, p), START)
      requires roundOnePlayable == PlayableBelow(f, p)
      modifies this
      ensures Snapshot(rounds, f, Point(0, p + 1), START)
      ensures roundOnePlayable == PlayableBelow(f, p + 1)
    {
      var m := rounds[0][p];
      m := m.(slotAId := Some(pairing.player1.id),
              slotBId := if pairing.player2.Some? then Some(pairing.player2.value.id) else None);
      FirstRoundStep(rounds, f, p);
      rounds := Put(rounds, 0, p, m);
      if pairing.player2.None? {
        rounds := Put(rounds, 0, p, m.(winnerSlot := Some(A)));
        AdvanceWinner(0, p, pairing.player1.id);
        return;
      }
      roundOnePlayable := roundOnePlayable +
        [Playable(m.id, pairing.player1.id, pairing.player2.value.id)];
    }

    /** The walk-over loop: its first sweep already reaches the fixpoint, so it ends. */
    method AdvanceUnopposedPlayers(ghost f: Field)
      requires f.Valid() && Snapshot(rounds, f, Point(1, 0), START)
      modifies this`rounds
      ensures Snapshot(rounds, f, End(f), START)
    {
      var advanced := true;
      ghost var sweeps := 0;
      while advanced
        invariant 0 <= sweeps <= 2 && (sweeps == 0 ==> advanced) && (sweeps == 2 ==> !advanced)
        invariant Snapshot(rounds, f, if sweeps == 0 then Point(1, 0) else End(f), START)
        decreases 2 - sweeps
      {
        advanced := Sweep(f, sweeps > 0);
        sweeps := sweeps + 1;
      }
    }

    /** One bottom-up pass. Started on a settled bracket, it changes nothing. */
    method Sweep(ghost f: Field, ghost settled: bool) returns (advanced: bool)
      requires f.Valid() && Snapshot(rounds, f, if settled then End(f) else Point(1, 0), START)
      modifies this`rounds
      ensures Snapshot(rounds, f, End(f), START)
      ensures settled ==> !advanced && rounds == old(rounds)
    {
      advanced := false;
      for roundIndex := 1 to |rounds|
        invariant |rounds| == f.rounds
        invariant Snapshot(rounds, f, if settled then End(f) else Point(roundIndex, 0), START)
        invariant settled ==> !advanced && rounds == old(rounds)
      {
        for p := 0 to |rounds[roundIndex]|
          invariant |rounds| == f.rounds && |rounds[roundIndex]| == f.Width(roundIndex)
          invariant Snapshot(rounds, f, if settled then End(f) else Point(roundIndex, p), START)
          invariant settled ==> !advanced && rounds == old(rounds)
        {
          var moved := SettleOne(f, settled, roundIndex, p);
          advanced := advanced || moved;
        }
        if !settled {
          EndOfRow(rounds, f, roundIndex, START);
        }
      }
    }

    method SettleOne(ghost f: Field, ghost settled: bool, r: nat, p: nat) returns (moved: bool)
      requires f.Valid() && f.InRange(r, p) && r > 0
      requires Snapshot(rounds, f, if settled then End(f) else Point(r, p), START)
      modifies this`rounds
      ensures Snapshot(rounds, f, if settled then End(f) else Point(r, p + 1), START)
      ensures settled ==> !moved && rounds == old(rounds)
    {
      ghost var done := if settled then End(f) else Point(r, p);
      ChildrenInRange(f, r, p);
      EmptyMeansNobody(rounds, f, r - 1, Feeder(p, A), done, START);
      EmptyMeansNobody(rounds, f, r - 1, Feeder(p, B), done, START);
      WalkOverCases(f, r, p, A, B);
      WalkOverCases(f, r, p, B, A);
      var m := rounds[r][p];
      assert m == Draft(f, r, p, done, START);
      if m.winnerSlot.Some? {
        return false;
      }
      if !settled && f.Sole(r, p).None? {
        NoWalkOverStep(rounds, f, r, p);
      }
      var hasSlotA, hasSlotB := m.slotAId.Some?, m.slotBId.Some?;
      if hasSlotA == hasSlotB {
        return false;
      }
      var missingSlot := if hasSlotA then B else A;
      if HasPendingFeeder(rounds, r, p, missingSlot) {
        return false;
      }
      var winnerSlot := if hasSlotA then A else B;
      var winnerId := if hasSlotA then m.slotAId else m.slotBId;
      WalkOverStep(rounds, f, r, p, winnerSlot, winnerId.value);
      rounds := Put(rounds, r, p, m.(winnerSlot := Some(winnerSlot)));
      AdvanceWinner(r, p, winnerId.value);
      return true;
    }

    method PrunePlayableMatchesWithEmptySibling(ghost f: Field)
      requires f.Valid() && Snapshot(rounds, f, End(f), START)
      modifies this`rounds
      ensures Built(rounds, f)
    {
      for roundIndex := 0 to |rounds| - 1
        invariant |rounds| == f.rounds
        invariant Snapshot(rounds, f, End(f), Point(roundIndex, 0))
      {
        for p := 0 to |rounds[roundIndex]|
          invariant |rounds| == f.rounds && |rounds[roundIndex]| == f.Width(roundIndex)
          invariant Snapshot(rounds, f, End(f), Point(roundIndex, p))
        {
          PruneOne(f, roundIndex, p);
        }
        assert forall r: nat, p: nat :: f.InRange(r, p) ==>
            Draft(f, r, p, End(f), Point(roundIndex, f.Width(roundIndex))) ==
            Draft(f, r, p, End(f), Point(roundIndex + 1, 0));
      }
      assert forall r: nat, p: nat :: f.InRange(r, p) ==>
          Draft(f, r, p, End(f), Point(f.rounds - 1, 0)) == Draft(f, r, p, End(f), End(f));
    }

    method PruneOne(ghost f: Field, r: nat, p: nat)
      requires f.Valid() && f.InRange(r, p) && r + 1 < f.rounds
      requires Snapshot(rounds, f, End(f), Point(r, p))
      modifies this`rounds
      ensures Snapshot(rounds, f, End(f), Point(r, p + 1))
    {
      assert f.InRange(r, Sibling(p));
      EmptyMeansNobody(rounds, f, r, Sibling(p), End(f), Point(r, p));
      if Seeded(f, r, p, A).Some? && Seeded(f, r, p, B).Some? {
        BothSlotsMeanTwo(f, r, p);
      }
      var m := rounds[r][p];
      if m.nextMatchId.None? || m.winnerSlot.Some? {
        return;
      }
      if m.slotAId.None? || m.slotBId.None? {
        return;
      }
      var siblingPosition := if m.positionIndex % 2 == 0 then m.positionIndex + 1 else m.positionIndex - 1;
      if IsBranchEmpty(rounds, r, siblingPosition) {
        rounds := Put(rounds, r, p, m.(nextMatchId := None));
      }
    }
  }
}

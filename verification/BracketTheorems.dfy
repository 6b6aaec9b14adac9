/** What the finished bracket means for the players, and exactly which links are pruned. */
module BracketTheorems {
  import opened Wrappers
  import opened PowersOfTwo
  import opened BracketShape
  import opened BracketStructure

  /**
   * A match is decided before any game exactly when one player starts below it;
   * that player is its winner and sits in the parent's slot given by parity.
   */
  lemma DecidedIffOnePlayer(rounds: Rounds, f: Field, r: nat, p: nat)
    requires f.Valid() && Built(rounds, f) && f.InRange(r, p)
    ensures rounds[r][p].winnerSlot.Some? <==> |Members(f, r, p)| == 1
    ensures rounds[r][p].winnerSlot.Some? ==>
              exists i :: && Members(f, r, p) == {i}
                          && rounds[r][p].WinnerId() == Some(f.seeds[i].id)
                          && (r + 1 < f.rounds ==>
                                var parent := rounds[r + 1][p / 2];
                                Some(f.seeds[i].id) == if p % 2 == 0 then parent.slotAId else parent.slotBId)
  {
    SoleIffOne(f, r, p);
    PlayersCountsMembers(f, r, p);
    if r > 0 {
      WalkOverCases(f, r, p, A, B);
      WalkOverCases(f, r, p, B, A);
    }
    if f.Sole(r, p).Some? {
      var i :| Members(f, r, p) == {i} && f.Sole(r, p) == Some(f.seeds[i].id);
      if r + 1 < f.rounds {
        assert f.InRange(r + 1, p / 2);
        assert Feeder(p / 2, SlotOf(p)) == p;
      }
    }
  }

  function MatchCount(rounds: Rounds): nat {
    if rounds == [] then 0 else |rounds[|rounds| - 1]| + MatchCount(rounds[..|rounds| - 1])
  }

  lemma {:induction false} WidthsAddUp(rounds: Rounds, f: Field, r: nat)
    requires f.Valid() && Shaped(rounds, f) && r <= f.rounds
    ensures MatchCount(rounds[..r]) + Pow2(f.rounds - r) == f.Size()
  {
    if r > 0 {
      WidthsAddUp(rounds, f, r - 1);
      assert rounds[..r][..r - 1] == rounds[..r - 1];
      assert |rounds[r - 1]| == f.Width(r - 1);
    } else {
      assert rounds[..0] == [];
    }
  }

  /** The match reached by following parent links `steps` times. */
  function Climb(rounds: Rounds, id: MatchId, steps: nat): Option<MatchId>
    decreases steps
  {
    if steps == 0 then Some(id)
    else if !Has(rounds, id.round, id.position) then None
    else match rounds[id.round][id.position].nextMatchId
         case None => None
         case Some(next) => Climb(rounds, next, steps - 1)
  }

  /**
   * The S - 1 matches form one tree: before pruning, every match climbs to the
   * final in as many steps as there are rounds above it, and the final is the
   * only match without a parent.
   */
  lemma OneTree(rounds: Rounds, f: Field, done: Point)
    requires f.Valid() && Snapshot(rounds, f, done, START)
    ensures MatchCount(rounds) == f.Size() - 1
    ensures forall r: nat, p: nat :: f.InRange(r, p) ==>
              && Climb(rounds, MatchId(r, p), f.rounds - 1 - r) == Some(MatchId(f.rounds - 1, 0))
              && (rounds[r][p].nextMatchId.None? <==> r == f.rounds - 1)
  {
    WidthsAddUp(rounds, f, f.rounds);
    assert rounds[..f.rounds] == rounds;
    forall r: nat, p: nat | f.InRange(r, p)
      ensures Climb(rounds, MatchId(r, p), f.rounds - 1 - r) == Some(MatchId(f.rounds - 1, 0))
    {
      ClimbsToFinal(rounds, f, done, r, p);
    }
  }

  lemma {:induction false} ClimbsToFinal(rounds: Rounds, f: Field, done: Point, r: nat, p: nat)
    requires f.Valid() && Snapshot(rounds, f, done, START) && f.InRange(r, p)
    ensures Climb(rounds, MatchId(r, p), f.rounds - 1 - r) == Some(MatchId(f.rounds - 1, 0))
    decreases f.rounds - r
  {
    if r + 1 < f.rounds {
      ClimbsToFinal(rounds, f, done, r + 1, p / 2);
    }
  }

  /**
   * Exactly one family of links is pruned: with n = 4q + 2 players and at
   * least three rounds, the second-round match of the last two of them.
   */
  lemma CutExactly(f: Field, r: nat, p: nat)
    requires f.Valid() && f.InRange(r, p)
    ensures Cut(f, r, p) <==> r == 1 && f.rounds >= 3 && |f.seeds| == 2 * p + 2 && p % 2 == 0
  {
    if r + 1 < f.rounds {
      assert f.InRange(r, Sibling(p));
      if 2 * |f.seeds| > f.Size() {
        PlayersWhenDense(f, r, Sibling(p));
        if r == 1 {
          assert f.Size() == 2 * f.Width(0) && f.Width(0) == 2 * f.Width(1);
        }
      } else {
        assert f.Size() == 2 * f.Width(0);
        PlayersWhenSparse(f, r, Sibling(p));
        if r > 0 {
          ChildrenInRange(f, r, p);
          SeededIffOne(f, r, p, A);
          SeededIffOne(f, r, p, B);
          PlayersWhenSparse(f, r - 1, 2 * p);
          PlayersWhenSparse(f, r - 1, 2 * p + 1);
          StartNext(r - 1, 2 * p);
          if r > 1 {
            Pow2Monotone(1, r - 1);
            assert !(f.Players(r - 1, 2 * p) == 1 && f.Players(r - 1, 2 * p + 1) == 1);
          } else if p % 2 == 1 {
            assert Start(1, p - 1) == 2 * p - 2;
          } else {
            assert Start(1, p + 1) == 2 * p + 2;
          }
        }
      }
    }
  }

  /** With more than half the slots taken, nothing is pruned. */
  lemma NothingPrunedWhenDense(rounds: Rounds, f: Field)
    requires f.Valid() && Built(rounds, f) && 2 * |f.seeds| > f.Size()
    ensures forall r: nat, p: nat :: f.InRange(r, p) ==> rounds[r][p].nextMatchId == ParentId(f, r, p)
  {
    forall r: nat, p: nat | f.InRange(r, p)
      ensures rounds[r][p].nextMatchId == ParentId(f, r, p)
    {
      CutExactly(f, r, p);
      if r == 1 {
        assert f.Size() == 2 * f.Width(0) && f.Width(0) == 2 * f.Width(1);
      }
    }
  }
}

/** What every delivered game keeps, for every field, dense or sparse. */
module ProgressionInvariant {
  import opened Wrappers
  import opened Seeding
  import opened BracketShape
  import opened BracketStructure
  import opened Progression

  function Next(f: Field, r: nat, p: nat): Option<MatchId> {
    if Cut(f, r, p) then None else ParentId(f, r, p)
  }

  function WinnerOf(rounds: Rounds, r: nat, p: nat): Option<PlayerId> {
    if Has(rounds, r, p) then rounds[r][p].WinnerId() else None
  }

  predicate Decided(rounds: Rounds, r: nat, p: nat) {
    Has(rounds, r, p) && rounds[r][p].winnerSlot.Some?
  }

  /** What a slot of (r, p) holds: a first-round player, or the winner of the feeder. */
  function Incoming(rounds: Rounds, f: Field, r: nat, p: nat, slot: Slot): Option<PlayerId> {
    if r == 0 then Seeded(f, 0, p, slot)
    else if Cut(f, r - 1, Feeder(p, slot)) then None
    else WinnerOf(rounds, r - 1, Feeder(p, slot))
  }

  ghost predicate CellOk(rounds: Rounds, f: Field, r: nat, p: nat)
    requires Has(rounds, r, p)
  {
    var m := rounds[r][p];
    && m.id == MatchId(r, p) && m.round == r + 1 && m.positionIndex == p
    && m.nextMatchId == Next(f, r, p)
    && m.slotAId == Incoming(rounds, f, r, p, A)
    && m.slotBId == Incoming(rounds, f, r, p, B)
    && (m.winnerSlot.Some? ==>
          m.WinnerId().Some? && (f.Players(r, p) == 1 || (m.slotAId.Some? && m.slotBId.Some?)))
    && (f.Players(r, p) == 1 ==> m.winnerSlot.Some?)
  }

  /** Every slot is filled exactly by a decided feeder, with that feeder's winner. */
  ghost predicate Wired(rounds: Rounds, f: Field) {
    && Shaped(rounds, f)
    && forall r: nat, p: nat :: f.InRange(r, p) ==> CellOk(rounds, f, r, p)
  }

  lemma BuiltIsWired(f: Field)
    requires f.Valid()
    ensures Wired(BuiltRounds(f), f)
  {
    var rounds := BuiltRounds(f);
    BuiltIsUnique(rounds, f);
    forall r: nat, p: nat | f.InRange(r, p)
      ensures CellOk(rounds, f, r, p)
    {
      BuiltCell(rounds, f, r, p);
    }
  }

  lemma BuiltWinner(rounds: Rounds, f: Field, r: nat, p: nat)
    requires f.Valid() && Built(rounds, f) && f.InRange(r, p)
    ensures WinnerOf(rounds, r, p) == f.Sole(r, p)
    ensures Cut(f, r, p) ==> f.Sole(r, p).None?
  {
    if r > 0 {
      WalkOverCases(f, r, p, A, B);
      WalkOverCases(f, r, p, B, A);
    }
  }

  lemma BuiltCell(rounds: Rounds, f: Field, r: nat, p: nat)
    requires f.Valid() && Built(rounds, f) && f.InRange(r, p)
    ensures CellOk(rounds, f, r, p)
  {
    SoleIffOne(f, r, p);
    BuiltWinner(rounds, f, r, p);
    if r > 0 {
      ChildrenInRange(f, r, p);
      BuiltWinner(rounds, f, r - 1, Feeder(p, A));
      BuiltWinner(rounds, f, r - 1, Feeder(p, B));
    }
  }

  function SlotId(m: MatchDraft, slot: Slot): Option<PlayerId> {
    if slot == A then m.slotAId else m.slotBId
  }

  /** A player found in a slot started below that slot's feeder. */
  lemma {:induction false} HomeOf(rounds: Rounds, f: Field, r: nat, p: nat, slot: Slot, x: PlayerId) returns (i: nat)
    requires f.Valid() && Wired(rounds, f) && f.InRange(r, p)
    requires SlotId(rounds[r][p], slot) == Some(x)
    ensures i < |f.seeds| && f.seeds[i].id == x && f.Block(i, r) == p
    ensures r > 0 ==> f.Block(i, r - 1) == Feeder(p, slot) && WinnerOf(rounds, r - 1, Feeder(p, slot)) == Some(x)
    ensures r == 0 ==> Seat(f.Size(), i) == (p, slot == A)
    decreases r
  {
    assert CellOk(rounds, f, r, p);
    if r == 0 {
      i := if slot == A then p else f.Size() - 1 - p;
    } else {
      ChildrenInRange(f, r, p);
      var child := rounds[r - 1][Feeder(p, slot)];
      i := HomeOf(rounds, f, r - 1, Feeder(p, slot), child.winnerSlot.value, x);
    }
  }

  /** In one round, a player is in at most one slot. */
  lemma OneSlotPerRound(rounds: Rounds, f: Field, r: nat, p: nat, q: nat, s: Slot, s': Slot, x: PlayerId)
    requires f.Valid() && Wired(rounds, f) && f.InRange(r, p) && f.InRange(r, q)
    requires SlotId(rounds[r][p], s) == Some(x) == SlotId(rounds[r][q], s')
    ensures p == q && s == s'
  {
    var i := HomeOf(rounds, f, r, p, s, x);
    var j := HomeOf(rounds, f, r, q, s', x);
    assert i == j;
  }

  /**
   * The slot rule on every parent: nothing exactly when the winner is there
   * already or both slots are taken; otherwise a free slot, and the one given by
   * parity when that is free.
   */
  lemma SlotRuleExactly(feederPosition: nat, parent: MatchDraft, winnerId: PlayerId)
    ensures var r := ResolveFeederTargetSlotUpdate(feederPosition, parent, winnerId);
            var preferred := if feederPosition % 2 == 0 then A else B;
            && (r.None? <==> || Some(winnerId) in {parent.slotAId, parent.slotBId}
                             || (parent.slotAId.Some? && parent.slotBId.Some?))
            && (r.Some? ==> SlotId(parent, r.value).None?)
            && (r.Some? && SlotId(parent, preferred).None? ==> r.value == preferred)
  {}

  /** A decisive result of a ready match: the fallback of the slot rule is never taken. */
  lemma FallbackNeverTaken(t: Tournament, f: Field, r: nat, p: nat, slot: Slot, x: PlayerId)
    requires f.Valid() && Wired(t.rounds, f) && f.InRange(r, p)
    requires t.rounds[r][p].winnerSlot.None? && SlotId(t.rounds[r][p], slot) == Some(x)
    requires Next(f, r, p).Some?
    ensures f.InRange(r + 1, p / 2)
    ensures ResolveFeederTargetSlotUpdate(p, t.rounds[r + 1][p / 2], x) == Some(SlotOf(p))
  {
    var parent := t.rounds[r + 1][p / 2];
    assert f.InRange(r + 1, p / 2) && CellOk(t.rounds, f, r + 1, p / 2) && CellOk(t.rounds, f, r, p);
    assert Feeder(p / 2, SlotOf(p)) == p;
    assert SlotId(parent, SlotOf(p)).None?;
    var other := if SlotOf(p) == A then B else A;
    if SlotId(parent, other) == Some(x) {
      var i := HomeOf(t.rounds, f, r, p, slot, x);
      var j := HomeOf(t.rounds, f, r + 1, p / 2, other, x);
      assert false;
    }
  }

  /** The rows after a decisive result of a ready match. */
  function Played(rounds: Rounds, f: Field, r: nat, p: nat, slot: Slot, x: PlayerId): Rounds
    requires Has(rounds, r, p)
  {
    if Next(f, r, p).Some? then WalkOver(rounds, r, p, slot, x)
    else Put(rounds, r, p, rounds[r][p].(winnerSlot := Some(slot)))
  }

  lemma DecideIsPlayed(t: Tournament, f: Field, r: nat, p: nat, slot: Slot, x: PlayerId)
    requires f.Valid() && Wired(t.rounds, f) && f.InRange(r, p)
    requires t.rounds[r][p].winnerSlot.None? && SlotId(t.rounds[r][p], slot) == Some(x)
    ensures var d := Decide(t, MatchId(r, p), slot, x);
            && d.after.rounds == Played(t.rounds, f, r, p, slot, x)
            && d.after.matchOfGame == t.matchOfGame
            && (if Next(f, r, p).Some?
                then d.result == Advanced && d.after.completed == t.completed && d.after.winnerId == t.winnerId
                else d.result == TournamentCompleted && d.after.completed && d.after.winnerId == Some(x))
  {
    assert CellOk(t.rounds, f, r, p);
    if Next(f, r, p).Some? {
      FallbackNeverTaken(t, f, r, p, slot, x);
    }
  }

  /** A game fills one slot at most: the one its match feeds. */
  lemma SlotAfter(rounds: Rounds, f: Field, r: nat, p: nat, slot: Slot, x: PlayerId, r': nat, p': nat, s: Slot)
    requires Shaped(rounds, f) && f.InRange(r, p) && f.InRange(r', p')
    ensures SlotId(Played(rounds, f, r, p, slot, x)[r'][p'], s) ==
            if r' == r + 1 && Next(f, r, p).Some? && Feeder(p', s) == p then Some(x)
            else SlotId(rounds[r'][p'], s)
  {
    assert Feeder(p / 2, SlotOf(p)) == p;
    assert Next(f, r, p).Some? ==> f.InRange(r + 1, p / 2);
  }

  lemma PlayedStaysShaped(rounds: Rounds, f: Field, r: nat, p: nat, slot: Slot, x: PlayerId)
    requires Shaped(rounds, f) && f.InRange(r, p)
    ensures Shaped(Played(rounds, f, r, p, slot, x), f)
  {}

  lemma WinnerSlotAfter(rounds: Rounds, f: Field, r: nat, p: nat, slot: Slot, x: PlayerId, r': nat, p': nat)
    requires Shaped(rounds, f) && f.InRange(r, p) && f.InRange(r', p')
    ensures Played(rounds, f, r, p, slot, x)[r'][p'].winnerSlot ==
            if r' == r && p' == p then Some(slot) else rounds[r'][p'].winnerSlot
  {
    assert Next(f, r, p).Some? ==> f.InRange(r + 1, p / 2);
  }

  /** A game changes the winner of its own match only. */
  lemma WinnerAfter(rounds: Rounds, f: Field, r: nat, p: nat, slot: Slot, x: PlayerId, r': nat, p': nat)
    requires f.Valid() && Wired(rounds, f) && f.InRange(r, p) && f.InRange(r', p')
    requires Ready(rounds[r][p]) && SlotId(rounds[r][p], slot) == Some(x)
    ensures WinnerOf(Played(rounds, f, r, p, slot, x), r', p') ==
            if r' == r && p' == p then Some(x) else WinnerOf(rounds, r', p')
  {
    WinnerSlotAfter(rounds, f, r, p, slot, x, r', p');
    if r' == r && p' == p {
      SlotAfter(rounds, f, r, p, slot, x, r, p, slot);
    } else if rounds[r'][p'].winnerSlot.Some? {
      var w := rounds[r'][p'].winnerSlot.value;
      assert CellOk(rounds, f, r', p');
      SlotAfter(rounds, f, r, p, slot, x, r', p', w);
    }
  }

  lemma IncomingAfter(rounds: Rounds, f: Field, r: nat, p: nat, slot: Slot, x: PlayerId, r': nat, p': nat, s: Slot)
    requires f.Valid() && Wired(rounds, f) && f.InRange(r, p) && f.InRange(r', p')
    requires Ready(rounds[r][p]) && SlotId(rounds[r][p], slot) == Some(x)
    ensures var after := Played(rounds, f, r, p, slot, x);
            SlotId(after[r'][p'], s) == Incoming(after, f, r', p', s)
  {
    assert CellOk(rounds, f, r', p');
    SlotAfter(rounds, f, r, p, slot, x, r', p', s);
    if r' > 0 {
      ChildrenInRange(f, r', p');
      assert f.InRange(r' - 1, Feeder(p', s));
      WinnerAfter(rounds, f, r, p, slot, x, r' - 1, Feeder(p', s));
    }
  }

  /** Playing a ready match keeps the wiring. */
  lemma PlayedKeepsWired(rounds: Rounds, f: Field, r: nat, p: nat, slot: Slot, x: PlayerId)
    requires f.Valid() && Wired(rounds, f) && f.InRange(r, p)
    requires Ready(rounds[r][p]) && SlotId(rounds[r][p], slot) == Some(x)
    ensures Wired(Played(rounds, f, r, p, slot, x), f)
  {
    var after := Played(rounds, f, r, p, slot, x);
    assert CellOk(rounds, f, r, p);
    assert Next(f, r, p).Some? ==> f.InRange(r + 1, p / 2);
    forall r': nat, p': nat | f.InRange(r', p')
      ensures CellOk(after, f, r', p')
    {
      assert CellOk(rounds, f, r', p');
      IncomingAfter(rounds, f, r, p, slot, x, r', p', A);
      IncomingAfter(rounds, f, r, p, slot, x, r', p', B);
      SlotAfter(rounds, f, r, p, slot, x, r', p', A);
      SlotAfter(rounds, f, r, p, slot, x, r', p', B);
      WinnerAfter(rounds, f, r, p, slot, x, r', p');
    }
  }
}

/**
 * Building the bracket: rounds of matches, parent links, byes, the walk-over
 * loop and the pruning pass. The class holds the array of rounds that the code
 * updates; Draft says what each cell holds at every point of the run.
 */
module BracketStructure {
  import opened Wrappers
  import opened PowersOfTwo
  import opened Seeding
  import opened BracketShape

  /** A match's identity. The code draws random UUIDs; naming the place keeps them distinct. */
  datatype MatchId = MatchId(round: nat, position: nat)

  datatype Slot = A | B

  datatype MatchDraft = MatchDraft(
    id: MatchId,
    round: nat,
    positionIndex: nat,
    slotAId: Option<PlayerId>,
    slotBId: Option<PlayerId>,
    winnerSlot: Option<Slot>,
    nextMatchId: Option<MatchId>)
  {
    function WinnerId(): Option<PlayerId> {
      match winnerSlot
      case None => None
      case Some(A) => slotAId
      case Some(B) => slotBId
    }

    function Fill(slot: Slot, player: PlayerId): MatchDraft {
      if slot == A then this.(slotAId := Some(player)) else this.(slotBId := Some(player))
    }
  }

  type Rounds = seq<seq<MatchDraft>>

  datatype Playable = Playable(tournamentMatchId: MatchId, slotAId: PlayerId, slotBId: PlayerId)

  function SlotOf(position: nat): Slot {
    if position % 2 == 0 then A else B
  }

  /** The position, one round down, that feeds a slot. */
  function Feeder(position: nat, slot: Slot): nat {
    if slot == A then 2 * position else 2 * position + 1
  }

  function Sibling(position: nat): nat {
    if position % 2 == 0 then position + 1 else position - 1
  }

  predicate Has(rounds: Rounds, r: int, p: int) {
    0 <= r < |rounds| && 0 <= p < |rounds[r]|
  }

  function Put(rounds: Rounds, r: nat, p: nat, m: MatchDraft): Rounds
    requires Has(rounds, r, p)
  {
    rounds[r := rounds[r][p := m]]
  }

  /** The recursive emptiness test, which looks at slots only. */
  function IsBranchEmpty(rounds: Rounds, r: nat, p: nat): bool
    decreases r
  {
    if !Has(rounds, r, p) then true
    else if rounds[r][p].slotAId.Some? || rounds[r][p].slotBId.Some? then false
    else if r == 0 then true
    else IsBranchEmpty(rounds, r - 1, 2 * p) && IsBranchEmpty(rounds, r - 1, 2 * p + 1)
  }

  function HasPendingFeeder(rounds: Rounds, r: nat, p: nat, slot: Slot): bool
    requires r > 0
  {
    var feeder := Feeder(p, slot);
    Has(rounds, r - 1, feeder) && !IsBranchEmpty(rounds, r - 1, feeder)
  }

  // ----- what every cell holds, at every point of the run

  /** A point in the row-by-row order of the matches. */
  datatype Point = Point(round: nat, position: nat) {
    predicate After(r: nat, p: nat) {
      r < round || (r == round && p < position)
    }
  }

  const START := Point(0, 0)

  function End(f: Field): Point { Point(f.rounds, 0) }

  function ParentId(f: Field, r: nat, p: nat): Option<MatchId> {
    if r + 1 < f.rounds then Some(MatchId(r + 1, p / 2)) else None
  }

  /** The player who walks into a slot of match (r, p) before any game is played. */
  function Seeded(f: Field, r: nat, p: nat, slot: Slot): Option<PlayerId> {
    if r == 0 then (if slot == A then f.LeafA(p) else f.LeafB(p))
    else f.Sole(r - 1, Feeder(p, slot))
  }

  /** Two lone players meet here and nobody is below the sibling: the link upwards is cut. */
  predicate Cut(f: Field, r: nat, p: nat) {
    && r + 1 < f.rounds
    && Seeded(f, r, p, A).Some? && Seeded(f, r, p, B).Some?
    && f.Players(r, Sibling(p)) == 0
  }

  lemma SeededIffOne(f: Field, r: nat, p: nat, slot: Slot)
    requires f.Valid() && f.InRange(r, p) && r > 0
    ensures Seeded(f, r, p, slot).Some? <==> f.Players(r - 1, Feeder(p, slot)) == 1
  {
    ChildrenInRange(f, r, p);
    SoleIffOne(f, r - 1, Feeder(p, slot));
  }

  lemma BothSlotsMeanTwo(f: Field, r: nat, p: nat)
    requires f.Valid() && f.InRange(r, p)
    requires Seeded(f, r, p, A).Some? && Seeded(f, r, p, B).Some?
    ensures f.Players(r, p) == 2 && f.Sole(r, p).None?
  {
    if r > 0 {
      SeededIffOne(f, r, p, A);
      SeededIffOne(f, r, p, B);
    }
  }

  /** A match is a walk-over exactly when one slot is seeded and nobody is below the other. */
  lemma WalkOverCases(f: Field, r: nat, p: nat, slot: Slot, other: Slot)
    requires f.Valid() && f.InRange(r, p) && r > 0 && slot != other
    ensures Seeded(f, r, p, slot).Some? == Seeded(f, r, p, other).Some? ==> f.Sole(r, p).None?
    ensures Seeded(f, r, p, slot).Some? && Seeded(f, r, p, other).None? ==>
              f.Sole(r, p) == if f.Players(r - 1, Feeder(p, other)) == 0 then Seeded(f, r, p, slot) else None
  {
    SeededIffOne(f, r, p, slot);
    SeededIffOne(f, r, p, other);
    SoleIffOne(f, r, p);
  }

  /** The feeder of a slot of match (r, p) has been dealt with; at round 0, the match itself. */
  predicate Fed(r: nat, p: nat, slot: Slot, done: Point) {
    if r == 0 then done.After(0, p)
    else done.After(r - 1, Feeder(p, slot))
  }

  /** Match (r, p) when the walk-overs before `done` and the cuts before `cut` have been made. */
  function Draft(f: Field, r: nat, p: nat, done: Point, cut: Point): MatchDraft {
    MatchDraft(
      MatchId(r, p), r + 1, p,
      if Fed(r, p, A, done) then Seeded(f, r, p, A) else None,
      if Fed(r, p, B, done) then Seeded(f, r, p, B) else None,
      if done.After(r, p) && f.Sole(r, p).Some?
      then Some(if Seeded(f, r, p, A).Some? then A else B) else None,
      if cut.After(r, p) && Cut(f, r, p) then None else ParentId(f, r, p))
  }

  ghost predicate Shaped(rounds: Rounds, f: Field) {
    && |rounds| == f.rounds
    && forall r :: 0 <= r < f.rounds ==> |rounds[r]| == f.Width(r)
  }

  ghost predicate Snapshot(rounds: Rounds, f: Field, done: Point, cut: Point) {
    && Shaped(rounds, f)
    && forall r: nat, p: nat :: f.InRange(r, p) ==> rounds[r][p] == Draft(f, r, p, done, cut)
  }

  /** The finished bracket. */
  ghost predicate Built(rounds: Rounds, f: Field) {
    Snapshot(rounds, f, End(f), End(f))
  }

  function BuiltRounds(f: Field): Rounds {
    seq(f.rounds, r requires 0 <= r < f.rounds =>
      seq(f.Width(r), p requires 0 <= p < f.Width(r) => Draft(f, r, p, End(f), End(f))))
  }

  lemma BuiltIsUnique(rounds: Rounds, f: Field)
    ensures Built(rounds, f) <==> rounds == BuiltRounds(f)
  {
    var b := BuiltRounds(f);
    assert Shaped(b, f);
    assert forall r: nat, p: nat :: f.InRange(r, p) ==> b[r][p] == Draft(f, r, p, End(f), End(f));
    if Built(rounds, f) {
      forall r: nat | r < f.rounds
        ensures rounds[r] == b[r]
      {
        assert forall p: nat :: p < f.Width(r) ==> f.InRange(r, p) && rounds[r][p] == b[r][p];
      }
    }
  }

  /** From the moment the first round is placed, the recursive test means "nobody below". */
  lemma {:induction false} EmptyMeansNobody(rounds: Rounds, f: Field, r: nat, p: nat, done: Point, cut: Point)
    requires f.Valid() && Snapshot(rounds, f, done, cut) && f.InRange(r, p) && done.round >= 1
    ensures IsBranchEmpty(rounds, r, p) <==> f.Players(r, p) == 0
    decreases r
  {
    assert rounds[r][p] == Draft(f, r, p, done, cut);
    if r > 0 {
      ChildrenInRange(f, r, p);
      SeededIffOne(f, r, p, A);
      SeededIffOne(f, r, p, B);
      EmptyMeansNobody(rounds, f, r - 1, 2 * p, done, cut);
      EmptyMeansNobody(rounds, f, r - 1, 2 * p + 1, done, cut);
    }
  }

  /** The same test, against the range of first-round positions below the match. */
  lemma EmptyMeansNobodyInRange(rounds: Rounds, f: Field, r: nat, p: nat, done: Point, cut: Point)
    requires f.Valid() && Snapshot(rounds, f, done, cut) && f.InRange(r, p) && done.round >= 1
    ensures IsBranchEmpty(rounds, r, p) <==> NobodyBetween(f, p * Pow2(r), (p + 1) * Pow2(r))
  {
    EmptyMeansNobody(rounds, f, r, p, done, cut);
    EmptyRange(f, r, p);
  }

  /** Write the winner slot of (r, p) and move the player into the parent's slot. */
  function WalkOver(rounds: Rounds, r: nat, p: nat, slot: Slot, player: PlayerId): Rounds
    requires Has(rounds, r, p)
  {
    Advance(Put(rounds, r, p, rounds[r][p].(winnerSlot := Some(slot))), r, p, player)
  }

  function Advance(rounds: Rounds, r: nat, p: nat, player: PlayerId): Rounds {
    if Has(rounds, r + 1, p / 2)
    then Put(rounds, r + 1, p / 2, rounds[r + 1][p / 2].Fill(SlotOf(p), player))
    else rounds
  }

  /** One walk-over moves the snapshot one match forward. */
  lemma WalkOverStep(rounds: Rounds, f: Field, r: nat, p: nat, slot: Slot, player: PlayerId)
    requires f.Valid() && f.InRange(r, p) && r > 0
    requires Snapshot(rounds, f, Point(r, p), START)
    requires f.Sole(r, p) == Some(player) == Seeded(f, r, p, slot)
    requires slot == A || Seeded(f, r, p, A).None?
    ensures Snapshot(WalkOver(rounds, r, p, slot, player), f, Point(r, p + 1), START)
  {}

  lemma NoWalkOverStep(rounds: Rounds, f: Field, r: nat, p: nat)
    requires f.Valid() && f.InRange(r, p) && r > 0
    requires Snapshot(rounds, f, Point(r, p), START) && f.Sole(r, p).None?
    ensures Snapshot(rounds, f, Point(r, p + 1), START)
  {}

  /** Reaching the end of a row is reaching the start of the next. */
  lemma EndOfRow(rounds: Rounds, f: Field, r: nat, cut: Point)
    requires r < f.rounds && Snapshot(rounds, f, Point(r, f.Width(r)), cut)
    ensures Snapshot(rounds, f, Point(r + 1, 0), cut)
  {
    forall r': nat, p: nat | f.InRange(r', p)
      ensures Draft(f, r', p, Point(r, f.Width(r)), cut) == Draft(f, r', p, Point(r + 1, 0), cut)
    {}
  }
}

/**
 * What a bracket should look like, stated on the players alone: which players
 * sit below a match, and which match, if any, a lone player walks through.
 * Round indices start at 0, as in the array of rounds that the code builds.
 */
module BracketShape {
  import opened Wrappers
  import opened PowersOfTwo
  import opened Seeding

  /** A tournament's field: the seeded players and the number of rounds, so 2^rounds slots. */
  datatype Field = Field(seeds: seq<SeededPlayer>, rounds: nat) {
    ghost predicate Valid() {
      && 1 <= rounds
      && 2 <= |seeds| <= Pow2(rounds)
      && DistinctIds(seeds)
    }

    function Size(): nat { Pow2(rounds) }

    /** Number of matches in a round. */
    function Width(r: nat): nat {
      if r < rounds then Pow2(rounds - 1 - r) else 0
    }

    predicate InRange(r: nat, p: nat) {
      r < rounds && p < Width(r)
    }

    function LeafA(p: nat): Option<PlayerId> {
      if p < |seeds| then Some(seeds[p].id) else None
    }

    function LeafB(p: nat): Option<PlayerId> {
      if p < Size() && Size() - 1 - p < |seeds| then Some(seeds[Size() - 1 - p].id) else None
    }

    /** How many players start below match (r, p). */
    function Players(r: nat, p: nat): nat
      decreases r
    {
      if r == 0 then (if LeafA(p).Some? then 1 else 0) + (if LeafB(p).Some? then 1 else 0)
      else Players(r - 1, 2 * p) + Players(r - 1, 2 * p + 1)
    }

    /** The player below match (r, p), when there is exactly one. */
    function Sole(r: nat, p: nat): Option<PlayerId>
      decreases r
    {
      if r == 0 then (if LeafB(p).None? then LeafA(p) else None)
      else if Players(r - 1, 2 * p) == 0 then Sole(r - 1, 2 * p + 1)
      else if Players(r - 1, 2 * p + 1) == 0 then Sole(r - 1, 2 * p)
      else None
    }

    /** The match of round r below which seed i starts. */
    function Block(i: nat, r: nat): nat
      requires i < Size()
      decreases r
    {
      if r == 0 then Seat(Size(), i).0 else Block(i, r - 1) / 2
    }
  }

  lemma ChildrenInRange(f: Field, r: nat, p: nat)
    requires f.InRange(r, p) && r > 0
    ensures f.InRange(r - 1, 2 * p) && f.InRange(r - 1, 2 * p + 1)
  {}

  lemma {:induction false} BlockInRange(f: Field, i: nat, r: nat)
    requires f.Valid() && i < |f.seeds| && r < f.rounds
    ensures f.InRange(r, f.Block(i, r))
  {
    if r > 0 {
      BlockInRange(f, i, r - 1);
    }
  }

  lemma {:induction false} SoleIffOne(f: Field, r: nat, p: nat)
    requires f.Valid() && f.InRange(r, p)
    ensures f.Sole(r, p).Some? <==> f.Players(r, p) == 1
    decreases r
  {
    if r > 0 {
      SoleIffOne(f, r - 1, 2 * p);
      SoleIffOne(f, r - 1, 2 * p + 1);
    }
  }

  /** The seeds that start below match (r, p). */
  ghost function Members(f: Field, r: nat, p: nat): set<nat>
    requires f.Valid()
  {
    set i: nat | 0 <= i < |f.seeds| && f.Block(i, r) == p
  }

  lemma MembersOfChildren(f: Field, r: nat, p: nat)
    requires f.Valid() && r > 0
    ensures Members(f, r, p) == Members(f, r - 1, 2 * p) + Members(f, r - 1, 2 * p + 1)
    ensures |Members(f, r, p)| == |Members(f, r - 1, 2 * p)| + |Members(f, r - 1, 2 * p + 1)|
  {
    assert forall i: nat | i < |f.seeds| ::
        f.Block(i, r) == p <==> f.Block(i, r - 1) == 2 * p || f.Block(i, r - 1) == 2 * p + 1;
    assert Members(f, r - 1, 2 * p) !! Members(f, r - 1, 2 * p + 1);
  }

  lemma LeafMembers(f: Field, p: nat)
    requires f.Valid() && p < f.Width(0)
    ensures Members(f, 0, p) ==
            (if p < |f.seeds| then {p} else {}) +
            (if f.Size() - 1 - p < |f.seeds| then {f.Size() - 1 - p} else {})
    ensures p != f.Size() - 1 - p
  {
    assert f.Size() == 2 * f.Width(0);
    assert forall i: nat | i < |f.seeds| :: f.Block(i, 0) == p <==> i == p || i == f.Size() - 1 - p;
  }

  /** Players counts the members, and Sole names the only one. */
  lemma {:induction false} PlayersCountsMembers(f: Field, r: nat, p: nat)
    requires f.Valid() && f.InRange(r, p)
    ensures f.Players(r, p) == |Members(f, r, p)|
    ensures f.Sole(r, p).Some? ==>
              exists i :: Members(f, r, p) == {i} && f.Sole(r, p) == Some(f.seeds[i].id)
    decreases r
  {
    if r == 0 {
      LeafMembers(f, p);
    } else {
      PlayersCountsMembers(f, r - 1, 2 * p);
      PlayersCountsMembers(f, r - 1, 2 * p + 1);
      MembersOfChildren(f, r, p);
      if f.Sole(r, p).Some? {
        var q := if f.Players(r - 1, 2 * p) == 0 then 2 * p + 1 else 2 * p;
        var other := if f.Players(r - 1, 2 * p) == 0 then 2 * p else 2 * p + 1;
        assert Members(f, r - 1, other) == {};
        assert Members(f, r, p) == Members(f, r - 1, q);
      }
    }
  }

  predicate NobodyBetween(f: Field, lo: nat, hi: nat) {
    forall j: nat :: lo <= j < hi ==> f.LeafA(j).None? && f.LeafB(j).None?
  }

  lemma Halves(p: nat, h: nat)
    ensures p * (2 * h) == (2 * p) * h && (p + 1) * (2 * h) == (2 * p + 2) * h
    ensures (2 * p + 1) * h == (2 * p) * h + h && (2 * p + 2) * h == (2 * p + 1) * h + h
  {}

  /** Emptiness below (r, p) is a statement about one range of first-round positions. */
  lemma {:induction false} EmptyRange(f: Field, r: nat, p: nat)
    requires f.Valid() && f.InRange(r, p)
    ensures f.Players(r, p) == 0 <==> NobodyBetween(f, p * Pow2(r), (p + 1) * Pow2(r))
    decreases r
  {
    if r == 0 {
      assert NobodyBetween(f, p, p + 1) <==> f.LeafA(p).None? && f.LeafB(p).None?;
    } else {
      EmptyRange(f, r - 1, 2 * p);
      EmptyRange(f, r - 1, 2 * p + 1);
      Halves(p, Pow2(r - 1));
    }
  }

  /** First position below match (r, p). */
  function Start(r: nat, p: nat): nat {
    if r == 0 then p else Start(r - 1, 2 * p)
  }

  lemma {:induction false} StartNext(r: nat, p: nat)
    ensures Start(r, p + 1) == Start(r, p) + Pow2(r)
  {
    if r > 0 {
      StartNext(r - 1, 2 * p);
      StartNext(r - 1, 2 * p + 1);
    }
  }

  /** With at most half the slots taken, players fill a prefix of the positions, one each. */
  lemma {:induction false} PlayersWhenSparse(f: Field, r: nat, p: nat)
    requires f.Valid() && f.InRange(r, p) && 2 * |f.seeds| <= f.Size()
    ensures f.Players(r, p) ==
            if |f.seeds| <= Start(r, p) then 0
            else if |f.seeds| >= Start(r, p) + Pow2(r) then Pow2(r)
            else |f.seeds| - Start(r, p)
    decreases r
  {
    if r > 0 {
      PlayersWhenSparse(f, r - 1, 2 * p);
      PlayersWhenSparse(f, r - 1, 2 * p + 1);
      StartNext(r - 1, 2 * p);
    }
  }

  /** With more than half the slots taken, every position holds somebody. */
  lemma {:induction false} PlayersWhenDense(f: Field, r: nat, p: nat)
    requires f.Valid() && f.InRange(r, p) && 2 * |f.seeds| > f.Size()
    ensures f.Players(r, p) >= Pow2(r)
    decreases r
  {
    if r > 0 {
      PlayersWhenDense(f, r - 1, 2 * p);
      PlayersWhenDense(f, r - 1, 2 * p + 1);
    }
  }

  ghost function Below(n: nat): (r: set<nat>)
    ensures |r| == n && forall i: nat :: i in r <==> i < n
  {
    if n == 0 then {} else Below(n - 1) + {n - 1}
  }

  /** All the players start below the final. */
  lemma FinalHoldsAll(f: Field)
    requires f.Valid()
    ensures f.Players(f.rounds - 1, 0) == |f.seeds|
  {
    var r := f.rounds - 1;
    forall i: nat | i < |f.seeds|
      ensures f.Block(i, r) == 0
    {
      BlockInRange(f, i, r);
    }
    assert Members(f, r, 0) == Below(|f.seeds|);
    PlayersCountsMembers(f, r, 0);
  }
}

/** Rating arithmetic over the reals: K factors, rounded deltas, the seasonal soft reset. */
module Elo {
  import opened Wrappers

  datatype Outcome = AWins | BWins | Drawn

  datatype EloError = InvalidRating | InvalidGamesPlayed

  datatype EloResult = EloResult(newRatingA: int, newRatingB: int, deltaA: int, deltaB: int)

  /** Math.round: halves go up. */
  function Round(x: real): int {
    (x + 0.5).Floor
  }

  function GetKFactor(rating: int, gamesPlayed: int): Result<int, EloError> {
    if rating < 0 then Failure(InvalidRating)
    else if gamesPlayed < 0 then Failure(InvalidGamesPlayed)
    else if rating > 2400 then Success(16)
    else if gamesPlayed < 30 then Success(40)
    else Success(32)
  }

  /** Defined exactly for non-negative inputs; more experience or a higher rating never means more volatility. */
  lemma KFactorNeverGrows(rating: int, games: int, rating': int, games': int)
    requires rating <= rating' && games <= games'
    ensures GetKFactor(rating, games).Success? <==> rating >= 0 && games >= 0
    ensures GetKFactor(rating, games).Success? ==>
              && GetKFactor(rating', games').Success?
              && GetKFactor(rating, games).value >= GetKFactor(rating', games').value
              && (GetKFactor(rating, games).value == 16 <==> rating > 2400)
              && (GetKFactor(rating, games).value == 40 <==> rating <= 2400 && games < 30)
              && (GetKFactor(rating, games).value == 32 <==> rating <= 2400 && games >= 30)
  {}

  /** To the nearest integer, and up from the middle. */
  lemma RoundIsNearest(x: real)
    ensures -0.5 < Round(x) as real - x <= 0.5
  {}

  function ScoreA(outcome: Outcome): real {
    match outcome
    case AWins => 1.0
    case BWins => 0.0
    case Drawn => 0.5
  }

  function Delta(k: int, surprise: real): int {
    Round(k as real * surprise)
  }

  /** `expectedA` is the logistic expected score of A, a number between 0 and 1. */
  function ComputeElo(ratingA: int, ratingB: int, outcome: Outcome, gamesA: int, gamesB: int,
                      expectedA: real): Result<EloResult, EloError>
  {
    match GetKFactor(ratingA, gamesA)
    case Failure(e) => Failure(e)
    case Success(kA) =>
      match GetKFactor(ratingB, gamesB)
      case Failure(e) => Failure(e)
      case Success(kB) =>
        var deltaA := Delta(kA, ScoreA(outcome) - expectedA);
        var deltaB := Delta(kB, (1.0 - ScoreA(outcome)) - (1.0 - expectedA));
        Success(EloResult(ratingA + deltaA, ratingB + deltaB, deltaA, deltaB))
  }

  lemma ComputedDeltas(ratingA: int, ratingB: int, outcome: Outcome, gamesA: int, gamesB: int, e: real)
    requires ComputeElo(ratingA, ratingB, outcome, gamesA, gamesB, e).Success?
    ensures var r := ComputeElo(ratingA, ratingB, outcome, gamesA, gamesB, e).value;
            && r.deltaA == Delta(GetKFactor(ratingA, gamesA).value, ScoreA(outcome) - e)
            && r.deltaB == Delta(GetKFactor(ratingB, gamesB).value, (1.0 - ScoreA(outcome)) - (1.0 - e))
            && r.newRatingA == ratingA + r.deltaA && r.newRatingB == ratingB + r.deltaB
  {}

  function Gap(kA: int, kB: int): int {
    if kA >= kB then kA - kB else kB - kA
  }

  lemma RoundBetween(x: real, k: int)
    ensures x <= k as real ==> Round(x) <= k
    ensures x >= k as real ==> Round(x) >= k
  {}

  lemma DeltaWithin(k: int, t: real)
    requires k in {16, 32, 40}
    ensures 0.0 <= t <= 1.0 ==> 0 <= Delta(k, t) <= k
    ensures -1.0 <= t <= 0.0 ==> -k <= Delta(k, t) <= 0
    ensures -0.5 <= t <= 0.5 ==> -k <= 2 * Delta(k, t) <= k
  {
    var x := k as real * t;
    if k == 16 {
      assert x == 16.0 * t;
    } else if k == 32 {
      assert x == 32.0 * t;
    } else {
      assert x == 40.0 * t;
    }
    RoundBetween(x, 0);
    RoundBetween(x, k);
    RoundBetween(x, -k);
    RoundBetween(x, k / 2);
    RoundBetween(x, -(k / 2));
  }

  /** A winner never loses points and a loser never gains any, within the K factor. */
  lemma DeltaBounds(ratingA: int, ratingB: int, outcome: Outcome, gamesA: int, gamesB: int, e: real)
    requires 0.0 <= e <= 1.0 && ComputeElo(ratingA, ratingB, outcome, gamesA, gamesB, e).Success?
    ensures var r := ComputeElo(ratingA, ratingB, outcome, gamesA, gamesB, e).value;
            var kA, kB := GetKFactor(ratingA, gamesA).value, GetKFactor(ratingB, gamesB).value;
            && (outcome == AWins ==> 0 <= r.deltaA <= kA && -kB <= r.deltaB <= 0)
            && (outcome == BWins ==> 0 <= r.deltaB <= kB && -kA <= r.deltaA <= 0)
            && (outcome == Drawn ==> -kA <= 2 * r.deltaA <= kA && -kB <= 2 * r.deltaB <= kB)
            && r.newRatingA == ratingA + r.deltaA && r.newRatingB == ratingB + r.deltaB
  {
    var kA, kB := GetKFactor(ratingA, gamesA).value, GetKFactor(ratingB, gamesB).value;
    var s := ScoreA(outcome);
    DeltaWithin(kA, s - e);
    DeltaWithin(kB, (1.0 - s) - (1.0 - e));
  }

  /** Rounding creates or destroys little: the two deltas cancel up to the gap between the K factors. */
  lemma DeltasNearlyCancel(ratingA: int, ratingB: int, outcome: Outcome, gamesA: int, gamesB: int, e: real)
    requires 0.0 <= e <= 1.0 && ComputeElo(ratingA, ratingB, outcome, gamesA, gamesB, e).Success?
    ensures var r := ComputeElo(ratingA, ratingB, outcome, gamesA, gamesB, e).value;
            var gap := Gap(GetKFactor(ratingA, gamesA).value, GetKFactor(ratingB, gamesB).value);
            var bound := if gap >= 1 then gap else 1;
            && -bound <= r.deltaA + r.deltaB <= bound
            && (gap == 0 ==> 0 <= r.deltaA + r.deltaB <= 1)
  {
    var kA, kB := GetKFactor(ratingA, gamesA).value, GetKFactor(ratingB, gamesB).value;
    var t := ScoreA(outcome) - e;
    assert (1.0 - ScoreA(outcome)) - (1.0 - e) == -t;
    Cancel(kA, kB, t);
  }

  lemma Cancel(kA: int, kB: int, t: real)
    requires kA in {16, 32, 40} && kB in {16, 32, 40} && -1.0 <= t <= 1.0
    ensures var sum := Delta(kA, t) + Delta(kB, -t);
            var gap := Gap(kA, kB);
            var bound := if gap >= 1 then gap else 1;
            -bound <= sum <= bound && (gap == 0 ==> 0 <= sum <= 1)
  {
    var x, y := kA as real * t, kB as real * (-t);
    assert x + y == (kA - kB) as real * t;
    SumOfRounded(x, y);
    if t == 1.0 || t == -1.0 {
      RoundBetween(x, if t == 1.0 then kA else -kA);
      RoundBetween(y, if t == 1.0 then -kB else kB);
    } else if kA != kB {
      StrictlyInside(kA - kB, t);
    }
  }

  lemma SumOfRounded(x: real, y: real)
    ensures x + y - 1.0 < (Round(x) + Round(y)) as real <= x + y + 1.0
  {
    assert Round(x) as real <= x + 0.5 < Round(x) as real + 1.0;
    assert Round(y) as real <= y + 0.5 < Round(y) as real + 1.0;
  }

  lemma StrictlyInside(d: int, t: real)
    requires d in {-24, -16, -8, 8, 16, 24} && -1.0 < t < 1.0
    ensures -(Gap(d, 0) as real) < d as real * t < Gap(d, 0) as real
  {}

  function Opposite(outcome: Outcome): Outcome {
    match outcome
    case AWins => BWins
    case BWins => AWins
    case Drawn => Drawn
  }

  /** Listing the players the other way round gives the same result to each. */
  lemma SeatsDoNotMatter(ratingA: int, ratingB: int, outcome: Outcome, gamesA: int, gamesB: int, e: real)
    ensures var p := ComputeElo(ratingA, ratingB, outcome, gamesA, gamesB, e);
            var q := ComputeElo(ratingB, ratingA, Opposite(outcome), gamesB, gamesA, 1.0 - e);
            && (p.Success? <==> q.Success?)
            && (p.Success? ==> q.value == EloResult(p.value.newRatingB, p.value.newRatingA, p.value.deltaB, p.value.deltaA))
  {
    var s := ScoreA(outcome);
    assert ScoreA(Opposite(outcome)) == 1.0 - s;
    assert (1.0 - ScoreA(Opposite(outcome))) - (1.0 - (1.0 - e)) == s - e;
  }

  // ----- the seasonal soft reset

  function SoftResetRating(rating: int): int {
    Round(rating as real * 0.75 + 1000.0 * 0.25)
  }

  lemma SoftResetInIntegers(r: int)
    ensures SoftResetRating(r) == (3 * r + 1002) / 4
  {
    var q := (3 * r + 1002) / 4;
    assert r as real * 0.75 + 1000.0 * 0.25 + 0.5 == (3 * r + 1002) as real / 4.0;
    assert q as real <= (3 * r + 1002) as real / 4.0 < (q + 1) as real;
  }

  function Resets(r: int, times: nat): int {
    if times == 0 then r else SoftResetRating(Resets(r, times - 1))
  }

  function Distance(r: int): nat {
    if r > 1002 then r - 1002 else if r < 999 then 999 - r else 0
  }

  /** The reset keeps the order of ratings, stays put exactly on 999..1002, and moves closer from anywhere else. */
  lemma SoftResetShape(r: int, s: int)
    ensures r <= s ==> SoftResetRating(r) <= SoftResetRating(s)
    ensures SoftResetRating(r) == r <==> 999 <= r <= 1002
    ensures Distance(r) > 0 ==> Distance(SoftResetRating(r)) < Distance(r)
  {
    SoftResetInIntegers(r);
    SoftResetInIntegers(s);
  }

  /** Repeated resets land in 999..1002 and stay on the rating they land on. */
  lemma {:induction false} ResetsSettle(r: int, times: nat)
    requires times >= Distance(r)
    ensures 999 <= Resets(r, times) <= 1002
    ensures forall more: nat :: more >= times ==> Resets(r, more) == Resets(r, times)
  {
    Closer(r, times);
    forall more: nat | more >= times
      ensures Resets(r, more) == Resets(r, times)
    {
      Stays(r, times, more);
    }
  }

  lemma {:induction false} Closer(r: int, times: nat)
    ensures Distance(Resets(r, times)) <= if Distance(r) >= times then Distance(r) - times else 0
  {
    if times > 0 {
      Closer(r, times - 1);
      SoftResetShape(Resets(r, times - 1), 0);
    }
  }

  lemma {:induction false} Stays(r: int, times: nat, more: nat)
    requires times <= more && 999 <= Resets(r, times) <= 1002
    ensures Resets(r, more) == Resets(r, times)
    decreases more
  {
    if times < more {
      Stays(r, times, more - 1);
      SoftResetShape(Resets(r, more - 1), 0);
    }
  }
}

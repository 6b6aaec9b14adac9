/** The season reset job: its statements in order, and its runs under retries and crashes. */
module SeasonReset {
  import opened Wrappers
  import opened Elo
  import opened SeasonArchive

  const MAIL_BATCH_SIZE: nat := 200

  datatype SeasonStatus = Upcoming | Active | Closed

  datatype ResetResult = Processed | AlreadyProcessed | NotClosed | LockNotAcquired | ArchiveFailed

  /** The first upcoming season starts when no season is active. */
  function Activated(seasons: seq<SeasonStatus>): seq<SeasonStatus> {
    if Active in seasons then seasons else ActivateFirst(seasons)
  }

  function ActivateFirst(seasons: seq<SeasonStatus>): (r: seq<SeasonStatus>)
    ensures |r| == |seasons|
  {
    if seasons == [] then []
    else if seasons[0] == Upcoming then [Active] + seasons[1..]
    else [seasons[0]] + ActivateFirst(seasons[1..])
  }

  /**
   * What starting the next season means: nothing changes while a season is
   * active or when none is upcoming; otherwise the first upcoming season, and
   * no other, becomes the only active one.
   */
  ghost predicate NextSeasonStarted(before: seq<SeasonStatus>, after: seq<SeasonStatus>) {
    && |after| == |before|
    && (Active in before || Upcoming !in before ==> after == before)
    && (Active !in before && Upcoming in before ==> exists i :: StartedAt(before, after, i))
  }

  predicate StartedAt(before: seq<SeasonStatus>, after: seq<SeasonStatus>, i: int) {
    && 0 <= i < |before| == |after|
    && before[i] == Upcoming && after[i] == Active
    && (forall j :: 0 <= j < i ==> before[j] != Upcoming)
    && (forall j :: 0 <= j < |before| && j != i ==> after[j] == before[j] && after[j] != Active)
  }

  lemma {:induction false} FirstStarts(seasons: seq<SeasonStatus>)
    requires Active !in seasons
    ensures if Upcoming in seasons then exists i :: StartedAt(seasons, ActivateFirst(seasons), i)
            else ActivateFirst(seasons) == seasons
  {
    if seasons != [] {
      var rest, after := seasons[1..], ActivateFirst(seasons);
      assert seasons == [seasons[0]] + rest;
      if seasons[0] == Upcoming {
        assert StartedAt(seasons, after, 0);
      } else {
        FirstStarts(rest);
        if Upcoming in rest {
          var i :| StartedAt(rest, ActivateFirst(rest), i);
          assert forall j :: 1 <= j < |seasons| ==> seasons[j] == rest[j - 1];
          assert StartedAt(seasons, after, i + 1);
        }
      }
    }
  }

  /** Exactly which season starts; a closed season is never opened again. */
  lemma ActivationExactly(seasons: seq<SeasonStatus>)
    ensures NextSeasonStarted(seasons, Activated(seasons))
    ensures forall j :: 0 <= j < |seasons| && seasons[j] == Closed ==> Activated(seasons)[j] == Closed
  {
    if Active !in seasons {
      FirstStarts(seasons);
      if Upcoming in seasons {
        var i :| StartedAt(seasons, Activated(seasons), i);
      }
    }
  }

  function Batch(standings: seq<Standing>): seq<nat> {
    var pending := Pending(standings);
    if |pending| <= MAIL_BATCH_SIZE then pending else pending[..MAIL_BATCH_SIZE]
  }

  /** The rows of one closed season and the rating table, without interference. */
  class SeasonResetService {
    var status: SeasonStatus  // of the season being reset
    var seasons: seq<SeasonStatus>
    var leagues: seq<League>
    var ratings: seq<RatingRow>
    var standings: seq<Standing>
    var mails: seq<nat>  // the ranks mailed, as places in the standings
    var lock: Option<string>

    constructor (seasons: seq<SeasonStatus>, leagues: seq<League>, ratings: seq<RatingRow>)
      ensures status == Closed && this.ratings == ratings && standings == [] && mails == [] && lock == None
      ensures this.seasons == seasons && this.leagues == leagues
    {
      status, this.seasons, this.leagues, this.ratings := Closed, seasons, leagues, ratings;
      standings, mails, lock := [], [], None;
    }

    /**
     * One undisturbed delivery. Standings that exist are kept and only their
     * rewards are completed; otherwise every rating is archived and reset.
     */
    method ProcessSeasonReset(token: string) returns (result: ResetResult)
      requires DistinctUsers(ratings)
      modifies this
      ensures status == old(status) && leagues == old(leagues) && lock == old(lock)
      ensures result == NotClosed <==> status != Closed
      ensures result == LockNotAcquired <==> status == Closed && lock.Some?
      ensures result == AlreadyProcessed <==> status == Closed && lock.None? && old(standings) != []
      ensures result == Processed <==> && status == Closed && lock.None? && old(standings) == []
                                       && StandingsOf(Ranked(old(ratings)), leagues).Some?
      ensures result in {Processed, AlreadyProcessed} ==>
                seasons == Activated(old(seasons)) && NextSeasonStarted(old(seasons), seasons)
      ensures result == AlreadyProcessed ==>
                && ratings == old(ratings)
                && standings == Rewarded(old(standings))
                && mails == old(mails) + Pending(old(standings))
      ensures result == Processed ==>
                && ratings == ResetAll(old(ratings))
                && standings == Rewarded(StandingsOf(Ranked(old(ratings)), leagues).value)
                && mails == old(mails) + Pending(StandingsOf(Ranked(old(ratings)), leagues).value)
      ensures result !in {Processed, AlreadyProcessed} ==>
                ratings == old(ratings) && standings == old(standings) && mails == old(mails) && seasons == old(seasons)
    {
      if status != Closed {
        return NotClosed;
      }
      if lock.Some? {
        return LockNotAcquired;
      }
      lock := Some(token);
      result := ResetUnderLock();
      ActivationExactly(old(seasons));
      lock := None;
    }

    method ResetUnderLock() returns (result: ResetResult)
      requires DistinctUsers(ratings)
      modifies this`ratings, this`standings, this`seasons, this`mails
      ensures result == AlreadyProcessed <==> old(standings) != []
      ensures result == Processed <==>
                old(standings) == [] && StandingsOf(Ranked(old(ratings)), leagues).Some?
      ensures result in {Processed, AlreadyProcessed, ArchiveFailed}
      ensures result == AlreadyProcessed ==>
                && ratings == old(ratings) && seasons == Activated(old(seasons))
                && standings == Rewarded(old(standings))
                && mails == old(mails) + Pending(old(standings))
      ensures result == Processed ==>
                && ratings == ResetAll(old(ratings)) && seasons == Activated(old(seasons))
                && standings == Rewarded(StandingsOf(Ranked(old(ratings)), leagues).value)
                && mails == old(mails) + Pending(StandingsOf(Ranked(old(ratings)), leagues).value)
      ensures result == ArchiveFailed ==>
                ratings == old(ratings) && standings == old(standings) && mails == old(mails) && seasons == old(seasons)
    {
      if |standings| > 0 {
        seasons := Activated(seasons);
        EnqueuePendingRewardMails();
        return AlreadyProcessed;
      }
      var archived := ArchiveStandingsAndSoftReset();
      if !archived {
        return ArchiveFailed;
      }
      seasons := Activated(seasons);
      EnqueuePendingRewardMails();
      return Processed;
    }

    /** The archive transaction: ranked standings, then one rating update per row. */
    method ArchiveStandingsAndSoftReset() returns (archived: bool)
      requires DistinctUsers(ratings)
      modifies this`ratings, this`standings
      ensures archived <==> StandingsOf(Ranked(old(ratings)), leagues).Some?
      ensures archived ==>
                && standings == StandingsOf(Ranked(old(ratings)), leagues).value
                && ratings == ResetAll(old(ratings))
      ensures !archived ==> ratings == old(ratings) && standings == old(standings)
    {
      var ranked := Ranked(ratings);
      var created := StandingsOf(ranked, leagues);
      if created.None? {
        return false;
      }
      ghost var before := ratings;
      standings := created.value;
      for n := 0 to |ranked|
        invariant ResetUpTo(ratings, before, ranked, n) && standings == created.value
      {
        var entry := ranked[n];
        OneMoreReset(ratings, before, ranked, n);
        ratings := UpdateRow(ratings, entry.userId, SoftResetRating(entry.rating), 0);
      }
      EveryRowIsRanked(before, ranked);
      assert ratings == ResetAll(before);
      return true;
    }

    /**
     * The mail loop ends with every standing marked; each standing that was
     * still pending is mailed once, in rank order.
     */
    method EnqueuePendingRewardMails()
      modifies this`standings, this`mails
      ensures standings == Rewarded(old(standings))
      ensures mails == old(mails) + Pending(old(standings))
    {
      ghost var all := Pending(standings);
      ghost var done := 0;
      while true
        invariant 0 <= done <= |all| && Rewarded(standings) == Rewarded(old(standings))
        invariant Pending(standings) == all[done..]
        invariant mails == old(mails) + all[..done]
        decreases |all| - done
      {
        var batch := Batch(standings);
        if |batch| == 0 {
          break;
        }
        MailBatch(batch);
        done := done + |batch|;
        assert all[..done] == all[..done - |batch|] + batch;
        if |batch| < MAIL_BATCH_SIZE {
          break;
        }
      }
      assert all[..|all|] == all;
      PendingExactly(standings);
      forall i | 0 <= i < |standings|
        ensures standings[i].rewardsDistributed
      {
        assert i !in Pending(standings);
      }
      assert standings == Rewarded(standings);
    }

    method MailBatch(batch: seq<nat>)
      requires batch == Batch(standings)
      modifies this`standings, this`mails
      ensures Rewarded(standings) == Rewarded(old(standings)) && mails == old(mails) + batch
      ensures Pending(standings) == Pending(old(standings))[|batch|..]
    {
      ghost var all := Pending(standings);
      for n := 0 to |batch|
        invariant Rewarded(standings) == Rewarded(old(standings))
        invariant Pending(standings) == all[n..]
        invariant mails == old(mails) + batch[..n]
      {
        MarkFirst(standings);
        MarkKeepsRest(standings, batch[n]);
        mails := mails + [batch[n]];
        standings := Marked(standings, batch[n]);
      }
    }
  }

  lemma MarkKeepsRest(standings: seq<Standing>, i: nat)
    requires i < |standings|
    ensures Rewarded(Marked(standings, i)) == Rewarded(standings)
  {}

  function UpdateRow(rows: seq<RatingRow>, userId: UserId, rating: int, gamesPlayed: nat): (r: seq<RatingRow>)
    ensures |r| == |rows|
  {
    seq(|rows|, i requires 0 <= i < |rows| =>
      if rows[i].userId == userId then RatingRow(userId, rating, gamesPlayed) else rows[i])
  }

  predicate Covered(ranked: seq<RatingRow>, n: nat, userId: UserId) {
    exists m :: 0 <= m < n && m < |ranked| && ranked[m].userId == userId
  }

  /** The rows of the first n ranked users are reset, the others are as before. */
  predicate ResetUpTo(rows: seq<RatingRow>, before: seq<RatingRow>, ranked: seq<RatingRow>, n: nat) {
    && |rows| == |before|
    && forall i :: 0 <= i < |before| ==>
         rows[i] == if Covered(ranked, n, before[i].userId) then ResetRow(before[i]) else before[i]
  }

  lemma OneMoreReset(rows: seq<RatingRow>, before: seq<RatingRow>, ranked: seq<RatingRow>, n: nat)
    requires DistinctUsers(before) && multiset(ranked) == multiset(before) && n < |ranked|
    requires ResetUpTo(rows, before, ranked, n)
    ensures ResetUpTo(UpdateRow(rows, ranked[n].userId, SoftResetRating(ranked[n].rating), 0), before, ranked, n + 1)
  {
    assert ranked[n] in multiset(before);
    assert ranked[n] in before;
    forall i | 0 <= i < |before|
      ensures before[i].userId == ranked[n].userId ==> before[i] == ranked[n]
      ensures Covered(ranked, n + 1, before[i].userId) <==>
              Covered(ranked, n, before[i].userId) || before[i].userId == ranked[n].userId
    {
      if before[i].userId == ranked[n].userId {
        assert Covered(ranked, n + 1, before[i].userId);
      }
    }
  }

  lemma EveryRowIsRanked(rows: seq<RatingRow>, ranked: seq<RatingRow>)
    requires multiset(ranked) == multiset(rows)
    ensures forall i :: 0 <= i < |rows| ==> Covered(ranked, |ranked|, rows[i].userId)
  {
    forall i | 0 <= i < |rows|
      ensures Covered(ranked, |ranked|, rows[i].userId)
    {
      assert rows[i] in multiset(ranked);
      assert rows[i] in ranked;
    }
  }
}

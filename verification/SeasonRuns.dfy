/**
 * The season reset job under repeated deliveries, crashes between any two
 * statements, and rating updates by matches in between. The lock admits one
 * worker; a crashed worker's lock runs out.
 */
module SeasonRuns {
  import opened Wrappers
  import opened SeasonArchive
  import opened SeasonReset

  datatype Phase =
    | Checking
    | Archiving
    | Activating
    | Fetching
    | Enqueueing(batch: seq<nat>, next: nat)
    | Marking(batch: seq<nat>, next: nat)

  datatype State = State(
    ratings: seq<RatingRow>,
    standings: seq<Standing>,
    seasons: seq<SeasonStatus>,
    mails: seq<nat>,
    worker: Option<Phase>,
    archives: seq<seq<RatingRow>>,  // the rating tables that were archived and reset
    crashes: nat)

  datatype Step = Deliver | Work | Crash | MatchesPlayed(ratings: seq<RatingRow>)

  function Start(ratings: seq<RatingRow>, seasons: seq<SeasonStatus>): State {
    State(ratings, [], seasons, [], None, [], 0)
  }

  function Do(s: State, step: Step, leagues: seq<League>): State {
    match step
    case Deliver => if s.worker.None? then s.(worker := Some(Checking)) else s
    case Crash => if s.worker.Some? then s.(worker := None, crashes := s.crashes + 1) else s
    case MatchesPlayed(ratings) => s.(ratings := ratings)
    case Work => if s.worker.Some? then WorkOn(s, s.worker.value, leagues) else s
  }

  /** The next statement of the job. */
  function WorkOn(s: State, phase: Phase, leagues: seq<League>): State {
    match phase
    case Checking => s.(worker := Some(if |s.standings| > 0 then Activating else Archiving))
    case Archiving =>
      (match StandingsOf(Ranked(s.ratings), leagues)
       case None => s.(worker := None)
       case Some(standings) =>
         s.(standings := standings, ratings := ResetAll(s.ratings), worker := Some(Activating),
            archives := if s.ratings == [] then s.archives else s.archives + [s.ratings]))
    case Activating => s.(seasons := Activated(s.seasons), worker := Some(Fetching))
    case Fetching =>
      var batch := Batch(s.standings);
      s.(worker := if batch == [] then None else Some(Enqueueing(batch, 0)))
    case Enqueueing(batch, n) =>
      if n < |batch| then s.(mails := s.mails + [batch[n]], worker := Some(Marking(batch, n))) else s
    case Marking(batch, n) =>
      if n < |batch| && batch[n] < |s.standings| then
        s.(standings := Marked(s.standings, batch[n]),
           worker := if n + 1 < |batch| then Some(Enqueueing(batch, n + 1))
                     else if |batch| < MAIL_BATCH_SIZE then None else Some(Fetching))
      else s
  }

  function Run(s: State, steps: seq<Step>, leagues: seq<League>): State {
    if steps == [] then s else Do(Run(s, steps[..|steps| - 1], leagues), steps[|steps| - 1], leagues)
  }

  /** A standing as it was created. */
  function AsCreated(standings: seq<Standing>): (r: seq<Standing>)
    ensures |r| == |standings|
  {
    seq(|standings|, i requires 0 <= i < |standings| => standings[i].(rewardsDistributed := false))
  }

  /** What is left of the batch is what comes first among the pending standings. */
  predicate BatchAhead(standings: seq<Standing>, batch: seq<nat>, n: nat) {
    var pending := Pending(standings);
    && n < |batch| <= MAIL_BATCH_SIZE
    && batch[n..] <= pending
    && (|batch| < MAIL_BATCH_SIZE ==> batch[n..] == pending)
  }

  predicate PhaseOk(s: State) {
    match s.worker
    case Some(Archiving) => s.standings == []
    case Some(Enqueueing(batch, n)) => BatchAhead(s.standings, batch, n)
    case Some(Marking(batch, n)) => BatchAhead(s.standings, batch, n) && batch[n] in s.mails
    case _ => true
  }

  predicate ArchiveOk(s: State, leagues: seq<League>) {
    && |s.archives| <= 1
    && (s.archives == [] <==> s.standings == [])
    && (s.archives != [] ==> Some(AsCreated(s.standings)) == StandingsOf(Ranked(s.archives[0]), leagues))
  }

  predicate MailsOk(s: State) {
    && (forall i :: 0 <= i < |s.standings| && s.standings[i].rewardsDistributed ==> i in s.mails)
    && |s.mails| + |Pending(s.standings)| <=
       |s.standings| + s.crashes + if s.worker.Some? && s.worker.value.Marking? then 1 else 0
  }

  predicate Inv(s: State, leagues: seq<League>) {
    PhaseOk(s) && ArchiveOk(s, leagues) && MailsOk(s)
  }

  lemma FreshStandings(ranked: seq<RatingRow>, leagues: seq<League>)
    requires StandingsOf(ranked, leagues).Some?
    ensures var standings := StandingsOf(ranked, leagues).value;
            && AsCreated(standings) == standings && |standings| == |ranked|
            && (forall i :: 0 <= i < |standings| ==> !standings[i].rewardsDistributed)
            && |Pending(standings)| <= |standings|
  {
    StandingsFollowRows(ranked, leagues);
    PendingExactly(StandingsOf(ranked, leagues).value);
  }

  lemma NothingPending(standings: seq<Standing>)
    requires Pending(standings) == []
    ensures AllRewarded(standings)
  {
    PendingExactly(standings);
    forall i: nat | i < |standings|
      ensures standings[i].rewardsDistributed
    {
      assert i !in Pending(standings);
    }
  }

  lemma TailAhead(batch: seq<nat>, n: nat, pending: seq<nat>)
    requires n < |batch| && batch[n..] <= pending
    ensures pending != [] && batch[n] == pending[0] && batch[n + 1..] <= pending[1..]
    ensures batch[n..] == pending ==> batch[n + 1..] == pending[1..]
  {
    assert batch[n..][0] == batch[n];
    assert batch[n..][1..] == batch[n + 1..];
  }

  lemma MarkKeepsCreation(standings: seq<Standing>, i: nat)
    requires i < |standings|
    ensures AsCreated(Marked(standings, i)) == AsCreated(standings)
  {}

  /** The mark goes to the first pending standing, and the rest of the batch is then what comes first. */
  lemma MarkAhead(standings: seq<Standing>, batch: seq<nat>, n: nat)
    requires BatchAhead(standings, batch, n)
    ensures batch[n] < |standings| && Pending(standings) != []
    ensures var after := Marked(standings, batch[n]);
            && Pending(after) == Pending(standings)[1..]
            && (n + 1 < |batch| ==> BatchAhead(after, batch, n + 1))
            && (n + 1 == |batch| < MAIL_BATCH_SIZE ==> AllRewarded(after))
  {
    TailAhead(batch, n, Pending(standings));
    MarkFirst(standings);
    if n + 1 == |batch| < MAIL_BATCH_SIZE {
      NothingPending(Marked(standings, batch[n]));
    }
  }

  lemma MarkingKeepsMails(s: State, batch: seq<nat>, n: nat, leagues: seq<League>)
    requires MailsOk(s) && s.worker == Some(Marking(batch, n))
    requires n < |batch| && batch[n] < |s.standings| && batch[n] in s.mails && Pending(s.standings) != []
    requires Pending(Marked(s.standings, batch[n])) == Pending(s.standings)[1..]
    ensures MailsOk(WorkOn(s, Marking(batch, n), leagues))
  {}

  lemma MarkingStep(s: State, batch: seq<nat>, n: nat, leagues: seq<League>)
    requires Inv(s, leagues) && s.worker == Some(Marking(batch, n))
    ensures Inv(WorkOn(s, Marking(batch, n), leagues), leagues)
    ensures WorkOn(s, Marking(batch, n), leagues).worker.None? ==>
              AllRewarded(WorkOn(s, Marking(batch, n), leagues).standings)
  {
    MarkAhead(s.standings, batch, n);
    MarkKeepsCreation(s.standings, batch[n]);
    MarkingKeepsMails(s, batch, n, leagues);
  }

  lemma FetchingStep(s: State, leagues: seq<League>)
    requires Inv(s, leagues) && s.worker == Some(Fetching)
    ensures Inv(WorkOn(s, Fetching, leagues), leagues)
    ensures WorkOn(s, Fetching, leagues).worker.None? ==> AllRewarded(s.standings)
  {
    if Pending(s.standings) == [] {
      NothingPending(s.standings);
    } else {
      var batch := Batch(s.standings);
      assert batch[0..] == batch;
    }
  }

  lemma StepKeepsInv(s: State, step: Step, leagues: seq<League>)
    requires Inv(s, leagues)
    ensures Inv(Do(s, step, leagues), leagues)
  {
    if step.Work? && s.worker.Some? {
      match s.worker.value
      case Marking(batch, n) => MarkingStep(s, batch, n, leagues);
      case Fetching => FetchingStep(s, leagues);
      case Archiving =>
        if StandingsOf(Ranked(s.ratings), leagues).Some? {
          FreshStandings(Ranked(s.ratings), leagues);
        }
      case _ =>
    }
  }

  /** A worker that leaves the mail loop without crashing leaves every standing rewarded. */
  lemma LeavesEverybodyRewarded(s: State, leagues: seq<League>)
    requires Inv(s, leagues) && s.worker.Some?
    requires s.worker.value.Fetching? || s.worker.value.Marking?
    ensures Do(s, Work, leagues).worker.None? ==> AllRewarded(Do(s, Work, leagues).standings)
  {
    match s.worker.value
    case Marking(batch, n) => MarkingStep(s, batch, n, leagues);
    case Fetching => FetchingStep(s, leagues);
  }

  lemma {:induction false} RunsKeepInv(ratings: seq<RatingRow>, seasons: seq<SeasonStatus>, steps: seq<Step>,
                                       leagues: seq<League>)
    ensures Inv(Run(Start(ratings, seasons), steps, leagues), leagues)
  {
    if steps != [] {
      RunsKeepInv(ratings, seasons, steps[..|steps| - 1], leagues);
      StepKeepsInv(Run(Start(ratings, seasons), steps[..|steps| - 1], leagues), steps[|steps| - 1], leagues);
    }
  }

  /**
   * Whatever the deliveries and crashes: ratings are archived and reset in at
   * most one transaction, whose standings stay as created but for the reward
   * mark; a rewarded standing was mailed, and no more mails are sent than
   * standings and crashes.
   */
  lemma ArchivedOnce(ratings: seq<RatingRow>, seasons: seq<SeasonStatus>, steps: seq<Step>, leagues: seq<League>)
    ensures var s := Run(Start(ratings, seasons), steps, leagues);
            && |s.archives| <= 1
            && (s.standings != [] <==> |s.archives| == 1)
            && (s.standings != [] ==> StandingsOf(Ranked(s.archives[0]), leagues) == Some(AsCreated(s.standings)))
            && (forall i :: 0 <= i < |s.standings| && s.standings[i].rewardsDistributed ==> i in s.mails)
            && |s.mails| <= |s.standings| + s.crashes + 1
  {
    RunsKeepInv(ratings, seasons, steps, leagues);
  }

  /** Once archived, no later step changes the archive or resets the ratings again. */
  lemma NeverResetAgain(s: State, step: Step, leagues: seq<League>)
    requires Inv(s, leagues) && s.standings != []
    ensures var after := Do(s, step, leagues);
            && after.archives == s.archives && AsCreated(after.standings) == AsCreated(s.standings)
            && after.ratings == if step.MatchesPlayed? then step.ratings else s.ratings
  {
    if step.Work? && s.worker.Some? && s.worker.value.Marking? {
      var batch, n := s.worker.value.batch, s.worker.value.next;
      if n < |batch| && batch[n] < |s.standings| {
        MarkKeepsCreation(s.standings, batch[n]);
      }
    }
  }

  // ----- an undisturbed job

  /** The worker takes n steps and nothing else happens. */
  function Works(s: State, n: nat, leagues: seq<League>): State
    decreases n
  {
    if n == 0 then s else Works(Do(s, Work, leagues), n - 1, leagues)
  }

  predicate InMailLoop(s: State) {
    s.worker.Some? && (s.worker.value.Fetching? || s.worker.value.Enqueueing? || s.worker.value.Marking?)
  }

  /** The mails that are still to be sent: a standing that is being marked has been mailed. */
  function ToMail(s: State): seq<nat> {
    var pending := Pending(s.standings);
    if s.worker.Some? && s.worker.value.Marking? && pending != [] then pending[1..] else pending
  }

  function Mailed(s: State): State {
    s.(standings := Rewarded(s.standings), mails := s.mails + ToMail(s), worker := None)
  }

  lemma RewardedAlready(standings: seq<Standing>)
    requires Pending(standings) == []
    ensures Rewarded(standings) == standings
  {
    NothingPending(standings);
  }

  lemma MailStep(s: State, leagues: seq<League>)
    requires Inv(s, leagues) && InMailLoop(s)
    ensures var next := Do(s, Work, leagues);
            && (next.worker.None? ==> next == Mailed(s))
            && (next.worker.Some? ==> InMailLoop(next) && Mailed(next) == Mailed(s))
            && |Pending(next.standings)| <= |Pending(s.standings)|
            && (s.worker.value.Marking? ==> |Pending(next.standings)| < |Pending(s.standings)|)
            && (s.worker.value.Fetching? && next.worker.Some? ==> next.worker.value.Enqueueing?)
            && (s.worker.value.Enqueueing? ==> next.worker.Some? && next.worker.value.Marking?)
  {
    match s.worker.value
    case Fetching => FetchOne(s, leagues);
    case Enqueueing(batch, n) => MailOne(s, batch, n, leagues);
    case Marking(batch, n) => MarkOne(s, batch, n, leagues);
  }

  lemma FetchOne(s: State, leagues: seq<League>)
    requires s.worker == Some(Fetching)
    ensures var next := WorkOn(s, Fetching, leagues);
            if Pending(s.standings) == [] then next == Mailed(s) && next.worker.None?
            else next.worker == Some(Enqueueing(Batch(s.standings), 0)) && Mailed(next) == Mailed(s)
  {
    if Pending(s.standings) == [] {
      RewardedAlready(s.standings);
      assert s.mails + [] == s.mails;
    }
  }

  lemma MailOne(s: State, batch: seq<nat>, n: nat, leagues: seq<League>)
    requires BatchAhead(s.standings, batch, n) && s.worker == Some(Enqueueing(batch, n))
    ensures var next := WorkOn(s, Enqueueing(batch, n), leagues);
            next.worker == Some(Marking(batch, n)) && next.standings == s.standings && Mailed(next) == Mailed(s)
  {
    var pending := Pending(s.standings);
    TailAhead(batch, n, pending);
    assert s.mails + [batch[n]] + pending[1..] == s.mails + pending;
  }

  lemma MarkOne(s: State, batch: seq<nat>, n: nat, leagues: seq<League>)
    requires BatchAhead(s.standings, batch, n) && s.worker == Some(Marking(batch, n))
    ensures var next := WorkOn(s, Marking(batch, n), leagues);
            && |Pending(next.standings)| < |Pending(s.standings)|
            && (if next.worker.None? then next == Mailed(s) else InMailLoop(next) && Mailed(next) == Mailed(s))
  {
    MarkAhead(s.standings, batch, n);
    MarkKeepsRest(s.standings, batch[n]);
    if n + 1 == |batch| < MAIL_BATCH_SIZE {
      EverythingMarked(Marked(s.standings, batch[n]));
      assert s.mails + [] == s.mails;
    }
  }

  lemma EverythingMarked(standings: seq<Standing>)
    requires AllRewarded(standings)
    ensures Pending(standings) == [] && Rewarded(standings) == standings
  {
    assert Pending(standings) != [] ==> Pending(standings)[0] in Pending(standings);
    PendingExactly(standings);
  }

  function Rank(s: State): nat {
    if s.worker.None? then 0
    else match s.worker.value
         case Fetching => 2
         case Enqueueing(_, _) => 1
         case _ => 0
  }

  /** Left alone, the mail loop ends with every standing marked and each pending one mailed once, in rank order. */
  lemma {:induction false} MailLoopEnds(s: State, leagues: seq<League>) returns (n: nat)
    requires Inv(s, leagues) && InMailLoop(s)
    ensures Works(s, n, leagues) == Mailed(s)
    decreases |Pending(s.standings)|, Rank(s)
  {
    var next := Do(s, Work, leagues);
    MailStep(s, leagues);
    StepKeepsInv(s, Work, leagues);
    if next.worker.None? {
      n := 1;
      assert Works(s, 1, leagues) == Works(next, 0, leagues);
    } else {
      n := MailLoopEnds(next, leagues);
      n := n + 1;
    }
  }

  /** Left alone, a delivered job does what one call of the service promises, and ends. */
  lemma UndisturbedJob(s: State, leagues: seq<League>) returns (n: nat)
    requires Inv(s, leagues) && s.worker == Some(Checking)
    ensures var end := Works(s, n, leagues);
            if s.standings != []
            then end == s.(seasons := Activated(s.seasons), standings := Rewarded(s.standings),
                           mails := s.mails + Pending(s.standings), worker := None)
            else match StandingsOf(Ranked(s.ratings), leagues)
                 case None => end == s.(worker := None)
                 case Some(standings) =>
                   end == s.(ratings := ResetAll(s.ratings), seasons := Activated(s.seasons),
                             standings := Rewarded(standings), mails := s.mails + Pending(standings), worker := None,
                             archives := if s.ratings == [] then s.archives else s.archives + [s.ratings])
  {
    var first := Do(s, Work, leagues);
    StepKeepsInv(s, Work, leagues);
    if s.standings != [] {
      n := FromActivating(first, leagues);
      n := n + 1;
    } else {
      var second := Do(first, Work, leagues);
      StepKeepsInv(first, Work, leagues);
      if second.worker.None? {
        n := 2;
        assert Works(s, 2, leagues) == Works(first, 1, leagues) == Works(second, 0, leagues);
      } else {
        n := FromActivating(second, leagues);
        assert Works(first, n + 1, leagues) == Works(second, n, leagues);
        n := n + 2;
      }
    }
  }

  lemma FromActivating(s: State, leagues: seq<League>) returns (n: nat)
    requires Inv(s, leagues) && s.worker == Some(Activating)
    ensures Works(s, n, leagues) == s.(seasons := Activated(s.seasons), standings := Rewarded(s.standings),
                                       mails := s.mails + Pending(s.standings), worker := None)
  {
    var next := Do(s, Work, leagues);
    StepKeepsInv(s, Work, leagues);
    n := MailLoopEnds(next, leagues);
    n := n + 1;
  }

  predicate OneActiveAtMost(seasons: seq<SeasonStatus>) {
    forall i, j | 0 <= i < j < |seasons| :: !(seasons[i] == Active && seasons[j] == Active)
  }

  /** Only upcoming seasons change. */
  predicate OpenedFrom(before: seq<SeasonStatus>, after: seq<SeasonStatus>) {
    |after| == |before| && forall j :: 0 <= j < |before| && before[j] != Upcoming ==> after[j] == before[j]
  }

  lemma ActivationInTurn(seasons: seq<SeasonStatus>)
    requires OneActiveAtMost(seasons)
    ensures OneActiveAtMost(Activated(seasons)) && OpenedFrom(seasons, Activated(seasons))
  {
    ActivationExactly(seasons);
  }

  /** Whatever the deliveries and crashes: a closed season stays closed, and there is one active season at most. */
  lemma {:induction false} SeasonsOpenInTurn(ratings: seq<RatingRow>, seasons: seq<SeasonStatus>, steps: seq<Step>,
                                             leagues: seq<League>)
    requires OneActiveAtMost(seasons)
    ensures var now := Run(Start(ratings, seasons), steps, leagues).seasons;
            OneActiveAtMost(now) && OpenedFrom(seasons, now)
  {
    if steps != [] {
      SeasonsOpenInTurn(ratings, seasons, steps[..|steps| - 1], leagues);
      ActivationInTurn(Run(Start(ratings, seasons), steps[..|steps| - 1], leagues).seasons);
    }
  }
}

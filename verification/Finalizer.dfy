/** The one-shot finalizer: several paths may reach it, one may publish. */
module Finalizer {
  import opened MatchState
  import opened MatchRuns

  /** Where a finalizing call stands. */
  datatype Phase = Pending(state: MatchState) | Claimed(state: MatchState) | Failing | Finished

  /** How adding the job to the queue may turn out. A lost answer means added, but seen as failed. */
  datatype Outcome = Acked | Refused | AnswerLost

  /** The job id is the match id: adding it again has no effect while the job is still in the queue. */
  datatype Config = Config(
    stored: MatchState,
    guard: bool,   // the finalized key
    queued: bool,  // the job is in the queue
    calls: seq<Phase>,
    published: seq<MatchState>,  // payloads of the jobs created so far
    answersLost: nat)

  datatype FinalStep =
    | Mutation(step: Step)  // one serialized mutateState call
    | Claim(call: nat)
    | SideEffectFails(call: nat)
    | Publish(call: nat, outcome: Outcome)
    | ReleaseGuard(call: nat, released: bool)
    | Consume  // the job is completed and removed

  /** Which mutator calls go on to finalize the match. */
  predicate ReachesFinalizer(s: MatchState, step: Step) {
    && Mutate(s, step).Success?
    && After(s, step).status == Over
    && match step
       case PlayStep(_, _, _, _) => true
       case TimeoutStep(_, _) => true
       case DisconnectStep(_) => s.status != Over
  }

  /** Which calls go on to finalize: those that end the match, and a deadline that finds it ended. */
  lemma FinalizesExactly(s: MatchState, step: Step)
    requires Valid(s)
    ensures ReachesFinalizer(s, step) <==>
            After(s, step).status == Over && (s.status != Over || step.TimeoutStep?)
  {
    StepKeepsValid(s, step);
  }

  function Start(s: MatchState): Config {
    Config(s, false, false, [], [], 0)
  }

  function Do(c: Config, step: FinalStep): Config {
    match step
    case Mutation(m) =>
      var next := After(c.stored, m);
      c.(stored := next, calls := if ReachesFinalizer(c.stored, m) then c.calls + [Pending(next)] else c.calls)
    case Claim(i) =>
      if i < |c.calls| && c.calls[i].Pending? then
        if c.guard then c.(calls := c.calls[i := Finished])
        else c.(guard := true, calls := c.calls[i := Claimed(c.calls[i].state)])
      else c
    case SideEffectFails(i) =>
      if i < |c.calls| && c.calls[i].Claimed? then c.(calls := c.calls[i := Failing]) else c
    case Publish(i, outcome) =>
      if i < |c.calls| && c.calls[i].Claimed? then
        c.(calls := c.calls[i := if outcome == Acked then Finished else Failing],
           published := if outcome == Refused || c.queued then c.published else c.published + [c.calls[i].state],
           queued := c.queued || outcome != Refused,
           answersLost := c.answersLost + if outcome == AnswerLost then 1 else 0)
      else c
    case ReleaseGuard(i, released) =>
      if i < |c.calls| && c.calls[i].Failing? then
        c.(guard := c.guard && !released, calls := c.calls[i := Finished])
      else c
    case Consume => c.(queued := false)
  }

  function Exec(c: Config, steps: seq<FinalStep>): Config {
    if steps == [] then c else Do(Exec(c, steps[..|steps| - 1]), steps[|steps| - 1])
  }

  predicate Busy(p: Phase) { p.Claimed? || p.Failing? }

  /** Whoever still has a payload to publish has the stored ended state. */
  ghost predicate OnePayload(c: Config) {
    forall i :: 0 <= i < |c.calls| && (c.calls[i].Pending? || c.calls[i].Claimed?) ==>
      c.calls[i].state == c.stored && c.stored.status == Over
  }

  /** Whoever did publish, published the stored ended state. */
  ghost predicate OnePublished(c: Config) {
    forall i :: 0 <= i < |c.published| ==> c.published[i] == c.stored && c.stored.status == Over
  }

  /** The guard is held by at most one call at a time. */
  ghost predicate OneBusy(c: Config) {
    && (forall i, j | 0 <= i < j < |c.calls| :: !(Busy(c.calls[i]) && Busy(c.calls[j])))
    && (forall i :: 0 <= i < |c.calls| && Busy(c.calls[i]) ==> c.guard)
  }

  /** After an acknowledged publication the guard stays closed for good. */
  ghost predicate Counted(c: Config) {
    && |c.published| <= c.answersLost + 1
    && (|c.published| == c.answersLost + 1 ==>
          c.guard && forall i :: 0 <= i < |c.calls| ==> !Busy(c.calls[i]))
  }

  ghost predicate Inv(c: Config) {
    Valid(c.stored) && OnePayload(c) && OnePublished(c) && OneBusy(c) && Counted(c)
  }

  /** An ended state is never replaced by another, so a new finalizing call brings the same payload. */
  lemma NextStateKeepsInv(c: Config, next: MatchState, finalizes: bool)
    requires Inv(c) && Valid(next)
    requires c.stored.status == Over ==> next == c.stored
    requires finalizes ==> next.status == Over
    ensures Inv(c.(stored := next, calls := if finalizes then c.calls + [Pending(next)] else c.calls))
  {
    var after := c.(stored := next, calls := if finalizes then c.calls + [Pending(next)] else c.calls);
    assert c.published != [] ==> c.published[0] == c.stored && c.stored.status == Over;
    if c.stored.status != Over {
      assert forall i :: 0 <= i < |c.calls| ==> !c.calls[i].Pending? && !c.calls[i].Claimed?;
      assert c.published == [];
    }
    assert OnePayload(after) && OnePublished(after) && OneBusy(after) && Counted(after);
  }

  lemma MutationKeepsInv(c: Config, m: Step)
    requires Inv(c)
    ensures Inv(Do(c, Mutation(m)))
  {
    MatchRuns.StepKeepsValid(c.stored, m);
    if c.stored.status == Over {
      EndedIsFinal(c.stored, m);
    }
    NextStateKeepsInv(c, After(c.stored, m), ReachesFinalizer(c.stored, m));
  }

  lemma PayloadKept(c: Config, step: FinalStep)
    requires OnePayload(c) && !step.Mutation?
    ensures OnePayload(Do(c, step))
  {
    var after := Do(c, step);
    assert forall i :: 0 <= i < |c.calls| && (after.calls[i].Pending? || after.calls[i].Claimed?) ==>
             after.calls[i].state == c.calls[i].state && (c.calls[i].Pending? || c.calls[i].Claimed?);
  }

  lemma PublishedKept(c: Config, step: FinalStep)
    requires OnePayload(c) && OnePublished(c) && !step.Mutation?
    ensures OnePublished(Do(c, step))
  {
    var after := Do(c, step);
    forall i | 0 <= i < |after.published|
      ensures after.published[i] == c.stored && c.stored.status == Over
    {
      if i < |c.published| {
        assert after.published[i] == c.published[i];
      } else {
        assert after.published[i] == c.calls[step.call].state;
      }
    }
  }

  lemma BusyKept(c: Config, step: FinalStep)
    requires OneBusy(c) && !step.Mutation?
    ensures OneBusy(Do(c, step))
  {}

  lemma CountKept(c: Config, step: FinalStep)
    requires OneBusy(c) && Counted(c) && !step.Mutation?
    ensures Counted(Do(c, step))
  {}

  lemma StepKeepsInv(c: Config, step: FinalStep)
    requires Inv(c)
    ensures Inv(Do(c, step))
  {
    if step.Mutation? {
      MutationKeepsInv(c, step.step);
    } else {
      PayloadKept(c, step);
      PublishedKept(c, step);
      BusyKept(c, step);
      CountKept(c, step);
    }
  }

  /**
   * Over every interleaving of round ends, timeouts and disconnects with their
   * finalizers, failures and guard releases: every published payload is the
   * stored ended state, and the job is published at most once more than the
   * queue lost its answer.
   */
  lemma {:induction false} PublishedOnce(s: MatchState, steps: seq<FinalStep>)
    requires Initial(s)
    ensures Inv(Exec(Start(s), steps))
    ensures var c := Exec(Start(s), steps);
            && |c.published| <= 1 + c.answersLost
            && (forall i :: 0 <= i < |c.published| ==> c.published[i] == c.stored)
            && (c.published != [] ==> Ended(c.stored))
  {
    if steps != [] {
      PublishedOnce(s, steps[..|steps| - 1]);
      StepKeepsInv(Exec(Start(s), steps[..|steps| - 1]), steps[|steps| - 1]);
    }
    var c := Exec(Start(s), steps);
    assert Inv(c);
    if c.published != [] {
      assert c.published[0] == c.stored && c.stored.status == Over;
    }
  }

  predicate AnswersArrive(steps: seq<FinalStep>) {
    forall i :: 0 <= i < |steps| ==> !(steps[i].Publish? && steps[i].outcome == AnswerLost)
  }

  lemma {:induction false} NoAnswerLost(s: MatchState, steps: seq<FinalStep>)
    requires AnswersArrive(steps)
    ensures Exec(Start(s), steps).answersLost == 0
  {
    if steps != [] {
      NoAnswerLost(s, steps[..|steps| - 1]);
    }
  }

  /** Exactly once at most, as long as every answer of the queue arrives. */
  lemma AtMostOnePublication(s: MatchState, steps: seq<FinalStep>)
    requires Initial(s) && AnswersArrive(steps)
    ensures |Exec(Start(s), steps).published| <= 1
  {
    PublishedOnce(s, steps);
    NoAnswerLost(s, steps);
  }

  // ----- exactly when there is one job at most

  /** Two facts about the queue: it may lose an answer; completed jobs are removed. */
  datatype Queue = Queue(loses: bool, removes: bool)

  predicate StepWithin(step: FinalStep, q: Queue) {
    (step.Publish? && step.outcome == AnswerLost ==> q.loses) && (step.Consume? ==> q.removes)
  }

  predicate Within(steps: seq<FinalStep>, q: Queue) {
    forall i :: 0 <= i < |steps| ==> StepWithin(steps[i], q)
  }

  /** A job that is never removed keeps its id taken. */
  lemma {:induction false} JobStaysQueued(s: MatchState, steps: seq<FinalStep>, q: Queue)
    requires Within(steps, q) && !q.removes
    ensures var c := Exec(Start(s), steps); |c.published| <= 1 && (c.published != [] ==> c.queued)
  {
    if steps != [] {
      JobStaysQueued(s, steps[..|steps| - 1], q);
      assert StepWithin(steps[|steps| - 1], q);
    }
  }

  lemma ExecAppend(c: Config, steps: seq<FinalStep>, step: FinalStep)
    ensures Exec(c, steps + [step]) == Do(Exec(c, steps), step)
  {
    assert (steps + [step])[..|steps|] == steps;
  }

  const LATE := TimeoutStep(1, 0)

  lemma SilenceEndsTheMatch(s: MatchState)
    requires Initial(s)
    ensures var over := After(s, LATE);
            && over.status == Over && After(over, LATE) == over
            && ReachesFinalizer(s, LATE) && ReachesFinalizer(over, LATE)
  {}

  lemma FirstAttempt(s: MatchState, over: MatchState)
    requires over == After(s, LATE) && ReachesFinalizer(s, LATE)
    ensures Do(Do(Do(Do(Start(s), Mutation(LATE)), Claim(0)), Publish(0, AnswerLost)), ReleaseGuard(0, true)) ==
            Config(over, false, true, [Finished], [over], 1)
  {
    assert Do(Start(s), Mutation(LATE)) == Config(over, false, false, [Pending(over)], [], 0);
    assert Do(Config(over, false, false, [Pending(over)], [], 0), Claim(0)) ==
           Config(over, true, false, [Claimed(over)], [], 0);
    assert Do(Config(over, true, false, [Claimed(over)], [], 0), Publish(0, AnswerLost)) ==
           Config(over, true, true, [Failing], [over], 1);
  }

  lemma SecondAttempt(over: MatchState)
    requires over == After(over, LATE) && ReachesFinalizer(over, LATE)
    ensures Do(Do(Do(Config(over, false, false, [Finished], [over], 1), Mutation(LATE)), Claim(1)), Publish(1, Acked)) ==
            Config(over, true, true, [Finished, Finished], [over, over], 1)
  {
    assert Do(Config(over, false, false, [Finished], [over], 1), Mutation(LATE)) ==
           Config(over, false, false, [Finished, Pending(over)], [over], 1);
    assert Do(Config(over, false, false, [Finished, Pending(over)], [over], 1), Claim(1)) ==
           Config(over, true, false, [Finished, Claimed(over)], [over], 1);
  }

  /**
   * A lost answer is enough for a second job: the guard is released, the first
   * job is completed and removed, and a retry claims the guard and adds another.
   */
  lemma LostAnswerPublishesTwice(s: MatchState) returns (steps: seq<FinalStep>)
    requires Initial(s)
    ensures |Exec(Start(s), steps).published| == 2 && Exec(Start(s), steps).answersLost == 1
    ensures Within(steps, Queue(true, true))
  {
    SilenceEndsTheMatch(s);
    var over := After(s, LATE);
    var c1 := Do(Start(s), Mutation(LATE));
    var c3 := Do(Do(c1, Claim(0)), Publish(0, AnswerLost));
    FirstAttempt(s, over);
    SecondAttempt(over);
    steps := [];
    ExecAppend(Start(s), steps, Mutation(LATE));
    steps := steps + [Mutation(LATE)];
    ExecAppend(Start(s), steps, Claim(0));
    steps := steps + [Claim(0)];
    ExecAppend(Start(s), steps, Publish(0, AnswerLost));
    steps := steps + [Publish(0, AnswerLost)];
    assert Exec(Start(s), steps) == c3;
    ExecAppend(Start(s), steps, ReleaseGuard(0, true));
    steps := steps + [ReleaseGuard(0, true)];
    ExecAppend(Start(s), steps, Consume);
    steps := steps + [Consume];
    assert Exec(Start(s), steps) == Config(over, false, false, [Finished], [over], 1);
    ExecAppend(Start(s), steps, Mutation(LATE));
    steps := steps + [Mutation(LATE)];
    ExecAppend(Start(s), steps, Claim(1));
    steps := steps + [Claim(1)];
    ExecAppend(Start(s), steps, Publish(1, Acked));
    steps := steps + [Publish(1, Acked)];
  }

  /**
   * At most one job is created in every run, exactly when the queue never loses
   * an answer or keeps completed jobs.
   */
  lemma AtMostOneExactly(s: MatchState, q: Queue)
    requires Initial(s)
    ensures (forall steps :: Within(steps, q) ==> |Exec(Start(s), steps).published| <= 1) <==> !(q.loses && q.removes)
  {
    if q.loses && q.removes {
      var steps := LostAnswerPublishesTwice(s);
      assert Within(steps, q);
    } else {
      forall steps | Within(steps, q)
        ensures |Exec(Start(s), steps).published| <= 1
      {
        if q.loses {
          JobStaysQueued(s, steps, q);
        } else {
          assert forall i :: 0 <= i < |steps| ==> StepWithin(steps[i], q);
          AtMostOnePublication(s, steps);
        }
      }
    }
  }
}

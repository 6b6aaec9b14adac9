/**
 * Concurrent generation jobs of one tournament: each counts the stored
 * matches, takes the lock, counts again, writes the bracket and releases.
 */
module GenerateRuns {
  import opened Wrappers

  /** Where a job stands. Its token is its own number. */
  datatype Phase = Counting | Acquiring | Recounting | Writing | Releasing | Ended

  datatype State = State(
    brackets: nat,  // brackets stored: no unique key stops a second one
    lock: Option<nat>,
    jobs: seq<Phase>)

  datatype Step =
    | Deliver  // a first delivery, or a retry
    | Count(job: nat)
    | Acquire(job: nat)
    | Recount(job: nat)
    | Write(job: nat, fails: bool)
    | Release(job: nat)
    | Crash(job: nat)
    | Expire

  const START := State(0, None, [])

  function Do(s: State, step: Step): State {
    match step
    case Deliver => s.(jobs := s.jobs + [Counting])
    case Count(i) => if At(s, i, Counting) then Move(s, i, if s.brackets > 0 then Ended else Acquiring) else s
    case Acquire(i) =>
      if !At(s, i, Acquiring) then s
      else if s.lock.Some? then Move(s, i, Ended)
      else Move(s, i, Recounting).(lock := Some(i))
    case Recount(i) => if At(s, i, Recounting) then Move(s, i, if s.brackets > 0 then Releasing else Writing) else s
    case Write(i, fails) =>
      if At(s, i, Writing) then Move(s, i, Releasing).(brackets := s.brackets + if fails then 0 else 1) else s
    case Release(i) =>
      if At(s, i, Releasing) then Move(s, i, Ended).(lock := if s.lock == Some(i) then None else s.lock) else s
    case Crash(i) => if i < |s.jobs| then Move(s, i, Ended) else s
    case Expire => s.(lock := None)
  }

  predicate At(s: State, i: nat, phase: Phase) {
    i < |s.jobs| && s.jobs[i] == phase
  }

  function Move(s: State, i: nat, phase: Phase): State
    requires i < |s.jobs|
  {
    s.(jobs := s.jobs[i := phase])
  }

  function Run(steps: seq<Step>): State {
    if steps == [] then START else Do(Run(steps[..|steps| - 1]), steps[|steps| - 1])
  }

  predicate Inside(phase: Phase) {
    phase in {Recounting, Writing, Releasing}
  }

  /** The lock runs out only when the job that held it has crashed. */
  predicate Timely(steps: seq<Step>) {
    steps == [] ||
    (var s := Run(steps[..|steps| - 1]);
     && Timely(steps[..|steps| - 1])
     && (steps[|steps| - 1].Expire? && s.lock.Some? && s.lock.value < |s.jobs| ==> !Inside(s.jobs[s.lock.value])))
  }

  ghost predicate Inv(s: State) {
    && (forall i :: 0 <= i < |s.jobs| && Inside(s.jobs[i]) ==> s.lock == Some(i))
    && (forall i :: 0 <= i < |s.jobs| && s.jobs[i] == Writing ==> s.brackets == 0)
    && s.brackets <= 1
  }

  lemma StepKeepsInv(s: State, step: Step)
    requires Inv(s)
    requires step.Expire? && s.lock.Some? && s.lock.value < |s.jobs| ==> !Inside(s.jobs[s.lock.value])
    ensures Inv(Do(s, step))
  {}

  /** While no lock runs out under a working job, a tournament gets one bracket at most. */
  lemma {:induction false} GeneratedAtMostOnce(steps: seq<Step>)
    requires Timely(steps)
    ensures Inv(Run(steps)) && Run(steps).brackets <= 1
  {
    if steps != [] {
      GeneratedAtMostOnce(steps[..|steps| - 1]);
      StepKeepsInv(Run(steps[..|steps| - 1]), steps[|steps| - 1]);
    }
  }

  /** Whatever expired before, a job that releases never frees another job's lock. */
  lemma ReleaseFreesOnlyItsOwn(s: State, i: nat)
    ensures Do(s, Release(i)).lock == s.lock || (s.lock == Some(i) && Do(s, Release(i)).lock == None)
    ensures Do(s, Release(i)).brackets == s.brackets
  {}

  lemma RunAppend(steps: seq<Step>, step: Step)
    ensures Run(steps + [step]) == Do(Run(steps), step)
  {
    assert (steps + [step])[..|steps|] == steps;
  }

  /** One job works up to its write; the lock runs out; the next job does the same. */
  lemma UpToWriting(steps: seq<Step>, i: nat) returns (more: seq<Step>)
    requires At(Run(steps), i, Counting) && Run(steps).brackets == 0 && Run(steps).lock.None?
    ensures Run(more) == Move(Run(steps), i, Writing)
  {
    RunAppend(steps, Count(i));
    more := steps + [Count(i)];
    RunAppend(more, Acquire(i));
    more := more + [Acquire(i)];
    RunAppend(more, Recount(i));
    more := more + [Recount(i)];
    RunAppend(more, Expire);
    more := more + [Expire];
  }

  lemma ExpiryGeneratesTwice() returns (steps: seq<Step>)
    ensures Run(steps).brackets == 2
  {
    RunAppend([], Deliver);
    RunAppend([] + [Deliver], Deliver);
    steps := [] + [Deliver] + [Deliver];
    assert Run(steps) == State(0, None, [Counting, Counting]);
    steps := UpToWriting(steps, 0);
    steps := UpToWriting(steps, 1);
    RunAppend(steps, Write(0, false));
    steps := steps + [Write(0, false)];
    RunAppend(steps, Write(1, false));
    steps := steps + [Write(1, false)];
  }

  /** Every run generates at most one bracket exactly when the lock outlives every job that works under it. */
  lemma GeneratedOnceExactly(mayExpire: bool)
    ensures (forall steps :: mayExpire || Timely(steps) ==> Run(steps).brackets <= 1) <==> !mayExpire
  {
    if mayExpire {
      var steps := ExpiryGeneratesTwice();
      assert Run(steps).brackets == 2;
    } else {
      forall steps | Timely(steps)
        ensures Run(steps).brackets <= 1
      {
        GeneratedAtMostOnce(steps);
      }
    }
  }
}

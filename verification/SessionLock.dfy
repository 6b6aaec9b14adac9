/**
 * The token lock around a stored state: any number of calls, each taking the
 * lock, loading, saving and releasing as separate steps in any interleaving.
 */
module SessionLock {
  import opened Wrappers
  import opened Redis

  const LOCK := "lock"

  /**
   * Where a call stands. Its token is its own number, as a fresh UUID would be;
   * `at` is how many saves had been made when it loaded.
   */
  datatype Phase<S> = Waiting | Locked | Loaded(seen: S, at: nat) | Leaving | Left(saved: bool)

  datatype Config<S> = Config(
    locks: map<string, nat>,
    stored: Option<S>,
    calls: seq<Phase<S>>,
    saves: seq<nat>)  // calls in the order of their saves

  datatype LockStep = Acquire(call: nat) | Load(call: nat) | Save(call: nat) | Leave(call: nat) | Expire

  /** A mutator either throws (None) or returns the state to save. */
  type Mutator<!S> = (nat, S) -> Option<S>

  function Start<S>(initial: Option<S>, calls: nat): Config<S> {
    Config(map[], initial, seq(calls, _ => Waiting), [])
  }

  function Do<S>(c: Config<S>, step: LockStep, mutate: Mutator<S>): Config<S> {
    match step
    case Expire => c.(locks := c.locks - {LOCK})
    case Acquire(i) =>
      if i < |c.calls| && c.calls[i].Waiting? then
        var (locks, taken) := SetNx(c.locks, LOCK, i);
        c.(locks := locks, calls := c.calls[i := if taken then Locked else Left(false)])
      else c
    case Load(i) =>
      if i < |c.calls| && c.calls[i].Locked? then
        c.(calls := c.calls[i := if c.stored.None? then Leaving else Loaded(c.stored.value, |c.saves|)])
      else c
    case Save(i) =>
      if i < |c.calls| && c.calls[i].Loaded? then
        match mutate(i, c.calls[i].seen)
        case None => c.(calls := c.calls[i := Leaving])
        case Some(next) => Config(c.locks, Some(next), c.calls[i := Leaving], c.saves + [i])
      else c
    case Leave(i) =>
      if i < |c.calls| && c.calls[i].Leaving? then
        c.(locks := Release(c.locks, LOCK, i).0, calls := c.calls[i := Left(i in c.saves)])
      else c
  }

  function Exec<S>(c: Config<S>, steps: seq<LockStep>, mutate: Mutator<S>): Config<S> {
    if steps == [] then c
    else Do(Exec(c, steps[..|steps| - 1], mutate), steps[|steps| - 1], mutate)
  }

  predicate Inside<S>(phase: Phase<S>) {
    phase.Locked? || phase.Loaded? || phase.Leaving?
  }

  predicate Occupied<S>(c: Config<S>) {
    exists i :: 0 <= i < |c.calls| && Inside(c.calls[i])
  }

  /** The step is a call's save, and its mutator does not throw. */
  predicate Saving<S>(c: Config<S>, step: LockStep, mutate: Mutator<S>) {
    && step.Save? && step.call < |c.calls| && c.calls[step.call].Loaded?
    && mutate(step.call, c.calls[step.call].seen).Some?
  }

  /** No save lands between another call's load and its save. */
  predicate Undisturbed<S>(c: Config<S>, steps: seq<LockStep>, mutate: Mutator<S>) {
    steps == [] ||
    (var before, last := steps[..|steps| - 1], steps[|steps| - 1];
     var d := Exec(c, before, mutate);
     && Undisturbed(c, before, mutate)
     && (Saving(d, last, mutate) ==> d.calls[last.call].at == |d.saves|))
  }

  /** A call saves only while the lock still holds its token. The holder may crash, and its lock run out. */
  predicate HeldAtSave<S>(c: Config<S>, steps: seq<LockStep>, mutate: Mutator<S>) {
    steps == [] ||
    (var before, last := steps[..|steps| - 1], steps[|steps| - 1];
     var d := Exec(c, before, mutate);
     && HeldAtSave(c, before, mutate)
     && (Saving(d, last, mutate) ==> Holds(d, last.call)))
  }

  predicate Holds<S>(c: Config<S>, i: nat) {
    LOCK in c.locks && c.locks[LOCK] == i
  }

  /** No lock runs out under a call that is still inside. */
  predicate Timely<S>(c: Config<S>, steps: seq<LockStep>, mutate: Mutator<S>) {
    steps == [] ||
    (var before := steps[..|steps| - 1];
     && Timely(c, before, mutate)
     && (steps[|steps| - 1].Expire? ==> !Occupied(Exec(c, before, mutate))))
  }

  /** Running the saving mutators one after another, in save order. */
  function Replay<S>(initial: Option<S>, saves: seq<nat>, mutate: Mutator<S>): Option<S> {
    if saves == [] then initial
    else
      match Replay(initial, saves[..|saves| - 1], mutate)
      case None => None
      case Some(s) => mutate(saves[|saves| - 1], s)
  }

  lemma SaveReplays<S>(initial: Option<S>, saves: seq<nat>, i: nat, mutate: Mutator<S>)
    requires Replay(initial, saves, mutate).Some?
    ensures Replay(initial, saves + [i], mutate) == mutate(i, Replay(initial, saves, mutate).value)
  {
    assert (saves + [i])[..|saves|] == saves;
  }

  // ----- what every run keeps, whatever expires

  /** Who has loaded and has not been overtaken by a save has loaded what is stored. */
  ghost predicate LoadsOk<S>(c: Config<S>) {
    forall i :: 0 <= i < |c.calls| && c.calls[i].Loaded? ==>
      c.calls[i].at <= |c.saves| && (c.calls[i].at == |c.saves| ==> c.stored == Some(c.calls[i].seen))
  }

  /** Each call saves at most once, and says so when it has left. */
  ghost predicate SavesOk<S>(c: Config<S>) {
    && (forall i :: i in c.saves ==> i < |c.calls| && (c.calls[i].Leaving? || c.calls[i].Left?))
    && (forall i :: 0 <= i < |c.calls| && c.calls[i].Left? ==> (c.calls[i].saved <==> i in c.saves))
    && (forall i, j :: 0 <= i < j < |c.saves| ==> c.saves[i] != c.saves[j])
  }

  lemma SaveIsRecorded<S>(c: Config<S>, i: nat, mutate: Mutator<S>)
    requires SavesOk(c)
    ensures SavesOk(Do(c, Save(i), mutate))
  {
    if Saving(c, Save(i), mutate) {
      assert i !in c.saves;
      assert forall j :: j in c.saves + [i] <==> j in c.saves || j == i;
    }
  }

  lemma StepKeepsRecords<S>(c: Config<S>, step: LockStep, mutate: Mutator<S>)
    requires LoadsOk(c) && SavesOk(c)
    ensures LoadsOk(Do(c, step, mutate)) && SavesOk(Do(c, step, mutate))
  {
    if step.Save? {
      SaveIsRecorded(c, step.call, mutate);
    }
  }

  lemma {:induction false} RecordsKept<S>(initial: Option<S>, calls: nat, steps: seq<LockStep>, mutate: Mutator<S>)
    ensures var c := Exec(Start(initial, calls), steps, mutate); LoadsOk(c) && SavesOk(c)
  {
    if steps != [] {
      RecordsKept(initial, calls, steps[..|steps| - 1], mutate);
      StepKeepsRecords(Exec(Start(initial, calls), steps[..|steps| - 1], mutate), steps[|steps| - 1], mutate);
    }
  }

  // ----- serial execution

  lemma {:induction false} UndisturbedReplays<S>(initial: Option<S>, calls: nat, steps: seq<LockStep>, mutate: Mutator<S>)
    requires Undisturbed(Start(initial, calls), steps, mutate)
    ensures var c := Exec(Start(initial, calls), steps, mutate); c.stored == Replay(initial, c.saves, mutate)
  {
    if steps != [] {
      var before, last := steps[..|steps| - 1], steps[|steps| - 1];
      UndisturbedReplays(initial, calls, before, mutate);
      RecordsKept(initial, calls, before, mutate);
      var d := Exec(Start(initial, calls), before, mutate);
      if Saving(d, last, mutate) {
        SaveReplays(initial, d.saves, last.call, mutate);
      }
    }
  }

  /**
   * Whatever locks run out and whoever crashes: when no save lands between
   * another call's load and its save, the stored state is the one that the
   * saving mutators produce one after another in save order. In every such run
   * no mutator is counted twice, and a call reports success exactly when it saved.
   */
  lemma InterleavingsAreSerial<S>(initial: Option<S>, calls: nat, steps: seq<LockStep>, mutate: Mutator<S>)
    requires Undisturbed(Start(initial, calls), steps, mutate)
    ensures var c := Exec(Start(initial, calls), steps, mutate);
            && c.stored == Replay(initial, c.saves, mutate)
            && (forall i, j :: 0 <= i < j < |c.saves| ==> c.saves[i] != c.saves[j])
            && (forall i :: 0 <= i < |c.calls| && c.calls[i].Left? ==> (c.calls[i].saved <==> i in c.saves))
  {
    UndisturbedReplays(initial, calls, steps, mutate);
    RecordsKept(initial, calls, steps, mutate);
  }

  /** Whoever holds the lock has not been overtaken. */
  ghost predicate HolderFresh<S>(c: Config<S>) {
    forall i :: 0 <= i < |c.calls| && c.calls[i].Loaded? && Holds(c, i) ==> c.calls[i].at == |c.saves|
  }

  lemma HolderStaysFresh<S>(c: Config<S>, step: LockStep, mutate: Mutator<S>)
    requires HolderFresh(c) && (Saving(c, step, mutate) ==> Holds(c, step.call))
    ensures HolderFresh(Do(c, step, mutate))
  {}

  /** Saving under one's own lock is enough: crashed holders and their expiring locks do no harm. */
  lemma {:induction false} HoldersAreUndisturbed<S>(initial: Option<S>, calls: nat, steps: seq<LockStep>,
                                                    mutate: Mutator<S>)
    requires HeldAtSave(Start(initial, calls), steps, mutate)
    ensures Undisturbed(Start(initial, calls), steps, mutate)
    ensures HolderFresh(Exec(Start(initial, calls), steps, mutate))
  {
    if steps != [] {
      var before, last := steps[..|steps| - 1], steps[|steps| - 1];
      HoldersAreUndisturbed(initial, calls, before, mutate);
      HolderStaysFresh(Exec(Start(initial, calls), before, mutate), last, mutate);
    }
  }

  /** The lock is held by the one call inside, with that call's own token. */
  ghost predicate LockOk<S>(c: Config<S>) {
    && (forall i :: 0 <= i < |c.calls| && Inside(c.calls[i]) ==> Holds(c, i))
    && (LOCK in c.locks ==> c.locks[LOCK] < |c.calls| && Inside(c.calls[c.locks[LOCK]]))
  }

  lemma StepKeepsLock<S>(c: Config<S>, step: LockStep, mutate: Mutator<S>)
    requires LockOk(c) && (step.Expire? ==> !Occupied(c))
    ensures LockOk(Do(c, step, mutate))
  {
    if step.Leave? && step.call < |c.calls| && c.calls[step.call].Leaving? {
      assert Holds(c, step.call);
    }
  }

  /** While no lock runs out under a call inside, one call is inside at a time, and it saves under its own lock. */
  lemma {:induction false} OneInsideAtATime<S>(initial: Option<S>, calls: nat, steps: seq<LockStep>, mutate: Mutator<S>)
    requires Timely(Start(initial, calls), steps, mutate)
    ensures HeldAtSave(Start(initial, calls), steps, mutate)
    ensures var c := Exec(Start(initial, calls), steps, mutate);
            LockOk(c) && forall i, j | 0 <= i < j < |c.calls| :: !(Inside(c.calls[i]) && Inside(c.calls[j]))
  {
    if steps != [] {
      var before, last := steps[..|steps| - 1], steps[|steps| - 1];
      OneInsideAtATime(initial, calls, before, mutate);
      StepKeepsLock(Exec(Start(initial, calls), before, mutate), last, mutate);
    }
  }

  // ----- exactly when it is serial

  /** A mutator that leaves a trace of every save. */
  function Record(call: nat, log: seq<nat>): Option<seq<nat>> {
    Some(log + [call])
  }

  lemma {:induction false} ReplayRecords(log: seq<nat>, saves: seq<nat>)
    ensures Replay(Some(log), saves, Record) == Some(log + saves)
  {
    if saves == [] {
      assert log + saves == log;
    } else {
      ReplayRecords(log, saves[..|saves| - 1]);
      assert log + saves[..|saves| - 1] + [saves[|saves| - 1]] == log + saves;
    }
  }

  /** No log is longer than the saves before it allow; after a save that was overtaken, none is as long. */
  ghost predicate LogsBounded(c: Config<seq<nat>>, n: nat, lost: bool) {
    && c.stored.Some? && |c.stored.value| + (if lost then 1 else 0) <= n + |c.saves|
    && forall i :: 0 <= i < |c.calls| && c.calls[i].Loaded? ==> |c.calls[i].seen| <= n + c.calls[i].at
  }

  lemma StepKeepsBounds(c: Config<seq<nat>>, step: LockStep, n: nat, lost: bool)
    requires LogsBounded(c, n, lost) && LoadsOk(c)
    ensures LogsBounded(Do(c, step, Record), n,
                        lost || (Saving(c, step, Record) && c.calls[step.call].at != |c.saves|))
  {}

  lemma {:induction false} LogsStayBounded(log: seq<nat>, calls: nat, steps: seq<LockStep>)
    ensures LogsBounded(Exec(Start(Some(log), calls), steps, Record), |log|,
                        !Undisturbed(Start(Some(log), calls), steps, Record))
  {
    if steps != [] {
      var before, last := steps[..|steps| - 1], steps[|steps| - 1];
      var d := Exec(Start(Some(log), calls), before, Record);
      LogsStayBounded(log, calls, before);
      RecordsKept(Some(log), calls, before, Record);
      StepKeepsBounds(d, last, |log|, !Undisturbed(Start(Some(log), calls), before, Record));
    }
  }

  /**
   * For a mutator that leaves a trace of every save, the run is serial exactly
   * when no save lands between another call's load and its save: every save
   * that is overtaken loses an update.
   */
  lemma SerialExactly(log: seq<nat>, calls: nat, steps: seq<LockStep>)
    ensures var c := Exec(Start(Some(log), calls), steps, Record);
            c.stored == Replay(Some(log), c.saves, Record) <==> Undisturbed(Start(Some(log), calls), steps, Record)
  {
    var c := Exec(Start(Some(log), calls), steps, Record);
    ReplayRecords(log, c.saves);
    LogsStayBounded(log, calls, steps);
    if Undisturbed(Start(Some(log), calls), steps, Record) {
      UndisturbedReplays(Some(log), calls, steps, Record);
    }
  }

  /** Whatever expired before, leaving with one's own token never frees another call's lock. */
  lemma LeavingFreesOnlyItsOwn<S>(c: Config<S>, i: nat, mutate: Mutator<S>)
    requires LOCK in c.locks && c.locks[LOCK] != i
    ensures LOCK in Do(c, Leave(i), mutate).locks
    ensures Do(c, Leave(i), mutate).locks[LOCK] == c.locks[LOCK]
  {}

  lemma ExecAppend<S>(c: Config<S>, steps: seq<LockStep>, step: LockStep, mutate: Mutator<S>)
    ensures Exec(c, steps + [step], mutate) == Do(Exec(c, steps, mutate), step, mutate)
  {
    assert (steps + [step])[..|steps|] == steps;
  }

  function Increment(call: nat, n: int): Option<int> {
    Some(n + 1)
  }

  lemma ExecFive<S>(c: Config<S>, s: seq<LockStep>, mutate: Mutator<S>)
    requires |s| == 5
    ensures Exec(c, s, mutate) ==
            Do(Do(Do(Do(Do(c, s[0], mutate), s[1], mutate), s[2], mutate), s[3], mutate), s[4], mutate)
  {
    assert s[..4][..3] == s[..3] && s[..3][..2] == s[..2] && s[..2][..1] == s[..1] && s[..1][..0] == [];
    assert Exec(c, s[..1], mutate) == Do(c, s[0], mutate);
    assert Exec(c, s[..3], mutate) == Do(Exec(c, s[..2], mutate), s[2], mutate);
  }

  /** The lock runs out under call 0, call 1 gets in and loads the same state. */
  lemma BothLoad(c: Config<int>) returns (steps: seq<LockStep>)
    requires c == Start(Some(0), 2)
    ensures Exec(c, steps, Increment) == Config(map[LOCK := 1], Some(0), [Loaded(0, 0), Loaded(0, 0)], [])
  {
    steps := [Acquire(0), Load(0), Expire, Acquire(1), Load(1)];
    ExecFive(c, steps, Increment);
    assert Do(c, Acquire(0), Increment) == Config(map[LOCK := 0], Some(0), [Locked, Waiting], []);
    var d := Do(Do(Do(c, Acquire(0), Increment), Load(0), Increment), Expire, Increment);
    assert d == Config(map[], Some(0), [Loaded(0, 0), Waiting], []);
    assert Do(d, Acquire(1), Increment) == Config(map[LOCK := 1], Some(0), [Loaded(0, 0), Locked], []);
  }

  lemma BothSave(c: Config<int>, steps: seq<LockStep>) returns (more: seq<LockStep>)
    requires Exec(c, steps, Increment) == Config(map[LOCK := 1], Some(0), [Loaded(0, 0), Loaded(0, 0)], [])
    ensures Exec(c, more, Increment) == Config(map[LOCK := 1], Some(1), [Leaving, Leaving], [1, 0])
  {
    ExecAppend(c, steps, Save(1), Increment);
    var c6 := Config(map[LOCK := 1], Some(1), [Loaded(0, 0), Leaving], [1]);
    assert Exec(c, steps + [Save(1)], Increment) == c6;
    ExecAppend(c, steps + [Save(1)], Save(0), Increment);
    more := steps + [Save(1)] + [Save(0)];
    assert Do(c6, Save(0), Increment) == Config(map[LOCK := 1], Some(1), [Leaving, Leaving], [1, 0]);
  }

  /** A run in which a lock runs out under its holder, both calls report success, and one update is lost. */
  lemma UntimelyExpiryLosesAnUpdate() returns (steps: seq<LockStep>)
    ensures var c := Exec(Start(Some(0), 2), steps, Increment);
            && c.saves == [1, 0] && c.stored == Some(1)
            && Replay(Some(0), c.saves, Increment) == Some(2)
  {
    var c := Start<int>(Some(0), 2);
    var before := BothLoad(c);
    steps := BothSave(c, before);
    SaveReplays(Some(0), [], 1, Increment);
    SaveReplays(Some(0), [1], 0, Increment);
    assert [] + [1] == [1] && [1] + [0] == [1, 0];
  }
}

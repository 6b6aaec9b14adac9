/** The match session: the mutators of a match run under the token lock. */
module MatchSession {
  import opened Wrappers
  import opened MatchState
  import opened MatchRuns
  import Redis
  import SessionLock

  /** The mutator of call i, when the calls were made with these arguments. */
  function MutatorOf(calls: seq<Step>): SessionLock.Mutator<MatchState> {
    (i: nat, s: MatchState) =>
      if i >= |calls| then None
      else match Mutate(s, calls[i])
           case Success(next) => Some(next)
           case Failure(_) => None
  }

  function StepsOf(calls: seq<Step>, saves: seq<nat>): (r: seq<Step>)
    requires forall j :: 0 <= j < |saves| ==> saves[j] < |calls|
    ensures |r| == |saves|
  {
    seq(|saves|, j requires 0 <= j < |saves| => calls[saves[j]])
  }

  lemma {:induction false} ReplayIsRun(s: MatchState, calls: seq<Step>, saves: seq<nat>)
    requires forall j :: 0 <= j < |saves| ==> saves[j] < |calls|
    requires SessionLock.Replay(Some(s), saves, MutatorOf(calls)).Some?
    ensures SessionLock.Replay(Some(s), saves, MutatorOf(calls)) == Some(Run(s, StepsOf(calls, saves)))
  {
    if saves != [] {
      var before := saves[..|saves| - 1];
      ReplayIsRun(s, calls, before);
      assert StepsOf(calls, saves)[..|saves| - 1] == StepsOf(calls, before);
    }
  }

  /**
   * Whatever the interleaving of the calls on one match and whichever locks run
   * out, as long as no save lands between another call's load and its save: the
   * stored state is the one that the saved calls produce one after another, and
   * is valid.
   */
  lemma SessionIsSerial(s: MatchState, calls: seq<Step>, steps: seq<SessionLock.LockStep>)
    requires Initial(s)
    requires SessionLock.Undisturbed(SessionLock.Start(Some(s), |calls|), steps, MutatorOf(calls))
    ensures var c := SessionLock.Exec(SessionLock.Start(Some(s), |calls|), steps, MutatorOf(calls));
            && (forall j :: 0 <= j < |c.saves| ==> c.saves[j] < |calls|)
            && c.stored == Some(Run(s, StepsOf(calls, c.saves)))
            && Valid(c.stored.value)
  {
    var c := SessionLock.Exec(SessionLock.Start(Some(s), |calls|), steps, MutatorOf(calls));
    SessionLock.InterleavingsAreSerial(Some(s), |calls|, steps, MutatorOf(calls));
    SessionLock.RecordsKept(Some(s), |calls|, steps, MutatorOf(calls));
    StoredStays(Some(s), |calls|, steps, MutatorOf(calls));
    CallsStay(Some(s), |calls|, steps, MutatorOf(calls));
    ReplayIsRun(s, calls, c.saves);
    RunsStayValid(s, StepsOf(calls, c.saves));
  }

  lemma {:induction false} StoredStays<S>(initial: Option<S>, calls: nat, steps: seq<SessionLock.LockStep>,
                                         mutate: SessionLock.Mutator<S>)
    requires initial.Some?
    ensures SessionLock.Exec(SessionLock.Start(initial, calls), steps, mutate).stored.Some?
  {
    if steps != [] {
      StoredStays(initial, calls, steps[..|steps| - 1], mutate);
    }
  }

  lemma {:induction false} CallsStay<S>(initial: Option<S>, calls: nat, steps: seq<SessionLock.LockStep>,
                                       mutate: SessionLock.Mutator<S>)
    ensures |SessionLock.Exec(SessionLock.Start(initial, calls), steps, mutate).calls| == calls
  {
    if steps != [] {
      CallsStay(initial, calls, steps[..|steps| - 1], mutate);
    }
  }

  datatype MutateError = Locked | NotFound | Refused(error: MatchError)

  /** The stored state of one match and its lock. */
  class MatchSessionService {
    var locks: map<string, string>
    var stored: Option<MatchState>

    constructor (a: MatchPlayer, b: MatchPlayer, matchId: string, now: Time, tournamentMatchId: Option<string>)
      ensures locks == map[] && stored == Some(BuildInitialState(a, b, matchId, now, tournamentMatchId))
    {
      locks, stored := map[], Some(BuildInitialState(a, b, matchId, now, tournamentMatchId));
    }

    /**
     * One undisturbed call: refused while the lock is held, and otherwise the
     * mutator's result is stored; a mutator that throws stores nothing. The
     * lock is free again afterwards, whatever happened.
     */
    method MutateState(token: string, step: Step) returns (r: Result<MatchState, MutateError>)
      requires stored.Some? ==> Valid(stored.value)
      modifies this
      ensures locks == old(locks) && (stored.Some? ==> Valid(stored.value))
      ensures r == Failure(Locked) <==> SessionLock.LOCK in locks
      ensures r == Failure(NotFound) <==> SessionLock.LOCK !in locks && old(stored).None?
      ensures r.Success? ==> stored == Some(r.value) && old(stored).Some? && Mutate(old(stored).value, step) == Success(r.value)
      ensures r.Failure? ==> stored == old(stored)
      ensures SessionLock.LOCK !in locks && old(stored).Some? && Mutate(old(stored).value, step).Failure? ==>
                r == Failure(Refused(Mutate(old(stored).value, step).error))
    {
      var (taken, acquired) := Redis.SetNx(locks, SessionLock.LOCK, token);
      if !acquired {
        return Failure(Locked);
      }
      locks := taken;
      if stored.None? {
        r := Failure(NotFound);
      } else {
        StepKeepsValid(stored.value, step);
        match Mutate(stored.value, step) {
          case Success(next) =>
            stored := Some(next);
            r := Success(next);
          case Failure(e) =>
            r := Failure(Refused(e));
        }
      }
      var (freed, _) := Redis.Release(locks, SessionLock.LOCK, token);
      locks := freed;
    }
  }
}

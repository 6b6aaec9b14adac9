/**
 * Who waits and who plays: the Redis keys shared by the queue, the pairing
 * worker and directed matches, with each script and each call as one step.
 */
module Presence {
  import opened Wrappers

  type UserId = string
  type GameId = nat       // UUIDs, drawn in order
  type BracketId = string // a tournament match

  datatype Member = Member(userId: UserId, rating: int, displayName: string, queuedAt: int)

  /** A match; `started` says that its state has been saved. */
  datatype Session = Session(playerA: UserId, playerB: UserId, bracketMatch: Option<BracketId>, started: bool)

  datatype Store = Store(
    queue: map<UserId, int>,
    meta: map<UserId, Member>,
    byUser: map<UserId, GameId>,
    sessions: map<GameId, Session>,  // matches claimed or being played
    bracketMatches: map<BracketId, GameId>,
    pairLocks: set<set<UserId>>,     // keyed by the unordered pair
    nextId: GameId)

  const EMPTY := Store(map[], map[], map[], map[], map[], {}, 0)

  // ----- the queue

  datatype JoinResult = Joined | AlreadyInQueue | AlreadyInMatch | RateLimited

  function Enqueue(s: Store, m: Member): Store {
    s.(queue := s.queue[m.userId := m.rating], meta := s.meta[m.userId := m])
  }

  /** joinQueue as one step; `allowed` is the verdict of the rate limiter. */
  function JoinQueue(s: Store, m: Member, allowed: bool): (Store, JoinResult) {
    if m.userId in s.byUser then (s, AlreadyInMatch)
    else if m.userId in s.queue then (s, AlreadyInQueue)
    else if !allowed then (s, RateLimited)
    else (Enqueue(s, m), Joined)
  }

  function LeaveQueue(s: Store, u: UserId): (Store, bool) {
    (s.(queue := s.queue - {u}, meta := s.meta - {u}), u in s.queue)
  }

  // ----- the scripts

  function TakePairLock(s: Store, a: UserId, b: UserId): (Store, bool) {
    if {a, b} in s.pairLocks then (s, false) else (s.(pairLocks := s.pairLocks + {{a, b}}), true)
  }

  function DropPairLock(s: Store, a: UserId, b: UserId): Store {
    s.(pairLocks := s.pairLocks - {{a, b}})
  }

  /** Both users leave the queue and are mapped to the next match id. */
  function Seat(s: Store, a: UserId, b: UserId, session: Session): Store {
    s.(queue := s.queue - {a, b}, meta := s.meta - {a, b},
       byUser := s.byUser[a := s.nextId][b := s.nextId],
       sessions := s.sessions[s.nextId := session],
       nextId := s.nextId + 1)
  }

  /** PAIR_PLAYERS_SCRIPT: it checks the queue, and never looks at the user mappings. */
  function PairScript(s: Store, a: UserId, b: UserId): (Store, nat) {
    if {a, b} !in s.pairLocks then (s, 0)
    else if a !in s.queue || b !in s.queue then (DropPairLock(s, a, b), 0)
    else (DropPairLock(Seat(s, a, b, Session(a, b, None, true)), a, b), 1)
  }

  /** CLAIM_DIRECTED_PLAYERS_SCRIPT. */
  function ClaimScript(s: Store, a: UserId, b: UserId, bracketMatch: BracketId): (Store, nat) {
    if {a, b} !in s.pairLocks then (s, 0)
    else if bracketMatch in s.bracketMatches then (DropPairLock(s, a, b), 2)
    else if a in s.byUser || b in s.byUser then (DropPairLock(s, a, b), 0)
    else
      var seated := Seat(s, a, b, Session(a, b, Some(bracketMatch), false));
      (DropPairLock(seated.(bracketMatches := s.bracketMatches[bracketMatch := s.nextId]), a, b), 1)
  }

  datatype StartResult = StartedAs(id: GameId) | TournamentMatchAlreadyStarted

  function ResolveExisting(s: Store, bracketMatch: BracketId, a: UserId, b: UserId): StartResult {
    if bracketMatch !in s.bracketMatches then TournamentMatchAlreadyStarted
    else
      var existing := s.bracketMatches[bracketMatch];
      if a in s.byUser && b in s.byUser && s.byUser[a] == existing && s.byUser[b] == existing
      then StartedAs(existing) else TournamentMatchAlreadyStarted
  }

  // ----- what follows a claim, and the end of a match

  /** The claimed match is created: its state is saved and the mappings are written again. */
  function CreateSession(s: Store, id: GameId): Store
    requires id in s.sessions
  {
    var it := s.sessions[id];
    s.(byUser := s.byUser[it.playerA := id][it.playerB := id], sessions := s.sessions[id := it.(started := true)])
  }

  function DropMappings(s: Store, a: UserId, b: UserId): Store {
    s.(byUser := s.byUser - {a, b})
  }

  /** Creating failed: the keys of the claim are deleted. A state that was saved before the failure stays. */
  function ReleaseClaims(s: Store, id: GameId): Store
    requires id in s.sessions
  {
    var it := s.sessions[id];
    var dropped := DropMappings(s, it.playerA, it.playerB).(
                     sessions := if it.started then s.sessions else s.sessions - {id});
    if it.bracketMatch.Some? then dropped.(bracketMatches := s.bracketMatches - {it.bracketMatch.value}) else dropped
  }

  /** A finished match gives its players back. */
  function Cleanup(s: Store, id: GameId): Store
    requires id in s.sessions
  {
    DropMappings(s, s.sessions[id].playerA, s.sessions[id].playerB).(sessions := s.sessions - {id})
  }

  datatype Step =
    | Join(member: Member, allowed: bool)
    | Leave(user: UserId)
    | LockPair(a: UserId, b: UserId)
    | LockExpires(a: UserId, b: UserId)
    | Pair(a: UserId, b: UserId)
    | Claim(a: UserId, b: UserId, bracketMatch: BracketId)
    | Create(id: GameId)
    | Release(id: GameId)
    | Finish(id: GameId)

  function Do(s: Store, step: Step): Store {
    match step
    case Join(m, allowed) => JoinQueue(s, m, allowed).0
    case Leave(u) => LeaveQueue(s, u).0
    case LockPair(a, b) => TakePairLock(s, a, b).0
    case LockExpires(a, b) => DropPairLock(s, a, b)
    case Pair(a, b) => if a == b then s else PairScript(s, a, b).0
    case Claim(a, b, t) => if a == b then s else ClaimScript(s, a, b, t).0
    case Create(id) => if id in s.sessions then CreateSession(s, id) else s
    case Release(id) => if id in s.sessions && !s.sessions[id].started then ReleaseClaims(s, id) else s
    case Finish(id) => if id in s.sessions && s.sessions[id].started then Cleanup(s, id) else s
  }

  function Run(s: Store, steps: seq<Step>): Store {
    if steps == [] then s else Do(Run(s, steps[..|steps| - 1]), steps[|steps| - 1])
  }

  // ----- the invariant

  predicate Plays(it: Session, u: UserId) {
    u == it.playerA || u == it.playerB
  }

  /** Queue and details name the same users, and none of them is in a match. */
  ghost predicate QueueOk(s: Store) {
    && s.queue.Keys == s.meta.Keys
    && (forall u :: u in s.meta ==> s.meta[u].userId == u && u !in s.byUser)
  }

  predicate MatchOk(s: Store, id: GameId)
    requires id in s.sessions
  {
    var it := s.sessions[id];
    && id < s.nextId
    && it.playerA != it.playerB
    && it.playerA in s.byUser && s.byUser[it.playerA] == id
    && it.playerB in s.byUser && s.byUser[it.playerB] == id
    && (it.bracketMatch.Some? ==>
          it.bracketMatch.value in s.bracketMatches && s.bracketMatches[it.bracketMatch.value] == id)
  }

  predicate MappingOk(s: Store, u: UserId)
    requires u in s.byUser
  {
    s.byUser[u] in s.sessions && Plays(s.sessions[s.byUser[u]], u)
  }

  ghost predicate Inv(s: Store) {
    && QueueOk(s)
    && (forall id :: id in s.sessions ==> MatchOk(s, id))
    && (forall u :: u in s.byUser ==> MappingOk(s, u))
  }

  /** Seating two users who play nowhere, under a free tournament match or none. */
  lemma SeatKeepsInv(s: Store, after: Store, a: UserId, b: UserId, it: Session)
    requires Inv(s) && a != b && a !in s.byUser && b !in s.byUser
    requires it.playerA == a && it.playerB == b
    requires it.bracketMatch.Some? ==> it.bracketMatch.value !in s.bracketMatches
    requires after == Seat(s, a, b, it).(
                        pairLocks := after.pairLocks,
                        bracketMatches := if it.bracketMatch.None? then s.bracketMatches
                                          else s.bracketMatches[it.bracketMatch.value := s.nextId])
    ensures Inv(after)
  {
    assert forall id :: id in s.sessions ==> MatchOk(s, id);
    forall id | id in after.sessions
      ensures MatchOk(after, id)
    {
      if id != s.nextId {
        assert MatchOk(s, id);
      }
    }
    forall u | u in after.byUser
      ensures MappingOk(after, u)
    {
      if u != a && u != b {
        assert MappingOk(s, u);
      }
    }
  }

  /** Removing a match together with its mappings, and its own tournament entry or none. */
  lemma EndKeepsInv(s: Store, after: Store, id: GameId)
    requires Inv(s) && id in s.sessions
    requires after == Cleanup(s, id) || (after == ReleaseClaims(s, id) && !s.sessions[id].started)
    ensures Inv(after)
  {
    var it := s.sessions[id];
    assert MatchOk(s, id);
    forall other | other in after.sessions
      ensures MatchOk(after, other)
    {
      assert MatchOk(s, other);
    }
    forall u | u in after.byUser
      ensures MappingOk(after, u)
    {
      assert MappingOk(s, u);
    }
  }

  lemma CreateChangesNoMapping(s: Store, id: GameId)
    requires Inv(s) && id in s.sessions
    ensures CreateSession(s, id) == s.(sessions := s.sessions[id := s.sessions[id].(started := true)])
    ensures Inv(CreateSession(s, id))
  {
    var after := CreateSession(s, id);
    assert MatchOk(s, id);
    forall other | other in after.sessions
      ensures MatchOk(after, other)
    {
      assert MatchOk(s, other);
    }
    forall u | u in after.byUser
      ensures MappingOk(after, u)
    {
      assert MappingOk(s, u);
    }
  }

  /** A step that leaves mappings and matches alone and keeps the queue in order. */
  lemma QueueStepKeepsInv(s: Store, after: Store)
    requires Inv(s) && QueueOk(after)
    requires after == s.(queue := after.queue, meta := after.meta, pairLocks := after.pairLocks)
    ensures Inv(after)
  {
    assert forall id :: id in s.sessions ==> MatchOk(s, id) && MatchOk(after, id);
    assert forall u :: u in s.byUser ==> MappingOk(s, u) && MappingOk(after, u);
  }

  lemma PairKeepsInv(s: Store, a: UserId, b: UserId)
    requires Inv(s) && a != b
    ensures Inv(PairScript(s, a, b).0)
  {
    var after := PairScript(s, a, b).0;
    if {a, b} in s.pairLocks && a in s.queue && b in s.queue {
      assert a in s.meta && b in s.meta;
      SeatKeepsInv(s, after, a, b, Session(a, b, None, true));
    } else {
      QueueStepKeepsInv(s, after);
    }
  }

  lemma ClaimKeepsInv(s: Store, a: UserId, b: UserId, t: BracketId)
    requires Inv(s) && a != b
    ensures Inv(ClaimScript(s, a, b, t).0)
  {
    var after := ClaimScript(s, a, b, t).0;
    if {a, b} in s.pairLocks && a !in s.byUser && b !in s.byUser && t !in s.bracketMatches {
      SeatKeepsInv(s, after, a, b, Session(a, b, Some(t), false));
    } else {
      QueueStepKeepsInv(s, after);
    }
  }

  lemma StepKeepsInv(s: Store, step: Step)
    requires Inv(s)
    ensures Inv(Do(s, step))
  {
    match step
    case Pair(a, b) => if a != b { PairKeepsInv(s, a, b); }
    case Claim(a, b, t) => if a != b { ClaimKeepsInv(s, a, b, t); }
    case Create(id) => if id in s.sessions { CreateChangesNoMapping(s, id); }
    case Release(id) => if id in s.sessions && !s.sessions[id].started { EndKeepsInv(s, ReleaseClaims(s, id), id); }
    case Finish(id) => if id in s.sessions { EndKeepsInv(s, Cleanup(s, id), id); }
    case Join(m, allowed) => QueueStepKeepsInv(s, JoinQueue(s, m, allowed).0);
    case Leave(u) => QueueStepKeepsInv(s, LeaveQueue(s, u).0);
    case LockPair(a, b) => QueueStepKeepsInv(s, TakePairLock(s, a, b).0);
    case LockExpires(a, b) => QueueStepKeepsInv(s, DropPairLock(s, a, b));
  }

  lemma {:induction false} RunsKeepInv(steps: seq<Step>)
    ensures Inv(Run(EMPTY, steps))
  {
    if steps != [] {
      RunsKeepInv(steps[..|steps| - 1]);
      StepKeepsInv(Run(EMPTY, steps[..|steps| - 1]), steps[|steps| - 1]);
    }
  }

  /**
   * From an empty store and whatever the steps: nobody is both queued and in a
   * match, every live match is the match of exactly its two players, the queue
   * and its details name the same users.
   */
  lemma QueueAndMatchesStayApart(steps: seq<Step>)
    ensures var s := Run(EMPTY, steps);
            && (forall u :: !(u in s.queue && u in s.byUser))
            && s.queue.Keys == s.meta.Keys
            && (forall id, u :: id in s.sessions ==> (u in s.byUser && s.byUser[u] == id <==> Plays(s.sessions[id], u)))
  {
    RunsKeepInv(steps);
    var s := Run(EMPTY, steps);
    assert forall id :: id in s.sessions ==> MatchOk(s, id);
    assert forall u :: u in s.byUser ==> MappingOk(s, u);
  }

  /** A retry of a tournament match that is being played answers with the same match id and starts nothing. */
  lemma RetryFindsTheSameMatch(s: Store, id: GameId, t: BracketId)
    requires Inv(s) && id in s.sessions && s.sessions[id].bracketMatch == Some(t)
    ensures var it := s.sessions[id];
            var (locked, taken) := TakePairLock(s, it.playerA, it.playerB);
            && (taken ==> ClaimScript(locked, it.playerA, it.playerB, t) == (s, 2))
            && ResolveExisting(s, t, it.playerA, it.playerB) == StartedAs(id)
            && (forall a, b :: ClaimScript(s, a, b, t).1 != 1)
  {
    assert MatchOk(s, id);
  }

  /** Joining succeeds exactly for an allowed user who neither waits nor plays, and leaving undoes it. */
  lemma LeaveUndoesJoin(s: Store, m: Member, allowed: bool)
    requires Inv(s)
    ensures var (joined, result) := JoinQueue(s, m, allowed);
            && (result == Joined <==> m.userId !in s.byUser && m.userId !in s.queue && allowed)
            && (if result == Joined
                then && m.userId in joined.queue && joined.queue[m.userId] == m.rating
                     && m.userId in joined.meta && joined.meta[m.userId] == m
                     && LeaveQueue(joined, m.userId) == (s, true)
                else joined == s)
  {
    var (joined, result) := JoinQueue(s, m, allowed);
    if result == Joined {
      assert m.userId !in s.meta;
      assert joined.queue - {m.userId} == s.queue && joined.meta - {m.userId} == s.meta;
    }
  }

  /** Releasing a claim gives everything back but the places in the queue. */
  lemma ReleaseUndoesClaim(s: Store, a: UserId, b: UserId, t: BracketId)
    requires Inv(s) && a != b && ClaimScript(s, a, b, t).1 == 1
    ensures var claimed := ClaimScript(s, a, b, t).0;
            && s.nextId in claimed.sessions && a in claimed.byUser && b in claimed.byUser
            && ReleaseClaims(claimed, s.nextId) ==
               s.(queue := s.queue - {a, b}, meta := s.meta - {a, b}, pairLocks := s.pairLocks - {{a, b}},
                  nextId := s.nextId + 1)
  {
    assert s.nextId in s.sessions ==> MatchOk(s, s.nextId);
    TakeBackTwo(s.byUser, a, b, s.nextId);
    TakeBack(s.sessions, s.nextId, Session(a, b, Some(t), false));
    TakeBack(s.bracketMatches, t, s.nextId);
  }

  lemma TakeBack<K, V>(m: map<K, V>, k: K, v: V)
    requires k !in m
    ensures m[k := v] - {k} == m
  {}

  lemma TakeBackTwo<K, V>(m: map<K, V>, a: K, b: K, v: V)
    requires a !in m && b !in m
    ensures m[a := v][b := v] - {a, b} == m
  {}

  /**
   * Nobody is held for good: leaving ends the waiting, a lock that expires is
   * free, a finished match frees its two players, and so does a released claim,
   * which frees its tournament match as well. A finished tournament match keeps
   * its key, so that no retry starts it again.
   */
  lemma EverythingEnds(s: Store, u: UserId, a: UserId, b: UserId, id: GameId)
    requires Inv(s) && id in s.sessions
    ensures var left := Do(s, Leave(u));
            && u !in left.queue && u !in left.meta && left.byUser == s.byUser
            && (forall v :: v != u && v in s.queue ==> v in left.queue && v in left.meta && left.meta[v] == s.meta[v])
    ensures Do(s, LockExpires(a, b)).pairLocks == s.pairLocks - {{a, b}}
    ensures var it := s.sessions[id];
            var over := Do(s, if it.started then Finish(id) else Release(id));
            && id !in over.sessions && it.playerA !in over.byUser && it.playerB !in over.byUser
            && (forall v :: v in s.byUser && !Plays(it, v) ==> v in over.byUser && over.byUser[v] == s.byUser[v])
            && (if it.started then over.bracketMatches == s.bracketMatches
                else it.bracketMatch.Some? ==> it.bracketMatch.value !in over.bracketMatches)
  {
    assert MatchOk(s, id);
  }

  // ----- where single steps are not enough

  /**
   * joinQueue really checks first and enqueues later. Enqueueing keeps the
   * invariant exactly when the user is still in no match at that moment.
   */
  lemma LateEnqueueExactly(s: Store, m: Member)
    requires Inv(s)
    ensures Inv(Enqueue(s, m)) <==> m.userId !in s.byUser
  {
    if m.userId !in s.byUser {
      QueueStepKeepsInv(s, Enqueue(s, m));
    } else {
      assert m.userId in Enqueue(s, m).meta;
    }
  }

  lemma RunAppend(s: Store, steps: seq<Step>, step: Step)
    ensures Run(s, steps + [step]) == Do(Run(s, steps), step)
  {
    assert (steps + [step])[..|steps|] == steps;
  }

  /** A directed claim between the check and the enqueue leaves the user queued and in a match. */
  lemma JoinRace(m: Member, other: UserId, t: BracketId)
    requires m.userId != other
    ensures JoinQueue(EMPTY, m, true).1 == Joined
    ensures var claimed := Run(EMPTY, [LockPair(m.userId, other), Claim(m.userId, other, t)]);
            m.userId in Enqueue(claimed, m).queue && m.userId in Enqueue(claimed, m).byUser
  {
    RunAppend(EMPTY, [], LockPair(m.userId, other));
    RunAppend(EMPTY, [LockPair(m.userId, other)], Claim(m.userId, other, t));
    assert [] + [LockPair(m.userId, other)] == [LockPair(m.userId, other)];
  }

  /**
   * Deleting the mappings of a match once more, as a retried cleanup or a late
   * release does, is harmless exactly when neither player has moved on to
   * another match.
   */
  lemma SecondCleanupExactly(s: Store, a: UserId, b: UserId)
    requires Inv(s)
    ensures Inv(DropMappings(s, a, b)) <==> a !in s.byUser && b !in s.byUser
  {
    if a in s.byUser || b in s.byUser {
      var u := if a in s.byUser then a else b;
      assert MappingOk(s, u);
      assert !MatchOk(DropMappings(s, a, b), s.byUser[u]);
    } else {
      assert s.byUser - {a, b} == s.byUser;
    }
  }

  /** A failed creation may release its claims exactly when it has not saved the match yet. */
  lemma LateReleaseExactly(s: Store, id: GameId)
    requires Inv(s) && id in s.sessions
    ensures Inv(ReleaseClaims(s, id)) <==> !s.sessions[id].started
  {
    if s.sessions[id].started {
      assert !MatchOk(ReleaseClaims(s, id), id);
    } else {
      EndKeepsInv(s, ReleaseClaims(s, id), id);
    }
  }

  // ----- runs that break the invariant

  /** Two free users queue up and are paired: four steps, and nobody else is touched. */
  lemma PairUp(steps: seq<Step>, x: Member, y: Member) returns (more: seq<Step>)
    requires x.userId != y.userId
    requires var s := Run(EMPTY, steps);
             && x.userId !in s.byUser && y.userId !in s.byUser && x.userId !in s.queue && y.userId !in s.queue
             && {x.userId, y.userId} !in s.pairLocks
    ensures var s, t := Run(EMPTY, steps), Run(EMPTY, more);
            && t.byUser == s.byUser[x.userId := s.nextId][y.userId := s.nextId]
            && t.sessions == s.sessions[s.nextId := Session(x.userId, y.userId, None, true)]
            && t.queue == s.queue && t.pairLocks == s.pairLocks && t.nextId == s.nextId + 1
  {
    var a, b := x.userId, y.userId;
    RunAppend(EMPTY, steps, Join(x, true));
    RunAppend(EMPTY, steps + [Join(x, true)], Join(y, true));
    var queued := steps + [Join(x, true)] + [Join(y, true)];
    assert Run(EMPTY, queued).queue - {a, b} == Run(EMPTY, steps).queue;
    RunAppend(EMPTY, queued, LockPair(a, b));
    RunAppend(EMPTY, queued + [LockPair(a, b)], Pair(a, b));
    more := queued + [LockPair(a, b)] + [Pair(a, b)];
  }

  /** A cleanup that comes again after its player has been paired anew takes away the new match's mapping. */
  lemma SecondCleanupBreaks(x: Member, y: Member, z: Member) returns (steps: seq<Step>)
    requires x.userId != y.userId && x.userId != z.userId && y.userId != z.userId
    ensures var s := Run(EMPTY, steps);
            && Inv(s) && x.userId in s.byUser
            && !Inv(DropMappings(s, x.userId, y.userId))
  {
    var first := PairUp([], x, y);
    RunAppend(EMPTY, first, Finish(0));
    var over := first + [Finish(0)];
    assert Run(EMPTY, over).byUser == map[];
    steps := PairUp(over, x, z);
    RunsKeepInv(steps);
    SecondCleanupExactly(Run(EMPTY, steps), x.userId, y.userId);
  }

  /** A creation that fails after saving leaves a live match whose players are free to join another. */
  lemma LateReleaseBreaks(a: UserId, b: UserId, t: BracketId) returns (steps: seq<Step>)
    requires a != b
    ensures var s := Run(EMPTY, steps);
            && Inv(s) && 0 in s.sessions && s.sessions[0] == Session(a, b, Some(t), true)
            && !Inv(ReleaseClaims(s, 0)) && 0 in ReleaseClaims(s, 0).sessions && a !in ReleaseClaims(s, 0).byUser
  {
    RunAppend(EMPTY, [], LockPair(a, b));
    RunAppend(EMPTY, [] + [LockPair(a, b)], Claim(a, b, t));
    RunAppend(EMPTY, [] + [LockPair(a, b)] + [Claim(a, b, t)], Create(0));
    steps := [] + [LockPair(a, b)] + [Claim(a, b, t)] + [Create(0)];
    RunsKeepInv(steps);
    LateReleaseExactly(Run(EMPTY, steps), 0);
  }
}

/** The services that change the presence keys: joining and leaving the queue, starting directed matches. */
module DirectedMatch {
  import opened Wrappers
  import opened Presence

  /** The queue as its service sees it, between the steps of other services. */
  class MatchmakingService {
    var store: Store
    var joinLocks: set<UserId>

    constructor (store: Store)
      ensures this.store == store && joinLocks == {}
    {
      this.store, joinLocks := store, {};
    }

    /** An undisturbed join is the one step of the protocol; while another join holds the user's lock it is refused. */
    method JoinQueue(m: Member, allowed: bool) returns (result: JoinResult)
      modifies this
      ensures joinLocks == old(joinLocks)
      ensures m.userId !in joinLocks ==> (store, result) == Presence.JoinQueue(old(store), m, allowed)
      ensures m.userId in joinLocks ==> store == old(store) && result != Joined
    {
      if m.userId in store.byUser {
        return AlreadyInMatch;
      }
      if m.userId in store.queue {
        return AlreadyInQueue;
      }
      if !allowed {
        return RateLimited;
      }
      if m.userId in joinLocks {
        return AlreadyInQueue;
      }
      joinLocks := joinLocks + {m.userId};
      if m.userId in store.queue {
        result := AlreadyInQueue;
      } else {
        store := store.(queue := store.queue[m.userId := m.rating]);
        store := store.(meta := store.meta[m.userId := m]);
        result := Joined;
      }
      joinLocks := joinLocks - {m.userId};
    }

    method LeaveQueue(u: UserId) returns (removed: bool)
      modifies this`store
      ensures (store, removed) == Presence.LeaveQueue(old(store), u)
    {
      removed := u in store.queue;
      store := store.(queue := store.queue - {u});
      store := store.(meta := store.meta - {u});
    }
  }

  datatype StartMatchResult =
    | Playing(id: GameId)
    | SamePlayer
    | InvalidPlayer
    | InvalidTournamentMatch
    | PlayerAlreadyInMatch
    | AlreadyStarted
    | Threw  // creating the match failed

  /** How creating a claimed match may turn out. */
  datatype Creation = Succeeds | FailsBeforeSave | FailsAfterSave

  datatype Claim = Claimed | PlayersBusy | TournamentAlreadyStarted

  /** Both players in a match of their own under tournament match t, and out of the queue. */
  function Directed(s: Store, a: UserId, b: UserId, t: BracketId, started: bool): Store {
    Seat(s, a, b, Session(a, b, Some(t), started)).(bracketMatches := s.bracketMatches[t := s.nextId])
  }

  /** Both players out of the queue, and nothing else. */
  function Unseated(s: Store, a: UserId, b: UserId): Store {
    s.(queue := s.queue - {a, b}, meta := s.meta - {a, b}, nextId := s.nextId + 1)
  }

  /** The match is saved, and its keys are gone. */
  function Stranded(s: Store, a: UserId, b: UserId, t: BracketId): Store {
    Unseated(s, a, b).(sessions := s.sessions[s.nextId := Session(a, b, Some(t), true)])
  }

  function Started(s: Store, id: GameId): Store
    requires id in s.sessions
  {
    s.(sessions := s.sessions[id := s.sessions[id].(started := true)])
  }

  lemma ReleaseAfterClaim(s: Store, a: UserId, b: UserId, t: BracketId)
    requires Inv(s) && a !in s.byUser && b !in s.byUser && t !in s.bracketMatches
    ensures Presence.ReleaseClaims(Directed(s, a, b, t, false), s.nextId) == Unseated(s, a, b)
    ensures Presence.ReleaseClaims(Directed(s, a, b, t, true), s.nextId) == Stranded(s, a, b, t)
  {
    assert s.nextId in s.sessions ==> MatchOk(s, s.nextId);
    TakeBackTwo(s.byUser, a, b, s.nextId);
    TakeBack(s.sessions, s.nextId, Session(a, b, Some(t), false));
    TakeBack(s.bracketMatches, t, s.nextId);
  }

  lemma CreateAfterClaim(s: Store, a: UserId, b: UserId, t: BracketId)
    ensures Started(Directed(s, a, b, t, false), s.nextId) == Directed(s, a, b, t, true)
  {
    var sessions := s.sessions[s.nextId := Session(a, b, Some(t), false)];
    assert sessions[s.nextId := Session(a, b, Some(t), true)] == s.sessions[s.nextId := Session(a, b, Some(t), true)];
  }

  class DirectedMatchService {
    var store: Store

    constructor (store: Store)
      ensures this.store == store
    {
      this.store := store;
    }

    /** Nobody else holds the pair, the tournament match is free, and both players are. */
    predicate Free(a: UserId, b: UserId, t: BracketId)
      reads this
    {
      {a, b} !in store.pairLocks && t !in store.bracketMatches && a !in store.byUser && b !in store.byUser
    }

    /**
     * One undisturbed call. It starts a new match exactly when both players,
     * the pair and the tournament match are free; a repeated call for a match
     * that these two are playing answers with its id; nothing else changes
     * anything. A creation that fails before the save leaves only the queue
     * places lost; one that fails after it leaves a live match that nobody is
     * mapped to, and this alone breaks the invariant. `playersOk` and `idOk`
     * are the verdicts of the input checks.
     */
    method StartMatch(a: UserId, b: UserId, t: BracketId, playersOk: bool, idOk: bool, creation: Creation)
      returns (result: StartMatchResult)
      requires Inv(store)
      modifies this
      ensures Inv(store) <==> !(a != b && playersOk && idOk && old(Free(a, b, t)) && creation == FailsAfterSave)
      ensures result == SamePlayer <==> a == b
      ensures result == InvalidPlayer <==> a != b && !playersOk
      ensures result == InvalidTournamentMatch <==> a != b && playersOk && !idOk
      ensures a != b && playersOk && idOk && old(Free(a, b, t)) ==>
                && result == (if creation == Succeeds then Playing(old(store).nextId) else Threw)
                && store == match creation
                            case Succeeds => Directed(old(store), a, b, t, true)
                            case FailsBeforeSave => Unseated(old(store), a, b)
                            case FailsAfterSave => Stranded(old(store), a, b, t)
      ensures !(a != b && playersOk && idOk && old(Free(a, b, t))) ==> store == old(store)
      ensures a != b && playersOk && idOk && !old(Free(a, b, t)) ==>
                result == if {a, b} in store.pairLocks || t !in store.bracketMatches then PlayerAlreadyInMatch
                          else if && a in store.byUser && store.byUser[a] == store.bracketMatches[t]
                                  && b in store.byUser && store.byUser[b] == store.bracketMatches[t]
                          then Playing(store.bracketMatches[t])
                          else AlreadyStarted
    {
      if a == b {
        return SamePlayer;
      }
      if !playersOk {
        return InvalidPlayer;
      }
      if !idOk {
        return InvalidTournamentMatch;
      }
      var matchId := store.nextId;
      if Free(a, b, t) {
        ReleaseAfterClaim(store, a, b, t);
        CreateAfterClaim(store, a, b, t);
      }
      var claim := ClaimPlayers(a, b, t);
      if claim == TournamentAlreadyStarted {
        var existing := Presence.ResolveExisting(store, t, a, b);
        return if existing.StartedAs? then Playing(existing.id) else AlreadyStarted;
      }
      if claim == PlayersBusy {
        return PlayerAlreadyInMatch;
      }
      if creation == FailsBeforeSave {
        ReleaseClaims(a, b, t, matchId);
        return Threw;
      }
      Create(matchId);
      if creation == FailsAfterSave {
        ReleaseClaims(a, b, t, matchId);
        return Threw;
      }
      return Playing(matchId);
    }

    method ClaimPlayers(a: UserId, b: UserId, t: BracketId) returns (claim: Claim)
      requires Inv(store) && a != b
      modifies this
      ensures Inv(store)
      ensures claim == Claimed <==> old(Free(a, b, t))
      ensures claim == TournamentAlreadyStarted <==> {a, b} !in old(store).pairLocks && t in old(store).bracketMatches
      ensures store == if claim == Claimed then Directed(old(store), a, b, t, false) else old(store)
    {
      var (locked, taken) := TakePairLock(store, a, b);
      if !taken {
        return PlayersBusy;
      }
      QueueStepKeepsInv(store, locked);
      ClaimKeepsInv(locked, a, b, t);
      TakeBackLock(store.pairLocks, {a, b});
      var (after, claimed) := ClaimScript(locked, a, b, t);
      store := after;
      return if claimed == 1 then Claimed else if claimed == 2 then TournamentAlreadyStarted else PlayersBusy;
    }

    /** The match is saved and both mappings are written again. */
    method Create(id: GameId)
      requires Inv(store) && id in store.sessions
      modifies this
      ensures store == Started(old(store), id) && Inv(store)
    {
      CreateChangesNoMapping(store, id);
      var it := store.sessions[id];
      store := store.(sessions := store.sessions[id := it.(started := true)]);
      store := store.(byUser := store.byUser[it.playerA := id]);
      store := store.(byUser := store.byUser[it.playerB := id]);
    }

    /** The three keys of a claim are deleted. An unsaved match is nothing but these keys; a saved state stays. */
    method ReleaseClaims(a: UserId, b: UserId, t: BracketId, id: GameId)
      requires Inv(store) && id in store.sessions
      requires store.sessions[id].playerA == a && store.sessions[id].playerB == b
      requires store.sessions[id].bracketMatch == Some(t)
      modifies this
      ensures store == Presence.ReleaseClaims(old(store), id)
      ensures Inv(store) <==> !old(store).sessions[id].started
    {
      LateReleaseExactly(store, id);
      store := store.(byUser := store.byUser - {a, b});
      store := store.(bracketMatches := store.bracketMatches - {t});
      if !store.sessions[id].started {
        store := store.(sessions := store.sessions - {id});
      }
    }
  }

  lemma TakeBackLock<T>(locks: set<T>, l: T)
    requires l !in locks
    ensures locks + {l} - {l} == locks
  {}
}

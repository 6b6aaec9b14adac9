/** The pairing worker: rating windows that widen with the wait, and one greedy pass. */
module Matchmaking {
  import opened Wrappers
  import opened Sorting
  import opened Presence

  // ----- windows

  datatype Window = Points(n: nat) | Unlimited

  function GetEloWindow(elapsedMs: int): Window {
    if elapsedMs < 10_000 then Points(50)
    else if elapsedMs < 30_000 then Points(100)
    else if elapsedMs < 60_000 then Points(200)
    else Unlimited
  }

  function RatingsMatch(ratingA: int, ratingB: int, a: Window, b: Window): bool {
    if a.Unlimited? || b.Unlimited? then true
    else
      var diff := if ratingA >= ratingB then ratingA - ratingB else ratingB - ratingA;
      diff <= if a.n >= b.n then a.n else b.n
  }

  function Apartness(x: Member, y: Member): int {
    if x.rating >= y.rating then x.rating - y.rating else y.rating - x.rating
  }

  predicate OneWaited(x: Member, y: Member, now: int, ms: int) {
    now - x.queuedAt >= ms || now - y.queuedAt >= ms
  }

  /** Whose ratings may meet: the longer of the two waits decides how far apart they may be. */
  predicate Compatible(x: Member, y: Member, now: int) {
    || Apartness(x, y) <= 50
    || (Apartness(x, y) <= 100 && OneWaited(x, y, now, 10_000))
    || (Apartness(x, y) <= 200 && OneWaited(x, y, now, 30_000))
    || OneWaited(x, y, now, 60_000)
  }

  /** The windows of the code allow exactly these. */
  lemma WindowsExactly(x: Member, y: Member, now: int)
    ensures RatingsMatch(x.rating, y.rating, GetEloWindow(now - x.queuedAt), GetEloWindow(now - y.queuedAt)) <==>
            Compatible(x, y, now)
  {
    assert OneWaited(x, y, now, 60_000) ==> OneWaited(x, y, now, 30_000);
    assert OneWaited(x, y, now, 30_000) ==> OneWaited(x, y, now, 10_000);
  }

  /** The windows only widen: a compatible pair stays compatible while both wait. */
  lemma CompatibleLater(x: Member, y: Member, now: int, later: int)
    requires Compatible(x, y, now) && now <= later
    ensures Compatible(x, y, later) && Compatible(y, x, later)
  {}

  // ----- one pass

  predicate Listed(s: Store, u: UserId) {
    u in s.queue && u in s.meta && s.meta[u].displayName != ""
  }

  function IdOf(member: Member): UserId { member.userId }

  predicate Distinct(members: seq<Member>) {
    DistinctBy(members, IdOf)
  }

  predicate ListsExactly(members: seq<Member>, s: Store) {
    && Distinct(members)
    && (forall i :: 0 <= i < |members| ==>
          Listed(s, members[i].userId) && members[i] == s.meta[members[i].userId])
  }

  predicate Covers(members: seq<Member>, u: UserId) {
    exists i :: 0 <= i < |members| && members[i].userId == u
  }

  predicate QueuedNoLater(x: Member, y: Member) {
    x.queuedAt <= y.queuedAt
  }

  predicate Eligible(player: Member, candidate: Member, now: int, paired: set<UserId>) {
    candidate.userId != player.userId && candidate.userId !in paired && Compatible(player, candidate, now)
  }

  datatype Paired = Paired(a: Member, b: Member)

  predicate Apart(p: Paired, q: Paired) {
    {p.a.userId, p.b.userId} !! {q.a.userId, q.b.userId}
  }

  function PairedIds(pairs: seq<Paired>): set<UserId> {
    if pairs == [] then {}
    else PairedIds(pairs[..|pairs| - 1]) + {pairs[|pairs| - 1].a.userId, pairs[|pairs| - 1].b.userId}
  }

  /** Member i was refused: somebody held the lock of a pair with a compatible member. */
  predicate Refused(members: seq<Member>, i: int, now: int, locks: set<set<UserId>>) {
    && 0 <= i < |members|
    && exists x :: && 0 <= x < |members| && x != i && Compatible(members[i], members[x], now)
                   && {members[i].userId, members[x].userId} in locks
  }

  /** Whoever among the first n members is left over has no compatible partner left, or was refused. */
  predicate Settled(members: seq<Member>, n: int, paired: set<UserId>, now: int, locks: set<set<UserId>>) {
    forall i, k | 0 <= i < n && i < |members| && 0 <= k < |members| && i != k
                  && members[i].userId !in paired && members[k].userId !in paired
                  && Compatible(members[i], members[k], now) ::
      Refused(members, i, now, locks)
  }

  /** The pairs made so far, against the store before the pass. */
  ghost predicate PairsOk(pairs: seq<Paired>, before: Store, after: Store, now: int) {
    && (forall i :: 0 <= i < |pairs| ==> PairOk(pairs[i], before, after, now))
    && (forall i, j :: 0 <= i < j < |pairs| ==> Apart(pairs[i], pairs[j]))
  }

  /** Both were waiting, their ratings match, and they now share one new match of their own. */
  ghost predicate PairOk(p: Paired, before: Store, after: Store, now: int) {
    var a, b := p.a.userId, p.b.userId;
    && a != b && Listed(before, a) && Listed(before, b) && p.a == before.meta[a] && p.b == before.meta[b]
    && Compatible(p.a, p.b, now)
    && a in after.byUser && b in after.byUser && after.byUser[a] == after.byUser[b] >= before.nextId
    && after.byUser[a] in after.sessions && after.sessions[after.byUser[a]] == Session(a, b, None, true)
  }

  /** What the pass leaves alone: everybody who was not paired keeps queue place, details and match. */
  ghost predicate OthersKept(pairs: seq<Paired>, before: Store, after: Store) {
    && after.queue == before.queue - PairedIds(pairs)
    && after.meta == before.meta - PairedIds(pairs)
    && after.pairLocks == before.pairLocks
    && after.nextId == before.nextId + |pairs|
    && (forall id :: id in before.sessions ==> id in after.sessions && after.sessions[id] == before.sessions[id])
    && (forall u :: u !in PairedIds(pairs) ==>
          (u in after.byUser <==> u in before.byUser) && (u in before.byUser ==> after.byUser[u] == before.byUser[u]))
  }

  lemma {:induction false} IdOfSomePair(pairs: seq<Paired>, u: UserId)
    ensures u in PairedIds(pairs) <==>
            exists i :: 0 <= i < |pairs| && (u == pairs[i].a.userId || u == pairs[i].b.userId)
  {
    if pairs != [] {
      var rest := pairs[..|pairs| - 1];
      IdOfSomePair(rest, u);
      assert forall i :: 0 <= i < |rest| ==> rest[i] == pairs[i];
    }
  }

  /** Disjoint pairs of different users: twice as many users as pairs. */
  lemma {:induction false} PairsCountTwice(pairs: seq<Paired>)
    requires forall i :: 0 <= i < |pairs| ==> pairs[i].a.userId != pairs[i].b.userId
    requires forall i, j :: 0 <= i < j < |pairs| ==> Apart(pairs[i], pairs[j])
    ensures |PairedIds(pairs)| == 2 * |pairs|
  {
    if pairs != [] {
      var rest, last := pairs[..|pairs| - 1], pairs[|pairs| - 1];
      PairsCountTwice(rest);
      var two := {last.a.userId, last.b.userId};
      assert |two| == 2;
      forall u | u in two
        ensures u !in PairedIds(rest)
      {
        IdOfSomePair(rest, u);
        assert forall i :: 0 <= i < |rest| ==> rest[i] == pairs[i] && Apart(pairs[i], last);
      }
      assert PairedIds(rest) !! two;
    }
  }

  lemma IdsOfPairs(pairs: seq<Paired>, before: Store, after: Store, now: int)
    requires PairsOk(pairs, before, after, now)
    ensures |PairedIds(pairs)| == 2 * |pairs| && PairedIds(pairs) <= before.queue.Keys
  {
    assert forall i :: 0 <= i < |pairs| ==> PairOk(pairs[i], before, after, now);
    PairsCountTwice(pairs);
    forall u | u in PairedIds(pairs)
      ensures u in before.queue
    {
      IdOfSomePair(pairs, u);
    }
  }

  class Worker {
    var store: Store
    var running: bool

    constructor (store: Store)
      ensures this.store == store && !running
    {
      this.store, running := store, false;
    }

    /** Every queued user with complete details, oldest first. */
    method ListQueueMembers() returns (members: seq<Member>)
      requires QueueOk(store)
      ensures ListsExactly(members, store)
      ensures forall i, j :: 0 <= i < j < |members| ==> members[i].queuedAt <= members[j].queuedAt
      ensures forall u :: Listed(store, u) ==> Covers(members, u)
    {
      var unsorted: seq<Member> := [];
      var rest := store.queue.Keys;
      while rest != {}
        invariant rest <= store.queue.Keys && ListsExactly(unsorted, store)
        invariant forall i :: 0 <= i < |unsorted| ==> unsorted[i].userId !in rest
        invariant forall u :: Listed(store, u) && u !in rest ==> Covers(unsorted, u)
        decreases rest
      {
        var u :| u in rest;
        rest := rest - {u};
        ghost var before := unsorted;
        if u in store.meta && store.meta[u].displayName != "" {
          unsorted := unsorted + [store.meta[u]];
          assert unsorted[|before|].userId == u;
        }
        forall v | Covers(before, v)
          ensures Covers(unsorted, v)
        {
          var i :| 0 <= i < |before| && before[i].userId == v;
          assert unsorted[i].userId == v;
        }
      }
      members := StableSort(unsorted, QueuedNoLater);
      assert TotalPreorder(QueuedNoLater);
      StableSortSorts(unsorted, QueuedNoLater);
      SortKeepsList(unsorted, members, store);
    }

    /** The first compatible member who is neither the player nor paired already. */
    method FindOpponent(player: Member, members: seq<Member>, now: int, paired: set<UserId>)
      returns (r: Option<Member>)
      ensures r.None? <==> forall i :: 0 <= i < |members| ==> !Eligible(player, members[i], now, paired)
      ensures r.Some? ==> exists i :: && 0 <= i < |members| && members[i] == r.value
                                      && Eligible(player, members[i], now, paired)
                                      && forall j :: 0 <= j < i ==> !Eligible(player, members[j], now, paired)
    {
      var playerWindow := GetEloWindow(now - player.queuedAt);
      for i := 0 to |members|
        invariant forall j :: 0 <= j < i ==> !Eligible(player, members[j], now, paired)
      {
        var candidate := members[i];
        if candidate.userId == player.userId {
          continue;
        }
        if candidate.userId in paired {
          continue;
        }
        var candidateWindow := GetEloWindow(now - candidate.queuedAt);
        WindowsExactly(player, candidate, now);
        if RatingsMatch(player.rating, candidate.rating, playerWindow, candidateWindow) {
          return Some(candidate);
        }
      }
      return None;
    }

    /** Takes the pair lock and runs the script: succeeds exactly when the lock is free and both still wait. */
    method TryPairPlayers(a: Member, b: Member) returns (paired: bool)
      modifies this`store
      ensures paired <==> && {a.userId, b.userId} !in old(store).pairLocks
                          && a.userId in old(store).queue && b.userId in old(store).queue
      ensures store == if paired
                       then Seat(old(store), a.userId, b.userId, Session(a.userId, b.userId, None, true))
                       else old(store)
    {
      var (locked, taken) := TakePairLock(store, a.userId, b.userId);
      if !taken {
        return false;
      }
      store := locked;
      var (after, committed) := PairScript(store, a.userId, b.userId);
      assert after.pairLocks == old(store).pairLocks;
      store := after;
      return committed == 1;
    }

    /**
     * One tick. The pairs are disjoint, compatible, and each starts a match of
     * its own; the queue shrinks by twice their number and nobody else is
     * touched. Whoever is left over next to a compatible member was refused:
     * another worker held the lock of a pair with a compatible member.
     */
    method Tick(now: int) returns (matchesCreated: nat, pairs: seq<Paired>)
      requires QueueOk(store) && (forall id :: id in store.sessions ==> id < store.nextId)
      modifies this
      ensures running == old(running)
      ensures old(running) ==> matchesCreated == 0 && store == old(store)
      ensures matchesCreated == |pairs| && PairsOk(pairs, old(store), store, now)
      ensures OthersKept(pairs, old(store), store)
      ensures |store.queue| == |old(store).queue| - 2 * matchesCreated
      ensures !old(running) ==> OnlyTheRefusedMatch(store, old(store), now)
    {
      if running {
        NothingPaired([], store, now);
        return 0, [];
      }
      running := true;
      if |store.queue| < 2 {
        NothingPaired([], store, now);
        SmallQueue(store);
        running := false;
        return 0, [];
      }
      var members := ListQueueMembers();
      matchesCreated, pairs := PairMembers(members, now);
      PassDone(members, pairs, old(store), store, now);
      running := false;
    }

    /** The loop of a tick: each member who is not paired yet looks for an opponent once. */
    method PairMembers(members: seq<Member>, now: int) returns (matchesCreated: nat, pairs: seq<Paired>)
      requires ListsExactly(members, store) && (forall id :: id in store.sessions ==> id < store.nextId)
      modifies this`store
      ensures matchesCreated == |pairs| && Progress(members, |members|, pairs, old(store), store, now)
    {
      NothingPaired(members, store, now);
      var pairedUserIds: set<UserId> := {};
      matchesCreated, pairs := 0, [];
      for i := 0 to |members|
        invariant matchesCreated == |pairs| && pairedUserIds == PairedIds(pairs)
        invariant Progress(members, i, pairs, old(store), store, now)
      {
        var candidate := members[i];
        if candidate.userId in pairedUserIds {
          continue;
        }
        var opponent := FindOpponent(candidate, members, now, pairedUserIds);
        if opponent.None? {
          NobodyForThisOne(members, i, pairedUserIds, now, old(store).pairLocks);
          continue;
        }
        var paired := PairCandidate(members, i, opponent.value, pairs, old(store), now);
        if paired {
          pairs := pairs + [Paired(candidate, opponent.value)];
          pairedUserIds := pairedUserIds + {candidate.userId} + {opponent.value.userId};
          matchesCreated := matchesCreated + 1;
        }
      }
    }

    /** One attempt of the pass. */
    method PairCandidate(members: seq<Member>, i: nat, opponent: Member, ghost pairs: seq<Paired>,
                         ghost start: Store, now: int)
      returns (paired: bool)
      requires i < |members| && ListsExactly(members, start) && opponent in members
      requires Progress(members, i, pairs, start, store, now)
      requires members[i].userId !in PairedIds(pairs) && Eligible(members[i], opponent, now, PairedIds(pairs))
      modifies this`store
      ensures Progress(members, i + 1, if paired then pairs + [Paired(members[i], opponent)] else pairs, start, store, now)
      ensures paired ==> PairedIds(pairs + [Paired(members[i], opponent)]) ==
                         PairedIds(pairs) + {members[i].userId} + {opponent.userId}
    {
      ghost var p := Paired(members[i], opponent);
      ghost var before := store;
      paired := TryPairPlayers(members[i], opponent);
      if paired {
        OneMorePair(pairs, p, start, before, store, now);
        SettledGrows(members, i, PairedIds(pairs), PairedIds(pairs + [p]), now, start.pairLocks);
      } else {
        RefusedThisOne(members, i, opponent, PairedIds(pairs), now, start.pairLocks);
      }
    }
  }

  /** User u was refused: another worker held the lock of a pair with a compatible listed user. */
  ghost predicate RefusedIn(s: Store, u: UserId, now: int) {
    Listed(s, u) && exists x :: x != u && Listed(s, x) && Compatible(s.meta[u], s.meta[x], now) && {u, x} in s.pairLocks
  }

  /** A member left over next to a compatible one was refused. */
  ghost predicate OnlyTheRefusedMatch(after: Store, before: Store, now: int) {
    forall u, v :: Listed(after, u) && Listed(after, v) && u != v && Compatible(after.meta[u], after.meta[v], now) ==>
                     RefusedIn(before, u, now)
  }

  /** Where the pass stands before its i-th member. */
  ghost predicate Progress(members: seq<Member>, i: int, pairs: seq<Paired>, start: Store, store: Store, now: int) {
    && PairsOk(pairs, start, store, now) && OthersKept(pairs, start, store)
    && (forall id :: id in store.sessions ==> id < store.nextId)
    && Settled(members, i, PairedIds(pairs), now, start.pairLocks)
  }

  lemma SettledGrows(members: seq<Member>, i: nat, paired: set<UserId>, more: set<UserId>, now: int,
                     locks: set<set<UserId>>)
    requires i < |members| && paired <= more && members[i].userId in more
    requires Settled(members, i, paired, now, locks)
    ensures Settled(members, i + 1, more, now, locks)
  {}

  /** An attempt that fails while both wait fails because of the pair lock. */
  lemma RefusedThisOne(members: seq<Member>, i: nat, opponent: Member, paired: set<UserId>, now: int,
                       locks: set<set<UserId>>)
    requires i < |members| && opponent in members && Eligible(members[i], opponent, now, paired)
    requires {members[i].userId, opponent.userId} in locks
    requires Settled(members, i, paired, now, locks)
    ensures Settled(members, i + 1, paired, now, locks)
  {
    var x :| 0 <= x < |members| && members[x] == opponent;
    assert Refused(members, i, now, locks);
  }

  lemma SortKeepsList(unsorted: seq<Member>, members: seq<Member>, s: Store)
    requires ListsExactly(unsorted, s) && multiset(members) == multiset(unsorted)
    ensures ListsExactly(members, s)
    ensures forall u :: Covers(unsorted, u) ==> Covers(members, u)
  {
    ReorderKeepsDistinct(unsorted, members, IdOf);
    forall i | 0 <= i < |members|
      ensures Listed(s, members[i].userId) && members[i] == s.meta[members[i].userId]
    {
      assert members[i] in unsorted;
    }
    forall u | Covers(unsorted, u)
      ensures Covers(members, u)
    {
      var i :| 0 <= i < |unsorted| && unsorted[i].userId == u;
      assert unsorted[i] in members;
    }
  }

  lemma SmallQueue(s: Store)
    requires |s.queue| < 2
    ensures forall u, v :: Listed(s, u) && Listed(s, v) ==> u == v
  {
    forall u, v | Listed(s, u) && Listed(s, v)
      ensures u == v
    {
      if u != v {
        assert {u, v} <= s.queue.Keys;
        SubsetSize({u, v}, s.queue.Keys);
      }
    }
  }

  lemma {:induction false} SubsetSize<T>(a: set<T>, b: set<T>)
    requires a <= b
    ensures |a| <= |b|
  {
    if a != {} {
      var x :| x in a;
      SubsetSize(a - {x}, b - {x});
    }
  }

  lemma QueueShrinks(before: Store, after: Store, ids: set<UserId>)
    requires ids <= before.queue.Keys && after.queue == before.queue - ids
    ensures |after.queue| == |before.queue| - |ids|
  {
    assert after.queue.Keys == before.queue.Keys - ids;
  }

  lemma NobodyForThisOne(members: seq<Member>, i: nat, paired: set<UserId>, now: int, locks: set<set<UserId>>)
    requires i < |members| && Distinct(members)
    requires forall k :: 0 <= k < |members| ==> !Eligible(members[i], members[k], now, paired)
    requires Settled(members, i, paired, now, locks)
    ensures Settled(members, i + 1, paired, now, locks)
  {
    forall k | 0 <= k < |members| && k != i && members[k].userId !in paired
      ensures !Compatible(members[i], members[k], now)
    {
      assert !Eligible(members[i], members[k], now, paired);
    }
  }

  /** Seating p leaves an earlier pair in place. */
  lemma EarlierPairStays(q: Paired, p: Paired, start: Store, before: Store, after: Store, now: int)
    requires PairOk(q, start, before, now) && Apart(q, p)
    requires forall id :: id in before.sessions ==> id < before.nextId
    requires after == Seat(before, p.a.userId, p.b.userId, Session(p.a.userId, p.b.userId, None, true))
    ensures PairOk(q, start, after, now)
  {
    assert q.a.userId != p.a.userId && q.a.userId != p.b.userId;
    assert q.b.userId != p.a.userId && q.b.userId != p.b.userId;
  }

  lemma EarlierPairsStay(pairs: seq<Paired>, p: Paired, start: Store, before: Store, after: Store, now: int)
    requires forall i :: 0 <= i < |pairs| ==> PairOk(pairs[i], start, before, now)
    requires forall id :: id in before.sessions ==> id < before.nextId
    requires p.a.userId !in PairedIds(pairs) && p.b.userId !in PairedIds(pairs)
    requires after == Seat(before, p.a.userId, p.b.userId, Session(p.a.userId, p.b.userId, None, true))
    ensures forall i :: 0 <= i < |pairs| ==> PairOk(pairs[i], start, after, now) && Apart(pairs[i], p)
  {
    IdOfSomePair(pairs, p.a.userId);
    IdOfSomePair(pairs, p.b.userId);
    forall i | 0 <= i < |pairs|
      ensures PairOk(pairs[i], start, after, now) && Apart(pairs[i], p)
    {
      EarlierPairStays(pairs[i], p, start, before, after, now);
    }
  }

  lemma OneMorePair(pairs: seq<Paired>, p: Paired, start: Store, before: Store, after: Store, now: int)
    requires PairsOk(pairs, start, before, now) && OthersKept(pairs, start, before)
    requires forall id :: id in before.sessions ==> id < before.nextId
    requires p.a.userId != p.b.userId && Compatible(p.a, p.b, now)
    requires Listed(start, p.a.userId) && p.a == start.meta[p.a.userId] && p.a.userId !in PairedIds(pairs)
    requires Listed(start, p.b.userId) && p.b == start.meta[p.b.userId] && p.b.userId !in PairedIds(pairs)
    requires after == Seat(before, p.a.userId, p.b.userId, Session(p.a.userId, p.b.userId, None, true))
    ensures PairsOk(pairs + [p], start, after, now) && OthersKept(pairs + [p], start, after)
    ensures PairedIds(pairs + [p]) == PairedIds(pairs) + {p.a.userId, p.b.userId}
    ensures forall id :: id in after.sessions ==> id < after.nextId
  {
    EarlierPairsStay(pairs, p, start, before, after, now);
    assert PairOk(p, start, after, now);
    OthersKeptByOneMore(pairs, p, start, before, after);
    assert (pairs + [p])[..|pairs|] == pairs;
  }

  lemma NothingPaired(members: seq<Member>, s: Store, now: int)
    requires forall id :: id in s.sessions ==> id < s.nextId
    ensures Progress(members, 0, [], s, s, now)
  {
    assert s.queue - {} == s.queue && s.meta - {} == s.meta;
  }

  lemma OthersKeptByOneMore(pairs: seq<Paired>, p: Paired, start: Store, before: Store, after: Store)
    requires OthersKept(pairs, start, before)
    requires forall id :: id in before.sessions ==> id < before.nextId
    requires after == Seat(before, p.a.userId, p.b.userId, Session(p.a.userId, p.b.userId, None, true))
    ensures OthersKept(pairs + [p], start, after)
  {
    var more := pairs + [p];
    assert more[..|pairs|] == pairs;
    assert PairedIds(more) == PairedIds(pairs) + {p.a.userId, p.b.userId};
    assert start.queue - PairedIds(pairs) - {p.a.userId, p.b.userId} == start.queue - PairedIds(more);
    assert start.meta - PairedIds(pairs) - {p.a.userId, p.b.userId} == start.meta - PairedIds(more);
  }

  lemma LeftOversWereRefused(members: seq<Member>, before: Store, after: Store, paired: set<UserId>, now: int)
    requires ListsExactly(members, before) && Settled(members, |members|, paired, now, before.pairLocks)
    requires forall u :: Listed(before, u) ==> Covers(members, u)
    requires after.queue == before.queue - paired && after.meta == before.meta - paired
    ensures OnlyTheRefusedMatch(after, before, now)
  {
    forall u, v | Listed(after, u) && Listed(after, v) && u != v && Compatible(after.meta[u], after.meta[v], now)
      ensures RefusedIn(before, u, now)
    {
      assert Listed(before, u) && Listed(before, v);
      var i :| 0 <= i < |members| && members[i].userId == u;
      var k :| 0 <= k < |members| && members[k].userId == v;
      assert Refused(members, i, now, before.pairLocks);
      var x :| && 0 <= x < |members| && x != i && Compatible(members[i], members[x], now)
               && {members[i].userId, members[x].userId} in before.pairLocks;
      OtherMember(members, i, x);
      assert Listed(before, members[x].userId);
    }
  }

  lemma OtherMember(members: seq<Member>, i: nat, x: nat)
    requires Distinct(members) && i < |members| && x < |members| && i != x
    ensures members[i].userId != members[x].userId
  {
    var lo, hi := if i < x then i else x, if i < x then x else i;
    assert IdOf(members[lo]) != IdOf(members[hi]);
  }

  lemma PassDone(members: seq<Member>, pairs: seq<Paired>, before: Store, after: Store, now: int)
    requires ListsExactly(members, before) && Progress(members, |members|, pairs, before, after, now)
    requires forall u :: Listed(before, u) ==> Covers(members, u)
    ensures |after.queue| == |before.queue| - 2 * |pairs|
    ensures OnlyTheRefusedMatch(after, before, now)
  {
    IdsOfPairs(pairs, before, after, now);
    QueueShrinks(before, after, PairedIds(pairs));
    LeftOversWereRefused(members, before, after, PairedIds(pairs), now);
  }

  /** When no lock of a pair of members was held, no two members left over are compatible. */
  lemma LeftOversDoNotMatch(before: Store, after: Store, now: int)
    requires OnlyTheRefusedMatch(after, before, now)
    requires forall u, v | Listed(before, u) && Listed(before, v) && u != v :: {u, v} !in before.pairLocks
    ensures forall u, v | Listed(after, u) && Listed(after, v) && u != v ::
              !Compatible(after.meta[u], after.meta[v], now)
  {
    forall u, v | Listed(after, u) && Listed(after, v) && u != v
      ensures !Compatible(after.meta[u], after.meta[v], now)
    {
      assert !RefusedIn(before, u, now);
    }
  }

  /** Someone who waited a minute matches anybody: left over, such a member was refused or is the only one left. */
  lemma LongWaiterIsAlone(before: Store, after: Store, u: UserId, now: int)
    requires OnlyTheRefusedMatch(after, before, now)
    requires Listed(after, u) && now - after.meta[u].queuedAt >= 60_000
    ensures RefusedIn(before, u, now) || forall v :: Listed(after, v) ==> v == u
  {
    forall v | Listed(after, v) && v != u
      ensures RefusedIn(before, u, now)
    {
      assert Compatible(after.meta[u], after.meta[v], now);
    }
  }
}

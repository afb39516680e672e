/** Account deletion: the recovery window, anonymization when it has passed, and the batched draining of what is due. */
module Lifecycle {
  import opened Prelude
  import opened Pagination

  const RECOVERY_WINDOW := 30 * 24 * 3600
  const MAX_BATCH := 1000

  datatype Status = Active | Suspended | Deleted

  datatype User = User(status: Status, requestedAt: Option<int>, anonymizedAt: Option<int>)

  type Users = map<nat, User>

  // ----- the conditions of the statements

  predicate Open(u: User) {
    u.status.Active? && u.anonymizedAt.None?
  }

  predicate Pending(u: User) {
    Open(u) && u.requestedAt.Some?
  }

  predicate Recoverable(u: User, now: int) {
    Pending(u) && u.requestedAt.value > now - RECOVERY_WINDOW
  }

  predicate Due(u: User, now: int) {
    Pending(u) && u.requestedAt.value <= now - RECOVERY_WINDOW
  }

  /** ORDER BY deletion_requested_at, id */
  datatype DueKey = DueKey(requested: int, id: nat)

  predicate Before(a: DueKey, b: DueKey) {
    a.requested < b.requested || (a.requested == b.requested && a.id < b.id)
  }

  /** FOR UPDATE SKIP LOCKED leaves out the rows another transaction holds. */
  function DueKeys(users: Users, now: int, locked: set<nat>): set<DueKey> {
    set id | id in users && id !in locked && Due(users[id], now) :: DueKey(users[id].requestedAt.value, id)
  }

  /** What is due, oldest first. */
  ghost function DueList(users: Users, now: int, locked: set<nat>): seq<DueKey> {
    BeforeIsTotal();
    Sorted(Before, DueKeys(users, now, locked))
  }

  ghost function Batch(users: Users, now: int, limit: nat, locked: set<nat>): seq<DueKey> {
    var all := DueList(users, now, locked);
    all[..Min(limit, |all|)]
  }

  lemma BeforeIsTotal()
    ensures StrictTotal(Before)
  {
  }

  function Ids(keys: seq<DueKey>): set<nat> {
    set k | k in keys :: k.id
  }

  function Anonymized(users: Users, ids: set<nat>, now: int): Users {
    map id | id in users :: if id in ids then User(Deleted, users[id].requestedAt, Some(now)) else users[id]
  }

  // ----- the operations, with those of moderation and sign-up around them

  datatype Op =
    | Request(id: nat, now: int)
    | Cancel(id: nat, now: int)
    | Cleanup(now: int, limit: nat, locked: set<nat>)
    | Suspend(id: nat)
    | Restore(id: nat)
    | Register(id: nat)

  ghost function Apply(users: Users, op: Op): Users {
    match op
    case Request(id, now) =>
      if id in users && Open(users[id]) && users[id].requestedAt.None?
      then users[id := users[id].(requestedAt := Some(now))] else users
    case Cancel(id, now) =>
      if id in users && Recoverable(users[id], now) then users[id := users[id].(requestedAt := None)] else users
    case Cleanup(now, limit, locked) =>
      if 1 <= limit <= MAX_BATCH then Anonymized(users, Ids(Batch(users, now, limit, locked)), now) else users
    case Suspend(id) =>
      if id in users && users[id].status.Active? then users[id := users[id].(status := Suspended)] else users
    case Restore(id) =>
      if id in users && users[id].status.Suspended? then users[id := users[id].(status := Active)] else users
    case Register(id) =>
      if id in users then users else users[id := User(Active, None, None)]
  }

  ghost function Run(ops: seq<Op>): Users {
    if |ops| == 0 then map[] else Apply(Run(ops[..|ops| - 1]), ops[|ops| - 1])
  }

  // ----- a batch

  /** No cleanup takes less than one account or more than a thousand. */
  lemma LimitsAreKept(users: Users, now: int, limit: nat, locked: set<nat>)
    ensures limit == 0 || limit > 1000 ==> Apply(users, Cleanup(now, limit, locked)) == users
  {
  }

  lemma DueKeyIs(users: Users, now: int, locked: set<nat>, k: DueKey)
    ensures k in DueKeys(users, now, locked) <==>
              k.id in users && k.id !in locked && Due(users[k.id], now) && users[k.id].requestedAt.value == k.requested
  {
  }

  lemma DueListIs(users: Users, now: int, locked: set<nat>, k: DueKey)
    ensures |DueList(users, now, locked)| == |DueKeys(users, now, locked)|
    ensures k in DueList(users, now, locked) <==>
              k.id in users && k.id !in locked && Due(users[k.id], now) && users[k.id].requestedAt.value == k.requested
  {
    BeforeIsTotal();
    SortedLists(Before, DueKeys(users, now, locked));
    DueKeyIs(users, now, locked, k);
  }

  /** Every member of a batch is due. */
  lemma BatchIsDue(users: Users, now: int, limit: nat, locked: set<nat>, id: nat)
    requires id in Ids(Batch(users, now, limit, locked))
    ensures id in users && id !in locked && Due(users[id], now)
    ensures DueKey(users[id].requestedAt.value, id) in Batch(users, now, limit, locked)
  {
    var k :| k in Batch(users, now, limit, locked) && k.id == id;
    assert k in DueList(users, now, locked);
    DueListIs(users, now, locked, k);
  }

  // ----- theorems about one step

  /** At every instant a pending deletion is recoverable or due, never both: cancelling works up to 30 days, of 86 400
      seconds, after the request, and from then on exactly, a cleanup with room for all that is due anonymizes the account. */
  lemma CancelXorCleanup(users: Users, id: nat, now: int, limit: nat)
    requires id in users && users[id].status.Active? && users[id].anonymizedAt.None? && users[id].requestedAt.Some?
    requires 1 <= limit <= 1000 && |DueKeys(users, now, {})| <= limit
    ensures Apply(users, Cancel(id, now)) != users <==> now < users[id].requestedAt.value + 2_592_000
    ensures Apply(users, Cleanup(now, limit, {}))[id] ==
            if now < users[id].requestedAt.value + 2_592_000 then users[id]
            else User(Deleted, users[id].requestedAt, Some(now))
  {
    var key := DueKey(users[id].requestedAt.value, id);
    DueListIs(users, now, {}, key);
    assert Batch(users, now, limit, {}) == DueList(users, now, {});
    if Due(users[id], now) {
      assert id in Ids(Batch(users, now, limit, {}));
    } else {
      if id in Ids(Batch(users, now, limit, {})) {
        BatchIsDue(users, now, limit, {}, id);
      }
      assert Apply(users, Cancel(id, now))[id].requestedAt.None?;
    }
  }

  /** What one step can do to one account. */
  lemma StepOnAccount(users: Users, op: Op, id: nat)
    requires id in users
    ensures var u, u' := users[id], Apply(users, op)[id];
            || u' == u
            || (op.Request? && op.id == id && Open(u) && u.requestedAt.None? && u' == u.(requestedAt := Some(op.now)))
            || (op.Cancel? && op.id == id && Recoverable(u, op.now) && u' == u.(requestedAt := None))
            || (op.Cleanup? && Due(u, op.now) && u' == User(Deleted, u.requestedAt, Some(op.now)))
            || (op == Suspend(id) && u.status.Active? && u' == u.(status := Suspended))
            || (op == Restore(id) && u.status.Suspended? && u' == u.(status := Active))
    ensures id in Apply(users, op)
  {
    if op.Cleanup? && id in Ids(Batch(users, op.now, op.limit, op.locked)) {
      BatchIsDue(users, op.now, op.limit, op.locked, id);
    }
  }

  // ----- theorems about runs

  ghost predicate Cancels(ops: seq<Op>, j: int, id: nat) {
    && 0 <= j < |ops| && ops[j].Cancel? && ops[j].id == id
    && id in Run(ops[..j]) && Recoverable(Run(ops[..j])[id], ops[j].now)
  }

  /** The request an account's deadline counts from: made at i, and never cancelled since. */
  ghost predicate RequestStands(ops: seq<Op>, i: int, id: nat, t: int) {
    && 0 <= i < |ops| && ops[i] == Op.Request(id, t)
    && forall j | i < j < |ops| :: !Cancels(ops, j, id)
  }

  lemma {:induction false} RequestBehind(ops: seq<Op>, id: nat)
    ensures id in Run(ops) && Run(ops)[id].requestedAt.Some? ==>
              exists i :: RequestStands(ops, i, id, Run(ops)[id].requestedAt.value)
  {
    if |ops| > 0 {
      var n := |ops| - 1;
      var before := ops[..n];
      RequestBehind(before, id);
      if id in Run(ops) && Run(ops)[id].requestedAt.Some? {
        var t := Run(ops)[id].requestedAt.value;
        if id in Run(before) {
          StepOnAccount(Run(before), ops[n], id);
          if Run(before)[id].requestedAt == Some(t) {
            var i :| RequestStands(before, i, id, t);
            StandsOn(ops, i, id, t);
          } else {
            assert RequestStands(ops, n, id, t);
          }
        }
      }
    }
  }

  lemma StandsOn(ops: seq<Op>, i: int, id: nat, t: int)
    requires |ops| > 0 && RequestStands(ops[..|ops| - 1], i, id, t) && !Cancels(ops, |ops| - 1, id)
    ensures RequestStands(ops, i, id, t)
  {
    var before := ops[..|ops| - 1];
    forall j | i < j < |ops| ensures !Cancels(ops, j, id) {
      if j < |ops| - 1 {
        assert ops[..j] == before[..j];
        assert !Cancels(before, j, id);
      }
    }
  }

  /** An account is anonymized by a cleanup whose clock is at least 30 days, 2 592 000 seconds, past a request that was not
      cancelled in between. */
  ghost predicate RanOut(ops: seq<Op>, i: int, k: int, id: nat, at: int) {
    && 0 <= i < k < |ops| && ops[i].Request? && ops[i].id == id
    && ops[k].Cleanup? && ops[k].now == at && ops[i].now + 2_592_000 <= at
    && forall j | i < j < k :: !Cancels(ops, j, id)
  }

  lemma {:induction false} AnonymizedAfterWindow(ops: seq<Op>, id: nat)
    requires id in Run(ops) && Run(ops)[id].anonymizedAt.Some?
    ensures exists i, k :: RanOut(ops, i, k, id, Run(ops)[id].anonymizedAt.value)
  {
    if |ops| > 0 {
      var n := |ops| - 1;
      var before := ops[..n];
      var at := Run(ops)[id].anonymizedAt.value;
      assert id in Run(before);
      StepOnAccount(Run(before), ops[n], id);
      if Run(before)[id].anonymizedAt == Some(at) {
        AnonymizedAfterWindow(before, id);
        var i, k :| RanOut(before, i, k, id, at);
        RanOutBefore(ops, n, i, k, id, at);
      } else {
        RequestBehind(before, id);
        var i :| RequestStands(before, i, id, Run(before)[id].requestedAt.value);
        forall j | i < j < n ensures !Cancels(ops, j, id) {
          assert ops[..j] == before[..j];
          assert !Cancels(before, j, id);
        }
        assert RanOut(ops, i, n, id, at);
      }
    }
  }

  lemma RanOutBefore(ops: seq<Op>, n: nat, i: int, k: int, id: nat, at: int)
    requires n <= |ops| && RanOut(ops[..n], i, k, id, at)
    ensures RanOut(ops, i, k, id, at)
  {
    forall j | i < j < k ensures !Cancels(ops, j, id) {
      assert ops[..j] == ops[..n][..j];
      assert !Cancels(ops[..n], j, id);
    }
  }

  ghost predicate Uncancelled(ops: seq<Op>, from: nat, id: nat) {
    forall j | from <= j < |ops| :: !Cancels(ops, j, id)
  }

  lemma UncancelledBefore(ops: seq<Op>, from: nat, id: nat)
    requires |ops| > 0 && Uncancelled(ops, from, id)
    ensures Uncancelled(ops[..|ops| - 1], from, id)
  {
    var before := ops[..|ops| - 1];
    forall j | from <= j < |before| ensures !Cancels(before, j, id) {
      assert before[..j] == ops[..j];
      assert !Cancels(ops, j, id);
    }
  }

  lemma StepKeepsDeadline(users: Users, op: Op, id: nat)
    requires id in users && users[id].requestedAt.Some?
    requires op.Cancel? && op.id == id ==> !Recoverable(users[id], op.now)
    ensures id in Apply(users, op) && Apply(users, op)[id].requestedAt == users[id].requestedAt
  {
    StepOnAccount(users, op, id);
  }

  /** While nobody cancels, repeated requests and everything else leave the deadline where it is. */
  lemma {:induction false} DeadlineStays(ops: seq<Op>, n: nat, id: nat)
    requires n <= |ops| && id in Run(ops[..n]) && Run(ops[..n])[id].requestedAt.Some? && Uncancelled(ops, n, id)
    ensures id in Run(ops) && Run(ops)[id].requestedAt == Run(ops[..n])[id].requestedAt
    decreases |ops|
  {
    if n == |ops| {
      assert ops[..n] == ops;
    } else {
      var before := ops[..|ops| - 1];
      assert before[..n] == ops[..n];
      UncancelledBefore(ops, n, id);
      DeadlineStays(before, n, id);
      assert !Cancels(ops, |ops| - 1, id);
      StepKeepsDeadline(Run(before), ops[|ops| - 1], id);
    }
  }

  lemma {:induction false} DeletedMeansAnonymized(ops: seq<Op>, id: nat)
    requires id in Run(ops)
    ensures Run(ops)[id].anonymizedAt.Some? <==> Run(ops)[id].status.Deleted?
  {
    if |ops| > 0 {
      var before := Run(ops[..|ops| - 1]);
      if id in before {
        DeletedMeansAnonymized(ops[..|ops| - 1], id);
        StepOnAccount(before, ops[|ops| - 1], id);
      }
    }
  }

  /** An anonymized account never changes again. */
  lemma {:induction false} AnonymizedIsFinal(ops: seq<Op>, more: seq<Op>, id: nat)
    requires id in Run(ops) && Run(ops)[id].anonymizedAt.Some?
    ensures id in Run(ops + more) && Run(ops + more)[id] == Run(ops)[id]
    decreases |more|
  {
    if |more| == 0 {
      assert ops + more == ops;
    } else {
      var n := |more| - 1;
      assert (ops + more)[..|ops + more| - 1] == ops + more[..n];
      AnonymizedIsFinal(ops, more[..n], id);
      DeletedMeansAnonymized(ops, id);
      StepOnAccount(Run(ops + more[..n]), more[n], id);
    }
  }

  // ----- draining

  /** Taking the first n entries out of a set leaves the rest of its list. */
  lemma RestIsListed(s: set<DueKey>, rest: set<DueKey>, n: nat)
    requires StrictTotal(Before) && n <= |s|
    requires forall k :: k in rest <==> k in s && k !in Sorted(Before, s)[..n]
    ensures Sorted(Before, rest) == Sorted(Before, s)[n..]
  {
    var all := Sorted(Before, s);
    SortedLists(Before, s);
    forall k ensures k in all[n..] <==> k in rest {
      if k in all[n..] {
        var j :| n <= j < |all| && all[j] == k;
        forall i | 0 <= i < n ensures all[i] != k {
          assert Before(all[i], all[j]);
        }
      }
    }
    ListingIsUnique(Before, rest, all[n..]);
  }

  function DropUpTo<K>(list: seq<K>, n: nat): seq<K> {
    list[Min(n, |list|)..]
  }

  lemma DropTwice<K>(list: seq<K>, m: nat, n: nat)
    ensures DropUpTo(DropUpTo(list, m), n) == DropUpTo(list, m + n)
  {
  }

  /** What is due by an instant comes, at any later one, before what has come due since. */
  lemma EarlierStaysFirst(users: Users, since: int, now: int, locked: set<nat>, k: DueKey)
    requires since <= now && k in DueKeys(users, since, locked)
    ensures k in DueKeys(users, now, locked)
    ensures EarlierThan(Before, DueKeys(users, now, locked), k) == EarlierThan(Before, DueKeys(users, since, locked), k)
  {
    DueKeyIs(users, since, locked, k);
    DueKeyIs(users, now, locked, k);
    forall x ensures x in DueKeys(users, now, locked) && Before(x, k) <==> x in DueKeys(users, since, locked) && Before(x, k) {
      DueKeyIs(users, since, locked, x);
      DueKeyIs(users, now, locked, x);
    }
  }

  /** Of what was due by an instant, a batch taken at any later one holds the oldest. */
  lemma BatchTakesEarlier(users: Users, since: int, now: int, limit: nat, locked: set<nat>, k: DueKey)
    requires since <= now && k in DueKeys(users, since, locked)
    ensures k in Batch(users, now, limit, locked) <==> k in Batch(users, since, limit, locked)
  {
    BeforeIsTotal();
    EarlierStaysFirst(users, since, now, locked, k);
    AmongFirst(Before, DueKeys(users, now, locked), limit, k);
    AmongFirst(Before, DueKeys(users, since, locked), limit, k);
  }

  /** A cleanup at any later clock anonymizes the oldest of the accounts that were due by an instant and are not locked,
      and leaves the rest of these in order. */
  lemma CleanupTakesOldest(users: Users, since: int, now: int, locked: set<nat>, limit: nat)
    requires 1 <= limit <= 1000 && since <= now
    ensures DueList(Apply(users, Cleanup(now, limit, locked)), since, locked) == DropUpTo(DueList(users, since, locked), limit)
  {
    BeforeIsTotal();
    var s := DueKeys(users, since, locked);
    var after := Apply(users, Cleanup(now, limit, locked));
    forall k ensures k in DueKeys(after, since, locked) <==> k in s && k !in Batch(users, since, limit, locked) {
      StillDue(users, since, now, locked, limit, k);
    }
    RestIsListed(s, DueKeys(after, since, locked), Min(limit, |s|));
  }

  lemma StillDue(users: Users, since: int, now: int, locked: set<nat>, limit: nat, k: DueKey)
    requires 1 <= limit <= 1000 && since <= now
    ensures k in DueKeys(Apply(users, Cleanup(now, limit, locked)), since, locked) <==>
              k in DueKeys(users, since, locked) && k !in Batch(users, since, limit, locked)
  {
    var after := Apply(users, Cleanup(now, limit, locked));
    var batch := Batch(users, now, limit, locked);
    DueKeyIs(users, since, locked, k);
    DueKeyIs(after, since, locked, k);
    if k.id in Ids(batch) {
      BatchIsDue(users, now, limit, locked, k.id);
    }
    if k in DueKeys(users, since, locked) {
      BatchTakesEarlier(users, since, now, limit, locked, k);
      assert k in batch <==> k.id in Ids(batch);
    }
  }

  /** One cleanup after the other, each under its own clock. */
  ghost function Cleanups(users: Users, clocks: seq<int>, locked: set<nat>, limit: nat): Users {
    if |clocks| == 0 then users
    else
      var n := |clocks| - 1;
      Apply(Cleanups(users, clocks[..n], locked, limit), Cleanup(clocks[n], limit, locked))
  }

  /** limit, added up runs times. */
  function Taken(runs: nat, limit: nat): nat {
    if runs == 0 then 0 else Taken(runs - 1, limit) + limit
  }

  lemma {:induction false} TakenIs(runs: nat, limit: nat)
    ensures Taken(runs, limit) == runs * limit
  {
    if runs > 0 {
      TakenIs(runs - 1, limit);
      assert (runs - 1) * limit + limit == runs * limit;
    }
  }

  /** What is left of the accounts that were due by an instant. */
  ghost function LeftAfter(users: Users, since: int, clocks: seq<int>, locked: set<nat>, limit: nat): seq<DueKey> {
    DueList(Cleanups(users, clocks, locked, limit), since, locked)
  }

  lemma LeftAfterNext(users: Users, since: int, clocks: seq<int>, locked: set<nat>, limit: nat)
    requires 1 <= limit <= 1000 && |clocks| > 0 && since <= clocks[|clocks| - 1]
    ensures LeftAfter(users, since, clocks, locked, limit) ==
            DropUpTo(LeftAfter(users, since, clocks[..|clocks| - 1], locked, limit), limit)
  {
    var n := |clocks| - 1;
    CleanupTakesOldest(Cleanups(users, clocks[..n], locked, limit), since, clocks[n], locked, limit);
  }

  lemma OneMoreBatch(all: seq<DueKey>, before: seq<DueKey>, after: seq<DueKey>, limit: nat, runs: nat)
    requires runs > 0 && before == DropUpTo(all, Taken(runs - 1, limit)) && after == DropUpTo(before, limit)
    ensures after == DropUpTo(all, Taken(runs, limit))
  {
    DropTwice(all, Taken(runs - 1, limit), limit);
  }

  lemma NextDropsOn(users: Users, since: int, clocks: seq<int>, locked: set<nat>, limit: nat, all: seq<DueKey>)
    requires 1 <= limit <= 1000 && |clocks| > 0 && since <= clocks[|clocks| - 1]
    requires LeftAfter(users, since, clocks[..|clocks| - 1], locked, limit) == DropUpTo(all, Taken(|clocks| - 1, limit))
    ensures LeftAfter(users, since, clocks, locked, limit) == DropUpTo(all, Taken(|clocks|, limit))
  {
    LeftAfterNext(users, since, clocks, locked, limit);
    OneMoreBatch(all, LeftAfter(users, since, clocks[..|clocks| - 1], locked, limit),
                 LeftAfter(users, since, clocks, locked, limit), limit, |clocks|);
  }

  /** The accounts due by an instant are drained oldest first, limit at a time, whatever comes due meanwhile. */
  lemma {:induction false} CleanupsDrop(
      users: Users, since: int, clocks: seq<int>, locked: set<nat>, limit: nat, all: seq<DueKey>)
    requires 1 <= limit <= 1000 && all == DueList(users, since, locked) && forall i | 0 <= i < |clocks| :: since <= clocks[i]
    ensures LeftAfter(users, since, clocks, locked, limit) == DropUpTo(all, Taken(|clocks|, limit))
    decreases |clocks|
  {
    if |clocks| > 0 {
      CleanupsDrop(users, since, clocks[..|clocks| - 1], locked, limit, all);
      NextDropsOn(users, since, clocks, locked, limit, all);
    }
  }

  function Ceil(n: nat, limit: nat): nat
    requires limit >= 1
  {
    (n + limit - 1) / limit
  }

  /** Of n accounts that are due and that nobody holds locked, exactly ceil(n / limit) cleanups leave none, each under any
      clock that is not earlier, and whatever else comes due meanwhile. */
  lemma Drain(users: Users, since: int, clocks: seq<int>, locked: set<nat>, limit: nat, all: seq<DueKey>)
    requires 1 <= limit <= 1000 && all == DueList(users, since, locked) && forall i | 0 <= i < |clocks| :: since <= clocks[i]
    ensures LeftAfter(users, since, clocks, locked, limit) == [] <==> |clocks| >= Ceil(|all|, limit)
  {
    CleanupsDrop(users, since, clocks, locked, limit, all);
    DrainedWhen(all, limit, |clocks|);
  }

  lemma DrainedWhen(list: seq<DueKey>, limit: nat, runs: nat)
    requires limit >= 1
    ensures DropUpTo(list, Taken(runs, limit)) == [] <==> runs >= Ceil(|list|, limit)
  {
    TakenIs(runs, limit);
    CeilIs(|list|, limit, runs);
  }

  lemma CeilIs(n: nat, limit: nat, runs: nat)
    requires limit >= 1
    ensures Taken(runs, limit) >= n <==> runs >= Ceil(n, limit)
  {
    var c := Ceil(n, limit);
    EnoughTaken(n, limit);
    if runs >= c {
      MoreTaken(c, runs, limit);
    } else {
      MoreTaken(runs, c - 1, limit);
    }
  }

  lemma EnoughTaken(n: nat, limit: nat)
    requires limit >= 1
    ensures Taken(Ceil(n, limit), limit) >= n
    ensures Ceil(n, limit) > 0 ==> Taken(Ceil(n, limit) - 1, limit) < n
  {
    TakenIs(Ceil(n, limit), limit);
    if Ceil(n, limit) > 0 {
      TakenIs(Ceil(n, limit) - 1, limit);
    }
  }

  lemma {:induction false} MoreTaken(fewer: nat, runs: nat, limit: nat)
    requires fewer <= runs
    ensures Taken(fewer, limit) <= Taken(runs, limit)
    decreases runs
  {
    if fewer < runs {
      MoreTaken(fewer, runs - 1, limit);
    }
  }
}

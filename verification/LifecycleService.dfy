/** The repository behind account deletion. */
module LifecycleService {
  import opened Prelude
  import opened Pagination
  import opened Lifecycle

  class DataLifecycleRepository {
    var users: Users

    constructor (users: Users)
      ensures this.users == users
    {
      this.users := users;
    }

    /** Answers the instant the deletion counts from: the first request's, not this one's. */
    method RequestDeletion(id: nat, now: int) returns (requested: Option<int>)
      modifies this
      ensures users == Apply(old(users), Op.Request(id, now))
      ensures requested.Some? <==> id in old(users) && old(users)[id].status.Active? && old(users)[id].anonymizedAt.None?
      ensures requested.Some? ==> requested == users[id].requestedAt
      ensures requested.Some? && old(users)[id].requestedAt.Some? ==> requested == old(users)[id].requestedAt
    {
      if id !in users || !Open(users[id]) {
        return None;
      }
      var at := if users[id].requestedAt.Some? then users[id].requestedAt.value else now;
      users := users[id := users[id].(requestedAt := Some(at))];
      return Some(at);
    }

    /** Works for up to 30 days after the request, and only while the account is active. */
    method CancelDeletion(id: nat, now: int) returns (cancelled: bool)
      modifies this
      ensures users == Apply(old(users), Cancel(id, now))
      ensures cancelled <==>
                && id in old(users) && old(users)[id].status.Active? && old(users)[id].anonymizedAt.None?
                && old(users)[id].requestedAt.Some? && now < old(users)[id].requestedAt.value + 2_592_000
      ensures users == if cancelled then old(users)[id := old(users)[id].(requestedAt := None)] else old(users)
    {
      cancelled := id in users && Recoverable(users[id], now);
      if cancelled {
        users := users[id := users[id].(requestedAt := None)];
      }
    }

    /** The oldest of the due accounts nobody else holds; the service admits limits from 1 to 1000 only. */
    method AnonymizeDue(now: int, limit: nat, locked: set<nat>) returns (ids: set<nat>)
      requires 1 <= limit <= 1000
      modifies this
      ensures users == Apply(old(users), Cleanup(now, limit, locked))
      ensures ids == Ids(Batch(old(users), now, limit, locked))
      ensures forall id | id in ids ::
                && id in old(users) && id !in locked && old(users)[id].status.Active? && old(users)[id].anonymizedAt.None?
                && old(users)[id].requestedAt.Some? && old(users)[id].requestedAt.value + 2_592_000 <= now
      ensures users.Keys == old(users.Keys)
      ensures forall id | id in users ::
                users[id] == if id in ids then User(Deleted, old(users)[id].requestedAt, Some(now)) else old(users)[id]
    {
      BeforeIsTotal();
      forall id | id in Ids(Batch(users, now, limit, locked)) ensures id in users && id !in locked && Due(users[id], now) {
        BatchIsDue(users, now, limit, locked, id);
      }
      var batch := SelectFirst(Before, DueKeys(users, now, locked), limit);
      ids := Ids(batch);
      users := Anonymized(users, ids, now);
    }
  }
}

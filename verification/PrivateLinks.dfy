/** Private links: a growing table of tokens that behaves like one optional token per event. */
module PrivateLinks {
  import opened Prelude

  // ----- the reference: one cell per event

  datatype Cell = Cell(hash: nat, expires: int)

  /** The standing token of each event, and every digest ever issued. */
  datatype State = State(cells: map<nat, Cell>, issued: set<nat>)

  datatype Op =
    | Issue(event: nat, hash: nat, expires: int, now: int, rotate: bool)
    | Revoke(event: nat, now: int)

  predicate Active(s: State, event: nat, now: int) {
    event in s.cells && s.cells[event].expires > now
  }

  /** An issue is refused beside an active link, unless it rotates; and no digest is issued twice. */
  predicate Succeeds(s: State, op: Op) {
    op.Issue? ==> (op.rotate || !Active(s, op.event, op.now)) && op.hash !in s.issued
  }

  function Step(s: State, op: Op): State {
    match op
    case Issue(event, hash, expires, _, _) =>
      if Succeeds(s, op) then State(s.cells[event := Cell(hash, expires)], s.issued + {hash}) else s
    case Revoke(event, _) => s.(cells := s.cells - {event})
  }

  /** The event a token opens; open are the events that are published, private and not suspended. */
  ghost predicate Opens(s: State, hash: nat, now: int, open: set<nat>, event: nat) {
    event in s.cells && s.cells[event].hash == hash && s.cells[event].expires > now && event in open
  }

  function Run(ops: seq<Op>): State {
    if |ops| == 0 then State(map[], {}) else Step(Run(ops[..|ops| - 1]), ops[|ops| - 1])
  }

  // ----- theorems

  /** Issue i gave out this token, and nothing has replaced or revoked it since. */
  ghost predicate Standing(ops: seq<Op>, i: int, event: nat, hash: nat) {
    && 0 <= i < |ops| && ops[i].Issue? && ops[i].event == event && ops[i].hash == hash
    && Succeeds(Run(ops[..i]), ops[i])
    && forall j | i < j < |ops| :: !Replaces(ops, j, event)
  }

  ghost predicate Replaces(ops: seq<Op>, j: int, event: nat)
    requires 0 <= j < |ops|
  {
    ops[j].event == event && Succeeds(Run(ops[..j]), ops[j])
  }

  /** A token opens an event exactly when it is the last one issued for it, not revoked since, and not expired. */
  lemma OpensIffStanding(ops: seq<Op>, hash: nat, now: int, open: set<nat>, event: nat)
    ensures Opens(Run(ops), hash, now, open, event) <==>
              exists i :: Standing(ops, i, event, hash) && ops[i].expires > now && event in open
  {
    CellIsStanding(ops, event);
    if event in Run(ops).cells {
      var i :| Standing(ops, i, event, Run(ops).cells[event].hash) && ops[i].expires == Run(ops).cells[event].expires;
      forall k, h | Standing(ops, k, event, h) ensures k == i {
        assert Replaces(ops, k, event) && Replaces(ops, i, event);
      }
    }
  }

  /** This digest was given out at operation i. */
  ghost predicate IssuedAt(ops: seq<Op>, i: int, hash: nat) {
    0 <= i < |ops| && ops[i].Issue? && ops[i].hash == hash && Succeeds(Run(ops[..i]), ops[i])
  }

  lemma {:induction false} IssuedSomewhere(ops: seq<Op>, hash: nat)
    ensures hash in Run(ops).issued <==> exists i :: IssuedAt(ops, i, hash)
  {
    if |ops| > 0 {
      var n := |ops| - 1;
      var before := ops[..n];
      IssuedSomewhere(before, hash);
      forall i | 0 <= i < n ensures IssuedAt(ops, i, hash) <==> IssuedAt(before, i, hash) {
        assert ops[..i] == before[..i];
      }
      assert ops[..n] == before;
      if hash in Run(ops).issued {
        if hash in Run(before).issued {
          var i :| IssuedAt(before, i, hash);
          assert IssuedAt(ops, i, hash);
        } else {
          assert IssuedAt(ops, n, hash);
        }
      }
    }
  }

  /** A link is issued exactly when its digest was never given out before and, unless it rotates, no link of the event
      stands that is not expired yet: an expired or a revoked one is not in the way. */
  lemma IssuedIff(ops: seq<Op>, event: nat, hash: nat, expires: int, now: int, rotate: bool)
    ensures Succeeds(Run(ops), Issue(event, hash, expires, now, rotate)) <==>
              && (forall i :: !IssuedAt(ops, i, hash))
              && (rotate || forall i, h :: Standing(ops, i, event, h) ==> ops[i].expires <= now)
  {
    IssuedSomewhere(ops, hash);
    CellIsStanding(ops, event);
    if event in Run(ops).cells {
      var i :| Standing(ops, i, event, Run(ops).cells[event].hash) && ops[i].expires == Run(ops).cells[event].expires;
      forall k, h | Standing(ops, k, event, h) ensures k == i {
        assert Replaces(ops, k, event) && Replaces(ops, i, event);
      }
    }
  }

  lemma {:induction false} CellIsStanding(ops: seq<Op>, event: nat)
    ensures event in Run(ops).cells ==> exists i ::
              Standing(ops, i, event, Run(ops).cells[event].hash) && ops[i].expires == Run(ops).cells[event].expires
    ensures event !in Run(ops).cells ==> forall i, hash :: !Standing(ops, i, event, hash)
  {
    if |ops| > 0 {
      var n := |ops| - 1;
      var before := ops[..n];
      CellIsStanding(before, event);
      assert forall j | 0 <= j < n :: ops[..j] == before[..j];
      if Replaces(ops, n, event) {
        if ops[n].Issue? {
          assert Standing(ops, n, event, ops[n].hash);
        } else {
          forall i, hash ensures !Standing(ops, i, event, hash) {
            if 0 <= i < n {
              ReplacedFalls(ops, i, n, event, hash);
            }
          }
        }
      } else {
        assert event in Run(ops).cells <==> event in Run(before).cells;
        if event in Run(before).cells {
          var cell := Run(before).cells[event];
          var i :| Standing(before, i, event, cell.hash) && before[i].expires == cell.expires;
          StillStands(ops, i, event, cell.hash);
        } else {
          forall i, hash ensures !Standing(ops, i, event, hash) {
            StoodBefore(ops, i, event, hash);
          }
        }
      }
    }
  }

  lemma ReplacedFalls(ops: seq<Op>, i: int, j: int, event: nat, hash: nat)
    requires 0 <= i < j < |ops| && Replaces(ops, j, event)
    ensures !Standing(ops, i, event, hash)
  {
  }

  lemma StillStands(ops: seq<Op>, i: int, event: nat, hash: nat)
    requires |ops| > 0 && Standing(ops[..|ops| - 1], i, event, hash) && !Replaces(ops, |ops| - 1, event)
    ensures Standing(ops, i, event, hash)
  {
    var before := ops[..|ops| - 1];
    assert ops[..i] == before[..i];
    forall j | i < j < |ops| ensures !Replaces(ops, j, event) {
      if j < |ops| - 1 {
        assert !Replaces(before, j, event);
        assert ops[..j] == before[..j];
      }
    }
  }

  lemma StoodBefore(ops: seq<Op>, i: int, event: nat, hash: nat)
    requires |ops| > 0 && !Replaces(ops, |ops| - 1, event)
    ensures Standing(ops, i, event, hash) ==> Standing(ops[..|ops| - 1], i, event, hash)
  {
    if Standing(ops, i, event, hash) {
      var before := ops[..|ops| - 1];
      assert i < |before| by {
        if i == |ops| - 1 {
          assert Replaces(ops, i, event);
        }
      }
      assert ops[..i] == before[..i];
      forall j | i < j < |before| ensures !Replaces(before, j, event) {
        assert !Replaces(ops, j, event);
        assert ops[..j] == before[..j];
      }
    }
  }

  /** At instant t the token opens nothing: it was replaced or revoked, or it has expired. */
  ghost predicate Dead(s: State, hash: nat, t: int) {
    forall event | event in s.cells :: s.cells[event].hash == hash ==> s.cells[event].expires <= t
  }

  /** Once dead, a token that was issued stays dead, whatever is issued, rotated or revoked later. */
  lemma {:induction false} NeverAgain(ops: seq<Op>, more: seq<Op>, hash: nat, t: int, now: int, open: set<nat>, event: nat)
    requires hash in Run(ops).issued && Dead(Run(ops), hash, t) && t <= now
    ensures !Opens(Run(ops + more), hash, now, open, event)
  {
    StaysDead(ops, more, hash, t);
  }

  lemma {:induction false} StaysDead(ops: seq<Op>, more: seq<Op>, hash: nat, t: int)
    requires hash in Run(ops).issued && Dead(Run(ops), hash, t)
    ensures hash in Run(ops + more).issued && Dead(Run(ops + more), hash, t)
    decreases |more|
  {
    if |more| == 0 {
      assert ops + more == ops;
    } else {
      var n := |more| - 1;
      StaysDead(ops, more[..n], hash, t);
      assert (ops + more)[..|ops + more| - 1] == ops + more[..n];
    }
  }

  // ----- the table

  datatype Row = Row(event: nat, expires: int, revokedAt: Option<int>, lastUsedAt: Option<int>)

  /** Rows are known by their digest, which is unique. */
  type Table = map<nat, Row>

  predicate Unrevoked(rows: Table, hash: nat, event: nat) {
    hash in rows && rows[hash].event == event && rows[hash].revokedAt.None?
  }

  /** The table shows the cells: an unrevoked row for each cell and no other. */
  ghost predicate Shows(rows: Table, s: State) {
    && rows.Keys == s.issued
    && (forall h | h in rows && rows[h].revokedAt.None? ::
          rows[h].event in s.cells && s.cells[rows[h].event] == Cell(h, rows[h].expires))
    && (forall e | e in s.cells :: Unrevoked(rows, s.cells[e].hash, e) && rows[s.cells[e].hash].expires == s.cells[e].expires)
  }

  /** At most one unrevoked token per event: the query for the active one cannot return two rows. */
  lemma AtMostOneUnrevoked(rows: Table, s: State, g: nat, h: nat, event: nat)
    requires Shows(rows, s) && Unrevoked(rows, g, event) && Unrevoked(rows, h, event)
    ensures g == h
  {
    assert s.cells[event].hash == g;
  }

  function Revoked(rows: Table, event: nat, now: int): Table {
    map h | h in rows :: if Unrevoked(rows, h, event) then rows[h].(revokedAt := Some(now)) else rows[h]
  }

  function Used(rows: Table, hash: nat, now: int): Table {
    map h | h in rows :: if h == hash then rows[h].(lastUsedAt := Some(now)) else rows[h]
  }

  lemma RevokedShows(rows: Table, s: State, event: nat, now: int)
    requires Shows(rows, s)
    ensures Shows(Revoked(rows, event, now), Step(s, Revoke(event, now)))
    ensures event in s.cells <==> exists h | h in rows :: Unrevoked(rows, h, event)
  {
    if event in s.cells {
      assert Unrevoked(rows, s.cells[event].hash, event);
    }
  }

  lemma InsertedShows(rows: Table, s: State, event: nat, hash: nat, expires: int)
    requires Shows(rows, s) && event !in s.cells && hash !in s.issued
    ensures Shows(rows[hash := Row(event, expires, None, None)],
                  State(s.cells[event := Cell(hash, expires)], s.issued + {hash}))
  {
    var rows' := rows[hash := Row(event, expires, None, None)];
    assert rows'.Keys == rows.Keys + {hash};
  }

  datatype IssueFailure = LinkExists | DigestTaken

  class EventAccessRepository {
    var rows: Table
    ghost var state: State

    constructor ()
      ensures Valid() && state == State(map[], {})
    {
      rows, state := map[], State(map[], {});
    }

    ghost predicate Valid()
      reads this
    {
      Shows(rows, state)
    }

    /** SELECT id ... WHERE event_id = :event_id AND revoked_at IS NULL AND expires_at > :now */
    method SelectActive(event: nat, now: int) returns (found: bool)
      requires Valid()
      ensures found == Active(state, event, now)
    {
      found := exists h | h in rows :: Unrevoked(rows, h, event) && rows[h].expires > now;
      assert event in state.cells ==> Unrevoked(rows, state.cells[event].hash, event);
    }

    /** UPDATE ... SET revoked_at = :now WHERE event_id = :event_id AND revoked_at IS NULL */
    method RevokeLinks(event: nat, now: int) returns (changed: bool)
      requires Valid()
      modifies this
      ensures Valid() && state == Step(old(state), Revoke(event, now))
      ensures changed == (event in old(state).cells)
      ensures rows == Revoked(old(rows), event, now)
    {
      RevokedShows(rows, state, event, now);
      changed := exists h | h in rows :: Unrevoked(rows, h, event);
      rows := Revoked(rows, event, now);
      state := Step(state, Revoke(event, now));
    }

    /** create_link.  On a taken digest the unique constraint aborts the transaction. */
    method CreateLink(event: nat, hash: nat, expires: int, now: int, rotate: bool) returns (failure: Option<IssueFailure>)
      requires Valid()
      modifies this
      ensures Valid() && state == Step(old(state), Issue(event, hash, expires, now, rotate))
      ensures failure.None? <==> Succeeds(old(state), Issue(event, hash, expires, now, rotate))
      ensures failure == Some(LinkExists) <==> !rotate && Active(old(state), event, now)
      ensures rows == if failure.Some? then old(rows)
                      else Revoked(old(rows), event, now)[hash := Row(event, expires, None, None)]
    {
      var active := SelectActive(event, now);
      if active && !rotate {
        return Some(LinkExists);
      }
      var before := rows;
      ghost var was := state;
      var changed := RevokeLinks(event, now);
      if hash in rows {
        rows, state := before, was;
        return Some(DigestTaken);
      }
      InsertedShows(rows, state, event, hash, expires);
      assert Succeeds(was, Issue(event, hash, expires, now, rotate));
      rows := rows[hash := Row(event, expires, None, None)];
      state := Step(was, Issue(event, hash, expires, now, rotate));
      return None;
    }

    /** resolve_link: the event the token opens; only last_used_at of that token's row changes. */
    method ResolveLink(hash: nat, now: int, open: set<nat>) returns (event: Option<nat>)
      requires Valid()
      modifies `rows
      ensures Valid()
      ensures event.Some? ==> Opens(state, hash, now, open, event.value)
      ensures forall e: nat :: Opens(state, hash, now, open, e) ==> event == Some(e)
      ensures rows == if event.Some? then Used(old(rows), hash, now) else old(rows)
    {
      event := None;
      if hash in rows && rows[hash].revokedAt.None? && rows[hash].expires > now && rows[hash].event in open {
        event := Some(rows[hash].event);
        rows := Used(rows, hash, now);
      }
    }
  }
}

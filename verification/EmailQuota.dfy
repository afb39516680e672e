/** The daily quota and the provider's log: what is reserved, what is sent, and what a delivered row proves. */
module EmailQuota {
  import opened Prelude
  import opened EmailTables
  import opened EmailMachine

  /** The numbers 1 to n. */
  function Upto(n: nat): (s: set<nat>)
    ensures forall k :: k in s <==> 1 <= k <= n
  {
    if n == 0 then {} else Upto(n - 1) + {n}
  }

  /** The slots of one recipient and date are exactly 1..n, one each, and n is within the quota. */
  ghost predicate SlotsExact(cfg: Config, res: Reservations, user: User, date: int) {
    && Slots(res, user, date) == Upto(|Holders(res, user, date)|)
    && |Holders(res, user, date)| <= Max(cfg.quota, 0)
    && (forall a, b | a in Holders(res, user, date) && b in Holders(res, user, date) && a != b ::
          res[a].slot != res[b].slot)
  }

  ghost predicate Quoted(cfg: Config, res: Reservations) {
    forall user, date :: SlotsExact(cfg, res, user, date)
  }

  /** Reservations belong to the recipients of deliveries that the quota applies to. */
  predicate Reserved(rows: Rows, res: Reservations) {
    forall id | id in res :: id in rows && !IsSecurity(rows[id].mail) && res[id].user == rows[id].mail.recipient
  }

  lemma InsertedSlots(res: Reservations, id: Id, r: Reservation)
    requires id !in res
    ensures Holders(res[id := r], r.user, r.date) == Holders(res, r.user, r.date) + {id}
    ensures Slots(res[id := r], r.user, r.date) == Slots(res, r.user, r.date) + {r.slot}
  {
    var res' := res[id := r];
    assert Holders(res', r.user, r.date) == Holders(res, r.user, r.date) + {id};
    forall k | k in Slots(res, r.user, r.date) + {r.slot} ensures k in Slots(res', r.user, r.date) {
      if k == r.slot {
        assert id in Holders(res', r.user, r.date) && res'[id].slot == k;
      } else {
        var a :| a in Holders(res, r.user, r.date) && res[a].slot == k;
        assert a in Holders(res', r.user, r.date) && res'[a].slot == k;
      }
    }
  }

  lemma InsertSlot(cfg: Config, res: Reservations, id: Id, user: User, date: int)
    requires SlotsExact(cfg, res, user, date) && id !in res && NextSlot(res, user, date) <= cfg.quota
    ensures SlotsExact(cfg, res[id := Reservation(user, date, NextSlot(res, user, date))], user, date)
  {
    var slot := NextSlot(res, user, date);
    var r := Reservation(user, date, slot);
    var res' := res[id := r];
    var old', new' := Holders(res, user, date), Holders(res', user, date);
    InsertedSlots(res, id, r);
    assert |new'| == slot && Upto(slot) == Upto(slot - 1) + {slot};
    forall a, b | a in new' && b in new' && a != b ensures res'[a].slot != res'[b].slot {
      assert (a != id ==> res[a].slot in Slots(res, user, date)) && (b != id ==> res[b].slot in Slots(res, user, date));
      assert (a != id ==> a in old') && (b != id ==> b in old');
    }
  }

  lemma OtherSlots(cfg: Config, res: Reservations, id: Id, r: Reservation, user: User, date: int)
    requires SlotsExact(cfg, res, user, date) && id !in res && !(r.user == user && r.date == date)
    ensures SlotsExact(cfg, res[id := r], user, date)
  {
    var res' := res[id := r];
    assert Holders(res', user, date) == Holders(res, user, date);
    assert Slots(res', user, date) == Slots(res, user, date);
  }

  lemma InsertQuoted(cfg: Config, res: Reservations, id: Id, user: User, date: int)
    requires Quoted(cfg, res) && id !in res && NextSlot(res, user, date) <= cfg.quota
    ensures Quoted(cfg, res[id := Reservation(user, date, NextSlot(res, user, date))])
  {
    var r := Reservation(user, date, NextSlot(res, user, date));
    var res' := res[id := r];
    forall u, d ensures SlotsExact(cfg, res', u, d) {
      assert SlotsExact(cfg, res, u, d);
      if u == user && d == date {
        InsertSlot(cfg, res, id, user, date);
      } else {
        OtherSlots(cfg, res, id, r, u, d);
      }
    }
  }
}

/** Keyset pagination: pages of limit + 1 rows after a cursor, against the full sorted list.
    A row stands here for its sort key, which ends in the row's id and so tells rows apart. */
module Pagination {
  import opened Prelude

  ghost predicate StrictTotal<K(!new)>(less: (K, K) -> bool) {
    && (forall a :: !less(a, a))
    && (forall a, b, c :: less(a, b) && less(b, c) ==> less(a, c))
    && (forall a, b :: a != b ==> less(a, b) || less(b, a))
  }

  /** The ORDER BY clause is a strict total order and the handwritten WHERE condition is that same order. */
  ghost predicate Agree<K(!new)>(less: (K, K) -> bool, after: (K, K) -> bool) {
    StrictTotal(less) && forall a, b :: after(a, b) <==> less(a, b)
  }

  // ----- the reference: the full list in order

  ghost predicate Ascending<K(!new)>(less: (K, K) -> bool, list: seq<K>) {
    forall i, j | 0 <= i < j < |list| :: less(list[i], list[j])
  }

  /** list shows the rows of s, each once, in order. */
  ghost predicate Lists<K(!new)>(less: (K, K) -> bool, s: set<K>, list: seq<K>) {
    Ascending(less, list) && forall k :: k in list <==> k in s
  }

  ghost predicate IsLeast<K(!new)>(less: (K, K) -> bool, s: set<K>, m: K) {
    m in s && forall k | k in s && k != m :: less(m, k)
  }

  lemma {:induction false} LeastExists<K(!new)>(less: (K, K) -> bool, s: set<K>)
    requires StrictTotal(less) && s != {}
    ensures exists m :: IsLeast(less, s, m)
    decreases |s|
  {
    var x := SomeElement(s);
    if s - {x} == {} {
      assert s == {x};
      assert IsLeast(less, s, x);
    } else {
      LeastExists(less, s - {x});
      var y :| IsLeast(less, s - {x}, y);
      assert forall k | k in s :: k == x || k in s - {x};
      if less(x, y) {
        assert IsLeast(less, s, x);
      } else {
        assert IsLeast(less, s, y);
      }
    }
  }

  ghost function Least<K(!new)>(less: (K, K) -> bool, s: set<K>): (m: K)
    requires StrictTotal(less) && s != {}
    ensures IsLeast(less, s, m)
  {
    LeastExists(less, s);
    var m :| IsLeast(less, s, m);
    m
  }

  /** SELECT ... ORDER BY ... without a limit. */
  ghost function Sorted<K(!new)>(less: (K, K) -> bool, s: set<K>): (list: seq<K>)
    requires StrictTotal(less)
    ensures |list| == |s|
    decreases |s|
  {
    if s == {} then []
    else
      var m := Least(less, s);
      assert |s - {m}| == |s| - 1;
      [m] + Sorted(less, s - {m})
  }

  lemma {:induction false} SortedLists<K(!new)>(less: (K, K) -> bool, s: set<K>)
    requires StrictTotal(less)
    ensures Lists(less, s, Sorted(less, s))
    decreases |s|
  {
    if s != {} {
      var m := Least(less, s);
      SortedLists(less, s - {m});
      var rest := Sorted(less, s - {m});
      assert Sorted(less, s) == [m] + rest;
      forall i, j | 0 <= i < j < |s| ensures less(Sorted(less, s)[i], Sorted(less, s)[j]) {
        assert rest[j - 1] in rest;
        if i > 0 {
          assert less(rest[i - 1], rest[j - 1]);
        }
      }
    }
  }

  lemma LeastIs<K(!new)>(less: (K, K) -> bool, s: set<K>, m: K)
    requires StrictTotal(less) && IsLeast(less, s, m)
    ensures s != {} && Least(less, s) == m
  {
    var other := Least(less, s);
    assert other == m || (less(m, other) && less(other, m) && less(m, m));
  }

  /** A listing starts with the least row and goes on with a listing of the others. */
  lemma ListingStarts<K(!new)>(less: (K, K) -> bool, s: set<K>, list: seq<K>)
    requires StrictTotal(less) && Lists(less, s, list) && |list| > 0
    ensures s != {} && list[0] == Least(less, s) && Lists(less, s - {list[0]}, list[1..])
  {
    var m := list[0];
    assert m in list;
    forall k | k in s && k != m ensures less(m, k) && k in list[1..] {
      var i :| 0 <= i < |list| && list[i] == k;
      assert list[1..][i - 1] == k;
    }
    LeastIs(less, s, m);
    forall k ensures k in list[1..] <==> k in s - {m} {
      if k in list[1..] {
        var i :| 0 <= i < |list| - 1 && list[1..][i] == k;
        assert less(list[0], list[i + 1]);
      }
    }
  }

  /** There is only one way to list a set of rows in order. */
  lemma {:induction false} ListingIsUnique<K(!new)>(less: (K, K) -> bool, s: set<K>, list: seq<K>)
    requires StrictTotal(less) && Lists(less, s, list)
    ensures list == Sorted(less, s)
    decreases |s|
  {
    if |list| == 0 {
      assert forall k :: k in s ==> k in list;
      assert s == {};
    } else {
      ListingStarts(less, s, list);
      var m := list[0];
      ListingIsUnique(less, s - {m}, list[1..]);
      assert list == [m] + list[1..];
    }
  }

  function First<K(==,!new)>(less: (K, K) -> bool, s: set<K>): (k: K)
    requires StrictTotal(less) && s != {}
    ensures IsLeast(less, s, k)
  {
    LeastExists(less, s);
    var k :| k in s && forall other | other in s && other != k :: less(k, other);
    k
  }

  /** SELECT ... ORDER BY ... LIMIT n */
  method SelectFirst<K(==,!new)>(less: (K, K) -> bool, s: set<K>, n: nat) returns (list: seq<K>)
    requires StrictTotal(less)
    ensures list == Sorted(less, s)[..Min(n, |s|)]
  {
    list := [];
    var left := s;
    ghost var all := Sorted(less, s);
    while |list| < n && |left| > 0
      invariant |list| <= n && list + Sorted(less, left) == all
      decreases n - |list|
    {
      var k := First(less, left);
      LeastIs(less, left, k);
      assert list + ([k] + Sorted(less, left - {k})) == (list + [k]) + Sorted(less, left - {k});
      list := list + [k];
      left := left - {k};
    }
  }

  /** A row is among the first n exactly when fewer than n rows come before it. */
  lemma AmongFirst<K(!new)>(less: (K, K) -> bool, s: set<K>, n: nat, k: K)
    requires StrictTotal(less)
    ensures k in Sorted(less, s)[..Min(n, |s|)] <==> k in s && |EarlierThan(less, s, k)| < n
  {
    var all := Sorted(less, s);
    SortedLists(less, s);
    if k in s {
      var i :| 0 <= i < |all| && all[i] == k;
      var m := Min(n, |s|);
      Rank(less, s, i);
      if i < m {
        assert all[..m][i] == k;
      }
      if k in all[..m] {
        var j :| 0 <= j < m && all[j] == k;
        Rank(less, s, j);
      }
    }
  }

  ghost function EarlierThan<K(!new)>(less: (K, K) -> bool, s: set<K>, k: K): set<K> {
    set x | x in s && less(x, k)
  }

  lemma {:induction false} Rank<K(!new)>(less: (K, K) -> bool, s: set<K>, i: nat)
    requires StrictTotal(less) && i < |s|
    ensures |EarlierThan(less, s, Sorted(less, s)[i])| == i
    decreases i
  {
    var m := Least(less, s);
    var k := Sorted(less, s)[i];
    if i == 0 {
      NothingEarlier(less, s, m);
    } else {
      var rest := s - {m};
      assert Sorted(less, s) == [m] + Sorted(less, rest);
      Rank(less, rest, i - 1);
      SortedLists(less, rest);
      assert k in Sorted(less, rest);
      OneEarlier(less, s, m, k);
    }
  }

  lemma NothingEarlier<K(!new)>(less: (K, K) -> bool, s: set<K>, m: K)
    requires StrictTotal(less) && IsLeast(less, s, m)
    ensures EarlierThan(less, s, m) == {}
  {
    forall x | x in s ensures !less(x, m) {
      assert x == m || less(m, x);
      assert less(m, x) && less(x, m) ==> less(m, m);
    }
  }

  lemma OneEarlier<K(!new)>(less: (K, K) -> bool, s: set<K>, m: K, k: K)
    requires StrictTotal(less) && IsLeast(less, s, m) && k in s && k != m
    ensures |EarlierThan(less, s, k)| == |EarlierThan(less, s - {m}, k)| + 1
  {
    assert EarlierThan(less, s, k) == EarlierThan(less, s - {m}, k) + {m};
  }

  // ----- one page

  /** The rows strictly after the cursor, by the handwritten condition. */
  ghost function Following<K(!new)>(after: (K, K) -> bool, s: set<K>, cursor: Option<K>): set<K> {
    set k | k in s && (cursor.Some? ==> after(cursor.value, k))
  }

  /** SELECT ... WHERE after the cursor ORDER BY ... LIMIT n */
  ghost function Fetch<K(!new)>(less: (K, K) -> bool, after: (K, K) -> bool, s: set<K>, cursor: Option<K>, n: nat): seq<K>
    requires StrictTotal(less)
  {
    var all := Sorted(less, Following(after, s, cursor));
    if |all| <= n then all else all[..n]
  }

  datatype Page<K> = Page(items: seq<K>, next: Option<K>)

  /** The page rule: fetch one row more than asked for, and point behind the last one shown when it was there. */
  function Cut<K>(fetched: seq<K>, limit: nat): Page<K> {
    var items := if |fetched| <= limit then fetched else fetched[..limit];
    Page(items, if |fetched| > limit && |items| > 0 then Some(items[|items| - 1]) else None)
  }

  ghost function PageOf<K(!new)>(less: (K, K) -> bool, after: (K, K) -> bool, s: set<K>, cursor: Option<K>, limit: nat)
    : Page<K>
    requires StrictTotal(less)
  {
    Cut(Fetch(less, after, s, cursor, limit + 1), limit)
  }

  /** A page shows the first items of the list that remains, and has a cursor exactly when more follow. */
  lemma PageIsPrefix<K(!new)>(less: (K, K) -> bool, after: (K, K) -> bool, s: set<K>, cursor: Option<K>, limit: nat)
    requires StrictTotal(less) && limit >= 1
    ensures var all := Sorted(less, Following(after, s, cursor));
            PageOf(less, after, s, cursor, limit) ==
              if |all| <= limit then Page(all, None) else Page(all[..limit], Some(all[limit - 1]))
  {
    CutIsPrefix(Sorted(less, Following(after, s, cursor)), limit);
  }

  lemma CutIsPrefix<K>(all: seq<K>, limit: nat)
    requires limit >= 1
    ensures Cut(if |all| <= limit + 1 then all else all[..limit + 1], limit) ==
            if |all| <= limit then Page(all, None) else Page(all[..limit], Some(all[limit - 1]))
  {
  }

  /** Cutting an ascending list after its first n rows splits it at the n-th row's key. */
  lemma CutSplits<K(!new)>(less: (K, K) -> bool, list: seq<K>, n: nat, k: K)
    requires StrictTotal(less) && Ascending(less, list) && 1 <= n <= |list|
    ensures k in list[n..] <==> k in list && less(list[n - 1], k)
    ensures k in list[..n] <==> k in list && !less(list[n - 1], k)
  {
    if k in list {
      var i :| 0 <= i < |list| && list[i] == k;
      if i < n {
        assert list[..n][i] == k;
        assert i == n - 1 || less(list[i], list[n - 1]);
      } else {
        assert list[n..][i - n] == k;
        assert less(list[n - 1], list[i]);
      }
    }
  }

  /** The rows after the last one shown are exactly the rest of the list. */
  lemma RestFollows<K(!new)>(less: (K, K) -> bool, after: (K, K) -> bool, s: set<K>, cursor: Option<K>, n: nat)
    requires StrictTotal(less) && Agree(less, after) && 1 <= n <= |Following(after, s, cursor)|
    ensures var all := Sorted(less, Following(after, s, cursor));
            Sorted(less, Following(after, s, Some(all[n - 1]))) == all[n..]
  {
    var here := Following(after, s, cursor);
    var all := Sorted(less, here);
    SortedLists(less, here);
    var last := all[n - 1];
    var next := Following(after, s, Some(last));
    assert last in here;
    forall k ensures k in all[n..] <==> k in next {
      CutSplits(less, all, n, k);
      assert cursor.Some? && less(last, k) ==> less(cursor.value, k);
    }
    ListingIsUnique(less, next, all[n..]);
  }

  /** A page, and then what follows its cursor: together, and in order, all that remained. */
  lemma PageThenRest<K(!new)>(less: (K, K) -> bool, after: (K, K) -> bool, s: set<K>, cursor: Option<K>, limit: nat)
    requires StrictTotal(less) && Agree(less, after) && limit >= 1
    ensures var all := Sorted(less, Following(after, s, cursor)); var page := PageOf(less, after, s, cursor, limit);
            if page.next.None? then page.items == all
            else
              && all == page.items + Sorted(less, Following(after, s, page.next))
              && |Following(after, s, page.next)| < |Following(after, s, cursor)|
  {
    var all := Sorted(less, Following(after, s, cursor));
    var page := PageOf(less, after, s, cursor, limit);
    PageIsPrefix(less, after, s, cursor, limit);
    if |all| > limit {
      RestFollows(less, after, s, cursor, limit);
      assert all == all[..limit] + all[limit..];
    }
  }

  // ----- walking a fixed table

  /** Following next cursors from here to the end; that this ends is part of the claim. */
  ghost function Walk<K(!new)>(less: (K, K) -> bool, after: (K, K) -> bool, s: set<K>, cursor: Option<K>, limit: nat)
    : seq<K>
    requires StrictTotal(less) && Agree(less, after) && limit >= 1
    decreases |Following(after, s, cursor)|
  {
    var page := PageOf(less, after, s, cursor, limit);
    PageThenRest(less, after, s, cursor, limit);
    if page.next.None? then page.items else page.items + Walk(less, after, s, page.next, limit)
  }

  /** Walking the pages yields the full list in order, whatever the limit. */
  lemma {:induction false} WalkIsSorted<K(!new)>(
      less: (K, K) -> bool, after: (K, K) -> bool, s: set<K>, cursor: Option<K>, limit: nat)
    requires StrictTotal(less) && Agree(less, after) && limit >= 1
    ensures Walk(less, after, s, cursor, limit) == Sorted(less, Following(after, s, cursor))
    decreases |Following(after, s, cursor)|
  {
    PageThenRest(less, after, s, cursor, limit);
    var page := PageOf(less, after, s, cursor, limit);
    if page.next.Some? {
      WalkIsSorted(less, after, s, page.next, limit);
    }
  }

  // ----- walking a table that changes between requests

  /** What one request finds in the table, and the limit it asks for. */
  datatype Request<K> = Request(table: set<K>, limit: nat)

  /** The routes admit no other limit. */
  ghost predicate Positive<K>(requests: seq<Request<K>>) {
    forall r | r in requests :: r.limit >= 1
  }

  datatype Trip<K> = Trip(shown: seq<K>, requests: nat, completed: bool)

  /** Each request carries the cursor of the page before; the trip is complete when a page comes without one. */
  ghost function Travel<K(!new)>(
      less: (K, K) -> bool, after: (K, K) -> bool, requests: seq<Request<K>>, cursor: Option<K>): Trip<K>
    requires StrictTotal(less)
    decreases |requests|
  {
    if |requests| == 0 then Trip([], 0, false)
    else
      var page := PageOf(less, after, requests[0].table, cursor, requests[0].limit);
      if page.next.None? then Trip(page.items, 1, true)
      else
        var rest := Travel(less, after, requests[1..], page.next);
        Trip(page.items + rest.shown, rest.requests + 1, rest.completed)
  }

  ghost predicate Beyond<K(!new)>(less: (K, K) -> bool, cursor: Option<K>, k: K) {
    cursor.Some? ==> less(cursor.value, k)
  }

  /** k matches, with this very sort key, at each of the first n requests. */
  ghost predicate Stays<K>(requests: seq<Request<K>>, n: nat, k: K)
    requires n <= |requests|
  {
    forall i | 0 <= i < n :: k in requests[i].table
  }

  /** One page in terms of single rows: it shows what lies between the two cursors. */
  lemma PageShows<K(!new)>(less: (K, K) -> bool, after: (K, K) -> bool, s: set<K>, cursor: Option<K>, limit: nat)
    requires StrictTotal(less) && Agree(less, after) && limit >= 1
    ensures var page := PageOf(less, after, s, cursor, limit);
            && Ascending(less, page.items)
            && (forall k :: k in page.items <==>
                  k in s && Beyond(less, cursor, k) && !(page.next.Some? && less(page.next.value, k)))
            && (page.next.Some? ==> page.next.value in page.items)
  {
    var here := Following(after, s, cursor);
    var all := Sorted(less, here);
    SortedLists(less, here);
    PageIsPrefix(less, after, s, cursor, limit);
    var page := PageOf(less, after, s, cursor, limit);
    if page.next.Some? {
      forall k ensures k in page.items <==> k in here && !less(page.next.value, k) {
        CutSplits(less, all, limit, k);
      }
    }
  }

  /** Two pieces, the second beyond the last row of the first, make one ascending list. */
  lemma Joined<K(!new)>(less: (K, K) -> bool, front: seq<K>, last: K, rest: seq<K>)
    requires StrictTotal(less) && Ascending(less, front) && Ascending(less, rest)
    requires forall k | k in front :: k == last || less(k, last)
    requires forall k | k in rest :: less(last, k)
    ensures Ascending(less, front + rest)
  {
    var list := front + rest;
    forall i, j | 0 <= i < j < |list| ensures less(list[i], list[j]) {
      if i < |front| <= j {
        assert list[i] in front && list[j] in rest;
      }
    }
  }

  ghost predicate Faithful<K(!new)>(less: (K, K) -> bool, requests: seq<Request<K>>, cursor: Option<K>, trip: Trip<K>) {
    && trip.requests <= |requests|
    && Ascending(less, trip.shown)
    && (forall k | k in trip.shown :: Beyond(less, cursor, k) && exists i | 0 <= i < trip.requests :: k in requests[i].table)
    && (trip.completed ==>
          forall k | Stays(requests, trip.requests, k) && Beyond(less, cursor, k) :: k in trip.shown)
  }

  /** Whatever is inserted, removed or moved between requests: what is shown ascends strictly, so no sort key is shown
      twice; only rows that were there are shown; and a completed trip shows every row that stayed. */
  lemma {:induction false} TravelIsFaithful<K(!new)>(
      less: (K, K) -> bool, after: (K, K) -> bool, requests: seq<Request<K>>, cursor: Option<K>)
    requires StrictTotal(less) && Agree(less, after) && Positive(requests)
    ensures Faithful(less, requests, cursor, Travel(less, after, requests, cursor))
    decreases |requests|
  {
    if |requests| > 0 {
      var page := PageOf(less, after, requests[0].table, cursor, requests[0].limit);
      PageShows(less, after, requests[0].table, cursor, requests[0].limit);
      if page.next.Some? {
        TravelIsFaithful(less, after, requests[1..], page.next);
        Prepended(less, requests, cursor, page, Travel(less, after, requests[1..], page.next));
      } else {
        forall k | k in page.items ensures exists i | 0 <= i < 1 :: k in requests[i].table {
          assert k in requests[0].table;
        }
      }
    }
  }

  lemma Prepended<K(!new)>(
      less: (K, K) -> bool, requests: seq<Request<K>>, cursor: Option<K>, page: Page<K>, rest: Trip<K>)
    requires StrictTotal(less) && |requests| > 0 && page.next.Some? && page.next.value in page.items
    requires Ascending(less, page.items)
    requires forall k :: k in page.items <==>
               k in requests[0].table && Beyond(less, cursor, k) && !less(page.next.value, k)
    requires Faithful(less, requests[1..], page.next, rest)
    ensures Faithful(less, requests, cursor, Trip(page.items + rest.shown, rest.requests + 1, rest.completed))
  {
    var last := page.next.value;
    var shown := page.items + rest.shown;
    Joined(less, page.items, last, rest.shown);
    forall k | k in shown
      ensures Beyond(less, cursor, k) && exists i | 0 <= i < rest.requests + 1 :: k in requests[i].table
    {
      if k in page.items {
        assert k in requests[0].table;
      } else {
        assert Beyond(less, cursor, last) && less(last, k);
        var i :| 0 <= i < rest.requests && k in requests[1..][i].table;
        assert k in requests[i + 1].table;
      }
    }
    if rest.completed {
      forall k | Stays(requests, rest.requests + 1, k) && Beyond(less, cursor, k) ensures k in shown {
        assert k in requests[0].table;
        if less(last, k) {
          assert Stays(requests[1..], rest.requests, k) by {
            forall i | 0 <= i < rest.requests ensures k in requests[1..][i].table {
              assert k in requests[i + 1].table;
            }
          }
        }
      }
    }
  }

  /** Strictly ascending lists show nothing twice. */
  lemma AscendingShowsOnce<K(!new)>(less: (K, K) -> bool, list: seq<K>, k: K)
    requires StrictTotal(less) && Ascending(less, list)
    ensures k in list ==> exists i | 0 <= i < |list| :: list[i] == k && forall j | 0 <= j < |list| && j != i :: list[j] != k
  {
    if k in list {
      var i :| 0 <= i < |list| && list[i] == k;
      forall j | 0 <= j < |list| && j != i ensures list[j] != k {
        assert if i < j then less(list[i], list[j]) else less(list[j], list[i]);
      }
    }
  }
}

/** The three discovery lists: their ORDER BY clauses, their handwritten "after the cursor" conditions, and what paging
    through each of them therefore shows. Text order is any strict total order. */
module DiscoveryOrders {
  import opened Prelude
  import opened Pagination

  type TextOrder = (string, string) -> bool

  // ----- ORDER BY, once for all lists

  datatype Column = Number(number: int) | Text(text: string)

  datatype Direction = Asc | Desc

  ghost predicate ColumnBefore(text: TextOrder, a: Column, b: Column) {
    match (a, b)
    case (Number(m), Number(n)) => m < n
    case (Text(s), Text(t)) => text(s, t)
    case _ => false
  }

  /** The first column that differs decides. */
  ghost predicate OrderBy(text: TextOrder, directions: seq<Direction>, a: seq<Column>, b: seq<Column>)
    requires |a| == |b| == |directions|
  {
    exists i | 0 <= i < |a| ::
      && a[..i] == b[..i]
      && (if directions[i].Asc? then ColumnBefore(text, a[i], b[i]) else ColumnBefore(text, b[i], a[i]))
  }

  lemma OrderByThree(text: TextOrder, d: seq<Direction>, a: seq<Column>, b: seq<Column>)
    requires |a| == |b| == |d| == 3
    ensures OrderBy(text, d, a, b) <==>
      || FirstDecides(text, d[0], a[0], b[0])
      || (a[0] == b[0] && FirstDecides(text, d[1], a[1], b[1]))
      || (a[0] == b[0] && a[1] == b[1] && FirstDecides(text, d[2], a[2], b[2]))
  {
    assert a[..0] == b[..0];
    assert a[..1] == b[..1] <==> a[0] == b[0] by {
      assert a[..1] == [a[0]] && b[..1] == [b[0]];
    }
    assert a[..2] == b[..2] <==> a[0] == b[0] && a[1] == b[1] by {
      assert a[..2] == [a[0], a[1]] && b[..2] == [b[0], b[1]];
    }
  }

  lemma OrderByTwo(text: TextOrder, d: seq<Direction>, a: seq<Column>, b: seq<Column>)
    requires |a| == |b| == |d| == 2
    ensures OrderBy(text, d, a, b) <==>
      || FirstDecides(text, d[0], a[0], b[0])
      || (a[0] == b[0] && FirstDecides(text, d[1], a[1], b[1]))
  {
    assert a[..0] == b[..0];
    assert a[..1] == b[..1] <==> a[0] == b[0] by {
      assert a[..1] == [a[0]] && b[..1] == [b[0]];
    }
  }

  ghost predicate FirstDecides(text: TextOrder, d: Direction, a: Column, b: Column) {
    if d.Asc? then ColumnBefore(text, a, b) else ColumnBefore(text, b, a)
  }

  // ----- events: featured score descending, start, id

  datatype EventKey = EventKey(score: int, start: int, id: nat)

  /** The condition of the events query, with the cursor's position first. */
  ghost predicate EventAfter(after: EventKey, event: EventKey) {
    || event.score < after.score
    || (event.score == after.score && event.start > after.start)
    || (event.score == after.score && event.start == after.start && event.id > after.id)
  }

  ghost function EventOrder(text: TextOrder): (EventKey, EventKey) -> bool {
    (a: EventKey, b: EventKey) =>
      OrderBy(text, [Desc, Asc, Asc], [Number(a.score), Number(a.start), Number(a.id)],
              [Number(b.score), Number(b.start), Number(b.id)])
  }

  lemma EventsAgree(text: TextOrder)
    ensures Agree(EventOrder(text), EventAfter)
  {
    forall a, b ensures EventAfter(a, b) <==> EventOrder(text)(a, b) {
      OrderByThree(text, [Desc, Asc, Asc], [Number(a.score), Number(a.start), Number(a.id)],
                   [Number(b.score), Number(b.start), Number(b.id)]);
    }
    TotalByProxy(EventOrder(text), EventAfter);
  }

  // ----- clubs: name, id

  datatype ClubKey = ClubKey(name: string, id: nat)

  ghost function ClubAfter(text: TextOrder): (ClubKey, ClubKey) -> bool {
    (after: ClubKey, club: ClubKey) =>
      || text(after.name, club.name)
      || (club.name == after.name && club.id > after.id)
  }

  ghost function ClubOrder(text: TextOrder): (ClubKey, ClubKey) -> bool {
    (a: ClubKey, b: ClubKey) =>
      OrderBy(text, [Asc, Asc], [Text(a.name), Number(a.id)], [Text(b.name), Number(b.id)])
  }

  lemma ClubsAgree(text: TextOrder)
    requires StrictTotal(text)
    ensures Agree(ClubOrder(text), ClubAfter(text))
  {
    forall a, b ensures ClubAfter(text)(a, b) <==> ClubOrder(text)(a, b) {
      OrderByTwo(text, [Asc, Asc], [Text(a.name), Number(a.id)], [Text(b.name), Number(b.id)]);
    }
    TotalByProxy(ClubOrder(text), ClubAfter(text));
  }

  // ----- search: title, kind, id

  datatype SearchKey = SearchKey(title: string, kind: string, id: nat)

  ghost function SearchAfter(text: TextOrder): (SearchKey, SearchKey) -> bool {
    (after: SearchKey, result: SearchKey) =>
      || text(after.title, result.title)
      || (result.title == after.title && text(after.kind, result.kind))
      || (result.title == after.title && result.kind == after.kind && result.id > after.id)
  }

  ghost function SearchOrder(text: TextOrder): (SearchKey, SearchKey) -> bool {
    (a: SearchKey, b: SearchKey) =>
      OrderBy(text, [Asc, Asc, Asc], [Text(a.title), Text(a.kind), Number(a.id)], [Text(b.title), Text(b.kind), Number(b.id)])
  }

  lemma SearchAgrees(text: TextOrder)
    requires StrictTotal(text)
    ensures Agree(SearchOrder(text), SearchAfter(text))
  {
    forall a, b ensures SearchAfter(text)(a, b) <==> SearchOrder(text)(a, b) {
      OrderByThree(text, [Asc, Asc, Asc], [Text(a.title), Text(a.kind), Number(a.id)],
                   [Text(b.title), Text(b.kind), Number(b.id)]);
    }
    TotalByProxy(SearchOrder(text), SearchAfter(text));
  }

  lemma TotalByProxy<K(!new)>(less: (K, K) -> bool, after: (K, K) -> bool)
    requires StrictTotal(after) && forall a, b :: after(a, b) <==> less(a, b)
    ensures Agree(less, after)
  {
  }

  // ----- what paging shows

  /** Paging through a table that stands still, and through one that does not. */
  ghost predicate PagesWell<K(!new)>(less: (K, K) -> bool, after: (K, K) -> bool)
    requires StrictTotal(less) && Agree(less, after)
  {
    && (forall s, limit: nat | limit >= 1 :: Walk(less, after, s, None, limit) == Sorted(less, s))
    && (forall requests: seq<Request<K>> | Positive(requests) ::
          Faithful(less, requests, None, Travel(less, after, requests, None)))
  }

  lemma AgreeingPagesWell<K(!new)>(less: (K, K) -> bool, after: (K, K) -> bool)
    requires StrictTotal(less) && Agree(less, after)
    ensures PagesWell(less, after)
  {
    forall s, limit: nat | limit >= 1 ensures Walk(less, after, s, None, limit) == Sorted(less, s) {
      WalkIsSorted(less, after, s, None, limit);
      assert Following(after, s, None) == s;
    }
    forall requests: seq<Request<K>> | Positive(requests)
      ensures Faithful(less, requests, None, Travel(less, after, requests, None))
    {
      TravelIsFaithful(less, after, requests, None);
    }
  }

  lemma EventsPageWell(text: TextOrder)
    ensures StrictTotal(EventOrder(text)) && Agree(EventOrder(text), EventAfter)
    ensures PagesWell(EventOrder(text), EventAfter)
  {
    EventsAgree(text);
    AgreeingPagesWell(EventOrder(text), EventAfter);
  }

  lemma ClubsPageWell(text: TextOrder)
    requires StrictTotal(text)
    ensures StrictTotal(ClubOrder(text)) && Agree(ClubOrder(text), ClubAfter(text))
    ensures PagesWell(ClubOrder(text), ClubAfter(text))
  {
    ClubsAgree(text);
    AgreeingPagesWell(ClubOrder(text), ClubAfter(text));
  }

  lemma SearchPagesWell(text: TextOrder)
    requires StrictTotal(text)
    ensures StrictTotal(SearchOrder(text)) && Agree(SearchOrder(text), SearchAfter(text))
    ensures PagesWell(SearchOrder(text), SearchAfter(text))
  {
    SearchAgrees(text);
    AgreeingPagesWell(SearchOrder(text), SearchAfter(text));
  }

  // ----- the order in plain words

  /** What following the cursors shows is every row once, in the order of the list. */
  lemma WalkLists<K(!new)>(less: (K, K) -> bool, after: (K, K) -> bool, s: set<K>, limit: nat)
    requires StrictTotal(less) && Agree(less, after) && limit >= 1
    ensures Lists(less, s, Walk(less, after, s, None, limit))
  {
    WalkIsSorted(less, after, s, None, limit);
    assert Following(after, s, None) == s;
    SortedLists(less, s);
  }

  /** Paging through events: the higher featured score first, then the earlier start, then the smaller id. */
  lemma EventsInOrder(text: TextOrder, s: set<EventKey>, limit: nat, i: nat, j: nat)
    requires limit >= 1
    ensures StrictTotal(EventOrder(text)) && Agree(EventOrder(text), EventAfter)
    ensures var shown := Walk(EventOrder(text), EventAfter, s, None, limit);
            && (forall k :: k in shown <==> k in s)
            && (i < j < |shown| ==>
                  var a, b := shown[i], shown[j];
                  || a.score > b.score
                  || (a.score == b.score && a.start < b.start)
                  || (a.score == b.score && a.start == b.start && a.id < b.id))
  {
    EventsAgree(text);
    WalkLists(EventOrder(text), EventAfter, s, limit);
    var shown := Walk(EventOrder(text), EventAfter, s, None, limit);
    assert i < j < |shown| ==> EventAfter(shown[i], shown[j]);
  }

  /** Paging through clubs: by name, then the smaller id. */
  lemma ClubsInOrder(text: TextOrder, s: set<ClubKey>, limit: nat, i: nat, j: nat)
    requires StrictTotal(text) && limit >= 1
    ensures StrictTotal(ClubOrder(text)) && Agree(ClubOrder(text), ClubAfter(text))
    ensures var shown := Walk(ClubOrder(text), ClubAfter(text), s, None, limit);
            && (forall k :: k in shown <==> k in s)
            && (i < j < |shown| ==>
                  var a, b := shown[i], shown[j];
                  text(a.name, b.name) || (a.name == b.name && a.id < b.id))
  {
    ClubsAgree(text);
    WalkLists(ClubOrder(text), ClubAfter(text), s, limit);
    var shown := Walk(ClubOrder(text), ClubAfter(text), s, None, limit);
    assert i < j < |shown| ==> ClubAfter(text)(shown[i], shown[j]);
  }

  /** Paging through search results: by title, then by kind, then the smaller id. */
  lemma SearchInOrder(text: TextOrder, s: set<SearchKey>, limit: nat, i: nat, j: nat)
    requires StrictTotal(text) && limit >= 1
    ensures StrictTotal(SearchOrder(text)) && Agree(SearchOrder(text), SearchAfter(text))
    ensures var shown := Walk(SearchOrder(text), SearchAfter(text), s, None, limit);
            && (forall k :: k in shown <==> k in s)
            && (i < j < |shown| ==>
                  var a, b := shown[i], shown[j];
                  || text(a.title, b.title)
                  || (a.title == b.title && text(a.kind, b.kind))
                  || (a.title == b.title && a.kind == b.kind && a.id < b.id))
  {
    SearchAgrees(text);
    WalkLists(SearchOrder(text), SearchAfter(text), s, limit);
    var shown := Walk(SearchOrder(text), SearchAfter(text), s, None, limit);
    assert i < j < |shown| ==> SearchAfter(text)(shown[i], shown[j]);
  }
}

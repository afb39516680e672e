/** Paging with the cursors as they are sent: when a walk over their text gets to the end of the list, and where it stops
    otherwise. */
module DiscoveryPaging {
  import opened Prelude
  import opened Pagination
  import opened DiscoveryOrders
  import opened Cursor

  type Encoder<!K> = K -> Option<string>
  type Decoder<K> = string -> Option<K>

  /** What became of a walk: the rows shown, and whether a page came without a next cursor. */
  datatype Book<K> = Book(shown: seq<K>, complete: bool)

  /** The position comes back as it was sent. */
  ghost predicate Passes<K>(encode: Encoder<K>, decode: Decoder<K>, k: K) {
    encode(k).Some? && decode(encode(k).value) == Some(k)
  }

  /** What is taken back at all is what was sent. */
  ghost predicate NeverMisread<K(!new)>(encode: Encoder<K>, decode: Decoder<K>) {
    forall k | encode(k).Some? && decode(encode(k).value).Some? :: decode(encode(k).value) == Some(k)
  }

  /** A page whose next cursor cannot be made is not answered at all; one whose cursor is refused afterwards is the last. */
  ghost function Read<K(!new)>(
      less: (K, K) -> bool, after: (K, K) -> bool, encode: Encoder<K>, decode: Decoder<K>,
      s: set<K>, cursor: Option<K>, limit: nat): Book<K>
    requires StrictTotal(less) && Agree(less, after) && NeverMisread(encode, decode) && limit >= 1
    decreases |Following(after, s, cursor)|
  {
    var page := PageOf(less, after, s, cursor, limit);
    PageThenRest(less, after, s, cursor, limit);
    match page.next
    case None => Book(page.items, true)
    case Some(k) =>
      if encode(k).None? then Book([], false)
      else if decode(encode(k).value).None? then Book(page.items, false)
      else
        var rest := Read(less, after, encode, decode, s, decode(encode(k).value), limit);
        Book(page.items + rest.shown, rest.complete)
  }

  /** The same, of the list alone. */
  ghost function ReadList<K>(all: seq<K>, encode: Encoder<K>, decode: Decoder<K>, limit: nat): Book<K>
    requires limit >= 1
  {
    if |all| <= limit then Book(all, true)
    else
      var k := all[limit - 1];
      if encode(k).None? then Book([], false)
      else if !Passes(encode, decode, k) then Book(all[..limit], false)
      else
        var rest := ReadList(all[limit..], encode, decode, limit);
        Book(all[..limit] + rest.shown, rest.complete)
  }

  lemma {:induction false} ReadIsReadList<K(!new)>(
      less: (K, K) -> bool, after: (K, K) -> bool, encode: Encoder<K>, decode: Decoder<K>,
      s: set<K>, cursor: Option<K>, limit: nat)
    requires StrictTotal(less) && Agree(less, after) && NeverMisread(encode, decode) && limit >= 1
    ensures Read(less, after, encode, decode, s, cursor, limit) ==
            ReadList(Sorted(less, Following(after, s, cursor)), encode, decode, limit)
    decreases |Following(after, s, cursor)|
  {
    var all := Sorted(less, Following(after, s, cursor));
    PageIsPrefix(less, after, s, cursor, limit);
    PageThenRest(less, after, s, cursor, limit);
    if |all| > limit {
      var k := all[limit - 1];
      if Passes(encode, decode, k) {
        ReadIsReadList(less, after, encode, decode, s, Some(k), limit);
        assert all[limit..] == Sorted(less, Following(after, s, Some(k)));
      }
    }
  }

  /** The last rows of the pages that have a next one. */
  function PageEnds<K>(all: seq<K>, limit: nat): seq<K>
    requires limit >= 1
  {
    if |all| <= limit then [] else [all[limit - 1]] + PageEnds(all[limit..], limit)
  }

  /** The first n pages. */
  function Pages<K>(all: seq<K>, limit: nat, n: nat): seq<K> {
    if n == 0 then []
    else if |all| <= limit then all
    else all[..limit] + Pages(all[limit..], limit, n - 1)
  }

  /** The walk stops at this page end: it is the first that does not pass, and its page is shown if it has a cursor. */
  ghost predicate StopsAt<K>(all: seq<K>, encode: Encoder<K>, decode: Decoder<K>, limit: nat, n: int, shown: seq<K>)
    requires limit >= 1
  {
    var ends := PageEnds(all, limit);
    && 0 <= n < |ends| && !Passes(encode, decode, ends[n])
    && (forall i | 0 <= i < n :: Passes(encode, decode, ends[i]))
    && shown == Pages(all, limit, if encode(ends[n]).Some? then n + 1 else n)
  }

  /** The walk shows the whole list exactly when every page end passes; otherwise it stops at the first that does not. */
  lemma {:induction false} ReadListIs<K>(all: seq<K>, encode: Encoder<K>, decode: Decoder<K>, limit: nat)
    requires limit >= 1
    ensures var book := ReadList(all, encode, decode, limit);
            && (book.complete <==> forall k | k in PageEnds(all, limit) :: Passes(encode, decode, k))
            && (if book.complete then book.shown == all else exists n :: StopsAt(all, encode, decode, limit, n, book.shown))
    decreases |all|
  {
    if |all| > limit {
      var k := all[limit - 1];
      var ends := PageEnds(all, limit);
      var rest := ReadList(all[limit..], encode, decode, limit);
      assert ends[0] == k && ends[1..] == PageEnds(all[limit..], limit);
      assert forall x :: x in ends <==> x == k || x in ends[1..];
      if Passes(encode, decode, k) {
        ReadListIs(all[limit..], encode, decode, limit);
        assert all == all[..limit] + all[limit..];
        if !rest.complete {
          var n :| StopsAt(all[limit..], encode, decode, limit, n, rest.shown);
          StopsLater(all, encode, decode, limit, n, rest.shown);
        }
      } else {
        assert Pages(all[limit..], limit, 0) == [];
        assert StopsAt(all, encode, decode, limit, 0, ReadList(all, encode, decode, limit).shown);
      }
    }
  }

  lemma StopsLater<K>(all: seq<K>, encode: Encoder<K>, decode: Decoder<K>, limit: nat, n: int, shown: seq<K>)
    requires limit >= 1 && |all| > limit && Passes(encode, decode, all[limit - 1])
    requires StopsAt(all[limit..], encode, decode, limit, n, shown)
    ensures StopsAt(all, encode, decode, limit, n + 1, all[..limit] + shown)
  {
    var ends := PageEnds(all, limit);
    assert ends[0] == all[limit - 1] && ends[1..] == PageEnds(all[limit..], limit);
    forall i | 0 <= i < n + 1 ensures Passes(encode, decode, ends[i]) {
      assert i > 0 ==> ends[i] == ends[1..][i - 1];
    }
    assert ends[n + 1] == ends[1..][n];
  }

  /** Walking with sent cursors from the start. */
  ghost predicate ReadsWell<K(!new)>(
      less: (K, K) -> bool, after: (K, K) -> bool, encode: Encoder<K>, decode: Decoder<K>, s: set<K>, limit: nat)
    requires StrictTotal(less) && Agree(less, after) && NeverMisread(encode, decode) && limit >= 1
  {
    var all := Sorted(less, s);
    var book := Read(less, after, encode, decode, s, None, limit);
    && (book.complete <==> forall k | k in PageEnds(all, limit) :: Passes(encode, decode, k))
    && (if book.complete then book.shown == all else exists n :: StopsAt(all, encode, decode, limit, n, book.shown))
  }

  lemma ReadingIsExact<K(!new)>(
      less: (K, K) -> bool, after: (K, K) -> bool, encode: Encoder<K>, decode: Decoder<K>, s: set<K>, limit: nat)
    requires StrictTotal(less) && Agree(less, after) && NeverMisread(encode, decode) && limit >= 1
    ensures ReadsWell(less, after, encode, decode, s, limit)
  {
    assert Following(after, s, None) == s;
    ReadIsReadList(less, after, encode, decode, s, None, limit);
    ReadListIs(Sorted(less, s), encode, decode, limit);
  }

  // ----- the three lists

  function EventEncoder<F(!new)>(codec: Codec<F>, filters: F): Encoder<EventKey> {
    (k: EventKey) => Encode(codec, filters, EventAt(k.score, k.start, k.id))
  }

  function EventDecoder<F(==,!new)>(codec: Codec<F>, filters: F): Decoder<EventKey> {
    (cursor: string) =>
      match Decode(codec, cursor, "events", filters)
      case Some(EventAt(score, start, id)) => Some(EventKey(score, start, id))
      case _ => None
  }

  function ClubEncoder<F(!new)>(codec: Codec<F>, filters: F): Encoder<ClubKey> {
    (k: ClubKey) => Encode(codec, filters, ClubAt(k.name, k.id))
  }

  function ClubDecoder<F(==,!new)>(codec: Codec<F>, filters: F): Decoder<ClubKey> {
    (cursor: string) =>
      match Decode(codec, cursor, "clubs", filters)
      case Some(ClubAt(name, id)) => Some(ClubKey(name, id))
      case _ => None
  }

  function SearchEncoder<F(!new)>(codec: Codec<F>, filters: F): Encoder<SearchKey> {
    (k: SearchKey) => Encode(codec, filters, ResultAt(k.title, k.kind, k.id))
  }

  function SearchDecoder<F(==,!new)>(codec: Codec<F>, filters: F): Decoder<SearchKey> {
    (cursor: string) =>
      match Decode(codec, cursor, "search", filters)
      case Some(ResultAt(title, kind, id)) => Some(SearchKey(title, kind, id))
      case _ => None
  }

  /** Paging through events by their cursors. */
  lemma EventsReadThrough<F(!new)>(codec: Codec<F>, filters: F, text: TextOrder, s: set<EventKey>, limit: nat)
    requires codec.Sound() && limit >= 1
    ensures StrictTotal(EventOrder(text)) && Agree(EventOrder(text), EventAfter)
    ensures NeverMisread(EventEncoder(codec, filters), EventDecoder(codec, filters))
    ensures ReadsWell(EventOrder(text), EventAfter, EventEncoder(codec, filters), EventDecoder(codec, filters), s, limit)
    ensures forall k :: Passes(EventEncoder(codec, filters), EventDecoder(codec, filters), k) <==>
              && codec.isUuid7(k.id)
              && |codec.toJson(Payload(filters, EventAt(k.score, k.start, k.id), "events", 1))| <= 1503
  {
    EventsAgree(text);
    forall k
      ensures EventEncoder(codec, filters)(k).Some? && EventDecoder(codec, filters)(EventEncoder(codec, filters)(k).value).Some? ==>
                EventDecoder(codec, filters)(EventEncoder(codec, filters)(k).value) == Some(k)
      ensures Passes(EventEncoder(codec, filters), EventDecoder(codec, filters), k) <==>
                && codec.isUuid7(k.id)
                && |codec.toJson(Payload(filters, EventAt(k.score, k.start, k.id), "events", 1))| <= 1503
    {
      CursorRoundTrip(codec, filters, EventAt(k.score, k.start, k.id), "events", filters);
    }
    ReadingIsExact(EventOrder(text), EventAfter, EventEncoder(codec, filters), EventDecoder(codec, filters), s, limit);
  }

  /** Paging through clubs by their cursors. */
  lemma ClubsReadThrough<F(!new)>(codec: Codec<F>, filters: F, text: TextOrder, s: set<ClubKey>, limit: nat)
    requires codec.Sound() && StrictTotal(text) && limit >= 1
    ensures StrictTotal(ClubOrder(text)) && Agree(ClubOrder(text), ClubAfter(text))
    ensures NeverMisread(ClubEncoder(codec, filters), ClubDecoder(codec, filters))
    ensures ReadsWell(ClubOrder(text), ClubAfter(text), ClubEncoder(codec, filters), ClubDecoder(codec, filters), s, limit)
    ensures forall k :: Passes(ClubEncoder(codec, filters), ClubDecoder(codec, filters), k) <==>
              && codec.isUuid7(k.id) && 1 <= |k.name| <= 160
              && |codec.toJson(Payload(filters, ClubAt(k.name, k.id), "clubs", 1))| <= 1503
  {
    ClubsAgree(text);
    forall k
      ensures ClubEncoder(codec, filters)(k).Some? && ClubDecoder(codec, filters)(ClubEncoder(codec, filters)(k).value).Some? ==>
                ClubDecoder(codec, filters)(ClubEncoder(codec, filters)(k).value) == Some(k)
      ensures Passes(ClubEncoder(codec, filters), ClubDecoder(codec, filters), k) <==>
                && codec.isUuid7(k.id) && 1 <= |k.name| <= 160
                && |codec.toJson(Payload(filters, ClubAt(k.name, k.id), "clubs", 1))| <= 1503
    {
      CursorRoundTrip(codec, filters, ClubAt(k.name, k.id), "clubs", filters);
    }
    ReadingIsExact(ClubOrder(text), ClubAfter(text), ClubEncoder(codec, filters), ClubDecoder(codec, filters), s, limit);
  }

  /** Paging through search results by their cursors. */
  lemma SearchReadsThrough<F(!new)>(codec: Codec<F>, filters: F, text: TextOrder, s: set<SearchKey>, limit: nat)
    requires codec.Sound() && StrictTotal(text) && limit >= 1
    ensures StrictTotal(SearchOrder(text)) && Agree(SearchOrder(text), SearchAfter(text))
    ensures NeverMisread(SearchEncoder(codec, filters), SearchDecoder(codec, filters))
    ensures ReadsWell(SearchOrder(text), SearchAfter(text), SearchEncoder(codec, filters), SearchDecoder(codec, filters), s, limit)
    ensures forall k :: Passes(SearchEncoder(codec, filters), SearchDecoder(codec, filters), k) <==>
              && codec.isUuid7(k.id) && 1 <= |k.title| <= 160 && (k.kind == "event" || k.kind == "club")
              && |codec.toJson(Payload(filters, ResultAt(k.title, k.kind, k.id), "search", 1))| <= 1503
  {
    SearchAgrees(text);
    forall k
      ensures SearchEncoder(codec, filters)(k).Some? && SearchDecoder(codec, filters)(SearchEncoder(codec, filters)(k).value).Some? ==>
                SearchDecoder(codec, filters)(SearchEncoder(codec, filters)(k).value) == Some(k)
      ensures Passes(SearchEncoder(codec, filters), SearchDecoder(codec, filters), k) <==>
                && codec.isUuid7(k.id) && 1 <= |k.title| <= 160 && (k.kind == "event" || k.kind == "club")
                && |codec.toJson(Payload(filters, ResultAt(k.title, k.kind, k.id), "search", 1))| <= 1503
    {
      CursorRoundTrip(codec, filters, ResultAt(k.title, k.kind, k.id), "search", filters);
    }
    ReadingIsExact(SearchOrder(text), SearchAfter(text), SearchEncoder(codec, filters), SearchDecoder(codec, filters), s, limit);
  }
}

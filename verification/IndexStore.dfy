/** The index store and its ingester: tables updated in place by upserts, bid
    records and event handlers, read by the paginated query. */
module IndexStore {
  import opened Options
  import opened Tokens
  import opened Contract
  import opened IndexTables
  import opened Pagination

  /** The tables: auctions by id, bids by (auction, slot), the ingest cursor. */
  datatype Tables = Tables(
    auctions: map<int, Row>, bids: map<(int, int), Address>, lastLedger: Option<int>, lastCursor: Option<string>)

  const EMPTY := Tables(map[], map[], None, None)

  datatype Core = Core(id: int, terms: Terms, status: Status, lotReclaimed: bool)

  // ------------------------------------------------------ updates on values

  /** On conflict filled_slots and the settlement columns stay. */
  function UpsertCore(t: Tables, core: Core): Tables {
    var row :=
      if core.id in t.auctions then
        t.auctions[core.id].(terms := core.terms, status := core.status, lotReclaimed := core.lotReclaimed)
      else Row(core.id, core.terms, core.status, 0, core.lotReclaimed, None, None, None);
    t.(auctions := t.auctions[core.id := row])
  }

  function SlotsOf(bids: map<(int, int), Address>, id: int): set<int> {
    set key | key in bids.Keys && key.0 == id :: key.1
  }

  function RecordBid(t: Tables, id: int, slot: int, bidder: Address): Tables {
    var bids := if (id, slot) in t.bids then t.bids else t.bids[(id, slot) := bidder];
    Tables(
      if id in t.auctions then t.auctions[id := t.auctions[id].(filledSlots := |SlotsOf(bids, id)|)]
      else t.auctions,
      bids, t.lastLedger, t.lastCursor)
  }

  function UpdateRow(t: Tables, id: int, row: Row): Tables {
    t.(auctions := t.auctions[id := row])
  }

  function MarkSettled(t: Tables, id: int, clearingPrice: int, winner: Address, settleTx: Option<string>): Tables {
    if id !in t.auctions then t
    else UpdateRow(t, id, t.auctions[id].(status := Settled, clearingPrice := Some(clearingPrice),
                                          winner := Some(winner), settleTx := settleTx))
  }

  function MarkRefunded(t: Tables, id: int): Tables {
    if id !in t.auctions then t else UpdateRow(t, id, t.auctions[id].(status := Refunded))
  }

  function SetLotReclaimed(t: Tables, id: int, reclaimed: bool): Tables {
    if id !in t.auctions then t else UpdateRow(t, id, t.auctions[id].(lotReclaimed := reclaimed))
  }

  // ---------------------------------------------------------------- ingestion

  /** What reading an auction and its two token symbols from the chain gives. */
  datatype ChainRead =
    | NotFound | Unreadable
    | Found(auction: Auction, lotSymbol: Option<string>, paymentSymbol: Option<string>)

  type Reader = int -> ChainRead

  /** The auction and both token symbols could be read. */
  predicate Readable(read: ChainRead) {
    read.Found? && read.lotSymbol.Some? && read.paymentSymbol.Some?
  }

  function CoreOf(id: int, a: Auction, lotSymbol: string, paymentSymbol: string): Core {
    Core(id, Terms(a.seller, a.rwaToken, lotSymbol, a.lotAmount, a.paymentToken, paymentSymbol,
                   a.maxPrice, a.commitDeadline, a.gracePeriod),
         a.status, a.lotReclaimed)
  }

  /** Records the first n bids of an on-chain auction. */
  function RecordBids(t: Tables, id: int, bids: seq<Bid>, n: nat): Tables
    requires n <= |bids|
  {
    if n == 0 then t else RecordBid(RecordBids(t, id, bids, n - 1), id, n - 1, bids[n - 1].bidder)
  }

  function Enrich(t: Tables, id: int, read: ChainRead): Tables {
    match read
    case Found(a, Some(lotSymbol), Some(paymentSymbol)) =>
      RecordBids(UpsertCore(t, CoreOf(id, a, lotSymbol, paymentSymbol)), id, a.bids, |a.bids|)
    case _ => t
  }

  /** A fetched event.  wellTyped is what the handlers test of its payload. */
  datatype IndexedEvent = IndexedEvent(event: Event, txHash: Option<string>, wellTyped: bool)

  function Apply(t: Tables, e: IndexedEvent, reader: Reader): Tables {
    match e.event
    case AuctionCreated(id, _, _, _) => if id in t.auctions then t else Enrich(t, id, reader(id))
    case BidPlaced(id, slot, bidder, _, _) => if e.wellTyped then RecordBid(t, id, slot, bidder) else t
    case AuctionSettled(id, winner, price) =>
      if e.wellTyped then MarkSettled(t, id, price, winner, e.txHash) else t
    case AuctionRefunded(id, _) => MarkRefunded(t, id)
    case LotReturnFailed(id, _, _) => SetLotReclaimed(t, id, false)
    case LotReclaimed(id, _, _) => SetLotReclaimed(t, id, true)
  }

  function Replay(t: Tables, events: seq<IndexedEvent>, reader: Reader): Tables {
    if events == [] then t
    else Apply(Replay(t, events[..|events| - 1], reader), events[|events| - 1], reader)
  }

  /** Every row is stored under its own id. */
  predicate Keyed(t: Tables) {
    forall id :: id in t.auctions ==> t.auctions[id].id == id
  }

  lemma {:induction false} RecordBidsKeyed(t: Tables, id: int, bids: seq<Bid>, n: nat)
    requires n <= |bids| && Keyed(t)
    ensures Keyed(RecordBids(t, id, bids, n))
  {
    if n == 0 {
    } else {
      RecordBidsKeyed(t, id, bids, n - 1);
    }
  }

  lemma EnrichKeyed(t: Tables, id: int, read: ChainRead)
    requires Keyed(t)
    ensures Keyed(Enrich(t, id, read))
  {
    if Readable(read) {
      var core := CoreOf(id, read.auction, read.lotSymbol.value, read.paymentSymbol.value);
      RecordBidsKeyed(UpsertCore(t, core), id, read.auction.bids, |read.auction.bids|);
    }
  }

  lemma {:induction false} ReplayKeyed(t: Tables, events: seq<IndexedEvent>, reader: Reader)
    requires Keyed(t)
    ensures Keyed(Replay(t, events, reader))
  {
    if events == [] {
    } else {
      var front, last := events[..|events| - 1], events[|events| - 1];
      ReplayKeyed(t, front, reader);
      EnrichKeyed(Replay(t, front, reader), last.event.auctionId, reader(last.event.auctionId));
    }
  }

  // ------------------------------------------------------------------- queries

  /** The case foldings of the database and of the language, the LIKE operator
      and the text form of an id. */
  datatype TextRules = TextRules(
    sqlLower: string -> string, jsLower: string -> string, like: (string, string) -> bool, idText: int -> string)

  datatype AuctionQuery = AuctionQuery(
    statuses: seq<Status>, assetSymbol: Option<string>, search: Option<string>, bidder: Option<Address>,
    sort: Sort, limit: nat, cursor: Option<Cursor>)

  /** The conditions a query pushes one by one. */
  datatype Condition =
    | StatusIn(statuses: seq<Status>) | AssetIs(asset: string) | SearchHits(search: string)
    | HasBidder(bidder: Address) | IsAfter(sort: Sort, cursor: Cursor)

  predicate Meets(text: TextRules, t: Tables, row: Row, c: Condition) {
    match c
    case StatusIn(statuses) => row.status in statuses
    case AssetIs(asset) =>
      || text.sqlLower(row.terms.lotSymbol) == text.jsLower(asset)
      || text.sqlLower(row.terms.paymentSymbol) == text.jsLower(asset)
    case SearchHits(search) =>
      || text.idText(row.id) == search
      || text.like(text.sqlLower(row.terms.lotSymbol), "%" + text.jsLower(search) + "%")
      || text.like(text.sqlLower(row.terms.paymentSymbol), "%" + text.jsLower(search) + "%")
    case HasBidder(bidder) => exists key :: key in t.bids.Keys && key.0 == row.id && t.bids[key] == bidder
    case IsAfter(sort, cursor) => Before(sort, cursor, CursorOf(row, sort))
  }

  /** The filter of a query, by the columns of a row and the recorded bids.  The
      status filter is off for no status and for three or more, repeated ones
      included. */
  ghost predicate Matches(text: TextRules, t: Tables, q: AuctionQuery, row: Row) {
    && (0 < |q.statuses| < 3 ==> row.status in q.statuses)
    && (q.assetSymbol.Some? ==>
          var asset := text.jsLower(q.assetSymbol.value);
          text.sqlLower(row.terms.lotSymbol) == asset || text.sqlLower(row.terms.paymentSymbol) == asset)
    && (q.search.Some? ==>
          var pattern := "%" + text.jsLower(q.search.value) + "%";
          || text.idText(row.id) == q.search.value
          || text.like(text.sqlLower(row.terms.lotSymbol), pattern)
          || text.like(text.sqlLower(row.terms.paymentSymbol), pattern))
    && (q.bidder.Some? ==> exists slot :: (row.id, slot) in t.bids && t.bids[(row.id, slot)] == q.bidder.value)
  }

  ghost function Matching(text: TextRules, t: Tables, q: AuctionQuery): set<Row> {
    set id | id in t.auctions.Keys && Matches(text, t, q, t.auctions[id]) :: t.auctions[id]
  }

  function Where(text: TextRules, t: Tables, conditions: seq<Condition>): set<Row> {
    set id | id in t.auctions.Keys && (forall c :: c in conditions ==> Meets(text, t, t.auctions[id], c))
      :: t.auctions[id]
  }

  /** The filter conditions of a query, in the order they are pushed. */
  function ConditionsOf(q: AuctionQuery): seq<Condition> {
    (if 0 < |q.statuses| < 3 then [StatusIn(q.statuses)] else [])
      + (if q.assetSymbol.Some? then [AssetIs(q.assetSymbol.value)] else [])
      + (if q.search.Some? then [SearchHits(q.search.value)] else [])
      + (if q.bidder.Some? then [HasBidder(q.bidder.value)] else [])
  }

  ghost predicate MeetsAll(text: TextRules, t: Tables, row: Row, conditions: seq<Condition>) {
    forall c :: c in conditions ==> Meets(text, t, row, c)
  }

  lemma MeetsBoth(text: TextRules, t: Tables, row: Row, first: seq<Condition>, second: seq<Condition>)
    ensures MeetsAll(text, t, row, first + second)
       <==> MeetsAll(text, t, row, first) && MeetsAll(text, t, row, second)
  {
    assert forall c :: c in first + second <==> c in first || c in second;
  }

  lemma BidderByFields(text: TextRules, t: Tables, row: Row, bidder: Address)
    ensures Meets(text, t, row, HasBidder(bidder))
       <==> exists slot :: (row.id, slot) in t.bids && t.bids[(row.id, slot)] == bidder
  {
    if slot :| (row.id, slot) in t.bids && t.bids[(row.id, slot)] == bidder {
      assert (row.id, slot) in t.bids.Keys;
    }
    if Meets(text, t, row, HasBidder(bidder)) {
      var key :| key in t.bids.Keys && key.0 == row.id && t.bids[key] == bidder;
      var slot := key.1;
      assert key == (row.id, slot);
    }
  }

  /** The pushed conditions are the filter. */
  lemma ConditionsAreFilter(text: TextRules, t: Tables, q: AuctionQuery, row: Row)
    ensures MeetsAll(text, t, row, ConditionsOf(q)) <==> Matches(text, t, q, row)
  {
    var statuses := if 0 < |q.statuses| < 3 then [StatusIn(q.statuses)] else [];
    var asset := if q.assetSymbol.Some? then [AssetIs(q.assetSymbol.value)] else [];
    var search := if q.search.Some? then [SearchHits(q.search.value)] else [];
    var bidder := if q.bidder.Some? then [HasBidder(q.bidder.value)] else [];
    MeetsBoth(text, t, row, statuses, asset);
    MeetsBoth(text, t, row, statuses + asset, search);
    MeetsBoth(text, t, row, statuses + asset + search, bidder);
    assert StatusIn(q.statuses) in [StatusIn(q.statuses)];
    assert q.assetSymbol.Some? ==> AssetIs(q.assetSymbol.value) in asset;
    assert q.search.Some? ==> SearchHits(q.search.value) in search;
    assert q.bidder.Some? ==> HasBidder(q.bidder.value) in bidder;
    if q.bidder.Some? {
      BidderByFields(text, t, row, q.bidder.value);
    }
  }

  /** Conditions that select a query's filter, row by row, in every table. */
  ghost predicate Selects(conditions: seq<Condition>, q: AuctionQuery) {
    forall text, t, row :: MeetsAll(text, t, row, conditions) <==> Matches(text, t, q, row)
  }

  lemma WhereIsMatching(text: TextRules, t: Tables, q: AuctionQuery, conditions: seq<Condition>)
    requires Selects(conditions, q)
    ensures Where(text, t, conditions) == Matching(text, t, q)
  {
    forall id | id in t.auctions
      ensures (forall c :: c in conditions ==> Meets(text, t, t.auctions[id], c))
         <==> Matches(text, t, q, t.auctions[id])
    {
      assert MeetsAll(text, t, t.auctions[id], conditions) <==> Matches(text, t, q, t.auctions[id]);
    }
  }

  lemma WhereIsAfter(text: TextRules, t: Tables, conditions: seq<Condition>, sort: Sort, cursor: Cursor)
    ensures Where(text, t, conditions + [IsAfter(sort, cursor)])
         == After(sort, Where(text, t, conditions), Some(cursor))
  {
    var more := conditions + [IsAfter(sort, cursor)];
    forall r ensures r in Where(text, t, more) <==> r in After(sort, Where(text, t, conditions), Some(cursor)) {
      assert IsAfter(sort, cursor) in more;
      assert forall c :: c in more <==> c in conditions || c == IsAfter(sort, cursor);
    }
  }

  lemma KeyedDistinct(text: TextRules, t: Tables, conditions: seq<Condition>)
    requires Keyed(t)
    ensures DistinctIds(Where(text, t, conditions))
  {
  }

  class AuctionStore {
    const text: TextRules
    var auctions: map<int, Row>
    var bids: map<(int, int), Address>
    var lastLedger: Option<int>
    var lastCursor: Option<string>

    ghost function Contents(): Tables
      reads this
    {
      Tables(auctions, bids, lastLedger, lastCursor)
    }

    /** The primary key: a row is stored under its own id. */
    ghost predicate Valid()
      reads this
    {
      Keyed(Contents())
    }

    constructor (text: TextRules)
      ensures Valid() && Contents() == EMPTY && this.text == text
    {
      this.text := text;
      auctions, bids, lastLedger, lastCursor := map[], map[], None, None;
    }

    method Upsert(core: Core)
      requires Valid()
      modifies this
      ensures Valid() && Contents() == UpsertCore(old(Contents()), core)
    {
      if core.id in auctions {
        auctions := auctions[core.id := auctions[core.id].(
          terms := core.terms, status := core.status, lotReclaimed := core.lotReclaimed)];
      } else {
        auctions := auctions[core.id := Row(core.id, core.terms, core.status, 0, core.lotReclaimed, None, None, None)];
      }
    }

    method Record(id: int, slot: int, bidder: Address)
      requires Valid()
      modifies this
      ensures Valid() && Contents() == RecordBid(old(Contents()), id, slot, bidder)
    {
      if (id, slot) !in bids {
        bids := bids[(id, slot) := bidder];
      }
      if id in auctions {
        auctions := auctions[id := auctions[id].(filledSlots := |SlotsOf(bids, id)|)];
      }
    }

    method Settle(id: int, clearingPrice: int, winner: Address, settleTx: Option<string>)
      requires Valid()
      modifies this
      ensures Valid() && Contents() == MarkSettled(old(Contents()), id, clearingPrice, winner, settleTx)
    {
      if id in auctions {
        auctions := auctions[id := auctions[id].(status := Settled, clearingPrice := Some(clearingPrice),
                                                 winner := Some(winner), settleTx := settleTx)];
      }
    }

    method Refund(id: int)
      requires Valid()
      modifies this
      ensures Valid() && Contents() == MarkRefunded(old(Contents()), id)
    {
      if id in auctions {
        auctions := auctions[id := auctions[id].(status := Refunded)];
      }
    }

    method SetReclaimed(id: int, reclaimed: bool)
      requires Valid()
      modifies this
      ensures Valid() && Contents() == SetLotReclaimed(old(Contents()), id, reclaimed)
    {
      if id in auctions {
        auctions := auctions[id := auctions[id].(lotReclaimed := reclaimed)];
      }
    }

    method SetCursor(ledger: Option<int>, cursor: Option<string>)
      requires Valid()
      modifies this
      ensures Valid() && Contents() == old(Contents()).(lastLedger := ledger, lastCursor := cursor)
    {
      lastLedger, lastCursor := ledger, cursor;
    }

    /** query: push the conditions, count, read one row more than the limit. */
    method Query(q: AuctionQuery) returns (page: Page, totalCount: nat)
      requires Valid() && q.limit >= 1
      ensures
        var rows := Matching(text, Contents(), q);
        DistinctIds(rows) && page == Fetch(q.sort, rows, q.cursor, q.limit) && totalCount == |rows|
      ensures
        var rows := Matching(text, Contents(), q);
        FirstOf(q.sort, rows, q.cursor, q.limit, page.rows) && NextOf(q.sort, rows, q.cursor, page)
    {
      var t := Tables(auctions, bids, lastLedger, lastCursor);
      var conditions := PushConditions(q);
      WhereIsMatching(text, t, q, conditions);
      KeyedDistinct(text, t, conditions);
      totalCount := |Where(text, t, conditions)|;
      var pageConditions := conditions;
      if q.cursor.Some? {
        pageConditions := pageConditions + [IsAfter(q.sort, q.cursor.value)];
        WhereIsAfter(text, t, conditions, q.sort, q.cursor.value);
      }
      KeyedDistinct(text, t, pageConditions);
      var selected := Where(text, t, pageConditions);
      assert selected == After(q.sort, Matching(text, t, q), q.cursor);
      page := ReadPage(q.sort, Sorted(q.sort, selected), q.limit);
      FetchByFields(q.sort, Matching(text, t, q), q.cursor, q.limit);
      CursorByFields(q.sort, Matching(text, t, q), q.cursor, q.limit);
    }
  }

  method PushConditions(q: AuctionQuery) returns (conditions: seq<Condition>)
    ensures Selects(conditions, q)
  {
    conditions := [];
    if 0 < |q.statuses| < 3 {
      conditions := conditions + [StatusIn(q.statuses)];
    }
    if q.assetSymbol.Some? {
      conditions := conditions + [AssetIs(q.assetSymbol.value)];
    }
    if q.search.Some? {
      conditions := conditions + [SearchHits(q.search.value)];
    }
    if q.bidder.Some? {
      conditions := conditions + [HasBidder(q.bidder.value)];
    }
    forall text, t, row ensures MeetsAll(text, t, row, conditions) <==> Matches(text, t, q, row) {
      ConditionsAreFilter(text, t, q, row);
    }
  }

  /** LIMIT limit + 1, then keep the limit and remember whether there was more. */
  method ReadPage(sort: Sort, ordered: seq<Row>, limit: nat) returns (page: Page)
    requires limit >= 1
    ensures page.rows == if |ordered| > limit then ordered[..limit] else ordered
    ensures page.nextCursor == if |ordered| > limit then Some(CursorOf(ordered[limit - 1], sort)) else None
  {
    var rows := if |ordered| > limit + 1 then ordered[..limit + 1] else ordered;
    var hasMore := |rows| > limit;
    var pageRows := if hasMore then rows[..limit] else rows;
    var next: Option<Cursor> := None;
    if hasMore {
      next := Some(CursorOf(pageRows[|pageRows| - 1], sort));
    }
    page := Page(pageRows, next);
  }

  datatype Enriched = Indexed | Missing | Skipped

  /** enrichAndUpsert: read, resolve both symbols, upsert, record each bid. */
  method EnrichAndUpsert(store: AuctionStore, id: int, reader: Reader) returns (outcome: Enriched)
    requires store.Valid()
    modifies store
    ensures store.Valid() && store.Contents() == Enrich(old(store.Contents()), id, reader(id))
    ensures outcome == Missing <==> reader(id).NotFound?
    ensures outcome == Indexed <==> Readable(reader(id))
  {
    var read := reader(id);
    if read.NotFound? { return Missing; }
    if read.Unreadable? { return Skipped; }
    var auction := read.auction;
    if read.lotSymbol.None? || read.paymentSymbol.None? { return Skipped; }
    var core := CoreOf(id, auction, read.lotSymbol.value, read.paymentSymbol.value);
    store.Upsert(core);
    ghost var upserted := store.Contents();
    for slot := 0 to |auction.bids|
      invariant store.Valid() && store.Contents() == RecordBids(upserted, id, auction.bids, slot)
    {
      store.Record(id, slot, auction.bids[slot].bidder);
    }
    outcome := Indexed;
  }

  /** applyEvent: one handler per event name. */
  method ApplyEvent(store: AuctionStore, e: IndexedEvent, reader: Reader)
    requires store.Valid()
    modifies store
    ensures store.Valid() && store.Contents() == Apply(old(store.Contents()), e, reader)
  {
    match e.event
    case AuctionCreated(id, _, _, _) =>
      if id !in store.auctions {
        var outcome := EnrichAndUpsert(store, id, reader);
      }
    case BidPlaced(id, slot, bidder, _, _) =>
      if e.wellTyped {
        store.Record(id, slot, bidder);
      }
    case AuctionSettled(id, winner, price) =>
      if e.wellTyped {
        store.Settle(id, price, winner, e.txHash);
      }
    case AuctionRefunded(id, _) => store.Refund(id);
    case LotReturnFailed(id, _, _) => store.SetReclaimed(id, false);
    case LotReclaimed(id, _, _) => store.SetReclaimed(id, true);
  }

  const EVENT_LOOKBACK_LEDGERS := 100_000

  /** Where to fetch from: the saved ledger, or a bounded way back. */
  function StartLedger(t: Tables, latest: int): int {
    match t.lastLedger
    case Some(saved) => saved
    case None => if latest - EVENT_LOOKBACK_LEDGERS > 1 then latest - EVENT_LOOKBACK_LEDGERS else 1
  }

  /** Events from a ledger on with the latest ledger, None when the call fails. */
  type Fetcher = int -> Option<(seq<IndexedEvent>, int)>

  /** syncEvents: ask for the latest ledger, fetch from where the last tick
      stopped, apply the events in order, save the ledger; a failed call leaves
      everything for the next tick. */
  method SyncEvents(store: AuctionStore, latest: Option<int>, fetch: Fetcher, reader: Reader)
    requires store.Valid()
    modifies store
    ensures store.Valid()
    ensures
      var before := old(store.Contents());
      if latest.None? || fetch(StartLedger(before, latest.value)).None? then store.Contents() == before
      else
        var (events, latestLedger) := fetch(StartLedger(before, latest.value)).value;
        store.Contents() == Replay(before, events, reader).(lastLedger := Some(latestLedger), lastCursor := None)
  {
    if latest.None? { return; }
    var startLedger :=
      if store.lastLedger.Some? then store.lastLedger.value
      else if latest.value - EVENT_LOOKBACK_LEDGERS > 1 then latest.value - EVENT_LOOKBACK_LEDGERS else 1;
    var fetched := fetch(startLedger);
    if fetched.None? { return; }
    var (events, latestLedger) := fetched.value;
    ghost var start := store.Contents();
    for i := 0 to |events|
      invariant store.Valid() && store.Contents() == Replay(start, events[..i], reader)
    {
      ApplyEvent(store, events[i], reader);
      assert events[..i + 1][..i] == events[..i];
    }
    assert events[..|events|] == events;
    store.SetCursor(Some(latestLedger), None);
  }

  /** The tables after the backfill probed ids 1 .. n. */
  function Backfilled(t: Tables, reader: Reader, n: nat): Tables {
    if n == 0 then t else Enrich(Backfilled(t, reader, n - 1), n, reader(n))
  }

  /** How many of the ids 1 .. n could be read. */
  function ReadableCount(reader: Reader, n: nat): nat {
    if n == 0 then 0 else ReadableCount(reader, n - 1) + (if Readable(reader(n)) then 1 else 0)
  }

  /** Ingestion keeps rows under their own ids, wherever it starts from. */
  lemma {:induction false} BackfilledKeyed(t: Tables, reader: Reader, n: nat)
    requires Keyed(t)
    ensures Keyed(Backfilled(t, reader, n))
  {
    if n == 0 {
    } else {
      BackfilledKeyed(t, reader, n - 1);
      EnrichKeyed(Backfilled(t, reader, n - 1), n, reader(n));
    }
  }

  /** backfill: probe ids from 1 until one is missing or the cap is reached. */
  method Backfill(store: AuctionStore, reader: Reader, maxId: nat) returns (indexedCount: nat, ghost last: nat)
    requires store.Valid()
    modifies store
    ensures store.Valid()
    ensures last <= maxId && store.Contents() == Backfilled(old(store.Contents()), reader, last)
    ensures indexedCount == ReadableCount(reader, last)
    ensures forall id :: 1 <= id <= last ==> !reader(id).NotFound?
    ensures last < maxId ==> reader(last + 1).NotFound?
  {
    ghost var start := store.Contents();
    indexedCount, last := 0, 0;
    var id := 1;
    while id <= maxId
      invariant last == id - 1 <= maxId
      invariant store.Valid() && store.Contents() == Backfilled(start, reader, last)
      invariant indexedCount == ReadableCount(reader, last)
      invariant forall k :: 1 <= k <= last ==> !reader(k).NotFound?
      decreases maxId - id
    {
      var outcome := EnrichAndUpsert(store, id, reader);
      if outcome == Missing { return; }
      if outcome == Indexed {
        indexedCount := indexedCount + 1;
      }
      last := id;
      id := id + 1;
    }
  }
}

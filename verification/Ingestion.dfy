/** The ingester as a whole: backfills, at the first start and at every restart,
    and syncs that fetch from the saved ledger on, while the chain moves. */
module Ingestion {
  import opened Options
  import opened Contract
  import opened IndexStore
  import opened IndexReplay
  import opened CatchUp

  // ------------------------------------------------------------------ ledgers

  /** The ledger numbers of the log's entries around a moment: what is logged up to
      then carries at most its height, what is logged since at least that. */
  ghost predicate Height(stamps: seq<int>, w: World, height: int) {
    forall i :: 0 <= i < |stamps| ==> if i < |w.events| then stamps[i] <= height else stamps[i] >= height
  }

  /** A complete fetch from a ledger on: events of the log, with the payloads the
      contract publishes, and all that carry at least that number. */
  ghost predicate FetchGives(events: seq<IndexedEvent>, fetched: World, stamps: seq<int>, start: int) {
    && |fetched.events| <= |stamps|
    && (forall i :: 0 <= i < |events| ==> events[i].wellTyped && events[i].event in fetched.events)
    && forall i :: 0 <= i < |fetched.events| && stamps[i] >= start ==> Replayed(events, fetched.events[i])
  }

  /** Fetching from the height of an earlier moment, or below, misses nothing
      since. */
  lemma FetchCovers(events: seq<IndexedEvent>, w: World, height: int, fetched: World, stamps: seq<int>, start: int)
    requires w.events <= fetched.events && Height(stamps, w, height)
    requires FetchGives(events, fetched, stamps, start) && start <= height
    ensures Covers(events, w, fetched)
  {
    forall e | e in fetched.events && e !in w.events ensures Replayed(events, e) {
      var i :| 0 <= i < |fetched.events| && fetched.events[i] == e;
      assert i < |w.events| ==> w.events[i] == e;
    }
  }

  /** Where a sync starts: at the saved ledger, or 100,000 ledgers back; so not
      above a height of at least 1 exactly when the saved one is not, or the latest
      is at most 100,000 above it. */
  lemma StartsInTime(t: Tables, latest: int, height: int)
    requires height >= 1
    ensures StartLedger(t, latest) <= height
       <==> (match t.lastLedger case Some(saved) => saved <= height case None => latest <= height + 100_000)
    ensures t.lastLedger == None ==> StartLedger(t, latest) >= 1 && StartLedger(t, latest) >= latest - 100_000
  {
  }

  // ------------------------------------------------------------------- rounds

  /** A backfill of the ids 1 .. n, or a sync: the latest ledger asked for first,
      what was fetched and when, the ledger saved; and when the last id was read. */
  datatype Round =
    | Backfilling(reader: Reader, n: nat, started: World, finished: World)
    | Syncing(latest: int, events: seq<IndexedEvent>, fetched: World, savedLedger: int, reader: Reader, finished: World)

  function Applied(t: Tables, round: Round): Tables {
    match round
    case Backfilling(reader, n, _, _) => Backfilled(t, reader, n)
    case Syncing(_, events, _, savedLedger, reader, _) =>
      Replay(t, events, reader).(lastLedger := Some(savedLedger), lastCursor := None)
  }

  function Ingested(rounds: seq<Round>): Tables {
    if rounds == [] then EMPTY else Applied(Ingested(rounds[..|rounds| - 1]), rounds[|rounds| - 1])
  }

  /** The moment of the last fetch, at first the beginning. */
  function LastFetch(w: World, rounds: seq<Round>): World {
    if rounds == [] then w
    else if rounds[|rounds| - 1].Syncing? then rounds[|rounds| - 1].fetched
    else LastFetch(w, rounds[..|rounds| - 1])
  }

  function LastFinish(w: World, rounds: seq<Round>): World {
    if rounds == [] then w else rounds[|rounds| - 1].finished
  }

  /** A round after others: it starts when they have finished and reads each id at
      its own moment; a sync fetches from its start ledger on, saves the height of
      the fetch, and the very first one comes within 100,000 ledgers of the
      beginning. */
  ghost predicate Next(host: Host, stamps: seq<int>, w: World, height: int, before: seq<Round>, round: Round) {
    var e, t := LastFinish(w, before), Ingested(before);
    match round
    case Backfilling(reader, n, started, finished) =>
      Since(host, e, started) && Since(host, started, finished) && Reads(host, reader, started, finished)
    case Syncing(latest, events, fetched, savedLedger, reader, finished) =>
      && Since(host, e, fetched) && Since(host, fetched, finished) && Reads(host, reader, fetched, finished)
      && FetchGives(events, fetched, stamps, StartLedger(t, latest))
      && Height(stamps, fetched, savedLedger) && savedLedger >= height
      && (t.lastLedger == None ==> latest <= height + 100_000)
  }

  ghost predicate Proceeds(host: Host, stamps: seq<int>, w: World, height: int, rounds: seq<Round>) {
    rounds != [] ==>
      && Proceeds(host, stamps, w, height, rounds[..|rounds| - 1])
      && Next(host, stamps, w, height, rounds[..|rounds| - 1], rounds[|rounds| - 1])
  }

  lemma {:induction false} BackfillKeepsLedger(t: Tables, reader: Reader, n: nat)
    ensures Backfilled(t, reader, n).lastLedger == t.lastLedger
  {
    if n == 0 {
    } else {
      BackfillKeepsLedger(t, reader, n - 1);
      var before, read := Backfilled(t, reader, n - 1), reader(n);
      if Readable(read) {
        var core := CoreOf(n, read.auction, read.lotSymbol.value, read.paymentSymbol.value);
        RecordKeepsLedger(UpsertCore(before, core), n, read.auction.bids, |read.auction.bids|);
      }
    }
  }

  lemma {:induction false} RecordKeepsLedger(t: Tables, id: int, bids: seq<Bid>, n: nat)
    requires n <= |bids|
    ensures RecordBids(t, id, bids, n).lastLedger == t.lastLedger
  {
    if n == 0 {
    } else {
      RecordKeepsLedger(t, id, bids, n - 1);
    }
  }

  /** The saved ledger is the height of the last fetch. */
  lemma {:induction false} SavedHeight(host: Host, stamps: seq<int>, w: World, height: int, rounds: seq<Round>)
    requires Proceeds(host, stamps, w, height, rounds) && Height(stamps, w, height)
    ensures
      match Ingested(rounds).lastLedger
      case None => LastFetch(w, rounds) == w
      case Some(saved) => saved >= height && Height(stamps, LastFetch(w, rounds), saved)
  {
    if rounds == [] {
    } else {
      var front, last := rounds[..|rounds| - 1], rounds[|rounds| - 1];
      SavedHeight(host, stamps, w, height, front);
      if last.Backfilling? {
        BackfillKeepsLedger(Ingested(front), last.reader, last.n);
      }
    }
  }

  /** So every sync covers all that was logged since the fetch before it. */
  lemma SyncCovers(host: Host, stamps: seq<int>, w: World, height: int, before: seq<Round>, round: Round)
    requires Proceeds(host, stamps, w, height, before) && Height(stamps, w, height) && height >= 1
    requires Next(host, stamps, w, height, before, round) && round.Syncing?
    requires LastFetch(w, before).events <= round.fetched.events
    ensures Covers(round.events, LastFetch(w, before), round.fetched)
  {
    SavedHeight(host, stamps, w, height, before);
    var t := Ingested(before);
    var since := match t.lastLedger case None => height case Some(saved) => saved;
    StartsInTime(t, round.latest, since);
    FetchCovers(round.events, LastFetch(w, before), since, round.fetched, stamps, StartLedger(t, round.latest));
  }

  // ---------------------------------------------------------------- freshness

  /** The index is of now after every round: each row is as its auction was at some
      moment since the last fetch. */
  lemma {:induction false} CatchesUp(host: Host, stamps: seq<int>, w: World, height: int, rounds: seq<Round>)
    requires Reachable(host, w) && Height(stamps, w, height) && height >= 1
    requires Proceeds(host, stamps, w, height, rounds)
    ensures
      var fetched, finished := LastFetch(w, rounds), LastFinish(w, rounds);
      && Reachable(host, fetched) && Since(host, fetched, finished)
      && UpToDate(host, Ingested(rounds), fetched, finished)
  {
    if rounds == [] {
      SinceItself(host, w);
    } else {
      var front, last := rounds[..|rounds| - 1], rounds[|rounds| - 1];
      CatchesUp(host, stamps, w, height, front);
      OneRound(host, stamps, w, height, front, last);
    }
  }

  lemma OneRound(host: Host, stamps: seq<int>, w: World, height: int, before: seq<Round>, round: Round)
    requires Height(stamps, w, height) && height >= 1
    requires Proceeds(host, stamps, w, height, before) && Next(host, stamps, w, height, before, round)
    requires Reachable(host, LastFetch(w, before)) && Since(host, LastFetch(w, before), LastFinish(w, before))
    requires UpToDate(host, Ingested(before), LastFetch(w, before), LastFinish(w, before))
    ensures
      var fetched := if round.Syncing? then round.fetched else LastFetch(w, before);
      && Reachable(host, fetched) && Since(host, fetched, round.finished)
      && UpToDate(host, Applied(Ingested(before), round), fetched, round.finished)
    ensures forall id :: id in Ingested(before).auctions ==> id in Applied(Ingested(before), round).auctions
  {
    var w', e, t := LastFetch(w, before), LastFinish(w, before), Ingested(before);
    match round
    case Backfilling(reader, n, started, finished) =>
      BackfillKeepsUpToDate(host, t, w', e, reader, n, started, finished);
      SinceTransitive(host, e, started, finished);
      SinceTransitive(host, w', e, finished);
    case Syncing(_, events, fetched, savedLedger, reader, finished) =>
      SinceTransitive(host, w', e, fetched);
      SinceFollows(host, w', fetched);
      SyncCovers(host, stamps, w, height, before, round);
      SyncKeepsUpToDate(host, t, w', e, events, reader, fetched, finished);
      CursorAside(host, Replay(t, events, reader), savedLedger, fetched, finished);
  }

  lemma CursorAside(host: Host, t: Tables, savedLedger: int, w: World, e: World)
    requires UpToDate(host, t, w, e)
    ensures UpToDate(host, t.(lastLedger := Some(savedLedger), lastCursor := None), w, e)
  {
    var t' := t.(lastLedger := Some(savedLedger), lastCursor := None);
    forall id ensures if id in t'.auctions then AgreedAt(host, t', id, w, e) else BidsTrueOf(t', id, w) {
      if id in t.auctions {
        var a :| WasFound(host, w, e, id, a) && Agrees(t, id, a);
        assert Agrees(t', id, a);
      }
    }
  }

  // ------------------------------------------------------------- completeness

  predicate Complete(t: Tables, w: World) {
    forall id :: id in w.auctions ==> id in t.auctions
  }

  ghost predicate NoReadFails(reader: Reader) {
    forall id {:trigger reader(id)} :: reader(id).NotFound? || Readable(reader(id))
  }

  /** A backfill that probed up to the first missing id. */
  ghost predicate ToTheEnd(round: Round) {
    && round.Backfilling? && round.reader(round.n + 1).NotFound?
    && forall id :: 1 <= id <= round.n ==> !round.reader(id).NotFound?
  }

  /** What was there before the reads is found or fails, it is never missing. */
  lemma NeverMissing(host: Host, w: World, e: World, reader: Reader, id: int)
    requires Reachable(host, w) && Reads(host, reader, w, e) && id in w.auctions
    ensures !reader(id).NotFound?
  {
    if reader(id).NotFound? {
      var m :| Moment(host, w, m, e) && id !in m.auctions;
      SinceFollows(host, w, m);
    }
  }

  lemma FirstBackfillCompletes(host: Host, w: World, round: Round)
    requires Reachable(host, w) && ToTheEnd(round) && NoReadFails(round.reader)
    requires Since(host, w, round.started) && Reads(host, round.reader, round.started, round.finished)
    ensures Complete(Backfilled(EMPTY, round.reader, round.n), w)
  {
    SinceFollows(host, w, round.started);
    var m :| Moment(host, round.started, m, round.finished) && round.n + 1 !in m.auctions;
    SinceFollows(host, round.started, m);
    forall id | id in w.auctions ensures id in Backfilled(EMPTY, round.reader, round.n).auctions {
      NeverMissing(host, round.started, round.finished, round.reader, id);
      BackfilledExactly(EMPTY, round.reader, round.n, id);
    }
  }

  lemma SyncCompletes(host: Host, t: Tables, w: World, round: Round)
    requires round.Syncing? && Reachable(host, w) && Since(host, w, round.fetched)
    requires Covers(round.events, w, round.fetched) && Reads(host, round.reader, round.fetched, round.finished)
    requires Complete(t, w) && NoReadFails(round.reader)
    ensures Complete(Applied(t, round), round.fetched)
  {
    SinceFollows(host, w, round.fetched);
    ReachableLogsCreations(host, round.fetched);
    forall id | id in round.fetched.auctions ensures id in Applied(t, round).auctions {
      NeverMissing(host, round.fetched, round.finished, round.reader, id);
      IndexedExactly(t, round.events, round.reader, id);
      if id !in w.auctions {
        var created :| created in round.fetched.events && created.AuctionCreated? && created.auctionId == id;
        assert created !in w.events;
      }
    }
  }

  /** As long as no read fails, and the first backfill ran to the first missing id,
      every auction there was at the last fetch is indexed. */
  lemma {:induction false} MissesNothing(host: Host, stamps: seq<int>, w: World, height: int, rounds: seq<Round>)
    requires Reachable(host, w) && Height(stamps, w, height) && height >= 1
    requires Proceeds(host, stamps, w, height, rounds) && rounds != [] && ToTheEnd(rounds[0])
    requires forall i :: 0 <= i < |rounds| ==> NoReadFails(rounds[i].reader)
    ensures Complete(Ingested(rounds), LastFetch(w, rounds))
  {
    var front, last := rounds[..|rounds| - 1], rounds[|rounds| - 1];
    if front == [] {
      assert Ingested(front) == EMPTY && LastFinish(w, front) == w;
      FirstBackfillCompletes(host, w, last);
    } else {
      MissesNothing(host, stamps, w, height, front);
      CatchesUp(host, stamps, w, height, front);
      OneRound(host, stamps, w, height, front, last);
      if last.Syncing? {
        SinceTransitive(host, LastFetch(w, front), LastFinish(w, front), last.fetched);
        SinceFollows(host, LastFetch(w, front), last.fetched);
        SyncCovers(host, stamps, w, height, front, last);
        SyncCompletes(host, Ingested(front), LastFetch(w, front), last);
      }
    }
  }

  // ------------------------------------------------------- what gets indexed

  /** The round could read the auction when it came to it. */
  ghost predicate Indexes(round: Round, id: int) {
    && Readable(round.reader(id))
    && match round
       case Backfilling(_, n, _, _) => 1 <= id <= n
       case Syncing(_, events, _, _, _, _) =>
         exists e :: Replayed(events, e) && e.AuctionCreated? && e.auctionId == id
  }

  lemma {:induction false} BackfilledExactly(t: Tables, reader: Reader, n: nat, id: int)
    ensures id in Backfilled(t, reader, n).auctions <==> id in t.auctions || (1 <= id <= n && Readable(reader(id)))
  {
    if n == 0 {
    } else {
      BackfilledExactly(t, reader, n - 1, id);
      EnrichRows(Backfilled(t, reader, n - 1), n, reader(n));
    }
  }

  lemma IndexedByRound(t: Tables, round: Round, id: int)
    ensures id in Applied(t, round).auctions <==> id in t.auctions || Indexes(round, id)
  {
    match round
    case Backfilling(reader, n, _, _) => BackfilledExactly(t, reader, n, id);
    case Syncing(_, events, _, _, reader, _) => IndexedExactly(t, events, reader, id);
  }

  /** Which auctions end up in the index: those that some backfill probed, or whose
      creation some sync fetched, and that could then be read. */
  lemma {:induction false} IngestedExactly(rounds: seq<Round>, id: int)
    ensures id in Ingested(rounds).auctions <==> exists k :: 0 <= k < |rounds| && Indexes(rounds[k], id)
  {
    if rounds == [] {
    } else {
      var front, last := rounds[..|rounds| - 1], rounds[|rounds| - 1];
      IngestedExactly(front, id);
      IndexedByRound(Ingested(front), last, id);
      if k :| 0 <= k < |rounds| && Indexes(rounds[k], id) {
        assert k < |front| ==> front[k] == rounds[k];
      }
      if k :| 0 <= k < |front| && Indexes(front[k], id) {
        assert rounds[k] == front[k];
      }
    }
  }

  lemma {:induction false} RecordKeepsTerms(t: Tables, id: int, bids: seq<Bid>, n: nat, other: int)
    requires n <= |bids| && other in t.auctions
    ensures other in RecordBids(t, id, bids, n).auctions
    ensures RecordBids(t, id, bids, n).auctions[other].terms == t.auctions[other].terms
  {
    if n == 0 {
    } else {
      RecordKeepsTerms(t, id, bids, n - 1, other);
    }
  }

  lemma EnrichedTerms(t: Tables, n: int, read: ChainRead, id: int)
    ensures
      var t' := Enrich(t, n, read);
      && (id == n && Readable(read) ==> id in t'.auctions && SymbolsOf(t'.auctions[id], read))
      && (id in t.auctions && !(id == n && Readable(read)) ==>
            id in t'.auctions && t'.auctions[id].terms == t.auctions[id].terms)
  {
    if Readable(read) {
      var upserted := UpsertCore(t, CoreOf(n, read.auction, read.lotSymbol.value, read.paymentSymbol.value));
      if id in upserted.auctions {
        RecordKeepsTerms(upserted, n, read.auction.bids, |read.auction.bids|, id);
      }
    }
  }

  lemma {:induction false} BackfilledTerms(t: Tables, reader: Reader, n: nat, id: int)
    requires id in t.auctions || (1 <= id <= n && Readable(reader(id)))
    ensures
      var t' := Backfilled(t, reader, n);
      && id in t'.auctions
      && if 1 <= id <= n && Readable(reader(id)) then SymbolsOf(t'.auctions[id], reader(id))
         else t'.auctions[id].terms == t.auctions[id].terms
  {
    if n == 0 {
    } else {
      BackfilledExactly(t, reader, n - 1, id);
      if id in Backfilled(t, reader, n - 1).auctions {
        BackfilledTerms(t, reader, n - 1, id);
      }
      EnrichedTerms(Backfilled(t, reader, n - 1), n, reader(n), id);
    }
  }

  lemma {:induction false} ReplayedTerms(t: Tables, events: seq<IndexedEvent>, reader: Reader, id: int)
    requires id in Replay(t, events, reader).auctions
    ensures
      var row := Replay(t, events, reader).auctions[id];
      if id in t.auctions then row.terms == t.auctions[id].terms else SymbolsOf(row, reader(id))
  {
    if events == [] {
    } else {
      var front, last := events[..|events| - 1], events[|events| - 1];
      var before := Replay(t, front, reader);
      IndexedByOne(before, last, reader, id);
      if id in before.auctions {
        ReplayedTerms(t, front, reader, id);
        OneWriter(before, last, reader, id);
      } else {
        IndexedExactly(t, front, reader, id);
        EnrichedTerms(before, id, reader(id), id);
      }
    }
  }

  /** Every row carries the symbols that one of the rounds that index it read. */
  lemma {:induction false} SymbolsRead(rounds: seq<Round>, id: int)
    requires id in Ingested(rounds).auctions
    ensures exists k :: 0 <= k < |rounds| && Indexes(rounds[k], id)
                        && SymbolsOf(Ingested(rounds).auctions[id], rounds[k].reader(id))
  {
    var front, last := rounds[..|rounds| - 1], rounds[|rounds| - 1];
    var t := Ingested(front);
    IndexedByRound(t, last, id);
    match last {
      case Backfilling(reader, n, _, _) => BackfilledTerms(t, reader, n, id);
      case Syncing(_, events, _, _, reader, _) => ReplayedTerms(t, events, reader, id);
    }
    if SymbolsOf(Ingested(rounds).auctions[id], last.reader(id)) && Indexes(last, id) {
      assert Indexes(rounds[|rounds| - 1], id);
    } else {
      SymbolsRead(front, id);
      var k :| 0 <= k < |front| && Indexes(front[k], id) && SymbolsOf(t.auctions[id], front[k].reader(id));
      assert rounds[k] == front[k];
    }
  }
}

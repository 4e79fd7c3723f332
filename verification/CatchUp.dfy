/** What one backfill and one sync do to the index while the chain moves on. */
module CatchUp {
  import opened Options
  import opened Contract
  import opened Lifecycle
  import opened Escrow
  import opened IndexTables
  import opened IndexStore
  import opened IndexReplay
  import Payout

  // ----------------------------------------------------------------- moments

  ghost predicate Since(host: Host, w: World, w': World) {
    exists calls: seq<Call> :: Run(host, w, calls) == w'
  }

  /** A moment of the chain between two others. */
  ghost predicate Moment(host: Host, w: World, m: World, w': World) {
    Since(host, w, m) && Since(host, m, w')
  }

  lemma SinceItself(host: Host, w: World)
    ensures Since(host, w, w)
  {
    assert Run(host, w, []) == w;
  }

  lemma SinceTransitive(host: Host, w0: World, w1: World, w2: World)
    requires Since(host, w0, w1) && Since(host, w1, w2)
    ensures Since(host, w0, w2)
  {
    var first: seq<Call> :| Run(host, w0, first) == w1;
    var second: seq<Call> :| Run(host, w1, second) == w2;
    Payout.RunComposes(host, w0, first, second);
  }

  lemma SinceFollows(host: Host, w: World, w': World)
    requires Reachable(host, w) && Since(host, w, w')
    ensures Reachable(host, w') && Follows(w, w') && DenseIds(w) && Logged(w) && Logged(w')
  {
    var calls: seq<Call> :| Run(host, w, calls) == w';
    ReachableAccounted(host, w);
    RunMovesForward(host, w, calls);
    Payout.StaysReachable(host, w, calls);
    ReachableLogged(host, w);
    ReachableLogged(host, w');
  }

  // ------------------------------------------------------------------- reads

  /** An auction as it was read at some moment. */
  ghost predicate WasFound(host: Host, w: World, w': World, id: int, a: Auction) {
    exists m :: Moment(host, w, m, w') && id in m.auctions && m.auctions[id] == a
  }

  ghost predicate WasMissing(host: Host, w: World, w': World, id: int) {
    exists m :: Moment(host, w, m, w') && id !in m.auctions
  }

  /** Every id is read at a moment of its own between the two: what is found was
      on chain then, what is missing was not; a read may also fail. */
  ghost predicate Reads(host: Host, reader: Reader, w: World, w': World) {
    forall id {:trigger reader(id)} ::
      match reader(id)
      case NotFound => WasMissing(host, w, w', id)
      case Unreadable => true
      case Found(a, _, _) => WasFound(host, w, w', id, a)
  }

  /** Every bid recorded for the auction is on chain. */
  ghost predicate BidsTrueOf(t: Tables, id: int, w: World) {
    forall slot :: (id, slot) in t.bids ==> id in w.auctions && TrueBids(t, id, w.auctions[id])
  }

  /** The row and its bids are the auction's at some moment between the two. */
  ghost predicate AgreedAt(host: Host, t: Tables, id: int, w: World, w': World) {
    exists a :: WasFound(host, w, w', id, a) && Agrees(t, id, a)
  }

  /** The index is of now: every row agrees with its auction at some moment since
      w, and nothing false of w is recorded for the others. */
  ghost predicate UpToDate(host: Host, t: Tables, w: World, w': World) {
    forall id :: if id in t.auctions then AgreedAt(host, t, id, w, w') else BidsTrueOf(t, id, w)
  }

  /** If its record did not change in between, the row agrees with it. */
  lemma AgreedWhenStill(host: Host, t: Tables, id: int, w: World, w': World)
    requires Reachable(host, w) && AgreedAt(host, t, id, w, w')
    ensures id in w'.auctions
    ensures id in w.auctions && w.auctions[id] == w'.auctions[id] ==> Agrees(t, id, w'.auctions[id])
  {
    var a :| WasFound(host, w, w', id, a) && Agrees(t, id, a);
    var m :| Moment(host, w, m, w') && id in m.auctions && m.auctions[id] == a;
    SinceFollows(host, w, m);
    SinceFollows(host, m, w');
    if id in w.auctions && w.auctions[id] == w'.auctions[id] {
      assert Later(w.auctions[id], a, w.now) && Later(a, w'.auctions[id], m.now);
      assert a.bids == w'.auctions[id].bids;
    }
  }

  // ---------------------------------------------------------------- backfill

  lemma EnrichUntouched(t: Tables, other: int, read: ChainRead, id: int)
    requires id != other
    ensures Untouched(t, Enrich(t, other, read), id)
  {
    if Readable(read) {
      var core := CoreOf(other, read.auction, read.lotSymbol.value, read.paymentSymbol.value);
      RecordBidsUntouched(UpsertCore(t, core), other, read.auction.bids, |read.auction.bids|, id);
    }
  }

  /** What a row or a rowless auction must be like for a later read of it to settle
      the matter: its bids are true of what is read. */
  ghost predicate ReadsOn(t: Tables, id: int, read: ChainRead) {
    read.Found? ==>
      && TrueBids(t, id, read.auction)
      && (id in t.auctions ==> t.auctions[id].id == id && t.auctions[id].filledSlots == |SlotsOf(t.bids, id)|)
  }

  /** A backfill writes exactly the readable auctions it probes, each as it was on
      chain when it was read, with the symbols read; the rest it leaves alone, and
      settlement columns it always leaves alone. */
  lemma {:induction false} BackfilledAgrees(t: Tables, reader: Reader, n: nat, id: int)
    requires ReadsOn(t, id, reader(id))
    ensures
      var t' := Backfilled(t, reader, n);
      if 1 <= id <= n && Readable(reader(id)) then
        && Agrees(t', id, reader(id).auction) && SymbolsOf(t'.auctions[id], reader(id))
        && (id in t.auctions ==> SameSettlement(t'.auctions[id], t.auctions[id]))
      else Untouched(t, t', id)
  {
    if n == 0 {
    } else {
      BackfilledAgrees(t, reader, n - 1, id);
      var before, read := Backfilled(t, reader, n - 1), reader(n);
      if n != id {
        EnrichUntouched(before, n, read, id);
      } else if Readable(read) {
        SlotsOfUntouched(t, before, id);
        EnrichAgrees(before, id, read.auction, read.lotSymbol.value, read.paymentSymbol.value);
      }
    }
  }

  /** The symbols of a row are the ones that were read. */
  predicate SymbolsOf(row: Row, read: ChainRead) {
    Readable(read) && read.lotSymbol == Some(row.terms.lotSymbol) && read.paymentSymbol == Some(row.terms.paymentSymbol)
  }

  lemma AgreesReadsOn(t: Tables, id: int, a: Auction, a': Auction)
    requires Agrees(t, id, a) && a.bids <= a'.bids
    ensures TrueBids(t, id, a')
    ensures t.auctions[id].id == id && t.auctions[id].filledSlots == |SlotsOf(t.bids, id)|
  {
    SlotsOfAgreeing(t, id, |a.bids|);
  }

  lemma RowReadsOn(host: Host, t: Tables, w: World, e: World, m: World, id: int)
    requires Reachable(host, w) && AgreedAt(host, t, id, w, e) && Since(host, e, m)
    ensures id in m.auctions && TrueBids(t, id, m.auctions[id])
    ensures t.auctions[id].id == id && t.auctions[id].filledSlots == |SlotsOf(t.bids, id)|
  {
    var a :| WasFound(host, w, e, id, a) && Agrees(t, id, a);
    var m0 :| Moment(host, w, m0, e) && id in m0.auctions && m0.auctions[id] == a;
    SinceFollows(host, w, m0);
    SinceTransitive(host, m0, e, m);
    SinceFollows(host, m0, m);
    AgreesReadsOn(t, id, a, m.auctions[id]);
  }

  /** Whatever is recorded of an auction is true of it whenever it is read later. */
  lemma LaterReadsOn(host: Host, t: Tables, w: World, e: World, started: World, finished: World, reader: Reader,
                     id: int)
    requires Reachable(host, w) && Since(host, w, e) && UpToDate(host, t, w, e)
    requires Since(host, e, started) && Reads(host, reader, started, finished)
    ensures ReadsOn(t, id, reader(id))
  {
    if reader(id).Found? {
      var m :| Moment(host, started, m, finished) && id in m.auctions && m.auctions[id] == reader(id).auction;
      SinceTransitive(host, e, started, m);
      if id in t.auctions {
        RowReadsOn(host, t, w, e, m, id);
      } else {
        SinceTransitive(host, w, e, m);
        BidsStayTrue(host, t, id, w, m);
      }
    }
  }

  lemma WasFoundWithin(host: Host, w: World, started: World, finished: World, id: int, a: Auction)
    requires Since(host, w, started) && WasFound(host, started, finished, id, a)
    ensures WasFound(host, w, finished, id, a)
  {
    var m :| Moment(host, started, m, finished) && id in m.auctions && m.auctions[id] == a;
    SinceTransitive(host, w, started, m);
    assert Moment(host, w, m, finished);
  }

  lemma StillFound(host: Host, w: World, e: World, finished: World, id: int, a: Auction)
    requires Since(host, e, finished) && WasFound(host, w, e, id, a)
    ensures WasFound(host, w, finished, id, a)
  {
    var m :| Moment(host, w, m, e) && id in m.auctions && m.auctions[id] == a;
    SinceTransitive(host, m, e, finished);
    assert Moment(host, w, m, finished);
  }

  /** A backfill, of an empty store or at a restart, keeps the index of now. */
  lemma BackfillKeepsUpToDate(host: Host, t: Tables, w: World, e: World, reader: Reader, n: nat, started: World,
                              finished: World)
    requires Reachable(host, w) && Since(host, w, e) && UpToDate(host, t, w, e)
    requires Since(host, e, started) && Since(host, started, finished) && Reads(host, reader, started, finished)
    ensures UpToDate(host, Backfilled(t, reader, n), w, finished)
    ensures forall id :: id in t.auctions ==> id in Backfilled(t, reader, n).auctions
  {
    var t' := Backfilled(t, reader, n);
    SinceTransitive(host, w, e, started);
    SinceTransitive(host, e, started, finished);
    forall id
      ensures if id in t'.auctions then AgreedAt(host, t', id, w, finished) else BidsTrueOf(t', id, w)
      ensures id in t.auctions ==> id in t'.auctions
    {
      LaterReadsOn(host, t, w, e, started, finished, reader, id);
      BackfilledAgrees(t, reader, n, id);
      if 1 <= id <= n && Readable(reader(id)) {
        WasFoundWithin(host, w, started, finished, id, reader(id).auction);
      } else if id in t.auctions {
        var a :| WasFound(host, w, e, id, a) && Agrees(t, id, a);
        StillFound(host, w, e, finished, id, a);
        assert Agrees(t', id, a);
      }
    }
  }

  // ------------------------------------------------------------------ replay

  lemma CoversSince(events: seq<IndexedEvent>, w: World, m: World, w': World)
    requires Covers(events, w, w') && w.events <= m.events
    ensures Covers(events, m, w')
  {
    assert forall e :: e in w.events ==> e in m.events;
  }

  /** A row indexed before the fetch is brought to the moment of the fetch. */
  lemma OldRow(host: Host, t: Tables, w: World, e: World, fetched: World, events: seq<IndexedEvent>, reader: Reader,
               id: int)
    requires Reachable(host, w) && AgreedAt(host, t, id, w, e) && Since(host, e, fetched) && Covers(events, w, fetched)
    ensures id in fetched.auctions && Agrees(Replay(t, events, reader), id, fetched.auctions[id])
  {
    var a :| WasFound(host, w, e, id, a) && Agrees(t, id, a);
    var m :| Moment(host, w, m, e) && id in m.auctions && m.auctions[id] == a;
    SinceFollows(host, w, m);
    SinceTransitive(host, m, e, fetched);
    CoversSince(events, w, m, fetched);
    var calls: seq<Call> :| Run(host, m, calls) == fetched;
    ReplayAgrees(host, m, calls, t, events, reader, id);
  }

  /** What holds during the replay of an auction that had no row at the fetch:
      once it is read, the row agrees with what was read. */
  ghost predicate FreshRow(t: Tables, id: int, fetched: World, read: ChainRead) {
    if id in t.auctions then read.Found? && Agrees(t, id, read.auction) else BidsTrueOf(t, id, fetched)
  }

  /** The read came after the fetch. */
  ghost predicate ReadLater(id: int, fetched: World, read: ChainRead) {
    id in fetched.auctions && read.Found? ==> Later(fetched.auctions[id], read.auction, fetched.now)
  }

  lemma ReadsLater(host: Host, reader: Reader, fetched: World, e: World, id: int)
    requires Reachable(host, fetched) && Reads(host, reader, fetched, e)
    ensures ReadLater(id, fetched, reader(id))
  {
    if id in fetched.auctions && reader(id).Found? {
      var m :| Moment(host, fetched, m, e) && id in m.auctions && m.auctions[id] == reader(id).auction;
      SinceFollows(host, fetched, m);
    }
  }

  lemma EnrichFresh(t: Tables, id: int, fetched: World, read: ChainRead)
    requires id !in t.auctions && BidsTrueOf(t, id, fetched) && ReadLater(id, fetched, read)
    ensures FreshRow(Enrich(t, id, read), id, fetched, read)
  {
    if Readable(read) {
      EnrichAgrees(t, id, read.auction, read.lotSymbol.value, read.paymentSymbol.value);
    }
  }

  lemma ApplyFresh(t: Tables, e: IndexedEvent, reader: Reader, id: int, fetched: World)
    requires FreshRow(t, id, fetched, reader(id)) && ReadLater(id, fetched, reader(id))
    requires e.wellTyped && (e.event.auctionId == id ==> id in fetched.auctions)
    requires id in fetched.auctions ==> Consistent(e.event, id, fetched.auctions[id])
    ensures FreshRow(Apply(t, e, reader), id, fetched, reader(id))
  {
    var t' := Apply(t, e, reader);
    if e.event.auctionId != id || (e.event.AuctionCreated? && id in t.auctions) {
      ApplyUntouched(t, e, reader, id);
    } else if e.event.AuctionCreated? {
      EnrichFresh(t, id, fetched, reader(id));
    } else if e.event.BidPlaced? && id in t.auctions {
      SlotsOfAgreeing(t', id, |reader(id).auction.bids|);
    }
  }

  lemma {:induction false} ReplayFresh(t: Tables, events: seq<IndexedEvent>, reader: Reader, id: int, fetched: World)
    requires FreshRow(t, id, fetched, reader(id)) && ReadLater(id, fetched, reader(id))
    requires Logged(fetched)
    requires forall i :: 0 <= i < |events| ==> events[i].wellTyped && events[i].event in fetched.events
    ensures FreshRow(Replay(t, events, reader), id, fetched, reader(id))
  {
    if events == [] {
    } else {
      var front, last := events[..|events| - 1], events[|events| - 1];
      ReplayFresh(t, front, reader, id, fetched);
      assert last.event in fetched.events;
      ApplyFresh(Replay(t, front, reader), last, reader, id, fetched);
    }
  }

  lemma EnrichRows(t: Tables, id: int, read: ChainRead)
    ensures Enrich(t, id, read).auctions.Keys == t.auctions.Keys + (if Readable(read) then {id} else {})
  {
    if Readable(read) {
      var core := CoreOf(id, read.auction, read.lotSymbol.value, read.paymentSymbol.value);
      RecordBidsRows(UpsertCore(t, core), id, read.auction.bids, |read.auction.bids|);
    }
  }

  lemma IndexedByOne(t: Tables, e: IndexedEvent, reader: Reader, id: int)
    ensures id in Apply(t, e, reader).auctions <==>
              id in t.auctions || (Readable(reader(id)) && e.event.AuctionCreated? && e.event.auctionId == id)
  {
    if e.event.AuctionCreated? {
      EnrichRows(t, e.event.auctionId, reader(e.event.auctionId));
    }
  }

  lemma {:induction false} RecordBidsRows(t: Tables, id: int, bids: seq<Bid>, n: nat)
    requires n <= |bids|
    ensures RecordBids(t, id, bids, n).auctions.Keys == t.auctions.Keys
  {
    if n == 0 {
    } else {
      RecordBidsRows(t, id, bids, n - 1);
    }
  }

  /** Which auctions a sync indexes: those it knew, and those whose creation it
      replayed and could then read. */
  lemma {:induction false} IndexedExactly(t: Tables, events: seq<IndexedEvent>, reader: Reader, id: int)
    ensures id in Replay(t, events, reader).auctions <==>
              || id in t.auctions
              || (Readable(reader(id)) && exists e :: Replayed(events, e) && e.AuctionCreated? && e.auctionId == id)
  {
    if events == [] {
    } else {
      var front, last := events[..|events| - 1], events[|events| - 1];
      IndexedExactly(t, front, reader, id);
      forall e ensures Replayed(events, e) <==> Replayed(front, e) || e == last.event {
        ReplayedLast(events, e);
      }
      IndexedByOne(Replay(t, front, reader), last, reader, id);
    }
  }

  // ---------------------------------------------------- every auction is logged

  ghost predicate CreationsLogged(w: World) {
    forall id :: id in w.auctions ==> exists e :: e in w.events && e.AuctionCreated? && e.auctionId == id
  }

  lemma ChangeLogsCreations(host: Host, w: World, w': World, c: Change)
    requires DenseIds(w) && CreationsLogged(w) && Made(host, w, w', c)
    ensures CreationsLogged(w')
  {
    ChangeMovesForward(host, w, w', c);
    forall id | id in w'.auctions ensures exists e :: e in w'.events && e.AuctionCreated? && e.auctionId == id {
      if id in w.auctions {
        var e :| e in w.events && e.AuctionCreated? && e.auctionId == id;
        assert e in w'.events;
      } else {
        var e := w'.events[|w'.events| - 1];
        assert e.AuctionCreated? && e.auctionId == id;
      }
    }
  }

  lemma {:induction false} RunLogsCreations(host: Host, w: World, calls: seq<Call>)
    requires DenseIds(w) && CreationsLogged(w)
    ensures CreationsLogged(Run(host, w, calls))
  {
    if calls == [] {
    } else {
      var before := Run(host, w, calls[..|calls| - 1]);
      RunLogsCreations(host, w, calls[..|calls| - 1]);
      RunMovesForward(host, w, calls[..|calls| - 1]);
      var c := StepChange(host, before, calls[|calls| - 1]);
      ChangeLogsCreations(host, before, Run(host, w, calls), c);
    }
  }

  lemma ReachableLogsCreations(host: Host, w: World)
    requires Reachable(host, w)
    ensures CreationsLogged(w)
  {
    var start, calls :| Deployed(host, start) && Run(host, start, calls) == w;
    RunLogsCreations(host, start, calls);
  }

  // -------------------------------------------------------------------- syncs

  /** Bids true of a moment are true of every later one. */
  lemma BidsStayTrue(host: Host, t: Tables, id: int, w: World, w': World)
    requires Reachable(host, w) && Since(host, w, w') && BidsTrueOf(t, id, w)
    ensures BidsTrueOf(t, id, w')
  {
    SinceFollows(host, w, w');
    if id in w.auctions {
      assert Later(w.auctions[id], w'.auctions[id], w.now);
    }
  }

  /** A row first read during the replay is of the moment it was read. */
  lemma NewRow(host: Host, t: Tables, w: World, fetched: World, e: World, events: seq<IndexedEvent>, reader: Reader,
               id: int)
    requires Reachable(host, w) && Since(host, w, fetched)
    requires id !in t.auctions && BidsTrueOf(t, id, w) && Covers(events, w, fetched) && Reads(host, reader, fetched, e)
    ensures
      var t' := Replay(t, events, reader);
      && (if id in t'.auctions then AgreedAt(host, t', id, fetched, e) else BidsTrueOf(t', id, fetched))
      && (id in fetched.auctions && id !in w.auctions && Readable(reader(id)) ==> id in t'.auctions)
  {
    SinceFollows(host, w, fetched);
    BidsStayTrue(host, t, id, w, fetched);
    ReadsLater(host, reader, fetched, e, id);
    ReplayFresh(t, events, reader, id, fetched);
    if id in fetched.auctions && id !in w.auctions {
      ReachableLogsCreations(host, fetched);
      var created :| created in fetched.events && created.AuctionCreated? && created.auctionId == id;
      assert created !in w.events && Replayed(events, created);
      IndexedExactly(t, events, reader, id);
    }
  }

  /** Index freshness.  A sync whose events cover everything from an earlier fetch
      (or the start of the backfill) to its own leaves every row as its auction was
      at some moment since its own fetch; it loses no row, and if no read failed it
      gains all auctions created in between. */
  lemma SyncKeepsUpToDate(host: Host, t: Tables, w: World, e: World, events: seq<IndexedEvent>, reader: Reader,
                          fetched: World, e': World)
    requires Reachable(host, w) && Since(host, w, e) && UpToDate(host, t, w, e)
    requires Since(host, e, fetched) && Covers(events, w, fetched)
    requires Since(host, fetched, e') && Reads(host, reader, fetched, e')
    ensures
      var t' := Replay(t, events, reader);
      && UpToDate(host, t', fetched, e')
      && (forall id :: id in t.auctions ==> id in t'.auctions)
      && (forall id :: id in fetched.auctions && id !in w.auctions && Readable(reader(id)) ==> id in t'.auctions)
  {
    var t' := Replay(t, events, reader);
    SinceTransitive(host, w, e, fetched);
    forall id
      ensures if id in t'.auctions then AgreedAt(host, t', id, fetched, e') else BidsTrueOf(t', id, fetched)
      ensures id in t.auctions ==> id in t'.auctions
      ensures id in fetched.auctions && id !in w.auctions && Readable(reader(id)) ==> id in t'.auctions
    {
      if id in t.auctions {
        OldRow(host, t, w, e, fetched, events, reader, id);
        SinceItself(host, fetched);
        assert WasFound(host, fetched, e', id, fetched.auctions[id]) by {
          assert Moment(host, fetched, fetched, e');
        }
      } else {
        NewRow(host, t, w, fetched, e', events, reader, id);
      }
    }
  }
}

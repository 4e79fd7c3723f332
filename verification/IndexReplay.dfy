/** The index agrees with the chain: replaying any part of the event log that
    covers everything since a row was read from the chain brings the row up to
    date, and replaying it again changes nothing. */
module IndexReplay {
  import opened Options
  import opened Tokens
  import opened Contract
  import opened Lifecycle
  import opened Escrow
  import opened IndexTables
  import opened IndexStore
  import Payout

  // ------------------------------------------- the event log tells the records

  /** No event says anything a record does not. */
  predicate Consistent(e: Event, id: int, a: Auction) {
    e.auctionId == id ==>
      match e
      case BidPlaced(_, slot, bidder, _, _) => slot < |a.bids| && a.bids[slot].bidder == bidder
      case AuctionSettled(_, _, _) => a.status == Settled
      case AuctionRefunded(_, _) => a.status == Refunded
      case _ => true
  }

  ghost predicate BidLogged(events: seq<Event>, id: int, slot: nat) {
    exists e :: e in events && e.BidPlaced? && e.auctionId == id && e.slotIndex == slot
  }

  predicate Ends(e: Event) {
    e.AuctionSettled? || e.AuctionRefunded?
  }

  ghost predicate EndLogged(events: seq<Event>, id: int) {
    exists e :: e in events && Ends(e) && e.auctionId == id
  }

  ghost predicate LogTells(w: World, id: int)
    requires id in w.auctions
  {
    var a := w.auctions[id];
    && (forall e :: e in w.events ==> Consistent(e, id, a))
    && (forall slot: nat :: slot < |a.bids| ==> BidLogged(w.events, id, slot))
    && (a.status != Open ==> EndLogged(w.events, id))
  }

  ghost predicate Logged(w: World) {
    && (forall id :: id in w.auctions ==> LogTells(w, id))
    && (forall e :: e in w.events ==> e.auctionId in w.auctions)
  }

  lemma LogGrows(events: seq<Event>, more: seq<Event>, id: int)
    ensures forall slot :: BidLogged(events, id, slot) ==> BidLogged(events + more, id, slot)
    ensures EndLogged(events, id) ==> EndLogged(events + more, id)
  {
    forall slot | BidLogged(events, id, slot) ensures BidLogged(events + more, id, slot) {
      var e :| e in events && e.BidPlaced? && e.auctionId == id && e.slotIndex == slot;
      assert e in events + more;
    }
    if EndLogged(events, id) {
      var e :| e in events && Ends(e) && e.auctionId == id;
      assert e in events + more;
    }
  }

  /** Rewriting one auction keeps the log telling, if the new events tell the
      rest of the new record. */
  lemma RewriteKeepsLog(w: World, w': World, id: int, a: Auction, ms: seq<Movement>, es: seq<Event>)
    requires Logged(w) && Rewrites(w, w', id, a, ms, es)
    requires forall e :: e in es ==> e.auctionId == id && Consistent(e, id, a)
    requires id in w.auctions ==> forall e :: Consistent(e, id, w.auctions[id]) ==> Consistent(e, id, a)
    requires forall slot: nat :: slot < |a.bids| ==>
               (id in w.auctions && slot < |w.auctions[id].bids|) || BidLogged(es, id, slot)
    requires a.status != Open ==> EndLogged(es, id) || (id in w.auctions && w.auctions[id].status != Open)
    ensures Logged(w')
  {
    forall other | other in w'.auctions ensures LogTells(w', other) {
      LogGrows(w.events, es, other);
      assert forall e :: e in w'.events <==> e in w.events || e in es;
      if other != id {
        assert other in w.auctions && LogTells(w, other);
      } else {
        assert id in w.auctions ==> LogTells(w, id);
        forall slot: nat | slot < |a.bids| ensures BidLogged(w'.events, id, slot) {
          if BidLogged(es, id, slot) {
            var e :| e in es && e.BidPlaced? && e.auctionId == id && e.slotIndex == slot;
            assert e in w'.events;
          }
        }
        if EndLogged(es, id) {
          var e :| e in es && Ends(e) && e.auctionId == id;
          assert e in w'.events;
        }
      }
    }
  }

  lemma BidKeepsLog(host: Host, w: World, w': World, c: Change)
    requires DenseIds(w) && Logged(w) && c.NewBid? && Made(host, w, w', c)
    ensures Logged(w')
  {
    var id, a := c.id, w.auctions[c.id];
    var e := BidPlaced(id, |a.bids|, c.bid.bidder, c.bid.commitment, c.encryptedBid);
    assert e in [e] && BidLogged([e], id, |a.bids|);
    RewriteKeepsLog(w, w', id, a.(bids := a.bids + [c.bid]), [DepositIn(host, id, a, c.bid.bidder)], [e]);
  }

  lemma SettlementKeepsLog(host: Host, w: World, w': World, c: Change)
    requires DenseIds(w) && Logged(w) && c.Settlement? && Made(host, w, w', c)
    ensures Logged(w')
  {
    var id, a := c.id, w.auctions[c.id];
    var e := AuctionSettled(id, a.bids[c.winnerIndex].bidder, c.winningPrice);
    assert e in [e] && EndLogged([e], id);
    RewriteKeepsLog(w, w', id, a.(status := Settled), SettlePayouts(host, id, a, c.winnerIndex, c.winningPrice), [e]);
  }

  lemma RefundKeepsLog(host: Host, w: World, w': World, c: Change)
    requires DenseIds(w) && Logged(w) && c.Refund? && Made(host, w, w', c)
    ensures Logged(w')
  {
    var id, a := c.id, w.auctions[c.id];
    var e := AuctionRefunded(id, |a.bids|);
    var es := (if c.lotReturned then [] else [LotReturnFailed(id, a.seller, a.lotAmount)]) + [e];
    assert es[|es| - 1] == e && e in es && EndLogged(es, id);
    RewriteKeepsLog(w, w', id, w'.auctions[id], w'.journal[|w.journal|..], es);
  }

  lemma ChangeKeepsLog(host: Host, w: World, w': World, c: Change)
    requires DenseIds(w) && Logged(w) && Made(host, w, w', c)
    ensures Logged(w')
  {
    match c
    case NoChange =>
      forall id | id in w'.auctions ensures LogTells(w', id) { assert LogTells(w, id); }
    case Create(a) =>
      RewriteKeepsLog(w, w', w.nextAuctionId, a, [LotIn(host, w.nextAuctionId, a)],
                      [AuctionCreated(w.nextAuctionId, a.seller, a.maxPrice, a.commitDeadline)]);
    case NewBid(_, _, _) => BidKeepsLog(host, w, w', c);
    case Settlement(_, _, _, _) => SettlementKeepsLog(host, w, w', c);
    case Refund(_, _) => RefundKeepsLog(host, w, w', c);
    case Reclaim(id) =>
      var a := w.auctions[id];
      RewriteKeepsLog(w, w', id, a.(lotReclaimed := true), [LotReturn(host, id, a)],
                      [LotReclaimed(id, a.seller, a.lotAmount)]);
  }

  lemma {:induction false} RunKeepsLog(host: Host, w: World, calls: seq<Call>)
    requires DenseIds(w) && Logged(w)
    ensures Logged(Run(host, w, calls))
  {
    if calls == [] {
    } else {
      var before := Run(host, w, calls[..|calls| - 1]);
      RunKeepsLog(host, w, calls[..|calls| - 1]);
      RunMovesForward(host, w, calls[..|calls| - 1]);
      var c := StepChange(host, before, calls[|calls| - 1]);
      ChangeKeepsLog(host, before, Run(host, w, calls), c);
    }
  }

  // ------------------------------------------------------------- agreement

  /** Column by column the terms are the on-chain auction's. */
  predicate SameTerms(terms: Terms, a: Auction) {
    && terms.seller == a.seller && terms.rwaToken == a.rwaToken && terms.lotAmount == a.lotAmount
    && terms.paymentToken == a.paymentToken && terms.maxPrice == a.maxPrice
    && terms.commitDeadline == a.commitDeadline && terms.gracePeriod == a.gracePeriod
  }

  /** The row and the recorded bids are the on-chain auction's. */
  ghost predicate Agrees(t: Tables, id: int, a: Auction) {
    && id in t.auctions && t.auctions[id].id == id && SameTerms(t.auctions[id].terms, a)
    && t.auctions[id].status == a.status && t.auctions[id].filledSlots == |a.bids|
    && (forall slot :: (id, slot) in t.bids <==> 0 <= slot < |a.bids|)
    && (forall slot :: 0 <= slot < |a.bids| ==> t.bids[(id, slot)] == a.bids[slot].bidder)
  }

  /** Between two moments: what is recorded is true of the later record, and
      nothing of the earlier record is missing. */
  ghost predicate Between(t: Tables, id: int, a: Auction, a': Auction) {
    && id in t.auctions && t.auctions[id].id == id && SameTerms(t.auctions[id].terms, a)
    && (t.auctions[id].status == a.status || t.auctions[id].status == a'.status)
    && t.auctions[id].filledSlots == |SlotsOf(t.bids, id)|
    && (forall slot :: (id, slot) in t.bids ==> 0 <= slot < |a'.bids| && t.bids[(id, slot)] == a'.bids[slot].bidder)
    && (forall slot :: 0 <= slot < |a.bids| ==> (id, slot) in t.bids)
  }

  lemma {:induction false} RangeSize(s: set<int>, n: nat)
    requires forall slot :: slot in s <==> 0 <= slot < n
    ensures |s| == n
  {
    if n == 0 {
      assert forall x :: x !in s;
    } else {
      RangeSize(s - {n - 1}, n - 1);
    }
  }

  lemma SlotsOfAgreeing(t: Tables, id: int, n: nat)
    requires forall slot :: (id, slot) in t.bids <==> 0 <= slot < n
    ensures |SlotsOf(t.bids, id)| == n
  {
    forall slot ensures slot in SlotsOf(t.bids, id) <==> 0 <= slot < n {
      if 0 <= slot < n {
        assert (id, slot) in t.bids.Keys && (id, slot).0 == id;
      }
    }
    RangeSize(SlotsOf(t.bids, id), n);
  }

  /** Touching another auction leaves an auction's row and bids alone. */
  ghost predicate Untouched(t: Tables, t': Tables, id: int) {
    && (id in t.auctions <==> id in t'.auctions)
    && (id in t.auctions ==> t'.auctions[id] == t.auctions[id])
    && (forall slot :: (id, slot) in t.bids <==> (id, slot) in t'.bids)
    && (forall slot :: (id, slot) in t.bids ==> t'.bids[(id, slot)] == t.bids[(id, slot)])
  }

  lemma {:induction false} RecordBidsUntouched(t: Tables, other: int, bids: seq<Bid>, n: nat, id: int)
    requires n <= |bids| && id != other
    ensures Untouched(t, RecordBids(t, other, bids, n), id)
  {
    if n == 0 {
    } else {
      RecordBidsUntouched(t, other, bids, n - 1, id);
    }
  }

  lemma ApplyUntouched(t: Tables, e: IndexedEvent, reader: Reader, id: int)
    requires e.event.auctionId != id || (e.event.AuctionCreated? && id in t.auctions)
    ensures Untouched(t, Apply(t, e, reader), id)
  {
    if e.event.AuctionCreated? && e.event.auctionId !in t.auctions {
      var other := e.event.auctionId;
      var read := reader(other);
      if Readable(read) {
        var core := CoreOf(other, read.auction, read.lotSymbol.value, read.paymentSymbol.value);
        RecordBidsUntouched(UpsertCore(t, core), other, read.auction.bids, |read.auction.bids|, id);
      }
    }
  }

  lemma SlotsOfUntouched(t: Tables, t': Tables, id: int)
    requires Untouched(t, t', id)
    ensures SlotsOf(t.bids, id) == SlotsOf(t'.bids, id)
  {
    forall slot ensures slot in SlotsOf(t.bids, id) <==> slot in SlotsOf(t'.bids, id) {
      assert slot in SlotsOf(t.bids, id) <==> (id, slot) in t.bids;
      assert slot in SlotsOf(t'.bids, id) <==> (id, slot) in t'.bids;
    }
  }

  /** Applying a true event keeps the row between the two moments, and records
      what the event says. */
  lemma ApplyKeepsBetween(t: Tables, e: IndexedEvent, reader: Reader, id: int, a: Auction, a': Auction)
    requires Between(t, id, a, a') && e.wellTyped && Consistent(e.event, id, a')
    ensures
      var t' := Apply(t, e, reader);
      && Between(t', id, a, a')
      && (t.auctions[id].status == a'.status ==> t'.auctions[id].status == a'.status)
      && (forall slot :: (id, slot) in t.bids ==> (id, slot) in t'.bids)
      && (e.event.auctionId == id && e.event.BidPlaced? ==> (id, e.event.slotIndex) in t'.bids)
      && (e.event.auctionId == id && Ends(e.event) ==> t'.auctions[id].status == a'.status)
  {
    if e.event.auctionId != id || e.event.AuctionCreated? {
      ApplyUntouched(t, e, reader, id);
      SlotsOfUntouched(t, Apply(t, e, reader), id);
    }
  }

  function BidsOf(bids: map<(int, int), Address>, id: int): set<(int, int)> {
    set key | key in bids.Keys && key.0 == id
  }

  /** A bid event leaves the first bidder of a slot, or records a new one, counts the
      slots of a known row and touches nothing else. */
  lemma FirstBidderStays(t: Tables, id: int, slot: int, bidder: Address)
    ensures
      var t' := RecordBid(t, id, slot, bidder);
      && t'.bids == (if (id, slot) in t.bids then t.bids else t.bids[(id, slot) := bidder])
      && t'.auctions.Keys == t.auctions.Keys
      && (forall other :: other in t.auctions && other != id ==> t'.auctions[other] == t.auctions[other])
      && (id in t.auctions ==> t'.auctions[id] == t.auctions[id].(filledSlots := |BidsOf(t'.bids, id)|))
      && t'.lastLedger == t.lastLedger && t'.lastCursor == t.lastCursor
  {
    var bids := RecordBid(t, id, slot, bidder).bids;
    SlotsCounted(BidsOf(bids, id), SlotsOf(bids, id), id);
  }

  /** As many slots as recorded bids. */
  lemma {:induction false} SlotsCounted(keys: set<(int, int)>, slots: set<int>, id: int)
    requires forall k :: k in keys ==> k.0 == id
    requires forall slot :: slot in slots <==> (id, slot) in keys
    ensures |slots| == |keys|
  {
    if keys == {} {
      assert forall slot :: slot in slots ==> (id, slot) in keys;
    } else {
      var k :| k in keys;
      var slot := k.1;
      assert k == (id, slot) && slot in slots;
      SlotsCounted(keys - {k}, slots - {slot}, id);
    }
  }

  /** A payload that is not what the handler expects is ignored. */
  lemma IllTypedIgnored(t: Tables, e: IndexedEvent, reader: Reader)
    requires !e.wellTyped && (e.event.BidPlaced? || e.event.AuctionSettled?)
    ensures Apply(t, e, reader) == t
  {
  }

  ghost predicate Replayed(events: seq<IndexedEvent>, e: Event) {
    exists i :: 0 <= i < |events| && events[i].event == e
  }

  lemma ReplayedLast(events: seq<IndexedEvent>, e: Event)
    requires events != []
    ensures Replayed(events, e) <==> Replayed(events[..|events| - 1], e) || e == events[|events| - 1].event
  {
    var front := events[..|events| - 1];
    if Replayed(events, e) {
      var i :| 0 <= i < |events| && events[i].event == e;
      assert i < |front| ==> front[i].event == e;
    }
    if Replayed(front, e) {
      var i :| 0 <= i < |front| && front[i].event == e;
      assert events[i].event == e;
    }
  }

  lemma {:induction false} ReplayKeepsBetween(t: Tables, events: seq<IndexedEvent>, reader: Reader,
                                              id: int, a: Auction, a': Auction)
    requires Between(t, id, a, a')
    requires forall i :: 0 <= i < |events| ==> events[i].wellTyped && Consistent(events[i].event, id, a')
    ensures
      var t' := Replay(t, events, reader);
      && Between(t', id, a, a')
      && (t.auctions[id].status == a'.status ==> t'.auctions[id].status == a'.status)
      && (forall e :: Replayed(events, e) && e.auctionId == id && e.BidPlaced? ==> (id, e.slotIndex) in t'.bids)
      && (forall e :: Replayed(events, e) && e.auctionId == id && Ends(e) ==> t'.auctions[id].status == a'.status)
  {
    if events == [] {
    } else {
      var front, last := events[..|events| - 1], events[|events| - 1];
      ReplayKeepsBetween(t, front, reader, id, a, a');
      ApplyKeepsBetween(Replay(t, front, reader), last, reader, id, a, a');
      forall e ensures Replayed(events, e) <==> Replayed(front, e) || e == last.event {
        ReplayedLast(events, e);
      }
    }
  }

  /** The replayed events come from the chain's log, with the payloads the
      contract publishes, and include everything the log gained since the row was
      read. */
  ghost predicate Covers(events: seq<IndexedEvent>, w: World, w': World) {
    && (forall i :: 0 <= i < |events| ==> events[i].wellTyped && events[i].event in w'.events)
    && (forall e :: e in w'.events && e !in w.events ==> Replayed(events, e))
  }

  /** Catching up: a row between two moments that has seen all news is at the
      later one. */
  lemma CaughtUp(w: World, w': World, t: Tables, events: seq<IndexedEvent>, id: int)
    requires id in w.auctions && id in w'.auctions && LogTells(w, id) && LogTells(w', id)
    requires Between(t, id, w.auctions[id], w'.auctions[id]) && Covers(events, w, w')
    requires forall e :: Replayed(events, e) && e.auctionId == id && e.BidPlaced? ==> (id, e.slotIndex) in t.bids
    requires forall e :: Replayed(events, e) && e.auctionId == id && Ends(e) ==>
               t.auctions[id].status == w'.auctions[id].status
    requires Later(w.auctions[id], w'.auctions[id], w.now)
    ensures Agrees(t, id, w'.auctions[id])
  {
    var a, a' := w.auctions[id], w'.auctions[id];
    forall slot | 0 <= slot < |a'.bids| ensures (id, slot) in t.bids {
      assert BidLogged(w'.events, id, slot);
      var e :| e in w'.events && e.BidPlaced? && e.auctionId == id && e.slotIndex == slot;
      assert e in w.events ==> Consistent(e, id, a);
    }
    SlotsOfAgreeing(t, id, |a'.bids|);
    if a.status != a'.status {
      var e :| e in w'.events && Ends(e) && e.auctionId == id;
      assert Consistent(e, id, a') && (e in w.events ==> Consistent(e, id, a));
    }
  }

  /** Index agreement. */
  lemma ReplayAgrees(host: Host, w: World, calls: seq<Call>, t: Tables, events: seq<IndexedEvent>,
                     reader: Reader, id: int)
    requires Reachable(host, w) && id in w.auctions && Agrees(t, id, w.auctions[id])
    requires Covers(events, w, Run(host, w, calls))
    ensures id in Run(host, w, calls).auctions
    ensures Agrees(Replay(t, events, reader), id, Run(host, w, calls).auctions[id])
  {
    var w' := Run(host, w, calls);
    ReachableLogged(host, w);
    ReachableAccounted(host, w);
    RunMovesForward(host, w, calls);
    RunKeepsLog(host, w, calls);
    var a, a' := w.auctions[id], w'.auctions[id];
    assert Later(a, a', w.now) && LogTells(w', id) && LogTells(w, id);
    SlotsOfAgreeing(t, id, |a.bids|);
    ReplayKeepsBetween(t, events, reader, id, a, a');
    CaughtUp(w, w', Replay(t, events, reader), events, id);
  }

  // ------------------------------------------------------------- idempotence

  /** The last settlement event replayed for an auction. */
  function LastSettlement(events: seq<IndexedEvent>, id: int): (last: Option<IndexedEvent>)
    ensures last.Some? ==>
      last.value.event.AuctionSettled? && last.value.wellTyped && last.value.event.auctionId == id
  {
    if events == [] then None
    else
      var last := events[|events| - 1];
      if last.event.AuctionSettled? && last.wellTyped && last.event.auctionId == id then Some(last)
      else LastSettlement(events[..|events| - 1], id)
  }

  /** The event says whether an auction's lot has gone back. */
  predicate SpeaksOfLot(e: Event, id: int) {
    e.auctionId == id && (e.LotReclaimed? || e.LotReturnFailed?)
  }

  /** What the last event that speaks of an auction's lot says. */
  function LastLot(events: seq<Event>, id: int): (last: Option<bool>)
    ensures last.None? <==> forall e :: e in events ==> !SpeaksOfLot(e, id)
  {
    if events == [] then None
    else
      var e := events[|events| - 1];
      if SpeaksOfLot(e, id) then Some(e.LotReclaimed?) else LastLot(events[..|events| - 1], id)
  }

  /** The events without their transaction hashes. */
  function Plain(events: seq<IndexedEvent>): (plain: seq<Event>)
    ensures |plain| == |events| && forall i :: 0 <= i < |events| ==> plain[i] == events[i].event
  {
    if events == [] then [] else Plain(events[..|events| - 1]) + [events[|events| - 1].event]
  }

  /** What one event makes of the columns that events write. */
  lemma OneWriter(t: Tables, e: IndexedEvent, reader: Reader, id: int)
    requires id in t.auctions
    ensures
      var t' := Apply(t, e, reader);
      && id in t'.auctions
      && var row, row' := t.auctions[id], t'.auctions[id];
      && row'.id == row.id && row'.terms == row.terms
      && row'.lotReclaimed == (if SpeaksOfLot(e.event, id) then e.event.LotReclaimed? else row.lotReclaimed)
      && (if e.event.AuctionSettled? && e.wellTyped && e.event.auctionId == id
          then row'.clearingPrice == Some(e.event.winningPrice) && row'.winner == Some(e.event.winner)
               && row'.settleTx == e.txHash
          else row'.clearingPrice == row.clearingPrice && row'.winner == row.winner && row'.settleTx == row.settleTx)
  {
    if e.event.auctionId != id || e.event.AuctionCreated? {
      ApplyUntouched(t, e, reader, id);
    }
  }

  /** A row already in the store keeps its terms, and its settlement columns and
      lot flag are those of the last event that wrote them. */
  lemma {:induction false} LastWriterWins(t: Tables, events: seq<IndexedEvent>, reader: Reader, id: int)
    requires id in t.auctions
    ensures
      var t' := Replay(t, events, reader);
      && id in t'.auctions
      && var row, row', settled := t.auctions[id], t'.auctions[id], LastSettlement(events, id);
      && row'.id == row.id && row'.terms == row.terms
      && row'.lotReclaimed == (match LastLot(Plain(events), id) case Some(b) => b case None => row.lotReclaimed)
      && (settled.None? ==>
            row'.clearingPrice == row.clearingPrice && row'.winner == row.winner && row'.settleTx == row.settleTx)
      && (settled.Some? ==>
            && row'.clearingPrice == Some(settled.value.event.winningPrice)
            && row'.winner == Some(settled.value.event.winner) && row'.settleTx == settled.value.txHash)
  {
    if events == [] {
    } else {
      var front, last := events[..|events| - 1], events[|events| - 1];
      LastWriterWins(t, front, reader, id);
      assert Plain(events)[..|events| - 1] == Plain(front);
      OneWriter(Replay(t, front, reader), last, reader, id);
    }
  }

  /** Replaying the same events a second time changes nothing of the row or of
      its bids. */
  lemma ReplayTwice(host: Host, w: World, calls: seq<Call>, t: Tables, events: seq<IndexedEvent>,
                    reader: Reader, id: int)
    requires Reachable(host, w) && id in w.auctions && Agrees(t, id, w.auctions[id])
    requires Covers(events, w, Run(host, w, calls))
    ensures
      var once := Replay(t, events, reader);
      Untouched(once, Replay(once, events, reader), id)
  {
    var w', once := Run(host, w, calls), Replay(t, events, reader);
    ReplayAgrees(host, w, calls, t, events, reader, id);
    Payout.StaysReachable(host, w, calls);
    assert Run(host, w', []) == w';
    assert Covers(events, w', w');
    ReplayAgrees(host, w', [], once, events, reader, id);
    LastWriterWins(t, events, reader, id);
    LastWriterWins(once, events, reader, id);
  }

  lemma ReachableLogged(host: Host, w: World)
    requires Reachable(host, w)
    ensures Logged(w)
  {
    var start, calls :| Deployed(host, start) && Run(host, start, calls) == w;
    RunKeepsLog(host, start, calls);
  }

  // --------------------------------------------------- reading from the chain

  /** The bids recorded for an auction are bids it has. */
  ghost predicate TrueBids(t: Tables, id: int, a: Auction) {
    forall slot :: (id, slot) in t.bids ==> 0 <= slot < |a.bids| && t.bids[(id, slot)] == a.bids[slot].bidder
  }

  predicate SameSettlement(row: Row, row': Row) {
    row.clearingPrice == row'.clearingPrice && row.winner == row'.winner && row.settleTx == row'.settleTx
  }

  /** Reading an auction from the chain makes its row agree, whether or not bid
      events arrived before, as long as they were true; a row that was there keeps its
      settlement columns. */
  lemma EnrichAgrees(t: Tables, id: int, a: Auction, lotSymbol: string, paymentSymbol: string)
    requires id in t.auctions ==> t.auctions[id].id == id && t.auctions[id].filledSlots == |SlotsOf(t.bids, id)|
    requires TrueBids(t, id, a)
    ensures
      var t' := Enrich(t, id, Found(a, Some(lotSymbol), Some(paymentSymbol)));
      && Agrees(t', id, a) && t'.auctions[id].lotReclaimed == a.lotReclaimed
      && t'.auctions[id].terms.lotSymbol == lotSymbol && t'.auctions[id].terms.paymentSymbol == paymentSymbol
      && (if id in t.auctions then SameSettlement(t'.auctions[id], t.auctions[id])
          else t'.auctions[id].clearingPrice == None && t'.auctions[id].winner == None
               && t'.auctions[id].settleTx == None)
  {
    var upserted := UpsertCore(t, CoreOf(id, a, lotSymbol, paymentSymbol));
    var t' := Enrich(t, id, Found(a, Some(lotSymbol), Some(paymentSymbol)));
    EnrichedBids(upserted, id, a.bids, |a.bids|);
    SlotsOfAgreeing(t', id, |a.bids|);
    if a.bids == [] {
      SlotsOfAgreeing(t, id, 0);
    }
  }

  /** The count is refreshed by the last recorded bid, so a stale count before
      the first one does not matter. */
  lemma {:induction false} EnrichedBids(t: Tables, id: int, bids: seq<Bid>, n: nat)
    requires n <= |bids| && id in t.auctions
    requires forall slot :: (id, slot) in t.bids ==> 0 <= slot < |bids| && t.bids[(id, slot)] == bids[slot].bidder
    ensures
      var t' := RecordBids(t, id, bids, n);
      && id in t'.auctions && t'.auctions[id] == t.auctions[id].(filledSlots := t'.auctions[id].filledSlots)
      && (forall slot :: (id, slot) in t'.bids <==> (id, slot) in t.bids || 0 <= slot < n)
      && (forall slot :: (id, slot) in t'.bids ==> 0 <= slot < |bids| && t'.bids[(id, slot)] == bids[slot].bidder)
      && t'.auctions[id].filledSlots == if n == 0 then t.auctions[id].filledSlots else |SlotsOf(t'.bids, id)|
  {
    if n == 0 {
    } else {
      EnrichedBids(t, id, bids, n - 1);
    }
  }
}

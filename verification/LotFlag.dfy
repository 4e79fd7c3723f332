/** When the index's lot flag is the chain's: a refund that returns the lot
    emits no event that speaks of it. */
module LotFlag {
  import opened Options
  import opened Poseidon
  import opened Contract
  import opened Lifecycle
  import opened Escrow
  import opened IndexStore
  import opened IndexReplay
  import Payout
  import Scenarios

  lemma {:induction false} LastLotAppend(first: seq<Event>, second: seq<Event>, id: int)
    ensures LastLot(first + second, id) == if LastLot(second, id).Some? then LastLot(second, id) else LastLot(first, id)
  {
    if second == [] {
      assert first + second == first;
    } else {
      LastLotAppend(first, second[..|second| - 1], id);
      assert (first + second)[..|first + second| - 1] == first + second[..|second| - 1];
    }
  }

  /** What the log says of an auction's lot: nothing before a refund; then, at the
      end, what the record says, unless the refund returned the lot in silence. */
  ghost predicate LotTold(w: World, id: int) {
    var last := LastLot(w.events, id);
    if id !in w.auctions then last == None
    else
      var a := w.auctions[id];
      if a.status != Refunded then last == None && !a.lotReclaimed
      else last == Some(a.lotReclaimed) || (last == None && a.lotReclaimed)
  }

  lemma NewEventsOf(w: World, es: seq<Event>, id: int, other: int)
    requires id != other && forall e :: e in es ==> e.auctionId == id
    ensures LastLot(w.events + es, other) == LastLot(w.events, other)
  {
    LastLotAppend(w.events, es, other);
  }

  lemma RewriteTellsLot(w: World, w': World, id: int, a: Auction, ms: seq<Movement>, es: seq<Event>)
    requires (forall i :: LotTold(w, i)) && Rewrites(w, w', id, a, ms, es)
    requires forall e :: e in es ==> e.auctionId == id
    requires
      var last := if LastLot(es, id).Some? then LastLot(es, id) else LastLot(w.events, id);
      if a.status != Refunded then last == None && !a.lotReclaimed
      else last == Some(a.lotReclaimed) || (last == None && a.lotReclaimed)
    ensures forall i :: LotTold(w', i)
  {
    forall i ensures LotTold(w', i) {
      assert LotTold(w, i);
      if i == id {
        LastLotAppend(w.events, es, id);
      } else {
        NewEventsOf(w, es, id, i);
      }
    }
  }

  lemma LastLotOfOne(e: Event, id: int)
    ensures LastLot([e], id) == if SpeaksOfLot(e, id) then Some(e.LotReclaimed?) else None
  {
    assert [e][..0] == [];
  }

  lemma RefundTellsLot(host: Host, w: World, w': World, c: Change)
    requires DenseIds(w) && (forall i :: LotTold(w, i)) && c.Refund? && Made(host, w, w', c)
    ensures forall i :: LotTold(w', i)
  {
    var id, a := c.id, w.auctions[c.id];
    assert LotTold(w, id);
    var ended := AuctionRefunded(id, |a.bids|);
    var es := (if c.lotReturned then [] else [LotReturnFailed(id, a.seller, a.lotAmount)]) + [ended];
    LastLotOfOne(ended, id);
    if !c.lotReturned {
      var failed := LotReturnFailed(id, a.seller, a.lotAmount);
      LastLotOfOne(failed, id);
      LastLotAppend([failed], [ended], id);
    } else {
      assert es == [ended];
    }
    RewriteTellsLot(w, w', id, w'.auctions[id], w'.journal[|w.journal|..], es);
  }

  lemma ChangeTellsLot(host: Host, w: World, w': World, c: Change)
    requires DenseIds(w) && (forall i :: LotTold(w, i)) && Made(host, w, w', c)
    ensures forall i :: LotTold(w', i)
  {
    match c
    case NoChange =>
      forall i ensures LotTold(w', i) { assert LotTold(w, i); }
    case Create(a) =>
      var e := AuctionCreated(w.nextAuctionId, a.seller, a.maxPrice, a.commitDeadline);
      assert LotTold(w, w.nextAuctionId);
      LastLotOfOne(e, w.nextAuctionId);
      RewriteTellsLot(w, w', w.nextAuctionId, a, [LotIn(host, w.nextAuctionId, a)], [e]);
    case NewBid(id, bid, encryptedBid) =>
      var a := w.auctions[id];
      var e := BidPlaced(id, |a.bids|, bid.bidder, bid.commitment, encryptedBid);
      assert LotTold(w, id);
      LastLotOfOne(e, id);
      RewriteTellsLot(w, w', id, a.(bids := a.bids + [bid]), [DepositIn(host, id, a, bid.bidder)], [e]);
    case Settlement(id, winnerIndex, winningPrice, _) =>
      var a := w.auctions[id];
      var e := AuctionSettled(id, a.bids[winnerIndex].bidder, winningPrice);
      assert LotTold(w, id);
      LastLotOfOne(e, id);
      RewriteTellsLot(w, w', id, a.(status := Settled), SettlePayouts(host, id, a, winnerIndex, winningPrice), [e]);
    case Refund(_, _) =>
      RefundTellsLot(host, w, w', c);
    case Reclaim(id) =>
      var a := w.auctions[id];
      var e := LotReclaimed(id, a.seller, a.lotAmount);
      LastLotOfOne(e, id);
      RewriteTellsLot(w, w', id, a.(lotReclaimed := true), [LotReturn(host, id, a)], [e]);
  }

  lemma {:induction false} RunTellsLot(host: Host, w: World, calls: seq<Call>)
    requires DenseIds(w) && forall i :: LotTold(w, i)
    ensures forall i :: LotTold(Run(host, w, calls), i)
  {
    if calls == [] {
    } else {
      var before := Run(host, w, calls[..|calls| - 1]);
      RunTellsLot(host, w, calls[..|calls| - 1]);
      RunMovesForward(host, w, calls[..|calls| - 1]);
      var c := StepChange(host, before, calls[|calls| - 1]);
      ChangeTellsLot(host, before, Run(host, w, calls), c);
    }
  }

  lemma ReachableTellsLot(host: Host, w: World, id: int)
    requires Reachable(host, w)
    ensures LotTold(w, id)
  {
    var start, calls :| Deployed(host, start) && Run(host, start, calls) == w;
    RunTellsLot(host, start, calls);
  }

  /** The log's last word is in its suffix, or was there before. */
  lemma SuffixOrBefore(log: seq<Event>, log': seq<Event>, id: int, k: nat)
    requires log <= log' && k <= |log|
    ensures LastLot(log', id) ==
              if LastLot(log'[k..], id).Some? then LastLot(log'[k..], id) else LastLot(log, id)
  {
    var before, between, since := log[..k], log[k..], log'[|log|..];
    assert log == before + between && log'[k..] == between + since;
    assert log' == before + (between + since);
    LastLotAppend(before, between, id);
    LastLotAppend(between, since, id);
    LastLotAppend(before, between + since, id);
  }

  /** What the last lot event since some point of the log makes of a flag that
      was right at an earlier moment. */
  lemma SuffixTells(w: World, w': World, id: int, k: nat)
    requires id in w.auctions && id in w'.auctions && LotTold(w, id) && LotTold(w', id)
    requires Later(w.auctions[id], w'.auctions[id], w.now) && w.events <= w'.events && k <= |w.events|
    ensures
      var a, a', last := w.auctions[id], w'.auctions[id], LastLot(w'.events[k..], id);
      var flag := match last case Some(b) => b case None => a.lotReclaimed;
      flag == a'.lotReclaimed <==> !(a.status == Open && a'.status == Refunded && last == None)
  {
    SuffixOrBefore(w.events, w'.events, id, k);
  }

  /** Lot-flag agreement.  For a row whose flag was right when it was read, the
      flag after replaying the log from any point up to that moment is the
      chain's, if and only if it is not the case that the auction was open then,
      is refunded now, and no replayed event speaks of its lot. */
  lemma LotFlagAgreesIff(host: Host, w: World, calls: seq<Call>, t: Tables, events: seq<IndexedEvent>,
                         reader: Reader, id: int, k: nat)
    requires Reachable(host, w) && id in w.auctions && id in t.auctions
    requires t.auctions[id].lotReclaimed == w.auctions[id].lotReclaimed
    requires k <= |w.events| <= |Run(host, w, calls).events| && Plain(events) == Run(host, w, calls).events[k..]
    ensures
      var w', t' := Run(host, w, calls), Replay(t, events, reader);
      && id in w'.auctions && id in t'.auctions
      && (t'.auctions[id].lotReclaimed == w'.auctions[id].lotReclaimed
          <==> !(&& w.auctions[id].status == Open && w'.auctions[id].status == Refunded
                 && forall e :: e in Plain(events) ==> !SpeaksOfLot(e, id)))
  {
    var w' := Run(host, w, calls);
    ReachableAccounted(host, w);
    RunMovesForward(host, w, calls);
    Payout.StaysReachable(host, w, calls);
    ReachableTellsLot(host, w, id);
    ReachableTellsLot(host, w', id);
    LastWriterWins(t, events, reader, id);
    SuffixTells(w, w', id, k);
  }

  /** A refund that returns the lot logs nothing but the refund. */
  lemma SilentLog(host: Host, w: World, id: int)
    requires Reachable(host, w) && RefundAll(host, w, id).0.Returned?
    requires id in RefundAll(host, w, id).1.auctions && RefundAll(host, w, id).1.auctions[id].lotReclaimed
    ensures id in w.auctions && w.auctions[id].status == Open && !w.auctions[id].lotReclaimed
    ensures RefundAll(host, w, id).1.auctions[id].status == Refunded
    ensures RefundAll(host, w, id).1.events == w.events + [AuctionRefunded(id, |w.auctions[id].bids|)]
  {
    var c := RefundChange(host, w, id);
    ReachableTellsLot(host, w, id);
  }

  lemma RunOne(host: Host, w: World, call: Call)
    ensures Run(host, w, [call]) == Step(host, w, call)
  {
    assert Run(host, w, [call]) == Step(host, Run(host, w, []), call);
  }

  /** The failing case: replaying a refund that returns the lot leaves the flag
      of every row that was up to date wrong. */
  lemma SilentReturn(host: Host, w: World, id: int, t: Tables, events: seq<IndexedEvent>, reader: Reader)
    requires Reachable(host, w) && RefundAll(host, w, id).0.Returned?
    requires id in RefundAll(host, w, id).1.auctions && RefundAll(host, w, id).1.auctions[id].lotReclaimed
    requires id in w.auctions && id in t.auctions && t.auctions[id].lotReclaimed == w.auctions[id].lotReclaimed
    requires Plain(events) == [AuctionRefunded(id, |w.auctions[id].bids|)]
    ensures
      var t' := Replay(t, events, reader);
      id in t'.auctions && !t'.auctions[id].lotReclaimed
  {
    SilentLog(host, w, id);
    RunOne(host, w, CallRefund(id));
    LotFlagAgreesIff(host, w, [CallRefund(id)], t, events, reader, id, |w.events|);
  }

  /** And such a refund does happen, to an index that has seen everything. */
  lemma SilentReturnHappens(verify: Scenarios.Verifier, h: Hasher, reader: Reader)
    returns (w: World, t: Tables, events: seq<IndexedEvent>)
    ensures
      var host := Scenarios.HostOf(verify, h, {});
      && Reachable(host, w) && 1 in w.auctions && Agrees(t, 1, w.auctions[1])
      && Covers(events, w, Run(host, w, [CallRefund(1)]))
      && 1 in Run(host, w, [CallRefund(1)]).auctions && Run(host, w, [CallRefund(1)]).auctions[1].lotReclaimed
      && 1 in Replay(t, events, reader).auctions && !Replay(t, events, reader).auctions[1].lotReclaimed
  {
    var host := Scenarios.HostOf(verify, h, {});
    w := Scenarios.LotReturned(verify, h);
    var a := w.auctions[1];
    t := Enrich(EMPTY, 1, Found(a, Some(""), Some("")));
    EnrichAgrees(EMPTY, 1, a, "", "");
    SilentLog(host, w, 1);
    RunOne(host, w, CallRefund(1));
    var e := IndexedEvent(AuctionRefunded(1, |a.bids|), None, true);
    events := [e];
    assert [e][..0] == [] && Plain([e]) == [e.event];
    SilentReturn(host, w, 1, t, events, reader);
  }
}

/** Every call either leaves storage alone or makes one of five changes; over
    whole runs an auction only ever moves forward. */
module Lifecycle {
  import opened Bytes
  import opened Tokens
  import opened Contract

  datatype Change =
    | NoChange
    | Create(auction: Auction)
    | NewBid(id: int, bid: Bid, encryptedBid: seq<Byte>)
    | Settlement(id: int, winnerIndex: nat, winningPrice: int, proof: Proof)
    | Refund(id: int, lotReturned: bool)
    | Reclaim(id: int)

  /** The new auction record, the transfers and the events of a change. */
  ghost predicate Rewrites(w: World, w': World, id: int, a: Auction, ms: seq<Movement>, es: seq<Event>) {
    && w'.auctions == w.auctions[id := a]
    && w'.journal == w.journal + ms
    && w'.events == w.events + es
    && w'.now == w.now
  }

  ghost predicate Made(host: Host, w: World, w': World, c: Change) {
    match c
    case NoChange =>
      && w'.auctions == w.auctions && w'.nextAuctionId == w.nextAuctionId
      && w'.journal == w.journal && w'.events == w.events && w'.now >= w.now
    case Create(a) =>
      && a.seller != host.self && a.lotAmount > 0 && 0 < a.maxPrice <= U64_MAX
      && a.commitDeadline > w.now && a.gracePeriod > 0
      && a.status == Open && a.bids == [] && !a.lotReclaimed
      && w.nextAuctionId < U64_MAX && w'.nextAuctionId == w.nextAuctionId + 1
      && Rewrites(w, w', w.nextAuctionId, a, [LotIn(host, w.nextAuctionId, a)],
                  [AuctionCreated(w.nextAuctionId, a.seller, a.maxPrice, a.commitDeadline)])
    case NewBid(id, bid, encryptedBid) =>
      && id in w.auctions && w'.nextAuctionId == w.nextAuctionId
      && var a := w.auctions[id];
      && a.status == Open && w.now < a.commitDeadline && |a.bids| < MAX_BID_SLOTS
      && bid.commitment != 0 && !HasCommitment(a.bids, bid.commitment) && bid.bidder != host.self
      && Rewrites(w, w', id, a.(bids := a.bids + [bid]), [DepositIn(host, id, a, bid.bidder)],
                  [BidPlaced(id, |a.bids|, bid.bidder, bid.commitment, encryptedBid)])
    case Settlement(id, winnerIndex, winningPrice, proof) =>
      && id in w.auctions && w'.nextAuctionId == w.nextAuctionId
      && var a := w.auctions[id];
      && a.status == Open && w.now >= a.commitDeadline
      && winnerIndex < |a.bids| && 0 < winningPrice <= a.maxPrice
      && var winner := a.bids[winnerIndex].bidder;
      && host.verify(proof, BuildPublicSignals(host.hasher, a, id, winnerIndex, winningPrice, winner)) == Accepts
      && Rewrites(w, w', id, a.(status := Settled), SettlePayouts(host, id, a, winnerIndex, winningPrice),
                  [AuctionSettled(id, winner, winningPrice)])
    case Refund(id, lotReturned) =>
      && id in w.auctions && w'.nextAuctionId == w.nextAuctionId
      && var a := w.auctions[id];
      && a.status == Open && w.now >= SaturatingAdd(a.commitDeadline, a.gracePeriod)
      && Rewrites(w, w', id, a.(status := Refunded, lotReclaimed := lotReturned || a.lotReclaimed),
                  Refunds(host, id, a, |a.bids|) + (if lotReturned then [LotReturn(host, id, a)] else []),
                  (if lotReturned then [] else [LotReturnFailed(id, a.seller, a.lotAmount)])
                    + [AuctionRefunded(id, |a.bids|)])
    case Reclaim(id) =>
      && id in w.auctions && w'.nextAuctionId == w.nextAuctionId
      && var a := w.auctions[id];
      && a.status == Refunded && !a.lotReclaimed
      && Rewrites(w, w', id, a.(lotReclaimed := true), [LotReturn(host, id, a)],
                  [LotReclaimed(id, a.seller, a.lotAmount)])
  }

  /** Paying a list leaves storage, clock and events alone and journals it. */
  lemma {:induction false} PayAllFrame(host: Host, w: World, ms: seq<Movement>)
    requires PayAll(host, w, ms).Some?
    ensures
      var paid := PayAll(host, w, ms).value;
      && paid.auctions == w.auctions && paid.nextAuctionId == w.nextAuctionId
      && paid.now == w.now && paid.events == w.events && paid.journal == w.journal + ms
  {
    if ms == [] {
    } else {
      PayAllFrame(host, w, ms[..|ms| - 1]);
      assert ms == ms[..|ms| - 1] + [ms[|ms| - 1]];
    }
  }

  lemma SettleChange(host: Host, w: World, auctionId: int, winnerIndex: nat, winningPrice: int,
                     winner: Address, proof: Proof) returns (c: Change)
    ensures
      var (outcome, w') := Settle(host, w, auctionId, winnerIndex, winningPrice, winner, proof);
      && Made(host, w, w', c)
      && c == if outcome.Returned? then Settlement(auctionId, winnerIndex, winningPrice, proof) else NoChange
  {
    var (outcome, w') := Settle(host, w, auctionId, winnerIndex, winningPrice, winner, proof);
    if outcome.Returned? {
      var a := w.auctions[auctionId];
      var marked := w.(auctions := w.auctions[auctionId := a.(status := Settled)]);
      PayAllFrame(host, marked, SettlePayouts(host, auctionId, a, winnerIndex, winningPrice));
      c := Settlement(auctionId, winnerIndex, winningPrice, proof);
    } else {
      c := NoChange;
    }
  }

  lemma RefundChange(host: Host, w: World, auctionId: int) returns (c: Change)
    ensures
      var (outcome, w') := RefundAll(host, w, auctionId);
      && Made(host, w, w', c)
      && (if outcome.Returned? then c.Refund? && c.id == auctionId else c == NoChange)
  {
    var (outcome, w') := RefundAll(host, w, auctionId);
    if outcome.Returned? {
      var a := w.auctions[auctionId];
      var closed := a.(status := Refunded);
      var marked := w.(auctions := w.auctions[auctionId := closed]);
      var refunds := Refunds(host, auctionId, a, |a.bids|);
      PayAllFrame(host, marked, refunds);
      var paid := PayAll(host, marked, refunds).value;
      var (returned, after) := TryReturnLot(host, paid, auctionId, a);
      assert returned ==> w'.journal == w.journal + (refunds + [LotReturn(host, auctionId, a)]);
      var failure := LotReturnFailed(auctionId, a.seller, a.lotAmount);
      assert !returned ==> w'.events == w.events + ([failure] + [AuctionRefunded(auctionId, |a.bids|)]);
      c := Refund(auctionId, returned);
    } else {
      c := NoChange;
    }
  }

  lemma CreateChange(host: Host, w: World, call: Call) returns (c: Change)
    requires call.CallCreate?
    ensures Made(host, w, Step(host, w, call), c) && (c.Create? || c == NoChange)
  {
    var (outcome, w') := CreateAuction(host, w, call.signers, call.seller, call.rwaToken, call.lotAmount,
                                       call.paymentToken, call.maxPrice, call.commitDeadline, call.gracePeriod,
                                       call.whitelistRoot, call.operatorKey);
    c := if outcome.Returned? then Create(w'.auctions[w.nextAuctionId]) else NoChange;
  }

  lemma BidChange(host: Host, w: World, call: Call) returns (c: Change)
    requires call.CallBid?
    ensures Made(host, w, Step(host, w, call), c) && (c.NewBid? || c == NoChange)
  {
    var (outcome, w') := PlaceBid(host, w, call.signers, call.auctionId, call.bidder, call.commitment,
                                  call.encryptedBid);
    c := if outcome.Returned? then NewBid(call.auctionId, Bid(call.bidder, call.commitment), call.encryptedBid)
         else NoChange;
  }

  lemma ReclaimChange(host: Host, w: World, call: Call) returns (c: Change)
    requires call.CallReclaim?
    ensures Made(host, w, Step(host, w, call), c) && (c.Reclaim? || c == NoChange)
  {
    c := if ReclaimLot(host, w, call.auctionId).0.Returned? then Reclaim(call.auctionId) else NoChange;
  }

  /** No call does anything to storage but one of the changes; only a settle call
      settles, on its own arguments, and only a refund call that returns refunds. */
  lemma StepChange(host: Host, w: World, call: Call) returns (c: Change)
    ensures Made(host, w, Step(host, w, call), c)
    ensures c.Settlement? ==>
              && call.CallSettle? && call.winner == w.auctions[c.id].bids[c.winnerIndex].bidder
              && c == Settlement(call.auctionId, call.winnerIndex, call.winningPrice, call.proof)
    ensures c.Refund? ==> call == CallRefund(c.id) && RefundAll(host, w, c.id).0.Returned?
  {
    match call
    case CallCreate(_, _, _, _, _, _, _, _, _, _) =>
      c := CreateChange(host, w, call);
    case CallBid(_, _, _, _, _) =>
      c := BidChange(host, w, call);
    case CallSettle(auctionId, winnerIndex, winningPrice, winner, proof) =>
      c := SettleChange(host, w, auctionId, winnerIndex, winningPrice, winner, proof);
    case CallRefund(auctionId) =>
      c := RefundChange(host, w, auctionId);
    case CallReclaim(_) =>
      c := ReclaimChange(host, w, call);
    case Elsewhere(now, ledgers) =>
      c := NoChange;
  }

  // ------------------------------------------------------- forward movement

  /** What can have happened to an auction between two moments of a run: its
      terms never change, bids are only appended and only before the deadline,
      and the status leaves Open once and never returns. */
  ghost predicate Later(a: Auction, a': Auction, now: int) {
    && a'.(status := a.status, bids := a.bids, lotReclaimed := a.lotReclaimed) == a
    && a.bids <= a'.bids
    && (a.status != Open || now >= a.commitDeadline ==> a'.bids == a.bids)
    && (a.status != Open ==> a'.status == a.status)
    && (a.lotReclaimed ==> a'.lotReclaimed)
    && (a'.lotReclaimed && !a.lotReclaimed ==> a'.status == Refunded)
  }

  ghost predicate Follows(w: World, w': World) {
    && w.now <= w'.now && w.nextAuctionId <= w'.nextAuctionId
    && w.events <= w'.events && w.journal <= w'.journal
    && forall id :: id in w.auctions ==> id in w'.auctions && Later(w.auctions[id], w'.auctions[id], w.now)
  }

  /** Auction ids are exactly 1 .. next - 1. */
  ghost predicate DenseIds(w: World) {
    w.nextAuctionId >= 1 && forall id :: id in w.auctions <==> 1 <= id < w.nextAuctionId
  }

  lemma ChangeMovesForward(host: Host, w: World, w': World, c: Change)
    requires DenseIds(w) && Made(host, w, w', c)
    ensures DenseIds(w') && Follows(w, w')
  {
  }

  lemma FollowsTransitive(w0: World, w1: World, w2: World)
    requires Follows(w0, w1) && Follows(w1, w2)
    ensures Follows(w0, w2)
  {
    forall id | id in w0.auctions
      ensures id in w2.auctions && Later(w0.auctions[id], w2.auctions[id], w0.now)
    {
      assert id in w1.auctions && Later(w0.auctions[id], w1.auctions[id], w0.now);
      assert Later(w1.auctions[id], w2.auctions[id], w1.now);
    }
  }

  /** Whole-run lifecycle: whatever is called afterwards, ids stay dense and
      every auction only moves forward. */
  lemma {:induction false} RunMovesForward(host: Host, w: World, calls: seq<Call>)
    requires DenseIds(w)
    ensures DenseIds(Run(host, w, calls)) && Follows(w, Run(host, w, calls))
  {
    if calls == [] {
    } else {
      var before := Run(host, w, calls[..|calls| - 1]);
      RunMovesForward(host, w, calls[..|calls| - 1]);
      var c := StepChange(host, before, calls[|calls| - 1]);
      ChangeMovesForward(host, before, Run(host, w, calls), c);
      FollowsTransitive(w, before, Run(host, w, calls));
    }
  }
}

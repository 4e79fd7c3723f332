/** The journal of every auction, in every reachable state: the lot in, one
    deposit in per bid, and then exactly one way out. */
module Escrow {
  import opened Contract
  import opened Lifecycle

  /** The movements of one auction, in order. */
  function Of(journal: seq<Movement>, id: int): seq<Movement> {
    if journal == [] then []
    else
      var last := journal[|journal| - 1];
      Of(journal[..|journal| - 1], id) + (if last.auctionId == id then [last] else [])
  }

  ghost predicate Tagged(ms: seq<Movement>, id: int) {
    forall i :: 0 <= i < |ms| ==> ms[i].auctionId == id
  }

  lemma {:induction false} OfAppend(journal: seq<Movement>, ms: seq<Movement>, tag: int, id: int)
    requires Tagged(ms, tag)
    ensures Of(journal + ms, id) == Of(journal, id) + (if id == tag then ms else [])
  {
    if ms == [] {
      assert journal + ms == journal;
    } else {
      var front, last := ms[..|ms| - 1], ms[|ms| - 1];
      OfAppend(journal, front, tag, id);
      assert (journal + ms)[..|journal + ms| - 1] == journal + front;
      assert ms == front + [last];
    }
  }

  /** The lot, then one deposit per bid. */
  function Deposits(host: Host, id: int, a: Auction, n: nat): seq<Movement>
    requires n <= |a.bids|
  {
    if n == 0 then [LotIn(host, id, a)]
    else Deposits(host, id, a, n - 1) + [DepositIn(host, id, a, a.bids[n - 1].bidder)]
  }

  /** Everything an auction ever moved, read off its record: the way out is
      missing, a settlement, or the refunds with or without the lot. */
  ghost predicate Script(host: Host, id: int, a: Auction, ms: seq<Movement>) {
    var paidIn := Deposits(host, id, a, |a.bids|);
    match a.status
    case Open => ms == paidIn
    case Settled =>
      exists winnerIndex: nat, winningPrice ::
        && winnerIndex < |a.bids| && 0 < winningPrice <= a.maxPrice
        && ms == paidIn + SettlePayouts(host, id, a, winnerIndex, winningPrice)
    case Refunded =>
      ms == paidIn + (Refunds(host, id, a, |a.bids|)
                        + (if a.lotReclaimed then [LotReturn(host, id, a)] else []))
  }

  ghost predicate WellFormed(host: Host, a: Auction) {
    && a.seller != host.self && a.lotAmount > 0 && 0 < a.maxPrice <= U64_MAX
    && |a.bids| <= MAX_BID_SLOTS
    && (forall i :: 0 <= i < |a.bids| ==> a.bids[i].bidder != host.self && a.bids[i].commitment != 0)
    && (forall i, j :: 0 <= i < j < |a.bids| ==> a.bids[i].commitment != a.bids[j].commitment)
    && (a.lotReclaimed ==> a.status == Refunded)
  }

  ghost predicate Accounted(host: Host, w: World) {
    && DenseIds(w)
    && (forall id :: id in w.auctions ==>
          WellFormed(host, w.auctions[id]) && Script(host, id, w.auctions[id], Of(w.journal, id)))
    && (forall id :: id !in w.auctions ==> Of(w.journal, id) == [])
  }

  // ------------------------------------------ lists depend on the terms only

  lemma {:induction false} DepositsSameTerms(host: Host, id: int, a: Auction, a': Auction, n: nat)
    requires n <= |a.bids| && a.bids <= a'.bids
    requires a'.(status := a.status, bids := a.bids, lotReclaimed := a.lotReclaimed) == a
    ensures Deposits(host, id, a, n) == Deposits(host, id, a', n)
    ensures Tagged(Deposits(host, id, a, n), id)
  {
    if n == 0 {
    } else {
      DepositsSameTerms(host, id, a, a', n - 1);
    }
  }

  lemma {:induction false} RefundsSameTerms(host: Host, id: int, a: Auction, a': Auction, n: nat)
    requires n <= |a.bids| && a'.(status := a.status, lotReclaimed := a.lotReclaimed) == a
    ensures Refunds(host, id, a, n) == Refunds(host, id, a', n)
    ensures Tagged(Refunds(host, id, a, n), id)
  {
    if n == 0 {
    } else {
      RefundsSameTerms(host, id, a, a', n - 1);
    }
  }

  lemma {:induction false} LosersSameTerms(host: Host, id: int, a: Auction, a': Auction, winnerIndex: nat, n: nat)
    requires n <= |a.bids| && a'.(status := a.status, lotReclaimed := a.lotReclaimed) == a
    ensures LoserPayouts(host, id, a, winnerIndex, n) == LoserPayouts(host, id, a', winnerIndex, n)
    ensures Tagged(LoserPayouts(host, id, a, winnerIndex, n), id)
  {
    if n == 0 {
    } else {
      LosersSameTerms(host, id, a, a', winnerIndex, n - 1);
    }
  }

  // ----------------------------------------------------- invariant preserved

  lemma BidKeepsScript(host: Host, id: int, a: Auction, bid: Bid, ms: seq<Movement>)
    requires WellFormed(host, a) && Script(host, id, a, ms)
    requires a.status == Open && |a.bids| < MAX_BID_SLOTS && bid.bidder != host.self
    requires bid.commitment != 0 && !HasCommitment(a.bids, bid.commitment)
    ensures
      var a' := a.(bids := a.bids + [bid]);
      WellFormed(host, a') && Script(host, id, a', ms + [DepositIn(host, id, a, bid.bidder)])
  {
    DepositsSameTerms(host, id, a, a.(bids := a.bids + [bid]), |a.bids|);
  }

  lemma SettlementKeepsScript(host: Host, id: int, a: Auction, winnerIndex: nat, winningPrice: int,
                              ms: seq<Movement>)
    requires WellFormed(host, a) && Script(host, id, a, ms)
    requires a.status == Open && winnerIndex < |a.bids| && 0 < winningPrice <= a.maxPrice
    ensures
      var a', out := a.(status := Settled), SettlePayouts(host, id, a, winnerIndex, winningPrice);
      WellFormed(host, a') && Tagged(out, id) && Script(host, id, a', ms + out)
  {
    var a' := a.(status := Settled);
    DepositsSameTerms(host, id, a, a', |a.bids|);
    LosersSameTerms(host, id, a, a', winnerIndex, |a.bids|);
    assert SettlePayouts(host, id, a, winnerIndex, winningPrice)
        == SettlePayouts(host, id, a', winnerIndex, winningPrice);
  }

  lemma RefundKeepsScript(host: Host, id: int, a: Auction, lotReturned: bool, ms: seq<Movement>)
    requires WellFormed(host, a) && Script(host, id, a, ms) && a.status == Open
    ensures
      var a' := a.(status := Refunded, lotReclaimed := lotReturned || a.lotReclaimed);
      var out := Refunds(host, id, a, |a.bids|) + (if lotReturned then [LotReturn(host, id, a)] else []);
      WellFormed(host, a') && Tagged(out, id) && Script(host, id, a', ms + out)
  {
    var a' := a.(status := Refunded, lotReclaimed := lotReturned || a.lotReclaimed);
    DepositsSameTerms(host, id, a, a', |a.bids|);
    RefundsSameTerms(host, id, a, a', |a.bids|);
  }

  lemma ReclaimKeepsScript(host: Host, id: int, a: Auction, ms: seq<Movement>)
    requires WellFormed(host, a) && Script(host, id, a, ms) && a.status == Refunded && !a.lotReclaimed
    ensures
      var a' := a.(lotReclaimed := true);
      WellFormed(host, a') && Script(host, id, a', ms + [LotReturn(host, id, a)])
  {
    var a', lot := a.(lotReclaimed := true), [LotReturn(host, id, a)];
    DepositsSameTerms(host, id, a, a', |a.bids|);
    RefundsSameTerms(host, id, a, a', |a.bids|);
    var paidIn, out := Deposits(host, id, a, |a.bids|), Refunds(host, id, a, |a.bids|);
    assert out + [] == out;
    assert (paidIn + out) + lot == paidIn + (out + lot);
  }

  /** Rewriting one auction and journalling its transfers keeps the accounts,
      if that auction's own script is kept. */
  lemma RewriteKeepsAccounts(host: Host, w: World, w': World, id: int, a: Auction,
                             ms: seq<Movement>, es: seq<Event>)
    requires Accounted(host, w) && DenseIds(w') && Rewrites(w, w', id, a, ms, es) && Tagged(ms, id)
    requires WellFormed(host, a) && Script(host, id, a, Of(w.journal, id) + ms)
    ensures Accounted(host, w')
  {
    forall other ensures Of(w'.journal, other) == Of(w.journal, other) + (if other == id then ms else []) {
      OfAppend(w.journal, ms, id, other);
    }
    forall other | other in w'.auctions
      ensures WellFormed(host, w'.auctions[other]) && Script(host, other, w'.auctions[other], Of(w'.journal, other))
    {
      if other != id {
        assert other in w.auctions && Of(w'.journal, other) == Of(w.journal, other);
      }
    }
    forall other | other !in w'.auctions ensures Of(w'.journal, other) == [] {
      assert other !in w.auctions && other != id;
    }
  }

  lemma CreationKeepsAccounts(host: Host, w: World, w': World, c: Change)
    requires Accounted(host, w) && DenseIds(w') && Made(host, w, w', c) && c.Create?
    ensures Accounted(host, w')
  {
    var id, a := w.nextAuctionId, c.auction;
    assert Of(w.journal, id) + [LotIn(host, id, a)] == [LotIn(host, id, a)];
    RewriteKeepsAccounts(host, w, w', id, a, [LotIn(host, id, a)],
                         [AuctionCreated(id, a.seller, a.maxPrice, a.commitDeadline)]);
  }

  lemma BidKeepsAccounts(host: Host, w: World, w': World, c: Change)
    requires Accounted(host, w) && DenseIds(w') && Made(host, w, w', c) && c.NewBid?
    ensures Accounted(host, w')
  {
    var id, bid, a := c.id, c.bid, w.auctions[c.id];
    BidKeepsScript(host, id, a, bid, Of(w.journal, id));
    RewriteKeepsAccounts(host, w, w', id, a.(bids := a.bids + [bid]), [DepositIn(host, id, a, bid.bidder)],
                         [BidPlaced(id, |a.bids|, bid.bidder, bid.commitment, c.encryptedBid)]);
  }

  lemma SettlementKeepsAccounts(host: Host, w: World, w': World, c: Change)
    requires Accounted(host, w) && DenseIds(w') && Made(host, w, w', c) && c.Settlement?
    ensures Accounted(host, w')
  {
    var id, a := c.id, w.auctions[c.id];
    SettlementKeepsScript(host, id, a, c.winnerIndex, c.winningPrice, Of(w.journal, id));
    RewriteKeepsAccounts(host, w, w', id, a.(status := Settled),
                         SettlePayouts(host, id, a, c.winnerIndex, c.winningPrice),
                         [AuctionSettled(id, a.bids[c.winnerIndex].bidder, c.winningPrice)]);
  }

  lemma RefundKeepsAccounts(host: Host, w: World, w': World, c: Change)
    requires Accounted(host, w) && DenseIds(w') && Made(host, w, w', c) && (c.Refund? || c.Reclaim?)
    ensures Accounted(host, w')
  {
    var id, a := c.id, w.auctions[c.id];
    if c.Refund? {
      RefundKeepsScript(host, id, a, c.lotReturned, Of(w.journal, id));
      RewriteKeepsAccounts(host, w, w', id, w'.auctions[id], w'.journal[|w.journal|..], w'.events[|w.events|..]);
    } else {
      ReclaimKeepsScript(host, id, a, Of(w.journal, id));
      RewriteKeepsAccounts(host, w, w', id, a.(lotReclaimed := true), [LotReturn(host, id, a)],
                           [LotReclaimed(id, a.seller, a.lotAmount)]);
    }
  }

  lemma ChangeKeepsAccounts(host: Host, w: World, w': World, c: Change)
    requires Accounted(host, w) && Made(host, w, w', c)
    ensures Accounted(host, w')
  {
    ChangeMovesForward(host, w, w', c);
    match c
    case NoChange =>
    case Create(_) => CreationKeepsAccounts(host, w, w', c);
    case NewBid(_, _, _) => BidKeepsAccounts(host, w, w', c);
    case Settlement(_, _, _, _) => SettlementKeepsAccounts(host, w, w', c);
    case Refund(_, _) => RefundKeepsAccounts(host, w, w', c);
    case Reclaim(_) => RefundKeepsAccounts(host, w, w', c);
  }

  /** A change moves money for one auction only, and never for a settled one. */
  lemma ChangeMovesOne(host: Host, w: World, w': World, c: Change) returns (tag: int, ms: seq<Movement>)
    requires DenseIds(w) && Made(host, w, w', c)
    ensures w'.journal == w.journal + ms && Tagged(ms, tag)
    ensures tag !in w.auctions || w.auctions[tag].status != Settled || ms == []
  {
    match c
    case NoChange =>
      tag, ms := 0, [];
    case Create(a) =>
      tag, ms := w.nextAuctionId, [LotIn(host, w.nextAuctionId, a)];
    case NewBid(id, bid, _) =>
      tag, ms := id, [DepositIn(host, id, w.auctions[id], bid.bidder)];
    case Settlement(id, winnerIndex, winningPrice, _) =>
      tag, ms := id, SettlePayouts(host, id, w.auctions[id], winnerIndex, winningPrice);
      LosersSameTerms(host, id, w.auctions[id], w.auctions[id], winnerIndex, |w.auctions[id].bids|);
    case Refund(id, lotReturned) =>
      var a := w.auctions[id];
      tag := id;
      ms := Refunds(host, id, a, |a.bids|) + (if lotReturned then [LotReturn(host, id, a)] else []);
      RefundsSameTerms(host, id, a, a, |a.bids|);
    case Reclaim(id) =>
      tag, ms := id, [LotReturn(host, id, w.auctions[id])];
  }

  /** In every state a run from deployment reaches, the journal of every
      auction is exactly the script its record tells. */
  lemma {:induction false} RunKeepsAccounts(host: Host, w: World, calls: seq<Call>)
    requires Accounted(host, w)
    ensures Accounted(host, Run(host, w, calls))
  {
    if calls == [] {
    } else {
      RunKeepsAccounts(host, w, calls[..|calls| - 1]);
      var before := Run(host, w, calls[..|calls| - 1]);
      var c := StepChange(host, before, calls[|calls| - 1]);
      ChangeKeepsAccounts(host, before, Run(host, w, calls), c);
    }
  }

  lemma ReachableAccounted(host: Host, w: World)
    requires Reachable(host, w)
    ensures Accounted(host, w)
  {
    var start, calls :| Deployed(host, start) && Run(host, start, calls) == w;
    RunKeepsAccounts(host, start, calls);
  }
}

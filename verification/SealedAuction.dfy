/** The contract as the object it is: entry points that load a record, mutate
    it, write storage and loop over token transfers.  Each is proved equal to
    its atomic step; the host's rollback restores the fields on a trap. */
module SealedAuction {
  import opened Options
  import opened Bytes
  import opened Tokens
  import opened Contract

  class AuctionContract {
    const host: Host
    var auctions: map<int, Auction>
    var nextAuctionId: int
    var ledgers: Ledgers
    var now: U64
    var events: seq<Event>
    ghost var journal: seq<Movement>

    ghost function Snapshot(): World
      reads this
    {
      World(auctions, nextAuctionId, ledgers, now, events, journal)
    }

    constructor (host: Host, ledgers: Ledgers, now: U64)
      ensures this.host == host
      ensures Snapshot() == World(map[], 1, ledgers, now, [], [])
    {
      this.host := host;
      this.auctions := map[];
      this.nextAuctionId := 1;
      this.ledgers := ledgers;
      this.now := now;
      this.events := [];
      this.journal := [];
    }

    /** token.transfer: on any answer but success the caller traps. */
    method Transfer(m: Movement) returns (ok: bool)
      modifies this`ledgers, this`journal
      ensures ok ==> Pay(host, old(Snapshot()), m) == Some(Snapshot())
      ensures !ok ==> Pay(host, old(Snapshot()), m) == None && Snapshot() == old(Snapshot())
    {
      var reply := host.transfer(ledgers, m.token, m.from, m.to, m.amount);
      ok := reply.Done?;
      if ok {
        ledgers := ledgers[m.token := reply.ledger];
        journal := journal + [m];
      }
    }

    /** One more transfer after those already made. */
    method PayNext(ghost start: World, ghost done: seq<Movement>, m: Movement) returns (ok: bool)
      requires PayAll(host, start, done) == Some(Snapshot())
      modifies this`ledgers, this`journal
      ensures
        var all := PayAll(host, start, done + [m]);
        if ok then all == Some(Snapshot()) else all == None
    {
      PayOne(host, start, done, m);
      ok := Transfer(m);
    }

    /** token.try_transfer: the caller goes on whatever the answer is. */
    method TryTransfer(id: int, a: Auction) returns (ok: bool)
      modifies this`ledgers, this`journal
      ensures (ok, Snapshot()) == TryReturnLot(host, old(Snapshot()), id, a)
    {
      var m := LotReturn(host, id, a);
      var reply := host.transfer(ledgers, m.token, m.from, m.to, m.amount);
      ok := reply.Done?;
      if ok {
        ledgers := ledgers[m.token := reply.ledger];
        journal := journal + [m];
      } else if reply.Garbled? {
        ledgers := ledgers[m.token := reply.ledger];
      }
    }

    /** What the host does when an invocation traps or returns an error. */
    method Revert(auctions: map<int, Auction>, nextAuctionId: int, ledgers: Ledgers,
                  events: seq<Event>, ghost journal: seq<Movement>)
      modifies this
      ensures Snapshot() == World(auctions, nextAuctionId, ledgers, old(now), events, journal)
    {
      this.auctions := auctions;
      this.nextAuctionId := nextAuctionId;
      this.ledgers := ledgers;
      this.events := events;
      this.journal := journal;
    }

    method CreateAuction(signers: set<Address>, seller: Address, rwaToken: Address, lotAmount: int,
                         paymentToken: Address, maxPrice: int, commitDeadline: U64, gracePeriod: U64,
                         whitelistRoot: U256, operatorKey: seq<Byte>) returns (outcome: Outcome<int>)
      modifies this
      ensures (outcome, Snapshot())
           == Contract.CreateAuction(host, old(Snapshot()), signers, seller, rwaToken, lotAmount, paymentToken,
                                     maxPrice, commitDeadline, gracePeriod, whitelistRoot, operatorKey)
    {
      if !Authorizes(host, signers, seller) { return Trapped; }
      if lotAmount <= 0 { return Rejected(LotAmountNotPositive); }
      if maxPrice <= 0 { return Rejected(MaxPriceNotPositive); }
      if maxPrice > U64_MAX { return Rejected(MaxPriceExceeds64Bits); }
      if commitDeadline <= now { return Rejected(DeadlineNotInFuture); }
      if gracePeriod == 0 { return Rejected(GracePeriodZero); }
      var auctionId := nextAuctionId;
      if auctionId + 1 > U64_MAX { return Trapped; }
      nextAuctionId := auctionId + 1;
      var auction := Auction(seller, rwaToken, lotAmount, paymentToken, maxPrice, commitDeadline,
                             gracePeriod, whitelistRoot, operatorKey, Open, [], false);
      var ok := Transfer(LotIn(host, auctionId, auction));
      if !ok {
        nextAuctionId := auctionId;
        return Trapped;
      }
      auctions := auctions[auctionId := auction];
      events := events + [AuctionCreated(auctionId, seller, maxPrice, commitDeadline)];
      return Returned(auctionId);
    }

    method PlaceBid(signers: set<Address>, auctionId: int, bidder: Address, commitment: U256,
                    encryptedBid: seq<Byte>) returns (outcome: Outcome<()>)
      modifies this
      ensures (outcome, Snapshot())
           == Contract.PlaceBid(host, old(Snapshot()), signers, auctionId, bidder, commitment, encryptedBid)
    {
      if !Authorizes(host, signers, bidder) { return Trapped; }
      if auctionId !in auctions { return Rejected(AuctionNotFound); }
      var auction := auctions[auctionId];
      if auction.status == Settled { return Rejected(AlreadySettled); }
      if auction.status == Refunded { return Rejected(AlreadyRefunded); }
      if now >= auction.commitDeadline { return Rejected(BidAfterDeadline); }
      if |auction.bids| >= MAX_BID_SLOTS { return Rejected(BidsFull); }
      if commitment == 0 { return Rejected(CommitmentIsEmptyMarker); }
      for i := 0 to |auction.bids|
        invariant forall j :: 0 <= j < i ==> auction.bids[j].commitment != commitment
      {
        if auction.bids[i].commitment == commitment { return Rejected(DuplicateCommitment); }
      }
      if |encryptedBid| > MAX_ENCRYPTED_BID_BYTES { return Rejected(EncryptedBidTooLarge); }
      var ok := Transfer(DepositIn(host, auctionId, auction, bidder));
      if !ok { return Trapped; }
      var slotIndex := |auction.bids|;
      auction := auction.(bids := auction.bids + [Bid(bidder, commitment)]);
      auctions := auctions[auctionId := auction];
      events := events + [BidPlaced(auctionId, slotIndex, bidder, commitment, encryptedBid)];
      return Returned(());
    }

    /** build_public_signals: push the id, one commitment or the empty marker per
        slot, and the rest. */
    method PublicSignals(auction: Auction, auctionId: int, winnerIndex: nat, winningPrice: int,
                         winnerAddress: Address) returns (signals: seq<int>)
      ensures signals
           == BuildPublicSignals(host.hasher, auction, auctionId, winnerIndex, winningPrice, winnerAddress)
    {
      signals := [auctionId];
      for slotIndex := 0 to MAX_BID_SLOTS
        invariant signals == [auctionId] + PaddedCommitments(auction.bids, slotIndex)
      {
        if slotIndex < |auction.bids| {
          signals := signals + [auction.bids[slotIndex].commitment];
        } else {
          signals := signals + [0];
        }
      }
      signals := signals + [winnerIndex] + [winningPrice] + [auction.whitelistRoot];
      signals := signals + [AddressLeaf(host.hasher, winnerAddress)];
    }

    method Settle(auctionId: int, winnerIndex: nat, winningPrice: int, winnerAddress: Address, proof: Proof)
      returns (outcome: Outcome<()>)
      modifies this
      ensures (outcome, Snapshot())
           == Contract.Settle(host, old(Snapshot()), auctionId, winnerIndex, winningPrice, winnerAddress, proof)
    {
      if auctionId !in auctions { return Rejected(AuctionNotFound); }
      var auction := auctions[auctionId];
      if auction.status == Settled { return Rejected(AlreadySettled); }
      if auction.status == Refunded { return Rejected(AlreadyRefunded); }
      if now < auction.commitDeadline { return Rejected(SettleBeforeDeadline); }
      if winnerIndex >= |auction.bids| { return Rejected(WinnerIndexOutOfRange); }
      if winningPrice <= 0 { return Rejected(WinningPriceNotPositive); }
      if winningPrice > auction.maxPrice { return Rejected(WinningPriceExceedsMax); }
      if auction.bids[winnerIndex].bidder != winnerAddress { return Rejected(WinnerAddressMismatch); }
      var signals := PublicSignals(auction, auctionId, winnerIndex, winningPrice, winnerAddress);
      var reply := host.verify(proof, signals);
      if reply == Declines { return Rejected(ProofInvalid); }
      if reply == CallFails { return Rejected(VerifierCallFailed); }

      var auctions0, nextId0, ledgers0, events0 := auctions, nextAuctionId, ledgers, events;
      ghost var journal0 := journal;
      auctions := auctions[auctionId := auction.(status := Settled)];
      var paid := PaySettlement(auctionId, auction, winnerIndex, winningPrice);
      if !paid {
        Revert(auctions0, nextId0, ledgers0, events0, journal0);
        return Trapped;
      }
      events := events + [AuctionSettled(auctionId, winnerAddress, winningPrice)];
      return Returned(());
    }

    /** One turn of settle's loop: a losing slot is paid, the winner's is skipped. */
    method PayLoser(ghost start: World, auctionId: int, auction: Auction, winnerIndex: nat, slotIndex: nat)
      returns (ok: bool)
      requires slotIndex < |auction.bids|
      requires PayAll(host, start, LoserPayouts(host, auctionId, auction, winnerIndex, slotIndex)) == Some(Snapshot())
      modifies this`ledgers, this`journal
      ensures
        var all := PayAll(host, start, LoserPayouts(host, auctionId, auction, winnerIndex, slotIndex + 1));
        if ok then all == Some(Snapshot()) else all == None
    {
      LosersNext(host, start, auctionId, auction, winnerIndex, slotIndex);
      ok := true;
      if slotIndex != winnerIndex {
        ghost var before := LoserPayouts(host, auctionId, auction, winnerIndex, slotIndex);
        var deposit := Movement(auctionId, auction.paymentToken, host.self,
                                auction.bids[slotIndex].bidder, auction.maxPrice);
        ok := PayNext(start, before, deposit);
      }
    }

    /** The loop of settle over the losing bids. */
    method PayLosers(auctionId: int, auction: Auction, winnerIndex: nat) returns (ok: bool)
      modifies this`ledgers, this`journal
      ensures
        var all := PayAll(host, old(Snapshot()), LoserPayouts(host, auctionId, auction, winnerIndex, |auction.bids|));
        if ok then all == Some(Snapshot()) else all == None
    {
      ghost var start := Snapshot();
      ok := true;
      for slotIndex := 0 to |auction.bids|
        invariant ok && PayAll(host, start, LoserPayouts(host, auctionId, auction, winnerIndex, slotIndex))
                        == Some(Snapshot())
      {
        ok := PayLoser(start, auctionId, auction, winnerIndex, slotIndex);
        if !ok {
          LosersFail(host, start, auctionId, auction, winnerIndex, slotIndex + 1, |auction.bids|);
          return;
        }
      }
    }

    /** The transfers of settle: seller, the winner's change, the losers, the lot. */
    method PaySettlement(auctionId: int, auction: Auction, winnerIndex: nat, winningPrice: int)
      returns (ok: bool)
      requires winnerIndex < |auction.bids|
      modifies this`ledgers, this`journal
      ensures
        var all := PayAll(host, old(Snapshot()), SettlePayouts(host, auctionId, auction, winnerIndex, winningPrice));
        if ok then all == Some(Snapshot()) else all == None
    {
      ghost var start := Snapshot();
      var winner := auction.bids[winnerIndex].bidder;
      var winnerDepositRefund := auction.maxPrice - winningPrice;
      var seller := Movement(auctionId, auction.paymentToken, host.self, auction.seller, winningPrice);
      var change := Movement(auctionId, auction.paymentToken, host.self, winner, winnerDepositRefund);
      var lot := Movement(auctionId, auction.rwaToken, host.self, winner, auction.lotAmount);
      ghost var changes := if winnerDepositRefund > 0 then [change] else [];
      ghost var losers := LoserPayouts(host, auctionId, auction, winnerIndex, |auction.bids|);
      PayParts(host, start, [seller], changes, losers, [lot]);
      ok := PayFirst(seller);
      if !ok { return; }
      if winnerDepositRefund > 0 {
        ok := PayFirst(change);
        if !ok { return; }
      }
      ok := PayLosers(auctionId, auction, winnerIndex);
      if !ok { return; }
      ok := PayFirst(lot);
    }

    /** A single transfer, as a list of one. */
    method PayFirst(m: Movement) returns (ok: bool)
      modifies this`ledgers, this`journal
      ensures
        var all := PayAll(host, old(Snapshot()), [m]);
        if ok then all == Some(Snapshot()) else all == None
    {
      assert [] + [m] == [m];
      ok := PayNext(Snapshot(), [], m);
    }

    /** The loop of refund_all over all bids. */
    method PayRefunds(auctionId: int, auction: Auction) returns (ok: bool)
      modifies this`ledgers, this`journal
      ensures
        var all := PayAll(host, old(Snapshot()), Refunds(host, auctionId, auction, |auction.bids|));
        if ok then all == Some(Snapshot()) else all == None
    {
      ghost var start := Snapshot();
      ok := true;
      for slotIndex := 0 to |auction.bids|
        invariant ok && PayAll(host, start, Refunds(host, auctionId, auction, slotIndex)) == Some(Snapshot())
      {
        ghost var before := Refunds(host, auctionId, auction, slotIndex);
        var deposit := Movement(auctionId, auction.paymentToken, host.self,
                                auction.bids[slotIndex].bidder, auction.maxPrice);
        RefundsNext(host, start, auctionId, auction, slotIndex);
        ok := PayNext(start, before, deposit);
        if !ok {
          RefundsFail(host, start, auctionId, auction, slotIndex + 1, |auction.bids|);
          return;
        }
      }
    }

    method RefundAll(auctionId: int) returns (outcome: Outcome<()>)
      modifies this
      ensures (outcome, Snapshot()) == Contract.RefundAll(host, old(Snapshot()), auctionId)
    {
      if auctionId !in auctions { return Rejected(AuctionNotFound); }
      var auction := auctions[auctionId];
      if auction.status == Settled { return Rejected(AlreadySettled); }
      if auction.status == Refunded { return Rejected(AlreadyRefunded); }
      var refundUnlockTime := SaturatingAdd(auction.commitDeadline, auction.gracePeriod);
      if now < refundUnlockTime { return Rejected(RefundTooEarly); }

      var auctions0, nextId0, ledgers0, events0 := auctions, nextAuctionId, ledgers, events;
      ghost var journal0 := journal;
      var closed := auction.(status := Refunded);
      auctions := auctions[auctionId := closed];
      var paid := PayRefunds(auctionId, auction);
      if !paid {
        Revert(auctions0, nextId0, ledgers0, events0, journal0);
        return Trapped;
      }
      var lotReturned := TryTransfer(auctionId, auction);
      if lotReturned {
        auctions := auctions[auctionId := closed.(lotReclaimed := true)];
      } else {
        events := events + [LotReturnFailed(auctionId, auction.seller, auction.lotAmount)];
      }
      events := events + [AuctionRefunded(auctionId, |auction.bids|)];
      return Returned(());
    }

    method ReclaimLot(auctionId: int) returns (outcome: Outcome<()>)
      modifies this
      ensures (outcome, Snapshot()) == Contract.ReclaimLot(host, old(Snapshot()), auctionId)
    {
      if auctionId !in auctions { return Rejected(AuctionNotFound); }
      var auction := auctions[auctionId];
      if auction.status != Refunded { return Rejected(ReclaimRequiresRefundedAuction); }
      if auction.lotReclaimed { return Rejected(LotAlreadyReclaimed); }
      var ledgers0 := ledgers;
      ghost var journal0 := journal;
      var lotReturned := TryTransfer(auctionId, auction);
      if !lotReturned {
        Revert(auctions, nextAuctionId, ledgers0, events, journal0);
        return Rejected(LotTransferFailed);
      }
      auctions := auctions[auctionId := auction.(lotReclaimed := true)];
      events := events + [LotReclaimed(auctionId, auction.seller, auction.lotAmount)];
      return Returned(());
    }
  }

  // -------------------------------------------------- lists of payments, step by step

  lemma PayOne(host: Host, w: World, done: seq<Movement>, m: Movement)
    ensures PayAll(host, w, done + [m]) ==
              if PayAll(host, w, done).Some? then Pay(host, PayAll(host, w, done).value, m) else None
  {
    assert (done + [m])[..|done|] == done;
  }

  /** Paying two lists is paying their concatenation. */
  lemma {:induction false} PayAppend(host: Host, w: World, first: seq<Movement>, second: seq<Movement>)
    ensures PayAll(host, w, first + second) ==
              if PayAll(host, w, first).Some? then PayAll(host, PayAll(host, w, first).value, second) else None
  {
    if second == [] {
      assert first + second == first;
    } else {
      PayAppend(host, w, first, second[..|second| - 1]);
      assert (first + second)[..|first + second| - 1] == first + second[..|second| - 1];
    }
  }

  function Then(host: Host, paid: Option<World>, ms: seq<Movement>): Option<World> {
    match paid
    case None => None
    case Some(w) => PayAll(host, w, ms)
  }

  lemma PayParts(host: Host, w: World, a: seq<Movement>, b: seq<Movement>, c: seq<Movement>, d: seq<Movement>)
    ensures PayAll(host, w, a + b + c + d)
         == Then(host, Then(host, Then(host, PayAll(host, w, a), b), c), d)
  {
    PayAppend(host, w, a, b);
    PayAppend(host, w, a + b, c);
    PayAppend(host, w, a + b + c, d);
  }

  lemma LosersNext(host: Host, w: World, id: int, a: Auction, winnerIndex: nat, i: nat)
    requires i < |a.bids|
    ensures
      var before := LoserPayouts(host, id, a, winnerIndex, i);
      PayAll(host, w, LoserPayouts(host, id, a, winnerIndex, i + 1)) ==
        if i == winnerIndex then PayAll(host, w, before)
        else PayAll(host, w, before + [Movement(id, a.paymentToken, host.self, a.bids[i].bidder, a.maxPrice)])
  {
    if i == winnerIndex {
      assert LoserPayouts(host, id, a, winnerIndex, i + 1) == LoserPayouts(host, id, a, winnerIndex, i);
    }
  }

  lemma RefundsNext(host: Host, w: World, id: int, a: Auction, i: nat)
    requires i < |a.bids|
    ensures
      PayAll(host, w, Refunds(host, id, a, i + 1))
      == PayAll(host, w, Refunds(host, id, a, i)
                           + [Movement(id, a.paymentToken, host.self, a.bids[i].bidder, a.maxPrice)])
  {
  }

  /** If the payments to some first slots already trap, so do all of them. */
  lemma {:induction false} LosersFail(host: Host, w: World, id: int, a: Auction, winnerIndex: nat, n: nat, m: nat)
    requires n <= m <= |a.bids| && PayAll(host, w, LoserPayouts(host, id, a, winnerIndex, n)) == None
    ensures PayAll(host, w, LoserPayouts(host, id, a, winnerIndex, m)) == None
  {
    if n == m {
    } else {
      LosersFail(host, w, id, a, winnerIndex, n, m - 1);
      var before := LoserPayouts(host, id, a, winnerIndex, m - 1);
      if m - 1 == winnerIndex {
        assert LoserPayouts(host, id, a, winnerIndex, m) == before;
      } else {
        PayOne(host, w, before, Movement(id, a.paymentToken, host.self, a.bids[m - 1].bidder, a.maxPrice));
      }
    }
  }

  lemma {:induction false} RefundsFail(host: Host, w: World, id: int, a: Auction, n: nat, m: nat)
    requires n <= m <= |a.bids| && PayAll(host, w, Refunds(host, id, a, n)) == None
    ensures PayAll(host, w, Refunds(host, id, a, m)) == None
  {
    if n == m {
    } else {
      RefundsFail(host, w, id, a, n, m - 1);
      var before := Refunds(host, id, a, m - 1);
      PayOne(host, w, before, Movement(id, a.paymentToken, host.self, a.bids[m - 1].bidder, a.maxPrice));
    }
  }
}

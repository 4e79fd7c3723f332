/** What each entry point of the contract answers, and what it leaves behind, in
    the numbers and fields of the call. */
module EntryPoints {
  import opened Options
  import opened Bytes
  import opened BidSealing
  import opened Tokens
  import opened Contract
  import opened Poseidon
  import Lifecycle

  /** One check of an entry point: what is wrong, and the error it then gives. */
  datatype Check = Check(wrong: bool, error: Error)

  /** Nothing is wrong. */
  predicate Passes(checks: seq<Check>) {
    forall k :: 0 <= k < |checks| ==> !checks[k].wrong
  }

  predicate FirstWrong(checks: seq<Check>, k: nat) {
    k < |checks| && checks[k].wrong && forall j :: 0 <= j < k ==> !checks[j].wrong
  }

  /** The first thing wrong gives this error. */
  predicate Objects(checks: seq<Check>, error: Error) {
    exists k: nat :: k < |checks| && FirstWrong(checks, k) && checks[k].error == error
  }

  /** A call with a list of checks.  It returns exactly when it is signed, nothing
      is wrong and the calls it then makes complete; it is rejected with the first
      thing wrong; otherwise it traps; and unless it returns it changes nothing. */
  ghost predicate Answers<T(!new)>(w: World, outcome: Outcome<T>, w': World, signed: bool, checks: seq<Check>,
                                   completes: bool)
  {
    && (outcome.Returned? <==> signed && Passes(checks) && completes)
    && (forall error :: outcome == Rejected(error) <==> signed && Objects(checks, error))
    && (outcome.Trapped? <==> !signed || (Passes(checks) && !completes))
    && (!outcome.Returned? ==> w' == w)
  }

  lemma RejectedAt<T(!new)>(w: World, outcome: Outcome<T>, w': World, checks: seq<Check>, completes: bool, k: nat)
    requires FirstWrong(checks, k) && outcome == Rejected(checks[k].error) && w' == w
    ensures Answers(w, outcome, w', true, checks, completes)
  {
    assert Objects(checks, checks[k].error);
    forall error ensures outcome == Rejected(error) <==> Objects(checks, error) {
      if i: nat :| i < |checks| && FirstWrong(checks, i) && checks[i].error == error {
        assert i == k;
      }
    }
  }

  lemma PastChecks<T(!new)>(w: World, outcome: Outcome<T>, w': World, checks: seq<Check>, completes: bool)
    requires Passes(checks) && (if completes then outcome.Returned? else outcome.Trapped? && w' == w)
    ensures Answers(w, outcome, w', true, checks, completes)
  {
    forall error ensures !Objects(checks, error) {
    }
  }

  /** A list has a first thing wrong among its first n checks, or none of them is
      wrong. */
  lemma {:induction false} FirstOrNone(checks: seq<Check>, n: nat)
    requires n <= |checks|
    ensures (exists k: nat :: k < n && FirstWrong(checks, k)) || forall j :: 0 <= j < n ==> !checks[j].wrong
  {
    if n == 0 {
    } else {
      FirstOrNone(checks, n - 1);
      if (forall j :: 0 <= j < n - 1 ==> !checks[j].wrong) && checks[n - 1].wrong {
        assert FirstWrong(checks, n - 1);
      }
    }
  }

  // ------------------------------------------------------------------ creation

  function CreateChecks(w: World, lotAmount: int, maxPrice: int, commitDeadline: U64, gracePeriod: U64): seq<Check> {
    [Check(lotAmount < 1, LotAmountNotPositive),
     Check(maxPrice < 1, MaxPriceNotPositive),
     Check(maxPrice > 0xFFFF_FFFF_FFFF_FFFF, MaxPriceExceeds64Bits),
     Check(commitDeadline <= w.now, DeadlineNotInFuture),
     Check(gracePeriod == 0, GracePeriodZero)]
  }

  /** When an auction is created: the seller signs, nothing is wrong with the
      terms, an id is left and the lot's token moves the lot into escrow. */
  lemma CreateAnswers(host: Host, w: World, signers: set<Address>, seller: Address, rwaToken: Address, lotAmount: int,
                      paymentToken: Address, maxPrice: int, commitDeadline: U64, gracePeriod: U64,
                      whitelistRoot: U256, operatorKey: seq<Byte>)
    ensures
      var (outcome, w') := CreateAuction(host, w, signers, seller, rwaToken, lotAmount, paymentToken, maxPrice,
                                         commitDeadline, gracePeriod, whitelistRoot, operatorKey);
      Answers(w, outcome, w', seller in signers && seller != host.self,
              CreateChecks(w, lotAmount, maxPrice, commitDeadline, gracePeriod),
              && w.nextAuctionId < 0xFFFF_FFFF_FFFF_FFFF
              && host.transfer(w.ledgers, rwaToken, seller, host.self, lotAmount).Done?)
  {
    var (outcome, w') := CreateAuction(host, w, signers, seller, rwaToken, lotAmount, paymentToken, maxPrice,
                                       commitDeadline, gracePeriod, whitelistRoot, operatorKey);
    var checks := CreateChecks(w, lotAmount, maxPrice, commitDeadline, gracePeriod);
    var completes := w.nextAuctionId < 0xFFFF_FFFF_FFFF_FFFF
      && host.transfer(w.ledgers, rwaToken, seller, host.self, lotAmount).Done?;
    if seller !in signers || seller == host.self {
    } else if lotAmount < 1 {
      RejectedAt(w, outcome, w', checks, completes, 0);
    } else if maxPrice < 1 {
      RejectedAt(w, outcome, w', checks, completes, 1);
    } else if maxPrice > 0xFFFF_FFFF_FFFF_FFFF {
      RejectedAt(w, outcome, w', checks, completes, 2);
    } else if commitDeadline <= w.now {
      RejectedAt(w, outcome, w', checks, completes, 3);
    } else if gracePeriod == 0 {
      RejectedAt(w, outcome, w', checks, completes, 4);
    } else {
      PastChecks(w, outcome, w', checks, completes);
    }
  }

  /** What a creation leaves behind: a record of the call's own arguments under
      the next id, the lot in escrow, one event. */
  lemma CreatedAsAsked(host: Host, w: World, signers: set<Address>, seller: Address, rwaToken: Address, lotAmount: int,
                       paymentToken: Address, maxPrice: int, commitDeadline: U64, gracePeriod: U64,
                       whitelistRoot: U256, operatorKey: seq<Byte>)
    requires CreateAuction(host, w, signers, seller, rwaToken, lotAmount, paymentToken, maxPrice,
                           commitDeadline, gracePeriod, whitelistRoot, operatorKey).0.Returned?
    ensures
      var (outcome, w') := CreateAuction(host, w, signers, seller, rwaToken, lotAmount, paymentToken, maxPrice,
                                         commitDeadline, gracePeriod, whitelistRoot, operatorKey);
      var id := w.nextAuctionId;
      && outcome.value == id && w'.nextAuctionId == id + 1 && w'.now == w.now
      && w'.auctions.Keys == w.auctions.Keys + {id}
      && (forall other :: other in w.auctions && other != id ==> w'.auctions[other] == w.auctions[other])
      && w'.auctions[id].seller == seller && w'.auctions[id].rwaToken == rwaToken
      && w'.auctions[id].lotAmount == lotAmount && w'.auctions[id].paymentToken == paymentToken
      && w'.auctions[id].maxPrice == maxPrice && w'.auctions[id].commitDeadline == commitDeadline
      && w'.auctions[id].gracePeriod == gracePeriod && w'.auctions[id].whitelistRoot == whitelistRoot
      && w'.auctions[id].operatorKey == operatorKey && w'.auctions[id].status == Open
      && w'.auctions[id].bids == [] && !w'.auctions[id].lotReclaimed
      && w'.journal == w.journal + [Movement(id, rwaToken, seller, host.self, lotAmount)]
      && w'.events == w.events + [AuctionCreated(id, seller, maxPrice, commitDeadline)]
      && host.transfer(w.ledgers, rwaToken, seller, host.self, lotAmount).Done?
      && w'.ledgers == w.ledgers[rwaToken := host.transfer(w.ledgers, rwaToken, seller, host.self, lotAmount).ledger]
  {
  }

  // -------------------------------------------------------------------- bidding

  /** The checks every call on an auction starts with. */
  function OpenChecks(w: World, id: int): seq<Check> {
    [Check(id !in w.auctions, AuctionNotFound),
     Check(id in w.auctions && w.auctions[id].status == Settled, AlreadySettled),
     Check(id in w.auctions && w.auctions[id].status == Refunded, AlreadyRefunded)]
  }

  predicate Taken(a: Auction, commitment: int) {
    exists i :: 0 <= i < |a.bids| && a.bids[i].commitment == commitment
  }

  function BidChecks(w: World, id: int, commitment: int, encryptedBid: seq<Byte>): seq<Check> {
    OpenChecks(w, id)
      + [Check(id in w.auctions && w.now >= w.auctions[id].commitDeadline, BidAfterDeadline),
         Check(id in w.auctions && |w.auctions[id].bids| >= 8, BidsFull),
         Check(commitment == 0, CommitmentIsEmptyMarker),
         Check(id in w.auctions && Taken(w.auctions[id], commitment), DuplicateCommitment),
         Check(|encryptedBid| > 256, EncryptedBidTooLarge)]
  }

  /** When a bid is accepted: the bidder signs, the auction is open before its
      deadline with a slot left, the commitment is nonzero and new, the ciphertext
      is at most 256 bytes, and the payment token moves the deposit into escrow. */
  lemma BidAnswers(host: Host, w: World, signers: set<Address>, id: int, bidder: Address, commitment: U256,
                   encryptedBid: seq<Byte>)
    ensures
      var (outcome, w') := PlaceBid(host, w, signers, id, bidder, commitment, encryptedBid);
      Answers(w, outcome, w', bidder in signers && bidder != host.self, BidChecks(w, id, commitment, encryptedBid),
              id in w.auctions && var a := w.auctions[id];
                host.transfer(w.ledgers, a.paymentToken, bidder, host.self, a.maxPrice).Done?)
  {
    var (outcome, w') := PlaceBid(host, w, signers, id, bidder, commitment, encryptedBid);
    var checks := BidChecks(w, id, commitment, encryptedBid);
    var completes := id in w.auctions && var a := w.auctions[id];
      host.transfer(w.ledgers, a.paymentToken, bidder, host.self, a.maxPrice).Done?;
    if bidder !in signers || bidder == host.self {
    } else if id !in w.auctions {
      RejectedAt(w, outcome, w', checks, completes, 0);
    } else if w.auctions[id].status == Settled {
      RejectedAt(w, outcome, w', checks, completes, 1);
    } else if w.auctions[id].status == Refunded {
      RejectedAt(w, outcome, w', checks, completes, 2);
    } else if w.now >= w.auctions[id].commitDeadline {
      RejectedAt(w, outcome, w', checks, completes, 3);
    } else if |w.auctions[id].bids| >= 8 {
      RejectedAt(w, outcome, w', checks, completes, 4);
    } else if commitment == 0 {
      RejectedAt(w, outcome, w', checks, completes, 5);
    } else if Taken(w.auctions[id], commitment) {
      RejectedAt(w, outcome, w', checks, completes, 6);
    } else if |encryptedBid| > 256 {
      RejectedAt(w, outcome, w', checks, completes, 7);
    } else {
      PastChecks(w, outcome, w', checks, completes);
    }
  }

  /** What a bid leaves behind: one more slot with the bidder and the commitment,
      the deposit in escrow, one event with the ciphertext. */
  lemma BidRecorded(host: Host, w: World, signers: set<Address>, id: int, bidder: Address, commitment: U256,
                    encryptedBid: seq<Byte>)
    requires PlaceBid(host, w, signers, id, bidder, commitment, encryptedBid).0.Returned?
    ensures id in w.auctions
    ensures
      var w' := PlaceBid(host, w, signers, id, bidder, commitment, encryptedBid).1;
      var a := w.auctions[id];
      && w'.auctions == w.auctions[id := a.(bids := a.bids + [Bid(bidder, commitment)])]
      && w'.nextAuctionId == w.nextAuctionId && w'.now == w.now
      && w'.journal == w.journal + [Movement(id, a.paymentToken, bidder, host.self, a.maxPrice)]
      && w'.events == w.events + [BidPlaced(id, |a.bids|, bidder, commitment, encryptedBid)]
      && host.transfer(w.ledgers, a.paymentToken, bidder, host.self, a.maxPrice).Done?
      && w'.ledgers == w.ledgers[a.paymentToken :=
                         host.transfer(w.ledgers, a.paymentToken, bidder, host.self, a.maxPrice).ledger]
  {
  }

  /** A bid sealed in the browser always fits, so it is accepted if and only if the
      rest is in order. */
  lemma BrowserBidReturnsIff(host: Host, w: World, signers: set<Address>, id: int, bidder: Address, commitment: U256,
                             box: BoxScheme, price: int, salt: seq<Byte>, operatorSecret: seq<Byte>,
                             nonce: seq<Byte>, ephemeralSecret: seq<Byte>)
    requires Works(box) && |salt| == 31 && |nonce| == 24
    ensures
      var encryptedBid := Sealed(box, price, salt, box.publicOf(operatorSecret), nonce, ephemeralSecret);
      PlaceBid(host, w, signers, id, bidder, commitment, encryptedBid).0.Returned?
      <==>
      && bidder in signers && bidder != host.self
      && id in w.auctions && var a := w.auctions[id];
      && a.status == Open && w.now < a.commitDeadline && |a.bids| < 8
      && commitment != 0 && (forall i :: 0 <= i < |a.bids| ==> a.bids[i].commitment != commitment)
      && host.transfer(w.ledgers, a.paymentToken, bidder, host.self, a.maxPrice).Done?
  {
    SealedSize(box, price, salt, operatorSecret, nonce, ephemeralSecret);
  }

  // ----------------------------------------------------------------- settlement

  function CommitmentAt(a: Auction, i: nat): int {
    if i < |a.bids| then a.bids[i].commitment else 0
  }

  /** The thirteen signals a settlement is verified against, one by one. */
  function SettleVector(h: Hasher, a: Auction, id: int, winnerIndex: nat, winningPrice: int, winner: Address): seq<int>
  {
    [id, CommitmentAt(a, 0), CommitmentAt(a, 1), CommitmentAt(a, 2), CommitmentAt(a, 3), CommitmentAt(a, 4),
     CommitmentAt(a, 5), CommitmentAt(a, 6), CommitmentAt(a, 7), winnerIndex, winningPrice, a.whitelistRoot,
     h.two(BigEndian(winner.key[..16]), BigEndian(winner.key[16..]))]
  }

  lemma {:induction false} PaddedIs(a: Auction, n: nat, i: nat)
    requires i < n
    ensures PaddedCommitments(a.bids, n)[i] == CommitmentAt(a, i)
  {
    if i == n - 1 {
    } else {
      PaddedIs(a, n - 1, i);
    }
  }

  lemma SignalsAre(h: Hasher, a: Auction, id: int, winnerIndex: nat, winningPrice: int, winner: Address)
    ensures BuildPublicSignals(h, a, id, winnerIndex, winningPrice, winner)
         == SettleVector(h, a, id, winnerIndex, winningPrice, winner)
  {
    var built, vector := BuildPublicSignals(h, a, id, winnerIndex, winningPrice, winner),
      SettleVector(h, a, id, winnerIndex, winningPrice, winner);
    assert |built| == |vector| == 13;
    forall i | 1 <= i < 9 ensures built[i] == vector[i] {
      PaddedIs(a, MAX_BID_SLOTS, i - 1);
    }
  }

  function SettleChecks(host: Host, w: World, id: int, winnerIndex: nat, winningPrice: int, winner: Address,
                        proof: Proof): seq<Check>
  {
    var inSlots := id in w.auctions && winnerIndex < |w.auctions[id].bids|;
    var reply := if inSlots then
        host.verify(proof, SettleVector(host.hasher, w.auctions[id], id, winnerIndex, winningPrice, winner))
      else Accepts;
    OpenChecks(w, id)
      + [Check(id in w.auctions && w.now < w.auctions[id].commitDeadline, SettleBeforeDeadline),
         Check(id in w.auctions && winnerIndex >= |w.auctions[id].bids|, WinnerIndexOutOfRange),
         Check(winningPrice < 1, WinningPriceNotPositive),
         Check(id in w.auctions && winningPrice > w.auctions[id].maxPrice, WinningPriceExceedsMax),
         Check(inSlots && w.auctions[id].bids[winnerIndex].bidder != winner, WinnerAddressMismatch),
         Check(reply == Declines, ProofInvalid),
         Check(reply == CallFails, VerifierCallFailed)]
  }

  ghost predicate SettlementCompletes(host: Host, w: World, id: int, winnerIndex: nat, winningPrice: int) {
    && id in w.auctions && winnerIndex < |w.auctions[id].bids|
    && PayAll(host, w.(auctions := w.auctions[id := w.auctions[id].(status := Settled)]),
              SettlePayouts(host, id, w.auctions[id], winnerIndex, winningPrice)).Some?
  }

  lemma SettleGuarded(host: Host, w: World, id: int, winnerIndex: nat, winningPrice: int, winner: Address,
                      proof: Proof, k: nat)
    requires FirstWrong(SettleChecks(host, w, id, winnerIndex, winningPrice, winner, proof), k) && k < 8
    ensures Settle(host, w, id, winnerIndex, winningPrice, winner, proof)
         == (Rejected(SettleChecks(host, w, id, winnerIndex, winningPrice, winner, proof)[k].error), w)
  {
    var checks := SettleChecks(host, w, id, winnerIndex, winningPrice, winner, proof);
    assert k > 0 ==> !checks[0].wrong;
    assert k > 1 ==> !checks[1].wrong;
    assert k > 2 ==> !checks[2].wrong;
    assert k > 3 ==> !checks[3].wrong;
    assert k > 4 ==> !checks[4].wrong;
    assert k > 5 ==> !checks[5].wrong;
    assert k > 6 ==> !checks[6].wrong;
  }

  lemma SettleVerified(host: Host, w: World, id: int, winnerIndex: nat, winningPrice: int, winner: Address,
                       proof: Proof)
    requires SettleGuard(w, id, winnerIndex, winningPrice, winner) == None
    ensures
      var (outcome, w') := Settle(host, w, id, winnerIndex, winningPrice, winner, proof);
      match host.verify(proof, SettleVector(host.hasher, w.auctions[id], id, winnerIndex, winningPrice, winner))
      case Declines => outcome == Rejected(ProofInvalid) && w' == w
      case CallFails => outcome == Rejected(VerifierCallFailed) && w' == w
      case Accepts =>
        if SettlementCompletes(host, w, id, winnerIndex, winningPrice) then outcome.Returned?
        else outcome == Trapped && w' == w
  {
    SignalsAre(host.hasher, w.auctions[id], id, winnerIndex, winningPrice, winner);
  }

  /** When an auction is settled: it is open past its deadline, the winner holds the
      slot, the price is from 1 to the cap, the verifier accepts, and all payments
      complete.  Anyone may call. */
  lemma SettleAnswers(host: Host, w: World, id: int, winnerIndex: nat, winningPrice: int, winner: Address, proof: Proof)
    ensures
      var (outcome, w') := Settle(host, w, id, winnerIndex, winningPrice, winner, proof);
      Answers(w, outcome, w', true, SettleChecks(host, w, id, winnerIndex, winningPrice, winner, proof),
              SettlementCompletes(host, w, id, winnerIndex, winningPrice))
  {
    var (outcome, w') := Settle(host, w, id, winnerIndex, winningPrice, winner, proof);
    var checks := SettleChecks(host, w, id, winnerIndex, winningPrice, winner, proof);
    var completes := SettlementCompletes(host, w, id, winnerIndex, winningPrice);
    if k: nat :| k < 8 && FirstWrong(checks, k) {
      SettleGuarded(host, w, id, winnerIndex, winningPrice, winner, proof, k);
      RejectedAt(w, outcome, w', checks, completes, k);
    } else {
      FirstOrNone(checks, 8);
      SettleUnguarded(host, w, id, winnerIndex, winningPrice, winner, proof);
      SettleVerified(host, w, id, winnerIndex, winningPrice, winner, proof);
      if checks[8].wrong {
        RejectedAt(w, outcome, w', checks, completes, 8);
      } else if checks[9].wrong {
        RejectedAt(w, outcome, w', checks, completes, 9);
      } else {
        PastChecks(w, outcome, w', checks, completes);
      }
    }
  }

  lemma SettleUnguarded(host: Host, w: World, id: int, winnerIndex: nat, winningPrice: int, winner: Address,
                        proof: Proof)
    requires
      var checks := SettleChecks(host, w, id, winnerIndex, winningPrice, winner, proof);
      forall j :: 0 <= j < 8 ==> !checks[j].wrong
    ensures SettleGuard(w, id, winnerIndex, winningPrice, winner) == None
  {
    var checks := SettleChecks(host, w, id, winnerIndex, winningPrice, winner, proof);
    assert !checks[0].wrong && !checks[1].wrong && !checks[2].wrong && !checks[3].wrong;
    assert !checks[4].wrong && !checks[5].wrong && !checks[6].wrong && !checks[7].wrong;
  }

  /** What a settlement leaves behind: the status, the payments, one event. */
  lemma SettlementRecorded(host: Host, w: World, id: int, winnerIndex: nat, winningPrice: int, winner: Address,
                           proof: Proof)
    requires Settle(host, w, id, winnerIndex, winningPrice, winner, proof).0.Returned?
    ensures id in w.auctions && winnerIndex < |w.auctions[id].bids|
    ensures
      var w' := Settle(host, w, id, winnerIndex, winningPrice, winner, proof).1;
      && w'.auctions == w.auctions[id := w.auctions[id].(status := Settled)]
      && w'.nextAuctionId == w.nextAuctionId && w'.now == w.now
      && w'.journal == w.journal + SettlePayouts(host, id, w.auctions[id], winnerIndex, winningPrice)
      && SettlementCompletes(host, w, id, winnerIndex, winningPrice)
      && w'.ledgers == PayAll(host, w.(auctions := w.auctions[id := w.auctions[id].(status := Settled)]),
                              SettlePayouts(host, id, w.auctions[id], winnerIndex, winningPrice)).value.ledgers
      && w'.events == w.events + [AuctionSettled(id, winner, winningPrice)]
  {
    var c := Lifecycle.SettleChange(host, w, id, winnerIndex, winningPrice, winner, proof);
  }

  lemma {:induction false} LosersAt(host: Host, id: int, a: Auction, winnerIndex: nat, n: nat)
    requires n <= |a.bids|
    ensures |LoserPayouts(host, id, a, winnerIndex, n)| == if winnerIndex < n then n - 1 else n
    ensures forall i :: 0 <= i < n && i != winnerIndex ==>
              LoserPayouts(host, id, a, winnerIndex, n)[if i < winnerIndex then i else i - 1]
                == Movement(id, a.paymentToken, host.self, a.bids[i].bidder, a.maxPrice)
  {
    if n == 0 {
    } else {
      LosersAt(host, id, a, winnerIndex, n - 1);
    }
  }

  /** The payments of a settlement, in order: the price to the seller, what is left
      of the winner's deposit, every loser's deposit by slot, the lot. */
  lemma PayoutsAt(host: Host, id: int, a: Auction, winnerIndex: nat, winningPrice: int)
    requires winnerIndex < |a.bids|
    ensures
      var payouts, change := SettlePayouts(host, id, a, winnerIndex, winningPrice), a.maxPrice - winningPrice;
      var before := if change > 0 then 2 else 1;
      && |payouts| == before + |a.bids|
      && payouts[0] == Movement(id, a.paymentToken, host.self, a.seller, winningPrice)
      && (change > 0 ==>
            payouts[1] == Movement(id, a.paymentToken, host.self, a.bids[winnerIndex].bidder, change))
      && (forall i :: 0 <= i < |a.bids| && i != winnerIndex ==>
            payouts[before + if i < winnerIndex then i else i - 1]
              == Movement(id, a.paymentToken, host.self, a.bids[i].bidder, a.maxPrice))
      && payouts[|payouts| - 1] == Movement(id, a.rwaToken, host.self, a.bids[winnerIndex].bidder, a.lotAmount)
  {
    LosersAt(host, id, a, winnerIndex, |a.bids|);
  }

  // -------------------------------------------------------------- refund, reclaim

  function UnlockTime(a: Auction): int {
    if a.commitDeadline + a.gracePeriod > 0xFFFF_FFFF_FFFF_FFFF then 0xFFFF_FFFF_FFFF_FFFF
    else a.commitDeadline + a.gracePeriod
  }

  function RefundChecks(w: World, id: int): seq<Check> {
    OpenChecks(w, id) + [Check(id in w.auctions && w.now < UnlockTime(w.auctions[id]), RefundTooEarly)]
  }

  ghost predicate RefundCompletes(host: Host, w: World, id: int) {
    && id in w.auctions
    && PayAll(host, w.(auctions := w.auctions[id := w.auctions[id].(status := Refunded)]),
              Refunds(host, id, w.auctions[id], |w.auctions[id].bids|)).Some?
  }

  /** When an auction is refunded: it is open, the (saturated) deadline plus grace
      has come, and every deposit goes back.  Anyone may call. */
  lemma RefundAnswers(host: Host, w: World, id: int)
    ensures
      var (outcome, w') := RefundAll(host, w, id);
      Answers(w, outcome, w', true, RefundChecks(w, id), RefundCompletes(host, w, id))
  {
    var (outcome, w') := RefundAll(host, w, id);
    var checks, completes := RefundChecks(w, id), RefundCompletes(host, w, id);
    if id !in w.auctions {
      RejectedAt(w, outcome, w', checks, completes, 0);
    } else if w.auctions[id].status == Settled {
      RejectedAt(w, outcome, w', checks, completes, 1);
    } else if w.auctions[id].status == Refunded {
      RejectedAt(w, outcome, w', checks, completes, 2);
    } else if w.now < UnlockTime(w.auctions[id]) {
      RejectedAt(w, outcome, w', checks, completes, 3);
    } else {
      PastChecks(w, outcome, w', checks, completes);
    }
  }

  /** What a refund leaves behind: one deposit back per slot, in slot order, then
      the lot if its token completes that transfer, and the event for either.  A
      token that answers with nonsense keeps its effects. */
  lemma RefundRecorded(host: Host, w: World, id: int)
    requires RefundAll(host, w, id).0.Returned?
    ensures RefundCompletes(host, w, id)
    ensures
      var w', a := RefundAll(host, w, id).1, w.auctions[id];
      var refunds := Refunds(host, id, a, |a.bids|);
      var paid := PayAll(host, w.(auctions := w.auctions[id := a.(status := Refunded)]), refunds).value;
      var reply := host.transfer(paid.ledgers, a.rwaToken, host.self, a.seller, a.lotAmount);
      var returned := reply.Done?;
      && w'.auctions == w.auctions[id := a.(status := Refunded, lotReclaimed := returned || a.lotReclaimed)]
      && w'.nextAuctionId == w.nextAuctionId && w'.now == w.now
      && w'.journal == w.journal + refunds
           + (if returned then [Movement(id, a.rwaToken, host.self, a.seller, a.lotAmount)] else [])
      && w'.ledgers == (if reply.Failed? then paid.ledgers else paid.ledgers[a.rwaToken := reply.ledger])
      && w'.events == w.events + (if returned then [] else [LotReturnFailed(id, a.seller, a.lotAmount)])
           + [AuctionRefunded(id, |a.bids|)]
  {
    var a := w.auctions[id];
    var refunds := Refunds(host, id, a, |a.bids|);
    Lifecycle.PayAllFrame(host, w.(auctions := w.auctions[id := a.(status := Refunded)]), refunds);
  }

  function ReclaimChecks(host: Host, w: World, id: int): seq<Check> {
    [Check(id !in w.auctions, AuctionNotFound),
     Check(id in w.auctions && w.auctions[id].status != Refunded, ReclaimRequiresRefundedAuction),
     Check(id in w.auctions && w.auctions[id].lotReclaimed, LotAlreadyReclaimed),
     Check(id in w.auctions && var a := w.auctions[id];
             !host.transfer(w.ledgers, a.rwaToken, host.self, a.seller, a.lotAmount).Done?, LotTransferFailed)]
  }

  /** When a lot is reclaimed: the refund left it behind and its token completes
      the transfer now.  A reclaim never traps. */
  lemma ReclaimAnswers(host: Host, w: World, id: int)
    ensures
      var (outcome, w') := ReclaimLot(host, w, id);
      Answers(w, outcome, w', true, ReclaimChecks(host, w, id), true)
  {
    var (outcome, w') := ReclaimLot(host, w, id);
    var checks := ReclaimChecks(host, w, id);
    if id !in w.auctions {
      RejectedAt(w, outcome, w', checks, true, 0);
    } else if w.auctions[id].status != Refunded {
      RejectedAt(w, outcome, w', checks, true, 1);
    } else if w.auctions[id].lotReclaimed {
      RejectedAt(w, outcome, w', checks, true, 2);
    } else if checks[3].wrong {
      RejectedAt(w, outcome, w', checks, true, 3);
    } else {
      PastChecks(w, outcome, w', checks, true);
    }
  }

  /** What a reclaim leaves behind: the flag, the lot with the seller, one event. */
  lemma ReclaimRecorded(host: Host, w: World, id: int)
    requires ReclaimLot(host, w, id).0.Returned?
    ensures id in w.auctions
    ensures
      var w', a := ReclaimLot(host, w, id).1, w.auctions[id];
      && w'.auctions == w.auctions[id := a.(lotReclaimed := true)]
      && w'.nextAuctionId == w.nextAuctionId && w'.now == w.now
      && w'.journal == w.journal + [Movement(id, a.rwaToken, host.self, a.seller, a.lotAmount)]
      && w'.events == w.events + [LotReclaimed(id, a.seller, a.lotAmount)]
      && host.transfer(w.ledgers, a.rwaToken, host.self, a.seller, a.lotAmount).Done?
      && w'.ledgers == w.ledgers[a.rwaToken :=
                         host.transfer(w.ledgers, a.rwaToken, host.self, a.seller, a.lotAmount).ledger]
  {
  }
}

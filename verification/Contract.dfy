/** The auction contract as atomic steps over storage, token ledgers, the clock
    and the event log.  An error or a trap rolls the whole call back. */
module Contract {
  import opened Options
  import opened AddressLeaves
  import opened Bytes
  import opened Tokens
  import opened Poseidon
  import opened Powers

  const MAX_BID_SLOTS := 8
  const MAX_ENCRYPTED_BID_BYTES := 256
  const U64_MAX := TWO_64 - 1

  type U64 = x: int | 0 <= x < TWO_64
  type U256 = x: int | 0 <= x < TWO_64 * TWO_64 * TWO_64 * TWO_64

  datatype Error =
    | AuctionNotFound | LotAmountNotPositive | MaxPriceNotPositive | MaxPriceExceeds64Bits
    | DeadlineNotInFuture | GracePeriodZero | AlreadySettled | AlreadyRefunded
    | BidAfterDeadline | BidsFull | DuplicateCommitment | CommitmentIsEmptyMarker
    | EncryptedBidTooLarge | SettleBeforeDeadline | WinnerIndexOutOfRange
    | WinningPriceNotPositive | WinningPriceExceedsMax | WinnerAddressMismatch
    | ProofInvalid | VerifierCallFailed | RefundTooEarly
    | ReclaimRequiresRefundedAuction | LotAlreadyReclaimed | LotTransferFailed

  datatype Status = Open | Settled | Refunded

  datatype Bid = Bid(bidder: Address, commitment: U256)

  datatype Auction = Auction(
    seller: Address, rwaToken: Address, lotAmount: int, paymentToken: Address, maxPrice: int,
    commitDeadline: U64, gracePeriod: U64, whitelistRoot: U256, operatorKey: seq<Byte>,
    status: Status, bids: seq<Bid>, lotReclaimed: bool)

  datatype Event =
    | AuctionCreated(auctionId: int, seller: Address, maxPrice: int, commitDeadline: U64)
    | BidPlaced(auctionId: int, slotIndex: nat, bidder: Address, commitment: U256, encryptedBid: seq<Byte>)
    | AuctionSettled(auctionId: int, winner: Address, winningPrice: int)
    | AuctionRefunded(auctionId: int, refundedBids: nat)
    | LotReturnFailed(auctionId: int, seller: Address, lotAmount: int)
    | LotReclaimed(auctionId: int, seller: Address, lotAmount: int)

  /** A completed token transfer that the contract made for one auction. */
  datatype Movement = Movement(auctionId: int, token: Address, from: Address, to: Address, amount: int)

  /** Groth16 proof bytes; their content only matters to the verifier. */
  datatype Proof = Proof(a: seq<Byte>, b: seq<Byte>, c: seq<Byte>)
  datatype VerifierReply = Accepts | Declines | CallFails

  /** What the contract cannot see into: its own address, the token contracts,
      the verifier it was deployed with and the hash host function. */
  datatype Host = Host(
    self: Address, transfer: TransferOracle,
    verify: (Proof, seq<int>) -> VerifierReply, hasher: Hasher)

  /** Storage, ledgers, clock, and two logs: the events, and (history only) the
      transfers the contract made. */
  datatype World = World(
    auctions: map<int, Auction>, nextAuctionId: int,
    ledgers: Ledgers, now: U64, events: seq<Event>, journal: seq<Movement>)

  datatype Outcome<+T> = Returned(value: T) | Rejected(error: Error) | Trapped

  // ------------------------------------------------------------- transfers

  /** require_auth: nobody signs for the contract itself. */
  predicate Authorizes(host: Host, signers: set<Address>, account: Address) {
    account in signers && account != host.self
  }

  function Pay(host: Host, w: World, m: Movement): Option<World> {
    match host.transfer(w.ledgers, m.token, m.from, m.to, m.amount)
    case Done(ledger) => Some(w.(ledgers := w.ledgers[m.token := ledger], journal := w.journal + [m]))
    case _ => None
  }

  /** Transfers one after another; the first failure traps. */
  function PayAll(host: Host, w: World, ms: seq<Movement>): Option<World> {
    if ms == [] then Some(w)
    else
      match PayAll(host, w, ms[..|ms| - 1])
      case None => None
      case Some(paid) => Pay(host, paid, ms[|ms| - 1])
  }

  // ------------------------------------------------------------ entry points

  function Find(w: World, auctionId: int): Result<Auction, Error> {
    if auctionId in w.auctions then Ok(w.auctions[auctionId]) else Err(AuctionNotFound)
  }

  function EnsureOpen(a: Auction): Option<Error> {
    match a.status
    case Open => None
    case Settled => Some(AlreadySettled)
    case Refunded => Some(AlreadyRefunded)
  }

  function LotIn(host: Host, id: int, a: Auction): Movement {
    Movement(id, a.rwaToken, a.seller, host.self, a.lotAmount)
  }

  function CreateAuction(host: Host, w: World, signers: set<Address>, seller: Address,
                         rwaToken: Address, lotAmount: int, paymentToken: Address, maxPrice: int,
                         commitDeadline: U64, gracePeriod: U64, whitelistRoot: U256,
                         operatorKey: seq<Byte>): (Outcome<int>, World)
  {
    if !Authorizes(host, signers, seller) then (Trapped, w)
    else if lotAmount <= 0 then (Rejected(LotAmountNotPositive), w)
    else if maxPrice <= 0 then (Rejected(MaxPriceNotPositive), w)
    else if maxPrice > U64_MAX then (Rejected(MaxPriceExceeds64Bits), w)
    else if commitDeadline <= w.now then (Rejected(DeadlineNotInFuture), w)
    else if gracePeriod == 0 then (Rejected(GracePeriodZero), w)
    else if w.nextAuctionId + 1 > U64_MAX then (Trapped, w)
    else
      var id := w.nextAuctionId;
      var a := Auction(seller, rwaToken, lotAmount, paymentToken, maxPrice, commitDeadline,
                       gracePeriod, whitelistRoot, operatorKey, Open, [], false);
      match Pay(host, w, LotIn(host, id, a))
      case None => (Trapped, w)
      case Some(paid) =>
        (Returned(id),
         paid.(nextAuctionId := id + 1, auctions := paid.auctions[id := a],
               events := paid.events + [AuctionCreated(id, seller, maxPrice, commitDeadline)]))
  }

  predicate HasCommitment(bids: seq<Bid>, commitment: U256) {
    exists i :: 0 <= i < |bids| && bids[i].commitment == commitment
  }

  function DepositIn(host: Host, id: int, a: Auction, bidder: Address): Movement {
    Movement(id, a.paymentToken, bidder, host.self, a.maxPrice)
  }

  function PlaceBid(host: Host, w: World, signers: set<Address>, auctionId: int, bidder: Address,
                    commitment: U256, encryptedBid: seq<Byte>): (Outcome<()>, World)
  {
    if !Authorizes(host, signers, bidder) then (Trapped, w)
    else
      match Find(w, auctionId)
      case Err(error) => (Rejected(error), w)
      case Ok(a) =>
        if EnsureOpen(a).Some? then (Rejected(EnsureOpen(a).value), w)
        else if w.now >= a.commitDeadline then (Rejected(BidAfterDeadline), w)
        else if |a.bids| >= MAX_BID_SLOTS then (Rejected(BidsFull), w)
        else if commitment == 0 then (Rejected(CommitmentIsEmptyMarker), w)
        else if HasCommitment(a.bids, commitment) then (Rejected(DuplicateCommitment), w)
        else if |encryptedBid| > MAX_ENCRYPTED_BID_BYTES then (Rejected(EncryptedBidTooLarge), w)
        else
          match Pay(host, w, DepositIn(host, auctionId, a, bidder))
          case None => (Trapped, w)
          case Some(paid) =>
            (Returned(()),
             paid.(auctions := paid.auctions[auctionId := a.(bids := a.bids + [Bid(bidder, commitment)])],
                   events := paid.events
                     + [BidPlaced(auctionId, |a.bids|, bidder, commitment, encryptedBid)]))
  }

  function AddressLeaf(h: Hasher, address: Address): int {
    KeyLeaf(h, address.key)
  }

  /** The commitments, padded with the empty marker to the slot count. */
  function PaddedCommitments(bids: seq<Bid>, n: nat): (padded: seq<int>)
    ensures |padded| == n
  {
    if n == 0 then []
    else PaddedCommitments(bids, n - 1) + [if n - 1 < |bids| then bids[n - 1].commitment else 0]
  }

  function BuildPublicSignals(h: Hasher, a: Auction, auctionId: int, winnerIndex: nat,
                              winningPrice: int, winner: Address): (signals: seq<int>)
  {
    [auctionId] + PaddedCommitments(a.bids, MAX_BID_SLOTS)
      + [winnerIndex, winningPrice, a.whitelistRoot, AddressLeaf(h, winner)]
  }

  /** What settle pays to the losing slots below n, in slot order. */
  function LoserPayouts(host: Host, id: int, a: Auction, winnerIndex: nat, n: nat): seq<Movement>
    requires n <= |a.bids|
  {
    if n == 0 then []
    else
      LoserPayouts(host, id, a, winnerIndex, n - 1)
        + (if n - 1 == winnerIndex then []
           else [Movement(id, a.paymentToken, host.self, a.bids[n - 1].bidder, a.maxPrice)])
  }

  /** Seller, winner's change, losers, lot: everything settle transfers. */
  function SettlePayouts(host: Host, id: int, a: Auction, winnerIndex: nat, winningPrice: int): seq<Movement>
    requires winnerIndex < |a.bids|
  {
    var winner := a.bids[winnerIndex].bidder;
    [Movement(id, a.paymentToken, host.self, a.seller, winningPrice)]
      + (if a.maxPrice - winningPrice > 0
         then [Movement(id, a.paymentToken, host.self, winner, a.maxPrice - winningPrice)] else [])
      + LoserPayouts(host, id, a, winnerIndex, |a.bids|)
      + [Movement(id, a.rwaToken, host.self, winner, a.lotAmount)]
  }

  /** The checks settle makes before it calls the verifier. */
  function SettleGuard(w: World, auctionId: int, winnerIndex: nat, winningPrice: int,
                       winner: Address): Option<Error>
  {
    match Find(w, auctionId)
    case Err(error) => Some(error)
    case Ok(a) =>
      if EnsureOpen(a).Some? then EnsureOpen(a)
      else if w.now < a.commitDeadline then Some(SettleBeforeDeadline)
      else if winnerIndex >= |a.bids| then Some(WinnerIndexOutOfRange)
      else if winningPrice <= 0 then Some(WinningPriceNotPositive)
      else if winningPrice > a.maxPrice then Some(WinningPriceExceedsMax)
      else if a.bids[winnerIndex].bidder != winner then Some(WinnerAddressMismatch)
      else None
  }

  function Settle(host: Host, w: World, auctionId: int, winnerIndex: nat, winningPrice: int,
                  winner: Address, proof: Proof): (Outcome<()>, World)
  {
    if SettleGuard(w, auctionId, winnerIndex, winningPrice, winner).Some? then
      (Rejected(SettleGuard(w, auctionId, winnerIndex, winningPrice, winner).value), w)
    else
      var a := w.auctions[auctionId];
      match host.verify(proof, BuildPublicSignals(host.hasher, a, auctionId, winnerIndex, winningPrice, winner))
      case Declines => (Rejected(ProofInvalid), w)
      case CallFails => (Rejected(VerifierCallFailed), w)
      case Accepts =>
        var marked := w.(auctions := w.auctions[auctionId := a.(status := Settled)]);
        match PayAll(host, marked, SettlePayouts(host, auctionId, a, winnerIndex, winningPrice))
        case None => (Trapped, w)
        case Some(paid) =>
          (Returned(()), paid.(events := paid.events + [AuctionSettled(auctionId, winner, winningPrice)]))
  }

  function SaturatingAdd(a: U64, b: U64): U64 {
    if a + b > U64_MAX then U64_MAX else a + b
  }

  /** The deposits of the slots below n, back to their bidders. */
  function Refunds(host: Host, id: int, a: Auction, n: nat): seq<Movement>
    requires n <= |a.bids|
  {
    if n == 0 then []
    else
      Refunds(host, id, a, n - 1)
        + [Movement(id, a.paymentToken, host.self, a.bids[n - 1].bidder, a.maxPrice)]
  }

  function LotReturn(host: Host, id: int, a: Auction): Movement {
    Movement(id, a.rwaToken, host.self, a.seller, a.lotAmount)
  }

  /** try_transfer of the lot: a failure leaves everything as it was, a garbled
      answer keeps the token's own effects. */
  function TryReturnLot(host: Host, w: World, id: int, a: Auction): (bool, World) {
    var m := LotReturn(host, id, a);
    match host.transfer(w.ledgers, m.token, m.from, m.to, m.amount)
    case Done(ledger) => (true, w.(ledgers := w.ledgers[m.token := ledger], journal := w.journal + [m]))
    case Garbled(ledger) => (false, w.(ledgers := w.ledgers[m.token := ledger]))
    case Failed => (false, w)
  }

  function RefundAll(host: Host, w: World, auctionId: int): (Outcome<()>, World) {
    match Find(w, auctionId)
    case Err(error) => (Rejected(error), w)
    case Ok(a) =>
      if EnsureOpen(a).Some? then (Rejected(EnsureOpen(a).value), w)
      else if w.now < SaturatingAdd(a.commitDeadline, a.gracePeriod) then (Rejected(RefundTooEarly), w)
      else
        var closed := a.(status := Refunded);
        var marked := w.(auctions := w.auctions[auctionId := closed]);
        match PayAll(host, marked, Refunds(host, auctionId, a, |a.bids|))
        case None => (Trapped, w)
        case Some(paid) =>
          var (returned, after) := TryReturnLot(host, paid, auctionId, a);
          var stored :=
            if returned then
              after.(auctions := after.auctions[auctionId := closed.(lotReclaimed := true)])
            else
              after.(events := after.events + [LotReturnFailed(auctionId, a.seller, a.lotAmount)]);
          (Returned(()), stored.(events := stored.events + [AuctionRefunded(auctionId, |a.bids|)]))
  }

  function ReclaimLot(host: Host, w: World, auctionId: int): (Outcome<()>, World) {
    match Find(w, auctionId)
    case Err(error) => (Rejected(error), w)
    case Ok(a) =>
      if !a.status.Refunded? then (Rejected(ReclaimRequiresRefundedAuction), w)
      else if a.lotReclaimed then (Rejected(LotAlreadyReclaimed), w)
      else
        var (returned, after) := TryReturnLot(host, w, auctionId, a);
        if !returned then (Rejected(LotTransferFailed), w)
        else
          (Returned(()),
           after.(auctions := after.auctions[auctionId := a.(lotReclaimed := true)],
                  events := after.events + [LotReclaimed(auctionId, a.seller, a.lotAmount)]))
  }

  // --------------------------------------------------------------- whole runs

  /** One thing that can happen: an entry point is called, or the rest of the
      ledger moves on. */
  datatype Call =
    | CallCreate(signers: set<Address>, seller: Address, rwaToken: Address, lotAmount: int,
                 paymentToken: Address, maxPrice: int, commitDeadline: U64, gracePeriod: U64,
                 whitelistRoot: U256, operatorKey: seq<Byte>)
    | CallBid(signers: set<Address>, auctionId: int, bidder: Address, commitment: U256,
              encryptedBid: seq<Byte>)
    | CallSettle(auctionId: int, winnerIndex: nat, winningPrice: int, winner: Address, proof: Proof)
    | CallRefund(auctionId: int)
    | CallReclaim(auctionId: int)
    | Elsewhere(now: U64, ledgers: Ledgers)

  /** Other contracts and users may do anything to the tokens, except spend a
      conforming token's balance of the contract; time does not run back. */
  ghost predicate ElsewhereAllowed(host: Host, w: World, now: U64, ledgers: Ledgers) {
    && now >= w.now
    && forall token :: Conforming(host.transfer, token) ==>
         Balance(LedgerOf(ledgers, token), host.self) >= Balance(LedgerOf(w.ledgers, token), host.self)
  }

  ghost function Step(host: Host, w: World, call: Call): World {
    match call
    case CallCreate(signers, seller, rwaToken, lotAmount, paymentToken, maxPrice, commitDeadline,
                    gracePeriod, whitelistRoot, operatorKey) =>
      CreateAuction(host, w, signers, seller, rwaToken, lotAmount, paymentToken, maxPrice,
                    commitDeadline, gracePeriod, whitelistRoot, operatorKey).1
    case CallBid(signers, auctionId, bidder, commitment, encryptedBid) =>
      PlaceBid(host, w, signers, auctionId, bidder, commitment, encryptedBid).1
    case CallSettle(auctionId, winnerIndex, winningPrice, winner, proof) =>
      Settle(host, w, auctionId, winnerIndex, winningPrice, winner, proof).1
    case CallRefund(auctionId) => RefundAll(host, w, auctionId).1
    case CallReclaim(auctionId) => ReclaimLot(host, w, auctionId).1
    case Elsewhere(now, ledgers) =>
      if ElsewhereAllowed(host, w, now, ledgers) then w.(now := now, ledgers := ledgers) else w
  }

  ghost function Run(host: Host, w: World, calls: seq<Call>): World {
    if calls == [] then w
    else Step(host, Run(host, w, calls[..|calls| - 1]), calls[|calls| - 1])
  }

  /** The deployed contract before its first call. */
  ghost predicate Deployed(host: Host, w: World) {
    && w.auctions == map[] && w.nextAuctionId == 1 && w.events == [] && w.journal == []
    && forall token :: Conforming(host.transfer, token) ==>
         Balance(LedgerOf(w.ledgers, token), host.self) >= 0
  }

  ghost predicate Reachable(host: Host, w: World) {
    exists start, calls :: Deployed(host, start) && Run(host, start, calls) == w
  }
}

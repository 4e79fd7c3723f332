/** Who gets what: the balance changes of a settlement and of a refund, account
    by account, and when those payments cannot fail. */
module Payout {
  import opened Tokens
  import opened Contract
  import opened Lifecycle
  import opened Escrow
  import opened Solvency

  // -------------------------------------------------------------- settlement

  /** What the slots below n bring an account at settlement: a losing slot its
      deposit, the winning slot the deposit less the clearing price. */
  function SlotReturns(a: Auction, winnerIndex: nat, winningPrice: int, account: Address, n: nat): int
    requires n <= |a.bids|
  {
    if n == 0 then 0
    else
      SlotReturns(a, winnerIndex, winningPrice, account, n - 1)
        + (if a.bids[n - 1].bidder != account then 0
           else if n - 1 == winnerIndex then a.maxPrice - winningPrice
           else a.maxPrice)
  }

  /** The sum over all roles an account has in a settlement. */
  function SettlementShare(a: Auction, winnerIndex: nat, winningPrice: int, token: Address, account: Address): int
    requires winnerIndex < |a.bids|
  {
    var asSeller := if account == a.seller then winningPrice else 0;
    var asBidder := SlotReturns(a, winnerIndex, winningPrice, account, |a.bids|);
    var lot := if token == a.rwaToken && account == a.bids[winnerIndex].bidder then a.lotAmount else 0;
    if token == a.paymentToken then asSeller + asBidder + lot else lot
  }

  lemma FlowOfIn(before: seq<Movement>, m: Movement, token: Address, account: Address)
    requires m.from != account
    ensures Flow(before + [m], token, account)
         == Flow(before, token, account) + (if m.token == token && m.to == account then m.amount else 0)
  {
    assert (before + [m])[..|before|] == before;
  }

  /** What the losing slots below n bring an account. */
  function LosersReturn(a: Auction, winnerIndex: nat, account: Address, n: nat): int
    requires n <= |a.bids|
  {
    if n == 0 then 0
    else
      LosersReturn(a, winnerIndex, account, n - 1)
        + (if n - 1 != winnerIndex && a.bids[n - 1].bidder == account then a.maxPrice else 0)
  }

  function LoserPayout(host: Host, id: int, a: Auction, i: nat): Movement
    requires i < |a.bids|
  {
    Movement(id, a.paymentToken, host.self, a.bids[i].bidder, a.maxPrice)
  }

  lemma LosersStep(host: Host, id: int, a: Auction, winnerIndex: nat, n: nat)
    requires 0 < n <= |a.bids|
    ensures LoserPayouts(host, id, a, winnerIndex, n)
         == LoserPayouts(host, id, a, winnerIndex, n - 1)
            + (if n - 1 == winnerIndex then [] else [LoserPayout(host, id, a, n - 1)])
    ensures n - 1 == winnerIndex ==>
      LoserPayouts(host, id, a, winnerIndex, n) == LoserPayouts(host, id, a, winnerIndex, n - 1)
  {
  }

  lemma {:induction false} LosersFlowTo(host: Host, id: int, a: Auction, winnerIndex: nat,
                                        token: Address, account: Address, n: nat)
    requires n <= |a.bids| && account != host.self
    ensures Flow(LoserPayouts(host, id, a, winnerIndex, n), token, account)
         == if token == a.paymentToken then LosersReturn(a, winnerIndex, account, n) else 0
  {
    if n == 0 {
    } else {
      LosersFlowTo(host, id, a, winnerIndex, token, account, n - 1);
      LosersStep(host, id, a, winnerIndex, n);
      if n - 1 != winnerIndex {
        FlowOfIn(LoserPayouts(host, id, a, winnerIndex, n - 1), LoserPayout(host, id, a, n - 1), token, account);
      }
    }
  }

  lemma {:induction false} SlotsAreLosersAndWinner(a: Auction, winnerIndex: nat, winningPrice: int,
                                                   account: Address, n: nat)
    requires n <= |a.bids| && winnerIndex < |a.bids|
    ensures SlotReturns(a, winnerIndex, winningPrice, account, n)
         == LosersReturn(a, winnerIndex, account, n)
            + (if winnerIndex < n && a.bids[winnerIndex].bidder == account then a.maxPrice - winningPrice else 0)
  {
    if n == 0 {
    } else {
      SlotsAreLosersAndWinner(a, winnerIndex, winningPrice, account, n - 1);
    }
  }

  lemma SettlementFlowTo(host: Host, id: int, a: Auction, winnerIndex: nat, winningPrice: int,
                         token: Address, account: Address)
    requires winnerIndex < |a.bids| && winningPrice <= a.maxPrice && account != host.self
    ensures Flow(SettlePayouts(host, id, a, winnerIndex, winningPrice), token, account)
         == SettlementShare(a, winnerIndex, winningPrice, token, account)
  {
    var winner, change := a.bids[winnerIndex].bidder, a.maxPrice - winningPrice;
    var toSeller := [Movement(id, a.paymentToken, host.self, a.seller, winningPrice)];
    var toWinner := if change > 0 then [Movement(id, a.paymentToken, host.self, winner, change)] else [];
    var toLosers := LoserPayouts(host, id, a, winnerIndex, |a.bids|);
    var lot := [Movement(id, a.rwaToken, host.self, winner, a.lotAmount)];
    FlowAppend(toSeller, toWinner, token, account);
    FlowAppend(toSeller + toWinner, toLosers, token, account);
    FlowAppend(toSeller + toWinner + toLosers, lot, token, account);
    LosersFlowTo(host, id, a, winnerIndex, token, account, |a.bids|);
    SlotsAreLosersAndWinner(a, winnerIndex, winningPrice, account, |a.bids|);
  }

  /** Exact payout: a settlement changes every account's balance of every
      conforming token by the sum of its roles, and takes exactly the deposits
      and the lot out of escrow. */
  lemma SettlementPaysExactly(host: Host, w: World, id: int, winnerIndex: nat, winningPrice: int,
                              winner: Address, proof: Proof, token: Address, account: Address)
    requires Accounted(host, w) && Conforming(host.transfer, token)
    requires Settle(host, w, id, winnerIndex, winningPrice, winner, proof).0.Returned?
    ensures
      var a, w' := w.auctions[id], Settle(host, w, id, winnerIndex, winningPrice, winner, proof).1;
      Balance(LedgerOf(w'.ledgers, token), account) == Balance(LedgerOf(w.ledgers, token), account)
        + if account == host.self then -Due(a, token)
          else SettlementShare(a, winnerIndex, winningPrice, token, account)
  {
    var a := w.auctions[id];
    var marked := w.(auctions := w.auctions[id := a.(status := Settled)]);
    var payouts := SettlePayouts(host, id, a, winnerIndex, winningPrice);
    PayAllFrame(host, marked, payouts);
    PayAllFlow(host, marked, payouts, token, account);
    FlowAppend(w.journal, payouts, token, account);
    if account == host.self {
      SettleFlow(host, id, a, winnerIndex, winningPrice, token);
    } else {
      SettlementFlowTo(host, id, a, winnerIndex, winningPrice, token, account);
    }
  }

  // ------------------------------------------------------------------ refund

  /** How many of the slots below n an account holds. */
  function SlotsHeld(a: Auction, account: Address, n: nat): nat
    requires n <= |a.bids|
  {
    if n == 0 then 0
    else SlotsHeld(a, account, n - 1) + (if a.bids[n - 1].bidder == account then 1 else 0)
  }

  lemma {:induction false} RefundsFlowTo(host: Host, id: int, a: Auction, token: Address, account: Address, n: nat)
    requires n <= |a.bids| && account != host.self
    ensures Flow(Refunds(host, id, a, n), token, account) ==
              if token == a.paymentToken then SlotsHeld(a, account, n) * a.maxPrice else 0
  {
    if n == 0 {
    } else {
      RefundsFlowTo(host, id, a, token, account, n - 1);
      var before, held := Refunds(host, id, a, n - 1), SlotsHeld(a, account, n - 1);
      var m := Movement(id, a.paymentToken, host.self, a.bids[n - 1].bidder, a.maxPrice);
      assert (before + [m])[..|before|] == before;
      assert (held + 1) * a.maxPrice == held * a.maxPrice + a.maxPrice;
    }
  }

  /** What a refund changes for an account: the contract gives up all deposits,
      a bidder gets one per slot, and the lot moves if it was returned. */
  function RefundShare(host: Host, a: Auction, lotReturned: bool, token: Address, account: Address): int {
    var deposits :=
      if token != a.paymentToken then 0
      else if account == host.self then -(|a.bids| * a.maxPrice)
      else SlotsHeld(a, account, |a.bids|) * a.maxPrice;
    var lot := if lotReturned && token == a.rwaToken then Shift(account, host.self, a.seller, a.lotAmount) else 0;
    deposits + lot
  }

  /** What the lot return adds to an account. */
  lemma LotFlowTo(host: Host, w: World, id: int, a: Auction, token: Address, account: Address)
    requires Conforming(host.transfer, token)
    ensures
      var (returned, after) := TryReturnLot(host, w, id, a);
      Balance(LedgerOf(after.ledgers, token), account) == Balance(LedgerOf(w.ledgers, token), account)
        + (if returned && token == a.rwaToken then Shift(account, host.self, a.seller, a.lotAmount) else 0)
  {
    TryReturnLotFlow(host, w, id, a, token, account);
    FlowAppend(w.journal, [LotReturn(host, id, a)], token, account);
  }

  lemma DepositsBackTo(host: Host, w: World, id: int, a: Auction, token: Address, account: Address)
    requires Conforming(host.transfer, token) && WellFormed(host, a)
    requires PayAll(host, w, Refunds(host, id, a, |a.bids|)).Some?
    ensures
      var paid := PayAll(host, w, Refunds(host, id, a, |a.bids|)).value;
      Balance(LedgerOf(paid.ledgers, token), account)
        == Balance(LedgerOf(w.ledgers, token), account) + RefundShare(host, a, false, token, account)
  {
    var refunds := Refunds(host, id, a, |a.bids|);
    PayAllFrame(host, w, refunds);
    PayAllFlow(host, w, refunds, token, account);
    FlowAppend(w.journal, refunds, token, account);
    if account == host.self {
      RefundsFlow(host, id, a, |a.bids|, token);
    } else {
      RefundsFlowTo(host, id, a, token, account, |a.bids|);
    }
  }

  /** A refund returns one deposit per slot held, and the lot to the seller
      when, and only when, it was returned; the contract gives up exactly that. */
  lemma RefundPaysExactly(host: Host, w: World, id: int, token: Address, account: Address)
    requires Accounted(host, w) && Conforming(host.transfer, token)
    requires RefundAll(host, w, id).0.Returned?
    ensures id in w.auctions && id in RefundAll(host, w, id).1.auctions
    ensures
      var a, w' := w.auctions[id], RefundAll(host, w, id).1;
      Balance(LedgerOf(w'.ledgers, token), account) == Balance(LedgerOf(w.ledgers, token), account)
        + RefundShare(host, a, w'.auctions[id].lotReclaimed, token, account)
  {
    var a := w.auctions[id];
    var marked := w.(auctions := w.auctions[id := a.(status := Refunded)]);
    var paid := PayAll(host, marked, Refunds(host, id, a, |a.bids|)).value;
    PayAllFrame(host, marked, Refunds(host, id, a, |a.bids|));
    DepositsBackTo(host, marked, id, a, token, account);
    LotFlowTo(host, paid, id, a, token, account);
  }

  // ---------------------------------------------------------------- the lot

  /** A lot left behind by a refund.  In every reachable state it is covered by
      the contract's balance, whatever its token refused so far; it can be
      reclaimed exactly when the token completes this one transfer to the seller,
      and then exactly that transfer is made. */
  lemma ReclaimExactly(host: Host, w: World, id: int)
    requires Reachable(host, w) && id in w.auctions
    requires w.auctions[id].status == Refunded && !w.auctions[id].lotReclaimed
    requires Conforming(host.transfer, w.auctions[id].rwaToken)
    ensures
      var a, (outcome, w') := w.auctions[id], ReclaimLot(host, w, id);
      && Balance(LedgerOf(w.ledgers, a.rwaToken), host.self) >= a.lotAmount > 0
      && (outcome.Returned? <==> host.transfer(w.ledgers, a.rwaToken, host.self, a.seller, a.lotAmount).Done?)
      && (outcome.Returned? ==>
            && w'.auctions == w.auctions[id := a.(lotReclaimed := true)]
            && a.rwaToken in w'.ledgers && w'.ledgers == w.ledgers[a.rwaToken := w'.ledgers[a.rwaToken]]
            && MovesExactly(LedgerOf(w.ledgers, a.rwaToken), w'.ledgers[a.rwaToken], host.self, a.seller, a.lotAmount))
  {
    var a := w.auctions[id];
    AuctionCovered(host, w, a.rwaToken, id);
    assert a.seller != host.self && a.lotAmount > 0;
    var reply := host.transfer(w.ledgers, a.rwaToken, host.self, a.seller, a.lotAmount);
  }

  // ------------------------------------------------------ staying reachable

  lemma {:induction false} RunComposes(host: Host, w: World, first: seq<Call>, second: seq<Call>)
    ensures Run(host, w, first + second) == Run(host, Run(host, w, first), second)
  {
    if second == [] {
      assert first + second == first;
    } else {
      RunComposes(host, w, first, second[..|second| - 1]);
      assert (first + second)[..|first + second| - 1] == first + second[..|second| - 1];
    }
  }

  lemma StaysReachable(host: Host, w: World, calls: seq<Call>)
    requires Reachable(host, w)
    ensures Reachable(host, Run(host, w, calls))
  {
    var start, before :| Deployed(host, start) && Run(host, start, before) == w;
    RunComposes(host, start, before, calls);
  }

  /** Whatever is called after a refund that left the lot behind, the lot stays
      in escrow for the seller alone: until it is returned it is covered and can
      be reclaimed exactly when its token completes the transfer, and the only
      transfer ever added for the auction is that one, at most once. */
  lemma LotStaysReturnable(host: Host, w: World, calls: seq<Call>, id: int)
    requires Reachable(host, w) && id in w.auctions
    requires w.auctions[id].status == Refunded && !w.auctions[id].lotReclaimed
    requires Conforming(host.transfer, w.auctions[id].rwaToken)
    ensures
      var a, w' := w.auctions[id], Run(host, w, calls);
      && id in w'.auctions && w'.auctions[id] == a.(lotReclaimed := w'.auctions[id].lotReclaimed)
      && Of(w'.journal, id)
           == Of(w.journal, id) + (if w'.auctions[id].lotReclaimed then [LotReturn(host, id, a)] else [])
      && (!w'.auctions[id].lotReclaimed ==>
            && Balance(LedgerOf(w'.ledgers, a.rwaToken), host.self) >= a.lotAmount
            && (ReclaimLot(host, w', id).0.Returned?
                <==> host.transfer(w'.ledgers, a.rwaToken, host.self, a.seller, a.lotAmount).Done?))
  {
    var a, w' := w.auctions[id], Run(host, w, calls);
    ReachableAccounted(host, w);
    RunMovesForward(host, w, calls);
    StaysReachable(host, w, calls);
    ReachableAccounted(host, w');
    assert Later(a, w'.auctions[id], w.now);
    var a' := w'.auctions[id];
    DepositsSameTerms(host, id, a, a', |a.bids|);
    RefundsSameTerms(host, id, a, a', |a.bids|);
    LeftBehindScript(host, id, a, a', Of(w.journal, id), Of(w'.journal, id));
    if !a'.lotReclaimed {
      ReclaimExactly(host, w', id);
    }
  }

  lemma LeftBehindScript(host: Host, id: int, a: Auction, a': Auction, ms: seq<Movement>, ms': seq<Movement>)
    requires a.status == Refunded && !a.lotReclaimed && a' == a.(lotReclaimed := a'.lotReclaimed)
    requires Script(host, id, a, ms) && Script(host, id, a', ms')
    requires Deposits(host, id, a, |a.bids|) == Deposits(host, id, a', |a.bids|)
    requires Refunds(host, id, a, |a.bids|) == Refunds(host, id, a', |a.bids|)
    ensures ms' == ms + (if a'.lotReclaimed then [LotReturn(host, id, a)] else [])
  {
  }
}

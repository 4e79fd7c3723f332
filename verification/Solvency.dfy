/** Conservation and solvency: per auction, what came in less what went out is
    exactly what is still due; over all auctions, the balance covers it. */
module Solvency {
  import opened Tokens
  import opened Contract
  import opened Escrow

  /** What a list of movements does to one account's balance of one token. */
  function Flow(ms: seq<Movement>, token: Address, account: Address): int {
    if ms == [] then 0
    else
      var last := ms[|ms| - 1];
      Flow(ms[..|ms| - 1], token, account)
        + (if last.token == token then Shift(account, last.from, last.to, last.amount) else 0)
  }

  lemma {:induction false} FlowAppend(ms: seq<Movement>, more: seq<Movement>, token: Address, account: Address)
    ensures Flow(ms + more, token, account) == Flow(ms, token, account) + Flow(more, token, account)
  {
    if more == [] {
      assert ms + more == ms;
    } else {
      FlowAppend(ms, more[..|more| - 1], token, account);
      assert (ms + more)[..|ms + more| - 1] == ms + more[..|more| - 1];
    }
  }

  // -------------------------------------------------- what is still in escrow

  function LotDue(a: Auction, token: Address): int {
    if a.rwaToken == token && (a.status == Open || (a.status == Refunded && !a.lotReclaimed))
    then a.lotAmount else 0
  }

  function DepositsDue(a: Auction, token: Address): int {
    if a.paymentToken == token && a.status == Open then |a.bids| * a.maxPrice else 0
  }

  function Due(a: Auction, token: Address): int {
    LotDue(a, token) + DepositsDue(a, token)
  }

  lemma {:induction false} DepositsFlow(host: Host, id: int, a: Auction, n: nat, token: Address)
    requires WellFormed(host, a) && n <= |a.bids|
    ensures Flow(Deposits(host, id, a, n), token, host.self) ==
              (if a.rwaToken == token then a.lotAmount else 0)
              + (if a.paymentToken == token then n * a.maxPrice else 0)
  {
    if n == 0 {
    } else {
      DepositsFlow(host, id, a, n - 1, token);
      assert a.bids[n - 1].bidder != host.self;
      FlowAppend(Deposits(host, id, a, n - 1), [DepositIn(host, id, a, a.bids[n - 1].bidder)], token, host.self);
      assert n * a.maxPrice == (n - 1) * a.maxPrice + a.maxPrice;
    }
  }

  lemma {:induction false} RefundsFlow(host: Host, id: int, a: Auction, n: nat, token: Address)
    requires WellFormed(host, a) && n <= |a.bids|
    ensures Flow(Refunds(host, id, a, n), token, host.self) ==
              if a.paymentToken == token then -(n * a.maxPrice) else 0
  {
    if n == 0 {
    } else {
      RefundsFlow(host, id, a, n - 1, token);
      assert a.bids[n - 1].bidder != host.self;
      assert n * a.maxPrice == (n - 1) * a.maxPrice + a.maxPrice;
    }
  }

  function LoserCount(winnerIndex: nat, n: nat): nat {
    if winnerIndex < n then n - 1 else n
  }

  lemma LoserCountStep(winnerIndex: nat, n: nat, each: int)
    requires n > 0
    ensures LoserCount(winnerIndex, n) * each
         == LoserCount(winnerIndex, n - 1) * each + (if n - 1 == winnerIndex then 0 else each)
  {
    if n - 1 != winnerIndex {
      assert LoserCount(winnerIndex, n) == LoserCount(winnerIndex, n - 1) + 1;
    }
  }

  lemma {:induction false} LosersFlow(host: Host, id: int, a: Auction, winnerIndex: nat, n: nat, token: Address)
    requires WellFormed(host, a) && n <= |a.bids|
    ensures Flow(LoserPayouts(host, id, a, winnerIndex, n), token, host.self) ==
              if a.paymentToken == token then -(LoserCount(winnerIndex, n) * a.maxPrice) else 0
  {
    if n == 0 {
    } else {
      LosersFlow(host, id, a, winnerIndex, n - 1, token);
      LoserCountStep(winnerIndex, n, a.maxPrice);
      var before := LoserPayouts(host, id, a, winnerIndex, n - 1);
      if n - 1 == winnerIndex {
        assert LoserPayouts(host, id, a, winnerIndex, n) == before;
      } else {
        var m := Movement(id, a.paymentToken, host.self, a.bids[n - 1].bidder, a.maxPrice);
        assert LoserPayouts(host, id, a, winnerIndex, n) == before + [m];
        FlowOfOut(before, m, token, host.self);
      }
    }
  }

  lemma FlowOfOut(before: seq<Movement>, m: Movement, token: Address, account: Address)
    requires m.from == account && m.to != account
    ensures Flow(before + [m], token, account)
         == Flow(before, token, account) - (if m.token == token then m.amount else 0)
  {
    assert (before + [m])[..|before|] == before;
  }

  /** A settlement pays out the whole escrow of the auction, to the unit. */
  lemma SettleFlow(host: Host, id: int, a: Auction, winnerIndex: nat, winningPrice: int, token: Address)
    requires WellFormed(host, a) && winnerIndex < |a.bids| && 0 < winningPrice <= a.maxPrice
    ensures Flow(SettlePayouts(host, id, a, winnerIndex, winningPrice), token, host.self) ==
              -(if a.paymentToken == token then |a.bids| * a.maxPrice else 0)
              - (if a.rwaToken == token then a.lotAmount else 0)
  {
    var winner, change := a.bids[winnerIndex].bidder, a.maxPrice - winningPrice;
    assert winner != host.self;
    var toSeller := [Movement(id, a.paymentToken, host.self, a.seller, winningPrice)];
    var toWinner := if change > 0 then [Movement(id, a.paymentToken, host.self, winner, change)] else [];
    var toLosers := LoserPayouts(host, id, a, winnerIndex, |a.bids|);
    var lot := [Movement(id, a.rwaToken, host.self, winner, a.lotAmount)];
    FlowAppend(toSeller, toWinner, token, host.self);
    FlowAppend(toSeller + toWinner, toLosers, token, host.self);
    FlowAppend(toSeller + toWinner + toLosers, lot, token, host.self);
    LosersFlow(host, id, a, winnerIndex, |a.bids|, token);
    assert |a.bids| * a.maxPrice == (|a.bids| - 1) * a.maxPrice + a.maxPrice;
  }

  /** Deposits in and settlement out cancel, the lot included. */
  lemma SettledFlow(host: Host, id: int, a: Auction, winnerIndex: nat, winningPrice: int, token: Address)
    requires WellFormed(host, a) && winnerIndex < |a.bids| && 0 < winningPrice <= a.maxPrice
    ensures Flow(Deposits(host, id, a, |a.bids|) + SettlePayouts(host, id, a, winnerIndex, winningPrice),
                 token, host.self) == 0
  {
    DepositsFlow(host, id, a, |a.bids|, token);
    SettleFlow(host, id, a, winnerIndex, winningPrice, token);
    FlowAppend(Deposits(host, id, a, |a.bids|), SettlePayouts(host, id, a, winnerIndex, winningPrice),
               token, host.self);
  }

  /** Deposits in and refunds out leave the lot, unless it went back too. */
  lemma RefundedFlow(host: Host, id: int, a: Auction, lot: seq<Movement>, token: Address)
    requires WellFormed(host, a) && (lot == [] || lot == [LotReturn(host, id, a)])
    ensures Flow(Deposits(host, id, a, |a.bids|) + (Refunds(host, id, a, |a.bids|) + lot), token, host.self)
         == if a.rwaToken == token && lot == [] then a.lotAmount else 0
  {
    var paidIn, refunds := Deposits(host, id, a, |a.bids|), Refunds(host, id, a, |a.bids|);
    DepositsFlow(host, id, a, |a.bids|, token);
    RefundsFlow(host, id, a, |a.bids|, token);
    FlowAppend(refunds, lot, token, host.self);
    FlowAppend(paidIn, refunds + lot, token, host.self);
  }

  /** Per-auction conservation. */
  lemma ScriptFlow(host: Host, id: int, a: Auction, ms: seq<Movement>, token: Address)
    requires WellFormed(host, a) && Script(host, id, a, ms)
    ensures Flow(ms, token, host.self) == Due(a, token)
  {
    match a.status
    case Open =>
      DepositsFlow(host, id, a, |a.bids|, token);
    case Settled =>
      var winnerIndex: nat, winningPrice :|
        && winnerIndex < |a.bids| && 0 < winningPrice <= a.maxPrice
        && ms == Deposits(host, id, a, |a.bids|) + SettlePayouts(host, id, a, winnerIndex, winningPrice);
      SettledFlow(host, id, a, winnerIndex, winningPrice, token);
    case Refunded =>
      var lot := if a.lotReclaimed then [LotReturn(host, id, a)] else [];
      RefundedFlow(host, id, a, lot, token);
  }

  // ---------------------------------------------------- balance versus journal

  /** How far the balance is ahead of what the journal accounts for. */
  function Slack(w: World, token: Address, account: Address): int {
    Balance(LedgerOf(w.ledgers, token), account) - Flow(w.journal, token, account)
  }

  lemma PayFlow(host: Host, w: World, m: Movement, token: Address, account: Address)
    requires Conforming(host.transfer, token) && Pay(host, w, m).Some?
    ensures
      var paid := Pay(host, w, m).value;
      Slack(paid, token, account) == Slack(w, token, account)
  {
    FlowAppend(w.journal, [m], token, account);
    assert Flow([m], token, account)
        == if m.token == token then Shift(account, m.from, m.to, m.amount) else 0;
  }

  /** A list of transfers changes every account by exactly its flow. */
  lemma {:induction false} PayAllFlow(host: Host, w: World, ms: seq<Movement>, token: Address, account: Address)
    requires Conforming(host.transfer, token) && PayAll(host, w, ms).Some?
    ensures
      var paid := PayAll(host, w, ms).value;
      Slack(paid, token, account) == Slack(w, token, account)
  {
    if ms == [] {
    } else {
      PayAllFlow(host, w, ms[..|ms| - 1], token, account);
      PayFlow(host, PayAll(host, w, ms[..|ms| - 1]).value, ms[|ms| - 1], token, account);
    }
  }

  lemma TryReturnLotFlow(host: Host, w: World, id: int, a: Auction, token: Address, account: Address)
    requires Conforming(host.transfer, token)
    ensures
      var after := TryReturnLot(host, w, id, a).1;
      Slack(after, token, account) == Slack(w, token, account)
  {
    var m := LotReturn(host, id, a);
    var reply := host.transfer(w.ledgers, m.token, m.from, m.to, m.amount);
    if reply.Done? {
      PayFlow(host, w, m, token, account);
    }
  }

  lemma CreateKeepsSlack(host: Host, w: World, call: Call, token: Address)
    requires Conforming(host.transfer, token) && call.CallCreate?
    ensures Slack(Step(host, w, call), token, host.self) == Slack(w, token, host.self)
  {
    var a := Auction(call.seller, call.rwaToken, call.lotAmount, call.paymentToken, call.maxPrice,
                     call.commitDeadline, call.gracePeriod, call.whitelistRoot, call.operatorKey, Open, [], false);
    if Pay(host, w, LotIn(host, w.nextAuctionId, a)).Some? {
      PayFlow(host, w, LotIn(host, w.nextAuctionId, a), token, host.self);
    }
  }

  lemma BidKeepsSlack(host: Host, w: World, call: Call, token: Address)
    requires Conforming(host.transfer, token) && call.CallBid?
    ensures Slack(Step(host, w, call), token, host.self) == Slack(w, token, host.self)
  {
    if call.auctionId in w.auctions {
      var m := DepositIn(host, call.auctionId, w.auctions[call.auctionId], call.bidder);
      if Pay(host, w, m).Some? {
        PayFlow(host, w, m, token, host.self);
      }
    }
  }

  lemma SettleKeepsSlack(host: Host, w: World, call: Call, token: Address)
    requires Conforming(host.transfer, token) && call.CallSettle?
    ensures Slack(Step(host, w, call), token, host.self) == Slack(w, token, host.self)
  {
    var id := call.auctionId;
    if Settle(host, w, id, call.winnerIndex, call.winningPrice, call.winner, call.proof).0.Returned? {
      var a := w.auctions[id];
      var marked := w.(auctions := w.auctions[id := a.(status := Settled)]);
      PayAllFlow(host, marked, SettlePayouts(host, id, a, call.winnerIndex, call.winningPrice), token, host.self);
    }
  }

  lemma RefundKeepsSlack(host: Host, w: World, id: int, token: Address)
    requires Conforming(host.transfer, token)
    ensures Slack(RefundAll(host, w, id).1, token, host.self) == Slack(w, token, host.self)
  {
    if RefundAll(host, w, id).0.Returned? {
      var a := w.auctions[id];
      var marked := w.(auctions := w.auctions[id := a.(status := Refunded)]);
      var refunds := Refunds(host, id, a, |a.bids|);
      PayAllFlow(host, marked, refunds, token, host.self);
      TryReturnLotFlow(host, PayAll(host, marked, refunds).value, id, a, token, host.self);
    }
  }

  /** No step lets the journal outrun the balance of a conforming token. */
  lemma StepKeepsCover(host: Host, w: World, call: Call, token: Address)
    requires Conforming(host.transfer, token)
    ensures Slack(Step(host, w, call), token, host.self) >= Slack(w, token, host.self)
  {
    if call.CallCreate? {
      CreateKeepsSlack(host, w, call, token);
    } else if call.CallBid? {
      BidKeepsSlack(host, w, call, token);
    } else if call.CallSettle? {
      SettleKeepsSlack(host, w, call, token);
    } else if call.CallRefund? {
      RefundKeepsSlack(host, w, call.auctionId, token);
    } else if call.CallReclaim? && call.auctionId in w.auctions {
      TryReturnLotFlow(host, w, call.auctionId, w.auctions[call.auctionId], token, host.self);
    }
  }

  lemma {:induction false} RunKeepsCover(host: Host, w: World, calls: seq<Call>, token: Address)
    requires Conforming(host.transfer, token)
    ensures Slack(Run(host, w, calls), token, host.self) >= Slack(w, token, host.self)
  {
    if calls == [] {
    } else {
      RunKeepsCover(host, w, calls[..|calls| - 1], token);
      StepKeepsCover(host, Run(host, w, calls[..|calls| - 1]), calls[|calls| - 1], token);
    }
  }

  // -------------------------------------------------------- all auctions at once

  /** What auctions 1 .. n - 1 still hold of a token. */
  function Obligations(w: World, token: Address, n: int): int
    requires 1 <= n && forall id :: 1 <= id < n ==> id in w.auctions
  {
    if n == 1 then 0 else Obligations(w, token, n - 1) + Due(w.auctions[n - 1], token)
  }

  function FlowOfAll(journal: seq<Movement>, token: Address, account: Address, n: int): int
    requires 1 <= n
  {
    if n == 1 then 0
    else FlowOfAll(journal, token, account, n - 1) + Flow(Of(journal, n - 1), token, account)
  }

  /** One movement changes the flow of the auction it was made for only. */
  lemma FlowOfOneStep(journal: seq<Movement>, m: Movement, token: Address, account: Address, id: int)
    ensures Flow(Of(journal + [m], id), token, account)
         == Flow(Of(journal, id), token, account) + (if m.auctionId == id then Flow([m], token, account) else 0)
  {
    OfAppend(journal, [m], m.auctionId, id);
    FlowAppend(Of(journal, id), [m], token, account);
    assert Of(journal, id) + [] == Of(journal, id);
  }

  lemma {:induction false} FlowOfAllStep(journal: seq<Movement>, m: Movement, token: Address, account: Address, n: int)
    requires 1 <= n
    ensures FlowOfAll(journal + [m], token, account, n) == FlowOfAll(journal, token, account, n)
              + (if 1 <= m.auctionId < n then Flow([m], token, account) else 0)
  {
    if n == 1 {
    } else {
      FlowOfAllStep(journal, m, token, account, n - 1);
      FlowOfOneStep(journal, m, token, account, n - 1);
    }
  }

  lemma {:induction false} FlowOfEmpty(token: Address, account: Address, n: int)
    requires 1 <= n
    ensures FlowOfAll([], token, account, n) == 0
  {
    if n == 1 {
    } else {
      FlowOfEmpty(token, account, n - 1);
    }
  }

  /** The journal splits by auction. */
  lemma {:induction false} FlowSplits(journal: seq<Movement>, token: Address, account: Address, n: int)
    requires 1 <= n && forall i :: 0 <= i < |journal| ==> 1 <= journal[i].auctionId < n
    ensures Flow(journal, token, account) == FlowOfAll(journal, token, account, n)
  {
    if journal == [] {
      FlowOfEmpty(token, account, n);
    } else {
      var front, last := journal[..|journal| - 1], journal[|journal| - 1];
      FlowSplits(front, token, account, n);
      FlowOfAllStep(front, last, token, account, n);
      assert journal == front + [last];
      assert Flow([last], token, account)
        == if last.token == token then Shift(account, last.from, last.to, last.amount) else 0;
    }
  }

  lemma {:induction false} JournalIds(journal: seq<Movement>, id: int)
    requires exists i :: 0 <= i < |journal| && journal[i].auctionId == id
    ensures Of(journal, id) != []
  {
    var front, last := journal[..|journal| - 1], journal[|journal| - 1];
    if last.auctionId == id {
    } else {
      var i :| 0 <= i < |journal| && journal[i].auctionId == id;
      assert front[i].auctionId == id;
      JournalIds(front, id);
    }
  }

  lemma {:induction false} FlowIsDue(w: World, token: Address, account: Address, n: int)
    requires 1 <= n && forall id :: 1 <= id < n ==> id in w.auctions
    requires forall id :: 1 <= id < n ==> Flow(Of(w.journal, id), token, account) == Due(w.auctions[id], token)
    ensures FlowOfAll(w.journal, token, account, n) == Obligations(w, token, n)
  {
    if n == 1 {
    } else {
      FlowIsDue(w, token, account, n - 1);
    }
  }

  lemma JournalIsDue(host: Host, w: World, token: Address)
    requires Accounted(host, w)
    ensures Flow(w.journal, token, host.self) == Obligations(w, token, w.nextAuctionId)
  {
    forall i | 0 <= i < |w.journal| ensures 1 <= w.journal[i].auctionId < w.nextAuctionId {
      JournalIds(w.journal, w.journal[i].auctionId);
    }
    FlowSplits(w.journal, token, host.self, w.nextAuctionId);
    forall id | 1 <= id < w.nextAuctionId
      ensures id in w.auctions && Flow(Of(w.journal, id), token, host.self) == Due(w.auctions[id], token)
    {
      ScriptFlow(host, id, w.auctions[id], Of(w.journal, id), token);
    }
    FlowIsDue(w, token, host.self, w.nextAuctionId);
  }

  /** Escrow solvency: in every reachable state and for every conforming token,
      the contract's balance covers all open lots, open deposits and lots left
      behind by a refund, whatever the other tokens did. */
  lemma EscrowSolvent(host: Host, w: World, token: Address)
    requires Reachable(host, w) && Conforming(host.transfer, token)
    ensures Accounted(host, w)
    ensures Balance(LedgerOf(w.ledgers, token), host.self) >= Obligations(w, token, w.nextAuctionId)
  {
    ReachableAccounted(host, w);
    var start, calls :| Deployed(host, start) && Run(host, start, calls) == w;
    RunKeepsCover(host, start, calls, token);
    JournalIsDue(host, w, token);
  }

  lemma DueNonNegative(host: Host, a: Auction, token: Address)
    requires WellFormed(host, a)
    ensures Due(a, token) >= 0
  {
    assert |a.bids| * a.maxPrice >= 0;
  }

  lemma {:induction false} ObligationsInclude(w: World, token: Address, n: int, id: int)
    requires 1 <= n
    requires forall i :: 1 <= i < n ==> i in w.auctions && Due(w.auctions[i], token) >= 0
    ensures Obligations(w, token, n) >= 0
    ensures 1 <= id < n ==> Obligations(w, token, n) >= Due(w.auctions[id], token)
  {
    if n == 1 {
    } else {
      ObligationsInclude(w, token, n - 1, id);
    }
  }

  /** In particular every single auction's escrow is covered. */
  lemma AuctionCovered(host: Host, w: World, token: Address, id: int)
    requires Reachable(host, w) && Conforming(host.transfer, token) && id in w.auctions
    ensures Accounted(host, w)
    ensures Balance(LedgerOf(w.ledgers, token), host.self) >= Due(w.auctions[id], token)
  {
    EscrowSolvent(host, w, token);
    forall i | 1 <= i < w.nextAuctionId ensures i in w.auctions && Due(w.auctions[i], token) >= 0 {
      DueNonNegative(host, w.auctions[i], token);
    }
    ObligationsInclude(w, token, w.nextAuctionId, id);
  }
}

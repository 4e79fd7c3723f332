/** Payments that go through and payments that do not: when a refund and a
    settlement complete, whatever the tokens refuse and whenever. */
module Refusals {
  import opened Options
  import opened Tokens
  import opened Contract
  import opened Lifecycle
  import opened Escrow
  import opened Solvency

  // ------------------------------------------------------- lists of payments

  /** All payments leave the contract for someone else, in conforming tokens. */
  ghost predicate Outgoing(host: Host, ms: seq<Movement>) {
    forall i :: 0 <= i < |ms| ==>
      && ms[i].from == host.self && ms[i].to != host.self && ms[i].amount >= 0
      && Conforming(host.transfer, ms[i].token)
  }

  /** The balances cover the payments in total. */
  ghost predicate CoveredBy(host: Host, w: World, ms: seq<Movement>) {
    forall i :: 0 <= i < |ms| ==>
      Balance(LedgerOf(w.ledgers, ms[i].token), host.self) + Flow(ms, ms[i].token, host.self) >= 0
  }

  /** The payments before the i-th are made, the balance then covers the i-th, and
      its token does not complete it. */
  ghost predicate RefusedAt(host: Host, w: World, ms: seq<Movement>, i: nat) {
    && i < |ms| && PayAll(host, w, ms[..i]).Some?
    && var m, ledgers := ms[i], PayAll(host, w, ms[..i]).value.ledgers;
    && 0 <= m.amount <= Balance(LedgerOf(ledgers, m.token), m.from)
    && !host.transfer(ledgers, m.token, m.from, m.to, m.amount).Done?
  }

  ghost predicate Refused(host: Host, w: World, ms: seq<Movement>) {
    exists i: nat :: RefusedAt(host, w, ms, i)
  }

  lemma {:induction false} PrefixFails(host: Host, w: World, ms: seq<Movement>, n: nat)
    requires n <= |ms| && PayAll(host, w, ms[..n]) == None
    ensures PayAll(host, w, ms) == None
  {
    if n == |ms| {
      assert ms[..n] == ms;
    } else {
      var front := ms[..|ms| - 1];
      assert front[..n] == ms[..n];
      PrefixFails(host, w, front, n);
    }
  }

  /** What is covered in total is covered payment by payment. */
  lemma FrontCovered(host: Host, w: World, ms: seq<Movement>)
    requires ms != [] && Outgoing(host, ms) && CoveredBy(host, w, ms)
    ensures Outgoing(host, ms[..|ms| - 1]) && CoveredBy(host, w, ms[..|ms| - 1])
    ensures
      var paid, last := PayAll(host, w, ms[..|ms| - 1]), ms[|ms| - 1];
      paid.Some? ==> 0 <= last.amount <= Balance(LedgerOf(paid.value.ledgers, last.token), host.self)
  {
    var front, last := ms[..|ms| - 1], ms[|ms| - 1];
    forall i | 0 <= i < |front|
      ensures front[i] == ms[i]
      ensures Balance(LedgerOf(w.ledgers, front[i].token), host.self) + Flow(front, front[i].token, host.self) >= 0
    {
      assert Flow(ms, ms[i].token, host.self) <= Flow(front, ms[i].token, host.self);
    }
    if PayAll(host, w, front).Some? {
      PayAllFrame(host, w, front);
      PayAllFlow(host, w, front, last.token, host.self);
      FlowAppend(w.journal, front, last.token, host.self);
    }
  }

  lemma RefusedLonger(host: Host, w: World, ms: seq<Movement>, i: nat)
    requires ms != [] && RefusedAt(host, w, ms[..|ms| - 1], i)
    ensures RefusedAt(host, w, ms, i)
  {
    assert ms[..|ms| - 1][..i] == ms[..i];
  }

  /** Payments that are covered in total fail in one way only: a token refuses
      one of them. */
  lemma {:induction false} PayAllIff(host: Host, w: World, ms: seq<Movement>)
    requires Outgoing(host, ms) && CoveredBy(host, w, ms)
    ensures PayAll(host, w, ms).Some? <==> !Refused(host, w, ms)
  {
    if i: nat :| RefusedAt(host, w, ms, i) {
      assert ms[..i + 1][..i] == ms[..i];
      PrefixFails(host, w, ms, i + 1);
    }
    if ms == [] {
    } else if PayAll(host, w, ms) == None {
      var front := ms[..|ms| - 1];
      FrontCovered(host, w, ms);
      PayAllIff(host, w, front);
      if i: nat :| RefusedAt(host, w, front, i) {
        RefusedLonger(host, w, ms, i);
      } else {
        assert RefusedAt(host, w, ms, |ms| - 1);
      }
    }
  }

  // ------------------------------------------------------------------- gates

  ghost predicate AllGated(host: Host, ms: seq<Movement>, gate: Gate) {
    forall i :: 0 <= i < |ms| ==> GatedBy(host.transfer, ms[i].token, host.self, gate)
  }

  /** The gates of all tokens are as they were. */
  ghost predicate SameGates(gate: Gate, w: World, w': World) {
    forall token, other ::
      gate(token, LedgerOf(w'.ledgers, token), other) == gate(token, LedgerOf(w.ledgers, token), other)
  }

  predicate Admits(gate: Gate, w: World, m: Movement) {
    gate(m.token, LedgerOf(w.ledgers, m.token), m.to)
  }

  lemma PayGated(host: Host, w: World, m: Movement, gate: Gate)
    requires m.from == host.self && GatedBy(host.transfer, m.token, host.self, gate)
    requires 0 <= m.amount <= Balance(LedgerOf(w.ledgers, m.token), host.self)
    ensures Pay(host, w, m).Some? <==> Admits(gate, w, m)
    ensures Pay(host, w, m).Some? ==> SameGates(gate, w, Pay(host, w, m).value)
  {
    var reply := host.transfer(w.ledgers, m.token, m.from, m.to, m.amount);
    if reply.Done? {
      var w' := Pay(host, w, m).value;
      forall token, other
        ensures gate(token, LedgerOf(w'.ledgers, token), other) == gate(token, LedgerOf(w.ledgers, token), other)
      {
      }
    }
  }

  /** Where refusals are gates, covered payments go through exactly when every
      recipient is admitted now. */
  lemma {:induction false} GateDecides(host: Host, w: World, ms: seq<Movement>, gate: Gate)
    requires Outgoing(host, ms) && CoveredBy(host, w, ms) && AllGated(host, ms, gate)
    ensures PayAll(host, w, ms).Some? <==> forall m :: m in ms ==> Admits(gate, w, m)
    ensures PayAll(host, w, ms).Some? ==> SameGates(gate, w, PayAll(host, w, ms).value)
  {
    if ms == [] {
    } else {
      var front, last := ms[..|ms| - 1], ms[|ms| - 1];
      FrontCovered(host, w, ms);
      GateDecides(host, w, front, gate);
      assert forall m :: m in ms <==> m in front || m == last;
      if PayAll(host, w, front).Some? {
        var paid := PayAll(host, w, front).value;
        assert last == ms[|ms| - 1] && GatedBy(host.transfer, last.token, host.self, gate);
        PayGated(host, paid, last, gate);
        assert Admits(gate, paid, last) <==> Admits(gate, w, last);
        assert PayAll(host, w, ms) == Pay(host, paid, last);
      }
    }
  }

  // ------------------------------------------------------------------ refunds

  lemma {:induction false} RefundsAt(host: Host, id: int, a: Auction, n: nat)
    requires n <= |a.bids|
    ensures |Refunds(host, id, a, n)| == n
    ensures forall i :: 0 <= i < n ==>
              Refunds(host, id, a, n)[i] == Movement(id, a.paymentToken, host.self, a.bids[i].bidder, a.maxPrice)
  {
    if n == 0 {
    } else {
      RefundsAt(host, id, a, n - 1);
    }
  }

  /** The world in which refund_all makes its payments. */
  function Closing(w: World, id: int, status: Status): World
    requires id in w.auctions
  {
    w.(auctions := w.auctions[id := w.auctions[id].(status := status)])
  }

  lemma RefundsCovered(host: Host, w: World, id: int)
    requires Reachable(host, w) && id in w.auctions && w.auctions[id].status == Open
    requires Conforming(host.transfer, w.auctions[id].paymentToken)
    ensures
      var a := w.auctions[id];
      var refunds := Refunds(host, id, a, |a.bids|);
      Outgoing(host, refunds) && CoveredBy(host, Closing(w, id, Refunded), refunds)
  {
    var a := w.auctions[id];
    AuctionCovered(host, w, a.paymentToken, id);
    RefundsAt(host, id, a, |a.bids|);
    RefundsFlow(host, id, a, |a.bids|, a.paymentToken);
    assert LotDue(a, a.paymentToken) >= 0;
  }

  /** Deposits are never stranded for want of funds.  From every reachable state,
      whatever the lot's token does, anyone's call refunds an open auction if and
      only if the (saturated) deadline plus grace has come and the payment token
      refuses none of the deposits at the moment it is paid back. */
  lemma RefundReturnsIff(host: Host, w: World, id: int)
    requires Reachable(host, w) && id in w.auctions && w.auctions[id].status == Open
    requires Conforming(host.transfer, w.auctions[id].paymentToken)
    ensures
      var a := w.auctions[id];
      RefundAll(host, w, id).0.Returned? <==>
        && w.now >= SaturatingAdd(a.commitDeadline, a.gracePeriod)
        && !Refused(host, Closing(w, id, Refunded), Refunds(host, id, a, |a.bids|))
    ensures RefundAll(host, w, id).0.Returned? ==>
              id in RefundAll(host, w, id).1.auctions && RefundAll(host, w, id).1.auctions[id].status == Refunded
  {
    var a := w.auctions[id];
    RefundsCovered(host, w, id);
    PayAllIff(host, Closing(w, id, Refunded), Refunds(host, id, a, |a.bids|));
    var c := RefundChange(host, w, id);
  }

  /** The token's gate admits every bidder now. */
  ghost predicate AdmitsBidders(w: World, a: Auction, gate: Gate) {
    forall i :: 0 <= i < |a.bids| ==> gate(a.paymentToken, LedgerOf(w.ledgers, a.paymentToken), a.bids[i].bidder)
  }

  lemma RefundsAdmitted(host: Host, w: World, id: int, a: Auction, gate: Gate)
    ensures (forall m :: m in Refunds(host, id, a, |a.bids|) ==> Admits(gate, w, m)) <==> AdmitsBidders(w, a, gate)
  {
    var refunds := Refunds(host, id, a, |a.bids|);
    RefundsAt(host, id, a, |a.bids|);
    forall i | 0 <= i < |a.bids|
      ensures refunds[i] in refunds
      ensures Admits(gate, w, refunds[i])
         <==> gate(a.paymentToken, LedgerOf(w.ledgers, a.paymentToken), a.bids[i].bidder)
    {
    }
  }

  /** Where the token's refusals are a gate: exactly when it admits every bidder
      now. */
  lemma RefundReturnsIfAdmitted(host: Host, w: World, id: int, gate: Gate)
    requires Reachable(host, w) && id in w.auctions && w.auctions[id].status == Open
    requires Conforming(host.transfer, w.auctions[id].paymentToken)
    requires GatedBy(host.transfer, w.auctions[id].paymentToken, host.self, gate)
    ensures
      var a := w.auctions[id];
      RefundAll(host, w, id).0.Returned? <==>
        w.now >= SaturatingAdd(a.commitDeadline, a.gracePeriod) && AdmitsBidders(w, a, gate)
  {
    var a := w.auctions[id];
    var refunds := Refunds(host, id, a, |a.bids|);
    RefundReturnsIff(host, w, id);
    RefundsCovered(host, w, id);
    RefundsAt(host, id, a, |a.bids|);
    PayAllIff(host, Closing(w, id, Refunded), refunds);
    GateDecides(host, Closing(w, id, Refunded), refunds, gate);
    RefundsAdmitted(host, Closing(w, id, Refunded), id, a, gate);
  }

  // -------------------------------------------------------------- settlements

  lemma {:induction false} LosersOutgoing(host: Host, id: int, a: Auction, winnerIndex: nat, n: nat)
    requires WellFormed(host, a) && n <= |a.bids| && Conforming(host.transfer, a.paymentToken)
    ensures Outgoing(host, LoserPayouts(host, id, a, winnerIndex, n))
    ensures forall m :: m in LoserPayouts(host, id, a, winnerIndex, n) ==> m.token == a.paymentToken
  {
    if n == 0 {
    } else {
      LosersOutgoing(host, id, a, winnerIndex, n - 1);
      assert a.bids[n - 1].bidder != host.self;
    }
  }

  lemma SettlementOutgoing(host: Host, id: int, a: Auction, winnerIndex: nat, winningPrice: int)
    requires WellFormed(host, a) && winnerIndex < |a.bids| && 0 < winningPrice <= a.maxPrice
    requires Conforming(host.transfer, a.paymentToken) && Conforming(host.transfer, a.rwaToken)
    ensures
      var payouts := SettlePayouts(host, id, a, winnerIndex, winningPrice);
      && Outgoing(host, payouts)
      && forall i :: 0 <= i < |payouts| ==> payouts[i].token == a.paymentToken || payouts[i].token == a.rwaToken
  {
    LosersOutgoing(host, id, a, winnerIndex, |a.bids|);
    assert a.bids[winnerIndex].bidder != host.self;
  }

  lemma SettlementCovered(host: Host, w: World, id: int, winnerIndex: nat, winningPrice: int)
    requires Reachable(host, w) && id in w.auctions && w.auctions[id].status == Open
    requires winnerIndex < |w.auctions[id].bids| && 0 < winningPrice <= w.auctions[id].maxPrice
    requires Conforming(host.transfer, w.auctions[id].paymentToken)
    requires Conforming(host.transfer, w.auctions[id].rwaToken)
    ensures
      var payouts := SettlePayouts(host, id, w.auctions[id], winnerIndex, winningPrice);
      Outgoing(host, payouts) && CoveredBy(host, Closing(w, id, Settled), payouts)
  {
    var a := w.auctions[id];
    AuctionCovered(host, w, a.paymentToken, id);
    AuctionCovered(host, w, a.rwaToken, id);
    SettlementOutgoing(host, id, a, winnerIndex, winningPrice);
    SettleFlow(host, id, a, winnerIndex, winningPrice, a.paymentToken);
    SettleFlow(host, id, a, winnerIndex, winningPrice, a.rwaToken);
  }

  /** A settle call that passes its checks with an accepted proof settles, unless
      a token refuses one of its payments at the moment it is made; then it traps. */
  lemma SettleReturnsIff(host: Host, w: World, id: int, winnerIndex: nat, winningPrice: int,
                         winner: Address, proof: Proof)
    requires Reachable(host, w) && SettleGuard(w, id, winnerIndex, winningPrice, winner) == None
    requires host.verify(proof, BuildPublicSignals(host.hasher, w.auctions[id], id, winnerIndex, winningPrice, winner))
               == Accepts
    requires Conforming(host.transfer, w.auctions[id].paymentToken)
    requires Conforming(host.transfer, w.auctions[id].rwaToken)
    ensures
      var payouts := SettlePayouts(host, id, w.auctions[id], winnerIndex, winningPrice);
      Settle(host, w, id, winnerIndex, winningPrice, winner, proof).0 ==
        if Refused(host, Closing(w, id, Settled), payouts) then Trapped else Returned(())
  {
    SettlementCovered(host, w, id, winnerIndex, winningPrice);
    PayAllIff(host, Closing(w, id, Settled), SettlePayouts(host, id, w.auctions[id], winnerIndex, winningPrice));
  }

  /** Where refusals are gates, no payment of a settlement is refused exactly when
      every recipient is admitted now. */
  lemma SettlementAdmitted(host: Host, w: World, id: int, winnerIndex: nat, winningPrice: int, gate: Gate)
    requires Reachable(host, w) && id in w.auctions && w.auctions[id].status == Open
    requires winnerIndex < |w.auctions[id].bids| && 0 < winningPrice <= w.auctions[id].maxPrice
    requires Conforming(host.transfer, w.auctions[id].paymentToken)
    requires Conforming(host.transfer, w.auctions[id].rwaToken)
    requires GatedBy(host.transfer, w.auctions[id].paymentToken, host.self, gate)
    requires GatedBy(host.transfer, w.auctions[id].rwaToken, host.self, gate)
    ensures
      var payouts := SettlePayouts(host, id, w.auctions[id], winnerIndex, winningPrice);
      !Refused(host, Closing(w, id, Settled), payouts) <==> forall m :: m in payouts ==> Admits(gate, w, m)
  {
    var a := w.auctions[id];
    var payouts, marked := SettlePayouts(host, id, a, winnerIndex, winningPrice), Closing(w, id, Settled);
    ReachableAccounted(host, w);
    SettlementCovered(host, w, id, winnerIndex, winningPrice);
    SettlementOutgoing(host, id, a, winnerIndex, winningPrice);
    PayAllIff(host, marked, payouts);
    GateDecides(host, marked, payouts, gate);
  }

  // ------------------------------------------------- recipients refused for good

  /** One recipient refused for good is enough to fail a whole list. */
  lemma {:induction false} RefusalFails(host: Host, w: World, ms: seq<Movement>, m: Movement)
    requires m in ms && Refuses(host.transfer, m.token, m.from, m.to)
    ensures PayAll(host, w, ms) == None
  {
    var front := ms[..|ms| - 1];
    if m in front {
      RefusalFails(host, w, front, m);
    } else {
      assert m == ms[|ms| - 1];
      if PayAll(host, w, front).Some? {
        var ledgers := PayAll(host, w, front).value.ledgers;
        assert !host.transfer(ledgers, m.token, m.from, m.to, m.amount).Done?;
      }
    }
  }

  /** One bidder refused for good fails every refund. */
  lemma RefusalBlocksRefund(host: Host, w: World, id: int, i: nat)
    requires id in w.auctions && i < |w.auctions[id].bids|
    requires Refuses(host.transfer, w.auctions[id].paymentToken, host.self, w.auctions[id].bids[i].bidder)
    ensures !RefundAll(host, w, id).0.Returned?
  {
    var a := w.auctions[id];
    var refunds := Refunds(host, id, a, |a.bids|);
    RefundsAt(host, id, a, |a.bids|);
    assert refunds[i] in refunds;
    RefusalFails(host, Closing(w, id, Refunded), refunds, refunds[i]);
  }

  lemma {:induction false} LoserIsPaid(host: Host, id: int, a: Auction, winnerIndex: nat, n: nat, i: nat)
    requires i < n <= |a.bids| && i != winnerIndex
    ensures Movement(id, a.paymentToken, host.self, a.bids[i].bidder, a.maxPrice)
              in LoserPayouts(host, id, a, winnerIndex, n)
  {
    if i == n - 1 {
    } else {
      LoserIsPaid(host, id, a, winnerIndex, n - 1, i);
    }
  }

  /** A bidder refused for good cannot lose, and can win only at the full cap and
      in a lot whose token does not refuse them too. */
  lemma RefusedCanOnlyWin(host: Host, w: World, id: int, winnerIndex: nat, winningPrice: int,
                          winner: Address, proof: Proof, i: nat)
    requires id in w.auctions && i < |w.auctions[id].bids|
    requires Refuses(host.transfer, w.auctions[id].paymentToken, host.self, w.auctions[id].bids[i].bidder)
    requires Settle(host, w, id, winnerIndex, winningPrice, winner, proof).0.Returned?
    ensures winnerIndex == i && winningPrice == w.auctions[id].maxPrice
    ensures !Refuses(host.transfer, w.auctions[id].rwaToken, host.self, w.auctions[id].bids[i].bidder)
  {
    var a := w.auctions[id];
    var payouts, marked := SettlePayouts(host, id, a, winnerIndex, winningPrice), Closing(w, id, Settled);
    if winnerIndex != i {
      var m := Movement(id, a.paymentToken, host.self, a.bids[i].bidder, a.maxPrice);
      LoserIsPaid(host, id, a, winnerIndex, |a.bids|, i);
      assert m in payouts;
      RefusalFails(host, marked, payouts, m);
    } else if winningPrice != a.maxPrice {
      var m := Movement(id, a.paymentToken, host.self, a.bids[i].bidder, a.maxPrice - winningPrice);
      assert m in payouts;
      RefusalFails(host, marked, payouts, m);
    } else if Refuses(host.transfer, a.rwaToken, host.self, a.bids[i].bidder) {
      var m := Movement(id, a.rwaToken, host.self, a.bids[i].bidder, a.lotAmount);
      assert payouts[|payouts| - 1] == m;
      RefusalFails(host, marked, payouts, m);
    }
  }
}

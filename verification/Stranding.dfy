/** One bidder whom the payment token will never pay: what that does to an
    auction over whole runs. */
module Stranding {
  import opened Tokens
  import opened Contract
  import opened Lifecycle
  import opened Escrow
  import opened Refusals
  import EndToEnd

  /** The payment token refuses the bidder of slot i for good. */
  ghost predicate RefusesSlot(host: Host, a: Auction, i: nat) {
    i < |a.bids| && Refuses(host.transfer, a.paymentToken, host.self, a.bids[i].bidder)
  }

  /** Every deposit is still in escrow, or the refused bidder won the lot at the
      full price cap, the lot's token not refusing them. */
  ghost predicate HeldOrWon(host: Host, w: World, id: int, i: nat) {
    && id in w.auctions
    && var a := w.auctions[id];
    && RefusesSlot(host, a, i)
    && match a.status
       case Open => Of(w.journal, id) == Deposits(host, id, a, |a.bids|)
       case Settled =>
         && Of(w.journal, id) == Deposits(host, id, a, |a.bids|) + SettlePayouts(host, id, a, i, a.maxPrice)
         && !Refuses(host.transfer, a.rwaToken, host.self, a.bids[i].bidder)
       case Refunded => false
  }

  lemma OpenIsHeld(host: Host, w: World, id: int, i: nat)
    requires Accounted(host, w) && id in w.auctions && w.auctions[id].status == Open
    requires RefusesSlot(host, w.auctions[id], i)
    ensures HeldOrWon(host, w, id, i)
  {
  }

  lemma WonAtCap(host: Host, w: World, w': World, c: Change, i: nat)
    requires Accounted(host, w) && c.Settlement? && Made(host, w, w', c)
    requires RefusesSlot(host, w.auctions[c.id], i) && c.winnerIndex == i
    requires c.winningPrice == w.auctions[c.id].maxPrice
    requires !Refuses(host.transfer, w.auctions[c.id].rwaToken, host.self, w.auctions[c.id].bids[i].bidder)
    ensures HeldOrWon(host, w', c.id, i)
  {
    EndToEnd.SettlementJournal(host, w, w', c);
  }

  lemma StillHeld(host: Host, w: World, w': World, c: Change, id: int, i: nat)
    requires Accounted(host, w) && Accounted(host, w') && Made(host, w, w', c)
    requires id in w.auctions && w.auctions[id].status == Open && RefusesSlot(host, w.auctions[id], i)
    requires !(c.Refund? && c.id == id) && !(c.Settlement? && c.id == id)
    ensures HeldOrWon(host, w', id, i)
  {
    ChangeMovesForward(host, w, w', c);
    assert Later(w.auctions[id], w'.auctions[id], w.now);
    OpenIsHeld(host, w', id, i);
  }

  /** From Open, the only way out is a settlement that the refused bidder wins at
      the cap. */
  lemma OpenStep(host: Host, w: World, call: Call, id: int, i: nat)
    requires Accounted(host, w) && Accounted(host, Step(host, w, call))
    requires id in w.auctions && w.auctions[id].status == Open && RefusesSlot(host, w.auctions[id], i)
    ensures HeldOrWon(host, Step(host, w, call), id, i)
  {
    var c := StepChange(host, w, call);
    if c.Refund? && c.id == id {
      RefusalBlocksRefund(host, w, id, i);
    } else if c.Settlement? && c.id == id {
      RefusedCanOnlyWin(host, w, id, call.winnerIndex, call.winningPrice, call.winner, call.proof, i);
      WonAtCap(host, w, Step(host, w, call), c, i);
    } else {
      StillHeld(host, w, Step(host, w, call), c, id, i);
    }
  }

  /** One refused bidder keeps everybody's deposits in escrow over every run,
      unless that bidder wins at the full cap. */
  lemma {:induction false} RefusalStrandsDeposits(host: Host, w: World, calls: seq<Call>, id: int, i: nat)
    requires Accounted(host, w) && id in w.auctions && w.auctions[id].status == Open
    requires RefusesSlot(host, w.auctions[id], i)
    ensures HeldOrWon(host, Run(host, w, calls), id, i)
  {
    if calls == [] {
      OpenIsHeld(host, w, id, i);
    } else {
      var front, last := calls[..|calls| - 1], calls[|calls| - 1];
      var before := Run(host, w, front);
      RefusalStrandsDeposits(host, w, front, id, i);
      RunKeepsAccounts(host, w, front);
      RunKeepsAccounts(host, w, calls);
      if before.auctions[id].status == Open {
        OpenStep(host, before, last, id, i);
      } else {
        EndToEnd.SettledStays(host, before, last, id);
      }
    }
  }

  lemma TermsStay(host: Host, w: World, calls: seq<Call>, id: int)
    requires DenseIds(w) && id in w.auctions
    ensures id in Run(host, w, calls).auctions && Later(w.auctions[id], Run(host, w, calls).auctions[id], w.now)
  {
    RunMovesForward(host, w, calls);
  }

  /** If the lot's token refuses them too, the auction stays open for ever and
      nothing ever leaves escrow. */
  lemma RefusalStrandsAll(host: Host, w: World, calls: seq<Call>, id: int, i: nat)
    requires Accounted(host, w) && id in w.auctions && w.auctions[id].status == Open
    requires RefusesSlot(host, w.auctions[id], i)
    requires Refuses(host.transfer, w.auctions[id].rwaToken, host.self, w.auctions[id].bids[i].bidder)
    ensures id in Run(host, w, calls).auctions
    ensures
      var w' := Run(host, w, calls);
      && w'.auctions[id].status == Open
      && Of(w'.journal, id) == Deposits(host, id, w'.auctions[id], |w'.auctions[id].bids|)
  {
    RefusalStrandsDeposits(host, w, calls, id, i);
    TermsStay(host, w, calls, id);
    assert Run(host, w, calls).auctions[id].bids[i] == w.auctions[id].bids[i];
  }
}

/** The pipeline's bundle against the chain: the vector it proves is the vector
    the contract rebuilds, and the settle call it leads to is accepted exactly
    when the clearing price respects the price cap. */
module Acceptance {
  import opened Options
  import opened PrimeField
  import opened Vickrey
  import opened Powers
  import opened Tokens
  import opened Poseidon
  import opened Contract
  import opened AuctionCircuit
  import opened Statements
  import opened Escrow
  import opened Pipeline
  import opened Whitelist
  import Refusals
  import CircuitCompleteness

  /** Rendering an address as text; decoding gives the key back when it gives
      anything back. */
  type Renderer = Address -> string

  ghost predicate DecodesOwnText(decode: Decoder, render: Renderer) {
    forall x {:trigger render(x)} :: decode(render(x)).Some? ==> decode(render(x)).value == x.key
  }

  /** The slots carry exactly the bids of the on-chain auction, with prices a
      browser bid can hold. */
  ghost predicate FromChain(p: int, render: Renderer, s: SlotData, a: Auction)
    requires EightSlots(s)
  {
    forall i :: 0 <= i < MAX_BID_SLOTS ==>
      && 0 <= s.prices[i] < TWO_64 && Felt(p, s.salts[i])
      && if i < |a.bids|
         then s.bidders[i] == Some(render(a.bids[i].bidder)) && s.commitments[i] == a.bids[i].commitment
         else s.bidders[i] == None && s.commitments[i] == 0 && s.prices[i] == 0
  }

  lemma FromChainIsClean(p: int, h: Hasher, host: Host, render: Renderer, id: int, s: SlotData, a: Auction)
    requires p > 1 && IntoField(p, h) && WellFormed(host, a) && EightSlots(s) && FromChain(p, render, s, a)
    requires CheckSlots(h, id, s, MAX_BID_SLOTS) == None
    ensures CleanSlots(p, s)
  {
    forall i | 0 <= i < MAX_BID_SLOTS
      ensures Felt(p, s.commitments[i])
      ensures s.bidders[i].Some? ==> s.commitments[i] != 0
    {
      SlotsChecked(h, id, s, MAX_BID_SLOTS, i);
      var price, salt := s.prices[i], s.salts[i];
      assert Felt(p, h.three(price, salt, id));
      if i < |a.bids| {
        assert a.bids[i].commitment != 0;
      }
    }
  }

  lemma {:induction false} PaddingIs(bids: seq<Bid>, padded: seq<int>, n: nat)
    requires n <= |padded|
    requires forall i :: 0 <= i < n ==> padded[i] == if i < |bids| then bids[i].commitment else 0
    ensures PaddedCommitments(bids, n) == padded[..n]
  {
    if n == 0 {
    } else {
      PaddingIs(bids, padded, n - 1);
      assert padded[..n] == padded[..n - 1] + [padded[n - 1]];
    }
  }

  /** The assembled public inputs are the vector the contract rebuilds. */
  lemma AssembledVector(p: int, host: Host, decode: Decoder, render: Renderer, view: AuctionView,
                        s: SlotData, members: seq<string>, a: Auction)
    requires p > 1 && IntoField(p, host.hasher) && WellFormed(host, a) && DecodesOwnText(decode, render)
    requires EightSlots(s) && FromChain(p, render, s, a) && |members| <= Pow2(MERKLE_DEPTH)
    requires view.whitelistRoot == a.whitelistRoot
    requires Assemble(host.hasher, decode, view, s, members).Ok?
    ensures
      var input := Assemble(host.hasher, decode, view, s, members).value;
      && 0 <= input.pub.winnerIndex < |a.bids| && input.pub.winningPrice > 0
      && PublicVector(input.pub)
           == BuildPublicSignals(host.hasher, a, view.id, input.pub.winnerIndex, input.pub.winningPrice,
                                 a.bids[input.pub.winnerIndex].bidder)
  {
    var h := host.hasher;
    var input := Assemble(h, decode, view, s, members).value;
    AssembledPath(p, h, decode, view, s, members);
    var winner := a.bids[input.pub.winnerIndex].bidder;
    assert decode(render(winner)).value == winner.key;
    PaddingIs(a.bids, s.commitments, MAX_BID_SLOTS);
    assert s.commitments[..MAX_BID_SLOTS] == s.commitments;
  }

  /** The assembled input satisfies every constraint of the circuit, for some
      values of the intermediate signals. */
  lemma AssembledInputSatisfies(p: int, h: Hasher, decode: Decoder, view: AuctionView, s: SlotData,
                                members: seq<string>)
    requires Fits(p, SHAPE) && TWO_64 <= p && IntoField(p, h) && 0 <= view.id < TWO_64
    requires EightSlots(s) && CleanSlots(p, s) && |members| <= Pow2(MERKLE_DEPTH)
    requires Assemble(h, decode, view, s, members).Ok?
    ensures
      var input := Assemble(h, decode, view, s, members).value;
      exists g :: Satisfies(p, h, SHAPE, input.pub, input.priv, g)
  {
    AssembledInputIsTrue(p, h, decode, view, s, members);
    var input := Assemble(h, decode, view, s, members).value;
    CircuitCompleteness.Completeness(p, h, SHAPE, input.pub, input.priv);
  }

  /** A working prover and verifier: a proof of a true statement is accepted. */
  ghost predicate ProvesTruth(p: int, host: Host, prove: CircuitInput -> Option<Proof>)
    requires p > 0
  {
    forall input {:trigger prove(input)} ::
      && prove(input).Some? && InputsInField(p, SHAPE, input.pub, input.priv)
      && (exists g :: Satisfies(p, host.hasher, SHAPE, input.pub, input.priv, g))
      ==> host.verify(prove(input).value, PublicVector(input.pub)) == Accepts
  }

  /** The bundle names a true outcome of the auction's own slots. */
  lemma BundleIsOutcome(p: int, host: Host, decode: Decoder, render: Renderer,
                        prove: CircuitInput -> Option<Proof>, view: AuctionView, s: SlotData, members: seq<string>,
                        a: Auction)
    requires Fits(p, SHAPE) && TWO_64 <= p && IntoField(p, host.hasher) && DecodesOwnText(decode, render)
    requires 0 <= view.id < TWO_64 && WellFormed(host, a) && view.whitelistRoot == a.whitelistRoot
    requires EightSlots(s) && FromChain(p, render, s, a) && |members| <= Pow2(MERKLE_DEPTH)
    requires Bundle(host.hasher, decode, prove, view, s, members).Ok?
    ensures
      var bundle := Bundle(host.hasher, decode, prove, view, s, members).value;
      && bundle.auctionId == view.id && 0 <= bundle.winnerIndex < |a.bids|
      && bundle.winnerAddress == render(a.bids[bundle.winnerIndex].bidder)
      && Settles(s.prices, bundle.winnerIndex, bundle.winningPrice)
  {
    FromChainIsClean(p, host.hasher, host, render, view.id, s, a);
    AssembledInputIsTrue(p, host.hasher, decode, view, s, members);
    AssembledVector(p, host, decode, render, view, s, members, a);
  }

  /** The verifier accepts what the pipeline proved. */
  lemma BundleVerifies(p: int, host: Host, decode: Decoder, render: Renderer,
                       prove: CircuitInput -> Option<Proof>, view: AuctionView, s: SlotData, members: seq<string>,
                       a: Auction)
    requires Fits(p, SHAPE) && TWO_64 <= p && IntoField(p, host.hasher) && DecodesOwnText(decode, render)
    requires ProvesTruth(p, host, prove)
    requires 0 <= view.id < TWO_64 && WellFormed(host, a) && view.whitelistRoot == a.whitelistRoot
    requires EightSlots(s) && FromChain(p, render, s, a) && |members| <= Pow2(MERKLE_DEPTH)
    requires Bundle(host.hasher, decode, prove, view, s, members).Ok?
    ensures
      var bundle := Bundle(host.hasher, decode, prove, view, s, members).value;
      && 0 <= bundle.winnerIndex < |a.bids|
      && host.verify(bundle.proof, BuildPublicSignals(host.hasher, a, view.id, bundle.winnerIndex, bundle.winningPrice,
                                                      a.bids[bundle.winnerIndex].bidder)) == Accepts
  {
    FromChainIsClean(p, host.hasher, host, render, view.id, s, a);
    AssembledInputIsTrue(p, host.hasher, decode, view, s, members);
    AssembledInputSatisfies(p, host.hasher, decode, view, s, members);
    AssembledVector(p, host, decode, render, view, s, members, a);
    var input := Assemble(host.hasher, decode, view, s, members).value;
    assert host.verify(prove(input).value, PublicVector(input.pub)) == Accepts;
  }

  /** Pipeline liveness: from any reachable state, if the pipeline produces a
      bundle for an open auction past its deadline, the settle call is rejected
      for its price if more than one slot's price exceeds the cap; otherwise it
      settles, unless a token refuses one of the payments when it is made. */
  lemma BundleSettles(p: int, host: Host, w: World, decode: Decoder, render: Renderer,
                      prove: CircuitInput -> Option<Proof>, view: AuctionView, s: SlotData, members: seq<string>)
    requires Fits(p, SHAPE) && TWO_64 <= p && IntoField(p, host.hasher) && DecodesOwnText(decode, render)
    requires ProvesTruth(p, host, prove)
    requires Reachable(host, w) && view.id in w.auctions && 0 <= view.id < TWO_64
    requires w.auctions[view.id].status == Open && w.now >= w.auctions[view.id].commitDeadline
    requires view.whitelistRoot == w.auctions[view.id].whitelistRoot
    requires EightSlots(s) && FromChain(p, render, s, w.auctions[view.id]) && |members| <= Pow2(MERKLE_DEPTH)
    requires Conforming(host.transfer, w.auctions[view.id].paymentToken)
    requires Conforming(host.transfer, w.auctions[view.id].rwaToken)
    requires Bundle(host.hasher, decode, prove, view, s, members).Ok?
    ensures
      var bundle := Bundle(host.hasher, decode, prove, view, s, members).value;
      var a := w.auctions[view.id];
      && bundle.auctionId == view.id && 0 <= bundle.winnerIndex < |a.bids|
      && bundle.winnerAddress == render(a.bids[bundle.winnerIndex].bidder)
      && var outcome := Settle(host, w, bundle.auctionId, bundle.winnerIndex, bundle.winningPrice,
                               a.bids[bundle.winnerIndex].bidder, bundle.proof).0;
      var payouts := SettlePayouts(host, view.id, a, bundle.winnerIndex, bundle.winningPrice);
      outcome == if !OneAbove(s.prices, a.maxPrice) then Rejected(WinningPriceExceedsMax)
                 else if Refusals.Refused(host, Refusals.Closing(w, view.id, Settled), payouts) then Trapped
                 else Returned(())
  {
    var a, bundle := w.auctions[view.id], Bundle(host.hasher, decode, prove, view, s, members).value;
    ReachableAccounted(host, w);
    BundleIsOutcome(p, host, decode, render, prove, view, s, members, a);
    BundleVerifies(p, host, decode, render, prove, view, s, members, a);
    ClearsWithin(s.prices, bundle.winnerIndex, bundle.winningPrice, a.maxPrice);
    if OneAbove(s.prices, a.maxPrice) {
      Refusals.SettleReturnsIff(host, w, view.id, bundle.winnerIndex, bundle.winningPrice,
                                a.bids[bundle.winnerIndex].bidder, bundle.proof);
    }
  }
}

/** The price cap is not enforced on hidden prices: a complete run from two
    accepted bids to a bundle that settle rejects. */
module PriceCap {
  import opened Options
  import opened PrimeField
  import opened Powers
  import opened Whitelist
  import opened Poseidon
  import opened Vickrey
  import opened Contract
  import opened AuctionCircuit
  import opened Statements
  import opened Pipeline
  import opened Acceptance
  import opened Scenarios
  import opened TwoBidders
  import Escrow

  /** Prices 2 and 3 under a cap of 1. */
  lemma BobWins(prices: seq<int>)
    requires prices == [2, 3, 0, 0, 0, 0, 0, 0]
    ensures Settles(prices, 1, 2) && !OneAbove(prices, 1)
  {
    assert prices[0] == 2 && prices[1] == 3;
  }

  ghost predicate Setting(p: int, h: Hasher, decode: Decoder, render: Renderer, prove: CircuitInput -> Option<Proof>,
                          salt: int, salt': int)
  {
    && Fits(p, SHAPE) && TWO_64 <= p <= TWO_64 * TWO_64 * TWO_64 * TWO_64 && IntoField(p, h)
    && DecodesOwnText(decode, render) && decode(render(Bob())).Some?
    && (forall input :: prove(input).Some?) && Felt(p, salt) && Felt(p, salt')
    && h.three(2, salt, 1) != 0 && h.three(3, salt', 1) != 0 && h.three(2, salt, 1) != h.three(3, salt', 1)
  }

  lemma BothStorable(p: int, h: Hasher, decode: Decoder, render: Renderer, prove: CircuitInput -> Option<Proof>,
                     salt: int, salt': int)
    requires Setting(p, h, decode, render, prove, salt, salt')
    ensures Storable(p, h, Sealing(2, salt), Sealing(3, salt'))
  {
    var two, three := 2, 3;
    assert Felt(p, h.three(two, salt, 1)) && Felt(p, h.three(three, salt', 1));
  }

  /** Hidden prices above the cap are accepted, and two of them make the
      pipeline's own bundle fail at settlement. */
  lemma CapMissed(p: int, verify: Verifier, h: Hasher, decode: Decoder, render: Renderer,
                  prove: CircuitInput -> Option<Proof>, salt: int, salt': int)
    returns (w: World, view: AuctionView, s: SlotData, members: seq<string>)
    requires Setting(p, h, decode, render, prove, salt, salt')
    ensures Reachable(HostOf(verify, h, {}), w) && view.id == 1 && 1 in w.auctions
    ensures EightSlots(s) && |w.auctions[1].bids| == 2 && |members| <= Pow2(MERKLE_DEPTH)
    ensures
      var a := w.auctions[1];
      && a.status == Open && w.now >= a.commitDeadline && view.whitelistRoot == a.whitelistRoot
      && FromChain(p, render, s, a)
      && (forall i :: 0 <= i < 2 ==>
            s.prices[i] > a.maxPrice && h.three(s.prices[i], s.salts[i], 1) == a.bids[i].commitment)
      && Bundle(h, decode, prove, view, s, members).Ok?
    ensures
      var bundle := Bundle(h, decode, prove, view, s, members).value;
      && 0 <= bundle.winnerIndex < 2
      && Settle(HostOf(verify, h, {}), w, 1, bundle.winnerIndex, bundle.winningPrice,
                w.auctions[1].bids[bundle.winnerIndex].bidder, bundle.proof).0
           == Rejected(WinningPriceExceedsMax)
  {
    var x, y, member := Sealing(2, salt), Sealing(3, salt'), render(Bob());
    RootFits(p, h, decode(member).value);
    BothStorable(p, h, decode, render, prove, salt, salt');
    w := BidsAccepted(p, verify, h, render, x, y, RootFor(h, decode, member));
    view, s, members := AuctionView(1, RootFor(h, decode, member)), RevealedSlots(h, render, x, y), [member];
    Escrow.ReachableAccounted(HostOf(verify, h, {}), w);
    BobWins(s.prices);
    BundleExists(h, decode, render, prove, x, y, 1, 2);
    BundleRejected(p, verify, h, decode, render, prove, x, y, w, view, members);
  }

  lemma BundleRejected(p: int, verify: Verifier, h: Hasher, decode: Decoder, render: Renderer,
                       prove: CircuitInput -> Option<Proof>, x: Sealing, y: Sealing,
                       w: World, view: AuctionView, members: seq<string>)
    requires Fits(p, SHAPE) && TWO_64 <= p && IntoField(p, h) && DecodesOwnText(decode, render)
    requires x.price == 2 && y.price == 3
    requires view.id == 1 && 1 in w.auctions && |members| <= Pow2(MERKLE_DEPTH)
    requires Escrow.WellFormed(HostOf(verify, h, {}), w.auctions[1])
    requires w.auctions[1].status == Open && w.now >= w.auctions[1].commitDeadline
    requires w.auctions[1].maxPrice == 1 && view.whitelistRoot == w.auctions[1].whitelistRoot
    requires FromChain(p, render, RevealedSlots(h, render, x, y), w.auctions[1])
    requires Bundle(h, decode, prove, view, RevealedSlots(h, render, x, y), members).Ok?
    ensures
      var bundle := Bundle(h, decode, prove, view, RevealedSlots(h, render, x, y), members).value;
      && 0 <= bundle.winnerIndex < |w.auctions[1].bids|
      && Settle(HostOf(verify, h, {}), w, 1, bundle.winnerIndex, bundle.winningPrice,
                w.auctions[1].bids[bundle.winnerIndex].bidder, bundle.proof).0
           == Rejected(WinningPriceExceedsMax)
  {
    var s := RevealedSlots(h, render, x, y);
    BundleIsOutcome(p, HostOf(verify, h, {}), decode, render, prove, view, s, members, w.auctions[1]);
    BobWins(s.prices);
    var bundle := Bundle(h, decode, prove, view, s, members).value;
    ClearsWithin(s.prices, bundle.winnerIndex, bundle.winningPrice, 1);
  }
}

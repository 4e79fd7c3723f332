/** Alice's and Bob's bids, from their commitments on chain to the bundle the
    operator's pipeline makes of them. */
module TwoBidders {
  import opened Options
  import opened PrimeField
  import opened Powers
  import opened AddressLeaves
  import opened Whitelist
  import opened Tokens
  import opened Poseidon
  import opened Vickrey
  import opened Contract
  import opened Pipeline
  import opened Acceptance
  import opened Scenarios
  import MerkleTree

  /** What one bidder sealed. */
  datatype Sealing = Sealing(price: int, salt: int)

  function CommitmentOf(h: Hasher, x: Sealing): int {
    h.three(x.price, x.salt, 1)
  }

  function RevealedSlots(h: Hasher, render: Renderer, x: Sealing, y: Sealing): SlotData {
    SlotData([x.price, y.price, 0, 0, 0, 0, 0, 0], [x.salt, y.salt, 0, 0, 0, 0, 0, 0],
             [CommitmentOf(h, x), CommitmentOf(h, y), 0, 0, 0, 0, 0, 0],
             [Some(render(Alice())), Some(render(Bob())), None, None, None, None, None, None])
  }

  /** Both commitments can be stored, and differ. */
  predicate Storable(p: int, h: Hasher, x: Sealing, y: Sealing) {
    && 0 <= x.price < TWO_64 && 0 <= y.price < TWO_64 && Felt(p, x.salt) && Felt(p, y.salt) && p > 0
    && 0 < CommitmentOf(h, x) < TWO_64 * TWO_64 * TWO_64 * TWO_64
    && 0 < CommitmentOf(h, y) < TWO_64 * TWO_64 * TWO_64 * TWO_64
    && CommitmentOf(h, x) != CommitmentOf(h, y)
  }

  function BothBids(h: Hasher, x: Sealing, y: Sealing): seq<Bid>
    requires 0 <= CommitmentOf(h, x) < TWO_64 * TWO_64 * TWO_64 * TWO_64
    requires 0 <= CommitmentOf(h, y) < TWO_64 * TWO_64 * TWO_64 * TWO_64
  {
    [Bid(Alice(), CommitmentOf(h, x)), Bid(Bob(), CommitmentOf(h, y))]
  }

  lemma SlotsFromChain(p: int, h: Hasher, render: Renderer, x: Sealing, y: Sealing, root: U256)
    requires Storable(p, h, x, y)
    ensures FromChain(p, render, RevealedSlots(h, render, x, y), TheAuction(root, BothBids(h, x, y)))
  {
  }

  /** Both bids are accepted, and the deadline passes. */
  lemma BidsAccepted(p: int, verify: Verifier, h: Hasher, render: Renderer, x: Sealing, y: Sealing, root: U256)
    returns (w: World)
    requires Storable(p, h, x, y)
    ensures Quiet(HostOf(verify, h, {}), w) && Reachable(HostOf(verify, h, {}), w) && w.now == 1
    ensures w.auctions == map[1 := TheAuction(root, BothBids(h, x, y))]
    ensures FromChain(p, render, RevealedSlots(h, render, x, y), w.auctions[1])
    ensures LedgerOf(w.ledgers, Money()).hidden == 0 && LedgerOf(w.ledgers, LotToken()).hidden == 0
  {
    Distinct();
    var host := HostOf(verify, h, {});
    var bidding := TwoBids(verify, h, {}, root, CommitmentOf(h, x), CommitmentOf(h, y));
    w := Passing(host, bidding, 1, LotToken(), 0);
    QuietIsReachable(host, w);
    SlotsFromChain(p, h, render, x, y, root);
  }

  lemma OneMemberScan(h: Hasher, decode: Decoder, member: string)
    requires decode(member).Some?
    ensures ScanMembers(h, decode, [member], member, 1) == Ok((KeyLeaves(h, [decode(member).value]), 0))
  {
    var key := decode(member).value;
    assert [key][..0] == [];
    assert KeyLeaves(h, [key]) == KeyLeaves(h, []) + [KeyLeaf(h, key)];
    assert ScanMembers(h, decode, [member], member, 0) == Ok(([], -1));
  }

  function RootFor(h: Hasher, decode: Decoder, member: string): int
    requires decode(member).Some?
  {
    assert 1 <= Pow2(MERKLE_DEPTH);
    RootOf(h, [decode(member).value])
  }

  lemma RootFits(p: int, h: Hasher, key: Key)
    requires p > 0 && IntoField(p, h)
    ensures Felt(p, RootOf(h, [key]))
  {
    MerkleTree.RootFelt(p, h, MerkleTree.Pad(KeyLeaves(h, [key]), Pow2(MERKLE_DEPTH)), MERKLE_DEPTH);
  }

  /** A winner on the whitelist, a second price and a working prover make a
      bundle. */
  lemma BundleExists(h: Hasher, decode: Decoder, render: Renderer, prove: CircuitInput -> Option<Proof>,
                     x: Sealing, y: Sealing, w: int, s: int)
    requires Settles(RevealedSlots(h, render, x, y).prices, w, s) && 0 <= w < 2
    requires (forall input :: prove(input).Some?) && decode(render(if w == 0 then Alice() else Bob())).Some?
    ensures
      var member := render(if w == 0 then Alice() else Bob());
      Bundle(h, decode, prove, AuctionView(1, RootFor(h, decode, member)), RevealedSlots(h, render, x, y), [member]).Ok?
  {
    var slots := RevealedSlots(h, render, x, y);
    OpenSlotsPass(h, 1, slots, MAX_BID_SLOTS);
    SelectMeetsRule(slots.prices, w, s);
    OneMemberScan(h, decode, render(if w == 0 then Alice() else Bob()));
  }
}

/** The bridge between the contract and the circuit: the public signals the
    contract rebuilds are the circuit's public inputs, in its order, and they
    pin down the auction. */
module Statements {
  import opened AddressLeaves
  import opened PrimeField
  import opened Powers
  import opened Bytes
  import opened Tokens
  import opened Poseidon
  import opened Contract
  import opened AuctionCircuit
  import Escrow

  /** The deployed circuit: eight slots, depth ten, four index bits. */
  const SHAPE := Shape(MAX_BID_SLOTS, 10, 4)
  const SIGNAL_COUNT := 13

  function Residues(p: int, xs: seq<int>): (rs: seq<int>)
    requires p > 0
    ensures |rs| == |xs|
    ensures forall i :: 0 <= i < |xs| ==> rs[i] == xs[i] % p
  {
    if xs == [] then [] else Residues(p, xs[..|xs| - 1]) + [xs[|xs| - 1] % p]
  }

  /** The public inputs a signal vector stands for: the verifier reduces every
      scalar modulo the field order. */
  function ReadPublic(p: int, signals: seq<int>): Public
    requires p > 0 && |signals| == SIGNAL_COUNT
  {
    var rs := Residues(p, signals);
    Public(rs[0], rs[1..9], rs[9], rs[10], rs[11], rs[12])
  }

  lemma {:induction false} PaddedAt(bids: seq<Bid>, n: nat, i: nat)
    requires i < n
    ensures PaddedCommitments(bids, n)[i] == if i < |bids| then bids[i].commitment else 0
  {
    if i == n - 1 {
    } else {
      PaddedAt(bids, n - 1, i);
    }
  }

  /** The contract's order of signals is the order the circuit declares. */
  lemma SignalOrder(h: Hasher, a: Auction, id: int, winnerIndex: nat, winningPrice: int, winner: Address)
    ensures
      var pub := Public(id, PaddedCommitments(a.bids, MAX_BID_SLOTS), winnerIndex, winningPrice,
                        a.whitelistRoot, AddressLeaf(h, winner));
      && BuildPublicSignals(h, a, id, winnerIndex, winningPrice, winner) == PublicVector(pub)
      && |PublicVector(pub)| == SIGNAL_COUNT
  {
  }

  /** Reading the contract's vector gives back its parts modulo p. */
  lemma ReadSignals(p: int, h: Hasher, a: Auction, id: int, winnerIndex: nat, winningPrice: int, winner: Address)
    requires p > 0
    ensures
      var signals := BuildPublicSignals(h, a, id, winnerIndex, winningPrice, winner);
      && |signals| == SIGNAL_COUNT
      && ReadPublic(p, signals) == Public(
           id % p, Residues(p, PaddedCommitments(a.bids, MAX_BID_SLOTS)), winnerIndex % p,
           winningPrice % p, a.whitelistRoot % p, AddressLeaf(h, winner) % p)
  {
    var signals := BuildPublicSignals(h, a, id, winnerIndex, winningPrice, winner);
    assert Residues(p, signals)[1..9] == Residues(p, PaddedCommitments(a.bids, MAX_BID_SLOTS));
  }

  ghost predicate SameCommitments(a: Auction, a': Auction) {
    |a.bids| == |a'.bids|
    && forall i :: 0 <= i < |a.bids| ==> a.bids[i].commitment == a'.bids[i].commitment
  }

  lemma PaddingBinds(host: Host, a: Auction, a': Auction)
    requires Escrow.WellFormed(host, a) && Escrow.WellFormed(host, a')
    ensures PaddedCommitments(a.bids, MAX_BID_SLOTS) == PaddedCommitments(a'.bids, MAX_BID_SLOTS)
       <==> SameCommitments(a, a')
  {
    var padded := PaddedCommitments(a.bids, MAX_BID_SLOTS);
    var padded' := PaddedCommitments(a'.bids, MAX_BID_SLOTS);
    forall i | 0 <= i < MAX_BID_SLOTS
      ensures padded[i] == if i < |a.bids| then a.bids[i].commitment else 0
      ensures padded'[i] == if i < |a'.bids| then a'.bids[i].commitment else 0
    {
      PaddedAt(a.bids, MAX_BID_SLOTS, i);
      PaddedAt(a'.bids, MAX_BID_SLOTS, i);
    }
    var k, k' := |a.bids|, |a'.bids|;
    if k < k' {
      assert padded[k] == 0 && padded'[k] != 0;
    } else if k' < k {
      assert padded'[k'] == 0 && padded[k'] != 0;
    } else if padded == padded' {
      forall i | 0 <= i < k ensures a.bids[i].commitment == a'.bids[i].commitment {
        assert padded[i] == padded'[i];
      }
    }
  }

  /** Statement binding: on well-formed auctions two signal vectors agree only
      if every part agrees, the number of bids included. */
  lemma SignalsBind(host: Host, a: Auction, id: int, winnerIndex: nat, winningPrice: int, winner: Address,
                    a': Auction, id': int, winnerIndex': nat, winningPrice': int, winner': Address)
    requires Escrow.WellFormed(host, a) && Escrow.WellFormed(host, a')
    ensures
      BuildPublicSignals(host.hasher, a, id, winnerIndex, winningPrice, winner)
        == BuildPublicSignals(host.hasher, a', id', winnerIndex', winningPrice', winner')
      <==>
      && id == id' && SameCommitments(a, a') && winnerIndex == winnerIndex' && winningPrice == winningPrice'
      && a.whitelistRoot == a'.whitelistRoot
      && AddressLeaf(host.hasher, winner) == AddressLeaf(host.hasher, winner')
  {
    var signals := BuildPublicSignals(host.hasher, a, id, winnerIndex, winningPrice, winner);
    var signals' := BuildPublicSignals(host.hasher, a', id', winnerIndex', winningPrice', winner');
    assert signals[1..9] == PaddedCommitments(a.bids, MAX_BID_SLOTS);
    assert signals'[1..9] == PaddedCommitments(a'.bids, MAX_BID_SLOTS);
    PaddingBinds(host, a, a');
    if signals == signals' {
      assert signals[9] == signals'[9] && signals[10] == signals'[10];
      assert signals[11] == signals'[11] && signals[12] == signals'[12] && signals[0] == signals'[0];
    }
  }

  /** What a proof can attest: two vectors read the same modulo p if and only if
      id, winner index, price and leaf are equal, and root and commitments, padding
      included, are equal modulo p. */
  lemma ResiduesBind(p: int, h: Hasher, a: Auction, id: int, winnerIndex: nat, winningPrice: int, winner: Address,
                     a': Auction, id': int, winnerIndex': nat, winningPrice': int, winner': Address)
    requires TWO_64 <= p && IntoField(p, h)
    requires 0 <= id < TWO_64 && 0 <= id' < TWO_64 && winnerIndex < TWO_64 && winnerIndex' < TWO_64
    requires 0 <= winningPrice < TWO_64 && 0 <= winningPrice' < TWO_64
    ensures
      ReadPublic(p, BuildPublicSignals(h, a, id, winnerIndex, winningPrice, winner))
        == ReadPublic(p, BuildPublicSignals(h, a', id', winnerIndex', winningPrice', winner'))
      <==>
      && id == id' && winnerIndex == winnerIndex' && winningPrice == winningPrice'
      && AddressLeaf(h, winner) == AddressLeaf(h, winner') && Eq(p, a.whitelistRoot, a'.whitelistRoot)
      && SameResidues(p, PaddedCommitments(a.bids, MAX_BID_SLOTS), PaddedCommitments(a'.bids, MAX_BID_SLOTS))
  {
    ReadSignals(p, h, a, id, winnerIndex, winningPrice, winner);
    ReadSignals(p, h, a', id', winnerIndex', winningPrice', winner');
    FeltMod(p, id);
    FeltMod(p, id');
    FeltMod(p, winnerIndex);
    FeltMod(p, winnerIndex');
    FeltMod(p, winningPrice);
    FeltMod(p, winningPrice');
    LeafIsFelt(p, h, winner);
    LeafIsFelt(p, h, winner');
    ResiduesEqual(p, PaddedCommitments(a.bids, MAX_BID_SLOTS), PaddedCommitments(a'.bids, MAX_BID_SLOTS));
  }

  ghost predicate SameResidues(p: int, xs: seq<int>, ys: seq<int>)
    requires p > 0
  {
    |xs| == |ys| && forall i :: 0 <= i < |xs| ==> Eq(p, xs[i], ys[i])
  }

  lemma ResiduesEqual(p: int, xs: seq<int>, ys: seq<int>)
    requires p > 0
    ensures Residues(p, xs) == Residues(p, ys) <==> SameResidues(p, xs, ys)
  {
    var rs, qs := Residues(p, xs), Residues(p, ys);
    if rs == qs {
      assert |xs| == |rs| == |ys| && forall i :: 0 <= i < |xs| ==> rs[i] == qs[i];
    }
  }

  lemma LeafIsFelt(p: int, h: Hasher, address: Address)
    requires p > 0 && IntoField(p, h)
    ensures AddressLeaf(h, address) % p == AddressLeaf(h, address)
  {
    var (high, low) := Halves(address.key);
    assert Felt(p, h.two(high, low));
    FeltMod(p, AddressLeaf(h, address));
  }

  /** Where every commitment is a nonzero field element, the number of bids and
      the commitments themselves are attested too. */
  lemma FieldCommitmentsBind(p: int, host: Host, a: Auction, a': Auction)
    requires p > 0 && Escrow.WellFormed(host, a) && Escrow.WellFormed(host, a')
    requires forall i :: 0 <= i < |a.bids| ==> a.bids[i].commitment < p
    requires forall i :: 0 <= i < |a'.bids| ==> a'.bids[i].commitment < p
    ensures SameResidues(p, PaddedCommitments(a.bids, MAX_BID_SLOTS), PaddedCommitments(a'.bids, MAX_BID_SLOTS))
       <==> SameCommitments(a, a')
  {
    var padded, padded' := PaddedCommitments(a.bids, MAX_BID_SLOTS), PaddedCommitments(a'.bids, MAX_BID_SLOTS);
    forall i | 0 <= i < MAX_BID_SLOTS ensures Eq(p, padded[i], padded'[i]) <==> padded[i] == padded'[i] {
      PaddedAt(a.bids, MAX_BID_SLOTS, i);
      PaddedAt(a'.bids, MAX_BID_SLOTS, i);
      FeltsEqual(p, padded[i], padded'[i]);
    }
    PaddingBinds(host, a, a');
  }

  lemma FeltsEqual(p: int, x: int, y: int)
    requires p > 0 && Felt(p, x) && Felt(p, y)
    ensures Eq(p, x, y) <==> x == y
  {
    FeltMod(p, x);
    FeltMod(p, y);
  }

  // ------------------------------------------------------- the empty marker

  /** An occupied slot reads as the circuit's empty marker exactly when its
      commitment is a multiple of the field order: the contract only rejects 0. */
  lemma OccupiedReadsAsEmpty(p: int, host: Host, a: Auction, id: int, winnerIndex: nat, winningPrice: int,
                             winner: Address, i: nat)
    requires p > 0 && i < MAX_BID_SLOTS
    ensures
      ReadPublic(p, BuildPublicSignals(host.hasher, a, id, winnerIndex, winningPrice, winner)).commitments[i] == 0
      <==> i >= |a.bids| || a.bids[i].commitment % p == 0
  {
    ReadSignals(p, host.hasher, a, id, winnerIndex, winningPrice, winner);
    PaddedAt(a.bids, MAX_BID_SLOTS, i);
    FeltMod(p, 0);
  }

  lemma BidTakesSlot(host: Host, w: World, signers: set<Address>, id: int, bidder: Address,
                     c: U256, c': U256, encryptedBid: seq<Byte>)
    requires PlaceBid(host, w, signers, id, bidder, c, encryptedBid).0.Returned?
    requires id in w.auctions && !HasCommitment(w.auctions[id].bids, c') && c' != 0
    ensures
      var (outcome, w') := PlaceBid(host, w, signers, id, bidder, c', encryptedBid);
      && outcome.Returned? && id in w'.auctions && |w.auctions[id].bids| < MAX_BID_SLOTS
      && w'.auctions[id].bids == w.auctions[id].bids + [Bid(bidder, c')]
  {
  }

  /** Such a bid does get in: wherever some bid is accepted, the commitment p
      would be too, and its slot then reads as empty. */
  lemma FieldOrderSlipsIn(p: int, host: Host, w: World, signers: set<Address>, id: int, bidder: Address,
                          commitment: U256, encryptedBid: seq<Byte>)
    requires 0 < p < TWO_64 * TWO_64 * TWO_64 * TWO_64
    requires PlaceBid(host, w, signers, id, bidder, commitment, encryptedBid).0.Returned?
    requires id in w.auctions && !HasCommitment(w.auctions[id].bids, p)
    ensures
      var (outcome, w') := PlaceBid(host, w, signers, id, bidder, p, encryptedBid);
      && outcome.Returned? && id in w'.auctions && |w.auctions[id].bids| < MAX_BID_SLOTS
      && w'.auctions[id].bids == w.auctions[id].bids + [Bid(bidder, p)]
      && ReadPublic(p, BuildPublicSignals(host.hasher, w'.auctions[id], id, 0, 1, bidder))
           .commitments[|w.auctions[id].bids|] == 0
  {
    BidTakesSlot(host, w, signers, id, bidder, commitment, p, encryptedBid);
    var bids := w.auctions[id].bids;
    var a' := PlaceBid(host, w, signers, id, bidder, p, encryptedBid).1.auctions[id];
    assert (bids + [Bid(bidder, p)])[|bids|].commitment % p == 0;
    OccupiedReadsAsEmpty(p, host, a', id, 0, 1, bidder, |bids|);
  }

  // ------------------------------------------------- what an accepted proof says

  /** From an accepted proof one could have read off the private inputs. */
  type Extractor = (Proof, seq<int>) -> (Private, Signals)

  ghost predicate KnowledgeSound(p: int, host: Host, extract: Extractor)
    requires p > 0
  {
    forall proof, signals {:trigger host.verify(proof, signals)} ::
      |signals| == SIGNAL_COUNT && host.verify(proof, signals) == Accepts ==>
        Satisfies(p, host.hasher, SHAPE, ReadPublic(p, signals),
                  extract(proof, signals).0, extract(proof, signals).1)
  }
}

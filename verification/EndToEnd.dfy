/** From the constraint system to the chain: in every reachable state a settled
    auction was settled at the second-highest of the prices its bidders
    committed to, and its lot went to the lowest-index highest bidder. */
module EndToEnd {
  import opened PrimeField
  import opened Powers
  import opened AddressLeaves
  import opened Poseidon
  import opened Vickrey
  import opened Contract
  import opened AuctionCircuit
  import opened Statements
  import opened Lifecycle
  import opened Escrow
  import MerkleTree
  import CircuitSoundness

  /** What a bidder committed to. */
  datatype Opening = Opening(price: int, salt: int)

  function OpeningTriple(o: Opening, id: int): Triple {
    (o.price, o.salt, id)
  }

  /** Openings of some of the slots: those whose bidders' prices are in question. */
  ghost predicate OpensSlots(h: Hasher, id: int, a: Auction, openings: map<int, Opening>) {
    forall i :: i in openings ==>
      0 <= i < |a.bids| && HashTriple(h, OpeningTriple(openings[i], id)) == a.bids[i].commitment
  }

  /** The commitment inputs a private witness hashes. */
  ghost function WitnessTriples(id: int, priv: Private): set<Triple>
    requires |priv.bidPrices| == |priv.bidSalts|
  {
    set i | 0 <= i < |priv.bidPrices| :: (priv.bidPrices[i], priv.bidSalts[i], id)
  }

  ghost function OpeningTriples(id: int, openings: map<int, Opening>): set<Triple> {
    set i | i in openings :: OpeningTriple(openings[i], id)
  }

  function SettleSignals(h: Hasher, a: Auction, call: Call): seq<int>
    requires call.CallSettle?
  {
    BuildPublicSignals(h, a, call.auctionId, call.winnerIndex, call.winningPrice, call.winner)
  }

  /** No two of the inputs hashed by the bidders and by the prover collide. */
  ghost predicate CommitmentsBind(host: Host, extract: Extractor, a: Auction, call: Call,
                                  openings: map<int, Opening>)
    requires call.CallSettle?
  {
    var priv := extract(call.proof, SettleSignals(host.hasher, a, call)).0;
    && |priv.bidPrices| == |priv.bidSalts|
    && NoTripleCollision(host.hasher,
         OpeningTriples(call.auctionId, openings) + WitnessTriples(call.auctionId, priv))
  }

  // ---------------------------------------------------- one accepted settlement

  /** What an accepted proof forces: the statement of the circuit about the
      auction's own commitments, root and winner. */
  lemma AcceptedStatement(p: int, host: Host, extract: Extractor, a: Auction, call: Call)
    returns (pub: Public, priv: Private)
    requires Fits(p, SHAPE) && TWO_64 <= p && IntoField(p, host.hasher) && KnowledgeSound(p, host, extract)
    requires WellFormed(host, a) && call.CallSettle? && 0 <= call.auctionId < TWO_64
    requires call.winnerIndex < |a.bids| && 0 < call.winningPrice <= a.maxPrice
    requires host.verify(call.proof, SettleSignals(host.hasher, a, call)) == Accepts
    ensures priv == extract(call.proof, SettleSignals(host.hasher, a, call)).0
    ensures InputsInField(p, SHAPE, pub, priv) && Statement(host.hasher, SHAPE, pub, priv)
    ensures pub.auctionId == call.auctionId && pub.winnerIndex == call.winnerIndex
    ensures pub.winningPrice == call.winningPrice && pub.whitelistRoot == a.whitelistRoot % p
    ensures pub.winnerAddrHash == AddressLeaf(host.hasher, call.winner)
    ensures forall i :: 0 <= i < MAX_BID_SLOTS ==>
              pub.commitments[i] == if i < |a.bids| then a.bids[i].commitment % p else 0
  {
    var h := host.hasher;
    var signals := SettleSignals(h, a, call);
    ReadSignals(p, h, a, call.auctionId, call.winnerIndex, call.winningPrice, call.winner);
    pub := ReadPublic(p, signals);
    priv := extract(call.proof, signals).0;
    CircuitSoundness.Soundness(p, h, SHAPE, pub, priv, extract(call.proof, signals).1);
    FeltMod(p, call.auctionId);
    FeltMod(p, call.winnerIndex);
    FeltMod(p, call.winningPrice);
    var (high, low) := Halves(call.winner.key);
    assert Felt(p, h.two(high, low));
    FeltMod(p, AddressLeaf(h, call.winner));
    FeltMod(p, 0);
    forall i | 0 <= i < MAX_BID_SLOTS
      ensures pub.commitments[i] == if i < |a.bids| then a.bids[i].commitment % p else 0
    {
      PaddedAt(a.bids, MAX_BID_SLOTS, i);
    }
  }

  /** A stored commitment that some opening hashes to can only be opened by the
      witness to the same price. */
  lemma SamePrice(p: int, h: Hasher, id: int, commitment: U256, o: Opening, price: int, salt: int, known: set<Triple>)
    requires p > 0 && IntoField(p, h) && NoTripleCollision(h, known) && commitment != 0
    requires HashTriple(h, OpeningTriple(o, id)) == commitment
    requires Opens(h, id, commitment % p, price, salt)
    requires OpeningTriple(o, id) in known && (price, salt, id) in known
    ensures price == o.price
  {
    assert Felt(p, h.three(o.price, o.salt, id));
    FeltMod(p, commitment);
    assert HashTriple(h, (price, salt, id)) == HashTriple(h, OpeningTriple(o, id));
    assert (price, salt, id) == OpeningTriple(o, id);
  }

  /** Padding with price 0 does not change which outcome settles. */
  lemma PaddingIrrelevant(prices: seq<int>, n: nat, w: int, s: int)
    requires n <= |prices| && forall i :: n <= i < |prices| ==> prices[i] == 0
    requires 0 <= w < n && Settles(prices, w, s)
    ensures Settles(prices[..n], w, s)
  {
    var j :| 0 <= j < |prices| && j != w && prices[j] == s;
    assert prices[..n][j] == s;
  }

  /** One accepted settlement is the Vickrey outcome over prices that agree with
      every known opening. */
  lemma SettlementIsVickrey(p: int, host: Host, extract: Extractor, a: Auction, call: Call,
                            openings: map<int, Opening>) returns (prices: seq<int>)
    requires Fits(p, SHAPE) && TWO_64 <= p && IntoField(p, host.hasher) && KnowledgeSound(p, host, extract)
    requires WellFormed(host, a) && call.CallSettle? && 0 <= call.auctionId < TWO_64
    requires call.winnerIndex < |a.bids| && 0 < call.winningPrice <= a.maxPrice
    requires host.verify(call.proof, SettleSignals(host.hasher, a, call)) == Accepts
    requires OpensSlots(host.hasher, call.auctionId, a, openings)
    requires CommitmentsBind(host, extract, a, call, openings)
    ensures |prices| == |a.bids|
    ensures Settles(prices, call.winnerIndex, call.winningPrice)
    ensures forall i :: i in openings ==> 0 <= i < |prices| && prices[i] == openings[i].price
  {
    var id := call.auctionId;
    var pub, priv := AcceptedStatement(p, host, extract, a, call);
    var n := |a.bids|;
    var all := priv.bidPrices;
    forall i | n <= i < |all| ensures all[i] == 0 {
      assert Opens(host.hasher, pub.auctionId, pub.commitments[i], all[i], priv.bidSalts[i]);
    }
    PaddingIrrelevant(all, n, call.winnerIndex, call.winningPrice);
    prices := all[..n];
    var known := OpeningTriples(id, openings) + WitnessTriples(id, priv);
    forall i | i in openings ensures 0 <= i < |prices| && prices[i] == openings[i].price {
      assert OpeningTriple(openings[i], id) in OpeningTriples(id, openings);
      assert (all[i], priv.bidSalts[i], id) in WitnessTriples(id, priv);
      assert Opens(host.hasher, pub.auctionId, pub.commitments[i], all[i], priv.bidSalts[i]);
      SamePrice(p, host.hasher, id, a.bids[i].commitment, openings[i], all[i], priv.bidSalts[i], known);
    }
  }

  // -------------------------------------------------------------- whole runs

  /** The call settled the auction whose final record is a. */
  ghost predicate SettledBy(host: Host, id: int, a: Auction, journal: seq<Movement>, call: Call) {
    && call.CallSettle? && call.auctionId == id
    && call.winnerIndex < |a.bids| && 0 < call.winningPrice <= a.maxPrice
    && a.bids[call.winnerIndex].bidder == call.winner
    && host.verify(call.proof, SettleSignals(host.hasher, a, call)) == Accepts
    && Of(journal, id) == Deposits(host, id, a, |a.bids|)
                          + SettlePayouts(host, id, a, call.winnerIndex, call.winningPrice)
  }

  /** The step that turns an open auction into a settled one is a settle call. */
  lemma SettlingStep(host: Host, w: World, call: Call, id: int)
    requires Accounted(host, w) && id in w.auctions && w.auctions[id].status == Open
    requires id in Step(host, w, call).auctions && Step(host, w, call).auctions[id].status == Settled
    ensures
      var w' := Step(host, w, call);
      SettledBy(host, id, w'.auctions[id], w'.journal, call)
  {
    var c := StepChange(host, w, call);
    SettlingChange(host, w, Step(host, w, call), c, id);
    SettlementJournal(host, w, Step(host, w, call), c);
  }

  lemma SettlingChange(host: Host, w: World, w': World, c: Change, id: int)
    requires Made(host, w, w', c) && DenseIds(w) && id in w.auctions && w.auctions[id].status == Open
    requires id in w'.auctions && w'.auctions[id].status == Settled
    ensures c.Settlement? && c.id == id && w'.auctions[id] == w.auctions[id].(status := Settled)
  {
  }

  lemma SettlementJournal(host: Host, w: World, w': World, c: Change)
    requires Accounted(host, w) && c.Settlement? && Made(host, w, w', c)
    ensures
      var a' := w'.auctions[c.id];
      && c.winnerIndex < |a'.bids|
      && Of(w'.journal, c.id) == Deposits(host, c.id, a', |a'.bids|)
                                 + SettlePayouts(host, c.id, a', c.winnerIndex, c.winningPrice)
  {
    var id, a := c.id, w.auctions[c.id];
    var a' := a.(status := Settled);
    var out := SettlePayouts(host, id, a, c.winnerIndex, c.winningPrice);
    LosersSameTerms(host, id, a, a', c.winnerIndex, |a.bids|);
    assert Tagged(out, id) && out == SettlePayouts(host, id, a', c.winnerIndex, c.winningPrice);
    OfAppend(w.journal, out, id, id);
    DepositsSameTerms(host, id, a, a', |a.bids|);
  }

  lemma ChangeKeepsSettled(host: Host, w: World, w': World, c: Change, id: int)
    requires Accounted(host, w) && Made(host, w, w', c)
    requires id in w.auctions && w.auctions[id].status == Settled
    ensures id in w'.auctions && w'.auctions[id] == w.auctions[id] && Of(w'.journal, id) == Of(w.journal, id)
  {
    var tag, ms := ChangeMovesOne(host, w, w', c);
    OfAppend(w.journal, ms, tag, id);
    ChangeMovesForward(host, w, w', c);
  }

  /** No later step moves a settled auction's money or record again. */
  lemma SettledStays(host: Host, w: World, call: Call, id: int)
    requires Accounted(host, w) && id in w.auctions && w.auctions[id].status == Settled
    ensures
      var w' := Step(host, w, call);
      id in w'.auctions && w'.auctions[id] == w.auctions[id] && Of(w'.journal, id) == Of(w.journal, id)
  {
    var c := StepChange(host, w, call);
    ChangeKeepsSettled(host, w, Step(host, w, call), c, id);
  }

  /** Every settled auction in a run was settled by one of the run's calls. */
  lemma {:induction false} SettledHasCall(host: Host, w: World, calls: seq<Call>, id: int) returns (call: Call)
    requires Accounted(host, w) && w.auctions == map[]
    requires id in Run(host, w, calls).auctions && Run(host, w, calls).auctions[id].status == Settled
    ensures call in calls
    ensures SettledBy(host, id, Run(host, w, calls).auctions[id], Run(host, w, calls).journal, call)
  {
    var front, last := calls[..|calls| - 1], calls[|calls| - 1];
    var before, after := Run(host, w, front), Run(host, w, calls);
    RunKeepsAccounts(host, w, front);
    var c := StepChange(host, before, last);
    ChangeMovesForward(host, before, after, c);
    if id in before.auctions && before.auctions[id].status == Settled {
      call := SettledHasCall(host, w, front, id);
      SettledStays(host, before, last, id);
    } else {
      assert id in before.auctions && before.auctions[id].status == Open;
      SettlingStep(host, before, last, id);
      call := last;
    }
  }

  /** What the end-to-end theorem assumes: a sound verifier, a settled auction in
      a run from deployment, openings of some of its slots, and no collision among
      the inputs hashed for an accepted settlement. */
  ghost predicate Premises(p: int, host: Host, extract: Extractor, start: World, calls: seq<Call>,
                           id: int, openings: map<int, Opening>)
  {
    && Fits(p, SHAPE) && TWO_64 <= p && IntoField(p, host.hasher) && KnowledgeSound(p, host, extract)
    && Deployed(host, start)
    && var auctions := Run(host, start, calls).auctions;
    && id in auctions && auctions[id].status == Settled && OpensSlots(host.hasher, id, auctions[id], openings)
    && forall c :: c in calls && c.CallSettle? && c.auctionId == id
                   && host.verify(c.proof, SettleSignals(host.hasher, auctions[id], c)) == Accepts ==>
         CommitmentsBind(host, extract, auctions[id], c, openings)
  }

  /** The end-to-end theorem.  `openings` are the openings bidders know for any
      of the slots; the settlement is the Vickrey outcome over prices that agree
      with all of them, the named winner holds the winning slot, and the journal
      shows the payouts of exactly that outcome. */
  lemma SettledAtSecondPrice(p: int, host: Host, extract: Extractor, start: World, calls: seq<Call>,
                             id: int, openings: map<int, Opening>) returns (call: Call, prices: seq<int>)
    requires Premises(p, host, extract, start, calls, id, openings)
    ensures call in calls
    ensures
      var w := Run(host, start, calls);
      var a := w.auctions[id];
      && SettledBy(host, id, a, w.journal, call)
      && |prices| == |a.bids|
      && Settles(prices, call.winnerIndex, call.winningPrice)
      && forall i :: i in openings ==> 0 <= i < |prices| && prices[i] == openings[i].price
  {
    var w := Run(host, start, calls);
    RunKeepsAccounts(host, start, calls);
    IdsFit(host, start, calls);
    call := SettledHasCall(host, start, calls, id);
    prices := SettlementIsVickrey(p, host, extract, w.auctions[id], call, openings);
  }

  lemma {:induction false} IdsFit(host: Host, start: World, calls: seq<Call>)
    requires start.nextAuctionId <= U64_MAX
    ensures Run(host, start, calls).nextAuctionId <= U64_MAX
  {
    if calls == [] {
    } else {
      IdsFit(host, start, calls[..|calls| - 1]);
      var c := StepChange(host, Run(host, start, calls[..|calls| - 1]), calls[|calls| - 1]);
    }
  }

  // ------------------------------------------------------------ the whitelist

  /** If the stored root is the root over a member list, the winner of an
      accepted settlement has the key of a member.  Poseidon never returning 0
      keeps the winner off the padding leaves. */
  lemma WinnerIsMember(p: int, host: Host, extract: Extractor, a: Auction, call: Call,
                       members: seq<Key>, known: set<Pair>) returns (i: nat)
    requires Fits(p, SHAPE) && TWO_64 <= p && IntoField(p, host.hasher) && KnowledgeSound(p, host, extract)
    requires WellFormed(host, a) && call.CallSettle? && 0 <= call.auctionId < TWO_64
    requires call.winnerIndex < |a.bids| && 0 < call.winningPrice <= a.maxPrice
    requires host.verify(call.proof, SettleSignals(host.hasher, a, call)) == Accepts
    requires |members| <= Pow2(SHAPE.merkleDepth)
    requires
      var leaves := MerkleTree.Pad(KeyLeaves(host.hasher, members), Pow2(SHAPE.merkleDepth));
      a.whitelistRoot == MerkleTree.Root(host.hasher, leaves, SHAPE.merkleDepth)
    requires AddressLeaf(host.hasher, call.winner) != 0
    requires NoPairCollision(host.hasher, known)
    requires Halves(call.winner.key) in known && KeyPairs(members) <= known
    requires
      var leaves := MerkleTree.Pad(KeyLeaves(host.hasher, members), Pow2(SHAPE.merkleDepth));
      MerkleTree.TreePairs(host.hasher, leaves, SHAPE.merkleDepth) <= known
    requires
      var priv := extract(call.proof, SettleSignals(host.hasher, a, call)).0;
      && |priv.merklePathElements| == |priv.merklePathIndexBits| == SHAPE.merkleDepth
      && MerkleTree.FoldPairs(host.hasher, AddressLeaf(host.hasher, call.winner), priv.merklePathElements,
                              priv.merklePathIndexBits, SHAPE.merkleDepth) <= known
    ensures i < |members| && members[i] == call.winner.key
  {
    var h := host.hasher;
    var pub, priv := AcceptedStatement(p, host, extract, a, call);
    var memberLeaves := KeyLeaves(h, members);
    var leaves := MerkleTree.Pad(memberLeaves, Pow2(SHAPE.merkleDepth));
    MerkleTree.RootFelt(p, h, leaves, SHAPE.merkleDepth);
    FeltMod(p, a.whitelistRoot);
    MerkleTree.MerkleSound(h, leaves, pub.winnerAddrHash, priv.merklePathElements,
                           priv.merklePathIndexBits, known);
    i := MerkleTree.Spelled(priv.merklePathIndexBits, 0);
    assert forall k :: |members| <= k < |leaves| ==> leaves[k] == MerkleTree.EMPTY_LEAF;
    assert leaves[i] == memberLeaves[i] == KeyLeaf(h, members[i]);
    assert Halves(members[i]) in KeyPairs(members);
    assert HashPair(h, Halves(members[i])) == HashPair(h, Halves(call.winner.key));
    assert Halves(members[i]) == Halves(call.winner.key);
    HalvesInjective(members[i], call.winner.key);
  }
}

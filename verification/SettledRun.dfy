/** One complete run, from two bids through the operator's pipeline to a settled
    auction, on which every assumption of the end-to-end theorem holds. */
module SettledRun {
  import opened Options
  import opened PrimeField
  import opened Powers
  import opened AddressLeaves
  import opened Whitelist
  import opened Tokens
  import opened Poseidon
  import opened Vickrey
  import opened Contract
  import opened AuctionCircuit
  import opened Statements
  import opened Pipeline
  import opened Acceptance
  import opened Scenarios
  import opened TwoBidders
  import opened EndToEnd
  import Escrow
  import Lifecycle
  import Refusals

  // ----------------------------------------------------------- an exact verifier

  /** The vector is the public part of a satisfying assignment. */
  ghost predicate Attestable(p: int, h: Hasher, signals: seq<int>) {
    && p > 0 && |signals| == SIGNAL_COUNT
    && exists priv, g :: Satisfies(p, h, SHAPE, ReadPublic(p, signals), priv, g)
  }

  /** Accepts exactly the attestable vectors. */
  ghost function ExactVerifier(p: int, h: Hasher): Verifier {
    (proof: Proof, signals: seq<int>) => if Attestable(p, h, signals) then Accepts else Declines
  }

  ghost function Assignment(p: int, h: Hasher, signals: seq<int>): (assignment: (Private, Signals))
    requires Attestable(p, h, signals)
    ensures Satisfies(p, h, SHAPE, ReadPublic(p, signals), assignment.0, assignment.1)
  {
    var priv, g :| Satisfies(p, h, SHAPE, ReadPublic(p, signals), priv, g);
    (priv, g)
  }

  /** Reads off the given assignment where it is one, and some other elsewhere. */
  ghost function ExactExtractor(p: int, h: Hasher, priv: Private, g: Signals): Extractor {
    (proof: Proof, signals: seq<int>) =>
      if Attestable(p, h, signals) && !Satisfies(p, h, SHAPE, ReadPublic(p, signals), priv, g)
      then Assignment(p, h, signals) else (priv, g)
  }

  lemma ExactIsSound(p: int, h: Hasher, priv: Private, g: Signals)
    requires p > 0
    ensures KnowledgeSound(p, HostOf(ExactVerifier(p, h), h, {}), ExactExtractor(p, h, priv, g))
  {
  }

  /** In-field inputs read back from their vector. */
  lemma ReadBack(p: int, pub: Public, priv: Private)
    requires p > 0 && InputsInField(p, SHAPE, pub, priv)
    ensures |PublicVector(pub)| == SIGNAL_COUNT && ReadPublic(p, PublicVector(pub)) == pub
  {
    var signals := PublicVector(pub);
    var rs := Residues(p, signals);
    forall i | 0 <= i < SIGNAL_COUNT ensures rs[i] == signals[i] {
      assert Felt(p, signals[i]);
      FeltMod(p, signals[i]);
    }
    assert rs[1..9] == signals[1..9] == pub.commitments;
  }

  lemma ExactAcceptsTruth(p: int, h: Hasher, prove: CircuitInput -> Option<Proof>)
    requires p > 0
    ensures ProvesTruth(p, HostOf(ExactVerifier(p, h), h, {}), prove)
  {
    forall input {:trigger prove(input)} |
      && prove(input).Some? && InputsInField(p, SHAPE, input.pub, input.priv)
      && exists g :: Satisfies(p, h, SHAPE, input.pub, input.priv, g)
      ensures ExactVerifier(p, h)(prove(input).value, PublicVector(input.pub)) == Accepts
    {
      ReadBack(p, input.pub, input.priv);
      var g :| Satisfies(p, h, SHAPE, input.pub, input.priv, g);
      assert Satisfies(p, h, SHAPE, ReadPublic(p, PublicVector(input.pub)), input.priv, g);
    }
  }

  // ---------------------------------------------------------------- the run

  /** Salts whose sealings of the price 1 do not collide with each other or with
      an empty slot, a hash that fits 256 bits, and readable addresses. */
  ghost predicate Setting(p: int, h: Hasher, decode: Decoder, render: Renderer, salt: int, salt': int) {
    && Fits(p, SHAPE) && TWO_64 <= p && IntoField(p, h) && IntoField(TWO_64 * TWO_64 * TWO_64 * TWO_64, h)
    && DecodesOwnText(decode, render) && decode(render(Alice())).Some?
    && Felt(p, salt) && Felt(p, salt') && salt != salt'
    && NoTripleCollision(h, {(1, salt, 1), (1, salt', 1), (0, 0, 1)})
    && h.three(1, salt, 1) != 0 && h.three(1, salt', 1) != 0
  }

  function Slots(h: Hasher, render: Renderer, salt: int, salt': int): SlotData {
    RevealedSlots(h, render, Sealing(1, salt), Sealing(1, salt'))
  }

  /** Both bid 1: the second price is 1 and the earlier bid wins. */
  lemma AliceWins(prices: seq<int>)
    requires prices == [1, 1, 0, 0, 0, 0, 0, 0]
    ensures Settles(prices, 0, 1) && OneAbove(prices, 1)
  {
    assert prices[0] == 1 && prices[1] == 1;
  }

  lemma SealingsStorable(p: int, h: Hasher, decode: Decoder, render: Renderer, salt: int, salt': int)
    requires Setting(p, h, decode, render, salt, salt')
    ensures Storable(p, h, Sealing(1, salt), Sealing(1, salt'))
  {
    var one := 1;
    var known := {(1, salt, 1), (1, salt', 1), (0, 0, 1)};
    assert Felt(TWO_64 * TWO_64 * TWO_64 * TWO_64, h.three(one, salt, 1));
    assert Felt(TWO_64 * TWO_64 * TWO_64 * TWO_64, h.three(one, salt', 1));
    assert HashTriple(h, (1, salt, 1)) == HashTriple(h, (1, salt', 1)) ==> (1, salt, 1) == (1, salt', 1);
  }

  function Prover(): CircuitInput -> Option<Proof> {
    (input: CircuitInput) => Some(Proof([], [], []))
  }

  /** Both bids are in, the deadline has passed and the tokens work. */
  ghost predicate Closed(p: int, h: Hasher, decode: Decoder, render: Renderer, salt: int, salt': int, w: World)
    requires decode(render(Alice())).Some?
  {
    var host := HostOf(ExactVerifier(p, h), h, {});
    && Quiet(host, w) && Reachable(host, w) && w.now == 1 && 1 in w.auctions
    && 0 <= RootFor(h, decode, render(Alice())) < TWO_64 * TWO_64 * TWO_64 * TWO_64
    && Storable(p, h, Sealing(1, salt), Sealing(1, salt'))
    && w.auctions[1] == TheAuction(RootFor(h, decode, render(Alice())),
                                   BothBids(h, Sealing(1, salt), Sealing(1, salt')))
    && FromChain(p, render, Slots(h, render, salt, salt'), w.auctions[1])
    && LedgerOf(w.ledgers, Money()).hidden == 0 && LedgerOf(w.ledgers, LotToken()).hidden == 0
  }

  lemma ClosedState(p: int, h: Hasher, decode: Decoder, render: Renderer, salt: int, salt': int) returns (w: World)
    requires Setting(p, h, decode, render, salt, salt')
    ensures Closed(p, h, decode, render, salt, salt', w)
  {
    SealingsStorable(p, h, decode, render, salt, salt');
    RootFits(TWO_64 * TWO_64 * TWO_64 * TWO_64, h, decode(render(Alice())).value);
    w := BidsAccepted(p, ExactVerifier(p, h), h, render, Sealing(1, salt), Sealing(1, salt'),
                      RootFor(h, decode, render(Alice())));
  }

  function View(h: Hasher, decode: Decoder, render: Renderer): AuctionView
    requires decode(render(Alice())).Some?
  {
    AuctionView(1, RootFor(h, decode, render(Alice())))
  }

  /** No token refuses anyone while neither is frozen. */
  lemma NothingRefused(host: Host, verify: Verifier, h: Hasher, w: World, winnerIndex: nat, winningPrice: int)
    requires host == HostOf(verify, h, {}) && Reachable(host, w) && 1 in w.auctions && w.auctions[1].status == Open
    requires winnerIndex < |w.auctions[1].bids| && 0 < winningPrice <= w.auctions[1].maxPrice
    requires w.auctions[1].paymentToken == Money() && w.auctions[1].rwaToken == LotToken()
    requires LedgerOf(w.ledgers, Money()).hidden == 0 && LedgerOf(w.ledgers, LotToken()).hidden == 0
    ensures !Refusals.Refused(host, Refusals.Closing(w, 1, Settled),
                              SettlePayouts(host, 1, w.auctions[1], winnerIndex, winningPrice))
  {
    var payouts := SettlePayouts(host, 1, w.auctions[1], winnerIndex, winningPrice);
    Escrow.ReachableAccounted(host, w);
    IssuedConforms(verify, h, {}, Money());
    IssuedConforms(verify, h, {}, LotToken());
    IssuedIsGated(verify, h, {}, Money());
    IssuedIsGated(verify, h, {}, LotToken());
    Refusals.SettlementOutgoing(host, 1, w.auctions[1], winnerIndex, winningPrice);
    Refusals.SettlementAdmitted(host, w, 1, winnerIndex, winningPrice, IssuedGate({}));
    forall m | m in payouts ensures Refusals.Admits(IssuedGate({}), w, m) {
      var i :| 0 <= i < |payouts| && payouts[i] == m;
    }
  }

  /** The pipeline makes a bundle and its settle call returns. */
  lemma BundleReturns(p: int, h: Hasher, decode: Decoder, render: Renderer, salt: int, salt': int, w: World)
    returns (bundle: SettleBundle)
    requires Setting(p, h, decode, render, salt, salt') && Closed(p, h, decode, render, salt, salt', w)
    ensures Bundle(h, decode, Prover(), View(h, decode, render), Slots(h, render, salt, salt'), [render(Alice())])
         == Ok(bundle)
    ensures 0 <= bundle.winnerIndex < 2
    ensures Settle(HostOf(ExactVerifier(p, h), h, {}), w, 1, bundle.winnerIndex, bundle.winningPrice,
                   w.auctions[1].bids[bundle.winnerIndex].bidder, bundle.proof).0 == Returned(())
  {
    var host, a, s := HostOf(ExactVerifier(p, h), h, {}), w.auctions[1], Slots(h, render, salt, salt');
    AliceWins(s.prices);
    BundleExists(h, decode, render, Prover(), Sealing(1, salt), Sealing(1, salt'), 0, 1);
    bundle := Bundle(h, decode, Prover(), View(h, decode, render), s, [render(Alice())]).value;
    ExactAcceptsTruth(p, h, Prover());
    IssuedConforms(ExactVerifier(p, h), h, {}, Money());
    IssuedConforms(ExactVerifier(p, h), h, {}, LotToken());
    BundleSettles(p, host, w, decode, render, Prover(), View(h, decode, render), s, [render(Alice())]);
    Escrow.ReachableAccounted(host, w);
    BundleIsOutcome(p, host, decode, render, Prover(), View(h, decode, render), s, [render(Alice())], a);
    ClearsWithin(s.prices, bundle.winnerIndex, bundle.winningPrice, 1);
    NothingRefused(host, ExactVerifier(p, h), h, w, bundle.winnerIndex, bundle.winningPrice);
  }

  /** Alice and Bob know their own openings. */
  function Openings(salt: int, salt': int): map<int, Opening> {
    map[0 := Opening(1, salt), 1 := Opening(1, salt')]
  }

  lemma SlotsAreClean(p: int, h: Hasher, decode: Decoder, render: Renderer, salt: int, salt': int, w: World)
    requires Setting(p, h, decode, render, salt, salt') && Closed(p, h, decode, render, salt, salt', w)
    requires CheckSlots(h, 1, Slots(h, render, salt, salt'), MAX_BID_SLOTS) == None
    ensures CleanSlots(p, Slots(h, render, salt, salt'))
  {
    var host := HostOf(ExactVerifier(p, h), h, {});
    Escrow.ReachableAccounted(host, w);
    FromChainIsClean(p, h, host, render, 1, Slots(h, render, salt, salt'), w.auctions[1]);
  }

  /** The assignment the prover had for the assembled input. */
  lemma InputWitness(p: int, h: Hasher, decode: Decoder, render: Renderer, salt: int, salt': int, w: World,
                     input: CircuitInput) returns (g: Signals)
    requires Setting(p, h, decode, render, salt, salt') && Closed(p, h, decode, render, salt, salt', w)
    requires Assemble(h, decode, View(h, decode, render), Slots(h, render, salt, salt'), [render(Alice())]) == Ok(input)
    ensures Satisfies(p, h, SHAPE, input.pub, input.priv, g)
    ensures |PublicVector(input.pub)| == SIGNAL_COUNT && ReadPublic(p, PublicVector(input.pub)) == input.pub
  {
    SlotsAreClean(p, h, decode, render, salt, salt', w);
    AssembledInputSatisfies(p, h, decode, View(h, decode, render), Slots(h, render, salt, salt'), [render(Alice())]);
    g :| Satisfies(p, h, SHAPE, input.pub, input.priv, g);
    ReadBack(p, input.pub, input.priv);
  }

  /** An assignment for the signals of a settle call, over the two sealed bids. */
  ghost predicate Attests(p: int, h: Hasher, a: Auction, call: Call, priv: Private, g: Signals, salt: int, salt': int)
    requires p > 0 && call.CallSettle?
  {
    && |SettleSignals(h, a, call)| == SIGNAL_COUNT
    && Satisfies(p, h, SHAPE, ReadPublic(p, SettleSignals(h, a, call)), priv, g)
    && priv.bidPrices == [1, 1, 0, 0, 0, 0, 0, 0] && priv.bidSalts == [salt, salt', 0, 0, 0, 0, 0, 0]
  }

  lemma InputVector(p: int, h: Hasher, decode: Decoder, render: Renderer, salt: int, salt': int, w: World,
                    input: CircuitInput)
    requires Setting(p, h, decode, render, salt, salt') && Closed(p, h, decode, render, salt, salt', w)
    requires Assemble(h, decode, View(h, decode, render), Slots(h, render, salt, salt'), [render(Alice())]) == Ok(input)
    ensures 0 <= input.pub.winnerIndex < 2
    ensures PublicVector(input.pub) == BuildPublicSignals(h, w.auctions[1], 1, input.pub.winnerIndex,
              input.pub.winningPrice, w.auctions[1].bids[input.pub.winnerIndex].bidder)
  {
    var host, s := HostOf(ExactVerifier(p, h), h, {}), Slots(h, render, salt, salt');
    Escrow.ReachableAccounted(host, w);
    AssembledVector(p, host, decode, render, View(h, decode, render), s, [render(Alice())], w.auctions[1]);
  }

  /** The settle call the bundle leads to, with the assignment behind its proof. */
  lemma BundleWitness(p: int, h: Hasher, decode: Decoder, render: Renderer, salt: int, salt': int, w: World,
                      bundle: SettleBundle) returns (call: Call, priv: Private, g: Signals)
    requires Setting(p, h, decode, render, salt, salt') && Closed(p, h, decode, render, salt, salt', w)
    requires Bundle(h, decode, Prover(), View(h, decode, render), Slots(h, render, salt, salt'), [render(Alice())])
          == Ok(bundle)
    ensures 0 <= bundle.winnerIndex < 2
    ensures call == CallSettle(1, bundle.winnerIndex, bundle.winningPrice,
                               w.auctions[1].bids[bundle.winnerIndex].bidder, bundle.proof)
    ensures Attests(p, h, w.auctions[1], call, priv, g, salt, salt')
  {
    var s := Slots(h, render, salt, salt');
    var input := Assemble(h, decode, View(h, decode, render), s, [render(Alice())]).value;
    g := InputWitness(p, h, decode, render, salt, salt', w, input);
    InputVector(p, h, decode, render, salt, salt', w, input);
    priv := input.priv;
    call := CallSettle(1, bundle.winnerIndex, bundle.winningPrice,
                       w.auctions[1].bids[bundle.winnerIndex].bidder, bundle.proof);
  }

  /** All that the two bidders and the prover hashed is known not to collide. */
  lemma TriplesBind(h: Hasher, salt: int, salt': int, priv: Private)
    requires priv.bidPrices == [1, 1, 0, 0, 0, 0, 0, 0] && priv.bidSalts == [salt, salt', 0, 0, 0, 0, 0, 0]
    requires NoTripleCollision(h, {(1, salt, 1), (1, salt', 1), (0, 0, 1)})
    ensures NoTripleCollision(h, OpeningTriples(1, Openings(salt, salt')) + WitnessTriples(1, priv))
  {
    assert OpeningTriples(1, Openings(salt, salt')) <= {(1, salt, 1), (1, salt', 1)};
    forall x | x in WitnessTriples(1, priv) ensures x in {(1, salt, 1), (1, salt', 1), (0, 0, 1)} {
      var i :| 0 <= i < 8 && x == (priv.bidPrices[i], priv.bidSalts[i], 1);
    }
  }

  /** The one settle call ends the run. */
  lemma SettledLast(host: Host, w: World, call: Call) returns (calls: seq<Call>)
    requires Quiet(host, w) && call.CallSettle? && call.auctionId in w.auctions
    requires Settle(host, w, call.auctionId, call.winnerIndex, call.winningPrice, call.winner, call.proof).0
          == Returned(())
    ensures
      var id, end := call.auctionId, Run(host, Start(), calls);
      id in end.auctions && end.auctions[id] == w.auctions[id].(status := Settled)
    ensures forall c: Call :: c in calls && c.CallSettle? ==> c == call
  {
    var quiet: seq<Call> :| Run(host, Start(), quiet) == w && forall c :: c in quiet ==> !c.CallSettle?;
    calls := quiet + [call];
    assert calls[..|calls| - 1] == quiet;
    var c := Lifecycle.SettleChange(host, w, call.auctionId, call.winnerIndex, call.winningPrice, call.winner,
                                    call.proof);
    assert Run(host, Start(), calls) == Step(host, w, call);
  }

  /** What the settle call's proof is read off as hashes only what is known. */
  lemma SettleBinds(p: int, verify: Verifier, h: Hasher, a: Auction, call: Call, priv: Private, g: Signals,
                    salt: int, salt': int)
    requires p > 0 && call.CallSettle? && call.auctionId == 1 && Attests(p, h, a, call, priv, g, salt, salt')
    requires NoTripleCollision(h, {(1, salt, 1), (1, salt', 1), (0, 0, 1)})
    ensures CommitmentsBind(HostOf(verify, h, {}), ExactExtractor(p, h, priv, g), a, call, Openings(salt, salt'))
  {
    TriplesBind(h, salt, salt', priv);
  }

  /** The two bids, and whatever else becomes of the auction. */
  predicate HoldsBothBids(h: Hasher, a: Auction, salt: int, salt': int) {
    |a.bids| == 2 && a.bids[0].commitment == h.three(1, salt, 1) && a.bids[1].commitment == h.three(1, salt', 1)
    && a.bids[0].bidder == Alice() && a.bids[1].bidder == Bob()
  }

  /** From the start to the settled auction. */
  lemma CompleteRun(p: int, h: Hasher, decode: Decoder, render: Renderer, salt: int, salt': int)
    returns (calls: seq<Call>, last: Call, priv: Private, g: Signals)
    requires Setting(p, h, decode, render, salt, salt')
    ensures last.CallSettle? && last.auctionId == 1 && forall c: Call :: c in calls && c.CallSettle? ==> c == last
    ensures
      var end := Run(HostOf(ExactVerifier(p, h), h, {}), Start(), calls);
      && 1 in end.auctions && end.auctions[1].status == Settled && HoldsBothBids(h, end.auctions[1], salt, salt')
      && Attests(p, h, end.auctions[1], last, priv, g, salt, salt')
  {
    var w := ClosedState(p, h, decode, render, salt, salt');
    var bundle := BundleReturns(p, h, decode, render, salt, salt', w);
    last, priv, g := BundleWitness(p, h, decode, render, salt, salt', w, bundle);
    calls := SettledLast(HostOf(ExactVerifier(p, h), h, {}), w, last);
  }

  /** The run settles, and every assumption of the end-to-end theorem holds of it
      for the verifier that accepts exactly the attestable vectors. */
  lemma PremisesHold(p: int, h: Hasher, decode: Decoder, render: Renderer, salt: int, salt': int)
    returns (extract: Extractor, calls: seq<Call>)
    requires Setting(p, h, decode, render, salt, salt')
    ensures Premises(p, HostOf(ExactVerifier(p, h), h, {}), extract, Start(), calls, 1, Openings(salt, salt'))
    ensures HoldsBothBids(h, Run(HostOf(ExactVerifier(p, h), h, {}), Start(), calls).auctions[1], salt, salt')
  {
    var last, priv, g;
    calls, last, priv, g := CompleteRun(p, h, decode, render, salt, salt');
    extract := ExactExtractor(p, h, priv, g);
    ExactIsSound(p, h, priv, g);
    SettleBinds(p, ExactVerifier(p, h), h, Run(HostOf(ExactVerifier(p, h), h, {}), Start(), calls).auctions[1], last,
                priv, g, salt, salt');
  }

  /** So the theorem speaks of that run: it settled at the price both had sealed,
      to one of the two. */
  lemma SettledAtOne(p: int, h: Hasher, decode: Decoder, render: Renderer, salt: int, salt': int)
    returns (calls: seq<Call>, call: Call)
    requires Setting(p, h, decode, render, salt, salt')
    ensures
      var host := HostOf(ExactVerifier(p, h), h, {});
      var w := Run(host, Start(), calls);
      && 1 in w.auctions && w.auctions[1].status == Settled && call in calls
      && SettledBy(host, 1, w.auctions[1], w.journal, call)
      && call.winnerIndex == 0 && call.winner == Alice() && call.winningPrice == 1
  {
    var host := HostOf(ExactVerifier(p, h), h, {});
    var extract;
    extract, calls := PremisesHold(p, h, decode, render, salt, salt');
    var prices;
    call, prices := SettledAtSecondPrice(p, host, extract, Start(), calls, 1, Openings(salt, salt'));
    assert 0 in Openings(salt, salt') && 1 in Openings(salt, salt');
    assert prices[0] == 1 && prices[1] == 1;
  }

  // -------------------------------------------------- with nothing left open

  /** A hash that keeps the three inputs of the run apart. */
  function SmallHash(): Hasher {
    Hasher((a: int, b: int) => 1,
           (price: int, salt: int, id: int) =>
             if (price, salt, id) == (1, 1, 1) then 1 else if (price, salt, id) == (1, 2, 1) then 2 else 3)
  }

  /** Keys as text, a character a byte. */
  function KeyText(x: Address): string {
    seq(32, i requires 0 <= i < 32 => x.key[i] as char)
  }

  function TextKey(text: string): Option<Key> {
    if |text| == 32 && forall i :: 0 <= i < 32 ==> text[i] < 256 as char
    then Some(seq(32, i requires 0 <= i < 32 => text[i] as int)) else None
  }

  lemma TextReadsBack(x: Address)
    ensures TextKey(KeyText(x)) == Some(x.key)
  {
    assert TextKey(KeyText(x)).value == x.key;
  }

  lemma SmallSetting(p: int)
    requires Fits(p, SHAPE) && TWO_64 <= p
    ensures Setting(p, SmallHash(), TextKey, KeyText, 1, 2)
  {
    forall x {:trigger KeyText(x)} ensures TextKey(KeyText(x)) == Some(x.key) {
      TextReadsBack(x);
    }
  }

  lemma FittingPrime() returns (p: int)
    ensures Fits(p, SHAPE) && TWO_64 <= p
  {
    p := PrimeAbove(Pow2(PRICE_BITS + 1));
    Pow2At64();
    Pow2Monotone(4 + 1, PRICE_BITS + 1);
    assert Pow2(4) == 16;
  }

  /** The assumptions of the end-to-end theorem can be met together. */
  lemma PremisesCanHold() returns (p: int, host: Host, extract: Extractor, calls: seq<Call>)
    ensures Premises(p, host, extract, Start(), calls, 1, Openings(1, 2))
    ensures forall proof, signals :: host.verify(proof, signals) == Accepts <==> Attestable(p, host.hasher, signals)
  {
    p := FittingPrime();
    SmallSetting(p);
    host := HostOf(ExactVerifier(p, SmallHash()), SmallHash(), {});
    extract, calls := PremisesHold(p, SmallHash(), TextKey, KeyText, 1, 2);
  }
}

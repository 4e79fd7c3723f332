/** The auction-winner circuit as a relation between public inputs, private
    inputs and every intermediate signal, all field elements. */
module AuctionCircuit {
  import opened Powers
  import opened PrimeField
  import opened Gadgets
  import opened Poseidon
  import opened Vickrey
  import Merkle = MerkleChecker

  const PRICE_BITS: nat := 64

  /** Slot count, tree depth and the width of the index comparator. */
  datatype Shape = Shape(bidCount: nat, merkleDepth: nat, indexBits: nat)

  /** The shape fits the field: no comparator can wrap. */
  ghost predicate Fits(p: int, shape: Shape) {
    && Prime(p)
    && 1 <= shape.bidCount <= Pow2(shape.indexBits)
    && Pow2(PRICE_BITS + 1) <= p && Pow2(shape.indexBits + 1) <= p
  }

  datatype Public = Public(
    auctionId: int, commitments: seq<int>, winnerIndex: int, winningPrice: int,
    whitelistRoot: int, winnerAddrHash: int)

  datatype Private = Private(
    bidPrices: seq<int>, bidSalts: seq<int>,
    merklePathElements: seq<int>, merklePathIndexBits: seq<int>)

  /** The signals and components a loop body declares for one slot.  The first
      slot has no secondMaxCompare; its record is ignored. */
  datatype Slot = Slot(
    priceBits: seq<int>,
    commitment: int, emptyInverse: int, emptyFlag: int,
    matchInverse: int, indicator: int, selectedPriceTerm: int,
    otherPrice: int, runningSecondMax: int, secondMaxCompare: Comparator,
    maxCheck: Comparator, strictCheck: Comparator, beforeWinnerFlag: Comparator)

  datatype Signals = Signals(
    slots: seq<Slot>, selectedPrice: int,
    zeroInverse: int, winningPriceIsZero: int, membership: Merkle.CheckerSignals)

  /** The inputs have the declared lengths and are field elements. */
  ghost predicate InputsInField(p: int, shape: Shape, pub: Public, priv: Private) {
    && |pub.commitments| == |priv.bidPrices| == |priv.bidSalts| == shape.bidCount
    && |priv.merklePathElements| == |priv.merklePathIndexBits| == shape.merkleDepth
    && Felt(p, pub.auctionId) && Felts(p, pub.commitments) && Felt(p, pub.winnerIndex)
    && Felt(p, pub.winningPrice) && Felt(p, pub.whitelistRoot) && Felt(p, pub.winnerAddrHash)
    && Felts(p, priv.bidPrices) && Felts(p, priv.bidSalts)
    && Felts(p, priv.merklePathElements) && Felts(p, priv.merklePathIndexBits)
  }

  /** Sections 1 and 2: the price fits 64 bits, and the commitment opens or the
      slot is the canonical empty one. */
  ghost predicate OpeningConstraints(p: int, h: Hasher, auctionId: int, commitment: int, price: int, salt: int,
                                     priceBits: seq<int>, hash: int, inverse: int, emptyFlag: int)
    requires p > 0
  {
    && Num2Bits(p, PRICE_BITS, price, priceBits)
    && hash == h.three(price, salt, auctionId)
    && IsZero(p, commitment, inverse, emptyFlag)
    && Eq(p, (1 - emptyFlag) * (hash - commitment), 0)
    && Eq(p, emptyFlag * price, 0)
  }

  /** Section 3, per slot: the indicator of the winner slot. */
  ghost predicate SelectorConstraints(p: int, winnerIndex: int, i: nat, price: int,
                                      inverse: int, indicator: int, term: int)
    requires p > 0
  {
    && IsEqual(p, winnerIndex, i, inverse, indicator)
    && Felt(p, term)
    && Eq(p, term, indicator * price)
  }

  function IndicatorTotal(slots: seq<Slot>, n: nat): int
    requires n <= |slots|
  {
    if n == 0 then 0 else IndicatorTotal(slots, n - 1) + slots[n - 1].indicator
  }

  function SelectedPriceTotal(slots: seq<Slot>, n: nat): int
    requires n <= |slots|
  {
    if n == 0 then 0 else SelectedPriceTotal(slots, n - 1) + slots[n - 1].selectedPriceTerm
  }

  /** Section 4: the winner's price is zeroed out. */
  ghost predicate OtherConstraint(p: int, price: int, indicator: int, other: int)
    requires p > 0
  {
    Felt(p, other) && Eq(p, other, price * (1 - indicator))
  }

  /** Section 4: the comparator keeps the running value or takes the new price. */
  ghost predicate MaxStepConstraints(p: int, n: nat, previous: int, other: int, compare: Comparator, running: int)
    requires p > 0
  {
    && GreaterEqThan(p, n, previous, other, compare)
    && Eq(p, running, other + compare.out * (previous - other))
  }

  /** Section 4, per slot: the running maximum over the other prices. */
  ghost predicate SecondMaxConstraints(p: int, slots: seq<Slot>, i: nat, price: int)
    requires p > 0 && i < |slots|
  {
    var s := slots[i];
    && OtherConstraint(p, price, s.indicator, s.otherPrice) && Felt(p, s.runningSecondMax)
    && (i == 0 ==> Eq(p, s.runningSecondMax, s.otherPrice))
    && (i > 0 ==> MaxStepConstraints(p, PRICE_BITS, slots[i - 1].runningSecondMax, s.otherPrice,
                                     s.secondMaxCompare, s.runningSecondMax))
  }

  /** Section 5, per slot: maximality and the lowest-index tie-break. */
  ghost predicate MaximalityConstraints(p: int, n: nat, indexBits: nat, selectedPrice: int, winnerIndex: int,
                                        i: nat, price: int, maxCheck: Comparator, strictCheck: Comparator,
                                        beforeWinner: Comparator)
    requires p > 0
  {
    && GreaterEqThan(p, n, selectedPrice, price, maxCheck)
    && Eq(p, maxCheck.out, 1)
    && GreaterThan(p, n, selectedPrice, price, strictCheck)
    && LessThan(p, indexBits, i, winnerIndex, beforeWinner)
    && Eq(p, beforeWinner.out * (1 - strictCheck.out), 0)
  }

  ghost predicate SlotConstraints(p: int, h: Hasher, shape: Shape, pub: Public, priv: Private,
                                  g: Signals, i: nat)
    requires p > 0 && InputsInField(p, shape, pub, priv)
    requires |g.slots| == shape.bidCount && i < shape.bidCount
  {
    var s, price := g.slots[i], priv.bidPrices[i];
    && OpeningConstraints(p, h, pub.auctionId, pub.commitments[i], price, priv.bidSalts[i],
                          s.priceBits, s.commitment, s.emptyInverse, s.emptyFlag)
    && SelectorConstraints(p, pub.winnerIndex, i, price, s.matchInverse, s.indicator, s.selectedPriceTerm)
    && SecondMaxConstraints(p, g.slots, i, price)
    && MaximalityConstraints(p, PRICE_BITS, shape.indexBits, g.selectedPrice, pub.winnerIndex, i, price,
                             s.maxCheck, s.strictCheck, s.beforeWinnerFlag)
  }

  /** The whole constraint system. */
  ghost predicate Satisfies(p: int, h: Hasher, shape: Shape, pub: Public, priv: Private, g: Signals)
    requires p > 0 && shape.bidCount >= 1
  {
    && InputsInField(p, shape, pub, priv)
    && |g.slots| == shape.bidCount
    && (forall i :: 0 <= i < shape.bidCount ==> SlotConstraints(p, h, shape, pub, priv, g, i))
    && Eq(p, IndicatorTotal(g.slots, shape.bidCount), 1)
    && Felt(p, g.selectedPrice)
    && Eq(p, g.selectedPrice, SelectedPriceTotal(g.slots, shape.bidCount))
    && Eq(p, pub.winningPrice, g.slots[shape.bidCount - 1].runningSecondMax)
    && IsZero(p, pub.winningPrice, g.zeroInverse, g.winningPriceIsZero)
    && Eq(p, g.winningPriceIsZero, 0)
    && Merkle.Checks(p, h, shape.merkleDepth, pub.winnerAddrHash, pub.whitelistRoot,
                     priv.merklePathElements, priv.merklePathIndexBits, g.membership)
  }

  /** The order of the public inputs, as the main component declares them. */
  function PublicVector(pub: Public): seq<int> {
    [pub.auctionId] + pub.commitments
      + [pub.winnerIndex, pub.winningPrice, pub.whitelistRoot, pub.winnerAddrHash]
  }

  // ------------------------------------------------- what the circuit means

  /** A commitment is the empty marker over price 0, or the hash of the price. */
  predicate Opens(h: Hasher, auctionId: int, commitment: int, price: int, salt: int) {
    if commitment == 0 then price == 0 else h.three(price, salt, auctionId) == commitment
  }

  ghost predicate Statement(h: Hasher, shape: Shape, pub: Public, priv: Private)
    requires |pub.commitments| == |priv.bidPrices| == |priv.bidSalts| == shape.bidCount
    requires |priv.merklePathElements| == |priv.merklePathIndexBits| == shape.merkleDepth
  {
    && (forall i :: 0 <= i < shape.bidCount ==>
          && 0 <= priv.bidPrices[i] < Pow2(PRICE_BITS)
          && Opens(h, pub.auctionId, pub.commitments[i], priv.bidPrices[i], priv.bidSalts[i]))
    && Settles(priv.bidPrices, pub.winnerIndex, pub.winningPrice)
    && Merkle.Bits(priv.merklePathIndexBits)
    && Merkle.Fold(h, pub.winnerAddrHash, priv.merklePathElements, priv.merklePathIndexBits,
                   shape.merkleDepth) == pub.whitelistRoot
  }
}

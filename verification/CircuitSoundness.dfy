/** Every assignment that satisfies the constraints tells the truth: the winner
    holds the highest price at the lowest index, the public price is the second
    highest, every commitment opens and the winner is under the root. */
module CircuitSoundness {
  import opened Powers
  import opened PrimeField
  import opened Gadgets
  import opened Poseidon
  import opened Vickrey
  import opened AuctionCircuit
  import Merkle = MerkleChecker

  ghost predicate Premise(p: int, h: Hasher, shape: Shape, pub: Public, priv: Private, g: Signals) {
    Fits(p, shape) && IntoField(p, h) && Satisfies(p, h, shape, pub, priv, g)
  }

  lemma SlotOpens(p: int, h: Hasher, auctionId: int, commitment: int, price: int, salt: int,
                  priceBits: seq<int>, hash: int, inverse: int, emptyFlag: int)
    requires Prime(p) && Pow2(PRICE_BITS) <= p && IntoField(p, h)
    requires Felt(p, commitment) && Felt(p, price)
    requires OpeningConstraints(p, h, auctionId, commitment, price, salt, priceBits, hash, inverse, emptyFlag)
    ensures 0 <= price < Pow2(PRICE_BITS)
    ensures Opens(h, auctionId, commitment, price, salt)
  {
    Num2BitsSound(p, PRICE_BITS, price, priceBits);
    FeltMod(p, price);
    IsZeroSound(p, commitment, inverse, emptyFlag);
    FeltMod(p, commitment);
    if commitment == 0 {
      FeltEq(p, price, 0);
    } else {
      assert Felt(p, h.three(price, salt, auctionId));
      EqAdd(p, hash - commitment, 0, commitment, commitment);
      FeltEq(p, hash, commitment);
    }
  }

  lemma PricesOpen(p: int, h: Hasher, shape: Shape, pub: Public, priv: Private, g: Signals, i: nat)
    requires Premise(p, h, shape, pub, priv, g) && i < shape.bidCount
    ensures 0 <= priv.bidPrices[i] < Pow2(PRICE_BITS)
    ensures Opens(h, pub.auctionId, pub.commitments[i], priv.bidPrices[i], priv.bidSalts[i])
  {
    assert SlotConstraints(p, h, shape, pub, priv, g, i);
    Pow2Monotone(PRICE_BITS, PRICE_BITS + 1);
    var s := g.slots[i];
    SlotOpens(p, h, pub.auctionId, pub.commitments[i], priv.bidPrices[i], priv.bidSalts[i],
              s.priceBits, s.commitment, s.emptyInverse, s.emptyFlag);
  }

  lemma IndicatorOf(p: int, h: Hasher, shape: Shape, pub: Public, priv: Private, g: Signals, i: nat)
    requires Premise(p, h, shape, pub, priv, g) && i < shape.bidCount
    ensures g.slots[i].indicator == if i == pub.winnerIndex then 1 else 0
    ensures g.slots[i].selectedPriceTerm == if i == pub.winnerIndex then priv.bidPrices[i] else 0
  {
    assert SlotConstraints(p, h, shape, pub, priv, g, i);
    Pow2Monotone(shape.indexBits, shape.indexBits + 1);
    var s := g.slots[i];
    IsEqualSound(p, pub.winnerIndex, i, s.matchInverse, s.indicator);
    Gate(p, s.selectedPriceTerm, priv.bidPrices[i], s.indicator);
  }

  lemma {:induction false} Totals(p: int, h: Hasher, shape: Shape, pub: Public, priv: Private, g: Signals, n: nat)
    requires Premise(p, h, shape, pub, priv, g) && n <= shape.bidCount
    ensures IndicatorTotal(g.slots, n) == if pub.winnerIndex < n then 1 else 0
    ensures SelectedPriceTotal(g.slots, n) == if pub.winnerIndex < n then priv.bidPrices[pub.winnerIndex] else 0
  {
    if n == 0 {
    } else {
      Totals(p, h, shape, pub, priv, g, n - 1);
      IndicatorOf(p, h, shape, pub, priv, g, n - 1);
    }
  }

  /** Exactly one indicator is hot, so the winner index names a slot. */
  lemma WinnerInRange(p: int, h: Hasher, shape: Shape, pub: Public, priv: Private, g: Signals)
    requires Premise(p, h, shape, pub, priv, g)
    ensures pub.winnerIndex < shape.bidCount
    ensures g.selectedPrice == priv.bidPrices[pub.winnerIndex]
  {
    Totals(p, h, shape, pub, priv, g, shape.bidCount);
    if pub.winnerIndex >= shape.bidCount {
      FeltEq(p, 0, 1);
    } else {
      FeltEq(p, g.selectedPrice, priv.bidPrices[pub.winnerIndex]);
    }
  }

  lemma OtherPriceMeans(p: int, price: int, indicator: int, other: int)
    requires p > 0 && Felt(p, price) && Felt(p, other) && (indicator == 0 || indicator == 1)
    requires OtherConstraint(p, price, indicator, other)
    ensures other == if indicator == 1 then 0 else price
  {
    assert price * (1 - indicator) == (1 - indicator) * price;
    Gate(p, other, price, 1 - indicator);
  }

  lemma OtherPrice(p: int, h: Hasher, shape: Shape, pub: Public, priv: Private, g: Signals, i: nat)
    requires Premise(p, h, shape, pub, priv, g) && i < shape.bidCount
    ensures g.slots[i].otherPrice == if i == pub.winnerIndex then 0 else priv.bidPrices[i]
    ensures 0 <= g.slots[i].otherPrice < Pow2(PRICE_BITS)
  {
    IndicatorOf(p, h, shape, pub, priv, g, i);
    PricesOpen(p, h, shape, pub, priv, g, i);
    assert SlotConstraints(p, h, shape, pub, priv, g, i);
    OtherPriceMeans(p, priv.bidPrices[i], g.slots[i].indicator, g.slots[i].otherPrice);
  }

  /** One step of the running maximum keeps the larger of the two prices. */
  lemma MaxStep(p: int, n: nat, previous: int, other: int, compare: Comparator, running: int)
    requires Prime(p) && Pow2(n + 1) <= p && Felt(p, running)
    requires 0 <= other < Pow2(n) && 0 <= previous < Pow2(n)
    requires MaxStepConstraints(p, n, previous, other, compare, running)
    ensures running == if previous >= other then previous else other
  {
    GreaterEqSound(p, n, previous, other, compare);
    Pow2Monotone(n, n + 1);
    Choice(p, running, other, previous, compare.out);
  }

  /** What the second-maximum section says about one slot. */
  lemma SecondMaxMeans(p: int, slots: seq<Slot>, i: nat, price: int)
    requires Prime(p) && Pow2(PRICE_BITS + 1) <= p && i < |slots| && SecondMaxConstraints(p, slots, i, price)
    requires 0 <= slots[i].otherPrice < Pow2(PRICE_BITS)
    requires i > 0 ==> 0 <= slots[i - 1].runningSecondMax < Pow2(PRICE_BITS)
    ensures slots[i].runningSecondMax ==
              if i > 0 && slots[i - 1].runningSecondMax >= slots[i].otherPrice
              then slots[i - 1].runningSecondMax else slots[i].otherPrice
  {
    var s := slots[i];
    if i == 0 {
      FeltEq(p, s.runningSecondMax, s.otherPrice);
    } else {
      MaxStep(p, PRICE_BITS, slots[i - 1].runningSecondMax, s.otherPrice, s.secondMaxCompare, s.runningSecondMax);
    }
  }

  lemma SlotSecondMax(p: int, h: Hasher, shape: Shape, pub: Public, priv: Private, g: Signals, i: nat)
    requires Premise(p, h, shape, pub, priv, g) && i < shape.bidCount
    requires i > 0 ==> 0 <= g.slots[i - 1].runningSecondMax < Pow2(PRICE_BITS)
    ensures 0 <= g.slots[i].otherPrice < Pow2(PRICE_BITS)
    ensures g.slots[i].otherPrice == if i == pub.winnerIndex then 0 else priv.bidPrices[i]
    ensures g.slots[i].runningSecondMax ==
              if i > 0 && g.slots[i - 1].runningSecondMax >= g.slots[i].otherPrice
              then g.slots[i - 1].runningSecondMax else g.slots[i].otherPrice
  {
    OtherPrice(p, h, shape, pub, priv, g, i);
    assert SlotConstraints(p, h, shape, pub, priv, g, i);
    SecondMaxMeans(p, g.slots, i, priv.bidPrices[i]);
  }

  /** One step of the running maximum, seen from the off-chain selection. */
  lemma RunningStep(prices: seq<int>, w: int, i: nat, other: int, previous: int, running: int)
    requires i < |prices| && prices[i] >= 0 && other == if i == w then 0 else prices[i]
    requires i > 0 ==> previous == BestOther(prices, w, i)
    requires running == if i > 0 && previous >= other then previous else other
    ensures running == BestOther(prices, w, i + 1)
  {
    BestOtherStep(prices, w, i, other);
  }

  /** The running maximum is the best price so far outside the winner slot. */
  lemma {:induction false} RunningMax(p: int, h: Hasher, shape: Shape, pub: Public, priv: Private, g: Signals, i: nat)
    requires Premise(p, h, shape, pub, priv, g) && i < shape.bidCount
    ensures g.slots[i].runningSecondMax == BestOther(priv.bidPrices, pub.winnerIndex, i + 1)
    ensures 0 <= g.slots[i].runningSecondMax < Pow2(PRICE_BITS)
  {
    var previous := 0;
    if i > 0 {
      RunningMax(p, h, shape, pub, priv, g, i - 1);
      previous := g.slots[i - 1].runningSecondMax;
    }
    SlotSecondMax(p, h, shape, pub, priv, g, i);
    PricesOpen(p, h, shape, pub, priv, g, i);
    RunningStep(priv.bidPrices, pub.winnerIndex, i, g.slots[i].otherPrice, previous, g.slots[i].runningSecondMax);
  }

  lemma ClearingPrice(p: int, h: Hasher, shape: Shape, pub: Public, priv: Private, g: Signals)
    requires Premise(p, h, shape, pub, priv, g)
    ensures pub.winningPrice == BestOther(priv.bidPrices, pub.winnerIndex, shape.bidCount) > 0
  {
    Pow2Monotone(PRICE_BITS, PRICE_BITS + 1);
    RunningMax(p, h, shape, pub, priv, g, shape.bidCount - 1);
    FeltEq(p, pub.winningPrice, g.slots[shape.bidCount - 1].runningSecondMax);
    IsZeroSound(p, pub.winningPrice, g.zeroInverse, g.winningPriceIsZero);
    FeltMod(p, pub.winningPrice);
    if pub.winningPrice == 0 {
      FeltEq(p, 1, 0);
    }
  }

  /** What the maximality section says about one slot. */
  lemma MaximalityMeans(p: int, n: nat, k: nat, top: int, winnerIndex: int, i: nat, price: int,
                        maxCheck: Comparator, strictCheck: Comparator, beforeWinner: Comparator)
    requires Prime(p) && Pow2(n + 1) <= p && Pow2(k + 1) <= p
    requires 0 <= top < Pow2(n) && 0 <= price < Pow2(n)
    requires 0 <= winnerIndex < Pow2(k) && i < Pow2(k)
    requires MaximalityConstraints(p, n, k, top, winnerIndex, i, price, maxCheck, strictCheck, beforeWinner)
    ensures price <= top && (i < winnerIndex ==> price < top)
  {
    GreaterEqSound(p, n, top, price, maxCheck);
    GreaterSound(p, n, top, price, strictCheck);
    GreaterSound(p, k, winnerIndex, i, beforeWinner);
    FeltMod(p, 0);
    FeltMod(p, 1);
  }

  lemma PriceBelowWinner(p: int, h: Hasher, shape: Shape, pub: Public, priv: Private, g: Signals, i: nat)
    requires Premise(p, h, shape, pub, priv, g) && i < shape.bidCount
    ensures pub.winnerIndex < shape.bidCount
    ensures priv.bidPrices[i] <= priv.bidPrices[pub.winnerIndex]
    ensures i < pub.winnerIndex ==> priv.bidPrices[i] < priv.bidPrices[pub.winnerIndex]
  {
    WinnerInRange(p, h, shape, pub, priv, g);
    assert SlotConstraints(p, h, shape, pub, priv, g, i);
    PricesOpen(p, h, shape, pub, priv, g, i);
    PricesOpen(p, h, shape, pub, priv, g, pub.winnerIndex);
    var s := g.slots[i];
    MaximalityMeans(p, PRICE_BITS, shape.indexBits, g.selectedPrice, pub.winnerIndex, i, priv.bidPrices[i],
                    s.maxCheck, s.strictCheck, s.beforeWinnerFlag);
  }

  lemma OutcomeSettles(p: int, h: Hasher, shape: Shape, pub: Public, priv: Private, g: Signals)
    requires Premise(p, h, shape, pub, priv, g)
    ensures Settles(priv.bidPrices, pub.winnerIndex, pub.winningPrice)
  {
    var prices, w := priv.bidPrices, pub.winnerIndex;
    WinnerInRange(p, h, shape, pub, priv, g);
    forall i | 0 <= i < shape.bidCount ensures prices[i] <= prices[w] && (i < w ==> prices[i] < prices[w]) {
      PriceBelowWinner(p, h, shape, pub, priv, g, i);
    }
    ClearingPrice(p, h, shape, pub, priv, g);
    BestOtherIsMaximum(prices, w, shape.bidCount);
  }

  /** Circuit soundness. */
  lemma Soundness(p: int, h: Hasher, shape: Shape, pub: Public, priv: Private, g: Signals)
    requires Fits(p, shape) && IntoField(p, h)
    requires Satisfies(p, h, shape, pub, priv, g)
    ensures Statement(h, shape, pub, priv)
  {
    forall i | 0 <= i < shape.bidCount
      ensures 0 <= priv.bidPrices[i] < Pow2(PRICE_BITS)
      ensures Opens(h, pub.auctionId, pub.commitments[i], priv.bidPrices[i], priv.bidSalts[i])
    {
      PricesOpen(p, h, shape, pub, priv, g, i);
    }
    OutcomeSettles(p, h, shape, pub, priv, g);
    Merkle.CheckerSound(p, h, shape.merkleDepth, pub.winnerAddrHash, pub.whitelistRoot,
                        priv.merklePathElements, priv.merklePathIndexBits, g.membership);
  }
}

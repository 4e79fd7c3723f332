/** Every true statement has a satisfying assignment: the witness the prover
    would compute, slot by slot. */
module CircuitCompleteness {
  import opened Powers
  import opened PrimeField
  import opened Gadgets
  import opened Poseidon
  import opened Vickrey
  import opened AuctionCircuit
  import CircuitSoundness
  import Merkle = MerkleChecker

  ghost predicate Premise(p: int, h: Hasher, shape: Shape, pub: Public, priv: Private) {
    && Fits(p, shape) && IntoField(p, h)
    && InputsInField(p, shape, pub, priv)
    && Statement(h, shape, pub, priv)
  }

  /** All prices, and the best other price so far, are 64-bit numbers. */
  lemma Ranges(p: int, h: Hasher, shape: Shape, pub: Public, priv: Private, i: nat)
    requires Premise(p, h, shape, pub, priv) && i <= shape.bidCount
    ensures 0 <= BestOther(priv.bidPrices, pub.winnerIndex, i) < Pow2(PRICE_BITS)
    ensures 0 <= pub.winnerIndex < shape.bidCount && 0 <= pub.winnerIndex < Pow2(shape.indexBits)
    ensures i < shape.bidCount ==>
      && 0 <= priv.bidPrices[i] <= priv.bidPrices[pub.winnerIndex] < Pow2(PRICE_BITS)
      && (i < pub.winnerIndex ==> priv.bidPrices[i] < priv.bidPrices[pub.winnerIndex]) && i < Pow2(shape.indexBits)
  {
    BestOtherIsMaximum(priv.bidPrices, pub.winnerIndex, i);
    assert 0 <= priv.bidPrices[pub.winnerIndex] < Pow2(PRICE_BITS);
  }

  // --------------------------------------------------- witnesses, part by part

  /** Sections 1 and 2. */
  lemma OpeningWitness(p: int, h: Hasher, auctionId: int, commitment: int, price: int, salt: int)
    returns (priceBits: seq<int>, inverse: int, flag: int)
    requires Prime(p) && Felt(p, commitment) && 0 <= price < Pow2(PRICE_BITS)
    requires Opens(h, auctionId, commitment, price, salt)
    ensures OpeningConstraints(p, h, auctionId, commitment, price, salt, priceBits, h.three(price, salt, auctionId),
                               inverse, flag)
  {
    Num2BitsComplete(p, PRICE_BITS, price);
    priceBits, inverse, flag := BitsOf(price, PRICE_BITS), ZeroInverse(p, commitment), ZeroFlag(p, commitment);
    FeltMod(p, commitment);
    assert flag == if commitment == 0 then 1 else 0;
    assert (1 - flag) * (h.three(price, salt, auctionId) - commitment) == 0 && flag * price == 0;
  }

  /** Section 3. */
  lemma SelectorWitness(p: int, winnerIndex: int, i: nat, price: int) returns (inverse: int, indicator: int, term: int)
    requires Prime(p) && Felt(p, winnerIndex) && Felt(p, i) && Felt(p, price)
    ensures SelectorConstraints(p, winnerIndex, i, price, inverse, indicator, term)
    ensures indicator == (if i == winnerIndex then 1 else 0) && term == if i == winnerIndex then price else 0
  {
    DifferenceZero(p, winnerIndex, i);
    inverse, indicator := ZeroInverse(p, i - winnerIndex), ZeroFlag(p, i - winnerIndex);
    term := if i == winnerIndex then price else 0;
    GateHolds(p, price, indicator);
  }

  lemma GreaterEqWitness(p: int, n: nat, a: int, b: int) returns (c: Comparator)
    requires p > 1 && 0 <= a < Pow2(n) && 0 <= b < Pow2(n)
    ensures GreaterEqThan(p, n, a, b, c) && c.out == if a >= b then 1 else 0
  {
    LessThanComplete(p, n, b, a + 1);
    c := LessThanWitness(n, b, a + 1);
  }

  lemma GreaterWitness(p: int, n: nat, a: int, b: int) returns (c: Comparator)
    requires p > 1 && 0 <= a < Pow2(n) && 0 <= b < Pow2(n)
    ensures GreaterThan(p, n, a, b, c) && c.out == if a > b then 1 else 0
  {
    LessThanComplete(p, n, b, a);
    c := LessThanWitness(n, b, a);
  }

  /** Section 4: the price outside the winner slot. */
  lemma OtherWitness(p: int, price: int, indicator: int) returns (other: int)
    requires Felt(p, price) && (indicator == 0 || indicator == 1)
    ensures OtherConstraint(p, price, indicator, other) && other == if indicator == 1 then 0 else price
  {
    other := if indicator == 1 then 0 else price;
    GateHolds(p, price, 1 - indicator);
    assert price * (1 - indicator) == (1 - indicator) * price;
  }

  /** Section 4: one running-maximum step. */
  lemma MaxStepWitness(p: int, n: nat, previous: int, other: int) returns (compare: Comparator)
    requires p > 1 && 0 <= other < Pow2(n) <= p && 0 <= previous < Pow2(n)
    ensures MaxStepConstraints(p, n, previous, other, compare, if previous >= other then previous else other)
  {
    compare := GreaterEqWitness(p, n, previous, other);
    ChoiceHolds(p, other, previous, compare.out);
  }

  /** Section 5. */
  lemma MaximalityWitness(p: int, n: nat, k: nat, top: int, winnerIndex: int, i: nat, price: int)
    returns (maxCheck: Comparator, strictCheck: Comparator, early: Comparator)
    requires p > 1 && 0 <= price <= top < Pow2(n)
    requires 0 <= winnerIndex < Pow2(k) && i < Pow2(k) && (i < winnerIndex ==> price < top)
    ensures MaximalityConstraints(p, n, k, top, winnerIndex, i, price, maxCheck, strictCheck, early)
  {
    maxCheck := GreaterEqWitness(p, n, top, price);
    strictCheck := GreaterWitness(p, n, top, price);
    early := GreaterWitness(p, k, winnerIndex, i);
    assert early.out * (1 - strictCheck.out) == 0;
  }

  // ------------------------------------------------------------- whole slots

  /** What one slot's signals satisfy, from the numbers they depend on: the
      price `top` of slot w and the running maximum `previous` so far. */
  ghost predicate SlotMeets(p: int, h: Hasher, k: nat, auctionId: int, commitment: int, price: int, salt: int,
                            w: int, i: nat, top: int, previous: int, s: Slot)
    requires p > 0
  {
    && OpeningConstraints(p, h, auctionId, commitment, price, salt,
                          s.priceBits, s.commitment, s.emptyInverse, s.emptyFlag)
    && SelectorConstraints(p, w, i, price, s.matchInverse, s.indicator, s.selectedPriceTerm)
    && MaximalityConstraints(p, PRICE_BITS, k, top, w, i, price, s.maxCheck, s.strictCheck, s.beforeWinnerFlag)
    && s.indicator == (if i == w then 1 else 0) && s.selectedPriceTerm == (if i == w then price else 0)
    && OtherConstraint(p, price, s.indicator, s.otherPrice) && s.otherPrice == (if i == w then 0 else price)
    && s.runningSecondMax == (if previous >= s.otherPrice then previous else s.otherPrice)
    && MaxStepConstraints(p, PRICE_BITS, previous, s.otherPrice, s.secondMaxCompare, s.runningSecondMax)
  }

  lemma SlotFor(p: int, h: Hasher, k: nat, auctionId: int, commitment: int, price: int, salt: int,
                w: int, i: nat, top: int, previous: int) returns (s: Slot)
    requires Prime(p) && Pow2(PRICE_BITS) <= p && Pow2(k) <= p && Felt(p, commitment)
    requires Opens(h, auctionId, commitment, price, salt)
    requires 0 <= price <= top < Pow2(PRICE_BITS) && 0 <= previous < Pow2(PRICE_BITS)
    requires 0 <= w < Pow2(k) && i < Pow2(k) && (i < w ==> price < top)
    ensures SlotMeets(p, h, k, auctionId, commitment, price, salt, w, i, top, previous, s)
  {
    var priceBits, emptyInverse, emptyFlag := OpeningWitness(p, h, auctionId, commitment, price, salt);
    var matchInverse, indicator, term := SelectorWitness(p, w, i, price);
    var other := OtherWitness(p, price, indicator);
    var compare := MaxStepWitness(p, PRICE_BITS, previous, other);
    var maxCheck, strictCheck, early := MaximalityWitness(p, PRICE_BITS, k, top, w, i, price);
    s := Slot(priceBits, h.three(price, salt, auctionId), emptyInverse, emptyFlag, matchInverse, indicator, term,
              other, if previous >= other then previous else other, compare, maxCheck, strictCheck, early);
  }

  /** A slot of the whole witness, its running maximum tied to the selection's. */
  ghost predicate SlotReady(p: int, h: Hasher, shape: Shape, pub: Public, priv: Private, i: nat, s: Slot)
    requires p > 0 && InputsInField(p, shape, pub, priv) && i < shape.bidCount
    requires 0 <= pub.winnerIndex < shape.bidCount
  {
    && SlotMeets(p, h, shape.indexBits, pub.auctionId, pub.commitments[i], priv.bidPrices[i], priv.bidSalts[i],
                 pub.winnerIndex, i, priv.bidPrices[pub.winnerIndex],
                 BestOther(priv.bidPrices, pub.winnerIndex, i), s)
    && s.runningSecondMax == BestOther(priv.bidPrices, pub.winnerIndex, i + 1) && Felt(p, s.runningSecondMax)
  }

  lemma WidthsFit(p: int, shape: Shape)
    requires Fits(p, shape)
    ensures Pow2(PRICE_BITS) <= p && Pow2(shape.indexBits) <= p
  {
    Pow2Monotone(PRICE_BITS, PRICE_BITS + 1);
    Pow2Monotone(shape.indexBits, shape.indexBits + 1);
  }

  lemma BuildSlot(p: int, h: Hasher, shape: Shape, pub: Public, priv: Private, i: nat) returns (s: Slot)
    requires Premise(p, h, shape, pub, priv) && i < shape.bidCount
    ensures 0 <= pub.winnerIndex < shape.bidCount && SlotReady(p, h, shape, pub, priv, i, s)
  {
    Ranges(p, h, shape, pub, priv, i);
    WidthsFit(p, shape);
    var w := pub.winnerIndex;
    assert Opens(h, pub.auctionId, pub.commitments[i], priv.bidPrices[i], priv.bidSalts[i]);
    s := SlotFor(p, h, shape.indexBits, pub.auctionId, pub.commitments[i], priv.bidPrices[i], priv.bidSalts[i],
                 w, i, priv.bidPrices[w], BestOther(priv.bidPrices, w, i));
    BestOtherStep(priv.bidPrices, w, i, s.otherPrice);
  }

  lemma {:induction false} BuildSlots(p: int, h: Hasher, shape: Shape, pub: Public, priv: Private, n: nat)
    returns (slots: seq<Slot>)
    requires Premise(p, h, shape, pub, priv) && n <= shape.bidCount
    ensures 0 <= pub.winnerIndex < shape.bidCount
    ensures |slots| == n && forall i :: 0 <= i < n ==> SlotReady(p, h, shape, pub, priv, i, slots[i])
  {
    if n == 0 {
      Ranges(p, h, shape, pub, priv, 0);
      slots := [];
    } else {
      var front := BuildSlots(p, h, shape, pub, priv, n - 1);
      var last := BuildSlot(p, h, shape, pub, priv, n - 1);
      slots := front + [last];
    }
  }

  /** One-hot indicators sum to 1, and pick out the winner's price. */
  lemma {:induction false} OneHotTotals(slots: seq<Slot>, w: nat, price: int, n: nat)
    requires n <= |slots|
    requires forall i :: 0 <= i < n ==>
      && slots[i].indicator == (if i == w then 1 else 0)
      && slots[i].selectedPriceTerm == if i == w then price else 0
    ensures IndicatorTotal(slots, n) == if w < n then 1 else 0
    ensures SelectedPriceTotal(slots, n) == if w < n then price else 0
  {
    if n == 0 {
    } else {
      OneHotTotals(slots, w, price, n - 1);
    }
  }

  ghost predicate AllReady(p: int, h: Hasher, shape: Shape, pub: Public, priv: Private, slots: seq<Slot>)
    requires p > 0 && InputsInField(p, shape, pub, priv) && 0 <= pub.winnerIndex < shape.bidCount
  {
    |slots| == shape.bidCount && forall i :: 0 <= i < |slots| ==> SlotReady(p, h, shape, pub, priv, i, slots[i])
  }

  lemma LinkedSlot(p: int, h: Hasher, shape: Shape, pub: Public, priv: Private, slots: seq<Slot>, i: nat)
    requires p > 0 && InputsInField(p, shape, pub, priv) && 0 <= pub.winnerIndex < shape.bidCount
    requires AllReady(p, h, shape, pub, priv, slots) && i < shape.bidCount
    ensures SecondMaxConstraints(p, slots, i, priv.bidPrices[i])
  {
    assert SlotReady(p, h, shape, pub, priv, i, slots[i]);
    if i > 0 {
      assert SlotReady(p, h, shape, pub, priv, i - 1, slots[i - 1]);
    }
  }

  lemma ReadyTotals(p: int, h: Hasher, shape: Shape, pub: Public, priv: Private, slots: seq<Slot>)
    requires p > 0 && InputsInField(p, shape, pub, priv) && 0 <= pub.winnerIndex < shape.bidCount
    requires AllReady(p, h, shape, pub, priv, slots)
    ensures IndicatorTotal(slots, shape.bidCount) == 1
    ensures SelectedPriceTotal(slots, shape.bidCount) == priv.bidPrices[pub.winnerIndex]
  {
    var w := pub.winnerIndex;
    forall i | 0 <= i < shape.bidCount
      ensures slots[i].indicator == if i == w then 1 else 0
      ensures slots[i].selectedPriceTerm == if i == w then priv.bidPrices[w] else 0
    {
      assert SlotReady(p, h, shape, pub, priv, i, slots[i]);
    }
    OneHotTotals(slots, w, priv.bidPrices[w], shape.bidCount);
  }

  lemma ClearingPriceHolds(p: int, h: Hasher, shape: Shape, pub: Public, priv: Private, slots: seq<Slot>)
    requires Premise(p, h, shape, pub, priv) && 0 <= pub.winnerIndex < shape.bidCount
    requires AllReady(p, h, shape, pub, priv, slots)
    ensures pub.winningPrice == slots[shape.bidCount - 1].runningSecondMax
    ensures IsZero(p, pub.winningPrice, ZeroInverse(p, pub.winningPrice), 0)
  {
    assert SlotReady(p, h, shape, pub, priv, shape.bidCount - 1, slots[shape.bidCount - 1]);
    BestOtherIsMaximum(priv.bidPrices, pub.winnerIndex, shape.bidCount);
    FeltMod(p, pub.winningPrice);
  }

  /** Circuit completeness. */
  lemma Completeness(p: int, h: Hasher, shape: Shape, pub: Public, priv: Private)
    requires Fits(p, shape) && IntoField(p, h)
    requires InputsInField(p, shape, pub, priv)
    requires Statement(h, shape, pub, priv)
    ensures exists g :: Satisfies(p, h, shape, pub, priv, g)
  {
    var slots := BuildSlots(p, h, shape, pub, priv, shape.bidCount);
    var g := Signals(slots, priv.bidPrices[pub.winnerIndex], ZeroInverse(p, pub.winningPrice), 0,
                     Merkle.CheckerWitness(h, pub.winnerAddrHash, priv.merklePathElements, priv.merklePathIndexBits));
    forall i | 0 <= i < shape.bidCount ensures SlotConstraints(p, h, shape, pub, priv, g, i) {
      LinkedSlot(p, h, shape, pub, priv, slots, i);
      assert SlotReady(p, h, shape, pub, priv, i, slots[i]);
    }
    ReadyTotals(p, h, shape, pub, priv, slots);
    ClearingPriceHolds(p, h, shape, pub, priv, slots);
    Merkle.CheckerComplete(p, h, pub.winnerAddrHash, priv.merklePathElements, priv.merklePathIndexBits);
    assert Felt(p, priv.bidPrices[pub.winnerIndex]);
    assert Satisfies(p, h, shape, pub, priv, g);
  }

  /** The circuit accepts its inputs exactly when they state a true outcome. */
  lemma CircuitMeansStatement(p: int, h: Hasher, shape: Shape, pub: Public, priv: Private)
    requires Fits(p, shape) && IntoField(p, h) && InputsInField(p, shape, pub, priv)
    ensures (exists g :: Satisfies(p, h, shape, pub, priv, g)) <==> Statement(h, shape, pub, priv)
  {
    if g :| Satisfies(p, h, shape, pub, priv, g) {
      CircuitSoundness.Soundness(p, h, shape, pub, priv, g);
    }
    if Statement(h, shape, pub, priv) {
      Completeness(p, h, shape, pub, priv);
    }
  }

  /** Completeness for the selection the provers run: for prices that open the
      commitments, the selected outcome is provable, and it is the only one. */
  lemma SelectionIsTheOnlyProvableOutcome(p: int, h: Hasher, shape: Shape, pub: Public, priv: Private)
    requires Fits(p, shape) && IntoField(p, h) && InputsInField(p, shape, pub, priv)
    requires forall i :: 0 <= i < shape.bidCount ==>
               && 0 <= priv.bidPrices[i] < Pow2(PRICE_BITS)
               && Opens(h, pub.auctionId, pub.commitments[i], priv.bidPrices[i], priv.bidSalts[i])
    requires Merkle.Bits(priv.merklePathIndexBits)
    requires Merkle.Fold(h, pub.winnerAddrHash, priv.merklePathElements, priv.merklePathIndexBits,
                         shape.merkleDepth) == pub.whitelistRoot
    ensures
      var o := Select(priv.bidPrices);
      (exists g :: Satisfies(p, h, shape, pub, priv, g)) <==>
        pub.winnerIndex == o.winnerIndex && pub.winningPrice == o.clearingPrice && o.clearingPrice > 0
  {
    CircuitMeansStatement(p, h, shape, pub, priv);
    SelectMeetsRule(priv.bidPrices, pub.winnerIndex, pub.winningPrice);
  }
}

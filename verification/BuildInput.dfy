/** The command-line prover's input builder.  It selects the winner from the
    last bid of every slot and proves with the first one. */
module BuildInput {
  import opened Options
  import opened PrimeField
  import opened Powers
  import opened Poseidon
  import opened Vickrey
  import opened Contract
  import opened AuctionCircuit
  import opened Statements
  import opened Pipeline
  import Merkle = MerkleChecker
  import MerkleTree
  import CircuitCompleteness

  datatype DecryptedBid = DecryptedBid(slotIndex: int, bidder: string, commitment: int, price: int, salt: int)
  datatype Member = Member(address: string, leaf: int)
  datatype WhitelistFile = WhitelistFile(depth: nat, members: seq<Member>, root: int)

  datatype Refused =
    | BadBidCount | NoPositive | NoClearingPrice | NotAMember | TooManyLeaves | WrongRoot | WrongDepth

  // ------------------------------------------------------- last and first bids

  /** The largest array index of the language; any other number is a property
      and leaves the elements alone. */
  const MAX_INDEX := 0xFFFF_FFFE

  /** Elements never written.  forEach skips them, as it ignores a price of -1. */
  function Holes(n: nat): (holes: seq<int>)
    ensures |holes| == n && forall i :: 0 <= i < n ==> holes[i] == -1
  {
    if n == 0 then [] else Holes(n - 1) + [-1]
  }

  /** prices[slot] = price, which may lengthen the array. */
  function Write(prices: seq<int>, slot: int, price: int): (written: seq<int>)
    requires |prices| <= MAX_INDEX + 1
    ensures |prices| <= |written| <= MAX_INDEX + 1
    ensures forall i :: 0 <= i < |written| ==>
      written[i] == if i == slot then price else if i < |prices| then prices[i] else -1
  {
    if slot < 0 || slot > MAX_INDEX then prices
    else if slot < |prices| then prices[slot := price]
    else prices + Holes(slot - |prices|) + [price]
  }

  /** selectWinner's price table after n bids: later bids overwrite. */
  function LastPrices(bids: seq<DecryptedBid>, n: nat): (prices: seq<int>)
    requires n <= |bids|
    ensures MAX_BID_SLOTS <= |prices| <= MAX_INDEX + 1
  {
    if n == 0 then [0, 0, 0, 0, 0, 0, 0, 0]
    else Write(LastPrices(bids, n - 1), bids[n - 1].slotIndex, bids[n - 1].price)
  }

  /** bids.find: the first bid of a slot. */
  function FirstAt(bids: seq<DecryptedBid>, slot: int): (r: Option<DecryptedBid>)
    ensures r.Some? ==> r.value in bids && r.value.slotIndex == slot
    ensures r.None? ==> forall bid :: bid in bids ==> bid.slotIndex != slot
  {
    if bids == [] then None
    else if bids[0].slotIndex == slot then Some(bids[0])
    else FirstAt(bids[1..], slot)
  }

  datatype Field = Commitment | Price | Salt

  /** A field of the slot's first bid; 0 in the canonical empty slot. */
  function FieldAt(bids: seq<DecryptedBid>, field: Field, slot: int): int {
    match FirstAt(bids, slot)
    case None => 0
    case Some(bid) =>
      match field
      case Commitment => bid.commitment
      case Price => bid.price
      case Salt => bid.salt
  }

  /** A table that main pushes slot by slot. */
  function Column(bids: seq<DecryptedBid>, field: Field, n: nat): (xs: seq<int>)
    ensures |xs| == n && forall i :: 0 <= i < n ==> xs[i] == FieldAt(bids, field, i)
  {
    if n == 0 then [] else Column(bids, field, n - 1) + [FieldAt(bids, field, n - 1)]
  }

  function FirstPrices(bids: seq<DecryptedBid>): (prices: seq<int>)
    ensures |prices| == MAX_BID_SLOTS
  {
    Column(bids, Price, MAX_BID_SLOTS)
  }

  function FirstMember(members: seq<Member>, address: string): (index: int)
    ensures -1 <= index < |members|
    ensures index >= 0 ==> members[index].address == address
    ensures index < 0 ==> forall m :: m in members ==> m.address != address
  {
    if members == [] then -1
    else if members[0].address == address then 0
    else
      var index := FirstMember(members[1..], address);
      if index < 0 then -1 else index + 1
  }

  function Leaves(members: seq<Member>): (leaves: seq<int>)
    ensures |leaves| == |members|
    ensures forall i :: 0 <= i < |members| ==> leaves[i] == members[i].leaf
  {
    if members == [] then [] else Leaves(members[..|members| - 1]) + [members[|members| - 1].leaf]
  }

  // ------------------------------------------------------------ building

  /** selectWinner. */
  function Selected(bids: seq<DecryptedBid>): (r: Result<Vickrey.Outcome, Refused>)
  {
    var o := Select(LastPrices(bids, |bids|));
    if o.winnerIndex < 0 || o.winnerPrice <= 0 then Err(NoPositive)
    else if o.clearingPrice <= 0 then Err(NoClearingPrice)
    else Ok(o)
  }

  method SelectWinner(bids: seq<DecryptedBid>) returns (r: Result<Vickrey.Outcome, Refused>)
    ensures r == Selected(bids)
    ensures r.Ok? ==> Settles(LastPrices(bids, |bids|), r.value.winnerIndex, r.value.clearingPrice)
    ensures r.Err? ==> forall w, s :: !Settles(LastPrices(bids, |bids|), w, s)
  {
    var paddedPrices := [0, 0, 0, 0, 0, 0, 0, 0];
    for i := 0 to |bids|
      invariant paddedPrices == LastPrices(bids, i)
    {
      paddedPrices := Write(paddedPrices, bids[i].slotIndex, bids[i].price);
    }
    var outcome := SelectVickreyOutcome(paddedPrices);
    if outcome.winnerIndex < 0 || outcome.winnerPrice <= 0 {
      forall w, s ensures !Settles(paddedPrices, w, s) {
        SelectMeetsRule(paddedPrices, w, s);
      }
      return Err(NoPositive);
    }
    if outcome.clearingPrice <= 0 {
      return Err(NoClearingPrice);
    }
    r := Ok(outcome);
  }

  /** The selected winner's slot holds a bid. */
  lemma {:induction false} PricedSlotHasBid(bids: seq<DecryptedBid>, n: nat, slot: nat)
    requires n <= |bids| && slot < |LastPrices(bids, n)| && LastPrices(bids, n)[slot] > 0
    ensures FirstAt(bids, slot).Some?
  {
    if n == 0 {
      assert false;
    } else if bids[n - 1].slotIndex == slot {
      assert bids[n - 1] in bids;
    } else {
      PricedSlotHasBid(bids, n - 1, slot);
    }
  }

  lemma SelectedHasBid(bids: seq<DecryptedBid>)
    requires Selected(bids).Ok?
    ensures 0 <= Selected(bids).value.winnerIndex <= MAX_INDEX
    ensures FirstAt(bids, Selected(bids).value.winnerIndex).Some?
  {
    SelectMeetsRule(LastPrices(bids, |bids|), 0, 0);
    PricedSlotHasBid(bids, |bids|, Selected(bids).value.winnerIndex);
  }

  function Built(h: Hasher, auctionId: int, bids: seq<DecryptedBid>, file: WhitelistFile)
    : Result<CircuitInput, Refused>
  {
    if bids == [] || |bids| > MAX_BID_SLOTS then Err(BadBidCount)
    else
      match Selected(bids)
      case Err(e) => Err(e)
      case Ok(o) =>
        SelectedHasBid(bids);
        var index := FirstMember(file.members, FirstAt(bids, o.winnerIndex).value.bidder);
        if index < 0 then Err(NotAMember)
        else if |file.members| > Pow2(file.depth) then Err(TooManyLeaves)
        else
          var padded := MerkleTree.Pad(Leaves(file.members), Pow2(file.depth));
          MerkleTree.PowerHalves(file.depth, file.depth);
          if MerkleTree.Root(h, padded, file.depth) != file.root then Err(WrongRoot)
          else if file.depth != SHAPE.merkleDepth then Err(WrongDepth)
          else
            Ok(CircuitInput(
              Public(auctionId, Column(bids, Commitment, MAX_BID_SLOTS), o.winnerIndex, o.clearingPrice,
                     file.root, file.members[index].leaf),
              Private(FirstPrices(bids), Column(bids, Salt, MAX_BID_SLOTS),
                      MerkleTree.PathElements(h, padded, file.depth, index, file.depth),
                      MerkleTree.PathBits(index, file.depth))))
  }

  /** main's loop over the slots. */
  method PadSlots(bids: seq<DecryptedBid>)
    returns (paddedCommitments: seq<int>, paddedPrices: seq<int>, paddedSalts: seq<int>)
    ensures paddedCommitments == Column(bids, Commitment, MAX_BID_SLOTS)
    ensures paddedPrices == FirstPrices(bids)
    ensures paddedSalts == Column(bids, Salt, MAX_BID_SLOTS)
  {
    paddedCommitments, paddedPrices, paddedSalts := [], [], [];
    for slotIndex := 0 to MAX_BID_SLOTS
      invariant paddedCommitments == Column(bids, Commitment, slotIndex)
      invariant paddedPrices == Column(bids, Price, slotIndex)
      invariant paddedSalts == Column(bids, Salt, slotIndex)
    {
      var slotBid := FirstAt(bids, slotIndex);
      if slotBid.Some? {
        paddedCommitments := paddedCommitments + [slotBid.value.commitment];
        paddedPrices := paddedPrices + [slotBid.value.price];
        paddedSalts := paddedSalts + [slotBid.value.salt];
      } else {
        paddedCommitments, paddedPrices, paddedSalts := paddedCommitments + [0], paddedPrices + [0], paddedSalts + [0];
      }
    }
  }

  /** main, between reading its files and writing them. */
  method Build(h: Hasher, auctionId: int, bids: seq<DecryptedBid>, file: WhitelistFile)
    returns (r: Result<CircuitInput, Refused>)
    ensures r == Built(h, auctionId, bids, file)
  {
    if |bids| == 0 || |bids| > MAX_BID_SLOTS {
      return Err(BadBidCount);
    }
    var selected := SelectWinner(bids);
    if selected.Err? {
      return Err(selected.error);
    }
    SelectedHasBid(bids);
    var winnerIndex, clearingPrice := selected.value.winnerIndex, selected.value.clearingPrice;
    var winnerBid := FirstAt(bids, winnerIndex).value;
    var memberIndex := FirstMember(file.members, winnerBid.bidder);
    if memberIndex < 0 {
      return Err(NotAMember);
    }
    var leaves := Leaves(file.members);
    var tree := MerkleTree.PoseidonMerkleTree.Create(h, file.depth, leaves);
    if tree == None {
      return Err(TooManyLeaves);
    }
    var root := tree.value.GetRoot();
    if root != file.root {
      return Err(WrongRoot);
    }
    if file.depth != SHAPE.merkleDepth {
      return Err(WrongDepth);
    }
    var path := tree.value.PathFor(memberIndex);
    var paddedCommitments, paddedPrices, paddedSalts := PadSlots(bids);
    r := Ok(CircuitInput(
      Public(auctionId, paddedCommitments, winnerIndex, clearingPrice, file.root, file.members[memberIndex].leaf),
      Private(paddedPrices, paddedSalts, path.value.elements, path.value.indexBits)));
  }

  // --------------------------------------------------------- what it is worth

  /** Every bid opens its nonzero commitment and fits the circuit, as the
      decryption step before has checked. */
  ghost predicate Opened(p: int, h: Hasher, auctionId: int, bids: seq<DecryptedBid>)
    requires p > 0
  {
    forall bid :: bid in bids ==>
      && 0 <= bid.price < TWO_64 && Felt(p, bid.salt) && Felt(p, bid.commitment) && bid.commitment != 0
      && h.three(bid.price, bid.salt, auctionId) == bid.commitment
  }

  lemma BuiltPath(p: int, h: Hasher, auctionId: int, bids: seq<DecryptedBid>, file: WhitelistFile)
    requires p > 1 && IntoField(p, h) && Felts(p, Leaves(file.members))
    requires Built(h, auctionId, bids, file).Ok?
    ensures
      var input := Built(h, auctionId, bids, file).value;
      && Felt(p, input.pub.winnerAddrHash) && Felt(p, input.pub.whitelistRoot)
      && Felts(p, input.priv.merklePathElements) && Merkle.Bits(input.priv.merklePathIndexBits)
      && |input.priv.merklePathElements| == |input.priv.merklePathIndexBits| == SHAPE.merkleDepth
      && Merkle.Fold(h, input.pub.winnerAddrHash, input.priv.merklePathElements,
                     input.priv.merklePathIndexBits, SHAPE.merkleDepth) == input.pub.whitelistRoot
  {
    SelectedHasBid(bids);
    var o := Selected(bids).value;
    var index := FirstMember(file.members, FirstAt(bids, o.winnerIndex).value.bidder);
    var leaves := Leaves(file.members);
    var padded := MerkleTree.Pad(leaves, Pow2(file.depth));
    PaddedLeavesFelts(p, leaves, Pow2(file.depth));
    assert padded[index] == leaves[index];
    MerkleTree.MerkleComplete(h, padded, file.depth, index);
    MerkleTree.PathElementsFelts(p, h, padded, file.depth, index);
    MerkleTree.RootFelt(p, h, padded, file.depth);
  }

  lemma BuiltSlots(p: int, h: Hasher, auctionId: int, bids: seq<DecryptedBid>)
    requires Fits(p, SHAPE) && TWO_64 <= p && Opened(p, h, auctionId, bids)
    ensures forall i :: 0 <= i < MAX_BID_SLOTS ==>
      && 0 <= FirstPrices(bids)[i] < TWO_64
      && Felt(p, Column(bids, Salt, MAX_BID_SLOTS)[i]) && Felt(p, Column(bids, Commitment, MAX_BID_SLOTS)[i])
      && Opens(h, auctionId, Column(bids, Commitment, MAX_BID_SLOTS)[i], FirstPrices(bids)[i],
               Column(bids, Salt, MAX_BID_SLOTS)[i])
  {
  }

  lemma {:induction false} LastPricesBelow(bids: seq<DecryptedBid>, n: nat, bound: int)
    requires n <= |bids| && bound > 0 && forall bid :: bid in bids ==> bid.price < bound
    ensures forall slot :: 0 <= slot < |LastPrices(bids, n)| ==> LastPrices(bids, n)[slot] < bound
  {
    if n == 0 {
    } else {
      LastPricesBelow(bids, n - 1, bound);
      assert bids[n - 1] in bids;
    }
  }

  lemma ClearingPriceFits(bids: seq<DecryptedBid>)
    requires Selected(bids).Ok? && forall bid :: bid in bids ==> 0 <= bid.price < TWO_64
    ensures 0 < Selected(bids).value.clearingPrice < TWO_64
  {
    var prices, o := LastPrices(bids, |bids|), Selected(bids).value;
    SelectMeetsRule(prices, o.winnerIndex, o.clearingPrice);
    LastPricesBelow(bids, |bids|, TWO_64);
    SettlesBelow(prices, o.winnerIndex, o.clearingPrice, TWO_64);
  }

  ghost predicate Provable(p: int, h: Hasher, input: CircuitInput)
    requires p > 0
  {
    exists g :: Satisfies(p, h, SHAPE, input.pub, input.priv, g)
  }

  /** Openings and path are in order; only the outcome is in question. */
  ghost predicate InOrder(p: int, h: Hasher, input: CircuitInput)
    requires p > 0
  {
    && InputsInField(p, SHAPE, input.pub, input.priv)
    && Merkle.Bits(input.priv.merklePathIndexBits)
    && Merkle.Fold(h, input.pub.winnerAddrHash, input.priv.merklePathElements,
                   input.priv.merklePathIndexBits, SHAPE.merkleDepth) == input.pub.whitelistRoot
    && forall i :: 0 <= i < MAX_BID_SLOTS ==>
         && 0 <= input.priv.bidPrices[i] < TWO_64
         && Opens(h, input.pub.auctionId, input.pub.commitments[i], input.priv.bidPrices[i], input.priv.bidSalts[i])
  }

  /** With openings and path in order, provable means the selected outcome. */
  lemma ProvableIsOutcome(p: int, h: Hasher, input: CircuitInput)
    requires Fits(p, SHAPE) && IntoField(p, h) && InOrder(p, h, input)
    ensures
      var o := Select(input.priv.bidPrices);
      Provable(p, h, input)
      <==> input.pub.winnerIndex == o.winnerIndex && input.pub.winningPrice == o.clearingPrice && o.clearingPrice > 0
  {
    Pow2At64();
    CircuitCompleteness.SelectionIsTheOnlyProvableOutcome(p, h, SHAPE, input.pub, input.priv);
  }

  lemma BuiltInOrder(p: int, h: Hasher, auctionId: int, bids: seq<DecryptedBid>, file: WhitelistFile)
    requires Fits(p, SHAPE) && TWO_64 <= p && IntoField(p, h) && 0 <= auctionId < TWO_64
    requires Opened(p, h, auctionId, bids) && Felts(p, Leaves(file.members))
    requires Built(h, auctionId, bids, file).Ok?
    ensures InOrder(p, h, Built(h, auctionId, bids, file).value)
  {
    BuiltPath(p, h, auctionId, bids, file);
    BuiltSlots(p, h, auctionId, bids);
    ClearingPriceFits(bids);
    SelectedHasBid(bids);
  }

  lemma BuiltOutcome(h: Hasher, auctionId: int, bids: seq<DecryptedBid>, file: WhitelistFile)
    requires Built(h, auctionId, bids, file).Ok?
    ensures Selected(bids).Ok?
    ensures
      var input := Built(h, auctionId, bids, file).value;
      && input.pub.winnerIndex == Selected(bids).value.winnerIndex
      && input.pub.winningPrice == Selected(bids).value.clearingPrice
      && input.priv.bidPrices == FirstPrices(bids)
  {
  }

  /** The circuit accepts the input if and only if the last and the first bids
      of the slots select the same winner and clearing price. */
  lemma BuiltIsProvableIff(p: int, h: Hasher, auctionId: int, bids: seq<DecryptedBid>, file: WhitelistFile)
    requires Fits(p, SHAPE) && TWO_64 <= p && IntoField(p, h) && 0 <= auctionId < TWO_64
    requires Opened(p, h, auctionId, bids) && Felts(p, Leaves(file.members))
    requires Built(h, auctionId, bids, file).Ok?
    ensures Selected(bids).Ok?
    ensures
      var last, first := Selected(bids).value, Select(FirstPrices(bids));
      Provable(p, h, Built(h, auctionId, bids, file).value)
      <==> last.winnerIndex == first.winnerIndex && last.clearingPrice == first.clearingPrice
  {
    BuiltInOrder(p, h, auctionId, bids, file);
    BuiltOutcome(h, auctionId, bids, file);
    ClearingPriceFits(bids);
    ProvableIsOutcome(p, h, Built(h, auctionId, bids, file).value);
  }

  /** No slot has two prices. */
  ghost predicate OnePricePerSlot(bids: seq<DecryptedBid>) {
    forall x, y :: x in bids && y in bids && x.slotIndex == y.slotIndex ==> x.price == y.price
  }

  /** Every slot is one of the contract's. */
  predicate SlotsInRange(bids: seq<DecryptedBid>) {
    forall bid :: bid in bids ==> 0 <= bid.slotIndex < MAX_BID_SLOTS
  }

  lemma {:induction false} LastPriceOf(bids: seq<DecryptedBid>, n: nat, slot: nat)
    requires n <= |bids| && OnePricePerSlot(bids) && SlotsInRange(bids) && slot < MAX_BID_SLOTS
    ensures |LastPrices(bids, n)| == MAX_BID_SLOTS && LastPrices(bids, n)[slot] == FieldAt(bids[..n], Price, slot)
  {
    if n == 0 {
    } else {
      LastPriceOf(bids, n - 1, slot);
      assert bids[..n] == bids[..n - 1] + [bids[n - 1]];
      assert bids[n - 1] in bids && forall bid :: bid in bids[..n] ==> bid in bids;
    }
  }

  /** Without two prices for one slot both tables are the same. */
  lemma OnePriceOneTable(bids: seq<DecryptedBid>)
    requires OnePricePerSlot(bids) && SlotsInRange(bids)
    ensures LastPrices(bids, |bids|) == FirstPrices(bids)
  {
    assert bids[..|bids|] == bids;
    LastPriceOf(bids, |bids|, 0);
    forall slot | 0 <= slot < MAX_BID_SLOTS ensures LastPrices(bids, |bids|)[slot] == FirstPrices(bids)[slot] {
      LastPriceOf(bids, |bids|, slot);
    }
  }

  /** So the circuit accepts whatever was built from such bids. */
  lemma OnePriceIsProvable(p: int, h: Hasher, auctionId: int, bids: seq<DecryptedBid>, file: WhitelistFile)
    requires Fits(p, SHAPE) && TWO_64 <= p && IntoField(p, h) && 0 <= auctionId < TWO_64
    requires Opened(p, h, auctionId, bids) && Felts(p, Leaves(file.members))
    requires OnePricePerSlot(bids) && SlotsInRange(bids) && Built(h, auctionId, bids, file).Ok?
    ensures Provable(p, h, Built(h, auctionId, bids, file).value)
  {
    OnePriceOneTable(bids);
    BuiltIsProvableIff(p, h, auctionId, bids, file);
  }

  // ------------------------------------------------------ a repeated slot

  /** Two bids for slot 1, both opening their commitments. */
  function RepeatedBids(h: Hasher, auctionId: int, bidder: string, salt0: int, salt1: int, salt2: int)
    : (bids: seq<DecryptedBid>)
    ensures |bids| == 3
  {
    [DecryptedBid(0, bidder, h.three(5, salt0, auctionId), 5, salt0),
     DecryptedBid(1, bidder, h.three(3, salt1, auctionId), 3, salt1),
     DecryptedBid(1, bidder, h.three(9, salt2, auctionId), 9, salt2)]
  }

  function OneMemberFile(h: Hasher, bidder: string, leaf: int): WhitelistFile {
    WhitelistFile(SHAPE.merkleDepth, [Member(bidder, leaf)],
                  MerkleTree.Root(h, MerkleTree.Pad(Leaves([Member(bidder, leaf)]), Pow2(SHAPE.merkleDepth)),
                                  SHAPE.merkleDepth))
  }

  lemma RepeatedTables(bids: seq<DecryptedBid>)
    requires |bids| == 3 && bids[0].slotIndex == 0 && bids[1].slotIndex == bids[2].slotIndex == 1
    requires bids[0].price == 5 && bids[1].price == 3 && bids[2].price == 9
    ensures LastPrices(bids, 3) == [5, 9, 0, 0, 0, 0, 0, 0] && FirstPrices(bids) == [5, 3, 0, 0, 0, 0, 0, 0]
  {
    assert LastPrices(bids, 1) == [5, 0, 0, 0, 0, 0, 0, 0];
    assert LastPrices(bids, 2) == [5, 3, 0, 0, 0, 0, 0, 0];
    assert FirstAt(bids, 0) == Some(bids[0]) && FirstAt(bids[1..], 1) == Some(bids[1]);
  }

  lemma TwoSelections()
    ensures
      var o := Select([5, 9, 0, 0, 0, 0, 0, 0]);
      o.winnerIndex == 1 && o.clearingPrice == 5 && o.winnerPrice > 0
    ensures Select([5, 3, 0, 0, 0, 0, 0, 0]).clearingPrice == 3
  {
    var last, first := [5, 9, 0, 0, 0, 0, 0, 0], [5, 3, 0, 0, 0, 0, 0, 0];
    assert last[0] == 5 && Settles(last, 1, 5);
    assert first[1] == 3 && Settles(first, 0, 3);
    SelectMeetsRule(last, 1, 5);
    SelectMeetsRule(first, 0, 3);
  }

  lemma RepeatedBuilds(h: Hasher, auctionId: int, bidder: string, salt0: int, salt1: int, salt2: int, leaf: int)
    ensures
      var bids := RepeatedBids(h, auctionId, bidder, salt0, salt1, salt2);
      && Selected(bids).Ok? && Selected(bids).value.clearingPrice == 5
      && Select(FirstPrices(bids)).clearingPrice == 3
      && Built(h, auctionId, bids, OneMemberFile(h, bidder, leaf)).Ok?
  {
    var bids := RepeatedBids(h, auctionId, bidder, salt0, salt1, salt2);
    RepeatedTables(bids);
    TwoSelections();
  }

  /** A repeated slot where every bid opens, the script builds an input without
      complaint, and the circuit rejects it: the winner was chosen on the last
      price of slot 1, 9, and proved on the first, 3. */
  lemma RepeatedSlotBreaks(p: int, h: Hasher, auctionId: int, bidder: string,
                           salt0: int, salt1: int, salt2: int, leaf: int)
    requires Fits(p, SHAPE) && TWO_64 <= p && IntoField(p, h) && 0 <= auctionId < TWO_64
    requires Felt(p, salt0) && Felt(p, salt1) && Felt(p, salt2) && Felt(p, leaf)
    requires h.three(5, salt0, auctionId) != 0 && h.three(3, salt1, auctionId) != 0 && h.three(9, salt2, auctionId) != 0
    ensures
      var bids, file := RepeatedBids(h, auctionId, bidder, salt0, salt1, salt2), OneMemberFile(h, bidder, leaf);
      && Opened(p, h, auctionId, bids) && Felts(p, Leaves(file.members))
      && Built(h, auctionId, bids, file).Ok?
      && !Provable(p, h, Built(h, auctionId, bids, file).value)
  {
    var bids, file := RepeatedBids(h, auctionId, bidder, salt0, salt1, salt2), OneMemberFile(h, bidder, leaf);
    var five, three, nine := 5, 3, 9;
    assert Felt(p, h.three(five, salt0, auctionId)) && Felt(p, h.three(three, salt1, auctionId));
    assert Felt(p, h.three(nine, salt2, auctionId));
    RepeatedBuilds(h, auctionId, bidder, salt0, salt1, salt2, leaf);
    BuiltIsProvableIff(p, h, auctionId, bids, file);
  }
}

/** The operator's settlement pipeline: revealed bids laid out by slot, checked
    against the commitments, the Vickrey outcome selected, the winner's path
    rebuilt and the circuit input assembled. */
module Pipeline {
  import opened Options
  import opened PrimeField
  import opened Powers
  import opened AddressLeaves
  import opened Whitelist
  import opened Poseidon
  import opened Vickrey
  import opened Contract
  import opened AuctionCircuit
  import opened Statements
  import Merkle = MerkleChecker
  import MerkleTree

  /** A decrypted bid; a number that does not parse is None. */
  datatype RevealedBid = RevealedBid(
    slotIndex: int, bidder: string, commitment: Option<int>, price: Option<int>, salt: Option<int>)

  /** Bids laid out by slot; an empty slot is all zero without a bidder. */
  datatype SlotData = SlotData(
    prices: seq<int>, salts: seq<int>, commitments: seq<int>, bidders: seq<Option<string>>)

  predicate EightSlots(s: SlotData) {
    |s.prices| == |s.salts| == |s.commitments| == |s.bidders| == MAX_BID_SLOTS
  }

  /** The fields of the on-chain auction that the pipeline reads. */
  datatype AuctionView = AuctionView(id: int, whitelistRoot: int)

  datatype CircuitInput = CircuitInput(pub: Public, priv: Private)

  datatype SettleBundle = SettleBundle(
    auctionId: int, winnerIndex: int, winningPrice: int, winnerAddress: string, proof: Proof)

  datatype Refusal =
    | NothingRevealed | SlotOutOfRange(slot: int) | NotNumeric | CommitmentMismatch(slot: int)
    | NoPositiveBid | NoSecondPrice | WinnerWithoutBidder | MemberMalformed(member: string)
    | WinnerNotWhitelisted | TreeFailed | RootMismatch | ProvingFailed

  // ---------------------------------------------------------- laying out bids

  const EMPTY_SLOTS := SlotData(
    [0, 0, 0, 0, 0, 0, 0, 0], [0, 0, 0, 0, 0, 0, 0, 0], [0, 0, 0, 0, 0, 0, 0, 0],
    [None, None, None, None, None, None, None, None])

  function FillSlot(s: SlotData, bid: RevealedBid): Result<SlotData, Refusal>
    requires EightSlots(s)
  {
    if bid.slotIndex < 0 || bid.slotIndex >= MAX_BID_SLOTS then Err(SlotOutOfRange(bid.slotIndex))
    else if bid.price.None? || bid.salt.None? || bid.commitment.None? then Err(NotNumeric)
    else Ok(SlotData(
      s.prices[bid.slotIndex := bid.price.value], s.salts[bid.slotIndex := bid.salt.value],
      s.commitments[bid.slotIndex := bid.commitment.value], s.bidders[bid.slotIndex := Some(bid.bidder)]))
  }

  /** The slots after the first n bids, or the first refusal. */
  function FillSlots(bids: seq<RevealedBid>, n: nat): (r: Result<SlotData, Refusal>)
    requires n <= |bids|
    ensures r.Ok? ==> EightSlots(r.value)
  {
    if n == 0 then Ok(EMPTY_SLOTS)
    else
      match FillSlots(bids, n - 1)
      case Err(e) => Err(e)
      case Ok(s) => FillSlot(s, bids[n - 1])
  }

  /** A slot holds exactly a bid's fields. */
  ghost predicate Holds(s: SlotData, bid: RevealedBid)
    requires EightSlots(s)
  {
    && 0 <= bid.slotIndex < MAX_BID_SLOTS
    && s.bidders[bid.slotIndex] == Some(bid.bidder)
    && bid.price == Some(s.prices[bid.slotIndex])
    && bid.salt == Some(s.salts[bid.slotIndex])
    && bid.commitment == Some(s.commitments[bid.slotIndex])
  }

  ghost predicate DistinctSlots(bids: seq<RevealedBid>) {
    forall i, j :: 0 <= i < j < |bids| ==> bids[i].slotIndex != bids[j].slotIndex
  }

  /** With distinct slots the layout loses nothing and invents nothing. */
  lemma {:induction false} LayoutExact(bids: seq<RevealedBid>, n: nat)
    requires n <= |bids| && DistinctSlots(bids) && FillSlots(bids, n).Ok?
    ensures forall i :: 0 <= i < n ==> Holds(FillSlots(bids, n).value, bids[i])
    ensures
      var s := FillSlots(bids, n).value;
      forall slot :: 0 <= slot < MAX_BID_SLOTS && (forall i :: 0 <= i < n ==> bids[i].slotIndex != slot) ==>
        s.bidders[slot] == None && s.prices[slot] == 0 && s.salts[slot] == 0 && s.commitments[slot] == 0
  {
    if n == 0 {
    } else {
      LayoutExact(bids, n - 1);
      var before, s := FillSlots(bids, n - 1).value, FillSlots(bids, n).value;
      forall slot | 0 <= slot < MAX_BID_SLOTS && (forall i :: 0 <= i < n ==> bids[i].slotIndex != slot)
        ensures s.bidders[slot] == None && s.prices[slot] == 0 && s.salts[slot] == 0 && s.commitments[slot] == 0
      {
        assert bids[n - 1].slotIndex != slot;
        assert before.bidders[slot] == None;
      }
    }
  }

  // ------------------------------------------------------ assembling the input

  /** The first of the first n slots that has a bidder but does not open its
      commitment. */
  function CheckSlots(h: Hasher, id: int, s: SlotData, n: nat): Option<int>
    requires EightSlots(s) && n <= MAX_BID_SLOTS
  {
    if n == 0 then None
    else if CheckSlots(h, id, s, n - 1).Some? then CheckSlots(h, id, s, n - 1)
    else if s.bidders[n - 1].None? then None
    else if h.three(s.prices[n - 1], s.salts[n - 1], id) != s.commitments[n - 1] then Some(n - 1)
    else None
  }

  /** Leaves of the first n members, and the last index at which the winner
      occurs among them. */
  function ScanMembers(h: Hasher, decode: Decoder, members: seq<string>, winner: string, n: nat)
    : (r: Result<(seq<int>, int), Refusal>)
    requires n <= |members|
    ensures r.Ok? ==> |r.value.0| == n && -1 <= r.value.1 < n
  {
    if n == 0 then Ok(([], -1))
    else
      match ScanMembers(h, decode, members, winner, n - 1)
      case Err(e) => Err(e)
      case Ok((leaves, found)) =>
        match decode(members[n - 1])
        case None => Err(MemberMalformed(members[n - 1]))
        case Some(key) =>
          Ok((leaves + [KeyLeaf(h, key)], if members[n - 1] == winner then n - 1 else found))
  }

  /** The circuit input for a selected winner: its leaf, its path, the root.  A
      member list that leaves a node without a sibling makes the tree fail. */
  function AssembleFor(h: Hasher, decode: Decoder, view: AuctionView, s: SlotData, members: seq<string>,
                       winner: string, winnerIndex: int, clearingPrice: int): Result<CircuitInput, Refusal>
  {
    match ScanMembers(h, decode, members, winner, |members|)
    case Err(e) => Err(e)
    case Ok((leaves, index)) =>
      if index < 0 then Err(WinnerNotWhitelisted)
      else if !MerkleTree.Hashable(|leaves|, MERKLE_DEPTH) then Err(TreeFailed)
      else
        var padded := MerkleTree.Padded(leaves, MERKLE_DEPTH);
        MerkleTree.PaddedPairsUp(leaves, MERKLE_DEPTH);
        if MerkleTree.Top(h, padded, MERKLE_DEPTH) != view.whitelistRoot then Err(RootMismatch)
        else
          Ok(CircuitInput(
            Public(view.id, s.commitments, winnerIndex, clearingPrice, view.whitelistRoot, leaves[index]),
            Private(s.prices, s.salts,
                    MerkleTree.PathElements(h, padded, MERKLE_DEPTH, index, MERKLE_DEPTH),
                    MerkleTree.PathBits(index, MERKLE_DEPTH))))
  }

  function Assemble(h: Hasher, decode: Decoder, view: AuctionView, s: SlotData, members: seq<string>)
    : (r: Result<CircuitInput, Refusal>)
    requires EightSlots(s)
    ensures r.Ok? ==>
      0 <= r.value.pub.winnerIndex < MAX_BID_SLOTS && s.bidders[r.value.pub.winnerIndex].Some?
  {
    if CheckSlots(h, view.id, s, MAX_BID_SLOTS).Some? then
      Err(CommitmentMismatch(CheckSlots(h, view.id, s, MAX_BID_SLOTS).value))
    else
      var o := Select(s.prices);
      if o.winnerIndex < 0 || o.winnerPrice <= 0 then Err(NoPositiveBid)
      else if o.clearingPrice <= 0 then Err(NoSecondPrice)
      else
        match s.bidders[o.winnerIndex]
        case None => Err(WinnerWithoutBidder)
        case Some(winner) => AssembleFor(h, decode, view, s, members, winner, o.winnerIndex, o.clearingPrice)
  }

  /** What the pipeline returns for slots that were laid out. */
  function Bundle(h: Hasher, decode: Decoder, prove: CircuitInput -> Option<Proof>,
                  view: AuctionView, s: SlotData, members: seq<string>): Result<SettleBundle, Refusal>
    requires EightSlots(s)
  {
    match Assemble(h, decode, view, s, members)
    case Err(e) => Err(e)
    case Ok(input) =>
      match prove(input)
      case None => Err(ProvingFailed)
      case Some(proof) =>
        Ok(SettleBundle(view.id, input.pub.winnerIndex, input.pub.winningPrice,
                        s.bidders[input.pub.winnerIndex].value, proof))
  }

  /** assembleAndProve: check, select, scan, build the tree, prove. */
  method AssembleAndProve(h: Hasher, decode: Decoder, prove: CircuitInput -> Option<Proof>,
                          view: AuctionView, s: SlotData, members: seq<string>)
    returns (r: Result<SettleBundle, Refusal>)
    requires EightSlots(s)
    ensures r == Bundle(h, decode, prove, view, s, members)
  {
    for slotIndex := 0 to MAX_BID_SLOTS
      invariant CheckSlots(h, view.id, s, slotIndex) == None
    {
      if s.bidders[slotIndex] == None {
        continue;
      }
      var recomputed := h.three(s.prices[slotIndex], s.salts[slotIndex], view.id);
      if recomputed != s.commitments[slotIndex] {
        FirstRefusalStands(h, view.id, s, slotIndex + 1, MAX_BID_SLOTS);
        return Err(CommitmentMismatch(slotIndex));
      }
    }
    var outcome := SelectVickreyOutcome(s.prices);
    if outcome.winnerIndex < 0 || outcome.winnerPrice <= 0 {
      return Err(NoPositiveBid);
    }
    if outcome.clearingPrice <= 0 {
      return Err(NoSecondPrice);
    }
    var winnerIndex := outcome.winnerIndex;
    if s.bidders[winnerIndex] == None {
      return Err(WinnerWithoutBidder);
    }
    var winnerAddress := s.bidders[winnerIndex].value;

    var memberLeaves: seq<int> := [];
    var winnerMemberIndex := -1;
    for memberIndex := 0 to |members|
      invariant ScanMembers(h, decode, members, winnerAddress, memberIndex) == Ok((memberLeaves, winnerMemberIndex))
    {
      var decoded := decode(members[memberIndex]);
      if decoded == None {
        FirstMalformedStands(h, decode, members, winnerAddress, memberIndex + 1, |members|);
        return Err(MemberMalformed(members[memberIndex]));
      }
      var leaf := ComputeAddressLeaf(h, decoded.value);
      memberLeaves := memberLeaves + [leaf];
      if members[memberIndex] == winnerAddress {
        winnerMemberIndex := memberIndex;
      }
    }
    if winnerMemberIndex < 0 {
      return Err(WinnerNotWhitelisted);
    }
    if !MerkleTree.Hashable(|memberLeaves|, MERKLE_DEPTH) {
      return Err(TreeFailed);
    }
    var tree := new MerkleTree.PoseidonMerkleTree(h, MERKLE_DEPTH, memberLeaves);
    var root := tree.GetRoot();
    if root != view.whitelistRoot {
      return Err(RootMismatch);
    }
    var path := tree.PathFor(winnerMemberIndex);
    var input := CircuitInput(
      Public(view.id, s.commitments, winnerIndex, outcome.clearingPrice, view.whitelistRoot,
             memberLeaves[winnerMemberIndex]),
      Private(s.prices, s.salts, path.value.elements, path.value.indexBits));
    var proved := prove(input);
    if proved == None {
      return Err(ProvingFailed);
    }
    r := Ok(SettleBundle(view.id, winnerIndex, outcome.clearingPrice, winnerAddress, proved.value));
  }

  lemma {:induction false} FirstRefusalStands(h: Hasher, id: int, s: SlotData, n: nat, m: nat)
    requires EightSlots(s) && n <= m <= MAX_BID_SLOTS && CheckSlots(h, id, s, n).Some?
    ensures CheckSlots(h, id, s, m) == CheckSlots(h, id, s, n)
  {
    if n == m {
    } else {
      FirstRefusalStands(h, id, s, n, m - 1);
    }
  }

  lemma {:induction false} FirstMalformedStands(h: Hasher, decode: Decoder, members: seq<string>,
                                                winner: string, n: nat, m: nat)
    requires n <= m <= |members| && ScanMembers(h, decode, members, winner, n).Err?
    ensures ScanMembers(h, decode, members, winner, m) == ScanMembers(h, decode, members, winner, n)
  {
    if n == m {
    } else {
      FirstMalformedStands(h, decode, members, winner, n, m - 1);
    }
  }

  /** What the pipeline returns for revealed bids. */
  function BundleFrom(h: Hasher, decode: Decoder, prove: CircuitInput -> Option<Proof>,
                      view: AuctionView, revealedBids: seq<RevealedBid>, members: seq<string>)
    : Result<SettleBundle, Refusal>
  {
    if revealedBids == [] then Err(NothingRevealed)
    else
      match FillSlots(revealedBids, |revealedBids|)
      case Err(e) => Err(e)
      case Ok(s) => Bundle(h, decode, prove, view, s, members)
  }

  /** proveSettleFromRevealedBids: lay the bids out, then assemble and prove. */
  method ProveSettleFromRevealedBids(h: Hasher, decode: Decoder, prove: CircuitInput -> Option<Proof>,
                                     view: AuctionView, revealedBids: seq<RevealedBid>, members: seq<string>)
    returns (r: Result<SettleBundle, Refusal>)
    ensures r == BundleFrom(h, decode, prove, view, revealedBids, members)
    ensures r.Ok? ==>
      && FillSlots(revealedBids, |revealedBids|).Ok?
      && Settles(FillSlots(revealedBids, |revealedBids|).value.prices, r.value.winnerIndex, r.value.winningPrice)
  {
    if |revealedBids| == 0 {
      return Err(NothingRevealed);
    }
    var slots := EMPTY_SLOTS;
    for i := 0 to |revealedBids|
      invariant EightSlots(slots) && FillSlots(revealedBids, i) == Ok(slots)
    {
      var bid := revealedBids[i];
      if bid.slotIndex < 0 || bid.slotIndex >= MAX_BID_SLOTS {
        FirstUnfitStands(revealedBids, i + 1, |revealedBids|);
        return Err(SlotOutOfRange(bid.slotIndex));
      }
      if bid.price == None || bid.salt == None || bid.commitment == None {
        FirstUnfitStands(revealedBids, i + 1, |revealedBids|);
        return Err(NotNumeric);
      }
      slots := SlotData(
        slots.prices[bid.slotIndex := bid.price.value], slots.salts[bid.slotIndex := bid.salt.value],
        slots.commitments[bid.slotIndex := bid.commitment.value],
        slots.bidders[bid.slotIndex := Some(bid.bidder)]);
    }
    r := AssembleAndProve(h, decode, prove, view, slots, members);
    if r.Ok? {
      AssembledOutcome(h, decode, view, slots, members);
    }
  }

  lemma {:induction false} FirstUnfitStands(revealedBids: seq<RevealedBid>, n: nat, m: nat)
    requires n <= m <= |revealedBids| && FillSlots(revealedBids, n).Err?
    ensures FillSlots(revealedBids, m) == FillSlots(revealedBids, n)
  {
    if n == m {
    } else {
      FirstUnfitStands(revealedBids, n, m - 1);
    }
  }

  // ------------------------------------------------------ what the input is worth

  /** The revealed numbers are what a browser bid can contain: 64-bit prices,
      field salts, nonzero commitments, and nothing in the empty slots. */
  ghost predicate CleanSlots(p: int, s: SlotData)
    requires EightSlots(s)
  {
    forall i :: 0 <= i < MAX_BID_SLOTS ==>
      && 0 <= s.prices[i] < TWO_64 && Felt(p, s.salts[i]) && Felt(p, s.commitments[i])
      && (s.bidders[i].Some? ==> s.commitments[i] != 0)
      && (s.bidders[i].None? ==> s.prices[i] == 0 && s.commitments[i] == 0)
  }

  lemma {:induction false} SlotsChecked(h: Hasher, id: int, s: SlotData, n: nat, i: nat)
    requires EightSlots(s) && i < n <= MAX_BID_SLOTS && CheckSlots(h, id, s, n) == None
    ensures s.bidders[i].Some? ==> h.three(s.prices[i], s.salts[i], id) == s.commitments[i]
  {
    if i == n - 1 {
    } else {
      SlotsChecked(h, id, s, n - 1, i);
    }
  }

  lemma {:induction false} OpenSlotsPass(h: Hasher, id: int, s: SlotData, n: nat)
    requires EightSlots(s) && n <= MAX_BID_SLOTS
    requires forall i :: 0 <= i < n && s.bidders[i].Some? ==>
               h.three(s.prices[i], s.salts[i], id) == s.commitments[i]
    ensures CheckSlots(h, id, s, n) == None
  {
    if n == 0 {
    } else {
      OpenSlotsPass(h, id, s, n - 1);
    }
  }

  lemma {:induction false} ScannedMembers(p: int, h: Hasher, decode: Decoder, members: seq<string>,
                                          winner: string, n: nat)
    requires IntoField(p, h) && n <= |members| && ScanMembers(h, decode, members, winner, n).Ok?
    ensures
      var (leaves, index) := ScanMembers(h, decode, members, winner, n).value;
      && Felts(p, leaves)
      && (index >= 0 ==> members[index] == winner && decode(winner).Some?
                         && leaves[index] == KeyLeaf(h, decode(winner).value))
  {
    if n == 0 {
    } else {
      ScannedMembers(p, h, decode, members, winner, n - 1);
      var (high, low) := Halves(decode(members[n - 1]).value);
      assert Felt(p, h.two(high, low));
    }
  }

  lemma PaddedLeavesFelts(p: int, leaves: seq<int>, capacity: nat)
    requires p > 0 && Felts(p, leaves) && |leaves| <= capacity
    ensures Felts(p, MerkleTree.Pad(leaves, capacity))
  {
  }

  /** The path of the assembled input leads from the winner's leaf to the root. */
  lemma AssembledPath(p: int, h: Hasher, decode: Decoder, view: AuctionView, s: SlotData, members: seq<string>)
    requires p > 1 && IntoField(p, h)
    requires EightSlots(s) && |members| <= Pow2(MERKLE_DEPTH)
    requires Assemble(h, decode, view, s, members).Ok?
    ensures
      var input := Assemble(h, decode, view, s, members).value;
      && Felt(p, input.pub.winnerAddrHash) && Felt(p, input.pub.whitelistRoot)
      && Felts(p, input.priv.merklePathElements) && Merkle.Bits(input.priv.merklePathIndexBits)
      && |input.priv.merklePathElements| == |input.priv.merklePathIndexBits| == MERKLE_DEPTH
      && Merkle.Fold(h, input.pub.winnerAddrHash, input.priv.merklePathElements,
                     input.priv.merklePathIndexBits, MERKLE_DEPTH) == input.pub.whitelistRoot
      && 0 <= input.pub.winnerIndex < MAX_BID_SLOTS && s.bidders[input.pub.winnerIndex].Some?
      && var winner := s.bidders[input.pub.winnerIndex].value;
      && decode(winner).Some? && input.pub.winnerAddrHash == KeyLeaf(h, decode(winner).value)
  {
    SelectMeetsRule(s.prices, 0, 0);
    var o := Select(s.prices);
    var winner := s.bidders[o.winnerIndex].value;
    var (leaves, index) := ScanMembers(h, decode, members, winner, |members|).value;
    ScannedMembers(p, h, decode, members, winner, |members|);
    var padded := MerkleTree.Padded(leaves, MERKLE_DEPTH);
    PaddedLeavesFelts(p, leaves, Pow2(MERKLE_DEPTH));
    MerkleTree.MerkleComplete(h, padded, MERKLE_DEPTH, index);
    MerkleTree.PathElementsFelts(p, h, padded, MERKLE_DEPTH, index);
    MerkleTree.RootFelt(p, h, padded, MERKLE_DEPTH);
  }

  lemma SlotsOpen(p: int, h: Hasher, id: int, s: SlotData)
    requires EightSlots(s) && CleanSlots(p, s) && CheckSlots(h, id, s, MAX_BID_SLOTS) == None
    ensures forall i :: 0 <= i < MAX_BID_SLOTS ==> Opens(h, id, s.commitments[i], s.prices[i], s.salts[i])
  {
    forall i | 0 <= i < MAX_BID_SLOTS
      ensures Opens(h, id, s.commitments[i], s.prices[i], s.salts[i])
    {
      SlotsChecked(h, id, s, MAX_BID_SLOTS, i);
    }
  }

  /** What assembling took over from the slots, and the outcome it selected. */
  lemma AssembledOutcome(h: Hasher, decode: Decoder, view: AuctionView, s: SlotData, members: seq<string>)
    requires EightSlots(s) && Assemble(h, decode, view, s, members).Ok?
    ensures CheckSlots(h, view.id, s, MAX_BID_SLOTS) == None
    ensures
      var input := Assemble(h, decode, view, s, members).value;
      && input.pub.auctionId == view.id && input.pub.commitments == s.commitments
      && input.priv.bidPrices == s.prices && input.priv.bidSalts == s.salts
      && Settles(s.prices, input.pub.winnerIndex, input.pub.winningPrice)
  {
    var o := Select(s.prices);
    SelectMeetsRule(s.prices, o.winnerIndex, o.clearingPrice);
  }

  lemma TrueInput(p: int, h: Hasher, s: SlotData, input: CircuitInput)
    requires Fits(p, SHAPE) && TWO_64 <= p && 0 <= input.pub.auctionId < TWO_64
    requires EightSlots(s) && CleanSlots(p, s) && CheckSlots(h, input.pub.auctionId, s, MAX_BID_SLOTS) == None
    requires input.pub.commitments == s.commitments
    requires input.priv.bidPrices == s.prices && input.priv.bidSalts == s.salts
    requires Settles(s.prices, input.pub.winnerIndex, input.pub.winningPrice)
    requires Felt(p, input.pub.winnerAddrHash) && Felt(p, input.pub.whitelistRoot)
    requires Felts(p, input.priv.merklePathElements) && Merkle.Bits(input.priv.merklePathIndexBits)
    requires |input.priv.merklePathElements| == |input.priv.merklePathIndexBits| == MERKLE_DEPTH
    requires Merkle.Fold(h, input.pub.winnerAddrHash, input.priv.merklePathElements,
                         input.priv.merklePathIndexBits, MERKLE_DEPTH) == input.pub.whitelistRoot
    ensures InputsInField(p, SHAPE, input.pub, input.priv)
    ensures Statement(h, SHAPE, input.pub, input.priv)
  {
    Pow2At64();
    SettlesBelow(s.prices, input.pub.winnerIndex, input.pub.winningPrice, TWO_64);
    SlotsOpen(p, h, input.pub.auctionId, s);
  }

  /** Pipeline refinement: whenever the pipeline reaches the prover with clean
      slots, its input states a true outcome. */
  lemma AssembledInputIsTrue(p: int, h: Hasher, decode: Decoder, view: AuctionView, s: SlotData, members: seq<string>)
    requires Fits(p, SHAPE) && TWO_64 <= p && IntoField(p, h) && 0 <= view.id < TWO_64
    requires EightSlots(s) && CleanSlots(p, s) && |members| <= Pow2(MERKLE_DEPTH)
    requires Assemble(h, decode, view, s, members).Ok?
    ensures
      var input := Assemble(h, decode, view, s, members).value;
      && InputsInField(p, SHAPE, input.pub, input.priv)
      && Statement(h, SHAPE, input.pub, input.priv)
  {
    AssembledPath(p, h, decode, view, s, members);
    AssembledOutcome(h, decode, view, s, members);
    TrueInput(p, h, s, Assemble(h, decode, view, s, members).value);
  }

  /** The scan hashes the members' keys, or stops at the first bad member. */
  lemma {:induction false} ScanHashesKeys(h: Hasher, decode: Decoder, members: seq<string>, winner: string, n: nat)
    requires n <= |members|
    ensures
      match Keys(decode, members[..n])
      case Err(member) => ScanMembers(h, decode, members, winner, n) == Err(MemberMalformed(member))
      case Ok(keys) =>
        && ScanMembers(h, decode, members, winner, n).Ok?
        && ScanMembers(h, decode, members, winner, n).value.0 == KeyLeaves(h, keys)
  {
    if n == 0 {
    } else {
      ScanHashesKeys(h, decode, members, winner, n - 1);
      assert members[..n][..n - 1] == members[..n - 1];
      match Keys(decode, members[..n - 1])
      case Err(_) =>
      case Ok(keys) =>
        if decode(members[n - 1]).Some? {
          var key := decode(members[n - 1]).value;
          assert (keys + [key])[..|keys|] == keys;
        }
    }
  }

  /** The part after the scan objects to the root exactly when it differs. */
  lemma RootOfLeaves(h: Hasher, view: AuctionView, leaves: seq<int>, r: Result<CircuitInput, Refusal>)
    requires |leaves| <= Pow2(MERKLE_DEPTH)
    requires r.Ok? ==> MerkleTree.Top(h, MerkleTree.Padded(leaves, MERKLE_DEPTH), MERKLE_DEPTH) == view.whitelistRoot
    requires r == Err(RootMismatch) ==>
               MerkleTree.Top(h, MerkleTree.Padded(leaves, MERKLE_DEPTH), MERKLE_DEPTH) != view.whitelistRoot
    ensures
      var root := MerkleTree.Root(h, MerkleTree.Pad(leaves, Pow2(MERKLE_DEPTH)), MERKLE_DEPTH);
      && (r.Ok? ==> view.whitelistRoot == root)
      && (view.whitelistRoot == root ==> r != Err(RootMismatch))
  {
    MerkleTree.PaddedTop(h, leaves, MERKLE_DEPTH);
  }

  lemma AssembleForTop(h: Hasher, decode: Decoder, view: AuctionView, s: SlotData, members: seq<string>,
                       winner: string, winnerIndex: int, clearingPrice: int, leaves: seq<int>)
    requires |leaves| == |members| && ScanMembers(h, decode, members, winner, |members|).Ok?
    requires ScanMembers(h, decode, members, winner, |members|).value.0 == leaves
    ensures
      var r := AssembleFor(h, decode, view, s, members, winner, winnerIndex, clearingPrice);
      var top := MerkleTree.Top(h, MerkleTree.Padded(leaves, MERKLE_DEPTH), MERKLE_DEPTH);
      (r.Ok? ==> top == view.whitelistRoot) && (r == Err(RootMismatch) ==> top != view.whitelistRoot)
  {
  }

  lemma RootCheckedFor(h: Hasher, decode: Decoder, view: AuctionView, s: SlotData, members: seq<string>,
                       winner: string, winnerIndex: int, clearingPrice: int)
    requires |members| <= Pow2(MERKLE_DEPTH) && Keys(decode, members).Ok?
    ensures
      var root := RootOf(h, Keys(decode, members).value);
      var r := AssembleFor(h, decode, view, s, members, winner, winnerIndex, clearingPrice);
      && (r.Ok? ==> view.whitelistRoot == root)
      && (view.whitelistRoot == root ==> r != Err(RootMismatch))
  {
    ScanHashesKeys(h, decode, members, winner, |members|);
    assert members[..|members|] == members;
    var leaves := KeyLeaves(h, Keys(decode, members).value);
    AssembleForTop(h, decode, view, s, members, winner, winnerIndex, clearingPrice, leaves);
    RootOfLeaves(h, view, leaves, AssembleFor(h, decode, view, s, members, winner, winnerIndex, clearingPrice));
  }

  /** Only the part after the selection can succeed or object to the root. */
  lemma AssembleEndsFor(h: Hasher, decode: Decoder, view: AuctionView, s: SlotData, members: seq<string>)
    requires EightSlots(s) && |members| <= Pow2(MERKLE_DEPTH)
    requires var r := Assemble(h, decode, view, s, members); r.Ok? || r == Err(RootMismatch)
    ensures
      var o := Select(s.prices);
      && 0 <= o.winnerIndex && s.bidders[o.winnerIndex].Some?
      && Assemble(h, decode, view, s, members)
           == AssembleFor(h, decode, view, s, members, s.bidders[o.winnerIndex].value, o.winnerIndex, o.clearingPrice)
  {
  }

  /** For an auction created with the root over `created`: the root check never
      stops the same members, and whatever passes it is the same keys in the
      same order. */
  lemma RootCheckIsMemberCheck(h: Hasher, decode: Decoder, view: AuctionView, s: SlotData,
                               members: seq<string>, created: seq<Key>, known: set<Pair>)
    requires EightSlots(s) && |members| <= Pow2(MERKLE_DEPTH) && |created| <= Pow2(MERKLE_DEPTH)
    requires Keys(decode, members).Ok? && view.whitelistRoot == RootOf(h, created)
    requires NoPairCollision(h, known)
    requires KeyPairs(Keys(decode, members).value) <= known && KeyPairs(created) <= known
    requires MerkleTree.TreePairs(h, MerkleTree.Pad(KeyLeaves(h, created), Pow2(MERKLE_DEPTH)), MERKLE_DEPTH) <= known
    requires
      var leaves := KeyLeaves(h, Keys(decode, members).value);
      MerkleTree.TreePairs(h, MerkleTree.Pad(leaves, Pow2(MERKLE_DEPTH)), MERKLE_DEPTH) <= known
    requires MerkleTree.EMPTY_LEAF !in KeyLeaves(h, created) + KeyLeaves(h, Keys(decode, members).value)
    ensures Assemble(h, decode, view, s, members).Ok? ==> Keys(decode, members).value == created
    ensures Keys(decode, members).value == created ==> Assemble(h, decode, view, s, members) != Err(RootMismatch)
  {
    RootBindsMembers(h, created, Keys(decode, members).value, known);
    var r := Assemble(h, decode, view, s, members);
    if r.Ok? || r == Err(RootMismatch) {
      AssembleEndsFor(h, decode, view, s, members);
      var o := Select(s.prices);
      RootCheckedFor(h, decode, view, s, members, s.bidders[o.winnerIndex].value, o.winnerIndex, o.clearingPrice);
    }
  }
}

/** When the operator's pipeline reaches the prover, and when it refuses with
    what, in terms of the revealed bids and the member list. */
module PipelineOutcomes {
  import opened Options
  import opened Powers
  import opened AddressLeaves
  import opened Whitelist
  import opened Poseidon
  import opened Vickrey
  import opened Contract
  import opened AuctionCircuit
  import opened Pipeline
  import MerkleTree

  // ------------------------------------------------------------- commitments

  predicate OpensSlot(h: Hasher, id: int, s: SlotData, i: int)
    requires EightSlots(s) && 0 <= i < 8
  {
    s.bidders[i].Some? ==> h.three(s.prices[i], s.salts[i], id) == s.commitments[i]
  }

  /** Every occupied slot opens its commitment. */
  predicate AllOpen(h: Hasher, id: int, s: SlotData)
    requires EightSlots(s)
  {
    forall i :: 0 <= i < 8 ==> OpensSlot(h, id, s, i)
  }

  /** The first slot that does not. */
  predicate FirstClosed(h: Hasher, id: int, s: SlotData, k: int)
    requires EightSlots(s)
  {
    0 <= k < 8 && !OpensSlot(h, id, s, k) && forall i :: 0 <= i < k ==> OpensSlot(h, id, s, i)
  }

  lemma {:induction false} ChecksMean(h: Hasher, id: int, s: SlotData, n: nat)
    requires EightSlots(s) && n <= 8
    ensures CheckSlots(h, id, s, n) == None <==> forall i :: 0 <= i < n ==> OpensSlot(h, id, s, i)
    ensures CheckSlots(h, id, s, n).Some? ==>
              CheckSlots(h, id, s, n).value < n && FirstClosed(h, id, s, CheckSlots(h, id, s, n).value)
  {
    if n == 0 {
    } else {
      ChecksMean(h, id, s, n - 1);
      assert OpensSlot(h, id, s, n - 1)
        <==> s.bidders[n - 1].Some? ==> h.three(s.prices[n - 1], s.salts[n - 1], id) == s.commitments[n - 1];
    }
  }

  // --------------------------------------------------------------- selection

  predicate NoPositive(prices: seq<int>) {
    forall i :: 0 <= i < |prices| ==> prices[i] <= 0
  }

  /** Some price is positive, and no other is. */
  predicate OnePositive(prices: seq<int>) {
    exists i :: 0 <= i < |prices| && prices[i] > 0 && forall j :: 0 <= j < |prices| && j != i ==> prices[j] <= 0
  }

  /** The selection finds no positive price, only one, or the outcome of the rule. */
  lemma SelectionMeans(prices: seq<int>)
    ensures
      var o := Select(prices);
      && (NoPositive(prices) <==> o.winnerIndex < 0 || o.winnerPrice <= 0)
      && (OnePositive(prices) <==> o.winnerIndex >= 0 && o.winnerPrice > 0 && o.clearingPrice <= 0)
      && (o.clearingPrice > 0 ==> Settles(prices, o.winnerIndex, o.clearingPrice) && o.winnerPrice > 0)
  {
    var o := Select(prices);
    LeaderWins(prices, |prices|);
    BestOtherIsMaximum(prices, o.winnerIndex, |prices|);
    SelectMeetsRule(prices, o.winnerIndex, o.clearingPrice);
    if o.winnerIndex >= 0 && o.winnerPrice > 0 {
      assert prices[o.winnerIndex] > 0;
    }
  }

  // ----------------------------------------------------------------- members

  /** The first member that does not decode. */
  predicate FirstMalformed(decode: Decoder, members: seq<string>, member: string) {
    exists k :: 0 <= k < |members| && members[k] == member && decode(member) == None
                && forall i :: 0 <= i < k ==> decode(members[i]).Some?
  }

  predicate AllDecode(decode: Decoder, members: seq<string>) {
    forall i :: 0 <= i < |members| ==> decode(members[i]).Some?
  }

  function KeysOf(decode: Decoder, members: seq<string>): (keys: seq<Key>)
    requires AllDecode(decode, members)
    ensures |keys| == |members| && forall i :: 0 <= i < |members| ==> keys[i] == decode(members[i]).value
  {
    seq(|members|, i requires 0 <= i < |members| => decode(members[i]).value)
  }

  /** The last place of a text in the list, -1 when it is not there. */
  predicate LastPlace(members: seq<string>, text: string, k: int) {
    && -1 <= k < |members|
    && (k >= 0 ==> members[k] == text)
    && forall i :: k < i < |members| ==> members[i] != text
  }

  /** What the scan of the first n members comes to. */
  ghost predicate Scanned(h: Hasher, decode: Decoder, members: seq<string>, winner: string, n: nat,
                          r: Result<(seq<int>, int), Refusal>)
    requires n <= |members|
  {
    match r
    case Err(e) =>
      && e.MemberMalformed?
      && exists k :: 0 <= k < n && members[k] == e.member && decode(members[k]) == None
                     && forall i :: 0 <= i < k ==> decode(members[i]).Some?
    case Ok((leaves, index)) =>
      && |leaves| == n && -1 <= index < n
      && (forall i :: 0 <= i < n ==> decode(members[i]).Some? && leaves[i] == KeyLeaf(h, decode(members[i]).value))
      && (index >= 0 ==> members[index] == winner)
      && forall i :: index < i < n ==> members[i] != winner
  }

  lemma {:induction false} ScanMeans(h: Hasher, decode: Decoder, members: seq<string>, winner: string, n: nat)
    requires n <= |members|
    ensures Scanned(h, decode, members, winner, n, ScanMembers(h, decode, members, winner, n))
  {
    if n == 0 {
    } else {
      ScanMeans(h, decode, members, winner, n - 1);
    }
  }

  // ------------------------------------------------------------------- trees

  lemma {:induction false} PairsUpMeans(size: nat, depth: nat)
    ensures MerkleTree.PairsUp(size, depth) <==> size % Pow2(depth) == 0
    ensures MerkleTree.Halved(size, depth) == size / Pow2(depth)
  {
    if depth == 0 {
    } else {
      PairsUpMeans(size, depth - 1);
      HalfSteps(size, Pow2(depth - 1));
    }
  }

  lemma HalfSteps(size: nat, unit: int)
    requires unit >= 1
    ensures size / unit / 2 == size / (2 * unit)
    ensures size % unit == 0 && size / unit % 2 == 0 <==> size % (2 * unit) == 0
  {
    var q, r := size / (2 * unit), size % (2 * unit);
    assert size == q * (2 * unit) + r;
    if r < unit {
      assert size == (2 * q) * unit + r;
      Division(size, unit, 2 * q, r);
    } else {
      assert size == (2 * q + 1) * unit + (r - unit);
      Division(size, unit, 2 * q + 1, r - unit);
    }
  }

  lemma Division(x: int, d: int, q: int, r: int)
    requires d >= 1 && 0 <= r < d && x == q * d + r
    ensures x / d == q && x % d == r
  {
    var e := x / d - q;
    assert e * d == r - x % d;
    assert e > 0 ==> e * d >= d;
    assert e < 0 ==> e * d <= -d;
  }

  /** A list of at most 1024 members can be hashed, a longer one exactly when it is
      a multiple of 1024. */
  lemma HashableMeans(size: nat)
    ensures MerkleTree.Hashable(size, MERKLE_DEPTH) <==> size <= 1024 || size % 1024 == 0
  {
    CapacityIs();
    PairsUpMeans(size, MERKLE_DEPTH);
  }

  /** The top of the tree over the keys: for at most 1024 of them the root that an
      auction over these members is created with. */
  function TreeRoot(h: Hasher, keys: seq<Key>): (root: int)
    ensures |keys| <= Pow2(MERKLE_DEPTH) ==> root == RootOf(h, keys)
  {
    assert |keys| <= Pow2(MERKLE_DEPTH) ==>
      MerkleTree.Padded(KeyLeaves(h, keys), MERKLE_DEPTH) == MerkleTree.Pad(KeyLeaves(h, keys), Pow2(MERKLE_DEPTH));
    MerkleTree.Top(h, MerkleTree.Padded(KeyLeaves(h, keys), MERKLE_DEPTH), MERKLE_DEPTH)
  }

  // ----------------------------------------------------------------- answers

  /** Every occupied slot opens, and w at x is the second-price outcome. */
  ghost predicate Chosen(h: Hasher, id: int, s: SlotData, w: int, x: int)
    requires EightSlots(s)
  {
    AllOpen(h, id, s) && Settles(s.prices, w, x)
  }

  /** The circuit input for a winner: the slots as revealed, the winner's leaf, and
      the path of the winner's last place in the list. */
  ghost predicate Carries(h: Hasher, decode: Decoder, view: AuctionView, s: SlotData, members: seq<string>,
                          w: int, x: int, winner: string, input: CircuitInput)
    requires AllDecode(decode, members)
  {
    && decode(winner).Some?
    && input.pub == Public(view.id, s.commitments, w, x, view.whitelistRoot, KeyLeaf(h, decode(winner).value))
    && input.priv.bidPrices == s.prices && input.priv.bidSalts == s.salts
    && exists k: nat ::
         && LastPlace(members, winner, k) && MerkleTree.Hashable(|members|, MERKLE_DEPTH)
         && WinnerPath(h, KeysOf(decode, members), k, input.priv.merklePathElements, input.priv.merklePathIndexBits)
  }

  ghost predicate WinnerPath(h: Hasher, keys: seq<Key>, k: nat, elements: seq<int>, bits: seq<int>)
    requires k < |keys| && MerkleTree.Hashable(|keys|, MERKLE_DEPTH)
  {
    MerkleTree.PaddedPairsUp(KeyLeaves(h, keys), MERKLE_DEPTH);
    && elements == MerkleTree.PathElements(h, MerkleTree.Padded(KeyLeaves(h, keys), MERKLE_DEPTH), MERKLE_DEPTH, k,
                                           MERKLE_DEPTH)
    && bits == MerkleTree.PathBits(k, MERKLE_DEPTH)
  }

  /** The part after the selection. */
  lemma ForWinner(h: Hasher, decode: Decoder, view: AuctionView, s: SlotData, members: seq<string>, winner: string,
                  w: int, x: int)
    ensures
      var r := AssembleFor(h, decode, view, s, members, winner, w, x);
      if !AllDecode(decode, members) then
        r.Err? && r.error.MemberMalformed? && FirstMalformed(decode, members, r.error.member)
      else if winner !in members then r == Err(WinnerNotWhitelisted)
      else if !MerkleTree.Hashable(|members|, MERKLE_DEPTH) then r == Err(TreeFailed)
      else if TreeRoot(h, KeysOf(decode, members)) != view.whitelistRoot then r == Err(RootMismatch)
      else r.Ok? && Carries(h, decode, view, s, members, w, x, winner, r.value)
  {
    ScanMeans(h, decode, members, winner, |members|);
    match ScanMembers(h, decode, members, winner, |members|)
    case Err(e) =>
    case Ok((leaves, index)) =>
      assert leaves == KeyLeaves(h, KeysOf(decode, members));
      assert winner in members <==> index >= 0;
      assert LastPlace(members, winner, index);
  }

  /** What assembling the slots comes to. */
  lemma AssembleMeans(h: Hasher, decode: Decoder, view: AuctionView, s: SlotData, members: seq<string>)
    requires EightSlots(s)
    ensures
      var r := Assemble(h, decode, view, s, members);
      if !AllOpen(h, view.id, s) then
        r.Err? && r.error.CommitmentMismatch? && FirstClosed(h, view.id, s, r.error.slot)
      else if NoPositive(s.prices) then r == Err(NoPositiveBid)
      else if OnePositive(s.prices) then r == Err(NoSecondPrice)
      else
        var o := Select(s.prices);
        && Settles(s.prices, o.winnerIndex, o.clearingPrice)
        && match s.bidders[o.winnerIndex]
           case None => r == Err(WinnerWithoutBidder)
           case Some(winner) =>
             r == AssembleFor(h, decode, view, s, members, winner, o.winnerIndex, o.clearingPrice)
  {
    ChecksMean(h, view.id, s, 8);
    SelectionMeans(s.prices);
  }

  /** The pipeline on laid-out slots, case by case: the first slot that does not
      open, no positive bid, only one, no bidder in the winning slot, the first
      malformed member, a winner who is not listed, a list that cannot be hashed,
      another root, or the prover's answer on the winner's input. */
  ghost predicate Answer(h: Hasher, decode: Decoder, prove: CircuitInput -> Option<Proof>, view: AuctionView,
                          s: SlotData, members: seq<string>, r: Result<SettleBundle, Refusal>)
    requires EightSlots(s)
  {
    if !AllOpen(h, view.id, s) then
      r.Err? && r.error.CommitmentMismatch? && FirstClosed(h, view.id, s, r.error.slot)
    else if NoPositive(s.prices) then r == Err(NoPositiveBid)
    else if OnePositive(s.prices) then r == Err(NoSecondPrice)
    else
      exists w, x :: Settles(s.prices, w, x) && WinnerAnswer(h, decode, prove, view, s, members, w, x, r)
  }

  ghost predicate WinnerAnswer(h: Hasher, decode: Decoder, prove: CircuitInput -> Option<Proof>, view: AuctionView,
                                s: SlotData, members: seq<string>, w: int, x: int, r: Result<SettleBundle, Refusal>)
    requires EightSlots(s) && 0 <= w < 8
  {
    match s.bidders[w]
    case None => r == Err(WinnerWithoutBidder)
    case Some(winner) =>
      if !AllDecode(decode, members) then
        r.Err? && r.error.MemberMalformed? && FirstMalformed(decode, members, r.error.member)
      else if winner !in members then r == Err(WinnerNotWhitelisted)
      else if |members| > 1024 && |members| % 1024 != 0 then r == Err(TreeFailed)
      else if TreeRoot(h, KeysOf(decode, members)) != view.whitelistRoot then r == Err(RootMismatch)
      else
        exists input :: Carries(h, decode, view, s, members, w, x, winner, input)
          && match prove(input)
             case None => r == Err(ProvingFailed)
             case Some(proof) => r == Ok(SettleBundle(view.id, w, x, winner, proof))
  }

  lemma BundleIsAnswer(h: Hasher, decode: Decoder, prove: CircuitInput -> Option<Proof>, view: AuctionView,
                           s: SlotData, members: seq<string>)
    requires EightSlots(s)
    ensures Answer(h, decode, prove, view, s, members, Bundle(h, decode, prove, view, s, members))
  {
    AssembleMeans(h, decode, view, s, members);
    var r := Bundle(h, decode, prove, view, s, members);
    if AllOpen(h, view.id, s) && !NoPositive(s.prices) && !OnePositive(s.prices) {
      var o := Select(s.prices);
      var w, x := o.winnerIndex, o.clearingPrice;
      if s.bidders[w].Some? {
        ForWinner(h, decode, view, s, members, s.bidders[w].value, w, x);
        HashableMeans(|members|);
      }
      assert WinnerAnswer(h, decode, prove, view, s, members, w, x, r);
    }
  }

  lemma FirstMalformedUnique(decode: Decoder, members: seq<string>, m: string, m': string)
    requires FirstMalformed(decode, members, m) && FirstMalformed(decode, members, m')
    ensures m == m'
  {
    var k :| 0 <= k < |members| && members[k] == m && decode(m) == None
             && forall i :: 0 <= i < k ==> decode(members[i]).Some?;
    var k' :| 0 <= k' < |members| && members[k'] == m' && decode(m') == None
              && forall i :: 0 <= i < k' ==> decode(members[i]).Some?;
    assert k == k';
  }

  lemma CarriesUnique(h: Hasher, decode: Decoder, view: AuctionView, s: SlotData, members: seq<string>,
                      w: int, x: int, winner: string, input: CircuitInput, input': CircuitInput)
    requires AllDecode(decode, members)
    requires Carries(h, decode, view, s, members, w, x, winner, input)
    requires Carries(h, decode, view, s, members, w, x, winner, input')
    ensures input == input'
  {
    var keys := KeysOf(decode, members);
    var k: nat :| LastPlace(members, winner, k) && WinnerPath(h, keys, k, input.priv.merklePathElements,
                                                              input.priv.merklePathIndexBits);
    var k': nat :| LastPlace(members, winner, k') && WinnerPath(h, keys, k', input'.priv.merklePathElements,
                                                                input'.priv.merklePathIndexBits);
    assert k == k';
  }

  /** The cases leave no choice. */
  lemma AnswerUnique(h: Hasher, decode: Decoder, prove: CircuitInput -> Option<Proof>, view: AuctionView,
                      s: SlotData, members: seq<string>, r: Result<SettleBundle, Refusal>,
                      r': Result<SettleBundle, Refusal>)
    requires EightSlots(s)
    requires Answer(h, decode, prove, view, s, members, r) && Answer(h, decode, prove, view, s, members, r')
    ensures r == r'
  {
    if !AllOpen(h, view.id, s) {
      assert r.error.slot == r'.error.slot;
    } else if NoPositive(s.prices) || OnePositive(s.prices) {
    } else {
      var w, x :| Settles(s.prices, w, x) && WinnerAnswer(h, decode, prove, view, s, members, w, x, r);
      var w', x' :| Settles(s.prices, w', x') && WinnerAnswer(h, decode, prove, view, s, members, w', x', r');
      SelectMeetsRule(s.prices, w, x);
      SelectMeetsRule(s.prices, w', x');
      WinnerAnswerUnique(h, decode, prove, view, s, members, w, x, r, r');
    }
  }

  lemma WinnerAnswerUnique(h: Hasher, decode: Decoder, prove: CircuitInput -> Option<Proof>, view: AuctionView,
                            s: SlotData, members: seq<string>, w: int, x: int, r: Result<SettleBundle, Refusal>,
                            r': Result<SettleBundle, Refusal>)
    requires EightSlots(s) && 0 <= w < 8
    requires WinnerAnswer(h, decode, prove, view, s, members, w, x, r)
    requires WinnerAnswer(h, decode, prove, view, s, members, w, x, r')
    ensures r == r'
  {
    if s.bidders[w].Some? {
      var winner := s.bidders[w].value;
      if !AllDecode(decode, members) {
        FirstMalformedUnique(decode, members, r.error.member, r'.error.member);
      } else if r.Ok? || r == Err(ProvingFailed) {
        var input :| Carries(h, decode, view, s, members, w, x, winner, input)
          && match prove(input)
             case None => r == Err(ProvingFailed)
             case Some(proof) => r == Ok(SettleBundle(view.id, w, x, winner, proof));
        var input' :| Carries(h, decode, view, s, members, w, x, winner, input')
          && match prove(input')
             case None => r' == Err(ProvingFailed)
             case Some(proof) => r' == Ok(SettleBundle(view.id, w, x, winner, proof));
        CarriesUnique(h, decode, view, s, members, w, x, winner, input, input');
      }
    }
  }

  /** The pipeline answers what the cases allow: each refusal exactly in
      its case, a bundle exactly when nothing stands in the way. */
  lemma BundleIff(h: Hasher, decode: Decoder, prove: CircuitInput -> Option<Proof>, view: AuctionView,
                  s: SlotData, members: seq<string>, r: Result<SettleBundle, Refusal>)
    requires EightSlots(s)
    ensures Bundle(h, decode, prove, view, s, members) == r <==> Answer(h, decode, prove, view, s, members, r)
  {
    BundleIsAnswer(h, decode, prove, view, s, members);
    if Answer(h, decode, prove, view, s, members, r) {
      AnswerUnique(h, decode, prove, view, s, members, r, Bundle(h, decode, prove, view, s, members));
    }
  }

  /** The pipeline reaches the prover: opened slots with a second-price outcome, a
      winner anywhere in a list of members that all decode, and the root the
      auction was created with over them.  Then the bundle is that outcome, with
      the prover's proof. */
  lemma BundleReached(h: Hasher, decode: Decoder, prove: CircuitInput -> Option<Proof>, view: AuctionView,
                      s: SlotData, members: seq<string>, w: int, x: int)
    requires EightSlots(s) && AllOpen(h, view.id, s) && Settles(s.prices, w, x)
    requires s.bidders[w].Some? && s.bidders[w].value in members && AllDecode(decode, members)
    requires |members| <= Pow2(MERKLE_DEPTH) && view.whitelistRoot == RootOf(h, KeysOf(decode, members))
    requires forall input :: prove(input).Some?
    ensures
      var r := Bundle(h, decode, prove, view, s, members);
      && r.Ok? && r.value.auctionId == view.id && r.value.winnerIndex == w && r.value.winningPrice == x
      && r.value.winnerAddress == s.bidders[w].value
  {
    BundleIsAnswer(h, decode, prove, view, s, members);
    CapacityIs();
    var r := Bundle(h, decode, prove, view, s, members);
    SelectMeetsRule(s.prices, w, x);
    SelectionMeans(s.prices);
    var w', x' :| Settles(s.prices, w', x') && WinnerAnswer(h, decode, prove, view, s, members, w', x', r);
    SelectMeetsRule(s.prices, w', x');
  }

  // ------------------------------------------------------------------ layout

  /** The revealed bid cannot be laid out. */
  predicate OutOfRange(bid: RevealedBid) {
    bid.slotIndex < 0 || bid.slotIndex >= 8
  }

  predicate Unreadable(bid: RevealedBid) {
    bid.price == None || bid.salt == None || bid.commitment == None
  }

  predicate Fits(bid: RevealedBid) {
    !OutOfRange(bid) && !Unreadable(bid)
  }

  predicate FirstUnfit(bids: seq<RevealedBid>, n: nat, k: int)
    requires n <= |bids|
  {
    0 <= k < n && !Fits(bids[k]) && forall i :: 0 <= i < k ==> Fits(bids[i])
  }

  lemma {:induction false} LayoutMeans(bids: seq<RevealedBid>, n: nat)
    requires n <= |bids|
    ensures FillSlots(bids, n).Ok? <==> forall i :: 0 <= i < n ==> Fits(bids[i])
    ensures forall k :: FirstUnfit(bids, n, k) ==>
              FillSlots(bids, n) == Err(if OutOfRange(bids[k]) then SlotOutOfRange(bids[k].slotIndex) else NotNumeric)
  {
    if n == 0 {
    } else {
      LayoutMeans(bids, n - 1);
      forall k | FirstUnfit(bids, n, k) && k < n - 1 ensures FirstUnfit(bids, n - 1, k) {
      }
    }
  }

  /** Before all that: no bids at all, or the first bid that cannot be laid out,
      by its slot before its numbers. */
  lemma RevealedMeans(h: Hasher, decode: Decoder, prove: CircuitInput -> Option<Proof>, view: AuctionView,
                      revealedBids: seq<RevealedBid>, members: seq<string>)
    ensures
      var r := BundleFrom(h, decode, prove, view, revealedBids, members);
      && (revealedBids == [] ==> r == Err(NothingRevealed))
      && (forall k :: FirstUnfit(revealedBids, |revealedBids|, k) ==>
            r == Err(if OutOfRange(revealedBids[k]) then SlotOutOfRange(revealedBids[k].slotIndex) else NotNumeric))
      && (revealedBids != [] && (forall i :: 0 <= i < |revealedBids| ==> Fits(revealedBids[i])) ==>
            && FillSlots(revealedBids, |revealedBids|).Ok?
            && r == Bundle(h, decode, prove, view, FillSlots(revealedBids, |revealedBids|).value, members))
  {
    LayoutMeans(revealedBids, |revealedBids|);
  }
}

/** When the command-line builder reaches its input, and when it refuses with
    what, in terms of the decrypted bids and the whitelist file. */
module BuildOutcomes {
  import opened Options
  import opened Powers
  import opened Poseidon
  import opened Vickrey
  import opened Pipeline
  import opened BuildInput
  import MerkleTree
  import PipelineOutcomes

  /** The last bid of a slot among the first n, and the first of all. */
  predicate LastBid(bids: seq<DecryptedBid>, n: nat, slot: int, k: int)
    requires n <= |bids|
  {
    0 <= k < n && bids[k].slotIndex == slot && forall i :: k < i < n ==> bids[i].slotIndex != slot
  }

  predicate FirstBid(bids: seq<DecryptedBid>, slot: int, k: int) {
    0 <= k < |bids| && bids[k].slotIndex == slot && forall i :: 0 <= i < k ==> bids[i].slotIndex != slot
  }

  predicate NoBid(bids: seq<DecryptedBid>, n: nat, slot: int)
    requires n <= |bids|
  {
    forall i :: 0 <= i < n ==> bids[i].slotIndex != slot
  }

  /** The price table: eight zeros, lengthened by the array indices among the slot
      numbers; the last bid of each slot, and holes, read as -1, in between. */
  ghost predicate LastPriceTable(bids: seq<DecryptedBid>, n: nat, prices: seq<int>)
    requires n <= |bids|
  {
    && |prices| >= 8
    && (forall i :: 0 <= i < n && 0 <= bids[i].slotIndex < 0xFFFF_FFFF ==> bids[i].slotIndex < |prices|)
    && (forall k, slot :: 0 <= slot < |prices| && LastBid(bids, n, slot, k) ==> prices[slot] == bids[k].price)
    && (forall slot :: 0 <= slot < |prices| && NoBid(bids, n, slot) ==> prices[slot] == if slot < 8 then 0 else -1)
    && (|prices| > 8 ==> exists i :: 0 <= i < n && bids[i].slotIndex == |prices| - 1)
  }

  lemma {:induction false} LastPricesMean(bids: seq<DecryptedBid>, n: nat)
    requires n <= |bids|
    ensures LastPriceTable(bids, n, LastPrices(bids, n))
  {
    if n == 0 {
    } else {
      LastPricesMean(bids, n - 1);
      var before, prices := LastPrices(bids, n - 1), LastPrices(bids, n);
      forall k, slot | 0 <= slot < |prices| && LastBid(bids, n, slot, k) ensures prices[slot] == bids[k].price {
        if k < n - 1 {
          assert LastBid(bids, n - 1, slot, k);
        }
      }
      forall slot | 0 <= slot < |prices| && NoBid(bids, n, slot)
        ensures prices[slot] == if slot < 8 then 0 else -1
      {
        assert NoBid(bids, n - 1, slot) && bids[n - 1].slotIndex != slot;
      }
    }
  }

  lemma {:induction false} FirstAtMeans(bids: seq<DecryptedBid>, slot: int)
    ensures if NoBid(bids, |bids|, slot) then FirstAt(bids, slot) == None
            else exists k :: FirstBid(bids, slot, k) && FirstAt(bids, slot) == Some(bids[k])
  {
    if bids == [] {
    } else if bids[0].slotIndex == slot {
      assert FirstBid(bids, slot, 0);
    } else {
      FirstAtMeans(bids[1..], slot);
      if NoBid(bids, |bids|, slot) {
        assert forall i :: 0 <= i < |bids| - 1 ==> bids[1..][i] == bids[i + 1];
      } else {
        var i :| 0 <= i < |bids| && bids[i].slotIndex == slot;
        assert bids[1..][i - 1].slotIndex == slot;
        var k :| FirstBid(bids[1..], slot, k) && FirstAt(bids[1..], slot) == Some(bids[1..][k]);
        forall j | 0 <= j < k + 1 ensures bids[j].slotIndex != slot {
          assert j > 0 ==> bids[j] == bids[1..][j - 1];
        }
        assert FirstBid(bids, slot, k + 1);
      }
    }
  }

  /** The three tables, slot by slot: the first bid's fields, zeros without one. */
  ghost predicate FirstBidTables(bids: seq<DecryptedBid>, commitments: seq<int>, prices: seq<int>, salts: seq<int>) {
    && |commitments| == |prices| == |salts| == 8
    && (forall k, slot :: 0 <= slot < 8 && FirstBid(bids, slot, k) ==>
          commitments[slot] == bids[k].commitment && prices[slot] == bids[k].price && salts[slot] == bids[k].salt)
    && (forall slot :: 0 <= slot < 8 && NoBid(bids, |bids|, slot) ==>
          commitments[slot] == 0 && prices[slot] == 0 && salts[slot] == 0)
  }

  lemma ColumnsMean(bids: seq<DecryptedBid>)
    ensures FirstBidTables(bids, Column(bids, Commitment, 8), Column(bids, Price, 8), Column(bids, Salt, 8))
  {
    forall slot | 0 <= slot < 8
      ensures NoBid(bids, |bids|, slot) ==> FirstAt(bids, slot) == None
      ensures forall k :: FirstBid(bids, slot, k) ==> FirstAt(bids, slot) == Some(bids[k])
    {
      FirstAtMeans(bids, slot);
    }
  }

  /** The first member with an address. */
  predicate FirstPlace(members: seq<Member>, address: string, m: int) {
    0 <= m < |members| && members[m].address == address && forall i :: 0 <= i < m ==> members[i].address != address
  }

  lemma {:induction false} FirstMemberMeans(members: seq<Member>, address: string)
    ensures
      var m := FirstMember(members, address);
      if m < 0 then forall i :: 0 <= i < |members| ==> members[i].address != address
      else FirstPlace(members, address, m)
  {
    if members == [] || members[0].address == address {
    } else {
      FirstMemberMeans(members[1..], address);
      assert forall i :: 0 < i < |members| ==> members[i] == members[1..][i - 1];
    }
  }

  /** The input for winner w at price x: the first bids' tables, and the leaf and
      path of the first member with the address of the slot's first bid. */
  ghost predicate InputFor(h: Hasher, auctionId: int, bids: seq<DecryptedBid>, file: WhitelistFile, w: int, x: int,
                           bidder: string, input: CircuitInput)
  {
    && FirstBidTables(bids, input.pub.commitments, input.priv.bidPrices, input.priv.bidSalts)
    && input.pub.auctionId == auctionId && input.pub.winnerIndex == w && input.pub.winningPrice == x
    && input.pub.whitelistRoot == file.root
    && exists m :: FirstPlace(file.members, bidder, m) && input.pub.winnerAddrHash == file.members[m].leaf
                   && PathOf(h, file, m, input.priv.merklePathElements, input.priv.merklePathIndexBits)
  }

  ghost predicate PathOf(h: Hasher, file: WhitelistFile, m: int, elements: seq<int>, bits: seq<int>)
    requires 0 <= m < |file.members|
  {
    |file.members| <= Pow2(file.depth) &&
    var padded := MerkleTree.Pad(Leaves(file.members), Pow2(file.depth));
    MerkleTree.PowerHalves(file.depth, file.depth);
    && elements == MerkleTree.PathElements(h, padded, file.depth, m, file.depth)
    && bits == MerkleTree.PathBits(m, file.depth)
  }

  /** After the selection: no member with the winner's address, more members than
      leaves, another root, another depth, or the input. */
  ghost predicate FileAnswer(h: Hasher, auctionId: int, bids: seq<DecryptedBid>, file: WhitelistFile, w: int, x: int,
                              bidder: string, r: Result<CircuitInput, Refused>)
  {
    if forall i :: 0 <= i < |file.members| ==> file.members[i].address != bidder then r == Err(NotAMember)
    else if |file.members| > Pow2(file.depth) then r == Err(TooManyLeaves)
    else if MerkleTree.Root(h, MerkleTree.Pad(Leaves(file.members), Pow2(file.depth)), file.depth) != file.root then
      r == Err(WrongRoot)
    else if file.depth != 10 then r == Err(WrongDepth)
    else r.Ok? && InputFor(h, auctionId, bids, file, w, x, bidder, r.value)
  }

  lemma SelectedMeans(bids: seq<DecryptedBid>)
    ensures
      var prices := LastPrices(bids, |bids|);
      if PipelineOutcomes.NoPositive(prices) then Selected(bids) == Err(NoPositive)
      else if PipelineOutcomes.OnePositive(prices) then Selected(bids) == Err(NoClearingPrice)
      else Selected(bids).Ok? && Settles(prices, Selected(bids).value.winnerIndex, Selected(bids).value.clearingPrice)
  {
    PipelineOutcomes.SelectionMeans(LastPrices(bids, |bids|));
  }

  /** The builder's answer, case by case: not 1 to 8 bids, no positive price, only
      one, or what the file makes of the outcome over the last bids, whose winner
      is the bidder of the winning slot's first bid. */
  lemma BuiltMeans(h: Hasher, auctionId: int, bids: seq<DecryptedBid>, file: WhitelistFile)
    ensures LastPriceTable(bids, |bids|, LastPrices(bids, |bids|))
    ensures
      var r, prices := Built(h, auctionId, bids, file), LastPrices(bids, |bids|);
      if |bids| == 0 || |bids| > 8 then r == Err(BadBidCount)
      else if PipelineOutcomes.NoPositive(prices) then r == Err(NoPositive)
      else if PipelineOutcomes.OnePositive(prices) then r == Err(NoClearingPrice)
      else
        exists w, x, k :: Settles(prices, w, x) && FirstBid(bids, w, k)
                          && FileAnswer(h, auctionId, bids, file, w, x, bids[k].bidder, r)
  {
    LastPricesMean(bids, |bids|);
    SelectedMeans(bids);
    if 0 < |bids| <= 8 && Selected(bids).Ok? {
      var o := Selected(bids).value;
      SelectedHasBid(bids);
      FirstAtMeans(bids, o.winnerIndex);
      assert !NoBid(bids, |bids|, o.winnerIndex);
      var k :| FirstBid(bids, o.winnerIndex, k) && FirstAt(bids, o.winnerIndex) == Some(bids[k]);
      BuiltForWinner(h, auctionId, bids, file, k);
    }
  }

  lemma BuiltForWinner(h: Hasher, auctionId: int, bids: seq<DecryptedBid>, file: WhitelistFile, k: nat)
    requires 0 < |bids| <= 8 && Selected(bids).Ok? && k < |bids|
    requires FirstAt(bids, Selected(bids).value.winnerIndex) == Some(bids[k])
    ensures
      var o := Selected(bids).value;
      FileAnswer(h, auctionId, bids, file, o.winnerIndex, o.clearingPrice, bids[k].bidder,
                  Built(h, auctionId, bids, file))
  {
    FirstMemberMeans(file.members, bids[k].bidder);
    ColumnsMean(bids);
    SelectedHasBid(bids);
  }

  /** The builder reaches its input: one to eight bids whose last prices have a
      second-price outcome, a winner anywhere in a file of depth 10 with its own
      root. */
  lemma BuiltReached(h: Hasher, auctionId: int, bids: seq<DecryptedBid>, file: WhitelistFile, w: int, x: int, k: nat)
    requires 0 < |bids| <= 8 && Settles(LastPrices(bids, |bids|), w, x) && FirstBid(bids, w, k)
    requires exists i :: 0 <= i < |file.members| && file.members[i].address == bids[k].bidder
    requires file.depth == 10 && |file.members| <= Pow2(10)
    requires file.root == MerkleTree.Root(h, MerkleTree.Pad(Leaves(file.members), Pow2(10)), 10)
    ensures
      var r := Built(h, auctionId, bids, file);
      r.Ok? && r.value.pub.winnerIndex == w && r.value.pub.winningPrice == x
  {
    var prices := LastPrices(bids, |bids|);
    BuiltMeans(h, auctionId, bids, file);
    SelectMeetsRule(prices, w, x);
    PipelineOutcomes.SelectionMeans(prices);
    var w', x', k' :| Settles(prices, w', x') && FirstBid(bids, w', k')
      && FileAnswer(h, auctionId, bids, file, w', x', bids[k'].bidder, Built(h, auctionId, bids, file));
    SelectMeetsRule(prices, w', x');
    assert k == k';
  }
}

/** Concrete runs that reach the states some theorems are about: a lot left
    behind by a refund, a lot that a refund returns without a word, and deposits
    that are frozen for a while or for ever. */
module Scenarios {
  import opened Options
  import opened Bytes
  import opened Tokens
  import opened Poseidon
  import opened Contract
  import opened Escrow
  import Refusals
  import Stranding

  type Verifier = (Proof, seq<int>) -> VerifierReply

  function Account(k: Byte): Address {
    Address(false, seq(32, _ => k))
  }

  lemma AccountsDiffer(j: Byte, k: Byte)
    ensures Account(j) == Account(k) <==> j == k
  {
    assert Account(j).key[0] == j && Account(k).key[0] == k;
  }

  /** A token whose issuer can freeze it and can block recipients: it refuses
      every transfer while frozen and any to a blocked account; otherwise it moves
      exactly what the payer has. */
  function IssuedTransfer(blocked: set<Address>, ledgers: Ledgers, token: Address, from: Address, to: Address,
                          amount: int): TransferReply
  {
    var l := LedgerOf(ledgers, token);
    if l.hidden != 0 || to in blocked || amount < 0 || amount > Balance(l, from) then Failed
    else
      var paid := l.balances[from := Balance(l, from) - amount];
      Done(Ledger(paid[to := Balance(Ledger(paid, 0), to) + amount], l.hidden))
  }

  function HostOf(verify: Verifier, h: Hasher, blocked: set<Address>): Host {
    Host(TheContract(), (ledgers, token, from, to, amount) => IssuedTransfer(blocked, ledgers, token, from, to, amount),
         verify, h)
  }

  lemma IssuedConforms(verify: Verifier, h: Hasher, blocked: set<Address>, token: Address)
    ensures Conforming(HostOf(verify, h, blocked).transfer, token)
  {
    var transfer := HostOf(verify, h, blocked).transfer;
    forall ledgers, from, to, amount
      ensures
        var reply := transfer(ledgers, token, from, to, amount);
        && !reply.Garbled?
        && (reply.Done? ==>
              && 0 <= amount <= Balance(LedgerOf(ledgers, token), from)
              && MovesExactly(LedgerOf(ledgers, token), reply.ledger, from, to, amount))
    {
      assert transfer(ledgers, token, from, to, amount)
          == IssuedTransfer(blocked, ledgers, token, from, to, amount);
    }
  }

  function TheContract(): Address { Account(0) }
  function Seller(): Address { Account(1) }
  function Alice(): Address { Account(2) }
  function Bob(): Address { Account(3) }
  function LotToken(): Address { Account(4) }
  function Money(): Address { Account(5) }

  lemma Distinct()
    ensures TheContract() != Seller() && TheContract() != Alice() && TheContract() != Bob()
    ensures Seller() != Alice() && Seller() != Bob() && Alice() != Bob() && LotToken() != Money()
  {
    AccountsDiffer(0, 1);
    AccountsDiffer(0, 2);
    AccountsDiffer(0, 3);
    AccountsDiffer(1, 2);
    AccountsDiffer(1, 3);
    AccountsDiffer(2, 3);
    AccountsDiffer(4, 5);
  }

  /** Lot 1, cap 1, deadline 1, grace 1. */
  function TheAuction(root: U256, bids: seq<Bid>): Auction {
    Auction(Seller(), LotToken(), 1, Money(), 1, 1, 1, root, [], Open, bids, false)
  }

  function Start(): World {
    World(map[], 1,
          map[LotToken() := Ledger(map[Seller() := 1], 0), Money() := Ledger(map[Alice() := 1, Bob() := 1], 0)],
          0, [], [])
  }

  /** A run from the start without any settle call leads here. */
  ghost predicate Quiet(host: Host, w: World) {
    exists calls: seq<Call> :: Run(host, Start(), calls) == w && forall c :: c in calls ==> !c.CallSettle?
  }

  lemma QuietIsReachable(host: Host, w: World)
    requires Quiet(host, w)
    ensures Reachable(host, w)
  {
    assert Deployed(host, Start());
  }

  lemma StartIsQuiet(host: Host)
    ensures Quiet(host, Start())
  {
    assert Run(host, Start(), []) == Start();
  }

  lemma Extends(host: Host, w: World, call: Call)
    requires Quiet(host, w) && !call.CallSettle?
    ensures Quiet(host, Step(host, w, call))
  {
    var calls: seq<Call> :| Run(host, Start(), calls) == w && forall c :: c in calls ==> !c.CallSettle?;
    var longer := calls + [call];
    assert longer[..|longer| - 1] == calls;
    assert Run(host, Start(), longer) == Step(host, w, call);
  }

  /** The auction is open, its lot is in escrow, both tokens work. */
  lemma Opening(verify: Verifier, h: Hasher, blocked: set<Address>, root: U256) returns (w: World)
    requires TheContract() !in blocked
    ensures Quiet(HostOf(verify, h, blocked), w)
    ensures w.now == 0 && w.nextAuctionId == 2 && w.auctions == map[1 := TheAuction(root, [])]
    ensures LedgerOf(w.ledgers, Money()) == Ledger(map[Alice() := 1, Bob() := 1], 0)
    ensures LedgerOf(w.ledgers, LotToken()).hidden == 0 && Balance(LedgerOf(w.ledgers, LotToken()), TheContract()) == 1
  {
    Distinct();
    var host := HostOf(verify, h, blocked);
    var call := CallCreate({Seller()}, Seller(), LotToken(), 1, Money(), 1, 1, 1, root, []);
    StartIsQuiet(host);
    Extends(host, Start(), call);
    w := Step(host, Start(), call);
  }

  /** Time passes, and the issuer of a token may freeze or release it. */
  lemma Passing(host: Host, w: World, now: U64, token: Address, frozen: int) returns (w': World)
    requires Quiet(host, w) && now >= w.now
    ensures Quiet(host, w')
    ensures
      var ledger := LedgerOf(w.ledgers, token).(hidden := frozen);
      w' == w.(now := now, ledgers := w.ledgers[token := ledger])
  {
    var ledger := LedgerOf(w.ledgers, token).(hidden := frozen);
    var call := Elsewhere(now, w.ledgers[token := ledger]);
    assert ElsewhereAllowed(host, w, now, call.ledgers);
    Extends(host, w, call);
    w' := Step(host, w, call);
  }

  lemma RefundWithoutBids(verify: Verifier, h: Hasher, w: World, root: U256)
    requires w.now >= 2
    requires w.auctions == map[1 := TheAuction(root, [])]
    requires Balance(LedgerOf(w.ledgers, LotToken()), TheContract()) == 1
    ensures
      var host := HostOf(verify, h, {});
      var w' := Step(host, w, CallRefund(1));
      && 1 in w'.auctions && w'.auctions[1].status == Refunded
      && w'.auctions[1].rwaToken == LotToken() && w'.auctions[1].seller == Seller() && w'.auctions[1].lotAmount == 1
      && (w'.auctions[1].lotReclaimed <==> LedgerOf(w.ledgers, LotToken()).hidden == 0)
      && (LedgerOf(w.ledgers, LotToken()).hidden != 0 ==> w'.ledgers == w.ledgers)
      && RefundAll(host, w, 1).0 == Returned(())
  {
    var host, a := HostOf(verify, h, {}), TheAuction(root, []);
    var marked := w.(auctions := w.auctions[1 := a.(status := Refunded)]);
    assert PayAll(host, marked, Refunds(host, 1, a, 0)) == Some(marked);
  }

  /** A lot does get left behind, in the conforming token of a reachable state:
      it was frozen when the refund came.  It cannot be reclaimed while the token
      is frozen, and it can as soon as the token is released. */
  lemma LotLeftBehind(verify: Verifier, h: Hasher) returns (w: World, released: World)
    ensures
      var host := HostOf(verify, h, {});
      && Reachable(host, w) && 1 in w.auctions
      && w.auctions[1].status == Refunded && !w.auctions[1].lotReclaimed
      && Conforming(host.transfer, w.auctions[1].rwaToken)
      && !ReclaimLot(host, w, 1).0.Returned?
      && Reachable(host, released) && released.auctions == w.auctions
      && ReclaimLot(host, released, 1).0.Returned?
  {
    var host := HostOf(verify, h, {});
    var opening := Opening(verify, h, {}, 0);
    var frozen := Passing(host, opening, 2, LotToken(), 1);
    RefundWithoutBids(verify, h, frozen, 0);
    Extends(host, frozen, CallRefund(1));
    w := Step(host, frozen, CallRefund(1));
    released := Passing(host, w, w.now, LotToken(), 0);
    QuietIsReachable(host, w);
    QuietIsReachable(host, released);
    IssuedConforms(verify, h, {}, LotToken());
    assert Balance(LedgerOf(released.ledgers, LotToken()), TheContract()) == 1;
  }

  /** A refund that returns the lot is reachable too. */
  lemma LotReturned(verify: Verifier, h: Hasher) returns (w: World)
    ensures
      var host := HostOf(verify, h, {});
      && Reachable(host, w) && 1 in w.auctions && w.auctions[1].status == Open
      && RefundAll(host, w, 1).0.Returned?
      && 1 in RefundAll(host, w, 1).1.auctions && RefundAll(host, w, 1).1.auctions[1].lotReclaimed
  {
    var host := HostOf(verify, h, {});
    var opening := Opening(verify, h, {}, 0);
    w := Passing(host, opening, 2, LotToken(), 0);
    RefundWithoutBids(verify, h, w, 0);
    QuietIsReachable(host, w);
  }

  /** A bid with any commitment is accepted from whoever has the deposit. */
  lemma Bidding(verify: Verifier, h: Hasher, blocked: set<Address>, w: World, a: Auction, bidder: Address,
                commitment: U256) returns (w': World)
    requires Quiet(HostOf(verify, h, blocked), w) && w.auctions == map[1 := a] && w.now == 0
    requires a.(bids := []) == TheAuction(a.whitelistRoot, []) && |a.bids| < MAX_BID_SLOTS
    requires bidder != TheContract() && TheContract() !in blocked
    requires commitment != 0 && !HasCommitment(a.bids, commitment)
    requires LedgerOf(w.ledgers, Money()).hidden == 0 && Balance(LedgerOf(w.ledgers, Money()), bidder) == 1
    ensures
      var host := HostOf(verify, h, blocked);
      && PlaceBid(host, w, {bidder}, 1, bidder, commitment, []).0 == Returned(())
      && Quiet(host, w') && w'.now == 0
      && w'.auctions == map[1 := a.(bids := a.bids + [Bid(bidder, commitment)])]
      && LedgerOf(w'.ledgers, Money()).hidden == 0
      && LedgerOf(w'.ledgers, LotToken()) == LedgerOf(w.ledgers, LotToken())
      && forall other :: other != bidder && other != TheContract() ==>
           Balance(LedgerOf(w'.ledgers, Money()), other) == Balance(LedgerOf(w.ledgers, Money()), other)
  {
    Distinct();
    var host := HostOf(verify, h, blocked);
    var call := CallBid({bidder}, 1, bidder, commitment, []);
    Extends(host, w, call);
    w' := Step(host, w, call);
  }

  /** Alice and Bob bid on a fresh auction. */
  lemma TwoBids(verify: Verifier, h: Hasher, blocked: set<Address>, root: U256, c: U256, c': U256)
    returns (w: World)
    requires TheContract() !in blocked && c != 0 && c' != 0 && c != c'
    ensures Quiet(HostOf(verify, h, blocked), w) && w.now == 0
    ensures w.auctions == map[1 := TheAuction(root, [Bid(Alice(), c), Bid(Bob(), c')])]
    ensures LedgerOf(w.ledgers, Money()).hidden == 0 && LedgerOf(w.ledgers, LotToken()).hidden == 0
  {
    Distinct();
    var opening := Opening(verify, h, blocked, root);
    var money := LedgerOf(opening.ledgers, Money());
    assert Balance(money, Alice()) == 1 && Balance(money, Bob()) == 1;
    var first := Bidding(verify, h, blocked, opening, TheAuction(root, []), Alice(), c);
    var one := [Bid(Alice(), c)];
    assert [] + one == one && !HasCommitment(one, c');
    w := Bidding(verify, h, blocked, first, TheAuction(root, one), Bob(), c');
    assert one + [Bid(Bob(), c')] == [Bid(Alice(), c), Bid(Bob(), c')];
  }

  /** Both tokens are gates: a freeze shuts out everyone, a block one account. */
  function IssuedGate(blocked: set<Address>): Gate {
    (token: Address, l: Ledger, to: Address) => l.hidden == 0 && to !in blocked
  }

  lemma IssuedIsGated(verify: Verifier, h: Hasher, blocked: set<Address>, token: Address)
    ensures GatedBy(HostOf(verify, h, blocked).transfer, token, TheContract(), IssuedGate(blocked))
  {
  }

  /** Deposits frozen and released: while the payment token is frozen the refund
      traps, and as soon as it is released the refund returns. */
  lemma DepositsFrozen(verify: Verifier, h: Hasher) returns (w: World, released: World)
    ensures
      var host := HostOf(verify, h, {});
      && Reachable(host, w) && 1 in w.auctions && |w.auctions[1].bids| == 2
      && Conforming(host.transfer, w.auctions[1].paymentToken)
      && !RefundAll(host, w, 1).0.Returned?
      && Reachable(host, released) && released.auctions == w.auctions && released.now == w.now
      && RefundAll(host, released, 1).0.Returned?
  {
    var host := HostOf(verify, h, {});
    var bids := TwoBids(verify, h, {}, 0, 1, 2);
    w := Passing(host, bids, 2, Money(), 1);
    released := Passing(host, w, w.now, Money(), 0);
    QuietIsReachable(host, w);
    QuietIsReachable(host, released);
    IssuedConforms(verify, h, {}, Money());
    IssuedIsGated(verify, h, {}, Money());
    Refusals.RefundReturnsIfAdmitted(host, w, 1, IssuedGate({}));
    Refusals.RefundReturnsIfAdmitted(host, released, 1, IssuedGate({}));
    var i := 0;
    assert !IssuedGate({})(Money(), LedgerOf(w.ledgers, Money()), w.auctions[1].bids[i].bidder);
  }

  /** One bidder whom conforming tokens will not pay keeps the auction open, and
      everybody's deposits in escrow, for ever. */
  lemma DepositsStranded(verify: Verifier, h: Hasher) returns (w: World)
    ensures
      var host := HostOf(verify, h, {Bob()});
      && Reachable(host, w) && 1 in w.auctions && |w.auctions[1].bids| == 2
      && Conforming(host.transfer, w.auctions[1].paymentToken) && Conforming(host.transfer, w.auctions[1].rwaToken)
      && forall calls ::
           var w' := Run(host, w, calls);
           && 1 in w'.auctions && w'.auctions[1].status == Open
           && Of(w'.journal, 1) == Deposits(host, 1, w'.auctions[1], |w'.auctions[1].bids|)
  {
    Distinct();
    var host := HostOf(verify, h, {Bob()});
    w := TwoBids(verify, h, {Bob()}, 0, 1, 2);
    QuietIsReachable(host, w);
    IssuedConforms(verify, h, {Bob()}, Money());
    IssuedConforms(verify, h, {Bob()}, LotToken());
    var a := w.auctions[1];
    assert Refuses(host.transfer, a.paymentToken, host.self, a.bids[1].bidder);
    assert Refuses(host.transfer, a.rwaToken, host.self, a.bids[1].bidder);
    ReachableAccounted(host, w);
    forall calls
      ensures
        var w' := Run(host, w, calls);
        && 1 in w'.auctions && w'.auctions[1].status == Open
        && Of(w'.journal, 1) == Deposits(host, 1, w'.auctions[1], |w'.auctions[1].bids|)
    {
      Stranding.RefusalStrandsAll(host, w, calls, 1, 1);
    }
  }
}

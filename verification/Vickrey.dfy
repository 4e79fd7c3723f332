/** The second-price rule, and the two-pass selection that the prover scripts
    and the browser operator both use. */
module Vickrey {

  /** Slot w holds the highest price and no earlier slot holds it too. */
  ghost predicate Wins(prices: seq<int>, w: int) {
    && 0 <= w < |prices|
    && (forall i :: 0 <= i < |prices| ==> prices[i] <= prices[w])
    && (forall i :: 0 <= i < w ==> prices[i] < prices[w])
  }

  /** s is the highest price among the slots other than w. */
  ghost predicate SecondPrice(prices: seq<int>, w: int, s: int) {
    && (exists j :: 0 <= j < |prices| && j != w && prices[j] == s)
    && (forall j :: 0 <= j < |prices| && j != w ==> prices[j] <= s)
  }

  /** The outcome an auction may settle at. */
  ghost predicate Settles(prices: seq<int>, w: int, s: int) {
    Wins(prices, w) && SecondPrice(prices, w, s) && s > 0
  }

  /** The clearing price is one of the prices. */
  lemma SettlesBelow(prices: seq<int>, w: int, s: int, bound: int)
    requires Settles(prices, w, s) && forall i :: 0 <= i < |prices| ==> prices[i] < bound
    ensures 0 < s < bound
  {
    var j :| 0 <= j < |prices| && j != w && prices[j] == s;
    assert prices[j] < bound;
  }

  /** At most one price is above the cap. */
  predicate OneAbove(prices: seq<int>, cap: int) {
    forall i, j :: 0 <= i < j < |prices| ==> prices[i] <= cap || prices[j] <= cap
  }

  /** The clearing price respects a cap exactly when at most one price exceeds it. */
  lemma ClearsWithin(prices: seq<int>, w: int, s: int, cap: int)
    requires Settles(prices, w, s)
    ensures s <= cap <==> OneAbove(prices, cap)
  {
    var j :| 0 <= j < |prices| && j != w && prices[j] == s;
    assert prices[w] >= prices[j];
    if OneAbove(prices, cap) {
      var low, high := if j < w then j else w, if j < w then w else j;
      assert prices[low] <= cap || prices[high] <= cap;
    } else {
      var i, k :| 0 <= i < k < |prices| && prices[i] > cap && prices[k] > cap;
      assert prices[if i == w then k else i] <= s;
    }
  }

  datatype Outcome = Outcome(winnerIndex: int, winnerPrice: int, clearingPrice: int)

  /** First pass: the earliest slot below n that beats everything before it. */
  function Leader(prices: seq<int>, n: nat): (leader: (int, int))
    requires n <= |prices|
    ensures -1 <= leader.0 < n
  {
    if n == 0 then (-1, -1)
    else
      var (w, best) := Leader(prices, n - 1);
      if prices[n - 1] > best then (n - 1, prices[n - 1]) else (w, best)
  }

  /** Second pass: the best price below n outside slot w, at least 0. */
  function BestOther(prices: seq<int>, w: int, n: nat): int
    requires n <= |prices|
  {
    if n == 0 then 0
    else
      var best := BestOther(prices, w, n - 1);
      if n - 1 != w && prices[n - 1] > best then prices[n - 1] else best
  }

  function Select(prices: seq<int>): (o: Outcome)
    ensures -1 <= o.winnerIndex < |prices|
  {
    var (w, best) := Leader(prices, |prices|);
    Outcome(w, best, BestOther(prices, w, |prices|))
  }

  lemma {:induction false} LeaderWins(prices: seq<int>, n: nat)
    requires n <= |prices|
    ensures
      var (w, best) := Leader(prices, n);
      && -1 <= w < n
      && best >= -1
      && (forall i :: 0 <= i < n ==> prices[i] <= best)
      && (w >= 0 ==> best == prices[w] >= 0 && forall i :: 0 <= i < w ==> prices[i] < best)
      && (w < 0 ==> best == -1)
  {
    if n == 0 {
    } else {
      LeaderWins(prices, n - 1);
    }
  }

  lemma {:induction false} BestOtherIsMaximum(prices: seq<int>, w: int, n: nat)
    requires n <= |prices|
    ensures
      var best := BestOther(prices, w, n);
      && best >= 0
      && (forall j :: 0 <= j < n && j != w ==> prices[j] <= best)
      && (best > 0 ==> exists j :: 0 <= j < n && j != w && prices[j] == best)
  {
    if n == 0 {
    } else {
      BestOtherIsMaximum(prices, w, n - 1);
    }
  }

  /** The second pass, seen as a running maximum over the other prices. */
  lemma BestOtherStep(prices: seq<int>, w: int, i: nat, other: int)
    requires i < |prices| && prices[i] >= 0 && other == if i == w then 0 else prices[i]
    ensures BestOther(prices, w, i + 1) ==
              if BestOther(prices, w, i) >= other then BestOther(prices, w, i) else other
  {
    BestOtherIsMaximum(prices, w, i);
  }

  /** The selection finds the one outcome the rule allows, and reports a
      clearing price of 0 exactly when the rule allows none. */
  lemma SelectMeetsRule(prices: seq<int>, w: int, s: int)
    ensures
      var o := Select(prices);
      Settles(prices, w, s) <==> w == o.winnerIndex && s == o.clearingPrice && s > 0
    ensures Select(prices).clearingPrice >= 0
    ensures
      var o := Select(prices);
      o.clearingPrice > 0 ==> 0 <= o.winnerIndex < |prices| && o.winnerPrice == prices[o.winnerIndex] > 0
  {
    var o := Select(prices);
    LeaderWins(prices, |prices|);
    BestOtherIsMaximum(prices, o.winnerIndex, |prices|);
    if o.clearingPrice > 0 {
      assert Settles(prices, o.winnerIndex, o.clearingPrice);
    }
    if Settles(prices, w, s) {
      var j :| 0 <= j < |prices| && j != w && prices[j] == s;
      assert prices[w] >= s > 0;
      assert prices[o.winnerIndex] >= prices[w];
      assert w == o.winnerIndex;
      assert o.clearingPrice >= s;
    }
  }

  /** selectVickreyOutcome: two loops over the slots. */
  method SelectVickreyOutcome(prices: seq<int>) returns (o: Outcome)
    ensures o == Select(prices)
    ensures forall w, s :: Settles(prices, w, s) <==>
              w == o.winnerIndex && s == o.clearingPrice && s > 0
  {
    var winnerIndex, winnerPrice := -1, -1;
    for slot := 0 to |prices|
      invariant (winnerIndex, winnerPrice) == Leader(prices, slot)
    {
      if prices[slot] > winnerPrice {
        winnerPrice := prices[slot];
        winnerIndex := slot;
      }
    }
    var clearingPrice := 0;
    for slot := 0 to |prices|
      invariant clearingPrice == BestOther(prices, winnerIndex, slot)
    {
      if slot != winnerIndex && prices[slot] > clearingPrice {
        clearingPrice := prices[slot];
      }
    }
    o := Outcome(winnerIndex, winnerPrice, clearingPrice);
    forall w, s ensures Settles(prices, w, s) <==>
        w == o.winnerIndex && s == o.clearingPrice && s > 0 {
      SelectMeetsRule(prices, w, s);
    }
  }
}

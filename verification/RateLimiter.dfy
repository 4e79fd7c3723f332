/** The token bucket per client address that the indexer and the faucet share
    up to their constants, over the reals. */
module RateLimiter {

  datatype Limits = Limits(capacity: real, refillPerSecond: real)

  const INDEXER_LIMITS := Limits(60.0, 30.0)
  const FAUCET_LIMITS := Limits(10.0, 0.2)

  predicate Sensible(l: Limits) {
    l.capacity >= 1.0 && l.refillPerSecond >= 0.0
  }

  datatype Bucket = Bucket(tokens: real, lastRefillMs: int)

  /** Tokens that flow in over a time span. */
  function Gain(l: Limits, ms: int): real {
    ms as real / 1000.0 * l.refillPerSecond
  }

  function Min(a: real, b: real): real {
    if a <= b then a else b
  }

  /** One request on a bucket: refill, then take a token if there is one. */
  function Take(l: Limits, bucket: Bucket, nowMs: int): (bool, Bucket) {
    var tokens := Min(l.capacity, bucket.tokens + Gain(l, nowMs - bucket.lastRefillMs));
    if tokens < 1.0 then (false, Bucket(tokens, nowMs)) else (true, Bucket(tokens - 1.0, nowMs))
  }

  function BucketOf(l: Limits, buckets: map<string, Bucket>, ip: string, nowMs: int): Bucket {
    if ip in buckets then buckets[ip] else Bucket(l.capacity, nowMs)
  }

  class Limiter {
    const limits: Limits
    var buckets: map<string, Bucket>

    constructor (limits: Limits)
      ensures this.limits == limits && buckets == map[]
    {
      this.limits := limits;
      this.buckets := map[];
    }

    /** takeToken. */
    method TakeToken(clientIp: string, nowMs: int) returns (granted: bool)
      modifies this
      ensures
        var (expected, after) := Take(limits, BucketOf(limits, old(buckets), clientIp, nowMs), nowMs);
        granted == expected && buckets == old(buckets)[clientIp := after]
    {
      var bucket := if clientIp in buckets then buckets[clientIp] else Bucket(limits.capacity, nowMs);
      var elapsedSeconds := (nowMs - bucket.lastRefillMs) as real / 1000.0;
      assert elapsedSeconds * limits.refillPerSecond == Gain(limits, nowMs - bucket.lastRefillMs);
      var refilled := Min(limits.capacity, bucket.tokens + elapsedSeconds * limits.refillPerSecond);
      bucket := Bucket(refilled, nowMs);
      if bucket.tokens < 1.0 {
        buckets := buckets[clientIp := bucket];
        return false;
      }
      bucket := bucket.(tokens := bucket.tokens - 1.0);
      buckets := buckets[clientIp := bucket];
      return true;
    }
  }

  // --------------------------------------------------------------- whole runs

  datatype Request = Request(ip: string, nowMs: int)

  /** All buckets after a sequence of requests. */
  function After(l: Limits, requests: seq<Request>): map<string, Bucket> {
    if requests == [] then map[]
    else
      var before, r := After(l, requests[..|requests| - 1]), requests[|requests| - 1];
      before[r.ip := Take(l, BucketOf(l, before, r.ip, r.nowMs), r.nowMs).1]
  }

  predicate Granted(l: Limits, requests: seq<Request>, i: nat)
    requires i < |requests|
  {
    var r := requests[i];
    Take(l, BucketOf(l, After(l, requests[..i]), r.ip, r.nowMs), r.nowMs).0
  }

  predicate ClockRuns(requests: seq<Request>) {
    forall i, j :: 0 <= i <= j < |requests| ==> requests[i].nowMs <= requests[j].nowMs
  }

  /** Requests of one address granted among those at i .. j - 1. */
  function GrantedCount(l: Limits, requests: seq<Request>, ip: string, i: nat, j: nat): nat
    requires i <= j <= |requests|
    decreases j - i
  {
    if i == j then 0
    else
      GrantedCount(l, requests, ip, i, j - 1)
        + (if requests[j - 1].ip == ip && Granted(l, requests, j - 1) then 1 else 0)
  }

  lemma GainAdds(l: Limits, a: int, b: int)
    ensures Gain(l, a) + Gain(l, b) == Gain(l, a + b)
  {
    assert (a + b) as real == a as real + b as real;
  }

  lemma GainGrows(l: Limits, ms: int)
    requires Sensible(l) && ms >= 0
    ensures Gain(l, ms) >= 0.0
  {
    assert ms as real / 1000.0 >= 0.0;
  }

  lemma AfterStep(l: Limits, requests: seq<Request>, k: nat)
    requires k < |requests|
    ensures
      var before, r := After(l, requests[..k]), requests[k];
      After(l, requests[..k + 1]) == before[r.ip := Take(l, BucketOf(l, before, r.ip, r.nowMs), r.nowMs).1]
  {
    assert requests[..k + 1][..k] == requests[..k];
  }

  lemma TakeInRange(l: Limits, b: Bucket, nowMs: int)
    requires Sensible(l) && 0.0 <= b.tokens <= l.capacity && b.lastRefillMs <= nowMs
    ensures 0.0 <= Take(l, b, nowMs).1.tokens <= l.capacity
  {
    GainGrows(l, nowMs - b.lastRefillMs);
  }

  /** A bucket was last refilled at some request's time, and holds between 0 and
      the capacity. */
  lemma {:induction false} BucketsInRange(l: Limits, requests: seq<Request>, k: nat, ip: string)
    requires Sensible(l) && ClockRuns(requests) && k <= |requests| && ip in After(l, requests[..k])
    ensures
      var b := After(l, requests[..k])[ip];
      && 0.0 <= b.tokens <= l.capacity && k > 0 && b.lastRefillMs <= requests[k - 1].nowMs
  {
    AfterStep(l, requests, k - 1);
    var before, r := After(l, requests[..k - 1]), requests[k - 1];
    if ip in before {
      BucketsInRange(l, requests, k - 1, ip);
      assert requests[k - 2].nowMs <= requests[k - 1].nowMs;
    }
    if r.ip == ip {
      TakeInRange(l, BucketOf(l, before, ip, r.nowMs), r.nowMs);
    }
  }

  /** A request turns tokens into grants and never makes any. */
  lemma TakeConserves(l: Limits, b: Bucket, nowMs: int)
    ensures
      var (granted, after) := Take(l, b, nowMs);
      var taken := if granted then 1.0 else 0.0;
      && after.lastRefillMs == nowMs
      && taken + after.tokens <= l.capacity
      && taken + after.tokens <= b.tokens + Gain(l, nowMs - b.lastRefillMs)
  {
  }

  /** A request never raises grants plus tokens above a full bucket plus what
      flowed in since the start of the window. */
  lemma PotentialStep(l: Limits, held: Bucket, nowMs: int, start: int, count: nat)
    requires Sensible(l) && start <= nowMs
    requires count == 0 || count as real + held.tokens <= l.capacity + Gain(l, held.lastRefillMs - start)
    ensures
      var (granted, after) := Take(l, held, nowMs);
      (count + if granted then 1 else 0) as real + after.tokens <= l.capacity + Gain(l, nowMs - start)
  {
    TakeConserves(l, held, nowMs);
    GainGrows(l, nowMs - start);
    GainAdds(l, held.lastRefillMs - start, nowMs - held.lastRefillMs);
  }

  /** What an address has been granted in a window, plus what its bucket still
      holds, is at most a full bucket plus what flowed in. */
  ghost predicate Potential(l: Limits, requests: seq<Request>, ip: string, i: nat, j: nat)
    requires i <= j <= |requests|
  {
    var count, buckets := GrantedCount(l, requests, ip, i, j), After(l, requests[..j]);
    || (count == 0 && forall k :: i <= k < j ==> requests[k].ip != ip)
    || (&& i < j && ip in buckets
        && requests[i].nowMs <= buckets[ip].lastRefillMs <= requests[j - 1].nowMs
        && count as real + buckets[ip].tokens
             <= l.capacity + Gain(l, buckets[ip].lastRefillMs - requests[i].nowMs))
  }

  lemma OtherAddress(l: Limits, requests: seq<Request>, ip: string, i: nat, j: nat)
    requires ClockRuns(requests) && i <= j < |requests| && requests[j].ip != ip
    requires Potential(l, requests, ip, i, j)
    ensures Potential(l, requests, ip, i, j + 1)
  {
    AfterStep(l, requests, j);
    assert j > 0 ==> requests[j - 1].nowMs <= requests[j].nowMs;
  }

  lemma SameAddress(l: Limits, requests: seq<Request>, ip: string, i: nat, j: nat)
    requires Sensible(l) && ClockRuns(requests) && i <= j < |requests| && requests[j].ip == ip
    requires Potential(l, requests, ip, i, j)
    ensures Potential(l, requests, ip, i, j + 1)
  {
    AfterStep(l, requests, j);
    var before, r := After(l, requests[..j]), requests[j];
    PotentialStep(l, BucketOf(l, before, ip, r.nowMs), r.nowMs, requests[i].nowMs,
                  GrantedCount(l, requests, ip, i, j));
  }

  lemma {:induction false} WindowPotential(l: Limits, requests: seq<Request>, ip: string, i: nat, j: nat)
    requires Sensible(l) && ClockRuns(requests) && i <= j <= |requests|
    ensures Potential(l, requests, ip, i, j)
    decreases j - i
  {
    if i == j {
    } else {
      WindowPotential(l, requests, ip, i, j - 1);
      if requests[j - 1].ip == ip {
        SameAddress(l, requests, ip, i, j - 1);
      } else {
        OtherAddress(l, requests, ip, i, j - 1);
      }
    }
  }

  /** Rate bound: in every window of every run with a clock that does not run
      back, an address is granted at most the capacity plus the rate times the
      length of the window. */
  lemma RateBound(l: Limits, requests: seq<Request>, ip: string, i: nat, j: nat)
    requires Sensible(l) && ClockRuns(requests) && i < j <= |requests|
    ensures GrantedCount(l, requests, ip, i, j) as real
         <= l.capacity + Gain(l, requests[j - 1].nowMs - requests[i].nowMs)
  {
    WindowPotential(l, requests, ip, i, j);
    GainGrows(l, requests[j - 1].nowMs - requests[i].nowMs);
    if GrantedCount(l, requests, ip, i, j) > 0 {
      var b := After(l, requests[..j])[ip];
      BucketsInRange(l, requests, j, ip);
      GainAdds(l, b.lastRefillMs - requests[i].nowMs, requests[j - 1].nowMs - b.lastRefillMs);
      GainGrows(l, requests[j - 1].nowMs - b.lastRefillMs);
    }
  }

  /** The bound with the deployed constants, in seconds. */
  lemma DeployedBounds(requests: seq<Request>, ip: string, i: nat, j: nat)
    requires ClockRuns(requests) && i < j <= |requests|
    ensures
      var seconds := (requests[j - 1].nowMs - requests[i].nowMs) as real / 1000.0;
      && GrantedCount(INDEXER_LIMITS, requests, ip, i, j) as real <= 60.0 + 30.0 * seconds
      && GrantedCount(FAUCET_LIMITS, requests, ip, i, j) as real <= 10.0 + 0.2 * seconds
  {
    RateBound(INDEXER_LIMITS, requests, ip, i, j);
    RateBound(FAUCET_LIMITS, requests, ip, i, j);
  }

  /** A client that leaves at least one token's refill time between its requests
      is never turned away. */
  lemma SteadyClientServed(l: Limits, requests: seq<Request>, k: nat)
    requires Sensible(l) && ClockRuns(requests) && k < |requests|
    requires
      var before, r := After(l, requests[..k]), requests[k];
      r.ip in before ==> Gain(l, r.nowMs - before[r.ip].lastRefillMs) >= 1.0
    ensures Granted(l, requests, k)
  {
    var before, r := After(l, requests[..k]), requests[k];
    if r.ip in before {
      BucketsInRange(l, requests, k, r.ip);
    }
  }

  // ------------------------------------------------------------------- bursts

  /** Requests i .. j - 1 come from one new address at one moment. */
  predicate Burst(l: Limits, requests: seq<Request>, ip: string, nowMs: int, i: nat, j: nat) {
    && i <= j <= |requests| && ip !in After(l, requests[..i])
    && forall k :: i <= k < j ==> requests[k] == Request(ip, nowMs)
  }

  /** Nothing flows in at one moment. */
  lemma TakeAtOnce(l: Limits, b: Bucket)
    requires b.tokens <= l.capacity
    ensures Take(l, b, b.lastRefillMs)
         == if b.tokens < 1.0 then (false, b) else (true, Bucket(b.tokens - 1.0, b.lastRefillMs))
  {
    assert Gain(l, 0) == 0.0;
  }

  lemma BurstStep(l: Limits, requests: seq<Request>, k: nat, tokens: real)
    requires k < |requests| && 1.0 <= tokens <= l.capacity
    requires
      var r := requests[k];
      BucketOf(l, After(l, requests[..k]), r.ip, r.nowMs) == Bucket(tokens, r.nowMs)
    ensures
      var r := requests[k];
      BucketOf(l, After(l, requests[..k + 1]), r.ip, r.nowMs) == Bucket(tokens - 1.0, r.nowMs)
  {
    AfterStep(l, requests, k);
    TakeAtOnce(l, Bucket(tokens, requests[k].nowMs));
  }

  lemma {:induction false} BurstBucket(l: Limits, requests: seq<Request>, ip: string, nowMs: int, i: nat, j: nat)
    requires Burst(l, requests, ip, nowMs, i, j) && (j - i) as real <= l.capacity
    ensures BucketOf(l, After(l, requests[..j]), ip, nowMs) == Bucket(l.capacity - (j - i) as real, nowMs)
    decreases j - i
  {
    if i == j {
    } else {
      var spent := j - 1 - i;
      assert (j - i) as real == spent as real + 1.0;
      BurstBucket(l, requests, ip, nowMs, i, j - 1);
      BurstStep(l, requests, j - 1, l.capacity - spent as real);
    }
  }

  /** A new address may spend its whole bucket at once and no more: of its requests
      at one moment the n-th is granted if and only if n is at most the capacity. */
  lemma BurstServed(l: Limits, requests: seq<Request>, ip: string, nowMs: int, i: nat, k: nat)
    requires k < |requests| && Burst(l, requests, ip, nowMs, i, k + 1) && i <= k && (k - i) as real <= l.capacity
    ensures Granted(l, requests, k) <==> (k - i + 1) as real <= l.capacity
  {
    BurstBucket(l, requests, ip, nowMs, i, k);
    TakeAtOnce(l, Bucket(l.capacity - (k - i) as real, nowMs));
    assert requests[k] == Request(ip, nowMs);
  }

  /** Sixty requests on the indexer, ten on the faucet. */
  lemma DeployedBursts(requests: seq<Request>, ip: string, nowMs: int, i: nat, k: nat)
    requires i <= k < |requests| && ip !in After(INDEXER_LIMITS, requests[..i])
    requires ip !in After(FAUCET_LIMITS, requests[..i])
    requires forall m :: i <= m <= k ==> requests[m] == Request(ip, nowMs)
    ensures k <= i + 60 ==> (Granted(INDEXER_LIMITS, requests, k) <==> k < i + 60)
    ensures k <= i + 10 ==> (Granted(FAUCET_LIMITS, requests, k) <==> k < i + 10)
  {
    if k <= i + 60 {
      BurstServed(INDEXER_LIMITS, requests, ip, nowMs, i, k);
    }
    if k <= i + 10 {
      BurstServed(FAUCET_LIMITS, requests, ip, nowMs, i, k);
    }
  }

  // ------------------------------------------------------------- who is refused

  /** From request i on, when its bucket was full, the address has been granted all
      that flowed in, up to what its bucket holds now. */
  ghost predicate SpentSince(l: Limits, requests: seq<Request>, ip: string, i: nat, k: nat) {
    && i < k <= |requests| && requests[i].ip == ip && ip in After(l, requests[..k])
    && var b := After(l, requests[..k])[ip];
    GrantedCount(l, requests, ip, i, k) as real + b.tokens
      == l.capacity + Gain(l, b.lastRefillMs - requests[i].nowMs)
  }

  lemma TakeExactly(l: Limits, b: Bucket, nowMs: int)
    ensures
      var (granted, after) := Take(l, b, nowMs);
      var held := b.tokens + Gain(l, nowMs - b.lastRefillMs);
      && after.lastRefillMs == nowMs
      && (if granted then 1.0 else 0.0) + after.tokens == (if held < l.capacity then held else l.capacity)
      && (!granted ==> after.tokens < 1.0)
  {
  }

  /** The request finds a full bucket. */
  predicate FindsFull(l: Limits, requests: seq<Request>, k: nat)
    requires k < |requests|
  {
    var r := requests[k];
    var b := BucketOf(l, After(l, requests[..k]), r.ip, r.nowMs);
    b.tokens + Gain(l, r.nowMs - b.lastRefillMs) >= l.capacity
  }

  lemma NewIsFull(l: Limits, requests: seq<Request>, k: nat)
    requires k < |requests| && requests[k].ip !in After(l, requests[..k])
    ensures FindsFull(l, requests, k)
  {
    assert Gain(l, 0) == 0.0;
  }

  lemma FullAgain(l: Limits, requests: seq<Request>, k: nat)
    requires k < |requests| && FindsFull(l, requests, k)
    ensures SpentSince(l, requests, requests[k].ip, k, k + 1)
  {
    var r := requests[k];
    AfterStep(l, requests, k);
    TakeExactly(l, BucketOf(l, After(l, requests[..k]), r.ip, r.nowMs), r.nowMs);
    assert GrantedCount(l, requests, r.ip, k, k) == 0;
    assert Gain(l, 0) == 0.0;
  }

  lemma SpendsOn(l: Limits, requests: seq<Request>, ip: string, i: nat, k: nat)
    requires k < |requests| && SpentSince(l, requests, ip, i, k)
    requires requests[k].ip == ip ==> !FindsFull(l, requests, k)
    ensures SpentSince(l, requests, ip, i, k + 1)
  {
    AfterStep(l, requests, k);
    var b := After(l, requests[..k])[ip];
    if requests[k].ip == ip {
      TakeExactly(l, b, requests[k].nowMs);
      GainAdds(l, b.lastRefillMs - requests[i].nowMs, requests[k].nowMs - b.lastRefillMs);
    }
  }

  lemma {:induction false} AlwaysSpent(l: Limits, requests: seq<Request>, ip: string, k: nat)
    requires k <= |requests| && ip in After(l, requests[..k])
    ensures exists i: nat :: SpentSince(l, requests, ip, i, k)
  {
    AfterStep(l, requests, k - 1);
    if requests[k - 1].ip == ip && FindsFull(l, requests, k - 1) {
      FullAgain(l, requests, k - 1);
    } else {
      if requests[k - 1].ip == ip && ip !in After(l, requests[..k - 1]) {
        NewIsFull(l, requests, k - 1);
      }
      AlwaysSpent(l, requests, ip, k - 1);
      var i: nat :| SpentSince(l, requests, ip, i, k - 1);
      SpendsOn(l, requests, ip, i, k - 1);
    }
  }

  /** Nobody is refused what is due: a refused address has, over some window that
      ends with the refusal, been granted more than the capacity plus what flowed in
      since, less one. */
  lemma RefusedHasSpent(l: Limits, requests: seq<Request>, k: nat) returns (i: nat)
    requires k < |requests| && !Granted(l, requests, k)
    ensures i <= k && requests[i].ip == requests[k].ip
    ensures GrantedCount(l, requests, requests[k].ip, i, k + 1) as real
          > l.capacity + Gain(l, requests[k].nowMs - requests[i].nowMs) - 1.0
  {
    var r := requests[k];
    AfterStep(l, requests, k);
    AlwaysSpent(l, requests, r.ip, k + 1);
    i :| SpentSince(l, requests, r.ip, i, k + 1);
    TakeExactly(l, BucketOf(l, After(l, requests[..k]), r.ip, r.nowMs), r.nowMs);
  }

  /** With the deployed constants, in seconds. */
  lemma DeployedRefusals(requests: seq<Request>, k: nat)
    requires k < |requests|
    ensures !Granted(INDEXER_LIMITS, requests, k) ==>
              exists i: nat :: i <= k
                && GrantedCount(INDEXER_LIMITS, requests, requests[k].ip, i, k + 1) as real
                     > 59.0 + 30.0 * ((requests[k].nowMs - requests[i].nowMs) as real / 1000.0)
    ensures !Granted(FAUCET_LIMITS, requests, k) ==>
              exists i: nat :: i <= k
                && GrantedCount(FAUCET_LIMITS, requests, requests[k].ip, i, k + 1) as real
                     > 9.0 + 0.2 * ((requests[k].nowMs - requests[i].nowMs) as real / 1000.0)
  {
    if !Granted(INDEXER_LIMITS, requests, k) {
      var i := RefusedHasSpent(INDEXER_LIMITS, requests, k);
    }
    if !Granted(FAUCET_LIMITS, requests, k) {
      var i := RefusedHasSpent(FAUCET_LIMITS, requests, k);
    }
  }
}

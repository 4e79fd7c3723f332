/** How long create_auction keeps the auction's storage alive, at one ledger
    every five seconds. */
module Lifetime {
  import opened Contract

  const SECONDS_PER_LEDGER := 5
  const LEDGERS_PER_DAY := 17_280
  const MAX_TTL_EXTENSION_LEDGERS := 3_000_000

  /** The extension requested at creation, in ledgers. */
  function LifetimeLedgers(now: U64, commitDeadline: U64, gracePeriod: U64): (ledgers: nat)
    requires now < commitDeadline
    ensures ledgers <= MAX_TTL_EXTENSION_LEDGERS
  {
    var seconds := SaturatingAdd(commitDeadline - now, gracePeriod);
    var ledgers := SaturatingAdd(seconds / SECONDS_PER_LEDGER, LEDGERS_PER_DAY);
    if ledgers > MAX_TTL_EXTENSION_LEDGERS then MAX_TTL_EXTENSION_LEDGERS else ledgers
  }

  /** The requested lifetime, in numbers: the whole ledgers of the time to the refund,
      counted up to 2^64 - 1 seconds, and 17,280 more, but at most 3,000,000. */
  lemma LifetimeIs(now: U64, commitDeadline: U64, gracePeriod: U64)
    requires now < commitDeadline
    ensures
      var ahead := commitDeadline - now + gracePeriod;
      var seconds := if ahead > 0xFFFF_FFFF_FFFF_FFFF then 0xFFFF_FFFF_FFFF_FFFF else ahead;
      LifetimeLedgers(now, commitDeadline, gracePeriod)
        == if seconds / 5 + 17_280 > 3_000_000 then 3_000_000 else seconds / 5 + 17_280
  {
  }

  /** The entry is still alive when the auction can first be refunded, if and only
      if that is at most 15,000,000 seconds after creation. */
  lemma OutlivesRefundIff(now: U64, commitDeadline: U64, gracePeriod: U64)
    requires now < commitDeadline
    ensures now + LifetimeLedgers(now, commitDeadline, gracePeriod) * SECONDS_PER_LEDGER
              >= SaturatingAdd(commitDeadline, gracePeriod)
       <==> SaturatingAdd(commitDeadline, gracePeriod) - now <= 15_000_000
  {
    var seconds := SaturatingAdd(commitDeadline - now, gracePeriod);
    assert SaturatingAdd(commitDeadline, gracePeriod) - now <= seconds;
    assert seconds - SECONDS_PER_LEDGER < seconds / SECONDS_PER_LEDGER * SECONDS_PER_LEDGER <= seconds;
  }

  /** Below the cap there is a day to spare. */
  lemma DayOfMargin(now: U64, commitDeadline: U64, gracePeriod: U64)
    requires now < commitDeadline
    requires LifetimeLedgers(now, commitDeadline, gracePeriod) < MAX_TTL_EXTENSION_LEDGERS
    ensures now + (LifetimeLedgers(now, commitDeadline, gracePeriod) + 1) * SECONDS_PER_LEDGER
              > SaturatingAdd(commitDeadline, gracePeriod) + 86_400
  {
    var seconds := SaturatingAdd(commitDeadline - now, gracePeriod);
    assert seconds - SECONDS_PER_LEDGER < seconds / SECONDS_PER_LEDGER * SECONDS_PER_LEDGER <= seconds;
  }
}

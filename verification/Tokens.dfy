/** Addresses, token ledgers and what the host does for one transfer call. */
module Tokens {
  import opened Bytes

  /** An account or contract address: a kind and 32 raw key bytes. */
  datatype RawAddress = Address(isContract: bool, key: seq<Byte>)
  type Address = a: RawAddress | |a.key| == 32
    witness Address(false, seq(32, _ => 0))

  /** One token contract's state: balances, and whatever else it remembers. */
  datatype Ledger = Ledger(balances: map<Address, int>, hidden: int)

  function Balance(l: Ledger, account: Address): int {
    if account in l.balances then l.balances[account] else 0
  }

  type Ledgers = map<Address, Ledger>

  function LedgerOf(ledgers: Ledgers, token: Address): Ledger {
    if token in ledgers then ledgers[token] else Ledger(map[], 0)
  }

  /** A token call succeeds, succeeds with a result of the wrong type (its
      effects stay, the caller sees an error), or fails and changes nothing. */
  datatype TransferReply = Done(ledger: Ledger) | Garbled(ledger: Ledger) | Failed

  /** transfer(ledgers, token, from, to, amount): any behaviour at all, except
      that a token writes no ledger but its own. */
  type TransferOracle = (Ledgers, Address, Address, Address, int) -> TransferReply

  function Shift(account: Address, from: Address, to: Address, amount: int): int {
    (if account == to then amount else 0) - (if account == from then amount else 0)
  }

  ghost predicate MovesExactly(before: Ledger, after: Ledger, from: Address, to: Address, amount: int) {
    forall account :: Balance(after, account) == Balance(before, account) + Shift(account, from, to, amount)
  }

  /** SEP-41: a transfer moves exactly the amount out of a sufficient balance,
      or fails.  A conforming token may still refuse. */
  ghost predicate Conforming(transfer: TransferOracle, token: Address) {
    forall ledgers, from, to, amount {:trigger transfer(ledgers, token, from, to, amount)} ::
      var reply := transfer(ledgers, token, from, to, amount);
      && !reply.Garbled?
      && (reply.Done? ==>
            && 0 <= amount <= Balance(LedgerOf(ledgers, token), from)
            && MovesExactly(LedgerOf(ledgers, token), reply.ledger, from, to, amount))
  }

  /** The token never completes the payer's payments to one recipient. */
  ghost predicate Refuses(transfer: TransferOracle, token: Address, payer: Address, to: Address) {
    forall ledgers, amount {:trigger transfer(ledgers, token, payer, to, amount)} ::
      !transfer(ledgers, token, payer, to, amount).Done?
  }

  /** Whom a token pays, by its own ledger as it stands. */
  type Gate = (Address, Ledger, Address) -> bool

  /** The token completes the payer's payments, as long as they are covered, to
      exactly those whom the gate admits now, and such a payment admits or shuts
      out nobody.  Freezes, blocked holders and missing trust lines are gates. */
  ghost predicate GatedBy(transfer: TransferOracle, token: Address, payer: Address, gate: Gate) {
    forall ledgers, to, amount {:trigger transfer(ledgers, token, payer, to, amount)} ::
      var l, reply := LedgerOf(ledgers, token), transfer(ledgers, token, payer, to, amount);
      0 <= amount <= Balance(l, payer) ==>
        && (reply.Done? <==> gate(token, l, to))
        && (reply.Done? ==> forall other :: gate(token, reply.ledger, other) == gate(token, l, other))
  }
}

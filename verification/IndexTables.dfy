/** The rows of the auction index and the order each sort lists them in. */
module IndexTables {
  import opened Options
  import opened Tokens
  import opened Contract

  /** The columns that come from the chain and never change afterwards. */
  datatype Terms = Terms(
    seller: Address, rwaToken: Address, lotSymbol: string, lotAmount: int,
    paymentToken: Address, paymentSymbol: string, maxPrice: int,
    commitDeadline: int, gracePeriod: int)

  datatype Row = Row(
    id: int, terms: Terms, status: Status, filledSlots: nat, lotReclaimed: bool,
    clearingPrice: Option<int>, winner: Option<Address>, settleTx: Option<string>)

  datatype Sort = ClosingSoonest | Newest | MostBids

  /** The keyset cursor: sort value and id of a page's last row. */
  datatype Cursor = Cursor(sortValue: int, id: int)

  /** Above any deadline, so that "open first" fits into the high digits. */
  const OPEN_RANK_MULTIPLIER := 10_000_000_000_000

  function SortValueOf(row: Row, sort: Sort): int {
    match sort
    case MostBids => row.filledSlots
    case ClosingSoonest => (if row.status == Open then 0 else 1) * OPEN_RANK_MULTIPLIER + row.terms.commitDeadline
    case Newest => row.id
  }

  function CursorOf(row: Row, sort: Sort): Cursor {
    Cursor(SortValueOf(row, sort), row.id)
  }

  /** The cursor clause: a row with key d is listed after a cursor c. */
  predicate Before(sort: Sort, c: Cursor, d: Cursor) {
    match sort
    case MostBids => d.sortValue < c.sortValue || (d.sortValue == c.sortValue && d.id < c.id)
    case ClosingSoonest => d.sortValue > c.sortValue || (d.sortValue == c.sortValue && d.id > c.id)
    case Newest => d.id < c.id
  }

  predicate Precedes(sort: Sort, r: Row, s: Row) {
    Before(sort, CursorOf(r, sort), CursorOf(s, sort))
  }

  /** What closing-soonest is meant to be. */
  predicate ClosesSooner(r: Row, s: Row) {
    if (r.status == Open) != (s.status == Open) then r.status == Open
    else if r.terms.commitDeadline != s.terms.commitDeadline then r.terms.commitDeadline < s.terms.commitDeadline
    else r.id < s.id
  }

  /** An open row's packed key stays below a closed row's. */
  predicate KeysApart(early: Row, late: Row) {
    || early.terms.commitDeadline < OPEN_RANK_MULTIPLIER + late.terms.commitDeadline
    || (early.terms.commitDeadline == OPEN_RANK_MULTIPLIER + late.terms.commitDeadline && early.id < late.id)
  }

  /** The packed key orders two rows as meant if and only if they are both open,
      both closed, or the open one's deadline is not a multiplier ahead. */
  lemma PackedKeyOrders(r: Row, s: Row)
    requires r.id != s.id
    ensures (Precedes(ClosingSoonest, r, s) <==> ClosesSooner(r, s))
       <==> if r.status == Open && s.status != Open then KeysApart(r, s)
            else if r.status != Open && s.status == Open then KeysApart(s, r)
            else true
  {
  }

  /** Deadlines below the multiplier are always fine. */
  lemma ShortDeadlinesApart(r: Row, s: Row)
    requires 0 <= r.terms.commitDeadline < OPEN_RANK_MULTIPLIER && 0 <= s.terms.commitDeadline
    ensures KeysApart(r, s)
  {
  }

  /** A deadline past the multiplier, which the contract accepts, breaks it: an
      open auction can be listed after a settled one. */
  lemma PackedKeyBreaks(terms: Terms) returns (r: Row, s: Row)
    ensures r.status == Open && s.status == Settled && ClosesSooner(r, s)
    ensures Precedes(ClosingSoonest, s, r)
    ensures 0 <= r.terms.commitDeadline < U64_MAX && 0 <= s.terms.commitDeadline < U64_MAX
  {
    r := Row(1, terms.(commitDeadline := 2 * OPEN_RANK_MULTIPLIER), Open, 0, false, None, None, None);
    s := Row(2, terms.(commitDeadline := 1), Settled, 2, false, None, None, None);
  }
}

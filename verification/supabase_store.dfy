/**
  The Supabase store (lib/database-supabase.ts): a `tickets` table with snake_case
  columns and a `ticket_validations` table behind a REST client. Each remote call
  may report an error; the model receives that as a flag. A lookup uses
  `.single()`, which fails unless exactly one row matches; an update rewrites every
  matching row and succeeds even when none matches.
 */
module SupabaseStore {
  import opened Wrappers
  import Seqs
  import opened Tickets
  import opened Ordering

  /**
    A `tickets` row. The insert never writes `quantity`, `price` or `currency`, so
    rows created by this store hold None (SQL NULL) there.
   */
  datatype Row = Row(
    id: string,
    ticketId: string,
    orderId: int,
    orderNumber: int,
    customerEmail: string,
    ticketTitle: string,
    quantity: Option<int>,
    price: Option<string>,
    currency: Option<string>,
    qrCodeData: string,
    status: Status,
    createdAt: string,
    validatedAt: Option<string>,
    usedAt: Option<string>,
    validatedBy: Option<string>)

  datatype Db = Db(rows: seq<Row>, validations: seq<Validation>)

  /** `createTicket`'s camelCase to snake_case mapping; quantity, price and currency are not mapped. */
  function ToRow(t: Ticket): (r: Row)
    ensures r.quantity.None? && r.price.None? && r.currency.None?
    ensures FromRow(r) == t.(quantity := 1, price := "0.00", currency := "EUR")
  {
    Row(t.id, t.ticketId, t.orderId, t.orderNumber, t.customerEmail, t.ticketTitle, None, None, None,
        t.qrCodeData, t.status, t.createdAt, t.validatedAt, t.usedAt, t.validatedBy)
  }

  /** `x || d` on a numeric column: NULL and 0 are both falsy. */
  function IntOr(x: Option<int>, d: int): (r: int)
    ensures x.Some? && x.value != 0 ==> r == x.value
    ensures x.None? || x.value == 0 ==> r == d
  {
    if x.Some? && x.value != 0 then x.value else d
  }

  /** `x || d` on a text column: NULL and the empty string are both falsy. */
  function TextOr(x: Option<string>, d: string): (r: string)
    ensures x.Some? && x.value != "" ==> r == x.value
    ensures x.None? || x.value == "" ==> r == d
  {
    if x.Some? && x.value != "" then x.value else d
  }

  /** The row-to-ticket mapping of the readers, with fallbacks 1, "0.00" and "EUR". */
  function FromRow(r: Row): (t: Ticket)
    ensures t.quantity != 0 && t.price != "" && t.currency != ""
    ensures t.id == r.id && t.ticketId == r.ticketId && t.status == r.status && t.qrCodeData == r.qrCodeData
    ensures r.quantity.Some? && r.quantity.value != 0 ==> t.quantity == r.quantity.value
  {
    Ticket(r.id, r.orderId, r.orderNumber, r.ticketId, r.customerEmail, r.ticketTitle,
           IntOr(r.quantity, 1), TextOr(r.price, "0.00"), TextOr(r.currency, "EUR"),
           r.qrCodeData, r.status, r.createdAt, r.validatedAt, r.usedAt, r.validatedBy)
  }

  /**
    A ticket stored and read back comes back with quantity 1, price "0.00" and
    currency "EUR", whatever it carried: it survives the trip unchanged exactly
    when it already had those values.
   */
  lemma RowRoundTrip(t: Ticket)
    ensures FromRow(ToRow(t)) == t.(quantity := 1, price := "0.00", currency := "EUR")
    ensures FromRow(ToRow(t)) == t <==> t.quantity == 1 && t.price == "0.00" && t.currency == "EUR"
  {
  }

  /** Every other column survives the trip the other way. */
  lemma RowRoundTripBack(r: Row)
    ensures ToRow(FromRow(r)) == r.(quantity := None, price := None, currency := None)
  {
  }

  /** `createTicket`: one insert, which either lands or reports an error. */
  function CreateTicket(db: Db, t: Ticket, insertOk: bool): (r: Outcome<Db>)
    ensures r.ok == insertOk
    ensures r.ok ==> r.store.rows == db.rows + [ToRow(t)] && r.store.validations == db.validations
    ensures !r.ok ==> r.store == db
  {
    if insertOk then Outcome(true, db.(rows := db.rows + [ToRow(t)])) else Outcome(false, db)
  }

  /** The row predicate `.eq('ticket_id', ticketId)`. */
  function HasTicketId(ticketId: string): Row -> bool {
    (row: Row) => row.ticketId == ticketId
  }

  /** The rows `.eq('ticket_id', ticketId)` selects, in table order. */
  function Matching(rows: seq<Row>, ticketId: string): (r: seq<Row>)
    ensures forall row :: row in r <==> row in rows && row.ticketId == ticketId
  {
    Seqs.Filter(rows, HasTicketId(ticketId))
  }

  /** `.single()`: the row when exactly one matches; an error otherwise. */
  function Single(rows: seq<Row>, ticketId: string): (r: Option<Row>)
    ensures r.Some? <==> |Matching(rows, ticketId)| == 1
    ensures r.Some? ==> r.value in rows && r.value.ticketId == ticketId
  {
    var m := Matching(rows, ticketId);
    if |m| == 1 then
      assert m[0] in m;
      Some(m[0])
    else None
  }

  /** `getTicketByTicketId`: null on a client error and unless exactly one row carries the id. */
  function GetTicketByTicketId(db: Db, ticketId: string, readOk: bool): (r: Option<Ticket>)
    ensures r.Some? <==> readOk && |Matching(db.rows, ticketId)| == 1
    ensures r.Some? ==> r.value == FromRow(Matching(db.rows, ticketId)[0]) && r.value.ticketId == ticketId
  {
    if !readOk then None
    else
      match Single(db.rows, ticketId)
      case None => None
      case Some(row) => Some(FromRow(row))
  }

  /** Two rows sharing a ticket id make the ticket invisible to every lookup. */
  lemma DuplicateIdHidesTicket(db: Db, i: nat, j: nat, readOk: bool)
    requires i < j < |db.rows| && db.rows[i].ticketId == db.rows[j].ticketId
    ensures GetTicketByTicketId(db, db.rows[i].ticketId, readOk).None?
  {
    var id := db.rows[i].ticketId;
    Seqs.FilterAtLeastTwo(db.rows, HasTicketId(id), i, j);
  }

  /**
    The columns the update object sets. An undefined validator is dropped from the
    request body, so the stored validator is kept.
   */
  function Patch(row: Row, status: Status, validatedBy: Option<string>, now: string): Row {
    if status == Validated then
      row.(status := status, validatedAt := Some(now),
           validatedBy := if validatedBy.Some? then validatedBy else row.validatedBy)
    else if status == Used then row.(status := status, usedAt := Some(now))
    else row.(status := status)
  }

  /** Read back, a patched row is the ticket with the lifecycle stamps of its new status. */
  lemma PatchStamps(row: Row, validatedBy: string, now: string)
    ensures FromRow(Patch(row, Validated, Some(validatedBy), now)) == StampValidated(FromRow(row), now, Some(validatedBy))
    ensures FromRow(Patch(row, Used, None, now)) == StampUsed(FromRow(row), now)
  {
  }

  function PatchWith(status: Status, validatedBy: Option<string>, now: string): Row -> Row {
    (row: Row) => Patch(row, status, validatedBy, now)
  }

  /** `.update(updateData).eq('ticket_id', ticketId)`: every matching row patched. */
  function PatchAll(rows: seq<Row>, ticketId: string, status: Status, validatedBy: Option<string>, now: string): (r: seq<Row>)
    ensures |r| == |rows|
    ensures forall i :: 0 <= i < |rows| ==>
      r[i] == if rows[i].ticketId == ticketId then Patch(rows[i], status, validatedBy, now) else rows[i]
  {
    Seqs.MapWhere(rows, HasTicketId(ticketId), PatchWith(status, validatedBy, now))
  }

  /** Patching keeps ticket ids, so the same rows match afterwards, each patched. */
  lemma MatchingAfterPatch(rows: seq<Row>, ticketId: string, status: Status, validatedBy: Option<string>, now: string)
    ensures Matching(PatchAll(rows, ticketId, status, validatedBy, now), ticketId)
         == Seqs.Map(Matching(rows, ticketId), PatchWith(status, validatedBy, now))
  {
    Seqs.FilterMapWhere(rows, HasTicketId(ticketId), PatchWith(status, validatedBy, now));
  }

  /** Whether `updateTicketStatus` asks for an audit record: a validation with a truthy validator. */
  predicate Audited(status: Status, validatedBy: Option<string>) {
    status == Validated && validatedBy.Some? && validatedBy.value != ""
  }

  /**
    `updateTicketStatus`: the update either reports an error (nothing changes, false)
    or patches every matching row and returns true. The audit insert that follows a
    validation may itself fail; its result is ignored.
   */
  function UpdateTicketStatus(db: Db, ticketId: string, status: Status, validatedBy: Option<string>,
                              notes: Option<string>, now: string, validationId: string,
                              updateOk: bool, auditOk: bool): (r: Outcome<Db>)
    ensures r.ok == updateOk
    ensures !r.ok ==> r.store == db
    ensures r.ok ==> r.store.rows == PatchAll(db.rows, ticketId, status, validatedBy, now)
    ensures r.ok && Audited(status, validatedBy) && auditOk ==>
      r.store.validations == db.validations + [Validation(validationId, ticketId, validatedBy.value, now, notes)]
    ensures !(r.ok && Audited(status, validatedBy) && auditOk) ==> r.store.validations == db.validations
  {
    if !updateOk then Outcome(false, db)
    else
      var audit := if Audited(status, validatedBy) && auditOk
                   then [Validation(validationId, ticketId, validatedBy.value, now, notes)] else [];
      Outcome(true, Db(PatchAll(db.rows, ticketId, status, validatedBy, now), db.validations + audit))
  }

  /**
    An update of a ticket id no row carries is still a success, and a validation
    of it still writes an audit record for a ticket that does not exist.
   */
  lemma UpdateOfMissingTicketSucceeds(db: Db, ticketId: string, validatedBy: string, notes: Option<string>,
                                      now: string, validationId: string)
    requires forall i :: 0 <= i < |db.rows| ==> db.rows[i].ticketId != ticketId
    requires validatedBy != ""
    ensures var r := UpdateTicketStatus(db, ticketId, Validated, Some(validatedBy), notes, now, validationId, true, true);
      && r.ok && r.store.rows == db.rows
      && r.store.validations == db.validations + [Validation(validationId, ticketId, validatedBy, now, notes)]
  {
  }

  function RowStatuses(rows: seq<Row>): seq<Status> {
    Seqs.Map(rows, (row: Row) => row.status)
  }

  /**
    `getStats`: zeros when the ticket query fails; a failed validation query is only
    logged, and counts as no validations.
   */
  function GetStats(db: Db, ticketsOk: bool, validationsOk: bool): (r: Stats)
    ensures !ticketsOk ==> r == Stats(0, 0, 0, 0, 0, 0)
    ensures ticketsOk ==> r.total == |db.rows| && r.pending + r.validated + r.used + r.expired == r.total
    ensures ticketsOk ==> r.totalValidations == if validationsOk then |db.validations| else 0
    ensures ticketsOk ==>
      && r.pending == CountStatus(RowStatuses(db.rows), Pending)
      && r.validated == CountStatus(RowStatuses(db.rows), Validated)
      && r.used == CountStatus(RowStatuses(db.rows), Used)
      && r.expired == CountStatus(RowStatuses(db.rows), Expired)
  {
    if !ticketsOk then Stats(0, 0, 0, 0, 0, 0)
    else Tally(RowStatuses(db.rows), if validationsOk then |db.validations| else 0)
  }

  /** Every ticket the store can read back, in table order. */
  function ReadBack(db: Db): (r: seq<Ticket>)
    ensures |r| == |db.rows|
  {
    Seqs.Map(db.rows, FromRow)
  }

  /**
    The query `searchTickets` builds: equality on status, order number and e-mail,
    and a range on `created_at`. Reading a row back keeps all four columns, so the
    test is stated on the ticket read back.
   */
  predicate TicketMatches(f: Filters, t: Ticket) {
    && (f.status == "" || StatusName(t.status) == f.status)
    && (f.orderNumber == 0 || t.orderNumber == f.orderNumber)
    && (f.customerEmail == "" || t.customerEmail == f.customerEmail)
    && (f.dateFrom == "" || StrLe(f.dateFrom, t.createdAt))
    && (f.dateTo == "" || StrLe(t.createdAt, f.dateTo))
  }

  /** `searchTickets`: the matching rows read back, newest first; an empty list on a client error. */
  function SearchTickets(db: Db, f: Filters, readOk: bool): (r: seq<Ticket>)
    ensures !readOk ==> r == []
    ensures readOk ==> multiset(r) == multiset(Seqs.Filter(ReadBack(db), (t: Ticket) => TicketMatches(f, t)))
    ensures forall t :: t in r <==> readOk && t in ReadBack(db) && TicketMatches(f, t)
    ensures SortedDesc(r, (t: Ticket) => t.createdAt)
  {
    if !readOk then []
    else SelectDesc(ReadBack(db), (t: Ticket) => TicketMatches(f, t), (t: Ticket) => t.createdAt)
  }

  /** A non-empty e-mail filter is an exact comparison, unlike the local stores' `LIKE`: case counts. */
  lemma EmailFilterIsExact(db: Db, f: Filters, readOk: bool)
    requires f.customerEmail != ""
    ensures forall t :: t in SearchTickets(db, f, readOk) ==> t.customerEmail == f.customerEmail
  {
  }

  /** `getAllTickets`: every row read back, newest first; an empty list on a client error. */
  function GetAllTickets(db: Db, readOk: bool): (r: seq<Ticket>)
    ensures !readOk ==> r == []
    ensures readOk ==> multiset(r) == multiset(ReadBack(db))
    ensures SortedDesc(r, (t: Ticket) => t.createdAt)
  {
    if !readOk then []
    else SortDesc(ReadBack(db), (t: Ticket) => t.createdAt)
  }

  /** `getAllTickets` returns what `searchTickets` returns with no filter at all. */
  lemma AllTicketsIsUnfilteredSearch(db: Db, readOk: bool)
    ensures GetAllTickets(db, readOk) == SearchTickets(db, NoFilters, readOk)
  {
    Seqs.FilterAll(ReadBack(db), (t: Ticket) => TicketMatches(NoFilters, t));
  }
}

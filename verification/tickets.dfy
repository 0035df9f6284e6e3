/**
  The records every backend shares: a ticket, its status, the audit record written
  when it is validated, the dashboard statistics, and the search filters.
 */
module Tickets {
  import opened Wrappers
  import Seqs

  /** The lifecycle states a ticket (or an order's QR code) can be in. */
  datatype Status = Pending | Validated | Used | Expired

  /** The name the source stores and compares for each status. */
  function StatusName(s: Status): string {
    match s
    case Pending => "pending"
    case Validated => "validated"
    case Used => "used"
    case Expired => "expired"
  }

  /** One admission unit. Absent optional fields are None. */
  datatype Ticket = Ticket(
    id: string,
    orderId: int,
    orderNumber: int,
    ticketId: string,
    customerEmail: string,
    ticketTitle: string,
    quantity: int,
    price: string,
    currency: string,
    qrCodeData: string,
    status: Status,
    createdAt: string,
    validatedAt: Option<string>,
    usedAt: Option<string>,
    validatedBy: Option<string>)

  /** The append-only audit record of a successful validation. */
  datatype Validation = Validation(
    id: string,
    ticketId: string,
    validatedBy: string,
    validatedAt: string,
    notes: Option<string>)

  datatype Stats = Stats(total: nat, pending: nat, validated: nat, used: nat, expired: nat, totalValidations: nat)

  /** What a state-changing store call returns, together with the store it leaves behind. */
  datatype Outcome<S> = Outcome(ok: bool, store: S)

  /**
    Search filters as the source receives them: an empty string, or order number 0,
    is falsy in JavaScript and so imposes no constraint.
   */
  datatype Filters = Filters(status: string, customerEmail: string, orderNumber: int, dateFrom: string, dateTo: string)

  const NoFilters := Filters("", "", 0, "", "")

  /** `x || null` on an optional text column: the empty string is stored as NULL. */
  function NullIfEmpty(x: Option<string>): (r: Option<string>)
    ensures r.Some? <==> x.Some? && x.value != ""
    ensures r.Some? ==> r == x
  {
    if x.Some? && x.value != "" then x else None
  }

  function StatusesOf(tickets: seq<Ticket>): (r: seq<Status>)
    ensures |r| == |tickets|
    ensures forall i :: 0 <= i < |tickets| ==> r[i] == tickets[i].status
  {
    seq(|tickets|, i requires 0 <= i < |tickets| => tickets[i].status)
  }

  /** `items.filter(t => t.status === s).length` */
  function CountStatus(statuses: seq<Status>, s: Status): nat {
    Seqs.Count(statuses, x => x == s)
  }

  /** Each status is counted once: the four per-status counts partition the total. */
  lemma {:induction false} StatusCountsPartition(statuses: seq<Status>)
    ensures CountStatus(statuses, Pending) + CountStatus(statuses, Validated)
          + CountStatus(statuses, Used) + CountStatus(statuses, Expired) == |statuses|
  {
    if |statuses| > 0 {
      var rest := statuses[1..];
      assert statuses == [statuses[0]] + rest;
      forall s: Status
        ensures CountStatus(statuses, s) == (if statuses[0] == s then 1 else 0) + CountStatus(rest, s)
      {
        Seqs.FilterConcat([statuses[0]], rest, x => x == s);
      }
      StatusCountsPartition(rest);
    }
  }

  /** The statistics every backend reports over a list of statuses and a validation count. */
  function Tally(statuses: seq<Status>, validations: nat): (r: Stats)
    ensures r.total == |statuses| && r.totalValidations == validations
    ensures r.pending + r.validated + r.used + r.expired == r.total
    ensures r.pending == CountStatus(statuses, Pending) && r.validated == CountStatus(statuses, Validated)
    ensures r.used == CountStatus(statuses, Used) && r.expired == CountStatus(statuses, Expired)
  {
    StatusCountsPartition(statuses);
    Stats(|statuses|, CountStatus(statuses, Pending), CountStatus(statuses, Validated),
          CountStatus(statuses, Used), CountStatus(statuses, Expired), validations)
  }

  /** The index of the first ticket carrying `ticketId` (`Array.find` / `findIndex`). */
  function FindTicket(tickets: seq<Ticket>, ticketId: string): (r: Option<nat>)
    ensures r.Some? ==> r.value < |tickets| && tickets[r.value].ticketId == ticketId
    ensures r.Some? ==> forall j :: 0 <= j < r.value ==> tickets[j].ticketId != ticketId
    ensures r.None? ==> forall j :: 0 <= j < |tickets| ==> tickets[j].ticketId != ticketId
  {
    if |tickets| == 0 then None
    else if tickets[0].ticketId == ticketId then Some(0)
    else
      match FindTicket(tickets[1..], ticketId)
      case None => None
      case Some(i) => Some(i + 1)
  }

  /** The ticket a lookup by `ticketId` returns, or None. */
  function Lookup(tickets: seq<Ticket>, ticketId: string): (r: Option<Ticket>)
    ensures r.Some? <==> exists j :: 0 <= j < |tickets| && tickets[j].ticketId == ticketId
    ensures r.Some? ==> r.value in tickets && r.value.ticketId == ticketId
    ensures r.Some? ==> exists j :: 0 <= j < |tickets| && tickets[j] == r.value
                                   && forall i :: 0 <= i < j ==> tickets[i].ticketId != ticketId
  {
    match FindTicket(tickets, ticketId)
    case None => None
    case Some(i) => Some(tickets[i])
  }

  /** Rewriting the first match with a ticket of the same id leaves it the first match. */
  lemma FindAfterRewrite(tickets: seq<Ticket>, ticketId: string, t: Ticket)
    requires FindTicket(tickets, ticketId).Some? && t.ticketId == ticketId
    ensures var i := FindTicket(tickets, ticketId).value;
      FindTicket(tickets[i := t], ticketId) == Some(i) && Lookup(tickets[i := t], ticketId) == Some(t)
  {
    var i := FindTicket(tickets, ticketId).value;
    var after := tickets[i := t];
    assert after[i] == t;
    assert FindTicket(after, ticketId) == Some(i);
  }

  predicate UniqueTicketIds(tickets: seq<Ticket>) {
    forall i, j :: 0 <= i < j < |tickets| ==> tickets[i].ticketId != tickets[j].ticketId
  }

  /** The fields the `pending -> validated` transition stamps. */
  function StampValidated(t: Ticket, at: string, validator: Option<string>): Ticket {
    t.(status := Validated, validatedAt := Some(at), validatedBy := validator)
  }

  /** The fields the `-> used` transition stamps. */
  function StampUsed(t: Ticket, at: string): Ticket {
    t.(status := Used, usedAt := Some(at))
  }

  /** The lifecycle `pending -> validated -> used`; staying put is always allowed. */
  predicate LegalStep(before: Status, after: Status) {
    || before == after
    || (before == Pending && after == Validated)
    || (before == Validated && after == Used)
  }

  /** Two ticket lists of equal length whose statuses only ever moved along the lifecycle. */
  predicate LegalStore(before: seq<Ticket>, after: seq<Ticket>) {
    |before| == |after| && forall i :: 0 <= i < |before| ==> LegalStep(before[i].status, after[i].status)
  }
}

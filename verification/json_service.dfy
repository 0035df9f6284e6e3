/**
  The JSON-file ticket service (lib/ticket-service-vercel.ts): fee lines are
  skipped, every other unit becomes a ticket with a cleaned title and an id built
  from the full slug, and the lifecycle is guarded in the service before the
  unguarded store is called.
 */
module JsonTicketService {
  import opened Wrappers
  import opened Tickets
  import opened TicketIds
  import opened Minting
  import Seqs
  import JsonStore

  type Db = JsonStore.Db

  /** The ticket object built for one unit (lines 45-75 of the loop body). */
  function Mint(order: Order, unit: Unit, e: UnitEntropy, baseUrl: string, render: string -> string): (t: Ticket)
    ensures FreshTicket(t, order, unit)
    ensures t.ticketId == CleanTicketId(order, unit, e) && t.ticketTitle == CleanTicketTitle(unit.item.title)
    ensures t.qrCodeData == render(ValidationUrl(baseUrl, t.ticketId))
    ensures t.id == e.recordId && t.createdAt == e.createdAt
  {
    NewTicket(order, unit, e.recordId, CleanTicketId(order, unit, e), CleanTicketTitle(unit.item.title),
              baseUrl, render, e.createdAt)
  }

  /** The ticket minted for the unit at position `n` of the order. */
  function MintAt(order: Order, baseUrl: string, render: string -> string, entropy: nat -> UnitEntropy): (Unit, nat) -> Ticket {
    (u: Unit, n: nat) => Mint(order, u, entropy(n), baseUrl, render)
  }

  /**
    The inner loops over `units`, the first at position `pos`: `make(u, n)` is the
    ticket built for unit `u` at position `n`. The store appends every ticket.
   */
  function SaveUnits(db: Db, units: seq<Unit>, pos: nat, make: (Unit, nat) -> Ticket): (r: Batch<Db>)
    ensures |r.tickets| == |units|
    ensures r.store.tickets == db.tickets + r.tickets && r.store.validations == db.validations
    ensures forall k :: 0 <= k < |units| ==> r.tickets[k] == make(units[k], pos + k)
    decreases |units|
  {
    if |units| == 0 then Batch([], db)
    else
      var t := make(units[0], pos);
      var saved := JsonStore.CreateTicket(db, t);
      var rest := SaveUnits(saved.store, units[1..], pos + 1, make);
      var kept := if saved.ok then [t] else [];
      Seqs.ConsIndexed(units, pos, t, rest.tickets, make);
      Batch(kept + rest.tickets, rest.store)
  }

  /**
    `generateTicketsForOrder`: one ticket per unit of every line that is not a fee,
    all appended to the ticket file, with the cleaned title and the full-slug id.
   */
  function GenerateTicketsForOrder(db: Db, order: Order, baseUrl: string,
                                   render: string -> string, entropy: nat -> UnitEntropy): (r: Batch<Db>)
    ensures |r.tickets| == |SeatUnits(order)|
    ensures r.store.tickets == db.tickets + r.tickets && r.store.validations == db.validations
    ensures forall k :: 0 <= k < |r.tickets| ==> r.tickets[k] == Mint(order, SeatUnits(order)[k], entropy(k), baseUrl, render)
  {
    SaveUnits(db, SeatUnits(order), 0, MintAt(order, baseUrl, render, entropy))
  }

  /** `getTicketInfo` */
  function GetTicketInfo(db: Db, ticketId: string): Option<Ticket> {
    JsonStore.GetTicketByTicketId(db, ticketId)
  }

  /** `validateTicket`: the first ticket with the id must be pending; the store then stamps it. */
  function ValidateTicket(db: Db, ticketId: string, validatedBy: string, notes: Option<string>,
                          at: string, validationId: string): (r: Outcome<Db>)
    ensures r.ok <==> GetTicketInfo(db, ticketId).Some? && GetTicketInfo(db, ticketId).value.status == Pending
    ensures !r.ok ==> r.store == db
    ensures r.ok ==> GetTicketInfo(r.store, ticketId) == Some(StampValidated(GetTicketInfo(db, ticketId).value, at, Some(validatedBy)))
    ensures r.ok ==>
      && FindTicket(db.tickets, ticketId).Some?
      && r.store.tickets == db.tickets[FindTicket(db.tickets, ticketId).value :=
                                         StampValidated(GetTicketInfo(db, ticketId).value, at, Some(validatedBy))]
    ensures r.ok && validatedBy != "" ==>
      r.store.validations == db.validations + [Validation(validationId, ticketId, validatedBy, at, notes)]
    ensures r.ok && validatedBy == "" ==> r.store.validations == db.validations
  {
    match GetTicketInfo(db, ticketId)
    case None => Outcome(false, db)
    case Some(t) =>
      if t.status != Pending then Outcome(false, db)
      else
        FindAfterRewrite(db.tickets, ticketId, StampValidated(t, at, Some(validatedBy)));
        JsonStore.UpdateTicketStatus(db, ticketId, "validated", Some(validatedBy), notes, at, validationId)
  }

  /** `markTicketAsUsed`: the first ticket with the id must be validated. */
  function MarkTicketAsUsed(db: Db, ticketId: string, at: string): (r: Outcome<Db>)
    ensures r.ok <==> GetTicketInfo(db, ticketId).Some? && GetTicketInfo(db, ticketId).value.status == Validated
    ensures !r.ok ==> r.store == db
    ensures r.ok ==> GetTicketInfo(r.store, ticketId) == Some(StampUsed(GetTicketInfo(db, ticketId).value, at))
    ensures r.ok ==>
      && FindTicket(db.tickets, ticketId).Some?
      && r.store.tickets == db.tickets[FindTicket(db.tickets, ticketId).value := StampUsed(GetTicketInfo(db, ticketId).value, at)]
    ensures r.store.validations == db.validations
  {
    match GetTicketInfo(db, ticketId)
    case None => Outcome(false, db)
    case Some(t) =>
      if t.status != Validated then Outcome(false, db)
      else
        FindAfterRewrite(db.tickets, ticketId, StampUsed(t, at));
        JsonStore.UpdateTicketStatus(db, ticketId, "used", None, None, at, "")
  }

  /** Both transitions rewrite at most the first ticket with the id, and only forward. */
  lemma TransitionsAreLegal(db: Db, ticketId: string, validatedBy: string, notes: Option<string>,
                            at: string, validationId: string)
    ensures LegalStore(db.tickets, ValidateTicket(db, ticketId, validatedBy, notes, at, validationId).store.tickets)
    ensures LegalStore(db.tickets, MarkTicketAsUsed(db, ticketId, at).store.tickets)
  {
  }

  /** A validated ticket is refused a second validation but accepted at the door, once. */
  lemma ValidateThenUseOnce(db: Db, ticketId: string, validatedBy: string, notes: Option<string>,
                            at: string, validationId: string, at2: string, at3: string)
    requires ValidateTicket(db, ticketId, validatedBy, notes, at, validationId).ok
    ensures var db1 := ValidateTicket(db, ticketId, validatedBy, notes, at, validationId).store;
      && !ValidateTicket(db1, ticketId, validatedBy, notes, at2, validationId).ok
      && MarkTicketAsUsed(db1, ticketId, at2).ok
      && !MarkTicketAsUsed(MarkTicketAsUsed(db1, ticketId, at2).store, ticketId, at3).ok
  {
  }

  /**
    A scan by an anonymous validator (empty name) validates the ticket but leaves
    no audit record, since the store only records truthy validators.
   */
  lemma AnonymousValidationUnaudited(db: Db, ticketId: string, notes: Option<string>, at: string, validationId: string)
    requires GetTicketInfo(db, ticketId).Some? && GetTicketInfo(db, ticketId).value.status == Pending
    ensures var r := ValidateTicket(db, ticketId, "", notes, at, validationId);
      && r.ok && r.store.validations == db.validations
      && GetTicketInfo(r.store, ticketId).value.status == Validated
  {
  }

  /** A pending ticket cannot be used without being validated first. */
  lemma PendingTicketRefusedAtDoor(db: Db, ticketId: string, at: string)
    requires GetTicketInfo(db, ticketId).Some? && GetTicketInfo(db, ticketId).value.status == Pending
    ensures MarkTicketAsUsed(db, ticketId, at) == Outcome(false, db)
  {
  }
}

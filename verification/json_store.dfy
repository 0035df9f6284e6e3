/**
  The JSON-file store (lib/database-vercel.ts): `tickets.json` and
  `validations.json`, each an array read whole and written whole on every call.
  A lookup returns the first ticket carrying the id and an update rewrites that one
  ticket. The store enforces no lifecycle: any status may follow any other.
 */
module JsonStore {
  import opened Wrappers
  import opened Tickets

  datatype Db = Db(tickets: seq<Ticket>, validations: seq<Validation>)

  /**
    `createTicket`: push and write back. The file helpers swallow their own errors,
    so the call always reports success.
   */
  function CreateTicket(db: Db, t: Ticket): (r: Outcome<Db>)
    ensures r.ok
    ensures |r.store.tickets| == |db.tickets| + 1 && r.store.tickets[|db.tickets|] == t
    ensures r.store.tickets[..|db.tickets|] == db.tickets && r.store.validations == db.validations
  {
    Outcome(true, db.(tickets := db.tickets + [t]))
  }

  /** A created ticket is what a later lookup finds, unless an earlier ticket carries the same id. */
  lemma CreateThenLookup(db: Db, t: Ticket)
    ensures var after := CreateTicket(db, t).store;
      && (Lookup(db.tickets, t.ticketId).None? ==> Lookup(after.tickets, t.ticketId) == Some(t))
      && (Lookup(db.tickets, t.ticketId).Some? ==> Lookup(after.tickets, t.ticketId) == Lookup(db.tickets, t.ticketId))
  {
    var after := CreateTicket(db, t).store;
    var i := FindTicket(after.tickets, t.ticketId);
    assert after.tickets[|db.tickets|].ticketId == t.ticketId;
    match FindTicket(db.tickets, t.ticketId)
    case None =>
      assert i == Some(|db.tickets|);
    case Some(k) =>
      assert after.tickets[k] == db.tickets[k];
      assert i == Some(k);
  }

  /** `getTicketByTicketId`: `Array.find` over the file. */
  function GetTicketByTicketId(db: Db, ticketId: string): (r: Option<Ticket>)
    ensures r.Some? <==> exists j :: 0 <= j < |db.tickets| && db.tickets[j].ticketId == ticketId
    ensures r.Some? ==> exists j :: 0 <= j < |db.tickets| && db.tickets[j] == r.value && r.value.ticketId == ticketId
                                   && forall i :: 0 <= i < j ==> db.tickets[i].ticketId != ticketId
  {
    Lookup(db.tickets, ticketId)
  }

  /** Whether `updateTicketStatus` also appends an audit record: a validation with a non-empty validator. */
  predicate Audited(status: string, validatedBy: Option<string>) {
    status == "validated" && validatedBy.Some? && validatedBy.value != ""
  }

  /** The ticket as `updateTicketStatus` leaves it; statuses other than the two it knows leave it as it was. */
  function Restamp(t: Ticket, status: string, validatedBy: Option<string>, now: string): Ticket {
    if status == "validated" then StampValidated(t, now, validatedBy)
    else if status == "used" then StampUsed(t, now)
    else t
  }

  /**
    `updateTicketStatus`: rewrites the first ticket carrying `ticketId` and, for an
    audited validation, appends a validation record carrying the notes as given.
   */
  function UpdateTicketStatus(db: Db, ticketId: string, status: string, validatedBy: Option<string>,
                              notes: Option<string>, now: string, validationId: string): (r: Outcome<Db>)
    ensures r.ok <==> exists j :: 0 <= j < |db.tickets| && db.tickets[j].ticketId == ticketId
    ensures !r.ok ==> r.store == db
    ensures |r.store.tickets| == |db.tickets|
    ensures r.ok ==> var i := FindTicket(db.tickets, ticketId).value;
      && r.store.tickets[i] == Restamp(db.tickets[i], status, validatedBy, now)
      && forall j :: 0 <= j < |db.tickets| && j != i ==> r.store.tickets[j] == db.tickets[j]
    ensures r.ok && Audited(status, validatedBy) ==>
      r.store.validations == db.validations + [Validation(validationId, ticketId, validatedBy.value, now, notes)]
    ensures !(r.ok && Audited(status, validatedBy)) ==> r.store.validations == db.validations
  {
    match FindTicket(db.tickets, ticketId)
    case None => Outcome(false, db)
    case Some(i) =>
      var audit := if Audited(status, validatedBy)
                   then [Validation(validationId, ticketId, validatedBy.value, now, notes)] else [];
      Outcome(true, Db(db.tickets[i := Restamp(db.tickets[i], status, validatedBy, now)], db.validations + audit))
  }

  /**
    The store itself has no guard: validating a used ticket succeeds and puts it
    back to `validated`, so only the service's checks keep the lifecycle forward.
   */
  lemma StoreRewindsUsedTicket(db: Db, ticketId: string, validatedBy: Option<string>, notes: Option<string>,
                               now: string, validationId: string)
    requires GetTicketByTicketId(db, ticketId).Some? && GetTicketByTicketId(db, ticketId).value.status == Used
    ensures var r := UpdateTicketStatus(db, ticketId, "validated", validatedBy, notes, now, validationId);
      && r.ok
      && GetTicketByTicketId(r.store, ticketId).Some?
      && GetTicketByTicketId(r.store, ticketId).value.status == Validated
  {
    var i := FindTicket(db.tickets, ticketId).value;
    FindAfterRewrite(db.tickets, ticketId, Restamp(db.tickets[i], "validated", validatedBy, now));
  }

  /** A status other than `validated` or `used` is reported as a success and changes nothing. */
  lemma UnknownStatusChangesNothing(db: Db, ticketId: string, status: string, validatedBy: Option<string>,
                                    notes: Option<string>, now: string, validationId: string)
    requires status != "validated" && status != "used"
    requires GetTicketByTicketId(db, ticketId).Some?
    ensures UpdateTicketStatus(db, ticketId, status, validatedBy, notes, now, validationId) == Outcome(true, db)
  {
    var i := FindTicket(db.tickets, ticketId).value;
    assert db.tickets[i := db.tickets[i]] == db.tickets;
  }

  /** `getStats`: the per-status counts of the ticket file and the length of the validation file. */
  function GetStats(db: Db): (r: Stats)
    ensures r.total == |db.tickets| && r.totalValidations == |db.validations|
    ensures r.pending + r.validated + r.used + r.expired == r.total
    ensures r.pending == CountStatus(StatusesOf(db.tickets), Pending)
    ensures r.validated == CountStatus(StatusesOf(db.tickets), Validated)
    ensures r.used == CountStatus(StatusesOf(db.tickets), Used)
    ensures r.expired == CountStatus(StatusesOf(db.tickets), Expired)
  {
    Tally(StatusesOf(db.tickets), |db.validations|)
  }
}

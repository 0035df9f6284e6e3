/**
  The Supabase ticket service (lib/ticket-service-supabase.ts): the same fee filter,
  titles and ids as the JSON-file service, a UUID record id, a ticket kept only when
  its insert lands, and a door check that accepts any ticket not yet used.
 */
module SupabaseTicketService {
  import opened Wrappers
  import Seqs
  import opened Tickets
  import opened TicketIds
  import opened Minting
  import opened SupabaseStore

  /** Whether each kind of remote call reports an error: the lookup, the update, the audit insert. */
  datatype Net = Net(readOk: bool, writeOk: bool, auditOk: bool)

  /** The ticket object built for one unit, with a version-4 UUID as its record id. */
  function Mint(order: Order, unit: Unit, e: UnitEntropy, baseUrl: string, render: string -> string): (t: Ticket)
    ensures FreshTicket(t, order, unit)
    ensures t.ticketId == CleanTicketId(order, unit, e) && t.ticketTitle == CleanTicketTitle(unit.item.title)
    ensures t.qrCodeData == render(ValidationUrl(baseUrl, t.ticketId))
    ensures t.id == Uuid(e.uuid) && t.createdAt == e.createdAt
  {
    NewTicket(order, unit, Uuid(e.uuid), CleanTicketId(order, unit, e), CleanTicketTitle(unit.item.title),
              baseUrl, render, e.createdAt)
  }

  /** Whether the `n` inserts from position `pos` on all land. */
  predicate AllSaved(saved: nat -> bool, pos: nat, n: nat)
    decreases n
  {
    n == 0 || (saved(pos) && AllSaved(saved, pos + 1, n - 1))
  }

  /**
    The tickets `make(units[k], pos + k)` whose insert lands, `saved(pos + k)`, in unit
    order: what `if (saved) tickets.push(ticket)` collects.
   */
  function SavedTickets(units: seq<Unit>, pos: nat, make: (Unit, nat) -> Ticket, saved: nat -> bool): (r: seq<Ticket>)
    ensures |r| <= |units|
    decreases |units|
  {
    if |units| == 0 then []
    else (if saved(pos) then [make(units[0], pos)] else []) + SavedTickets(units[1..], pos + 1, make, saved)
  }

  /** The ticket built for every unit, whether or not its insert lands. */
  function AllMade(units: seq<Unit>, pos: nat, make: (Unit, nat) -> Ticket): (r: seq<Ticket>)
    ensures |r| == |units|
    ensures forall k :: 0 <= k < |units| ==> r[k] == make(units[k], pos + k)
  {
    seq(|units|, k requires 0 <= k < |units| => make(units[k], pos + k))
  }

  /** When every insert lands, every unit's ticket is kept, in order. */
  lemma {:induction false} AllSavedKeepsAll(units: seq<Unit>, pos: nat, make: (Unit, nat) -> Ticket, saved: nat -> bool)
    requires AllSaved(saved, pos, |units|)
    ensures SavedTickets(units, pos, make, saved) == AllMade(units, pos, make)
    decreases |units|
  {
    if |units| > 0 {
      AllSavedKeepsAll(units[1..], pos + 1, make, saved);
      AllMadeTail(units, pos, make);
    }
  }

  lemma AllMadeTail(units: seq<Unit>, pos: nat, make: (Unit, nat) -> Ticket)
    requires |units| > 0
    ensures AllMade(units, pos, make) == [make(units[0], pos)] + AllMade(units[1..], pos + 1, make)
  {
    var a := AllMade(units, pos, make);
    var b := [make(units[0], pos)] + AllMade(units[1..], pos + 1, make);
    forall k | 0 < k < |units|
      ensures a[k] == b[k]
    {
      assert units[1..][k - 1] == units[k] && pos + 1 + (k - 1) == pos + k;
    }
  }

  /**
    A failed insert drops only its own unit: when exactly the insert at position
    `pos + j` fails, every other unit's ticket is returned, in order.
   */
  lemma {:induction false} OneFailureDropsOne(units: seq<Unit>, pos: nat, make: (Unit, nat) -> Ticket,
                                              saved: nat -> bool, j: nat)
    requires j < |units|
    requires !saved(pos + j)
    requires forall m: nat :: pos <= m < pos + |units| && m != pos + j ==> saved(m)
    ensures var all := AllMade(units, pos, make);
      SavedTickets(units, pos, make, saved) == all[..j] + all[j + 1..]
    decreases |units|
  {
    if j == 0 {
      FirstFailureDropsFirst(units, pos, make, saved);
    } else {
      assert saved(pos);
      OneFailureDropsOne(units[1..], pos + 1, make, saved, j - 1);
      DropStep(units, pos, make, saved, j);
    }
  }

  lemma FirstFailureDropsFirst(units: seq<Unit>, pos: nat, make: (Unit, nat) -> Ticket, saved: nat -> bool)
    requires |units| > 0 && !saved(pos)
    requires forall m: nat :: pos < m < pos + |units| ==> saved(m)
    ensures SavedTickets(units, pos, make, saved) == AllMade(units, pos, make)[1..]
  {
    AllSavedFrom(saved, pos + 1, |units| - 1);
    AllSavedKeepsAll(units[1..], pos + 1, make, saved);
    SavedTicketsSkip(units, pos, make, saved);
    AllMadeTail(units, pos, make);
    assert AllMade(units, pos, make)[1..] == AllMade(units[1..], pos + 1, make);
  }

  lemma SavedTicketsSkip(units: seq<Unit>, pos: nat, make: (Unit, nat) -> Ticket, saved: nat -> bool)
    requires |units| > 0 && !saved(pos)
    ensures SavedTickets(units, pos, make, saved) == SavedTickets(units[1..], pos + 1, make, saved)
  {
  }

  /** The inductive step of `OneFailureDropsOne` past a landed insert at the head. */
  lemma DropStep(units: seq<Unit>, pos: nat, make: (Unit, nat) -> Ticket, saved: nat -> bool, j: nat)
    requires 1 <= j < |units| && saved(pos)
    requires var tail := AllMade(units[1..], pos + 1, make);
      SavedTickets(units[1..], pos + 1, make, saved) == tail[..j - 1] + tail[j..]
    ensures var all := AllMade(units, pos, make);
      SavedTickets(units, pos, make, saved) == all[..j] + all[j + 1..]
  {
    SavedTicketsCons(units, pos, make, saved);
    AllMadeTail(units, pos, make);
    Seqs.DropAfterCons(make(units[0], pos), AllMade(units[1..], pos + 1, make), j);
  }

  lemma SavedTicketsCons(units: seq<Unit>, pos: nat, make: (Unit, nat) -> Ticket, saved: nat -> bool)
    requires |units| > 0 && saved(pos)
    ensures SavedTickets(units, pos, make, saved) == [make(units[0], pos)] + SavedTickets(units[1..], pos + 1, make, saved)
  {
  }

  /** `AllSaved` from its pointwise reading. */
  lemma {:induction false} AllSavedFrom(saved: nat -> bool, pos: nat, n: nat)
    requires forall m: nat :: pos <= m < pos + n ==> saved(m)
    ensures AllSaved(saved, pos, n)
    decreases n
  {
    if n > 0 {
      AllSavedFrom(saved, pos + 1, n - 1);
    }
  }

  /**
    The inner loops over `units`, the first at position `pos`: `make(u, n)` is the
    ticket built for unit `u` at position `n`, and `saved(n)` whether its insert
    lands. Only tickets whose insert landed are returned.
   */
  function SaveUnits(db: Db, units: seq<Unit>, pos: nat, make: (Unit, nat) -> Ticket, saved: nat -> bool): (r: Batch<Db>)
    ensures r.tickets == SavedTickets(units, pos, make, saved)
    ensures |r.tickets| <= |units|
    ensures r.store.rows == db.rows + Seqs.Map(r.tickets, ToRow) && r.store.validations == db.validations
    ensures forall i :: 0 <= i < |r.tickets| ==> MadeFrom(r.tickets[i], units, pos, make)
    ensures AllSaved(saved, pos, |units|) ==>
      && |r.tickets| == |units|
      && forall k :: 0 <= k < |units| ==> r.tickets[k] == make(units[k], pos + k)
    decreases |units|
  {
    if |units| == 0 then Batch([], db)
    else
      var t := make(units[0], pos);
      var insert := CreateTicket(db, t, saved(pos));
      var rest := SaveUnits(insert.store, units[1..], pos + 1, make, saved);
      var kept := if insert.ok then [t] else [];
      StepRows(db.rows, insert.store.rows, kept, rest.tickets, rest.store.rows);
      StepMade(units, pos, make, kept, rest.tickets);
      if AllSaved(saved, pos, |units|) then
        Seqs.ConsIndexed(units, pos, t, rest.tickets, make);
        Batch(kept + rest.tickets, rest.store)
      else Batch(kept + rest.tickets, rest.store)
  }

  lemma StepRows(before: seq<Row>, middle: seq<Row>, kept: seq<Ticket>, rest: seq<Ticket>, after: seq<Row>)
    requires middle == before + Seqs.Map(kept, ToRow)
    requires after == middle + Seqs.Map(rest, ToRow)
    ensures after == before + Seqs.Map(kept + rest, ToRow)
  {
    assert Seqs.Map(kept + rest, ToRow) == Seqs.Map(kept, ToRow) + Seqs.Map(rest, ToRow);
  }

  /** `t` is the ticket made for one of `units`, the k-th at position `pos + k`. */
  predicate MadeFrom(t: Ticket, units: seq<Unit>, pos: nat, make: (Unit, nat) -> Ticket) {
    exists k :: 0 <= k < |units| && t == make(units[k], pos + k)
  }

  lemma StepMade(units: seq<Unit>, pos: nat, make: (Unit, nat) -> Ticket, kept: seq<Ticket>, rest: seq<Ticket>)
    requires |units| > 0
    requires kept == [] || kept == [make(units[0], pos)]
    requires forall i :: 0 <= i < |rest| ==> MadeFrom(rest[i], units[1..], pos + 1, make)
    ensures forall i :: 0 <= i < |kept + rest| ==> MadeFrom((kept + rest)[i], units, pos, make)
  {
    forall i | 0 <= i < |kept + rest|
      ensures MadeFrom((kept + rest)[i], units, pos, make)
    {
      if i < |kept| {
        assert (kept + rest)[i] == make(units[0], pos + 0);
      } else {
        assert MadeFrom(rest[i - |kept|], units[1..], pos + 1, make);
        var k :| 0 <= k < |units[1..]| && rest[i - |kept|] == make(units[1..][k], pos + 1 + k);
        assert units[1..][k] == units[k + 1] && pos + 1 + k == pos + (k + 1);
        assert (kept + rest)[i] == make(units[k + 1], pos + (k + 1));
      }
    }
  }

  /** The ticket minted for the unit at position `n` of the order. */
  function MintAt(order: Order, baseUrl: string, render: string -> string, entropy: nat -> UnitEntropy): (Unit, nat) -> Ticket {
    (u: Unit, n: nat) => Mint(order, u, entropy(n), baseUrl, render)
  }

  /**
    `generateTicketsForOrder`: at most one ticket per unit of every non-fee line;
    exactly one, in order, when every insert lands. Each returned ticket is the row
    the store now holds (without quantity, price and currency).
   */
  function GenerateTicketsForOrder(db: Db, order: Order, baseUrl: string, render: string -> string,
                                   entropy: nat -> UnitEntropy, saved: nat -> bool): (r: Batch<Db>)
    ensures r.tickets == SavedTickets(SeatUnits(order), 0, MintAt(order, baseUrl, render, entropy), saved)
    ensures |r.tickets| <= |SeatUnits(order)|
    ensures r.store.rows == db.rows + Seqs.Map(r.tickets, ToRow) && r.store.validations == db.validations
    ensures forall i :: 0 <= i < |r.tickets| ==> MadeFrom(r.tickets[i], SeatUnits(order), 0, MintAt(order, baseUrl, render, entropy))
    ensures AllSaved(saved, 0, |SeatUnits(order)|) ==>
      && |r.tickets| == |SeatUnits(order)|
      && forall k :: 0 <= k < |r.tickets| ==> r.tickets[k] == Mint(order, SeatUnits(order)[k], entropy(k), baseUrl, render)
  {
    SaveUnits(db, SeatUnits(order), 0, MintAt(order, baseUrl, render, entropy), saved)
  }

  /** `getTicketInfo` */
  function GetTicketInfo(db: Db, ticketId: string, net: Net): Option<Ticket> {
    GetTicketByTicketId(db, ticketId, net.readOk)
  }

  /** After an update, the single row with the id is still single, and patched. */
  lemma LookupAfterUpdate(db: Db, ticketId: string, status: Status, validatedBy: Option<string>, now: string)
    requires |Matching(db.rows, ticketId)| == 1
    ensures var after := Db(PatchAll(db.rows, ticketId, status, validatedBy, now), db.validations);
      GetTicketByTicketId(after, ticketId, true)
        == Some(FromRow(Patch(Matching(db.rows, ticketId)[0], status, validatedBy, now)))
  {
    MatchingAfterPatch(db.rows, ticketId, status, validatedBy, now);
  }

  /**
    `validateTicket`: the one row with the id must read back pending; the update
    then stamps it. The audit record is written only for a non-empty validator
    whose insert lands, and its failure does not change the answer.
   */
  function ValidateTicket(db: Db, ticketId: string, validatedBy: string, notes: Option<string>,
                          at: string, validationId: string, net: Net): (r: Outcome<Db>)
    ensures r.ok <==> GetTicketInfo(db, ticketId, net).Some? && GetTicketInfo(db, ticketId, net).value.status == Pending
                      && net.writeOk
    ensures !r.ok ==> r.store == db
    ensures r.ok ==> GetTicketByTicketId(r.store, ticketId, true)
                     == Some(StampValidated(GetTicketInfo(db, ticketId, net).value, at, Some(validatedBy)))
    ensures r.ok ==> r.store.rows == PatchAll(db.rows, ticketId, Validated, Some(validatedBy), at)
    ensures r.ok && validatedBy != "" && net.auditOk ==>
      r.store.validations == db.validations + [Validation(validationId, ticketId, validatedBy, at, notes)]
    ensures !(r.ok && validatedBy != "" && net.auditOk) ==> r.store.validations == db.validations
  {
    match GetTicketInfo(db, ticketId, net)
    case None => Outcome(false, db)
    case Some(t) =>
      if t.status != Pending then Outcome(false, db)
      else
        LookupAfterUpdate(db, ticketId, Validated, Some(validatedBy), at);
        PatchStamps(Matching(db.rows, ticketId)[0], validatedBy, at);
        UpdateTicketStatus(db, ticketId, Validated, Some(validatedBy), notes, at, validationId, net.writeOk, net.auditOk)
  }

  /**
    `markTicketAsUsed`: a ticket already used is answered with success and left
    alone; any other ticket found (pending, validated or expired) is marked used.
   */
  function MarkTicketAsUsed(db: Db, ticketId: string, at: string, net: Net): (r: Outcome<Db>)
    ensures r.ok <==> GetTicketInfo(db, ticketId, net).Some?
                      && (GetTicketInfo(db, ticketId, net).value.status == Used || net.writeOk)
    ensures !r.ok ==> r.store == db
    ensures GetTicketInfo(db, ticketId, net).Some? && GetTicketInfo(db, ticketId, net).value.status == Used ==> r.store == db
    ensures r.ok && GetTicketInfo(db, ticketId, net).value.status != Used ==>
      GetTicketByTicketId(r.store, ticketId, true) == Some(StampUsed(GetTicketInfo(db, ticketId, net).value, at))
    ensures r.ok && GetTicketInfo(db, ticketId, net).value.status != Used ==>
      r.store.rows == PatchAll(db.rows, ticketId, Used, None, at)
    ensures r.store.validations == db.validations
  {
    match GetTicketInfo(db, ticketId, net)
    case None => Outcome(false, db)
    case Some(t) =>
      if t.status == Used then Outcome(true, db)
      else
        LookupAfterUpdate(db, ticketId, Used, None, at);
        PatchStamps(Matching(db.rows, ticketId)[0], "", at);
        UpdateTicketStatus(db, ticketId, Used, None, None, at, "", net.writeOk, net.auditOk)
  }

  /**
    Unlike the other two services, the door accepts a pending or expired ticket and
    marks it used without it ever being validated.
   */
  lemma DoorSkipsValidation(db: Db, ticketId: string, at: string, net: Net)
    requires GetTicketInfo(db, ticketId, net).Some? && net.writeOk
    requires GetTicketInfo(db, ticketId, net).value.status in {Pending, Expired}
    ensures var r := MarkTicketAsUsed(db, ticketId, at, net);
      && r.ok
      && GetTicketByTicketId(r.store, ticketId, true).value.status == Used
      && GetTicketByTicketId(r.store, ticketId, true).value.validatedAt == GetTicketInfo(db, ticketId, net).value.validatedAt
  {
  }

  /** A second scan at the door is answered with success and changes nothing. */
  lemma SecondScanAccepted(db: Db, ticketId: string, at: string, at2: string, net: Net)
    requires MarkTicketAsUsed(db, ticketId, at, net).ok && net.readOk
    ensures var db1 := MarkTicketAsUsed(db, ticketId, at, net).store;
      MarkTicketAsUsed(db1, ticketId, at2, net) == Outcome(true, db1)
  {
  }

  /** A validated ticket is refused a second validation. */
  lemma ValidateTwiceRefused(db: Db, ticketId: string, validatedBy: string, notes: Option<string>,
                             at: string, validationId: string, at2: string, validationId2: string, net: Net)
    requires ValidateTicket(db, ticketId, validatedBy, notes, at, validationId, net).ok
    ensures var db1 := ValidateTicket(db, ticketId, validatedBy, notes, at, validationId, net).store;
      !ValidateTicket(db1, ticketId, validatedBy, notes, at2, validationId2, net).ok
  {
  }
}

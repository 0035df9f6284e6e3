/**
  The SQLite ticket service (lib/ticket-service.ts): per-unit minting with an
  existence check and no fee filter, the guarded `pending -> validated -> used`
  transitions, statistics and search. The `tickets` and `ticket_validations`
  tables are sequences in insertion order; a lookup by `ticketId` returns the first
  matching row and an `UPDATE ... WHERE ticketId = ?` rewrites every matching row.
 */
module SqliteTicketService {
  import opened Wrappers
  import opened Text
  import Seqs
  import opened Tickets
  import opened TicketIds
  import opened Minting
  import opened Ordering
  import SqlLike

  datatype TicketDb = TicketDb(tickets: seq<Ticket>, validations: seq<Validation>)

  // ---------------------------------------------------------------------------
  // Minting.

  /** The ids the service computes for `units`, the k-th with the k-th entropy after `pos`. */
  function UnitIds(order: Order, units: seq<Unit>, pos: nat, entropy: nat -> UnitEntropy): (r: seq<string>)
    ensures |r| == |units|
    ensures forall k :: 0 <= k < |units| ==> r[k] == SqliteTicketId(order, units[k], entropy(pos + k))
  {
    seq(|units|, k requires 0 <= k < |units| => SqliteTicketId(order, units[k], entropy(pos + k)))
  }

  /** Every id is absent from the table and no two units compute the same id. */
  predicate AllNew(tickets: seq<Ticket>, ids: seq<string>) {
    && (forall k, j :: 0 <= k < |ids| && 0 <= j < |tickets| ==> tickets[j].ticketId != ids[k])
    && (forall k, l :: 0 <= k < l < |ids| ==> ids[k] != ids[l])
  }

  /**
    A row this service inserts for `unit`: a fresh pending ticket whose title is the
    item's raw title and whose QR code encodes the validation link for its own id.
   */
  predicate Minted(t: Ticket, order: Order, unit: Unit, baseUrl: string, render: string -> string) {
    && FreshTicket(t, order, unit)
    && t.ticketTitle == unit.item.title
    && t.qrCodeData == render(ValidationUrl(baseUrl, t.ticketId))
  }

  /** One pass of the inner loop: return the existing row for the computed id, or insert a new one. */
  function MintOne(db: TicketDb, order: Order, unit: Unit, e: UnitEntropy,
                   baseUrl: string, render: string -> string): (r: Batch<TicketDb>)
    ensures var id := SqliteTicketId(order, unit, e);
      && |r.tickets| == 1 && r.tickets[0].ticketId == id
      && r.store.validations == db.validations
      && (Lookup(db.tickets, id).Some? ==> r.tickets[0] == Lookup(db.tickets, id).value && r.store == db)
      && (Lookup(db.tickets, id).None? ==>
            && r.store.tickets == db.tickets + r.tickets
            && FreshTicket(r.tickets[0], order, unit)
            && r.tickets[0].ticketTitle == unit.item.title
            && r.tickets[0].qrCodeData == render(ValidationUrl(baseUrl, id))
            && r.tickets[0].id == e.recordId && r.tickets[0].createdAt == e.createdAt)
  {
    var id := SqliteTicketId(order, unit, e);
    match Lookup(db.tickets, id)
    case Some(existing) => Batch([existing], db)
    case None =>
      var t := NewTicket(order, unit, e.recordId, id, unit.item.title, baseUrl, render, e.createdAt);
      Batch([t], db.(tickets := db.tickets + [t]))
  }

  lemma MintOneKeepsUnique(db: TicketDb, order: Order, unit: Unit, e: UnitEntropy,
                           baseUrl: string, render: string -> string)
    requires UniqueTicketIds(db.tickets)
    ensures UniqueTicketIds(MintOne(db, order, unit, e, baseUrl, render).store.tickets)
  {
    var r := MintOne(db, order, unit, e, baseUrl, render);
    var id := SqliteTicketId(order, unit, e);
    if Lookup(db.tickets, id).None? {
      assert r.store.tickets[|db.tickets|].ticketId == id;
    }
  }

  /**
    Minting a unit again with the same clock and random draws computes the same id,
    finds the row the first pass returned, and changes nothing.
   */
  lemma MintOneIdempotent(db: TicketDb, order: Order, unit: Unit, e: UnitEntropy,
                          baseUrl: string, render: string -> string)
    ensures var r := MintOne(db, order, unit, e, baseUrl, render);
      MintOne(r.store, order, unit, e, baseUrl, render) == r
  {
    var r := MintOne(db, order, unit, e, baseUrl, render);
    var id := SqliteTicketId(order, unit, e);
    if Lookup(db.tickets, id).None? {
      assert r.store.tickets[|db.tickets|].ticketId == id;
      assert Lookup(r.store.tickets, id) == Some(r.tickets[0]);
    }
  }

  /** The loops of `generateTicketsForOrder` over `units`, the first using entropy `pos`. */
  function MintUnits(db: TicketDb, order: Order, units: seq<Unit>, pos: nat,
                     baseUrl: string, render: string -> string, entropy: nat -> UnitEntropy): (r: Batch<TicketDb>)
    ensures |r.tickets| == |units|
    ensures forall k :: 0 <= k < |units| ==> r.tickets[k].ticketId == SqliteTicketId(order, units[k], entropy(pos + k))
    ensures forall k :: 0 <= k < |units| ==> r.tickets[k] in r.store.tickets
    ensures |db.tickets| <= |r.store.tickets| && r.store.tickets[..|db.tickets|] == db.tickets
    ensures r.store.validations == db.validations
    ensures UniqueTicketIds(db.tickets) ==> UniqueTicketIds(r.store.tickets)
    ensures AllNew(db.tickets, UnitIds(order, units, pos, entropy)) ==>
              && r.store.tickets == db.tickets + r.tickets
              && forall k :: 0 <= k < |units| ==> Minted(r.tickets[k], order, units[k], baseUrl, render)
    decreases |units|
  {
    if |units| == 0 then Batch([], db)
    else
      var first := MintOne(db, order, units[0], entropy(pos), baseUrl, render);
      var rest := MintUnits(first.store, order, units[1..], pos + 1, baseUrl, render, entropy);
      FirstInStore(db, order, units[0], entropy(pos), baseUrl, render);
      StepIds(units, pos, (u: Unit, n: nat) => SqliteTicketId(order, u, entropy(n)), first, rest);
      StepStore(db, order, units, pos, baseUrl, render, entropy, first, rest);
      var r := Batch(first.tickets + rest.tickets, rest.store);
      if AllNew(db.tickets, UnitIds(order, units, pos, entropy)) then
        StepAllNewCase(db, order, units, pos, baseUrl, render, entropy, first);
        StepFresh(db, order, units, baseUrl, render, first, rest);
        r
      else r
  }

  /** The inductive step of `MintUnits` for the returned ids; `idOf(u, n)` is the id unit `u` computes at position `n`. */
  lemma StepIds(units: seq<Unit>, pos: nat, idOf: (Unit, nat) -> string, first: Batch<TicketDb>, rest: Batch<TicketDb>)
    requires |units| > 0 && |first.tickets| == 1 && first.tickets[0].ticketId == idOf(units[0], pos)
    requires exists j :: 0 <= j < |first.store.tickets| && first.store.tickets[j] == first.tickets[0]
    requires |rest.tickets| == |units| - 1
    requires forall k :: 0 <= k < |units| - 1 ==> rest.tickets[k].ticketId == idOf(units[1..][k], pos + 1 + k)
    requires forall k :: 0 <= k < |units| - 1 ==> rest.tickets[k] in rest.store.tickets
    requires |first.store.tickets| <= |rest.store.tickets| && rest.store.tickets[..|first.store.tickets|] == first.store.tickets
    ensures var ts := first.tickets + rest.tickets;
      && (forall k :: 0 <= k < |units| ==> ts[k].ticketId == idOf(units[k], pos + k))
      && (forall k :: 0 <= k < |units| ==> ts[k] in rest.store.tickets)
  {
    var ts := first.tickets + rest.tickets;
    var j :| 0 <= j < |first.store.tickets| && first.store.tickets[j] == first.tickets[0];
    assert rest.store.tickets[j] == first.store.tickets[j];
    forall k | 0 < k < |units|
      ensures ts[k].ticketId == idOf(units[k], pos + k)
      ensures ts[k] in rest.store.tickets
    {
      assert ts[k] == rest.tickets[k - 1];
      assert units[1..][k - 1] == units[k];
      assert pos + 1 + (k - 1) == pos + k;
    }
  }

  /** The ticket one pass returns is a row of the table it leaves behind. */
  lemma FirstInStore(db: TicketDb, order: Order, unit: Unit, e: UnitEntropy,
                     baseUrl: string, render: string -> string)
    ensures var r := MintOne(db, order, unit, e, baseUrl, render);
      exists j :: 0 <= j < |r.store.tickets| && r.store.tickets[j] == r.tickets[0]
  {
    var r := MintOne(db, order, unit, e, baseUrl, render);
    var id := SqliteTicketId(order, unit, e);
    if Lookup(db.tickets, id).None? {
      assert r.store.tickets[|db.tickets|] == r.tickets[0];
    } else {
      assert r.tickets[0] in db.tickets;
    }
  }

  /** The inductive step of `MintUnits` for the table: a growing prefix, ids kept unique. */
  lemma StepStore(db: TicketDb, order: Order, units: seq<Unit>, pos: nat,
                  baseUrl: string, render: string -> string, entropy: nat -> UnitEntropy,
                  first: Batch<TicketDb>, rest: Batch<TicketDb>)
    requires |units| > 0
    requires first == MintOne(db, order, units[0], entropy(pos), baseUrl, render)
    requires |first.store.tickets| <= |rest.store.tickets| && rest.store.tickets[..|first.store.tickets|] == first.store.tickets
    requires UniqueTicketIds(first.store.tickets) ==> UniqueTicketIds(rest.store.tickets)
    ensures |db.tickets| <= |rest.store.tickets| && rest.store.tickets[..|db.tickets|] == db.tickets
    ensures UniqueTicketIds(db.tickets) ==> UniqueTicketIds(rest.store.tickets)
  {
    assert first.store.tickets[..|db.tickets|] == db.tickets;
    assert rest.store.tickets[..|db.tickets|] == first.store.tickets[..|db.tickets|];
    if UniqueTicketIds(db.tickets) {
      MintOneKeepsUnique(db, order, units[0], entropy(pos), baseUrl, render);
    }
  }

  /** The inductive step of `MintUnits` when every computed id is new: both passes append. */
  lemma StepFresh(db: TicketDb, order: Order, units: seq<Unit>, baseUrl: string, render: string -> string,
                  first: Batch<TicketDb>, rest: Batch<TicketDb>)
    requires |units| > 0 && |first.tickets| == 1 && |rest.tickets| == |units| - 1
    requires first.store.tickets == db.tickets + first.tickets
    requires Minted(first.tickets[0], order, units[0], baseUrl, render)
    requires rest.store.tickets == first.store.tickets + rest.tickets
    requires forall k :: 0 <= k < |units[1..]| ==> Minted(rest.tickets[k], order, units[1..][k], baseUrl, render)
    ensures rest.store.tickets == db.tickets + (first.tickets + rest.tickets)
    ensures forall k :: 0 <= k < |units| ==> Minted((first.tickets + rest.tickets)[k], order, units[k], baseUrl, render)
  {
    var ts := first.tickets + rest.tickets;
    assert rest.store.tickets == (db.tickets + first.tickets) + rest.tickets;
    forall k | 0 < k < |units|
      ensures Minted(ts[k], order, units[k], baseUrl, render)
    {
      assert ts[k] == rest.tickets[k - 1];
      assert units[1..][k - 1] == units[k];
    }
  }

  /** The first pass appends when every computed id is new, and the remaining ids stay new. */
  lemma StepAllNewCase(db: TicketDb, order: Order, units: seq<Unit>, pos: nat,
                       baseUrl: string, render: string -> string, entropy: nat -> UnitEntropy,
                       first: Batch<TicketDb>)
    requires |units| > 0
    requires first == MintOne(db, order, units[0], entropy(pos), baseUrl, render)
    requires AllNew(db.tickets, UnitIds(order, units, pos, entropy))
    ensures first.store.tickets == db.tickets + first.tickets
    ensures Minted(first.tickets[0], order, units[0], baseUrl, render)
    ensures AllNew(first.store.tickets, UnitIds(order, units[1..], pos + 1, entropy))
  {
    var ids := UnitIds(order, units, pos, entropy);
    var id := SqliteTicketId(order, units[0], entropy(pos));
    assert ids[0] == id;
    var tail := UnitIds(order, units[1..], pos + 1, entropy);
    forall k | 0 <= k < |tail|
      ensures tail[k] == ids[k + 1]
    {
      assert units[1..][k] == units[k + 1];
      assert pos + 1 + k == pos + (k + 1);
    }
    forall k, j | 0 <= k < |tail| && 0 <= j < |first.store.tickets|
      ensures first.store.tickets[j].ticketId != tail[k]
    {
      if j == |db.tickets| {
        assert first.store.tickets[j].ticketId == ids[0];
      } else {
        assert first.store.tickets[j] == db.tickets[j];
      }
    }
  }

  /**
    `generateTicketsForOrder`: one ticket per unit of every line item (fee lines
    included), each carrying the id computed for it from the 10-character slug.
   */
  function GenerateTicketsForOrder(db: TicketDb, order: Order, baseUrl: string,
                                   render: string -> string, entropy: nat -> UnitEntropy): (r: Batch<TicketDb>)
    ensures |r.tickets| == TotalQuantity(order.lineItems)
    ensures forall k :: 0 <= k < |r.tickets| ==>
              r.tickets[k].ticketId == SqliteTicketId(order, Expand(order.lineItems)[k], entropy(k))
    ensures forall k :: 0 <= k < |r.tickets| ==> r.tickets[k] in r.store.tickets
    ensures |db.tickets| <= |r.store.tickets| && r.store.tickets[..|db.tickets|] == db.tickets
    ensures r.store.validations == db.validations
    ensures UniqueTicketIds(db.tickets) ==> UniqueTicketIds(r.store.tickets)
    ensures AllNew(db.tickets, UnitIds(order, Expand(order.lineItems), 0, entropy)) ==>
              && r.store.tickets == db.tickets + r.tickets
              && forall k :: 0 <= k < |r.tickets| ==> Minted(r.tickets[k], order, Expand(order.lineItems)[k], baseUrl, render)
  {
    ExpandShape(order.lineItems);
    MintUnits(db, order, Expand(order.lineItems), 0, baseUrl, render, entropy)
  }

  /** A lookup that finds a ticket in a table still finds it once rows are appended. */
  lemma LookupInPrefix(before: seq<Ticket>, after: seq<Ticket>, ticketId: string)
    requires |before| <= |after| && after[..|before|] == before
    requires Lookup(before, ticketId).Some?
    ensures Lookup(after, ticketId) == Lookup(before, ticketId)
  {
    var i := FindTicket(before, ticketId).value;
    assert after[i] == before[i];
    forall j | 0 <= j < i
      ensures after[j].ticketId != ticketId
    {
      assert after[j] == before[j];
    }
    FindIsFirst(after, ticketId, i);
  }

  lemma {:induction false} FindIsFirst(tickets: seq<Ticket>, ticketId: string, i: nat)
    requires i < |tickets| && tickets[i].ticketId == ticketId
    requires forall j :: 0 <= j < i ==> tickets[j].ticketId != ticketId
    ensures FindTicket(tickets, ticketId) == Some(i)
  {
    if i > 0 {
      FindIsFirst(tickets[1..], ticketId, i - 1);
    }
  }

  /** Each ticket in `found` is the row a lookup of its id returns from `tickets`. */
  predicate Resolves(tickets: seq<Ticket>, found: seq<Ticket>) {
    forall k :: 0 <= k < |found| ==> Lookup(tickets, found[k].ticketId) == Some(found[k])
  }

  /** The ticket one pass returns is the one a lookup of its id finds afterwards. */
  lemma MintOneFindsOwn(db: TicketDb, order: Order, unit: Unit, e: UnitEntropy,
                        baseUrl: string, render: string -> string)
    ensures var r := MintOne(db, order, unit, e, baseUrl, render);
      Resolves(r.store.tickets, r.tickets)
  {
    var r := MintOne(db, order, unit, e, baseUrl, render);
    var id := SqliteTicketId(order, unit, e);
    if Lookup(db.tickets, id).None? {
      assert r.store.tickets[|db.tickets|] == r.tickets[0];
      FindIsFirst(r.store.tickets, id, |db.tickets|);
    }
  }

  /** The inductive step of `MintUnitsLookup`: rows appended after the first pass do not shadow its ticket. */
  lemma ResolvesStep(first: Batch<TicketDb>, rest: Batch<TicketDb>)
    requires |first.tickets| == 1 && Resolves(first.store.tickets, first.tickets)
    requires Resolves(rest.store.tickets, rest.tickets)
    requires |first.store.tickets| <= |rest.store.tickets| && rest.store.tickets[..|first.store.tickets|] == first.store.tickets
    ensures Resolves(rest.store.tickets, first.tickets + rest.tickets)
  {
    var ts := first.tickets + rest.tickets;
    var t := first.tickets[0];
    assert Lookup(first.store.tickets, t.ticketId) == Some(t);
    LookupInPrefix(first.store.tickets, rest.store.tickets, t.ticketId);
    forall k | 0 <= k < |ts|
      ensures Lookup(rest.store.tickets, ts[k].ticketId) == Some(ts[k])
    {
      if k > 0 {
        assert ts[k] == rest.tickets[k - 1];
      }
    }
  }

  /** Every ticket a run returns is the one a lookup of its id finds in the table the run leaves behind. */
  lemma {:induction false} MintUnitsLookup(db: TicketDb, order: Order, units: seq<Unit>, pos: nat,
                                           baseUrl: string, render: string -> string, entropy: nat -> UnitEntropy)
    ensures var r := MintUnits(db, order, units, pos, baseUrl, render, entropy);
      Resolves(r.store.tickets, r.tickets)
    decreases |units|
  {
    if |units| > 0 {
      var first := MintOne(db, order, units[0], entropy(pos), baseUrl, render);
      var rest := MintUnits(first.store, order, units[1..], pos + 1, baseUrl, render, entropy);
      MintUnitsUnfold(db, order, units, pos, baseUrl, render, entropy);
      MintUnitsLookup(first.store, order, units[1..], pos + 1, baseUrl, render, entropy);
      MintOneFindsOwn(db, order, units[0], entropy(pos), baseUrl, render);
      ResolvesStep(first, rest);
    }
  }

  /** One step of the loop, stated once so that proofs need not unfold `MintUnits` themselves. */
  lemma MintUnitsUnfold(db: TicketDb, order: Order, units: seq<Unit>, pos: nat,
                        baseUrl: string, render: string -> string, entropy: nat -> UnitEntropy)
    requires |units| > 0
    ensures var first := MintOne(db, order, units[0], entropy(pos), baseUrl, render);
      var rest := MintUnits(first.store, order, units[1..], pos + 1, baseUrl, render, entropy);
      MintUnits(db, order, units, pos, baseUrl, render, entropy) == Batch(first.tickets + rest.tickets, rest.store)
  {
  }

  /** A pass whose id is already in the table returns that row and changes nothing. */
  lemma MintOneFound(db: TicketDb, order: Order, unit: Unit, e: UnitEntropy,
                     baseUrl: string, render: string -> string, t: Ticket)
    requires t.ticketId == SqliteTicketId(order, unit, e) && Lookup(db.tickets, t.ticketId) == Some(t)
    ensures MintOne(db, order, unit, e, baseUrl, render) == Batch([t], db)
  {
  }

  /** `found[k]` carries the id the k-th unit computes, and the table resolves each of them to it. */
  predicate FoundFor(tickets: seq<Ticket>, order: Order, units: seq<Unit>, pos: nat,
                     entropy: nat -> UnitEntropy, found: seq<Ticket>) {
    && |found| == |units|
    && Resolves(tickets, found)
    && forall k :: 0 <= k < |units| ==> found[k].ticketId == SqliteTicketId(order, units[k], entropy(pos + k))
  }

  lemma FoundForTail(tickets: seq<Ticket>, order: Order, units: seq<Unit>, pos: nat,
                     entropy: nat -> UnitEntropy, found: seq<Ticket>)
    requires |units| > 0 && FoundFor(tickets, order, units, pos, entropy, found)
    ensures FoundFor(tickets, order, units[1..], pos + 1, entropy, found[1..])
  {
    forall k | 0 <= k < |units| - 1
      ensures found[1..][k].ticketId == SqliteTicketId(order, units[1..][k], entropy(pos + 1 + k))
      ensures Lookup(tickets, found[1..][k].ticketId) == Some(found[1..][k])
    {
      assert found[1..][k] == found[k + 1] && units[1..][k] == units[k + 1];
      assert pos + 1 + k == pos + (k + 1);
    }
  }

  /** A run over units whose ids all resolve returns what the lookups find and inserts nothing. */
  lemma {:induction false} MintUnitsAgain(db: TicketDb, order: Order, units: seq<Unit>, pos: nat,
                                          baseUrl: string, render: string -> string, entropy: nat -> UnitEntropy,
                                          found: seq<Ticket>)
    requires FoundFor(db.tickets, order, units, pos, entropy, found)
    ensures MintUnits(db, order, units, pos, baseUrl, render, entropy) == Batch(found, db)
    decreases |units|
  {
    if |units| > 0 {
      FoundForTail(db.tickets, order, units, pos, entropy, found);
      MintUnitsAgain(db, order, units[1..], pos + 1, baseUrl, render, entropy, found[1..]);
      MintOneFound(db, order, units[0], entropy(pos), baseUrl, render, found[0]);
      MintUnitsUnfold(db, order, units, pos, baseUrl, render, entropy);
      Seqs.SplitHead(found);
    }
  }

  /**
    Generating an order again with the same clock and random draws computes the same
    ids, finds every ticket the first run returned, and inserts nothing.
   */
  lemma GenerateTwice(db: TicketDb, order: Order, baseUrl: string, render: string -> string,
                      entropy: nat -> UnitEntropy)
    ensures var r := GenerateTicketsForOrder(db, order, baseUrl, render, entropy);
      GenerateTicketsForOrder(r.store, order, baseUrl, render, entropy) == r
  {
    var units := Expand(order.lineItems);
    var r := GenerateTicketsForOrder(db, order, baseUrl, render, entropy);
    MintUnitsLookup(db, order, units, 0, baseUrl, render, entropy);
    MintUnitsAgain(r.store, order, units, 0, baseUrl, render, entropy, r.tickets);
  }

  // ---------------------------------------------------------------------------
  // The lifecycle.

  /** `getTicketById` */
  function GetTicketById(db: TicketDb, ticketId: string): (r: Option<Ticket>)
    ensures r.Some? <==> exists j :: 0 <= j < |db.tickets| && db.tickets[j].ticketId == ticketId
    ensures r.Some? ==> exists j :: 0 <= j < |db.tickets| && db.tickets[j] == r.value && r.value.ticketId == ticketId
                                   && forall i :: 0 <= i < j ==> db.tickets[i].ticketId != ticketId
  {
    Lookup(db.tickets, ticketId)
  }

  /** `validateTicket`: guarded on the first matching row being pending. */
  function ValidateTicket(db: TicketDb, ticketId: string, validatedBy: string, notes: Option<string>,
                          at: string, validationId: string): (r: Outcome<TicketDb>)
    ensures r.ok <==> GetTicketById(db, ticketId).Some? && GetTicketById(db, ticketId).value.status == Pending
    ensures !r.ok ==> r.store == db
    ensures r.ok ==> r.store.validations == db.validations + [Validation(validationId, ticketId, validatedBy, at, NullIfEmpty(notes))]
    ensures r.ok ==> |r.store.tickets| == |db.tickets|
    ensures r.ok ==> forall i :: 0 <= i < |db.tickets| ==>
              r.store.tickets[i] == if db.tickets[i].ticketId == ticketId
                                    then db.tickets[i].(status := Validated, validatedAt := Some(at), validatedBy := Some(validatedBy))
                                    else db.tickets[i]
  {
    match GetTicketById(db, ticketId)
    case None => Outcome(false, db)
    case Some(t) =>
      if t.status != Pending then Outcome(false, db)
      else
        var tickets := Seqs.MapWhere(db.tickets, (x: Ticket) => x.ticketId == ticketId,
                                     (x: Ticket) => StampValidated(x, at, Some(validatedBy)));
        var record := Validation(validationId, ticketId, validatedBy, at, NullIfEmpty(notes));
        Outcome(true, TicketDb(tickets, db.validations + [record]))
  }

  /** `markTicketAsUsed`: guarded on the first matching row being validated. */
  function MarkTicketAsUsed(db: TicketDb, ticketId: string, at: string): (r: Outcome<TicketDb>)
    ensures r.ok <==> GetTicketById(db, ticketId).Some? && GetTicketById(db, ticketId).value.status == Validated
    ensures !r.ok ==> r.store == db
    ensures r.store.validations == db.validations
    ensures |r.store.tickets| == |db.tickets|
    ensures r.ok ==> forall i :: 0 <= i < |db.tickets| ==>
              r.store.tickets[i] == if db.tickets[i].ticketId == ticketId
                                    then db.tickets[i].(status := Used, usedAt := Some(at))
                                    else db.tickets[i]
  {
    match GetTicketById(db, ticketId)
    case None => Outcome(false, db)
    case Some(t) =>
      if t.status != Validated then Outcome(false, db)
      else
        var tickets := Seqs.MapWhere(db.tickets, (x: Ticket) => x.ticketId == ticketId,
                                     (x: Ticket) => StampUsed(x, at));
        Outcome(true, db.(tickets := tickets))
  }

  /** A validated ticket cannot be validated again, but can now be used. */
  lemma ValidateThenUse(db: TicketDb, ticketId: string, validatedBy: string, notes: Option<string>,
                        at: string, validationId: string, at2: string, validationId2: string)
    requires ValidateTicket(db, ticketId, validatedBy, notes, at, validationId).ok
    ensures var db1 := ValidateTicket(db, ticketId, validatedBy, notes, at, validationId).store;
      && !ValidateTicket(db1, ticketId, validatedBy, notes, at2, validationId2).ok
      && MarkTicketAsUsed(db1, ticketId, at2).ok
  {
    var db1 := ValidateTicket(db, ticketId, validatedBy, notes, at, validationId).store;
    var j :| 0 <= j < |db.tickets| && db.tickets[j] == GetTicketById(db, ticketId).value
             && forall i :: 0 <= i < j ==> db.tickets[i].ticketId != ticketId;
    assert db1.tickets[j].ticketId == ticketId && db1.tickets[j].status == Validated;
    var found := GetTicketById(db1, ticketId).value;
    var j1 :| 0 <= j1 < |db1.tickets| && db1.tickets[j1] == found
              && forall i :: 0 <= i < j1 ==> db1.tickets[i].ticketId != ticketId;
    assert j1 <= j;
    assert db1.tickets[j1].status == Validated;
  }

  /** A used ticket cannot be used again: the second scan is refused and changes nothing. */
  lemma UseTwiceRefused(db: TicketDb, ticketId: string, at: string, at2: string)
    requires MarkTicketAsUsed(db, ticketId, at).ok
    ensures var db1 := MarkTicketAsUsed(db, ticketId, at).store;
      && !MarkTicketAsUsed(db1, ticketId, at2).ok
      && MarkTicketAsUsed(db1, ticketId, at2).store == db1
  {
    var db1 := MarkTicketAsUsed(db, ticketId, at).store;
    var j :| 0 <= j < |db.tickets| && db.tickets[j] == GetTicketById(db, ticketId).value
             && forall i :: 0 <= i < j ==> db.tickets[i].ticketId != ticketId;
    assert db1.tickets[j].ticketId == ticketId;
    var found := GetTicketById(db1, ticketId).value;
    var j1 :| 0 <= j1 < |db1.tickets| && db1.tickets[j1] == found
              && forall i :: 0 <= i < j1 ==> db1.tickets[i].ticketId != ticketId;
    assert j1 <= j;
    assert db1.tickets[j1].status == Used;
  }

  /**
    With unique ticket ids both transitions only move statuses forward along
    `pending -> validated -> used`.
   */
  lemma TransitionsAreLegal(db: TicketDb, ticketId: string, validatedBy: string, notes: Option<string>,
                            at: string, validationId: string)
    requires UniqueTicketIds(db.tickets)
    ensures LegalStore(db.tickets, ValidateTicket(db, ticketId, validatedBy, notes, at, validationId).store.tickets)
    ensures LegalStore(db.tickets, MarkTicketAsUsed(db, ticketId, at).store.tickets)
  {
    var v := ValidateTicket(db, ticketId, validatedBy, notes, at, validationId);
    if v.ok {
      var j :| 0 <= j < |db.tickets| && db.tickets[j] == GetTicketById(db, ticketId).value;
      forall i | 0 <= i < |db.tickets| && db.tickets[i].ticketId == ticketId
        ensures i == j
      {
      }
    }
    var m := MarkTicketAsUsed(db, ticketId, at);
    if m.ok {
      var j :| 0 <= j < |db.tickets| && db.tickets[j] == GetTicketById(db, ticketId).value;
      forall i | 0 <= i < |db.tickets| && db.tickets[i].ticketId == ticketId
        ensures i == j
      {
      }
    }
  }

  // ---------------------------------------------------------------------------
  // Statistics and search.

  /** `getStats`: one `COUNT(*)` per status plus the validation count. */
  function GetStats(db: TicketDb): (r: Stats)
    ensures r.total == |db.tickets| && r.totalValidations == |db.validations|
    ensures r.pending + r.validated + r.used + r.expired == r.total
    ensures r.pending == CountStatus(StatusesOf(db.tickets), Pending)
    ensures r.validated == CountStatus(StatusesOf(db.tickets), Validated)
    ensures r.used == CountStatus(StatusesOf(db.tickets), Used)
    ensures r.expired == CountStatus(StatusesOf(db.tickets), Expired)
  {
    Tally(StatusesOf(db.tickets), |db.validations|)
  }

  /** The `WHERE` clause `searchTickets` assembles; an empty filter (or order number 0) adds nothing. */
  predicate TicketMatches(f: Filters, t: Ticket) {
    && (f.status == "" || StatusName(t.status) == f.status)
    && (f.customerEmail == "" || SqlLike.Like(t.customerEmail, "%" + f.customerEmail + "%"))
    && (f.orderNumber == 0 || t.orderNumber == f.orderNumber)
    && (f.dateFrom == "" || StrLe(f.dateFrom, t.createdAt))
    && (f.dateTo == "" || StrLe(t.createdAt, f.dateTo))
  }

  /** `searchTickets`: the matching rows, newest `createdAt` first. */
  function SearchTickets(db: TicketDb, f: Filters): (r: seq<Ticket>)
    ensures forall t :: t in r <==> t in db.tickets && TicketMatches(f, t)
    ensures multiset(r) == multiset(Seqs.Filter(db.tickets, (t: Ticket) => TicketMatches(f, t)))
    ensures SortedDesc(r, (t: Ticket) => t.createdAt)
  {
    SelectDesc(db.tickets, (t: Ticket) => TicketMatches(f, t), (t: Ticket) => t.createdAt)
  }

  /**
    With no filters every row comes back; an e-mail filter free of `%` and `_` keeps
    exactly the rows whose address contains it, ignoring ASCII case.
   */
  lemma SearchFilters(db: TicketDb, f: Filters)
    ensures f == NoFilters ==> multiset(SearchTickets(db, f)) == multiset(db.tickets)
    ensures f.customerEmail != "" && SqlLike.NoWildcards(f.customerEmail) ==>
              forall t :: t in SearchTickets(db, f) ==> SqlLike.ContainsIgnoringCase(t.customerEmail, f.customerEmail)
  {
    if f == NoFilters {
      Seqs.FilterAll(db.tickets, (t: Ticket) => TicketMatches(f, t));
    }
    if f.customerEmail != "" && SqlLike.NoWildcards(f.customerEmail) {
      forall t | t in SearchTickets(db, f)
        ensures SqlLike.ContainsIgnoringCase(t.customerEmail, f.customerEmail)
      {
        SqlLike.LikeContains(t.customerEmail, f.customerEmail);
      }
    }
  }
}

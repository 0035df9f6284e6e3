/**
  What every ticket service does with an order before it touches a store: drop fee
  lines (JSON-file and Supabase services only), expand each line item of quantity N
  into N admission units numbered 1..N, and fill in the fields a freshly minted
  ticket carries.
 */
module Minting {
  import opened Wrappers
  import opened Text
  import Seqs
  import opened Tickets
  import opened TicketIds

  datatype LineItem = LineItem(title: string, quantity: int, price: string)

  /** The options `generateTicketsForOrder` receives, minus the QR image styling. */
  datatype Order = Order(orderId: int, orderNumber: int, customerEmail: string, lineItems: seq<LineItem>, currency: string)

  /**
    What the clock and the random generator produce while one unit is minted:
    `Date.now()` (rendered in base 36 inside the ticket id), the four-character
    `Math.random` suffix, the record id of the JSON-file and SQLite services, the
    random draws of the Supabase UUID, and `new Date().toISOString()`.
   */
  datatype UnitEntropy = UnitEntropy(clock: nat, random: string, recordId: string, uuid: Nibbles, createdAt: string)

  /** `Math.random().toString(36).substr(2, 4)` only ever yields `[a-z0-9]`. */
  predicate WellFormedEntropy(e: UnitEntropy) {
    forall c :: c in e.random ==> IsLowerAlnum(c)
  }

  /** One admission: the line item it comes from and its 1-based position within that item. */
  datatype Unit = Unit(item: LineItem, index: nat)

  /** How often `for (let i = 0; i < quantity; i++)` runs. */
  function UnitCount(quantity: int): nat {
    if quantity <= 0 then 0 else quantity
  }

  function ExpandItem(item: LineItem): (r: seq<Unit>)
    ensures |r| == UnitCount(item.quantity)
    ensures forall k :: 0 <= k < |r| ==> r[k] == Unit(item, k + 1)
  {
    seq(UnitCount(item.quantity), k requires 0 <= k < UnitCount(item.quantity) => Unit(item, k + 1))
  }

  /** The sum of the (non-negative parts of the) quantities. */
  function TotalQuantity(items: seq<LineItem>): nat {
    if |items| == 0 then 0 else UnitCount(items[0].quantity) + TotalQuantity(items[1..])
  }

  /** The units of all line items, in line-item order: one per unit of quantity. */
  function Expand(items: seq<LineItem>): (r: seq<Unit>)
    ensures |r| == TotalQuantity(items)
  {
    if |items| == 0 then [] else ExpandItem(items[0]) + Expand(items[1..])
  }

  /**
    Every unit points back at a line item of the order, with an index between 1
    and that item's quantity.
   */
  lemma {:induction false} ExpandShape(items: seq<LineItem>)
    ensures forall u :: u in Expand(items) ==> u.item in items && 1 <= u.index <= u.item.quantity
  {
    if |items| > 0 {
      ExpandShape(items[1..]);
      forall u | u in Expand(items)
        ensures u.item in items && 1 <= u.index <= u.item.quantity
      {
        if u in ExpandItem(items[0]) {
          var k :| 0 <= k < |ExpandItem(items[0])| && ExpandItem(items[0])[k] == u;
        } else {
          assert u in Expand(items[1..]);
          assert u.item in items[1..];
        }
      }
    }
  }

  lemma {:induction false} ExpandConcat(a: seq<LineItem>, b: seq<LineItem>)
    ensures Expand(a + b) == Expand(a) + Expand(b)
    ensures TotalQuantity(a + b) == TotalQuantity(a) + TotalQuantity(b)
  {
    if |a| == 0 {
      assert a + b == b;
    } else {
      assert (a + b)[1..] == a[1..] + b;
      ExpandConcat(a[1..], b);
    }
  }

  // ---------------------------------------------------------------------------
  // The fee filter of the JSON-file and Supabase services.

  /** A line is a fee when its lower-cased title mentions "service", "frais" or "charge". */
  predicate IsFeeItem(title: string) {
    var t := Lower(title);
    Contains(t, "service") || Contains(t, "frais") || Contains(t, "charge")
  }

  /** The line items that become tickets. */
  function SeatItems(items: seq<LineItem>): (r: seq<LineItem>)
    ensures forall item :: item in r <==> item in items && !IsFeeItem(item.title)
  {
    Seqs.Filter(items, (item: LineItem) => !IsFeeItem(item.title))
  }

  /**
    Dropping fee lines never adds units, drops none when no line is a fee, and
    drops some as soon as a fee line has a positive quantity.
   */
  lemma {:induction false} SeatQuantity(items: seq<LineItem>)
    ensures TotalQuantity(SeatItems(items)) <= TotalQuantity(items)
    ensures (forall i :: 0 <= i < |items| ==> !IsFeeItem(items[i].title))
            ==> TotalQuantity(SeatItems(items)) == TotalQuantity(items)
    ensures (exists i :: 0 <= i < |items| && IsFeeItem(items[i].title) && items[i].quantity > 0)
            ==> TotalQuantity(SeatItems(items)) < TotalQuantity(items)
  {
    if |items| > 0 {
      var p := (item: LineItem) => !IsFeeItem(item.title);
      var rest := items[1..];
      assert items == [items[0]] + rest;
      Seqs.FilterConcat([items[0]], rest, p);
      var head := Seqs.Filter([items[0]], p);
      assert [items[0]][1..] == [];
      assert head == if p(items[0]) then [items[0]] else [];
      ExpandConcat(head, SeatItems(rest));
      SeatQuantity(rest);
      if exists i :: 0 <= i < |items| && IsFeeItem(items[i].title) && items[i].quantity > 0 {
        var i :| 0 <= i < |items| && IsFeeItem(items[i].title) && items[i].quantity > 0;
        if i > 0 {
          assert rest[i - 1] == items[i];
        }
      }
    }
  }

  /** A fee line as the shop sends it is recognised whatever its capitalisation. */
  lemma FeeTitleRecognised()
    ensures IsFeeItem("Service charges")
  {
    var t := Lower("Service charges");
    assert t[8..14] == "charge";
    assert OccursAt(t, "charge", 8);
  }

  /** The admission units of the non-fee lines, in order. */
  function SeatUnits(order: Order): (r: seq<Unit>)
    ensures |r| == TotalQuantity(SeatItems(order.lineItems))
    ensures forall u :: u in r ==> u.item in order.lineItems && !IsFeeItem(u.item.title)
  {
    ExpandShape(SeatItems(order.lineItems));
    Expand(SeatItems(order.lineItems))
  }

  // ---------------------------------------------------------------------------
  // The ticket a service mints for one unit.

  /**
    What every freshly minted ticket carries: the order's identity, quantity 1, the
    line item's unit price (not divided), status pending, and no lifecycle stamps.
   */
  predicate FreshTicket(t: Ticket, order: Order, unit: Unit) {
    && t.orderId == order.orderId && t.orderNumber == order.orderNumber
    && t.customerEmail == order.customerEmail && t.currency == order.currency
    && t.quantity == 1 && t.price == unit.item.price
    && t.status == Pending
    && t.validatedAt == None && t.usedAt == None && t.validatedBy == None
  }

  /** The ticket object built for `unit`, given its identifiers, title and QR renderer. */
  function NewTicket(order: Order, unit: Unit, id: string, ticketId: string, title: string,
                     baseUrl: string, render: string -> string, createdAt: string): (t: Ticket)
    ensures FreshTicket(t, order, unit)
    ensures t.id == id && t.ticketId == ticketId && t.ticketTitle == title && t.createdAt == createdAt
    ensures t.qrCodeData == render(ValidationUrl(baseUrl, ticketId))
  {
    Ticket(id, order.orderId, order.orderNumber, ticketId, order.customerEmail, title, 1,
           unit.item.price, order.currency, render(ValidationUrl(baseUrl, ticketId)), Pending,
           createdAt, None, None, None)
  }

  /** The ticket id the JSON-file and Supabase services compute for a unit. */
  function CleanTicketId(order: Order, unit: Unit, e: UnitEntropy): string {
    TicketId(order.orderNumber, CleanSlug(unit.item.title), unit.index, e.clock, e.random)
  }

  /** The ticket id the SQLite service computes for a unit. */
  function SqliteTicketId(order: Order, unit: Unit, e: UnitEntropy): string {
    TicketId(order.orderNumber, SqliteSlug(unit.item.title), unit.index, e.clock, e.random)
  }

  /** The batch of tickets a service returns and the store it leaves behind. */
  datatype Batch<S> = Batch(tickets: seq<Ticket>, store: S)
}

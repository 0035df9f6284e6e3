/**
  The per-order QR-code store of lib/database-sqlite.ts: a `qrcodes` table whose
  `id` is the primary key and whose `orderNumber` is unique, and a `validations`
  table whose `qrCodeId` refers to a QR code. Statements run one at a time with no
  surrounding transaction; a statement that violates a constraint throws and
  changes nothing, but the statements before it stay applied.
 */
module QrCodeStore {
  import opened Wrappers
  import Seqs
  import opened Tickets
  import opened Ordering
  import SqlLike

  /** One row of `qrcodes`. NULL columns are None. */
  datatype QrCode = QrCode(
    id: string,
    orderId: int,
    orderNumber: int,
    customerEmail: string,
    qrCodeData: string,
    status: Status,
    createdAt: string,
    validatedAt: Option<string>,
    usedAt: Option<string>,
    validatedBy: Option<string>)

  /** What `createQRCode` receives: a QR code without its id and creation time. */
  datatype QrInput = QrInput(
    orderId: int,
    orderNumber: int,
    customerEmail: string,
    qrCodeData: string,
    status: Status,
    validatedAt: Option<string>,
    usedAt: Option<string>,
    validatedBy: Option<string>)

  /** `Partial<QRCodeData>`: None is a key the caller left out. */
  datatype QrPatch = QrPatch(
    id: Option<string>,
    orderId: Option<int>,
    orderNumber: Option<int>,
    customerEmail: Option<string>,
    qrCodeData: Option<string>,
    status: Option<Status>,
    createdAt: Option<string>,
    validatedAt: Option<string>,
    usedAt: Option<string>,
    validatedBy: Option<string>)

  /** One row of `validations`. */
  datatype QrValidation = QrValidation(id: string, qrCodeId: string, validatedBy: string, validatedAt: string, notes: Option<string>)

  /** Both tables, rows in insertion order. */
  datatype QrDb = QrDb(codes: seq<QrCode>, validations: seq<QrValidation>)

  /** How a call ends: it returns a value, or a statement throws on a constraint violation. */
  datatype Result<T> = Returned(value: T) | Threw

  /** A call's result and the tables it leaves behind. */
  datatype Call<T> = Call(result: Result<T>, store: QrDb)

  // ---------------------------------------------------------------------------
  // The schema.

  predicate HasId(codes: seq<QrCode>, id: string) {
    exists j :: 0 <= j < |codes| && codes[j].id == id
  }

  predicate HasOrderNumber(codes: seq<QrCode>, orderNumber: int) {
    exists j :: 0 <= j < |codes| && codes[j].orderNumber == orderNumber
  }

  predicate HasValidationId(validations: seq<QrValidation>, id: string) {
    exists j :: 0 <= j < |validations| && validations[j].id == id
  }

  /**
    What the constraints guarantee of every table the store can reach: unique QR-code
    ids, unique order numbers, unique validation ids, and every validation referring
    to an existing QR code. The status column's check holds by construction of `Status`.
   */
  predicate SchemaOk(db: QrDb) {
    && (forall i, j :: 0 <= i < j < |db.codes| ==> db.codes[i].id != db.codes[j].id)
    && (forall i, j :: 0 <= i < j < |db.codes| ==> db.codes[i].orderNumber != db.codes[j].orderNumber)
    && (forall i, j :: 0 <= i < j < |db.validations| ==> db.validations[i].id != db.validations[j].id)
    && (forall k :: 0 <= k < |db.validations| ==> HasId(db.codes, db.validations[k].qrCodeId))
  }

  // ---------------------------------------------------------------------------
  // Reads.

  function IdIs(id: string): QrCode -> bool {
    (c: QrCode) => c.id == id
  }

  function OrderNumberIs(orderNumber: int): QrCode -> bool {
    (c: QrCode) => c.orderNumber == orderNumber
  }

  /** `getQRCodeById`: the row with the id, or null. */
  function GetQRCodeById(db: QrDb, id: string): (r: Option<QrCode>)
    ensures r.Some? <==> HasId(db.codes, id)
    ensures r.Some? ==> r.value.id == id && r.value in db.codes
  {
    match Seqs.Find(db.codes, IdIs(id))
    case None => None
    case Some(i) => Some(db.codes[i])
  }

  /** `getQRCodeByOrderNumber`: the row with the order number, or null. */
  function GetQRCodeByOrderNumber(db: QrDb, orderNumber: int): (r: Option<QrCode>)
    ensures r.Some? <==> HasOrderNumber(db.codes, orderNumber)
    ensures r.Some? ==> r.value.orderNumber == orderNumber && r.value in db.codes
  {
    match Seqs.Find(db.codes, OrderNumberIs(orderNumber))
    case None => None
    case Some(i) => Some(db.codes[i])
  }

  /** `getQRCodes`: every row, newest `createdAt` first. */
  function GetQRCodes(db: QrDb): (r: seq<QrCode>)
    ensures multiset(r) == multiset(db.codes)
    ensures SortedDesc(r, (c: QrCode) => c.createdAt)
  {
    SortDesc(db.codes, (c: QrCode) => c.createdAt)
  }

  /** `getValidations`: every audit row, newest `validatedAt` first. */
  function GetValidations(db: QrDb): (r: seq<QrValidation>)
    ensures multiset(r) == multiset(db.validations)
    ensures SortedDesc(r, (v: QrValidation) => v.validatedAt)
  {
    SortDesc(db.validations, (v: QrValidation) => v.validatedAt)
  }

  // ---------------------------------------------------------------------------
  // createQRCode

  /** The row the INSERT writes: the input, with `|| null` on the optional columns. */
  function Inserted(input: QrInput, id: string, createdAt: string): QrCode {
    QrCode(id, input.orderId, input.orderNumber, input.customerEmail, input.qrCodeData, input.status, createdAt,
           NullIfEmpty(input.validatedAt), NullIfEmpty(input.usedAt), NullIfEmpty(input.validatedBy))
  }

  /** The input part of a row: everything but the id and the creation time. */
  function InputOf(c: QrCode): QrInput {
    QrInput(c.orderId, c.orderNumber, c.customerEmail, c.qrCodeData, c.status, c.validatedAt, c.usedAt, c.validatedBy)
  }

  /**
    `createQRCode` with the generated `id` and `createdAt`: the INSERT throws when the
    id or the order number is taken; otherwise the new row is appended and returned.
   */
  function CreateQRCode(db: QrDb, input: QrInput, id: string, createdAt: string): (r: Call<QrCode>)
    ensures r.result.Threw? <==> HasId(db.codes, id) || HasOrderNumber(db.codes, input.orderNumber)
    ensures r.result.Threw? ==> r.store == db
    ensures r.result.Returned? ==>
      && r.result.value.id == id && r.result.value.createdAt == createdAt
      && InputOf(r.result.value) == input.(validatedAt := NullIfEmpty(input.validatedAt), usedAt := NullIfEmpty(input.usedAt),
                                           validatedBy := NullIfEmpty(input.validatedBy))
      && r.store == db.(codes := db.codes + [r.result.value])
    ensures SchemaOk(db) ==> SchemaOk(r.store)
  {
    if HasId(db.codes, id) || HasOrderNumber(db.codes, input.orderNumber) then Call(Threw, db)
    else
      var c := Inserted(input, id, createdAt);
      var after := db.(codes := db.codes + [c]);
      assert SchemaOk(db) ==> SchemaOk(after) by {
        if SchemaOk(db) {
          AppendCodeKeepsSchema(db, c);
        }
      }
      Call(Returned(c), after)
  }

  lemma AppendCodeKeepsSchema(db: QrDb, c: QrCode)
    requires SchemaOk(db) && !HasId(db.codes, c.id) && !HasOrderNumber(db.codes, c.orderNumber)
    ensures SchemaOk(db.(codes := db.codes + [c]))
  {
    var codes := db.codes + [c];
    forall k | 0 <= k < |db.validations|
      ensures HasId(codes, db.validations[k].qrCodeId)
    {
      var j :| 0 <= j < |db.codes| && db.codes[j].id == db.validations[k].qrCodeId;
      assert codes[j] == db.codes[j];
    }
  }

  /**
    The row `createQRCode` returns is the one a read finds, by id and by order
    number, and a second create for the same order throws.
   */
  lemma CreateThenGet(db: QrDb, input: QrInput, id: string, createdAt: string, id2: string, createdAt2: string)
    requires CreateQRCode(db, input, id, createdAt).result.Returned?
    ensures var r := CreateQRCode(db, input, id, createdAt);
      && GetQRCodeById(r.store, id) == Some(r.result.value)
      && GetQRCodeByOrderNumber(r.store, input.orderNumber) == Some(r.result.value)
      && CreateQRCode(r.store, input, id2, createdAt2).result.Threw?
  {
    var r := CreateQRCode(db, input, id, createdAt);
    var n := |db.codes|;
    assert r.store.codes[n] == r.result.value;
    assert Seqs.Find(r.store.codes, IdIs(id)) == Some(n);
    assert Seqs.Find(r.store.codes, OrderNumberIs(input.orderNumber)) == Some(n);
  }

  // ---------------------------------------------------------------------------
  // updateQRCode

  /**
    `{ ...current, ...updates }` as the UPDATE writes it: the supplied fields win,
    the id and the creation time are never written, and `|| null` applies to the
    optional columns.
   */
  function Merge(current: QrCode, patch: QrPatch): QrCode {
    QrCode(current.id,
           patch.orderId.GetOr(current.orderId),
           patch.orderNumber.GetOr(current.orderNumber),
           patch.customerEmail.GetOr(current.customerEmail),
           patch.qrCodeData.GetOr(current.qrCodeData),
           patch.status.GetOr(current.status),
           current.createdAt,
           NullIfEmpty(if patch.validatedAt.Some? then patch.validatedAt else current.validatedAt),
           NullIfEmpty(if patch.usedAt.Some? then patch.usedAt else current.usedAt),
           NullIfEmpty(if patch.validatedBy.Some? then patch.validatedBy else current.validatedBy))
  }

  /** Another row than the `i`-th already carries `orderNumber`. */
  predicate OrderNumberTakenElsewhere(codes: seq<QrCode>, i: nat, orderNumber: int) {
    exists j :: 0 <= j < |codes| && j != i && codes[j].orderNumber == orderNumber
  }

  /**
    `updateQRCode`: null for an unknown id; otherwise the merged row replaces the
    stored one and is returned, unless its order number belongs to another row,
    in which case the UPDATE throws.
   */
  function UpdateQRCode(db: QrDb, id: string, patch: QrPatch): (r: Call<Option<QrCode>>)
    ensures !HasId(db.codes, id) ==> r == Call(Returned(None), db)
    ensures r.result.Threw? || r.result == Returned(None) ==> r.store == db
    ensures HasId(db.codes, id) ==>
      var i := Seqs.Find(db.codes, IdIs(id)).value;
      var merged := Merge(db.codes[i], patch);
      && (r.result.Threw? <==> OrderNumberTakenElsewhere(db.codes, i, merged.orderNumber))
      && (r.result.Returned? ==> r.result.value == Some(merged) && r.store == db.(codes := db.codes[i := merged]))
    ensures r.result.Returned? && r.result.value.Some? ==>
      && r.result.value.value.id == id
      && GetQRCodeById(r.store, id) == r.result.value
    ensures SchemaOk(db) ==> SchemaOk(r.store)
  {
    match Seqs.Find(db.codes, IdIs(id))
    case None => Call(Returned(None), db)
    case Some(i) =>
      var merged := Merge(db.codes[i], patch);
      if OrderNumberTakenElsewhere(db.codes, i, merged.orderNumber) then Call(Threw, db)
      else
        var after := db.(codes := db.codes[i := merged]);
        RewriteKeepsLookup(db.codes, i, merged);
        assert SchemaOk(db) ==> SchemaOk(after) by {
          if SchemaOk(db) {
            RewriteKeepsSchema(db, i, merged);
          }
        }
        Call(Returned(Some(merged)), after)
  }

  /** Rewriting the first row with an id by a row with the same id keeps it the row a read finds. */
  lemma RewriteKeepsLookup(codes: seq<QrCode>, i: nat, c: QrCode)
    requires Seqs.Find(codes, IdIs(c.id)) == Some(i)
    ensures Seqs.Find(codes[i := c], IdIs(c.id)) == Some(i)
  {
    assert codes[i := c][i] == c;
  }

  lemma RewriteKeepsSchema(db: QrDb, i: nat, c: QrCode)
    requires SchemaOk(db) && i < |db.codes| && c.id == db.codes[i].id
    requires !OrderNumberTakenElsewhere(db.codes, i, c.orderNumber)
    ensures SchemaOk(db.(codes := db.codes[i := c]))
  {
    var codes := db.codes[i := c];
    forall k | 0 <= k < |db.validations|
      ensures HasId(codes, db.validations[k].qrCodeId)
    {
      var j :| 0 <= j < |db.codes| && db.codes[j].id == db.validations[k].qrCodeId;
      assert codes[j].id == db.codes[j].id;
    }
  }

  /** A patch's `id` and `createdAt` are ignored: neither column is ever rewritten. */
  lemma UpdateIgnoresIdAndCreatedAt(db: QrDb, id: string, patch: QrPatch)
    ensures UpdateQRCode(db, id, patch) == UpdateQRCode(db, id, patch.(id := None, createdAt := None))
  {
  }

  /** Applying the same patch twice changes nothing the second time. */
  lemma UpdateIdempotent(db: QrDb, id: string, patch: QrPatch)
    requires UpdateQRCode(db, id, patch).result.Returned? && UpdateQRCode(db, id, patch).result.value.Some?
    ensures var r := UpdateQRCode(db, id, patch);
      UpdateQRCode(r.store, id, patch) == r
  {
    var r := UpdateQRCode(db, id, patch);
    var i := Seqs.Find(db.codes, IdIs(id)).value;
    var merged := r.result.value.value;
    assert Merge(merged, patch) == merged;
    assert Seqs.Find(r.store.codes, IdIs(id)) == Some(i);
    assert !OrderNumberTakenElsewhere(r.store.codes, i, merged.orderNumber) by {
      forall j | 0 <= j < |r.store.codes| && j != i
        ensures r.store.codes[j].orderNumber != merged.orderNumber
      {
        assert r.store.codes[j] == db.codes[j];
      }
    }
  }

  // ---------------------------------------------------------------------------
  // validateQRCode and markQRCodeAsUsed

  function ValidatePatch(validatedAt: string, validatedBy: string): QrPatch {
    QrPatch(None, None, None, None, None, Some(Validated), None, Some(validatedAt), None, Some(validatedBy))
  }

  function UsePatch(usedAt: string): QrPatch {
    QrPatch(None, None, None, None, None, Some(Used), None, None, Some(usedAt), None)
  }

  /**
    `validateQRCode` with the time `validatedAt` and the generated `validationId`:
    a QR code that is not pending is refused; otherwise it is stamped and one audit
    row is inserted. The two statements run without a transaction, so an audit id
    that is taken makes the call throw after the QR code was already stamped.
   */
  function ValidateQRCode(db: QrDb, id: string, validatedBy: string, notes: Option<string>,
                          validatedAt: string, validationId: string): (r: Call<bool>)
    ensures !(GetQRCodeById(db, id).Some? && GetQRCodeById(db, id).value.status == Pending) ==>
      r == Call(Returned(false), db)
    ensures SchemaOk(db) && GetQRCodeById(db, id).Some? && GetQRCodeById(db, id).value.status == Pending ==>
      var stamped := Merge(GetQRCodeById(db, id).value, ValidatePatch(validatedAt, validatedBy));
      && GetQRCodeById(r.store, id) == Some(stamped)
      && r.store.codes == db.codes[Seqs.Find(db.codes, IdIs(id)).value := stamped]
      && (r.result.Threw? <==> HasValidationId(db.validations, validationId))
      && (r.result.Threw? ==> r.store.validations == db.validations)
      && (r.result.Returned? ==>
            && r.result.value
            && r.store.validations == db.validations + [QrValidation(validationId, id, validatedBy, validatedAt, NullIfEmpty(notes))])
    ensures SchemaOk(db) ==> SchemaOk(r.store)
  {
    match GetQRCodeById(db, id)
    case None => Call(Returned(false), db)
    case Some(c) =>
      if c.status != Pending then Call(Returned(false), db)
      else
        var u := UpdateQRCode(db, id, ValidatePatch(validatedAt, validatedBy));
        match u.result
        case Threw => Call(Threw, u.store)
        case Returned(None) => Call(Returned(false), u.store)
        case Returned(Some(_)) =>
          if HasValidationId(u.store.validations, validationId) then Call(Threw, u.store)
          else
            var audit := QrValidation(validationId, id, validatedBy, validatedAt, NullIfEmpty(notes));
            var after := u.store.(validations := u.store.validations + [audit]);
            assert SchemaOk(u.store) ==> SchemaOk(after) by {
              if SchemaOk(u.store) {
                AppendAuditKeepsSchema(u.store, audit);
              }
            }
            Call(Returned(true), after)
  }

  lemma AppendAuditKeepsSchema(db: QrDb, v: QrValidation)
    requires SchemaOk(db) && !HasValidationId(db.validations, v.id) && HasId(db.codes, v.qrCodeId)
    ensures SchemaOk(db.(validations := db.validations + [v]))
  {
    var vs := db.validations + [v];
    forall k | 0 <= k < |vs|
      ensures HasId(db.codes, vs[k].qrCodeId)
    {
      if k < |db.validations| {
        assert vs[k] == db.validations[k];
      }
    }
  }

  /** `markQRCodeAsUsed` with the time `usedAt`: only a validated QR code is marked used. */
  function MarkQRCodeAsUsed(db: QrDb, id: string, usedAt: string): (r: Call<bool>)
    ensures !(GetQRCodeById(db, id).Some? && GetQRCodeById(db, id).value.status == Validated) ==>
      r == Call(Returned(false), db)
    ensures SchemaOk(db) && GetQRCodeById(db, id).Some? && GetQRCodeById(db, id).value.status == Validated ==>
      var used := Merge(GetQRCodeById(db, id).value, UsePatch(usedAt));
      && r.result == Returned(true)
      && GetQRCodeById(r.store, id) == Some(used)
      && r.store == db.(codes := db.codes[Seqs.Find(db.codes, IdIs(id)).value := used])
    ensures SchemaOk(db) ==> SchemaOk(r.store)
  {
    match GetQRCodeById(db, id)
    case None => Call(Returned(false), db)
    case Some(c) =>
      if c.status != Validated then Call(Returned(false), db)
      else
        var u := UpdateQRCode(db, id, UsePatch(usedAt));
        match u.result
        case Threw => Call(Threw, u.store)
        case Returned(updated) => Call(Returned(updated.Some?), u.store)
  }

  /** In a well-formed store, neither transition can trip the order-number constraint. */
  lemma SameOrderNumberNeverClashes(db: QrDb, i: nat, c: QrCode)
    requires SchemaOk(db) && i < |db.codes| && c.orderNumber == db.codes[i].orderNumber
    ensures !OrderNumberTakenElsewhere(db.codes, i, c.orderNumber)
  {
  }

  /**
    The stamps a validation leaves: status validated, the time and the validator,
    except that an empty validator name is stored as NULL on the QR code while the
    audit row keeps the empty string.
   */
  lemma ValidateStamps(db: QrDb, id: string, validatedBy: string, notes: Option<string>,
                       validatedAt: string, validationId: string)
    requires SchemaOk(db) && GetQRCodeById(db, id).Some? && GetQRCodeById(db, id).value.status == Pending
    requires validatedAt != "" && !HasValidationId(db.validations, validationId)
    ensures var r := ValidateQRCode(db, id, validatedBy, notes, validatedAt, validationId);
      var after := GetQRCodeById(r.store, id).value;
      && r.result == Returned(true)
      && after.status == Validated && after.validatedAt == Some(validatedAt)
      && (after.validatedBy == None <==> validatedBy == "")
      && r.store.validations[|db.validations|].validatedBy == validatedBy
      && r.store.validations[|db.validations|].qrCodeId == id
      && r.store.validations[|db.validations|].validatedAt == validatedAt
  {
  }

  /**
    A pending QR code with a free audit id goes through the whole lifecycle once:
    it cannot be used before it is validated, it is validated once, and used once.
   */
  lemma Lifecycle(db: QrDb, id: string, validatedBy: string, notes: Option<string>, t1: string, t2: string,
                  t3: string, t4: string, validationId: string, validationId2: string)
    requires SchemaOk(db) && GetQRCodeById(db, id).Some? && GetQRCodeById(db, id).value.status == Pending
    requires !HasValidationId(db.validations, validationId)
    ensures MarkQRCodeAsUsed(db, id, t1) == Call(Returned(false), db)
    ensures var v := ValidateQRCode(db, id, validatedBy, notes, t2, validationId);
      && v.result == Returned(true)
      && ValidateQRCode(v.store, id, validatedBy, notes, t3, validationId2) == Call(Returned(false), v.store)
      && MarkQRCodeAsUsed(v.store, id, t3).result == Returned(true)
      && MarkQRCodeAsUsed(MarkQRCodeAsUsed(v.store, id, t3).store, id, t4)
           == Call(Returned(false), MarkQRCodeAsUsed(v.store, id, t3).store)
  {
  }

  // ---------------------------------------------------------------------------
  // getStats and searchQRCodes

  function StatusesOfCodes(codes: seq<QrCode>): (r: seq<Status>)
    ensures |r| == |codes|
    ensures forall i :: 0 <= i < |codes| ==> r[i] == codes[i].status
  {
    Seqs.Map(codes, (c: QrCode) => c.status)
  }

  /** `getStats`: one count per status, and the audit rows. */
  function GetStats(db: QrDb): (r: Stats)
    ensures r.total == |db.codes| && r.totalValidations == |db.validations|
    ensures r.pending + r.validated + r.used + r.expired == r.total
    ensures r.pending == CountStatus(StatusesOfCodes(db.codes), Pending)
    ensures r.validated == CountStatus(StatusesOfCodes(db.codes), Validated)
    ensures r.used == CountStatus(StatusesOfCodes(db.codes), Used)
    ensures r.expired == CountStatus(StatusesOfCodes(db.codes), Expired)
  {
    Tally(StatusesOfCodes(db.codes), |db.validations|)
  }

  /** The filters `searchQRCodes` accepts; an empty string imposes no constraint. */
  datatype QrFilters = QrFilters(status: string, customerEmail: string, dateFrom: string, dateTo: string)

  const NoQrFilters := QrFilters("", "", "", "")

  /** The `WHERE` clause `searchQRCodes` assembles. */
  predicate QrMatches(f: QrFilters, c: QrCode) {
    && (f.status == "" || StatusName(c.status) == f.status)
    && (f.customerEmail == "" || SqlLike.Like(c.customerEmail, "%" + f.customerEmail + "%"))
    && (f.dateFrom == "" || StrLe(f.dateFrom, c.createdAt))
    && (f.dateTo == "" || StrLe(c.createdAt, f.dateTo))
  }

  /** `searchQRCodes`: the matching rows, newest `createdAt` first. */
  function SearchQRCodes(db: QrDb, f: QrFilters): (r: seq<QrCode>)
    ensures forall c :: c in r <==> c in db.codes && QrMatches(f, c)
    ensures multiset(r) == multiset(Seqs.Filter(db.codes, (c: QrCode) => QrMatches(f, c)))
    ensures SortedDesc(r, (c: QrCode) => c.createdAt)
  {
    SelectDesc(db.codes, (c: QrCode) => QrMatches(f, c), (c: QrCode) => c.createdAt)
  }

  /** Without filters the search is `getQRCodes`. */
  lemma SearchWithoutFilters(db: QrDb)
    ensures SearchQRCodes(db, NoQrFilters) == GetQRCodes(db)
  {
    Seqs.FilterAll(db.codes, (c: QrCode) => QrMatches(NoQrFilters, c));
  }

  /**
    An e-mail filter free of `%` and `_` keeps exactly the rows whose address
    contains it, ignoring ASCII case, among those the other filters keep.
   */
  lemma SearchByEmail(db: QrDb, f: QrFilters)
    requires f.customerEmail != "" && SqlLike.NoWildcards(f.customerEmail)
    ensures forall c :: c in db.codes ==>
      (c in SearchQRCodes(db, f) <==>
         QrMatches(f.(customerEmail := ""), c) && SqlLike.ContainsIgnoringCase(c.customerEmail, f.customerEmail))
  {
    forall c | c in db.codes
      ensures c in SearchQRCodes(db, f) <==>
                QrMatches(f.(customerEmail := ""), c) && SqlLike.ContainsIgnoringCase(c.customerEmail, f.customerEmail)
    {
      SqlLike.LikeContains(c.customerEmail, f.customerEmail);
    }
  }
}

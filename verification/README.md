# Ticket lifecycle of the Shopify webhook ticketing service

This project is a Dafny model of the core of a small ticketing back end. A Shopify
order webhook turns every unit of every line item into an admission ticket with
its own identifier and a QR code pointing at a validation link. Staff at the door
then move a ticket through `pending -> validated -> used`.

The repository implements this core three times, one per storage back end:

- **SQLite** (`lib/ticket-service.ts`): a `tickets` table and a `ticket_validations` audit table.
- **JSON files** (`lib/ticket-service-vercel.ts` over `lib/database-vercel.ts`): two files rewritten in full on every write.
- **Supabase** (`lib/ticket-service-supabase.ts` over `lib/database-supabase.ts`): a hosted Postgres table reached through a client that can fail.

The model also covers two more pieces:

- the per-order QR-code store of `lib/database-sqlite.ts`;
- the scanner's classification of decoded QR text (`analyzeDetectedText`, `pages/test-qr-debug.tsx`).

Everything is pure functions over immutable values. A table is a sequence of rows in insertion order. Every state-changing call returns its result together with the store it leaves behind.

The following are parameters of the model:

- the clock, the random draws, the QR image renderer and the base URL;
- the outcome of each network call (`readOk`, `writeOk`, `insertOk`, `auditOk`).

## Modules

| file | module | models |
|---|---|---|
| foundation.dfy | `Wrappers`, `Seqs`, `Text` | Option, sequence helpers, JavaScript character classes, decimal and base-36 rendering, split/join |
| ordering.dfy | `Ordering`, `SqlLike` | `ORDER BY ... DESC` on ISO strings, SQL `LIKE` with `%` |
| tickets.dfy | `Tickets` | the ticket, validation and statistics records of `types/index.ts`, first-match lookup, the lifecycle relation |
| ticket_ids.dfy | `TicketIds` | title slugs, `cleanTicketTitle`, the ticket identifier, the validation URL, the RFC 4122 version-4 style record id |
| minting.dfy | `Minting` | expanding line items into units, the fee-line filter, the fresh ticket object |
| sqlite_tickets.dfy | `SqliteTicketService` | the SQLite ticket service |
| json_store.dfy, json_service.dfy | `JsonStore`, `JsonTicketService` | the JSON-file store and its service |
| supabase_store.dfy, supabase_service.dfy | `SupabaseStore`, `SupabaseTicketService` | the Supabase store and its service |
| qr_store.dfy | `QrCodeStore` | the SQLite QR-code store with its constraints |
| qr_payload.dfy | `QrPayload` | classification of scanned QR text |

## How the back ends differ

The three implementations do not agree, and the model keeps each one as written.

**Which lines become tickets.**
- SQLite mints a ticket for every line, fee lines included.
- JSON and Supabase skip any line whose lower-cased title contains `service`, `frais` or `charge`.

**Titles and slugs.**
- SQLite keeps the raw title and cuts the slug of the identifier to 10 characters.
- JSON and Supabase store a cleaned title and use the full slug.

**Re-delivered webhooks.**
- Only SQLite looks for an existing ticket before inserting.
- It looks the ticket up by the identifier it has just computed. That identifier contains the clock and a random suffix, so a redelivery at another moment mints a second set of tickets.
- With the same clock and random draws the run is idempotent: `GenerateTwice`.
- JSON and Supabase insert unconditionally. JSON's `createTicket` appends even when the identifier is already present.

**Duplicate identifiers.**
- SQLite and JSON read the first matching row.
- Supabase's `.single()` returns nothing when two rows share the identifier (`DuplicateIdHidesTicket`).
- An update by identifier rewrites every matching row in SQLite and Supabase, but only the first in JSON.

**`markTicketAsUsed`.**
- SQLite and JSON refuse anything that is not `validated`.
- Supabase accepts an already used ticket without writing. It moves `pending` and `expired` tickets straight to `used`, skipping validation.

**The store underneath the JSON service.**
- `updateTicketStatus` does not check the lifecycle at all. It turns a `used` ticket back into `validated` when asked (`StoreRewindsUsedTicket`).
- Only the service's guard keeps the lifecycle monotone.

**The validation link.** Every service's QR code encodes `{baseUrl}/api/ticket/validate/{ticketId}`.

**Scanning a link back.** The validation pattern `/\/api\/ticket\/validate\/(.+)$/` takes the leftmost occurrence of the path.
- A base URL that merely does not contain the path is not enough for the scan to return the id.
- A base URL ending in `/api/ticket/validate` (without the final slash) makes the pattern match one character early. The id then comes back prefixed with `api/ticket/validate/` (`StraddlingBase`).
- The round trip holds when no occurrence of the path starts inside the base URL (`SafeBase`). This is the case for every base URL without `/api` in it, including the default `http://localhost:3000`.

## Model

| member | source | states |
|---|---|---|
| Tickets.NullIfEmpty | lib/ticket-service.ts:179 | `notes \|\| null` stores NULL exactly when the notes are absent or empty, and otherwise stores them unchanged |
| Tickets.StatusCountsPartition | lib/ticket-service.ts:220-236 | the four per-status counts of any ticket list add up to its length, so `pending + validated + used + expired == total` |
| Tickets.Tally | lib/database-vercel.ts:169-181 | statistics whose total is the list length, whose per-status fields are the counts of that status and sum to the total, and whose validation count is the one given |
| Tickets.FindTicket | lib/database-vercel.ts:128-130 | `findIndex`: the position found carries the id and no earlier row does; none is found only when no row carries the id |
| Tickets.Lookup | lib/database-vercel.ts:115-123 | `find`: a ticket is returned exactly when some row carries the id, and it is the first such row |
| Tickets.FindAfterRewrite | lib/database-vercel.ts:128-158 | after the found row is replaced by a ticket with the same id, the lookup finds the replacement at the same position |
| TicketIds.Slug | lib/ticket-service-vercel.ts:153 | the slug of the identifier holds only lower-case letters and digits |
| TicketIds.SlugIsLowerAlnumOnly | lib/ticket-service-vercel.ts:153 | the slug is the title with every non-ASCII-alphanumeric character removed, then lower-cased |
| TicketIds.SlugPrefixIsComposition | lib/ticket-service.ts:282-285 | stripping, cutting to n characters and lower-casing gives the first n characters of the slug |
| TicketIds.SqliteSlugShape | lib/ticket-service.ts:282-285 | the SQLite slug has at most 10 lower-case alphanumeric characters and is the first 10 characters of the full slug |
| TicketIds.RemoveChar | lib/ticket-service-vercel.ts:163 | removing the ticket emoji leaves no emoji and adds no character |
| TicketIds.ReplaceAll | lib/ticket-service-vercel.ts:164 | the brand-name fix introduces no character other than those of the text and the replacement |
| TicketIds.CollapseSpaces | lib/ticket-service-vercel.ts:165 | `replace(/\s+/g, ' ')` leaves no two adjacent white-space characters, introduces nothing but spaces, and keeps a non-space first character |
| TicketIds.TrimShape | lib/ticket-service-vercel.ts:166 | `trim()` returns a slice of its input that starts and ends with a non-space and keeps the input's freedom from double spaces |
| TicketIds.CleanTicketTitle | lib/ticket-service-vercel.ts:161-167 | the cleaned title contains no ticket emoji, no run of white space and no leading or trailing white space |
| TicketIds.EmojiStaysOut | lib/ticket-service-vercel.ts:163-165 | once the emoji is removed, the brand fix and the space collapse cannot bring it back |
| TicketIds.CleanKeepsAlnum | lib/ticket-service-vercel.ts:161-167 | cleaning a title keeps its ASCII letters and digits, in order |
| TicketIds.CleanSlug | lib/ticket-service-supabase.ts:164-170 | the slug computed from the cleaned title holds only lower-case letters and digits |
| TicketIds.SlugsAgree | lib/ticket-service-vercel.ts:152-167 | with ASCII lower-casing, the slug of the cleaned title equals the slug of the raw title, so the SQLite slug is the first 10 characters of the JSON and Supabase slug; a non-ASCII letter that JavaScript lower-cases to an ASCII one (the Kelvin sign to `k`) breaks this, as the Unicode line under "## Left out" admits |
| TicketIds.TicketId | lib/ticket-service.ts:281-290 | the identifier begins with the order number and an underscore; its partner `TicketIds.TicketIdFields` splits it back into all five fields |
| TicketIds.ValidationUrl | lib/ticket-service-vercel.ts:49 | the link is the base URL, then `/api/ticket/validate/`, then the ticket id, with nothing else in between; its partner `QrPayload.AnalyzeValidationUrl` reads the id back from it |
| TicketIds.TicketIdFields | lib/ticket-service.ts:287-290 | the identifier splits on `_` into exactly its order number, slug, index, base-36 time and random suffix, and the first and third read back as the numbers that went in |
| TicketIds.UuidShape | lib/ticket-service-supabase.ts:182-188 | the record id has dashes at positions 8, 13, 18 and 23, the version digit `4` at 14, one of `89ab` at 19, and lower-case hex digits elsewhere |
| TicketIds.Uuid | lib/ticket-service-supabase.ts:182-188 | the record id is 36 characters long; its partner `TicketIds.UuidShape` fixes the dashes, version and variant digits |
| Minting.ExpandItem | lib/ticket-service.ts:59-62 | a line item yields one unit per unit of quantity, numbered from 1, and none for a quantity of 0 or less |
| Minting.ExpandShape | lib/ticket-service.ts:59-62 | every unit comes from one of the order's line items, with an index between 1 and that item's quantity |
| Minting.ExpandConcat | lib/ticket-service.ts:59-62 | expanding two lists of line items one after the other is expanding their concatenation |
| Minting.SeatItems | lib/ticket-service-vercel.ts:37-41 | a line item is kept exactly when its lower-cased title contains none of `service`, `frais`, `charge` |
| Minting.SeatQuantity | lib/ticket-service-vercel.ts:37-45 | the fee filter never adds tickets, keeps all of them when no line is a fee, and drops some when a fee line has a positive quantity |
| Minting.FeeTitleRecognised | lib/ticket-service-vercel.ts:37-41 | a "Service charges" line is recognised as a fee |
| Minting.SeatUnits | lib/ticket-service-vercel.ts:37-45 | the units to mint number the total quantity of the kept lines and all come from non-fee lines of the order |
| Minting.NewTicket | lib/ticket-service.ts:113-126 | a new ticket copies order, customer, currency and unit price, has quantity 1, is pending with no stamps, and encodes the rendered validation URL of its own id |
| SqliteTicketService.MintOne | lib/ticket-service.ts:64-128 | one unit: an existing row with the computed id is returned and nothing changes; otherwise a fresh pending ticket with the raw title is appended and returned |
| SqliteTicketService.GetTicketById | lib/ticket-service.ts:136-139 | a ticket is returned exactly when some row carries the id, and it is the first such row |
| SqliteTicketService.MintOneKeepsUnique | lib/ticket-service.ts:64-111 | the existence check keeps ticket ids unique in the table |
| SqliteTicketService.MintOneIdempotent | lib/ticket-service.ts:64-70 | minting a unit again with the same clock and random draws returns the same ticket and changes nothing |
| SqliteTicketService.MintUnits | lib/ticket-service.ts:59-128 | one ticket per unit with that unit's id, each present in the table; the old table is a prefix of the new one; unique ids stay unique; when every id is new, exactly the fresh tickets are appended, each pending, carrying the item's raw title and a QR code of its own validation link |
| SqliteTicketService.GenerateTicketsForOrder | lib/ticket-service.ts:54-134 | as many tickets as the total quantity, fee lines included, each with its computed id and present in the table, the table only growing and audit records untouched; when every id is new, the k-th unit's fresh ticket is appended with the item's raw title and a QR code of its own validation link |
| SqliteTicketService.MintUnitsLookup | lib/ticket-service.ts:64-128 | every returned ticket is the row a lookup of its id finds in the resulting table |
| SqliteTicketService.MintUnitsAgain | lib/ticket-service.ts:64-70 | when every computed id already resolves, the loop returns the rows found and inserts nothing |
| SqliteTicketService.GenerateTwice | lib/ticket-service.ts:54-134 | generating an order again with the same clock and random draws returns the same tickets and leaves the tables unchanged |
| SqliteTicketService.LookupInPrefix | lib/ticket-service.ts:137-140 | appending rows never changes which row a successful lookup returns |
| SqliteTicketService.ValidateTicket | lib/ticket-service.ts:149-184 | succeeds exactly when the first row with the id is pending; then every row with the id is stamped validated with time and validator and one audit record with the notes or NULL is appended; otherwise nothing changes |
| SqliteTicketService.MarkTicketAsUsed | lib/ticket-service.ts:187-211 | succeeds exactly when the first row with the id is validated; then every row with the id becomes used with the time; otherwise nothing changes |
| SqliteTicketService.ValidateThenUse | lib/ticket-service.ts:149-211 | after a successful validation a second validation is refused and marking as used succeeds |
| SqliteTicketService.UseTwiceRefused | lib/ticket-service.ts:187-211 | a ticket marked used cannot be marked used again, and the refusal changes nothing |
| SqliteTicketService.TransitionsAreLegal | lib/ticket-service.ts:149-211 | with unique ids, both transitions only move statuses along `pending -> validated -> used` |
| SqliteTicketService.GetStats | lib/ticket-service.ts:220-236 | the counts are the table sizes and per-status counts, and the status counts sum to the total |
| SqliteTicketService.SearchTickets | lib/ticket-service.ts:239-278 | exactly the rows meeting every given filter, each as often as in the table, newest `createdAt` first |
| SqliteTicketService.SearchFilters | lib/ticket-service.ts:249-259 | with no filter every row is returned; a wildcard-free email filter keeps only rows whose email contains it, ignoring case |
| SqlLike.LikeContains | lib/ticket-service.ts:254-257 | `LIKE '%f%'` with a wildcard-free `f` holds exactly when the text contains `f`, ignoring ASCII case |
| SqlLike.LikePrefix | lib/ticket-service.ts:254-257 | `LIKE 'f%'` with a wildcard-free `f` holds exactly when the text starts with `f`, ignoring ASCII case |
| Ordering.SortDesc | lib/ticket-service.ts:274 | `ORDER BY createdAt DESC` returns a permutation of its input with non-increasing keys |
| JsonStore.CreateTicket | lib/database-vercel.ts:103-113 | always succeeds and appends the ticket, leaving existing tickets and validations as they were |
| JsonStore.GetTicketByTicketId | lib/database-vercel.ts:115-123 | `Array.find`: a ticket is returned exactly when some ticket carries the id, and it is the first such ticket |
| JsonStore.CreateThenLookup | lib/database-vercel.ts:103-123 | a created ticket is found by its id unless a ticket with that id already existed, in which case the old one keeps being found |
| JsonStore.UpdateTicketStatus | lib/database-vercel.ts:125-163 | fails and changes nothing for an unknown id; otherwise rewrites only the first ticket with the id, stamping validation or use, and appends an audit record exactly for a validation with a non-empty validator |
| JsonStore.StoreRewindsUsedTicket | lib/database-vercel.ts:125-141 | the store turns a used ticket back into a validated one when asked |
| JsonStore.UnknownStatusChangesNothing | lib/database-vercel.ts:134-158 | a status other than `validated` or `used` is reported as success and changes nothing |
| JsonStore.GetStats | lib/database-vercel.ts:169-181 | the counts are the list sizes and per-status counts, and the status counts sum to the total |
| JsonTicketService.Mint | lib/ticket-service-vercel.ts:46-75 | a fresh pending ticket with the cleaned title and the id computed from the full slug, whose QR code encodes the rendered validation link of its own id |
| JsonTicketService.SaveUnits | lib/ticket-service-vercel.ts:44-82 | one ticket per unit, in order, each the one built for it, all appended to the store |
| JsonTicketService.GenerateTicketsForOrder | lib/ticket-service-vercel.ts:30-88 | one ticket per unit of the non-fee lines, in order, each appended to the store |
| JsonTicketService.ValidateTicket | lib/ticket-service-vercel.ts:91-111 | succeeds exactly when the ticket is pending; the first ticket with the id is then replaced by its validated stamp and every other ticket stays in place, with an audit record exactly when the validator is non-empty; otherwise nothing changes |
| JsonTicketService.MarkTicketAsUsed | lib/ticket-service-vercel.ts:114-134 | succeeds exactly when the ticket is validated; the first ticket with the id is then replaced by its used stamp and every other ticket stays in place; otherwise nothing changes |
| JsonTicketService.TransitionsAreLegal | lib/ticket-service-vercel.ts:91-134 | both transitions only move statuses along the lifecycle |
| JsonTicketService.ValidateThenUseOnce | lib/ticket-service-vercel.ts:91-134 | after validation, validating again is refused, marking used succeeds once, and a second mark is refused |
| JsonTicketService.AnonymousValidationUnaudited | lib/ticket-service-vercel.ts:91-111 | a validation with an empty validator succeeds without an audit record |
| JsonTicketService.PendingTicketRefusedAtDoor | lib/ticket-service-vercel.ts:114-134 | a pending ticket cannot be marked used, and nothing changes |
| SupabaseStore.IntOr | lib/database-supabase.ts:105 | `x \|\| d` on a number: NULL and 0 give the default, anything else itself |
| SupabaseStore.TextOr | lib/database-supabase.ts:106-107 | `x \|\| d` on text: NULL and the empty string give the default, anything else itself |
| SupabaseStore.RowRoundTrip | lib/database-supabase.ts:50-63 | a stored and re-read ticket comes back with quantity 1, price `0.00` and currency `EUR`, and is unchanged exactly when it already had them |
| SupabaseStore.ToRow | lib/database-supabase.ts:50-63 | the row leaves quantity, price and currency unset, and reads back as the ticket with the fallbacks 1, `0.00` and `EUR` (partner `SupabaseStore.RowRoundTrip`) |
| SupabaseStore.FromRow | lib/database-supabase.ts:98-114 | the ticket read back never has a zero quantity or an empty price or currency; a non-zero stored quantity is kept; ids, status and QR data are copied (partner `SupabaseStore.RowRoundTripBack`) |
| SupabaseStore.RowRoundTripBack | lib/database-supabase.ts:98-113 | re-reading then re-storing a row only clears its quantity, price and currency |
| SupabaseStore.CreateTicket | lib/database-supabase.ts:47-79 | succeeds exactly when the insert does, appending the mapped row; otherwise nothing changes |
| SupabaseStore.Matching | lib/database-supabase.ts:84-87 | the rows selected are exactly those carrying the id |
| SupabaseStore.GetTicketByTicketId | lib/database-supabase.ts:82-119 | a ticket is returned exactly when the read succeeds and exactly one row carries the id, and it is that row read back |
| SupabaseStore.DuplicateIdHidesTicket | lib/database-supabase.ts:88 | two rows with the same id make the lookup return nothing |
| SupabaseStore.PatchStamps | lib/database-supabase.ts:125-132 | the update data, read back, stamps exactly what the lifecycle stamps for validation and for use |
| SupabaseStore.PatchAll | lib/database-supabase.ts:134-137 | every row with the id is patched and every other row is left as it was |
| SupabaseStore.MatchingAfterPatch | lib/database-supabase.ts:134-137 | the rows with the id after the update are the patched rows with the id before it |
| SupabaseStore.UpdateTicketStatus | lib/database-supabase.ts:122-160 | a failed update changes nothing and returns false; a successful one patches every matching row and returns true, with an audit record exactly for an audited validation whose insert lands |
| SupabaseStore.UpdateOfMissingTicketSucceeds | lib/database-supabase.ts:122-160 | updating an id no row carries reports success and still appends an audit record |
| SupabaseStore.GetStats | lib/database-supabase.ts:230-263 | zeros when the ticket query fails; otherwise per-status counts summing to the total, and no validations when that query fails |
| SupabaseStore.SearchTickets | lib/database-supabase.ts:266-325 | nothing on a client error; otherwise exactly the read-back rows meeting every filter, as often as stored, newest first |
| SupabaseStore.EmailFilterIsExact | lib/database-supabase.ts:284-286 | the email filter matches the exact address, not a substring |
| SupabaseStore.GetAllTickets | lib/database-supabase.ts:191-227 | nothing on a client error; otherwise every row read back, newest first |
| SupabaseStore.AllTicketsIsUnfilteredSearch | lib/database-supabase.ts:191-325 | listing all tickets is searching with no filter |
| SupabaseTicketService.Mint | lib/ticket-service-supabase.ts:46-75 | a fresh pending ticket with the cleaned title, the full-slug id and a UUID record id, whose QR code encodes the rendered validation link of its own id |
| SupabaseTicketService.SaveUnits | lib/ticket-service-supabase.ts:44-82 | exactly the tickets whose insert lands, in unit order; a failed insert drops only its own unit; the stored rows are those tickets; when all land, one per unit in order |
| SupabaseTicketService.GenerateTicketsForOrder | lib/ticket-service-supabase.ts:30-88 | exactly the tickets of the non-fee units whose insert lands, in order, each stored as its row; one per unit in order when every insert lands |
| SupabaseTicketService.AllSavedKeepsAll | lib/ticket-service-supabase.ts:78-82 | when every insert lands, the tickets kept are exactly the ticket built for each unit, in unit order |
| SupabaseTicketService.OneFailureDropsOne | lib/ticket-service-supabase.ts:78-82 | when exactly one insert fails, the result is every unit's ticket in order with only that unit's ticket missing |
| SupabaseTicketService.LookupAfterUpdate | lib/database-supabase.ts:82-137 | after an update, a single matching row is still single and is read back patched |
| SupabaseTicketService.ValidateTicket | lib/ticket-service-supabase.ts:91-111 | succeeds exactly when the ticket is read as pending and the write lands; every row with the id is then patched and no other row changes, the ticket reads back stamped validated, with an audit record exactly when the validator is non-empty and the audit insert lands |
| SupabaseTicketService.MarkTicketAsUsed | lib/ticket-service-supabase.ts:114-135 | succeeds exactly when the ticket is found and is already used or the write lands; a used ticket is left untouched; otherwise every row with the id is patched to used, no other row changes, and the ticket reads back stamped used |
| SupabaseTicketService.DoorSkipsValidation | lib/ticket-service-supabase.ts:114-135 | a pending or expired ticket is marked used directly, with no validation stamp added |
| SupabaseTicketService.SecondScanAccepted | lib/ticket-service-supabase.ts:123-126 | marking a used ticket again succeeds and changes nothing |
| SupabaseTicketService.ValidateTwiceRefused | lib/ticket-service-supabase.ts:91-111 | a validated ticket cannot be validated again |
| QrCodeStore.GetQRCodeById | lib/database-sqlite.ts:88-91 | a QR code is returned exactly when one has the id, and it is a row with that id |
| QrCodeStore.GetQRCodeByOrderNumber | lib/database-sqlite.ts:94-97 | a QR code is returned exactly when one has the order number, and it is a row with it |
| QrCodeStore.GetQRCodes | lib/database-sqlite.ts:82-85 | every row, as often as stored, newest first |
| QrCodeStore.GetValidations | lib/database-sqlite.ts:202-205 | every audit row, as often as stored, newest first |
| QrCodeStore.CreateQRCode | lib/database-sqlite.ts:100-123 | the insert throws and changes nothing exactly when the id or the order number is taken; otherwise the row with empty stamps nulled is appended and returned; the schema invariant is kept |
| QrCodeStore.AppendCodeKeepsSchema | lib/database-sqlite.ts:42-69 | appending a row with a fresh id and order number keeps every constraint |
| QrCodeStore.CreateThenGet | lib/database-sqlite.ts:88-123 | a created QR code is found by id and by order number, and creating the same input again throws |
| QrCodeStore.UpdateQRCode | lib/database-sqlite.ts:126-152 | null for an unknown id; otherwise the merged row replaces the stored one unless its order number belongs to another row, which throws and changes nothing; the schema invariant is kept |
| QrCodeStore.RewriteKeepsSchema | lib/database-sqlite.ts:42-69 | replacing a row by one with the same id and a free order number keeps every constraint |
| QrCodeStore.UpdateIgnoresIdAndCreatedAt | lib/database-sqlite.ts:130-136 | an update's `id` and `createdAt` keys have no effect |
| QrCodeStore.UpdateIdempotent | lib/database-sqlite.ts:126-152 | applying a successful update a second time changes nothing more |
| QrCodeStore.ValidateQRCode | lib/database-sqlite.ts:155-183 | refuses with no change unless the code is pending; otherwise stamps it and appends one audit row, or throws after stamping when the audit id is taken; the schema invariant is kept |
| QrCodeStore.AppendAuditKeepsSchema | lib/database-sqlite.ts:60-68 | an audit row with a fresh id for an existing code keeps every constraint |
| QrCodeStore.MarkQRCodeAsUsed | lib/database-sqlite.ts:186-199 | refuses with no change unless the code is validated; otherwise stamps it used and returns true |
| QrCodeStore.SameOrderNumberNeverClashes | lib/database-sqlite.ts:47 | under the constraints, a row's own order number never belongs to another row |
| QrCodeStore.ValidateStamps | lib/database-sqlite.ts:155-183 | validating a pending code records status, time and validator (NULL for an empty one) on the code and in the new audit row |
| QrCodeStore.Lifecycle | lib/database-sqlite.ts:155-199 | a pending code cannot be used, validates once, then is used once, each refusal changing nothing |
| QrCodeStore.GetStats | lib/database-sqlite.ts:208-224 | the counts are the table sizes and per-status counts, and the status counts sum to the total |
| QrCodeStore.SearchQRCodes | lib/database-sqlite.ts:227-260 | exactly the rows meeting every given filter, as often as stored, newest first |
| QrCodeStore.SearchWithoutFilters | lib/database-sqlite.ts:227-260 | searching with no filter lists every QR code |
| QrCodeStore.SearchByEmail | lib/database-sqlite.ts:240-243 | with a wildcard-free email filter, a row matches exactly when its other filters hold and its email contains the filter, ignoring case |
| QrPayload.FindMatch | pages/test-qr-debug.tsx:120 | the leftmost position where the path is followed by a non-empty, single-line rest of the text; none only when there is no such position |
| QrPayload.Analyze | pages/test-qr-debug.tsx:116-143 | a validation link exactly when the pattern matches, with the id after the leftmost match and the full text; otherwise a bare id exactly when the text is non-empty upper-case letters, digits and dashes; otherwise unknown with the full text |
| QrPayload.OneLineLink | pages/test-qr-debug.tsx:120-127 | on a single line, the leftmost occurrence of the path followed by something decides the id |
| QrPayload.AnalyzeValidationUrl | pages/test-qr-debug.tsx:120-127 | scanning the URL a service encodes, with a safe base URL and a non-empty single-line id, gives back exactly that id |
| QrPayload.NoApiIsSafe | lib/ticket-service.ts:73 | a base URL without `/api` in it is safe for the round trip |
| QrPayload.LocalhostIsSafe | lib/ticket-service.ts:46 | the default base URL `http://localhost:3000` is safe |
| QrPayload.StraddlingBase | pages/test-qr-debug.tsx:120 | a base URL ending in the path without its last slash does not contain the path, yet the scan returns the id with `api/ticket/validate/` in front |
| QrPayload.GeneratedIdNotBare | pages/test-qr-debug.tsx:130-136 | a generated ticket id contains `_` and is never taken for a bare id |
| QrPayload.UnknownKeepsText | pages/test-qr-debug.tsx:138-142 | text that is neither a link nor a bare id is reported unknown, in full |

## Left out

- The SQLite service's `tickets` and `ticket_validations` tables are never created in lib/database-sqlite.ts (lines 42-69 create only `qrcodes` and `validations`), and lib/ticket-service.ts:44-51 only opens the file. Their schema is not part of this model, so no constraint is assumed: `SqliteTicketService.MintOne` and `SqliteTicketService.ValidateTicket` never fail, not even on a duplicate identifier.
- The Supabase schema is not part of this model either. No uniqueness constraint is assumed on its `tickets` table, and no column defaults: the `quantity`, `price` and `currency` columns that `createTicket` never writes read back as NULL, so `SupabaseStore.RowRoundTrip` states the `1`, `"0.00"` and `"EUR"` fallbacks. A table that supplies its own defaults would return those values instead.
- File and database I/O: reading and writing the JSON files, and the SQLite driver. The JSON helpers swallow read and write errors and fall back to an empty list; the model treats the files as always readable and writable.
- Concurrency: every call is one atomic step. No back end uses a transaction or compare-and-swap, so two concurrent scans can both pass the `pending` check in the source.
- Time, randomness and rendering are parameters. This covers `new Date().toISOString()`, `Date.now().toString(36)`, `Math.random()` and the QR image library. Collisions between generated ids are not ruled out, because the random draws are arbitrary.
- The base URL read from `NEXT_PUBLIC_BASE_URL` is a parameter; only the default is checked as a literal.
- `toLowerCase` and `\s` are modelled for ASCII letters and the JavaScript white-space set; Unicode case mapping of non-ASCII letters is not modelled.
- Non-integer and very large quantities: quantities are integers; a quantity of 0 or less gives no units.
- Timestamps are compared as strings, as the SQL `ORDER BY` and date filters do on ISO text; the order among equal timestamps is not fixed by the model, only that keys do not increase.
- `getTicketsByOrderNumber` and `getAllTickets` of the SQLite service, and the JSON store's `getAllTickets`, are plain selects and are left out; the Supabase service's `getAllTickets`, `getStats` and `searchTickets` only forward to the store, which is modelled.
- `createValidation` of the Supabase store is modelled only through the `auditOk` outcome of the audit insert in `updateTicketStatus`.
- `migrateFromJSON` and `close` of the QR-code store, and the email module, are not part of this model.
- SupabaseStore.UpdateTicketStatus: the status is one of the four lifecycle values; the source accepts any string there.
- QrCodeStore.UpdateQRCode: the UPDATE is applied to the row the id lookup found; under the primary-key constraint that is the only row with the id.
- QrCodeStore.UpdateQRCode: a patch key present with the value `undefined` is treated like an absent key.
- QrCodeStore.SearchQRCodes: the `dateFrom` and `dateTo` filters are compared with `createdAt` as text. SQLite gives the `DATETIME` column NUMERIC affinity, so a filter that reads as a number (such as `2024`) is bound as an INTEGER, which sorts below every text value; for such filters the source keeps every ISO-dated row on `dateFrom` and none on `dateTo`, and the model does not capture that.
- QrCodeStore.SchemaOk: the status CHECK constraint holds by construction of the status type and is not a separate condition.
- QrPayload.Analyze: only the scanner's text classification is modelled; the camera and decoding library are not.

# URL shortener link store, in Dafny

This project models the core of a URL-shortening backend. A signed-in user submits a long URL. The service draws a short code that no listed user's records hold and stores a link record under that user. Visiting the short code redirects to the long URL and counts a click. There are routes to read a record's details, delete a record, and give a record a custom code.

The record store is a document database with a "users" collection of user documents. Each user has an "ownerData" sub-collection of link records `{originalUrl, urlCode, shortUrl, clicks, date}`. The model keeps it as two pieces of state:

- `users`: the user documents, in the order a listing returns them;
- `links`: a map from user id to that user's sequence of records, where a missing key means an empty sub-collection.

These are kept apart on purpose. Adding a record under `users/<uid>/ownerData` does not create the user document. So the records of an unlisted user id are invisible to the three scans that walk the user listing (create's uniqueness check, resolve and details). Delete can still reach them. Update refuses them with "user not found".

Files:

- `Wrappers.dfy`: the `Option` type.
- `DateFormat.dfy`: the `dd/mm/yyyy` date stamp. It pads day and month to two digits and writes the 0-based month as 1-based. It also has a parser for the stamp and the proof that parsing gives the date back.
- `LinkStore.dfy`: the state, read through `Owned`. It defines the scans as functions over the state:
  - `FirstIndex` is a query by code;
  - `FirstFree` is the code-drawing loop;
  - `FindFrom` is the details scan;
  - `ResolveFrom` is the resolve scan.
  It also defines each state change as a function (`Append`, `Bump`, `RemoveAt`, `Rename`) and the ordered checks of an update as `UpdateOutcome`.
- `LinkRoutes.dfy`: class `Store`, which holds the state. It has one method per route handler, written with the handlers' own loops and early `break`s. Each method is proved against the functions above.
- `LinkProperties.dfy`: lemmas that relate the operations. They cover:
  - global code uniqueness, and which operations keep it;
  - what details finds after a create, a delete or an update;
  - when resolve and details agree;
  - the invariant that every short link is the base URL followed by the code.

In four places the code does something easy to misread. The model follows the code:

- **Resolve does not always stop at the first match.** The scan stops only when the matched record's original URL is non-empty. If the first match has an empty URL, the scan goes on to later users, and a later user's first match with a non-empty URL is redirected to (`ResolveFrom`, `ResolveSkipsEmptyUrl`). While codes are unique, resolve and details agree (`ResolveAgreesWithDetails`).
- **Uniqueness at creation covers listed user documents only.** The check walks the user listing, so records under a user id with no user document are not looked at (`InUse`).
- **Update checks the new code against the caller's records only.** So it can give two users' records the same code (`UpdateCanDuplicateCode`). A new code that no listed user holds keeps codes unique (`RenameToUnusedKeepsCodesUnique`).
- **Finding a record after a change depends on the listing.** Details finds a newly created record when its creator is a listed user (`CreatedLinkIsFound`); an unlisted creator's records are never scanned. A code that was deleted is found nowhere only while codes are unique, since another record may carry the same code (`DeletedCodeIsGone`).

## Model

| member | source | states |
|---|---|---|
| `DateFormat.PadStart2` | functions/ExpressRoutes.js:57-58 | padStart(2, "0"): the result is at least two long, ends with the input, and everything before it is '0' |
| `DateFormat.NatToString` | functions/ExpressRoutes.js:57-58 | String(n) of a natural number is non-empty decimal digits with no leading zero (it starts with '0' exactly for 0), one digit exactly below 10 and two exactly from 10 to 99 |
| `DateFormat.NatToStringRoundTrip` | functions/ExpressRoutes.js:57-58 | reading the decimal text of n back gives n |
| `DateFormat.IntToStringRoundTrip` | functions/ExpressRoutes.js:59-61 | the year's text (with '-' when negative) reads back as the year |
| `DateFormat.Pad2RoundTrip` | functions/ExpressRoutes.js:57-58 | a number below 100, padded, is exactly two digits that read back as the number |
| `DateFormat.IntToString` | functions/ExpressRoutes.js:59-61 | the year's text as the template literal writes it: decimal digits with no leading zero, 0 written "0", and a leading '-' exactly when negative (it reads back by `IntToStringRoundTrip`) |
| `DateFormat.FormatDate` | functions/ExpressRoutes.js:55-62 | the stamp is at least seven characters; for a day below 100 and a 0-based month below 99 (1-based month below 100) it is two digits, '/', two digits, '/', then the year's text |
| `DateFormat.FormatDateRoundTrip` | functions/ExpressRoutes.js:55-62 | for a calendar day and month the stamp is two digits, '/', two digits, '/', the year; parsing it gives back the day, the month plus one (1-based) and the year |
| `LinkStore.FirstIndex` | functions/ExpressRoutes.js:248-257 | a query by code on one sub-collection: None exactly when no record has the code, else the index of a record with the code before which none has it |
| `LinkStore.HasCode` | functions/ExpressRoutes.js:95 | a query by code on one sub-collection is non-empty exactly when some record carries the code |
| `LinkStore.InUse` | functions/ExpressRoutes.js:84-99 | the scan over the user listing finds a holder exactly when some listed user's sub-collection has a record with the code |
| `LinkStore.FirstFree` | functions/ExpressRoutes.js:75-100 | the accepted candidate is held by no listed user, and every candidate drawn before it is held by some listed user (retried exactly when in use); None only when every candidate is in use |
| `LinkStore.NewLink` | functions/ExpressRoutes.js:103-109 | the written record keeps the given URL, code and date, starts at zero clicks, and its short link is the base followed by its code |
| `LinkStore.Append` | functions/ExpressRoutes.js:103-109 | the caller's sub-collection gains exactly the new record at its end; every other user's is unchanged |
| `LinkStore.FindFrom` | functions/ExpressRoutes.js:175-193 | the details scan stops at the first listed user holding the code, at that user's first record with it; None exactly when no listed user holds it |
| `LinkStore.ResolveFrom` | functions/ExpressRoutes.js:128-147 | the resolve scan stops at the first listed user whose first record with the code has a non-empty URL; every user before it has no such record or an empty URL there |
| `LinkStore.Bump` | functions/ExpressRoutes.js:150-153 | the chosen record's clicks become old + 1; no other field, record or user's records change |
| `LinkStore.RemoveAt` | functions/ExpressRoutes.js:224-225 | exactly the chosen record leaves the caller's sub-collection, the rest keep their order; other users' records are unchanged |
| `LinkStore.Recoded` | functions/ExpressRoutes.js:269-279 | a recoded record has the new code and the base followed by it as short link, and keeps original URL, clicks and date |
| `LinkStore.Rename` | functions/ExpressRoutes.js:269-272 | only the chosen record is recoded; all other records of every user are unchanged |
| `LinkStore.UpdateOutcome` | functions/ExpressRoutes.js:242-279 | user-not-found exactly when the user document is missing; url-not-found exactly when it exists and the caller has no record with the old code; conflict exactly when both pass and the caller holds the new code; otherwise the caller's first record with the old code, recoded |
| `LinkRoutes.ScanRecords` | functions/ExpressRoutes.js:134-144 | the inner loop over one user's records, shared with details at lines 180-191, stops at the first record with the code: it answers `FirstIndex` |
| `LinkRoutes.Store.IsUnique` | functions/ExpressRoutes.js:78-99 | the flag set true and cleared at the first listed user whose query by the code is non-empty ends true exactly when the code is not `InUse` |
| `LinkRoutes.Store.DrawUniqueCode` | functions/ExpressRoutes.js:75-100 | the while loop, drawing until `IsUnique` holds, answers the first candidate no listed user holds (None when the candidates run out) |
| `LinkRoutes.Store.Create` | functions/ExpressRoutes.js:65-111 | appends `{originalUrl, code, base + code, clicks 0, date stamp}` to the caller's records and answers base + code; leaves the store unchanged when no candidate is free; keeps codes unique and short links in step |
| `LinkRoutes.Store.ResolveScan` | functions/ExpressRoutes.js:128-147 | the nested loops with early breaks end with the URL and position of the record `ResolveFrom` stops at, or with an absent or empty URL when it finds none |
| `LinkRoutes.Store.Resolve` | functions/ExpressRoutes.js:148-159 | when the scan stops at a record, that record gains one click and its URL is the redirect target; otherwise not-found and the store unchanged |
| `LinkRoutes.Store.Details` | functions/ExpressRoutes.js:167-199 | answers the record `FindFrom` stops at, or not-found, and changes nothing |
| `LinkRoutes.Store.Delete` | functions/ExpressRoutes.js:207-227 | searches only the caller's records; not-found and no change without a match, else exactly the first match is removed |
| `LinkRoutes.Store.Update` | functions/ExpressRoutes.js:234-281 | answers `UpdateOutcome`; every error leaves the store unchanged; on success the first match is recoded and the answer equals the stored record |
| `LinkProperties.AppendKeepsShortUrls` | functions/ExpressRoutes.js:103-109 | a create keeps every short link equal to the base followed by its code |
| `LinkProperties.BumpKeepsShortUrls` | functions/ExpressRoutes.js:150-153 | a click keeps every short link equal to the base followed by its code |
| `LinkProperties.RemoveAtKeepsShortUrls` | functions/ExpressRoutes.js:224-225 | a delete keeps every short link equal to the base followed by its code |
| `LinkProperties.RenameKeepsShortUrls` | functions/ExpressRoutes.js:269-272 | a code change rewrites the short link with it, so every short link still equals the base followed by its code |
| `LinkProperties.CreateKeepsCodesUnique` | functions/ExpressRoutes.js:75-109 | adding a record whose code no listed user holds keeps codes unique across listed users |
| `LinkProperties.CreatedLinkIsFound` | functions/ExpressRoutes.js:103-109 | after a listed user's create, the details scan for the new code finds exactly the written record (clicks 0, the given URL) |
| `LinkProperties.ResolveKeepsCodesUnique` | functions/ExpressRoutes.js:150-153 | a click changes no code, so uniqueness is kept |
| `LinkProperties.ResolveAgreesWithDetails` | functions/ExpressRoutes.js:128-148 | with unique codes, resolve targets the record details finds when its URL is non-empty and is not-found otherwise |
| `LinkProperties.ResolveSkipsEmptyUrl` | functions/ExpressRoutes.js:146-148 | without unique codes, a first match with an empty URL makes resolve go on to another user's record while details stops at the first |
| `LinkProperties.DeleteKeepsCodesUnique` | functions/ExpressRoutes.js:224-225 | removing a record keeps codes unique |
| `LinkProperties.DeletedCodeIsGone` | functions/ExpressRoutes.js:213-225 | with unique codes, after a listed user deletes their record with a code, details and resolve both find it nowhere |
| `LinkProperties.UpdateToSameCodeConflicts` | functions/ExpressRoutes.js:259-266 | asking to change a record's code to the code it already has is the conflict error |
| `LinkProperties.RenameToUnusedKeepsCodesUnique` | functions/ExpressRoutes.js:269-272 | a new code that no listed user holds keeps codes unique |
| `LinkProperties.UpdateCanDuplicateCode` | functions/ExpressRoutes.js:259-266 | from a store with unique codes, the owner-only conflict check accepts another user's code and two records then share it |
| `LinkProperties.UpdatedCodeIsFound` | functions/ExpressRoutes.js:269-272 | after a listed user's change to a code no listed user holds, details finds the recoded record under the new code |
| `LinkProperties.UpdatedOldCodeIsGone` | functions/ExpressRoutes.js:269-272 | with unique codes, after such a change details finds nothing under the old code |

## Left out

- HTTP framework, CORS, body parsing, router mounting and the serverless export: framework wiring.
- Authentication (`checkAuth`, the 401 answers) and the Firebase Admin set-up: the caller's user id is a parameter of Create, Delete and Update.
- Document ids and references: a record is identified by its position (owner index, record index). The order of a listing or of a query by code is taken to be the order of the sequence.
- The store never fails, so the 500 "Internal Server Error" answers are not modelled. This includes a request body without `originalUrl` or `newCode`.
- Field types are fixed. `originalUrl` is a string, so the only falsy URL is the empty string. `clicks` is a natural number, so a record with a missing or non-numeric `clicks` field is not modelled.
- Logging.
- Redirect and JSON encoding: a result value stands for each answer.
- Races between concurrent requests, such as the check-then-add of a create and the read-then-increment of a click: the model is sequential. Resolve's second read of the record before the increment therefore sees the same clicks value.
- Creating or deleting user documents: no route here does either, so `users` never changes.
- `LinkRoutes.Store.DrawUniqueCode`: the code generator is a finite sequence of candidate codes. When every candidate is in use the model gives up and answers None, with the store unchanged. The source draws new random codes forever.
- `LinkRoutes.Store.Create`: the clock is read by the caller, which passes the day of the month, the 0-based month and the year.
- `LinkStore.Append`: where a created record lands in its owner's listing is not modelled. The store orders documents by their random ids, so a new record can land anywhere. The model puts it last. This decides which record Delete treats as "first" when the caller already holds the same code. That can happen when the caller has no user document, because create's check does not look at that caller's records. Update answers user-not-found for such a caller, so it is not affected.

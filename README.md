# Seminar breakfast tracker: a Dafny model

This project models the core of a hotel restaurant's breakfast tracker for
seminar guests. Seminars have attendees. Each attendee has a room number and
a breakfast status, either `Pending` or `Served`. The model covers:

- the shared validation schemas and record types (`shared/types.ts`);
- the demonstration seed data (`shared/mock-data.ts`);
- the two stored entity types and the confirm-breakfast transform
  (`worker/entities.ts`);
- the HTTP handlers of the worker (`worker/user-routes.ts`), over an
  id-keyed store with an ordered index;
- the dashboard's list logic (`src/pages/HomePage.tsx`): seminar filter,
  room search, pending/served split, export order, file name and cache
  update after a confirmation;
- the CSV import dialog's header check and row filter
  (`src/components/ImportDialog.tsx`);
- the CSV text built for an export (`src/lib/export.ts`).

Modules, one per file:

| file | module | models |
|---|---|---|
| `Wrappers.dfy` | `Wrappers` | `Option` |
| `Seqs.dfy` | `Seqs` | `filter`, `map`, distinctness, subsequences and their laws |
| `Types.dfy` | `Types` | records, request bodies, the two schemas |
| `MockData.dfy` | `MockData` | seed seminars and attendees |
| `Entities.dfy` | `Entities` | entity configuration, `confirmBreakfast` |
| `Store.dfy` | `Store` | the `IndexedEntity` store as a class (`records` map and `index` sequence) |
| `Routes.dfy` | `Routes` | the route handlers as methods on the two stores |
| `HomePage.dfy` | `HomePage` | dashboard lists, export file name, cache patch |
| `ImportDialog.dfy` | `ImportDialog` | CSV header check, row filter, dialog state |
| `Export.dfy` | `Export` | `csvRows` / `csvString`, with `join` and `split` |

Modelling choices:

- A request body's field is `None` when it is absent, has the wrong type,
  or (for a date) cannot be coerced to a date. Dates are integer instants.
  A stored seminar date is `Blank` (the empty string of the blank record) or
  `At(instant)`.
- Ids that the source draws from `crypto.randomUUID` are parameters. A
  precondition says they are not already stored and, for the bulk route,
  that they are pairwise distinct.
- The store implementation (`worker/core-utils`) is not part of this model.
  `Store.IndexedEntity` stands in for it. Each record is stored under its
  own id, the index lists each stored id once in creation order, and
  `list()` returns the records in index order.
- The two stores of the worker are the fields of `Routes.Env`.

The import dialog checks only that the three headers are present, and
extra columns are accepted (`src/components/ImportDialog.tsx:27-29`).
`ImportDialog.ExtraColumnsHarmless` states this.

## Model

| member | source | states |
|---|---|---|
| Types.ParseSeminar | shared/types.ts:24-33 | an accepted seminar body yields an input that satisfies every length rule and end >= start, and whose body is the one given |
| Types.ParseAttendee | shared/types.ts:34-38 | an accepted attendee body yields three non-empty fields taken from the body; no other key survives |
| Types.ParseSeminarExact | shared/types.ts:24-33 | a seminar body is accepted with result x exactly when it is x's body and x is valid (both directions) |
| Types.ParseAttendeeExact | shared/types.ts:34-38 | an attendee body is accepted with result x exactly when it is x's body and x is valid (both directions) |
| Types.WhitespaceNameAccepted | shared/types.ts:25 | only the length is checked: a name of three spaces passes, and so do equal start and end dates |
| Types.EndBeforeStartRejected | shared/types.ts:30-33 | an end date before the start date is rejected, whatever the other fields hold |
| Types.ParseAttendeeAccepts | shared/types.ts:34-38 | an attendee body is accepted iff all three fields are present and non-empty |
| Entities.ConfirmBreakfast | worker/entities.ts:31-33 | the result is `Served` whatever the status was, and id, seminarId, names and room are unchanged |
| Entities.ConfirmBreakfastIdempotent | worker/entities.ts:32 | confirming twice gives the same record as confirming once |
| Entities.ConfirmBreakfastOnlyStatus | worker/entities.ts:32 | confirming changes a record iff it was not already served |
| Entities.InitialStates | worker/entities.ts:8-29 | the blank attendee is `Pending` and the blank seminar has every field empty |
| Entities.DistinctNamespaces | worker/entities.ts:6-7 | the entity and index names are "seminar"/"seminars" and "attendee"/"attendees", pairwise different |
| MockData.SeedIdsDistinct | shared/mock-data.ts:2-31 | the seed seminar ids are distinct, and so are the ids att1 to att8 |
| MockData.SeedAttendeesWellFormed | shared/mock-data.ts:20-31 | every seed attendee names a seed seminar and passes attendee validation |
| MockData.SeedSeminarsWellFormed | shared/mock-data.ts:2-19 | every seed seminar has both dates and ends no earlier than it starts |
| MockData.SeedOwnership | shared/mock-data.ts:22-30 | sem1 owns exactly att1 to att4 and sem2 exactly att5 to att8, so removing sem1's attendees leaves att5 to att8 |
| MockData.SeedStatuses | shared/mock-data.ts:22-30 | exactly att3 and att6 are served; the other six are pending |
| Store.IndexedEntity.Items | worker/user-routes.ts:16 | `list()` returns the stored records in index order, their ids being the index |
| Store.IndexedEntity.Exists | worker/user-routes.ts:35 | `exists()` holds iff a record is stored under the id |
| Store.IndexedEntity.GetState | worker/user-routes.ts:36 | `getState()` on a stored id returns the record stored under it |
| Store.IndexedEntity.List | worker/user-routes.ts:16 | the `list()` call returns every stored record in index order |
| Store.IndexedEntity.Create | worker/user-routes.ts:29 | `create` stores the record under its new id and appends it to the list; validity is kept |
| Store.IndexedEntity.CreateMany | worker/user-routes.ts:108 | `createMany` appends the records in order, as creating each in turn would |
| Store.IndexedEntity.Delete | worker/user-routes.ts:55 | `delete` reports whether the id was stored and removes exactly that record, keeping the others' order |
| Store.IndexedEntity.DeleteMany | worker/user-routes.ts:60 | `deleteMany` removes exactly the listed ids that are stored, keeping the others' order |
| Store.IndexedEntity.Mutate | worker/entities.ts:32 | `mutate` replaces the stored record by its image, leaves the index alone, and the list changes only at that id |
| Store.IndexedEntity.EnsureSeed | worker/user-routes.ts:10-11 | an empty store receives the seed records in order; a non-empty store is left alone |
| Store.LookupPrune | worker/user-routes.ts:59-60 | removing ids from the map and index removes exactly the records with those keys from the list |
| Routes.EnsureSeeded | worker/user-routes.ts:8-13 | each empty store is seeded with its mock data; a non-empty one is untouched |
| Routes.ListSeminars | worker/user-routes.ts:15-18 | the response is every stored seminar in list order |
| Routes.CreateSeminar | worker/user-routes.ts:19-31 | an invalid body is rejected with no write; a valid one stores the seminar under the fresh id, appends it to the list and returns it |
| Routes.GetSeminar | worker/user-routes.ts:32-37 | a stored id returns its seminar; any other id is not found |
| Routes.UpdateSeminar | worker/user-routes.ts:38-52 | validation first, then existence (not found, no write); otherwise every field but the id is replaced |
| Routes.DeleteSeminar | worker/user-routes.ts:53-62 | an unknown id is not found and deletes nothing; otherwise the seminar and exactly its attendees go, others keep their order |
| Routes.CascadeSelection | worker/user-routes.ts:58-60 | deleting the ids of a seminar's attendees leaves exactly the attendees of other seminars |
| Routes.ListAttendees | worker/user-routes.ts:64-67 | the response is every stored attendee in list order |
| Routes.ListSeminarAttendees | worker/user-routes.ts:69-74 | the response is exactly the stored attendees with that seminarId, in list order |
| Routes.NewAttendee | worker/user-routes.ts:80-85 | a new attendee is `Pending`, has the given id and seminar, and carries the three validated fields unchanged |
| Routes.CreateAttendee | worker/user-routes.ts:75-88 | an invalid body is rejected with no write; a valid one stores a pending attendee with the path seminarId under the fresh id, appends it and returns it |
| Routes.Admitted | worker/user-routes.ts:93-106 | one record per item, in order, each pending, in the path's seminar, with its supplied id and the item's fields |
| Routes.ParseBulk | worker/user-routes.ts:93-106 | the loop fails iff some item is invalid, and otherwise builds exactly the admitted records |
| Routes.BulkCreateAttendees | worker/user-routes.ts:89-111 | a non-array or any invalid item gives an error with no write; otherwise the admitted records are appended and their count returned |
| Routes.PatchAttendeeKeeps | worker/user-routes.ts:119 | an attendee update replaces the name and room and keeps id, seminarId and status |
| Routes.UpdateAttendee | worker/user-routes.ts:112-122 | validation first, then existence (not found, no write); otherwise only names and room change |
| Routes.DeleteAttendee | worker/user-routes.ts:123-128 | the response says whether the id was stored, and exactly that record is removed |
| Routes.ConfirmBreakfastRoute | worker/user-routes.ts:129-135 | an unknown id is not found with no write; otherwise the attendee becomes `Served` in place and is returned |
| HomePage.Includes | src/pages/HomePage.tsx:54 | `includes` holds iff the term occurs at some position of the room number |
| HomePage.IncludesExamples | src/pages/HomePage.tsx:52-56 | "1" is found in rooms 101, 102, 103 and 201 and not in 302 |
| HomePage.SeminarFilterSpec | src/pages/HomePage.tsx:46-49 | "all" keeps the list unchanged; any other selection keeps exactly that seminar's attendees, in order |
| HomePage.SearchSpec | src/pages/HomePage.tsx:50-57 | an empty term finds nothing; otherwise exactly the pending attendees whose room contains the term, a subsequence of the pending list |
| HomePage.PartitionSpec | src/pages/HomePage.tsx:58-65 | pending and served are disjoint with lengths summing to the list; the export list is a permutation with the served first |
| HomePage.FindSeminar | src/pages/HomePage.tsx:64 | `find` succeeds iff some seminar has the id, and returns the first such seminar |
| HomePage.SlugSpec | src/pages/HomePage.tsx:67 | the slug keeps the length, has no spaces or capitals, changes nothing else, and is idempotent |
| HomePage.ExportFileNameAll | src/pages/HomePage.tsx:64 | with "all" selected the name is "All Seminars" and the file name ends in "all-seminars" |
| HomePage.ExportFileNameUnknown | src/pages/HomePage.tsx:64 | an unknown seminar id gives "breakfast-report-seminar" |
| HomePage.ExportFileNameEmptyName | src/pages/HomePage.tsx:64 | a found seminar with an empty name falls back to "Seminar", giving "breakfast-report-seminar" |
| HomePage.ExportFileNameFound | src/pages/HomePage.tsx:64 | a found seminar with a name gives "breakfast-report-" followed by the slug of that name |
| HomePage.PatchCacheSpec | src/pages/HomePage.tsx:37-39 | the patched cache keeps length and order and replaces only the entry with the confirmed id; an absent cache becomes the empty list |
| HomePage.CacheMatchesServer | src/pages/HomePage.tsx:37-39 | patching the server's list with the confirmed record gives the server's list after confirmation |
| ImportDialog.MissingHeadersSpec | src/components/ImportDialog.tsx:27-29 | a header is missing iff it is required and absent, in the fixed order; no header row means all three are missing |
| ImportDialog.ExtraColumnsHarmless | src/components/ImportDialog.tsx:29 | extra columns never make a header missing; with all three present nothing is missing |
| ImportDialog.RowCompleteIffValid | src/components/ImportDialog.tsx:35 | a row is kept iff the server's attendee validation accepts it |
| ImportDialog.KeptRowsSpec | src/components/ImportDialog.tsx:35 | the kept rows are exactly the complete rows, in order, no more than parsed, and each passes validation |
| ImportDialog.OnParsedSpec | src/components/ImportDialog.tsx:30-36 | a missing header resets the dialog; otherwise it holds the kept rows; the import button needs rows to submit |
| ImportDialog.PreviewSpec | src/components/ImportDialog.tsx:100 | the preview is the first min(100, n) rows of what would be imported |
| Export.SplitJoin | src/lib/export.ts:25 | splitting a join on its separator gives the parts back when no part contains it |
| Export.HeaderLine | src/lib/export.ts:13-15 | the header line holds no newline and ends in the header text's last letter |
| Export.HeaderLineText | src/lib/export.ts:13-15 | the header line is "First Name,Last Name,Room Number,Breakfast Status" |
| Export.StatusText | shared/types.ts:21 | the status text is "Pending" or "Served", one per status |
| Export.Quote | src/lib/export.ts:18-21 | a quoted field is the field between two double quotes, verbatim |
| Export.RowLine | src/lib/export.ts:16-23 | a data line starts and ends with a double quote |
| Export.RowLineVerbatim | src/lib/export.ts:17-22 | the first name follows the opening quote unchanged, and the line is the fields plus 11 characters, so nothing is escaped |
| Export.RowLineDecodes | src/lib/export.ts:17-22 | with no comma in a field, splitting a line on commas and unquoting gives the four fields in column order |
| Export.CsvRows | src/lib/export.ts:14-24 | the rows are the header, then one line per attendee in input order |
| Export.CsvStartsWithHeader | src/lib/export.ts:14-25 | the text starts with the header line, followed by a newline when there is data |
| Export.CsvLines | src/lib/export.ts:14-25 | with no newline in a field, the text has n + 1 lines: the header, then line i + 1 from attendee i |
| Export.CsvNoTrailingNewline | src/lib/export.ts:25 | the text never ends with a newline |
| Export.DownloadName | src/lib/export.ts:31 | the download name is the base name followed by ".csv" |

## Left out

- React rendering, hooks, toasts, routing and dialog plumbing are UI. Only the values the modelled expressions compute are kept.
- A request body that is not valid JSON makes `c.req.json()` throw before validation, and nothing is written. The model's bodies are already-parsed values, so that error response is not modelled.
- The request envelope and Zod's error text are left out. Responses carry only an outcome tag (`Ok`, `BadRequest`, `NotFound`) and the data.
- Date coercion and ISO 8601 formatting are left out. Dates are integer instants, and an uncoercible date is a missing field.
- `crypto.randomUUID` is a foreign call. Fresh ids are parameters with freshness preconditions.
- The store implementation in `worker/core-utils` is not part of this model. `Store.IndexedEntity` states its assumed behaviour.
- The handlers are run one at a time. Concurrent requests, races on first-request seeding, and a cascade delete interrupted half-way are not modelled.
- Store.IndexedEntity.Create: a create under an id that is already stored is excluded by a precondition. The store's own answer to that case is not visible.
- Store.IndexedEntity.DeleteMany: modelled as one removal of the id set, not as the store's per-id loop.
- Store.IndexedEntity.Mutate: also stands for `patch`, a mutate by a shallow merge.
- HomePage.SlugSpec: `toLowerCase` is modelled on ASCII letters only. Other cased characters are left unchanged.
- Types.ParseSeminar: string lengths count Dafny characters, not UTF-16 code units.
- Papaparse and the drop zone are foreign libraries. The header row and the parsed rows are inputs, and extra CSV columns are dropped from a row.
- The Blob, the download link and the PDF export (`jsPDF`, `autoTable`, `toLocaleDateString`) are I/O and foreign libraries.

# Web-Projekt offer management: a Dafny model of its record handling

This project models the record-handling core of the Web-Projekt offer
management system. The system has two backends and a React frontend.

- The **fastify backend** keeps offers, customers and comments in SQLite.
  Every route first runs a role gate that reads the `Authorization` header.
  The offers routes also run a sweep before every request, which deletes
  offers whose customer no longer exists.
- Its **file routes** store uploaded `.txt` files together with a JSON list
  of their metadata.
- The **older Express/fastify backend** keeps customers, and offers with
  nested `files` and `comments` arrays, in plain JSON-array files.
- The **frontend** maps the selected user group to an `Authorization` value
  and drives a tag search. The search moves from Pending to Completed as it
  polls the server.

The model has one module per source file, plus `Common`, which holds the
shared string, number and scan vocabulary. Each table or store is a class
with a `seq` field. Each route handler is a method on that class: it returns
a `Response` (status code and body, or status code and message) and updates
the rows. The rules the handlers rely on are functions with contracts: the
next-id rule, the `||` merges, the filters, the `findIndex` scans,
`path.extname` and the tag parser. Lemmas relate these functions to one
another. The clock, uuids, `Math.random` draws and the I/O outcomes are
parameters.

| module | file | source |
|---|---|---|
| `Common` | common.dfy | shared: JS `trim`/`toLowerCase`/`split`/`join`, SQL `CAST`/`MAX`, filter and find scans |
| `Authorization` | authorization.dfy | backend/Authorization/Authorization.js |
| `Header` | header.dfy | frontend/src/components/Header.js |
| `Offers` | offers.dfy | backend/routes/offers.js |
| `Customers` | customers.dfy | backend/routes/customers.js |
| `Comments` | comments.dfy | backend/routes/commentsRoutes.js |
| `JsonCustomers` | json_customers.dfy | Project/routes/customers.js |
| `JsonOffers` | json_offers.dfy | Project/routes/offers.js |
| `TextData` | text_data.dfy | backend/routes/textDataRoutes.js |
| `TagSearch` | tag_search.dfy | frontend/src/components/TagSearchPage.js |

Conventions:

- A NULL or absent text column or body field is `""`. Both are falsy in
  JavaScript, so `a || b` is `Or(a, b)`.
- Numeric columns (offer price, customer age) are `Option<int>`, so that
  NULL is distinct from 0.
- Ids are decimal strings. `CAST(id AS INTEGER)` is the value of the id's
  leading digits (`CastInt`).
- Lower-casing is ASCII only, as in SQLite's `lower`.
- JavaScript `trim` removes the ECMAScript white-space characters. SQLite
  `TRIM` removes only spaces.

## Model

| member | source | states |
|---|---|---|
| Common.Trim | backend/Authorization/Authorization.js:22 | the result is the input with only white space cut from each end, and it has no white space at either end |
| Common.TrimIdempotent | frontend/src/components/TagSearchPage.js:21 | trimming an already trimmed string changes nothing |
| Common.ReplacePrefix | backend/Authorization/Authorization.js:22 | `replace("Basic ", "")` on a header that starts with "Basic " removes exactly that prefix |
| Common.Split | frontend/src/components/TagSearchPage.js:20 | `split(",")` yields at least one piece, no piece contains the separator, and joining the pieces with the separator gives the input back |
| Common.SplitAppend | frontend/src/components/TagSearchPage.js:20 | splitting `a + "," + b` gives the pieces of `a` followed by the pieces of `b` |
| Common.Map | frontend/src/components/TagSearchPage.js:21 | `map(f)` keeps the length and applies `f` to each element in place |
| Common.MapAppend | frontend/src/components/TagSearchPage.js:21 | mapping a concatenation is the concatenation of the mappings |
| Common.JoinContainsParts | backend/routes/offers.js:340 | every part of `join(sep)` occurs in the joined text |
| Common.MaxId | backend/routes/offers.js:104 | `MAX(CAST(id AS INTEGER))` bounds every id's numeric value, is attained by one of them, and is 0 for an empty table |
| Common.NextId | backend/routes/offers.js:104-105 | the next id is the canonical decimal text of the maximum plus one ("1" for an empty table or a maximum of 0), reads back as that value, and differs from every existing id |
| Common.NatToStringValue | backend/routes/offers.js:105 | `CAST` of `n.toString()` reads back `n` |
| Common.NatToStringInjective | backend/routes/offers.js:105 | different numbers give different id texts |
| Common.IntToStringValue | backend/routes/offers.js:343 | `String(i)` of a non-negative integer is decimal text whose value is `i` |
| Authorization.RoleOfBasic | backend/Authorization/Authorization.js:22 | the role of a "Basic " header is the trimmed text after the prefix |
| Authorization.Authorize | backend/Authorization/Authorization.js:9-38 | 401 exactly when the header is missing or lacks "Basic "; 403 "Unbekannte Rolle" exactly when the role is not in ROLES, whatever the allow-list; 403 "Unzureichende Berechtigungen" exactly for a known role outside the allow-list; a pass, with that role, exactly when the role is in both lists |
| Authorization.AuthorizeMonotonic | backend/Authorization/Authorization.js:25-34 | enlarging the allow-list never turns a pass into a refusal, and the role stays the same |
| Authorization.MissingHeaderFirst | backend/Authorization/Authorization.js:14-19 | without a "Basic " header the answer is 401, never 403, whatever the allow-list |
| Header.AuthValue | frontend/src/components/Header.js:7-18 | the three "Basic <role>" groups map to themselves, and every other group maps to "Bearer StandardToken" |
| Header.RoleOfRoleName | backend/Authorization/Authorization.js:22 | "Basic " followed by a role without surrounding white space names exactly that role |
| Header.KnownRolePasses | backend/Authorization/Authorization.js:14-37 | "Basic <role>" for each role in ROLES passes a gate that allows every role, with that role |
| Header.MappedGroupsPass | frontend/src/components/Header.js:9-14 | each mapped group value starts with "Basic " and passes the gate with the role it names |
| Header.DefaultRejected | frontend/src/components/Header.js:15-16 | the default value is refused with 401 whatever the allow-list |
| Offers.MsgBadStatus | backend/routes/offers.js:215-218 | the 400 message names every valid status |
| Offers.FindById | backend/routes/offers.js:130 | `SELECT ... WHERE id = ?` finds a row with that id, and finds none exactly when no row has it |
| Offers.FilterKeepsUnique | backend/routes/offers.js:56 | a DELETE with any WHERE clause keeps the primary-key ids unique |
| Offers.RemoveUnique | backend/routes/offers.js:185 | `DELETE ... WHERE id = ?` removes exactly the one row with that id and keeps the others in order |
| Offers.Select | backend/routes/offers.js:68-85 | GET returns exactly the rows satisfying every given filter (name case-insensitive substring, price text substring, exact status), and all rows when no filter is given |
| Offers.Insert | backend/routes/offers.js:100-111 | POST keeps the old rows and appends one row holding the body's fields verbatim, with createdAt and updatedAt both `now` |
| Offers.InsertFreshId | backend/routes/offers.js:104-105 | the inserted id is the maximum plus one, is not already in use, and keeps ids unique |
| Offers.Merge | backend/routes/offers.js:137-145 | each of name, description, price, currency, customerId and status is the body's exactly when the body's is truthy and the stored one otherwise; id and createdAt are kept; updatedAt becomes `now` |
| Offers.MergeEmpty | backend/routes/offers.js:137-142 | a body with only falsy fields changes nothing but updatedAt |
| Offers.MergeStable | backend/routes/offers.js:137-159 | the PUT merge never changes id or createdAt, and merging the same body twice equals merging it once |
| Offers.SweepSound | backend/routes/offers.js:54-60 | after the sweep every offer names a customer, every offer that named one is kept, and when all did the table is unchanged |
| Offers.SeedOffer | backend/routes/offers.js:252-266 | test offer i has id i, a price in 100..1000, a valid status, a customer "1" to "5", and both timestamps `now` |
| Offers.SeedRows | backend/routes/offers.js:252-266 | one test offer per draw, numbered from 1 |
| Offers.BuildTestOffers | backend/routes/offers.js:252-266 | the seed route's loop builds exactly the ten test offers |
| Offers.SeedIdsUnique | backend/routes/offers.js:271-289 | the seeded ids are distinct |
| Offers.Convert | backend/routes/offers.js:338-345 | the description is "" without hints and otherwise the hints joined by " ", in order (so it contains every hint); "On-Ice" becomes "On Ice" and other states pass through; customerId becomes its decimal text; name, price and currency are copied |
| Offers.SamplesConverted | backend/routes/offers.js:306-345 | the two built-in samples convert to "Active" with no description for customer "1", and to "On Ice" with the hint as description for customer "3" |
| Offers.Bodies | backend/routes/offers.js:335-345 | each sample is converted, in order |
| Offers.InsertAllStep | backend/routes/offers.js:335-367 | each pass of the sample loop inserts one more converted sample onto the table as it then is |
| Offers.InsertAllShape | backend/routes/offers.js:335-367 | the sample loop adds one row per sample and leaves the old rows in front, unchanged |
| Offers.InsertAllRow | backend/routes/offers.js:352-366 | the i-th row the loop adds holds the i-th converted sample and its own timestamp |
| Offers.InsertAllLast | backend/routes/offers.js:352-366 | the last row the loop adds holds the last converted sample |
| Offers.InsertKeeps | backend/routes/offers.js:107-111 | an INSERT leaves every existing row in its place |
| Offers.InsertAllUnique | backend/routes/offers.js:347-349 | recomputing the next id before every sample keeps ids unique |
| Offers.OfferTable.Post | backend/routes/offers.js:95-120 | the row is appended under the next id with the body verbatim, and neither customer nor status is checked; 201 with the new row; ids stay unique |
| Offers.OfferTable.Put | backend/routes/offers.js:123-171 | unknown id: 404 and no change; otherwise only that row is replaced by the merge, and the reply is "Offer successfully updated" with the updated row |
| Offers.OfferTable.Delete | backend/routes/offers.js:174-195 | unknown id: 404 and no change; otherwise exactly that row is removed, and the reply is "Offer successfully deleted" with the row as it was |
| Offers.OfferTable.PatchStatus | backend/routes/offers.js:198-242 | in this order: a non-decimal id gives 400, an unknown status 400 with the allowed values, an unknown offer 404; on success only status and updatedAt change, and the reply is "Offer status successfully updated" with the updated row |
| Offers.OfferTable.Sweep | backend/routes/offers.js:54-60 | the table becomes the offers naming a customer; a failing DELETE leaves it unchanged |
| Offers.OfferTable.Seed | backend/routes/offers.js:245-297 | the table is emptied and holds exactly the ten test offers; 201 with them |
| Offers.OfferTable.AddSamples | backend/routes/offers.js:301-375 | the table becomes the old rows followed by the converted samples, each under a fresh next id; 201 with the whole table |
| Customers.FindById | backend/routes/customers.js:159 | finds a row with the id, and finds none exactly when no row has it |
| Customers.RemoveUnique | backend/routes/customers.js:164 | `DELETE ... WHERE id = ?` removes exactly that row and keeps the others in order |
| Customers.RemoveKeepsUnique | backend/routes/customers.js:164 | after the removal the ids are still unique and the deleted id is gone |
| Customers.Select | backend/routes/customers.js:48-65 | GET returns exactly the customers matching every given name/contact/address filter case-insensitively, and all customers without filters |
| Customers.NameFilterIgnoresCase | backend/routes/customers.js:52-55 | a customer whose lower-cased name contains the lower-cased filter is found whatever the filter's case |
| Customers.Insert | backend/routes/customers.js:80-90 | POST appends one row with the body's fields under the maximum id plus one, which is not in use, keeping ids unique |
| Customers.FindByIdOrName | backend/routes/customers.js:110-117 | PUT's lookup finds the first customer whose id equals the parameter or whose lower-cased name equals the lower-cased parameter, and none exactly when no customer matches |
| Customers.FindIgnoresNameCase | backend/routes/customers.js:110-113 | when the parameter is not an id, its case does not change which customer is found |
| Customers.Merge | backend/routes/customers.js:119-128 | each of name, email, age, address and contact is the body's exactly when the body's is truthy and the stored one otherwise; id and createdAt are kept; updatedAt becomes `now` |
| Customers.MergeFields | backend/routes/customers.js:119-137 | the merge keeps id and createdAt, takes name, email, age, address and contact from the body exactly when the body's is truthy, and is idempotent |
| Customers.SeedRows | backend/routes/customers.js:216-238 | test customer i is stored under id i+1 with both timestamps `now` |
| Customers.SeedIds | backend/routes/customers.js:219-238 | after the seed the ids are exactly "1" to "5", each once |
| Customers.CustomerTable.Get | backend/routes/customers.js:43-72 | 200 with the selected customers |
| Customers.CustomerTable.Post | backend/routes/customers.js:75-100 | appends the new customer under the next id; 201 with it |
| Customers.CustomerTable.Put | backend/routes/customers.js:103-149 | no match: 404 and no change; otherwise the first match, addressed by its own id, is merged, and the ids do not change |
| Customers.CustomerTable.Delete | backend/routes/customers.js:152-171 | unknown id: 404 and no change; otherwise only that customer is removed and returned as it was |
| Customers.CustomerTable.Seed | backend/routes/customers.js:174-246 | the table is emptied and refilled with the five test customers |
| Customers.DeleteThenSweep | backend/routes/offers.js:54-60 | after a customer is deleted, the next offers sweep leaves no offer naming the deleted customer and keeps the offers of the remaining customers |
| Comments.ForOffer | backend/routes/commentsRoutes.js:49-53 | GET returns exactly the comments of the route's offer |
| Comments.FindByKey | backend/routes/commentsRoutes.js:109-112 | the lookup finds a comment matching both id and offerId, and none exactly when no comment matches both |
| Comments.OtherOfferNotFound | backend/routes/commentsRoutes.js:146-152 | a comment filed under another offer is not found, even under its own id |
| Comments.RemoveKey | backend/routes/commentsRoutes.js:153-156 | DELETE removes exactly the matched comment |
| Comments.RemoveKeepsUnique | backend/routes/commentsRoutes.js:153-156 | removing one comment keeps ids unique |
| Comments.CleanupExact | backend/routes/commentsRoutes.js:169-179 | the purge keeps exactly the comments whose offerId is not blank, and changes nothing when every comment has one |
| Comments.CleanupExamples | backend/routes/commentsRoutes.js:173 | "" and "  " are purged, and " 7" survives |
| Comments.FilterKeepsUnique | backend/routes/commentsRoutes.js:173 | any bulk DELETE keeps ids unique |
| Comments.CommentTable.Get | backend/routes/commentsRoutes.js:43-59 | 200 with the offer's comments |
| Comments.CommentTable.Post | backend/routes/commentsRoutes.js:62-93 | falsy text: 400 and nothing inserted; otherwise one comment is appended under the maximum id plus one with the route's offerId; 201 |
| Comments.CommentTable.Put | backend/routes/commentsRoutes.js:96-136 | falsy text gives 400 before any lookup; no match on (id, offerId) gives 404; otherwise only text and updatedAt change |
| Comments.CommentTable.Delete | backend/routes/commentsRoutes.js:139-166 | no match: 404 and no change; otherwise exactly the match is removed and returned as it was |
| Comments.CommentTable.RemoveUnassigned | backend/routes/commentsRoutes.js:169-179 | deletes exactly the comments with a blank offerId; a failure changes nothing |
| JsonCustomers.ReadCustomersFile | Project/routes/customers.js:10-27 | a missing file is an empty list; an array is returned; anything else is an error |
| JsonCustomers.NewCustomer | Project/routes/customers.js:78-83 | the record has the body's fields, the id String(length + 1) unless the body brings its own, and createdAt and updatedAt from two separate clock readings, whatever the body holds |
| JsonCustomers.LookupFrom | Project/routes/customers.js:103-106 | `findIndex` returns the first index whose id or lower-cased name matches; it returns -1 exactly when every test is false; a customer without a name ahead of any match makes it throw |
| JsonCustomers.LookupCrash | Project/routes/customers.js:105 | a nameless non-matching customer ahead of every match makes the scan throw |
| JsonCustomers.LookupFound | Project/routes/customers.js:103-106 | when the first customer whose test does not fail matches, `findIndex` returns that customer's index, so PUT updates it |
| JsonCustomers.LookupSkip | Project/routes/customers.js:103-106 | customers whose test is false are skipped |
| JsonCustomers.Merge | Project/routes/customers.js:117-123 | name, contact and address take the body's truthy value; updatedAt becomes `now`; every other field is unchanged |
| JsonCustomers.FindId | Project/routes/customers.js:143-145 | DELETE's `findIndex` finds the first record with that id, and none exactly when none has it |
| JsonCustomers.FindIndex | Project/routes/customers.js:103-106 | the loop computes the `findIndex` result |
| JsonCustomers.CustomerStore.Get | Project/routes/customers.js:43-52 | the parsed file is returned as it is, even when it is not an array; a missing or unreadable file gives 500 |
| JsonCustomers.CustomerStore.Post | Project/routes/customers.js:56-94 | one record, built from the current length and two clock readings, is appended at the end; a file that cannot be read gives 500 |
| JsonCustomers.CustomerStore.Put | Project/routes/customers.js:97-133 | index -1 gives 404 and no change; a throwing scan gives 500; otherwise only the found index is merged |
| JsonCustomers.CustomerStore.Delete | Project/routes/customers.js:137-162 | an unknown id gives 404; otherwise the first record with it is spliced out, the rest keep their order, and the record is returned |
| JsonCustomers.DuplicateIdAfterDelete | Project/routes/customers.js:78-85 | after a delete the length+1 id can equal an id still in use |
| JsonOffers.LoadOffers | Project/routes/offers.js:11-18 | a read or parse failure is an empty list |
| JsonOffers.FindSpec | Project/routes/offers.js:32 | `find` gives the first offer with the id, and none exactly when none has it |
| JsonOffers.FindOffer | Project/routes/offers.js:32 | the scan computes the `find` result |
| JsonOffers.NewFile | Project/routes/offers.js:28-38 | the name is "file-" + uuid + ".txt" and the url is "/files/" + name |
| JsonOffers.FindAfterUpdate | Project/routes/offers.js:39 | changing an offer's nested arrays keeps it the one `find` returns |
| JsonOffers.OfferStore.AddFile | Project/routes/offers.js:25-46 | unknown offer: 404 and no change; an offer without `files`: 500; otherwise one record is appended to that offer's files only; 201 |
| JsonOffers.OfferStore.ListFiles | Project/routes/offers.js:48-54 | unknown offer: 404; otherwise its files, or [] when it has none |
| JsonOffers.OfferStore.AddComment | Project/routes/offers.js:57-70 | unknown offer: 404; otherwise {id, text, timestamp} is appended to that offer's comments without checking the text; an offer without `comments` throws outside any handler |
| JsonOffers.FileAddedIsListed | Project/routes/offers.js:25-54 | after an upload, GET on the same id lists the old files followed by the new one, and no other offer changes |
| TextData.StripTrailingSlashes | backend/routes/textDataRoutes.js:39 | extname first drops trailing slashes |
| TextData.AfterLastSlash | backend/routes/textDataRoutes.js:39 | the last path segment: the tail of the path after its last '/', the whole path when it has none |
| TextData.LastIndexOf | backend/routes/textDataRoutes.js:39 | finds the last '.' of the segment, and none exactly when it has no '.' |
| TextData.ExtName | backend/routes/textDataRoutes.js:39 | a non-empty extension starts with its only '.' |
| TextData.SegmentExt | backend/routes/textDataRoutes.js:39 | a non-empty extension of a segment starts with its only '.' |
| TextData.SegmentExtTail | backend/routes/textDataRoutes.js:39 | the extension is a tail of the segment and never the whole segment, and a segment without '.' has none |
| TextData.ExtNameNoDot | backend/routes/textDataRoutes.js:39 | a path without '.' has no extension |
| TextData.TxtRule | backend/routes/textDataRoutes.js:39-42 | a plain name is accepted exactly when it is longer than ".txt" and ends in ".txt" in any case |
| TextData.UpperCaseAccepted | backend/routes/textDataRoutes.js:39 | "a.TXT" is accepted |
| TextData.LastExtensionCounts | backend/routes/textDataRoutes.js:39 | "a.txt.bak" is rejected |
| TextData.DotFileRejected | backend/routes/textDataRoutes.js:39 | ".txt" has no extension and is rejected |
| TextData.LoadFileData | backend/routes/textDataRoutes.js:17-24 | any read or parse failure is an empty list |
| TextData.NewEntry | backend/routes/textDataRoutes.js:45-64 | storedName is the id + ".txt", the url is "/assets/" + storedName, and offerId is the route's |
| TextData.ListForOffer | backend/routes/textDataRoutes.js:80-85 | GET lists exactly the projections {id, name, url} of the entries with the route's offerId |
| TextData.ListAfterAppend | backend/routes/textDataRoutes.js:65-85 | an upload adds its file at the end of its own offer's listing and leaves every other offer's listing unchanged |
| TextData.FileStore.Upload | backend/routes/textDataRoutes.js:31-73 | a name without ".txt" extension gives 400 and no change; a metadata value that is not a list gives 500; otherwise exactly one entry is appended at the end |
| TextData.FileStore.List | backend/routes/textDataRoutes.js:76-91 | 200 with the offer's listing |
| TagSearch.TrimAll | frontend/src/components/TagSearchPage.js:21 | every piece is trimmed, in order |
| TagSearch.ParseTags | frontend/src/components/TagSearchPage.js:19-22 | there are at most as many tags as comma-separated pieces |
| TagSearch.TrimAllAppend | frontend/src/components/TagSearchPage.js:21 | trimming the pieces of a concatenation is the concatenation of the trimmed pieces |
| TagSearch.ParseTagsSingle | frontend/src/components/TagSearchPage.js:19-22 | input without a comma gives its trimmed text as the one tag, or no tag when that is empty |
| TagSearch.ParseTagsAppend | frontend/src/components/TagSearchPage.js:19-22 | the tags of `a + "," + b` are the tags of `a` followed by those of `b`: input order is kept |
| TagSearch.RepeatedTagKept | frontend/src/components/TagSearchPage.js:19-22 | a tag typed twice is sent twice |
| TagSearch.ParseTagsMembers | frontend/src/components/TagSearchPage.js:19-22 | the tags are exactly the trimmed comma-separated pieces that are not empty |
| TagSearch.ParseTagsClean | frontend/src/components/TagSearchPage.js:19-22 | no tag is empty, has white space at either end, or contains a comma |
| TagSearch.TrimNoNewChars | frontend/src/components/TagSearchPage.js:21 | trimming adds no character |
| TagSearch.Effect | frontend/src/components/TagSearchPage.js:47-72 | when taskId or status changes, polling runs exactly when there is a truthy task id and the status is Pending; otherwise it stays as it was |
| TagSearch.Search | frontend/src/components/TagSearchPage.js:17-36 | no tags: only the error is set and nothing is sent; otherwise the status becomes Pending, the result empty, the error cleared, and the request carries the tags, substring=true, caseInsensitive=true and the group's auth value |
| TagSearch.Poll | frontend/src/components/TagSearchPage.js:50-69 | "Completed" sets the result and the status, ends the search and stops polling; another status changes nothing; an error sets the message and stops polling |
| TagSearch.NewSearch | frontend/src/components/TagSearchPage.js:75-82 | everything returns to the initial state |
| TagSearch.CompletedIsFinal | frontend/src/components/TagSearchPage.js:57-61 | after a "Completed" poll, later polls change nothing |
| TagSearch.SearchLifecycle | frontend/src/components/TagSearchPage.js:17-72 | search, acceptance and a "Completed" poll leave the page Completed with the server's result, no error and no polling |
| TagSearch.Accepted | frontend/src/components/TagSearchPage.js:38 | only the task id changes, and polling starts exactly when the task id changed to a truthy one while Pending |
| TagSearch.RequestFailed | frontend/src/components/TagSearchPage.js:39-43 | the start error is shown and the search ends; status, task id, result and polling stay as they were |
| TagSearch.FailedSearchStaysPending | frontend/src/components/TagSearchPage.js:17-43 | a search whose request fails leaves the page Pending with no task id and no polling, so later polls change nothing |
| TagSearch.PollErrorStopsPolling | frontend/src/components/TagSearchPage.js:63-68 | a failed poll stops polling for good, with task id and status unchanged |

## Left out

- The SQLite promise wrappers `run`, `all` and `get`, and the database
  connection, are not part of this model. Each table is an in-memory
  sequence, and a `get` with several matches returns the first row in table
  order.
- SQL `LIKE` wildcards: a `%` or `_` typed into a GET filter is taken
  literally (`Contains`). SQLite would treat it as a wildcard.
- SQL NULL: the three-valued logic of `customerId NOT IN (SELECT id ...)` in
  the sweep is not modelled. A NULL customerId is `""`, which the model
  deletes unless a customer has id `""`. SQLite keeps such a row while the
  customers table has rows, and deletes it only when that table is empty.
- `CAST(id AS INTEGER)` on ids with a sign, leading white space or a
  fractional part: `CastInt` reads only leading ASCII digits.
- A non-integer or text `price`: prices are integers, and `CAST(price AS
  TEXT)` is their decimal text.
- Lower-casing is ASCII only. JavaScript's `toLowerCase` also folds
  non-ASCII letters.
- The database schema (backend/setupDatabase.js) is not part of this model.
  Customer rows follow backend/routes/customers.js, including `age`.
- I/O: file reads and writes, multipart streaming, static serving, and the
  failure of a write after a successful read. Loading a file is a parameter
  (`StoredFile`, `MetaFile`, `OffersFile`). TextData.FileStore.Upload does
  not model that the asset file is written before the metadata is loaded.
- Timers: the 60-second interval of `removeUnassignedComments`, the
  `onRequest` hook and the 5-second polling interval are operations invoked
  explicitly. The frontend polling interval is the `polling` flag of the
  page state.
- TagSearch.Effect: the effect also re-runs when the auth value changes;
  the model keeps the group fixed during a search.
- React rendering, hooks and axios calls beyond the page-state transitions
  are not modelled.
- The backend tag-search task registry and matching algorithm are not part
  of this model.
- JSON values: records of the JSON stores hold string values only; numeric
  ids, non-string names and key order are not modelled. Project/routes/offers.js
  with a parsed value that is not an array is modelled as unreadable.
- Replies of the framework when a handler throws outside any `try` are the
  `Unhandled` response. Error replies of the `catch` blocks for failing SQL
  statements (500) are not modelled, except the sweep and purge failures.
- A request without any body: the handlers that destructure
  `request.body` (CommentTable.Post and Put, OfferTable.Post, Put and
  PatchStatus, CustomerTable.Post and Put, CustomerStore.Put) then throw a
  TypeError inside their `try`, and the catch replies 500. The model always
  has a body, whose absent fields are `""` or `None`, so it replies 400, 200
  or 201 there instead.
- Concurrency between requests, such as two POSTs computing the same next id.
- Integer width: `MAX(CAST(id AS INTEGER))` arrives as a JavaScript number,
  so `parseInt` and `toString` lose precision above 2^53 and print
  exponent notation from 1e21 on; ids are unbounded naturals in the model.
  The modelled routes start ids at 1 and add one per row, so they cannot
  reach these values.
- The current time, uuids and random draws are parameters. The seed route's
  draws are assumed in range (`DrawInRange`), as `Math.floor(Math.random()
  * n)` guarantees.

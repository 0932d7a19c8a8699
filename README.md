# Syahi writings store, modelled in Dafny

Syahi is a client-side site for sharing poems, stories and essays. Everything
it keeps lives in the browser's local storage, and the logic is small:

- a **writings store**: a list of writing records under the key
  `"publishedWritings"`;
- a lazily created **device user id** under `"syahi_user_id"`, with a display
  name derived from it;
- the **publish form**, which builds a fresh record and puts it at the head
  of the list;
- the **Explore page**, which shows the stored list (or three sample records
  when nothing is stored), filters it by a case-insensitive search and a
  category, and picks the preview text for each card.

This project models those pieces and proves what they promise. In particular
it proves the "nothing else changes" facts about the list: a save prepends
and keeps the old records in order; an update overwrites exactly the first
matching position, or changes nothing and dispatches nothing.

Files and modules:

- `types.dfy`, module `Types`: the `Writing` and `Comment` records, the
  `Kind` of a writing (poem, story, essay, other) and `Option`.
- `js_text.dfy`, module `JsText`: the JavaScript string built-ins the code
  relies on, with their clamping rules: `slice(0, n)`, `substring(a, b)`,
  and how a template literal renders a non-negative number.
- `storage.dfy`, module `Storage`: the pure lookups (`find`, `findIndex`),
  the user-id and user-name rules, and the class `Store`. `Store`'s fields
  are the two storage keys and the log of window notifications. Its methods
  are `saveWritingToStorage`, `updateWritingInStorage` and `getUserId`, and
  its read functions are `getWritingsFromStorage` and `getWritingById`.
- `new_writing.dfy`, module `NewWriting`: the form's length rules, the record
  built on submit, and the submit handler's read–prepend–write on the store.
- `explore.dfy`, module `Explore`: the sample fallback, the search-and-type
  filter and the card text.

Inputs that the browser supplies are parameters:

- the random characters of a new user id (`randomPart`);
- `Date.now()` (`now`);
- each reading of the clock as an ISO string. The submit handler reads it
  twice (`createdAt`, `updatedAt`), and the sample list three times
  (`t1`, `t2`, `t3`). Each reading is its own parameter, because two
  readings need not agree.

The records follow `src/types/index.ts`: `Writing`, `User` and `Comment`
with its author summary. The record type declares `authorId`, `updatedAt`
and `comments` as required. The submit handler sets no author and no
comments, though, and the sample records have no `updatedAt`. The model
follows the records the code actually builds, so those three fields are
`Option`s, as are the fields the type marks optional. `createdAt` is always
set and stays a plain string. No modelled operation builds or reads a
`User` or a `Comment`: the store only stores and copies them.

The serialized blob is modelled as the parsed list itself. When the key is
absent or holds the empty string, `Store.writingsSlot` is `None`. In
JavaScript both are falsy, and the code reads both as the empty list.

## Model

| member | source | states |
|---|---|---|
| `Storage.StoredList` | src/lib/storage.ts:20-23 | an absent "publishedWritings" key reads as the empty list; otherwise the stored list is returned as is |
| `Storage.Store.GetWritingsFromStorage` | src/lib/storage.ts:20-23 | reading the store yields [] when the key is absent and the stored list otherwise |
| `Storage.FindIndex` | src/lib/storage.ts:38 | findIndex by id: -1 exactly when no record has the id; otherwise an index whose record has the id, with no record before it that does |
| `Storage.Find` | src/lib/storage.ts:30 | find by id: None exactly when no record has the id; otherwise the record at the first index holding that id |
| `Storage.Store.GetWritingById` | src/lib/storage.ts:28-31 | getWritingById yields the first stored record with that id, and "not found" exactly when no stored record has it |
| `Storage.FindAfterPrepend` | src/lib/storage.ts:8-11 | a record put at the head of the list is at index 0 for findIndex, and find by its id returns it, whatever follows |
| `Storage.Store.SaveWritingToStorage` | src/lib/storage.ts:8-15 | the stored list becomes [w] + the old list: one longer, the old records follow in their old order, getWritingById(w.id) returns w; "writingPublished" is dispatched; the user id key is not touched |
| `Storage.ReplaceFirst` | src/lib/storage.ts:36-44 | overwriting the first index with u's id keeps the length and every other position, and findIndex and find by u.id now give that same index and u |
| `Storage.Store.UpdateWritingInStorage` | src/lib/storage.ts:36-48 | returns true exactly when some stored record has u's id. Then exactly the first such index holds u, length and all other positions are unchanged, getWritingById(u.id) returns u, and one "writingUpdated" event carrying u is dispatched. Otherwise the key, the list and the event log are unchanged |
| `Storage.ResolveUserId` | src/lib/storage.ts:54-61 | the id returned is never empty. A non-empty stored id is returned as is. An absent or empty slot yields "user_" followed by the random part |
| `Storage.UserIdStable` | src/lib/storage.ts:54-61 | once an id has been produced and stored, every later call returns that same id, whatever the random source yields |
| `Storage.Store.GetUserId` | src/lib/storage.ts:54-61 | returns the resolved id and leaves the slot holding exactly that id. An existing non-empty id stays untouched. Only the user id key may change |
| `JsText.Substring` | src/lib/storage.ts:69 | substring clamps both indices to the string; for 0 <= start <= end this is s[min(start,len)..min(end,len)] |
| `JsText.SubstringSwapsAndClamps` | src/lib/storage.ts:69 | substring(a, b) equals substring(b, a); a negative index counts as 0 and an index past the end counts as the length |
| `Storage.GetUserName` | src/lib/storage.ts:66-70 | the name is "Writer " followed by characters 5 to 9 of the id, clamped to its length |
| `Storage.GeneratedUserName` | src/lib/storage.ts:57-69 | for an id of the form "user_" + r, the name is "Writer " + the first min(5, len r) characters of r, so the prefix is skipped |
| `NewWriting.SchemaAccepts` | src/pages/NewWriting.tsx:29-33 | the form schema accepts a title of at least 2 and a content of at least 10 characters, so accepted data never has an empty title or content |
| `NewWriting.NewRecord` | src/pages/NewWriting.tsx:54-65 | title, content and type are copied verbatim. averageRating, totalRatings and commentsCount are 0. The excerpt is the prefix of the content of length min(150, len). createdAt and updatedAt are the two clock readings, each from its own parameter. The id starts with "writing-". No author and no comments are set |
| `JsText.Take` | src/pages/NewWriting.tsx:59 | slice(0, n) is the prefix of length min(n, len) |
| `NewWriting.ShortContentIsExcerpt` | src/pages/NewWriting.tsx:59 | a content of at most 150 characters is its own excerpt |
| `JsText.Decimal` | src/pages/NewWriting.tsx:55 | a number renders as a non-empty string of decimal digits, of length at least 2 exactly when the number is at least 10, with no leading zero unless the number is 0 |
| `JsText.DecimalValue` | src/pages/NewWriting.tsx:55 | reading the rendered digits back in base 10 gives the number |
| `JsText.DecimalInjective` | src/pages/NewWriting.tsx:55 | different numbers render differently |
| `NewWriting.NewRecordIdsDiffer` | src/pages/NewWriting.tsx:55 | two submissions at different values of Date.now() get different ids |
| `NewWriting.NewRecordCard` | src/pages/NewWriting.tsx:59 | an accepted submission's card shows its excerpt, the first 150 characters of the content, never followed by "..." |
| `NewWriting.OnSubmit` | src/pages/NewWriting.tsx:29-78 | requires title >= 2 and content >= 10 characters. The stored list becomes [new record] + the old list, with an absent key read as the empty list. The old records follow in order. Lookup by the new id returns the new record. "writingPublished" is dispatched. The user id key is untouched |
| `Explore.ToLower` | src/pages/Explore.tsx:63-64 | lower-casing keeps the length and maps each character by the ASCII rule |
| `Explore.IncludesIffOccurs` | src/pages/Explore.tsx:63-64 | includes(s, sub) holds exactly when sub occurs in s at some position |
| `Explore.IncludesEmpty` | src/pages/Explore.tsx:63-64 | the empty query is included in every string |
| `Explore.Includes` | src/pages/Explore.tsx:63-64 | includes(s, sub) needs sub to be no longer than s, and holds whenever sub is a prefix of s, the empty string included |
| `Explore.MatchesSearch` | src/pages/Explore.tsx:63-64 | the search half of the callback: the empty query matches every record, and a match needs the query to be no longer than the title or the content |
| `Explore.MatchesType` | src/pages/Explore.tsx:65 | "all" passes every record; a category passes exactly the records of that category |
| `Explore.Keep` | src/pages/Explore.tsx:62-66 | a kept record matches both the search and the type; with the empty query, only the type decides |
| `Explore.KeepIff` | src/pages/Explore.tsx:62-66 | a record is kept exactly when both hold: the lower-cased query occurs in the lower-cased title or content, and the type filter is "all" or equals the record's type |
| `Explore.Filter` | src/pages/Explore.tsx:62-67 | the result is no longer than the input, and every record in it passes. A record is in the result exactly when it is in the input and passes |
| `Explore.FilterIsOrderedSelection` | src/pages/Explore.tsx:62 | the result is the input restricted to an increasing list of positions, and a position is in that list exactly when its record passes. So it is the passing records, in their original order |
| `Explore.FilterKeepsAllPassing` | src/pages/Explore.tsx:62-67 | a list whose records all pass is returned unchanged |
| `Explore.FilterIdempotent` | src/pages/Explore.tsx:62-67 | filtering an already filtered list with the same query and type changes nothing |
| `Explore.FilterNothing` | src/pages/Explore.tsx:63-65 | with the empty query and "all", the filtered list equals the input |
| `Explore.Samples` | src/pages/Explore.tsx:22-56 | three fixed sample records, with ids "sample-1", "sample-2" and "sample-3", each stamped with its own clock reading |
| `Explore.DisplayWritings` | src/pages/Explore.tsx:18-22 | a non-empty stored list is shown as is. An empty or absent one is replaced by the three samples. The list shown is never empty |
| `Explore.CardText` | src/pages/Explore.tsx:131 | a non-empty excerpt is shown as is. Otherwise the text starts with content[..150]. It equals the content when that has at most 150 characters. Otherwise it is 153 characters long and ends in "..." |

## Left out

- Serialization: `JSON.stringify` and `JSON.parse` are not modelled. The key
  holds the list itself. A blob that does not parse makes `JSON.parse` throw,
  and the code does not catch it. The model has no such state, so it claims
  no recovery from a corrupt blob.
- Randomness and clocks: `Math.random()`, `Date.now()` and
  `new Date().toISOString()` are parameters. The base-36 rendering of the
  random number is not modelled; the characters it yields are `randomPart`.
- Events: `window.dispatchEvent` is modelled as appending to `Store.dispatched`.
  Listeners and cross-tab `storage` events are not modelled. Neither are two
  tabs that read and write the same key, with last writer winning: that is
  concurrency.
- Explore.ToLower: lower-cases ASCII letters only, not the full Unicode
  `toLowerCase` mapping.
- String lengths count Dafny characters, not UTF-16 code units.
- The form's `type` field: the schema accepts any string; the model takes one
  of the four categories, the only values the selector offers. The Explore
  type filter is likewise "all" or one category.
- Form machinery: zod and react-hook-form are abstracted to the two length
  rules, the precondition of `OnSubmit`. `setIsSubmitting`, the toast, the
  delayed navigation and all React state and rendering are left out.
- The card's rating, count and date rendering (`averageRating || "New"` etc.)
  is presentation.
- Ratings are `real` and are only stored and copied. No floating-point
  arithmetic happens in the modelled code.
- Rating averaging and comment appending: this code has neither operation. The
  rating and comment handlers in `src/pages/WritingPage.tsx` only set page
  state and show messages, so there is no store change to model.
- Presentation components (the dashboard, about, index and writing pages, the
  navigation bar, hero, feature card and sign-in dialog) are layout and
  routing over mock data.

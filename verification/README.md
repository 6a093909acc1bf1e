# ProjectDock record store and queries, modelled in Dafny

ProjectDock is a browser-only portfolio manager. Its data lives in one
`localStorage` key, `projectdock_projects`, as a JSON array of project
records. This project models the code in `js/app.js` that owns that key and
queries it:

- `ProjectStorage`: `getProjects`, `saveProjects`, `addProject`,
  `updateProject`, `deleteProject` and `getProject`;
- `SearchFilter`: `filterProjects` and `sortProjects`;
- `Utils.truncateText`.

The persistent key is a value, `StoreState = Absent | Malformed | Stored(records)`.
`Malformed` covers every stored value that `getProjects` reads as `[]` although
the key is present: text that does not parse, JSON that is not an array, and
an array with a `null` element, on which the thumbnail check
(`project.thumbnail`) throws and the `catch` returns `[]`. A later add or
delete then overwrites the whole key.
How each `setItem` call ends is an input, `Attempt(first, retry)`, where each
outcome is `Written`, `QuotaExceeded` or `WriteFailed`; `retry` is only
consulted after a quota error. The generated id (`Date.now().toString()`) and
the creation time are inputs too. With that, every store operation is a pure
function that returns `Step(result, store)`: the JavaScript return value and
the key's new contents.

Modules:

- `Wrappers`: `Option`, used for `null` / `undefined`.
- `Seqs`: `Filter` (`Array.prototype.filter`) and what it guarantees: it keeps
  exactly the matching positions, in order.
- `Text`: ASCII `toLowerCase`, `includes` (`Contains`, proved equal to "occurs
  at some position"), and the lexicographic order `StrLeq` used for names.
- `Records`: the `Project` record, the `Draft` passed to `addProject`, the
  `Patch` passed to `updateProject`, the merge, and the thumbnail-clearing
  map used by the quota fallback.
- `ProjectStorage`: the store operations and the lemmas relating them.
- `SearchFilter`: the three filter predicates, `FilterProjects`, a stable
  insertion sort, and `SortProjects`.
- `Utils`: `TruncateText`.

Behaviour of the code that the model keeps and proves:

- Deleting reports whether a record had the id, whatever the write did. A
  failed save therefore still returns `true` while the record stays stored
  (`DeleteIgnoresWriteOutcome`).
- Deleting when the key is absent or malformed writes `[]`
  (`DeleteOnUnreadableKeyStoresEmpty`).
- Adding with a generated id that is already taken is not caught: ids stay
  unique exactly when the new id is fresh (`AddKeepsIdsUnique`).
- After the quota fallback, `addProject` returns its in-memory record, which
  still has its thumbnail. `updateProject` returns the record it reads back,
  which does not.
- The read-back in `updateProject` cannot miss once the write succeeded: the
  update returns a record exactly when the id exists and the write persisted.

## Model

| member | source | states |
|---|---|---|
| `Seqs.FilterMembers` | js/app.js:140 | an element is in the filtered array exactly when it is in the input and satisfies the predicate |
| `Seqs.FilterPositions` | js/app.js:140 | filtering picks out, at increasing positions, exactly those positions of the input whose element satisfies the predicate |
| `Seqs.FilterShrinks` | js/app.js:142 | the filtered array is shorter than the input exactly when some element fails the predicate |
| `Text.ContainsIffOccurs` | js/app.js:523 | `includes` is true exactly when the needle occurs at some position of the string |
| `Records.NewRecord` | js/app.js:70-74 | a new record's `createdAt` is the current time even when the caller supplied one; its id is the caller's when supplied, else the generated one |
| `Records.Merge` | js/app.js:103-108 | the merged record keeps the old `id` and `createdAt` whatever the update supplies |
| `Records.MergeOnlyPinnedFields` | js/app.js:103-108 | an update that supplies only `id` and `createdAt` leaves the record exactly as it was |
| `Records.MergeIdempotent` | js/app.js:103-108 | applying the same update twice gives the same record as applying it once |
| `Records.MergeCategoryOnly` | js/app.js:103-108 | an update of the category alone changes the category and nothing else |
| `Records.StripThumbnails` | js/app.js:52-55 | the fallback copy has the same length, no record keeps a thumbnail, and every other field is unchanged |
| `Records.StripThumbnailsIdempotent` | js/app.js:52-55 | clearing thumbnails a second time changes nothing |
| `Records.IndexOfId` | js/app.js:90 | `findIndex` gives a position holding the id with no earlier position holding it, and `-1` only when no record has the id |
| `Records.IndexOfIdFirst` | js/app.js:90 | a position holding the id with no earlier one holding it is the one `findIndex` reports |
| `Records.FindById` | js/app.js:147 | `find` gives the first record with the id, and `undefined` exactly when no record has it |
| `ProjectStorage.GetProjects` | js/app.js:7-35 | loading never fails: a stored array is returned as is, and an absent or malformed key reads as `[]` |
| `ProjectStorage.SaveProjects` | js/app.js:38-66 | a non-array is rejected with no write; the result is true exactly when the first write or, after a quota error, the thumbnail-free retry succeeds; on failure the key is unchanged; on success it holds the records, without thumbnails if the retry wrote them |
| `ProjectStorage.SaveThenLoad` | js/app.js:7-66 | saving then loading returns the records field for field, minus thumbnails only when the quota fallback wrote them; a failed save leaves what loads unchanged |
| `ProjectStorage.AddProject` | js/app.js:68-85 | the add returns a record exactly when the save persisted, else `null` with the key untouched; the record has the fresh `createdAt` and the caller's id over the generated one; the key then holds the old records followed by it |
| `ProjectStorage.AddAppends` | js/app.js:68-85 | after a successful add the old records, then the new one, are stored (thumbnails aside after the fallback), and the returned record keeps the caller's thumbnail |
| `ProjectStorage.AddKeepsIdsUnique` | js/app.js:70-77 | starting from unique ids, a successful add keeps ids unique exactly when the new id was not already stored |
| `ProjectStorage.AddThenGet` | js/app.js:68-85 | after adding under a fresh id, looking that id up finds the new record with its creation time |
| `ProjectStorage.AddThenDelete` | js/app.js:68-143 | adding under a fresh id and then deleting that id restores the stored records |
| `ProjectStorage.UpdateProject` | js/app.js:87-131 | an unknown id returns `null` with no write; a record is returned exactly when the id exists and the write persisted; the returned record has the requested id; a failure leaves the key untouched |
| `ProjectStorage.UpdateReplacesFirstMatch` | js/app.js:89-131 | a successful update replaces only the first record with the id, by the merge; every other position and the length are unchanged; the returned record is the stored one, without thumbnail after the fallback |
| `ProjectStorage.UpdateKeepsIdsAndDates` | js/app.js:103-116 | whatever the outcome, every stored record keeps its `id` and `createdAt`, so unique ids stay unique |
| `ProjectStorage.WithoutId` | js/app.js:140 | no kept record has the id, every kept record was stored, and every record with another id is kept |
| `ProjectStorage.DeleteProject` | js/app.js:138-143 | the result is true exactly when some record had the id; on a persisted write the key holds an array of the records without the id; on a failed write the key is unchanged |
| `ProjectStorage.DeleteOnUnreadableKeyStoresEmpty` | js/app.js:138-143 | deleting from an absent or malformed key returns false and, once the write persists, leaves an empty array stored |
| `ProjectStorage.DeleteKeepsOthersInOrder` | js/app.js:140-141 | the records a delete keeps are exactly the ones with other ids, in their original order |
| `ProjectStorage.DeleteMissingId` | js/app.js:138-143 | deleting an id no record has returns false and, on a plain write, leaves the stored records as they were |
| `ProjectStorage.DeleteIgnoresWriteOutcome` | js/app.js:141-142 | when the save fails, a delete of a stored id still returns true while the record remains stored |
| `ProjectStorage.GetProject` | js/app.js:145-148 | the lookup finds nothing exactly when no record has the id; what it finds has the id and is stored |
| `SearchFilter.FilterProjects` | js/app.js:520-541 | every returned record is an input record passing the search, category and tag tests, and every input record passing them is returned |
| `SearchFilter.FilterProjectsInOrder` | js/app.js:520-541 | the result is the input at exactly the matching positions, in input order |
| `SearchFilter.NoFiltersKeepsAll` | js/app.js:522-540 | with an empty term, no category and no tags, the whole input is returned |
| `SearchFilter.SearchIgnoresTermCase` | js/app.js:522-531 | the search test gives the same answer for a term and its lower-cased form |
| `SearchFilter.NameMatchIsSubstring` | js/app.js:523 | the name test holds exactly when the lower-cased term occurs in the lower-cased name |
| `SearchFilter.SortBy` | js/app.js:545-555 | the sorted copy is a permutation of the input |
| `SearchFilter.SortBySorted` | js/app.js:548-555 | the sorted copy is ordered by the comparator of its key |
| `SearchFilter.SortByStable` | js/app.js:548-555 | records that compare equal come out in their input order |
| `SearchFilter.SortProjects` | js/app.js:544-559 | the result is a permutation of the input, ordered for the four known keys, and the input order itself for any other key |
| `SearchFilter.SortProjectsOrders` | js/app.js:548-555 | `name-asc` / `name-desc` give non-decreasing / non-increasing names; `date-newest` / `date-oldest` give non-increasing / non-decreasing `createdAt` |
| `SearchFilter.SortByNameKeepsEqualNamesInOrder` | js/app.js:552-555 | under either name sort, records with the same name keep their input order |
| `Utils.TruncateText` | js/app.js:512-515 | a missing or empty text gives `''`; a text that fits is returned as is; a longer one becomes its first `maxLength` characters (none for a negative limit) followed by `'...'`, exactly `maxLength + 3` long |
| `Utils.TruncateTextDefault` | js/app.js:512-515 | with the default limit of 100, a text of at most 100 characters comes back unchanged and no result is longer than 103 |
| `Utils.TruncateTextIdempotent` | js/app.js:512-515 | truncating a truncated text with the same limit changes nothing |

## Left out

- The raw JSON text and `JSON.parse` / `JSON.stringify`: the key is abstracted to absent, malformed or a stored array of records. An array with a `null` element is `Malformed`, since loading it yields `[]`. Other non-record elements, such as numbers or records with missing fields, are not modelled.
- `localStorage` itself: each write's outcome is an input, and the write is atomic.
- `Date.now()` and `new Date().toISOString()`: the generated id and the creation time are inputs; `createdAt` is an integer timestamp rather than an ISO string, so an unparseable date (whose comparator yields `NaN`) is not modelled.
- The `console.warn` calls of the thumbnail integrity check in `getProjects` and all other `console` logging. The check itself can throw on a `null` element; that case is covered by `Malformed`.
- The `try` / `catch` blocks in `getProjects` and `updateProject` beyond the paths above: on the modelled records nothing else in them can throw.
- Fields other than the ten record fields: a caller's extra keys travel through the spread in the code, but the model's records have a fixed shape.
- `status` is kept as a string: the code never checks it against the four display values.
- `Text.Lower`: case folding covers ASCII letters only, not the full Unicode mapping of `toLowerCase`.
- `SearchFilter.Leq`: `localeCompare` is modelled as plain lexicographic order on code points, so locale collation and distinct strings that compare equal are not modelled.
- String lengths count Unicode scalar values, not UTF-16 code units as JavaScript does.
- `Utils.TruncateText`: a `maxLength` that is not an integer is not modelled.
- `Utils.formatDate`, `FormValidator`, `Counter`, navigation, theme, toasts, modals, animations, file previews and `js/components.js`: DOM glue, timers and locale-dependent date formatting with no stateable logic.
- Several browser tabs writing the same key: the code has no defence against it, and the model has one writer.

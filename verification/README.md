# Todo store of the todo MCP server, in Dafny

This project models the core of a small task-tracking server: an in-memory
store of todo records, keyed by ids `todo-1`, `todo-2`, … minted from a
counter, and the query and statistics code its tool handlers run over that
store. The modelled handlers are `create_todo`, `update_todo`, `delete_todo`,
`list_todos` and `todo_stats`, plus the `todos://summary` resource. All of
them live in `src/index.ts`.

Modules, one per component:

- `Wrappers`: `Option` (absent request fields) and `Result` (structured failures).
- `Todos`: the `Todo` record and the `Priority` enum.
- `Ids`: `generateId`'s `todo-N` rendering and its inverse `IdNumber`.
- `TodoStore`: the state, i.e. a `map<string, Todo>`, the key insertion order of
  the JavaScript `Map` (which `Array.from(todos.values())` exposes), and the
  counter `nextId`. Also the three mutating handlers, the store invariant
  `Valid`, and request sequences (`Run`, `MintedIds`).
- `Seqs`, `Sorting`: `Array.prototype.filter` as an order-preserving `Filter`,
  and `Array.prototype.sort` as a stable insertion sort in non-increasing key order.
- `Query`: the three `list_todos` filters and the newest-first sort.
- `Stats`: `todo_stats` and the summary resource.
- `ObjectTally`: the tag reduce as written, on a plain object (see Findings).
- `Scenarios`: concrete runs of the query and statistics code.

Modelling choices:

- The clock is a parameter `now: int`, in milliseconds.
- Zod's schema checks become the input datatypes `CreateRequest` and `Patch`.
  An absent priority defaults to `Medium` and absent tags to `[]`.
- The `min(1)` title check on create becomes the `EmptyTitle` failure. On that
  failure no id is minted.
- "Not found" is a `Failure(NotFound(id))`. A failed request leaves the state as
  it was (`Step`).
- Create does not trim the title.
- Update does not check the title, so an update can store an empty one.
- There is no separate `get` operation.
- `createdAt <= updatedAt` is not guaranteed by the code. It holds only if the
  clock does not run backwards, which is the requirement of `StepKeepsTimestampsOrdered`.
- In `list_todos`, `if (tag)` treats the empty string as false. An empty tag
  therefore filters nothing (`TagMatches`).

## Model

| member | source | states |
|---|---|---|
| Ids.IdOf | src/index.ts:22-24 | a minted id is `todo-` followed by the counter in decimal |
| Ids.DecimalRoundTrip | src/index.ts:23 | reading back the decimal rendering of the counter gives the counter |
| Ids.IdRoundTrip | src/index.ts:22-24 | every minted id reads back as the counter value it was minted from |
| Ids.IdOfInjective | src/index.ts:22-24 | two counter values mint the same id exactly when they are equal |
| TodoStore.InitialValid | src/index.ts:18-19 | the empty map with the counter at 1 satisfies the store invariant |
| TodoStore.NextIdFresh | src/index.ts:19-24 | the id the next create mints is not yet a key of a valid store |
| TodoStore.Values | src/index.ts:93 | the snapshot has one record per key in the key order, and every record in it is stored |
| TodoStore.ValuesListsStore | src/index.ts:93 | the snapshot lists every stored record exactly once, as many records as keys |
| TodoStore.Create | src/index.ts:48-69 | an empty title fails with nothing minted. Otherwise the map gains exactly the key `todo-<nextId>`, the counter goes up by one and every other entry is unchanged. The new record is not completed, has `createdAt == updatedAt == now`, and has the given or defaulted priority and tags |
| TodoStore.CreateFresh | src/index.ts:55-69 | on a valid store the new key was never used, the map grows by exactly one and stays valid |
| TodoStore.AddFreshKeepsValid | src/index.ts:18-24 | storing a record under the id the counter names, appending that id to the key order and advancing the counter keeps the invariant. The id was not a key before, so the map grows by one |
| TodoStore.ValuesAppend | src/index.ts:69 | `Map.set` on a new key appends the record to the end of the listing |
| TodoStore.CreateAppendsToSnapshot | src/index.ts:58-69 | after a create, the listing is the old listing plus the new record, with its tags in the order supplied |
| TodoStore.ApplyPatch | src/index.ts:174-181 | each supplied field is overwritten and each absent field keeps its value. `id` and `createdAt` never change, and `updatedAt` becomes `now` |
| TodoStore.NoChangesOnlyTouchesUpdatedAt | src/index.ts:174-181 | an update that supplies no field changes only `updatedAt` |
| TodoStore.ApplyPatchIdempotent | src/index.ts:174-181 | applying the same patch twice equals applying it once at the later time |
| TodoStore.Update | src/index.ts:160-181 | a missing id fails with NotFound. Otherwise only that key's record changes, into the patched record. The keys, key order and counter stay the same |
| TodoStore.UpdateKeepsValid | src/index.ts:162-181 | a successful update keeps the store invariant |
| TodoStore.Delete | src/index.ts:205-219 | a missing id fails with NotFound. Otherwise exactly that key is removed and its record returned. Every other entry is unchanged, and the counter is untouched |
| TodoStore.DeleteKeepsValid | src/index.ts:207-219 | a successful delete shrinks the map by one and keeps the store invariant |
| TodoStore.DeleteKeepsOrder | src/index.ts:219 | `Map.delete` cuts the id out of the key order, and the remaining keys keep their relative order |
| Seqs.FilterDropsOne | src/index.ts:219 | a filter rejecting exactly one position removes that position and leaves the rest in order |
| TodoStore.Step | src/index.ts:53-69 | one request. The counter advances by the number of ids the request minted. Keys are added only under the id the counter names. An update keeps the key set, and a delete removes only its id |
| TodoStore.Run | src/index.ts:19-24 | after a sequence of requests, the counter has advanced by exactly the number of ids minted along the way |
| TodoStore.StepKeepsValid | src/index.ts:53-69 | every request keeps the invariant. Only a successful create mints an id, the one the counter named, and advances the counter by one |
| TodoStore.RunMintsFreshIds | src/index.ts:19-24 | along any sequence of creates, updates and deletes, the minted ids come from strictly increasing counter values at or above the starting counter. So they are pairwise distinct, none was a key before, and none is reused after a delete |
| TodoStore.StepKeepsTimestampsOrdered | src/index.ts:160-181 | with a clock that does not run backwards, `createdAt <= updatedAt` keeps holding |
| Seqs.Filter | src/index.ts:96-110 | a filter keeps exactly the elements satisfying its test and is never longer than its input |
| Seqs.FilterMultiset | src/index.ts:96-110 | each element satisfying the test is kept as often as it occurs in the input, and every other element is dropped |
| Seqs.FilterConcat | src/index.ts:96-110 | filtering distributes over concatenation, so the relative order of kept elements is preserved |
| Sorting.SortDesc | src/index.ts:113 | the sorted sequence is a permutation of the input, ordered non-increasingly by key |
| Sorting.SortStable | src/index.ts:113 | the sort is stable: for every key value, the elements with that key keep their input order |
| Query.ByStatus | src/index.ts:96-100 | the status filter, skipped for "all", keeps exactly the records whose `completed` matches the status |
| Query.ByPriority | src/index.ts:102-104 | the priority filter, skipped when absent, keeps exactly the records with that priority |
| Query.ByTag | src/index.ts:106-110 | the tag filter, skipped when absent or empty, keeps exactly the records whose tags contain it |
| Query.Select | src/index.ts:96-110 | the three filters in the handler's order keep exactly the snapshot records matching all three |
| Query.SelectIsConjunction | src/index.ts:96-110 | the three filters in sequence equal one filter by the AND of the three tests |
| Query.FiltersCommute | src/index.ts:96-110 | all six application orders of the three filters give the same result |
| Query.StatusPartition | src/index.ts:96-100 | "completed" and "pending" split the snapshot with no overlap and no omission, and "all" keeps everything |
| Query.ListTodos | src/index.ts:91-113 | the result holds exactly the matching records, as a permutation of the filtered snapshot, newest first |
| Query.ListTodosStable | src/index.ts:113 | records with equal `createdAt` come out in store insertion order |
| Stats.CompletedPendingSplit | src/index.ts:242-243 | completed plus pending records make up the total |
| Stats.PendingByPrioritySum | src/index.ts:245-249 | pending high plus medium plus low equals pending |
| Stats.CompletionRate | src/index.ts:270 | 0 for an empty store, otherwise the integer nearest to 100·completed/total with halves rounded up |
| Stats.CompletionRateBounds | src/index.ts:321 | the rate lies in 0..100. It is 0 when nothing is completed and 100 when everything is |
| Stats.Tally | src/index.ts:252-255 | one step of the reduce raises exactly one tag's counter by one. A new tag gets a counter after all existing ones |
| Stats.TallyAll | src/index.ts:251-255 | after the reduce, each tag's counter is the initial one plus its number of occurrences, and distinct tags stay distinct |
| Stats.TallySum | src/index.ts:252-255 | one step of the reduce adds exactly one to the sum of the counters |
| Stats.TallyAllSum | src/index.ts:251-255 | the whole reduce adds one to the sum of the counters per tag occurrence |
| Stats.AllTagsLength | src/index.ts:251 | the flattened tag list has one entry per tag occurrence across all records |
| Stats.AllTags | src/index.ts:251 | the flattened tag list holds exactly the tags that occur on some record |
| Stats.TagHistogram | src/index.ts:251-255 | the histogram has no repeated tag, its tags are exactly the occurring ones, and each tag's counter is its number of occurrences |
| Stats.HistogramCounts | src/index.ts:251-255 | one entry per distinct tag, holding that tag's number of occurrences (at least 1). The counts sum to the total number of tag occurrences |
| Stats.TopTags | src/index.ts:257-259 | at most 5 entries, all from the histogram and in non-increasing count order. No entry left out has a larger count than one kept, and with 5 or fewer tags all are kept |
| Stats.ComputeStats | src/index.ts:239-259 | total, completed and pending counts. Each pending-by-priority count is the number of pending records with that priority, and the three add up to pending. The rate is the rounded percentage of completed records: in 0..100, and 0 when empty. The top tags are `TopTags` of the tag histogram: as many entries as there are distinct tags, at most five, largest count first, each carrying its true occurrence count |
| Stats.HistogramSize | src/index.ts:251-255 | the histogram has exactly one entry per distinct tag |
| Stats.Summarize | src/index.ts:313-321 | the summary's total, completed, pending and rate obey the same identities and bounds |
| Stats.SummaryAgreesWithStats | src/index.ts:313-321 | the summary resource reports the same counts and rate as `todo_stats` |
| ObjectTally.BumpAll | src/index.ts:252-255 | the reduce as written never loses a property, and each property it adds is named after a tag other than `__proto__` |
| ObjectTally.Bump | src/index.ts:252-255 | one step of the reduce on a plain object. It adds an own property for a new tag, except `__proto__`, which is dropped |
| ObjectTally.BumpAllAgreesOffPrototype | src/index.ts:252-255 | when no tag is named like an inherited `Object.prototype` member, the code as written computes the corrected histogram |
| ObjectTally.InheritedTagIsMiscounted | src/index.ts:252-255 | a tag "toString" is given a string where the corrected reduce gives the count 1 |
| ObjectTally.ProtoTagIsDropped | src/index.ts:252-255 | a tag "__proto__" is missing from the histogram, where the corrected reduce counts it once |
| Scenarios.StatsOfThree | src/index.ts:241-249 | with a completed high, a pending medium and a pending low record, the stats report 3 total, 1 completed, 2 pending, high 0, medium 1, low 1 and a rate of 33 |
| Scenarios.ShoppingTagFilter | src/index.ts:106-110 | filtering by "shopping" keeps the record tagged "personal", "shopping" and drops the one tagged "work" |
| Scenarios.NewestFirst | src/index.ts:113 | two records are listed newest first |

## Left out

- MCP plumbing (`McpServer`, `StdioServerTransport`, tool, resource and prompt
  registration, `server.connect`): this is foreign library code.
- Zod itself is left out. Only its effect is kept, as input datatypes and the
  `EmptyTitle` failure. A priority outside low, medium and high cannot be represented.
- Response text: emoji, Markdown, the `handleToolError` messages and the
  `isError` flag are presentation only. Errors are the `Error` datatype.
- The `todos://json` resource is `JSON.stringify` of the snapshot `Values`, and
  serialisation is not modelled. The summary's `lastUpdated` ISO timestamp is
  not modelled either.
- The `daily_report` and `prioritize_tasks` prompts only build text from the
  same status and priority filters.
- Sample-data seeding in `main` (three ordinary creates), signal handlers and
  process exit are process lifecycle and I/O.
- The real clock: `now` is a parameter.
- JavaScript numbers: `nextId` is an unbounded `nat`. The code's counter loses
  precision beyond 2^53, which is never reached in practice.
- Aliasing: create stores the caller's `tags` array by reference, and update
  mutates the stored object in place. Records here are values.
- Stats.CompletionRate: models `Math.round` over the floating-point quotient
  as exact rational rounding, halves up. At an exact half, a floating-point
  quotient just below it can round the other way.
- Stats.TopTags: the order among tags with equal counts is not specified. The
  code takes it from object key order, which puts integer-like tags first.
- Stats.Tally: new counters are appended in first-seen order. The object key
  order that hoists integer-like tag names is not modelled, and only
  `TopTags`'s tie order could observe it.
- ObjectTally.Bump: the string produced for an inherited method name is not
  spelled out (`Text`), and sorting such an entry (whose comparison yields NaN)
  is not modelled.

## Findings

| source | as written | input that shows it | evidently intended | confidence | as-written member | corrected member |
|---|---|---|---|---|---|---|
| src/index.ts:252-255 | the counter update reads `acc[tag]` on the object literal `{}`, which yields the function inherited from `Object.prototype`, so the counter becomes a string such as `"function toString() { [native code] }1"` | one todo tagged `["toString"]` (likewise "constructor", "valueOf", …) | the tag is counted as occurring once | high, not executed | ObjectTally.InheritedTagIsMiscounted | Stats.HistogramCounts |
| src/index.ts:252-255 | for the tag `__proto__` the read returns `Object.prototype` and assigning a string to `__proto__` is ignored, so the tag never gets a counter | one todo tagged `["__proto__"]` | the tag is counted as occurring once | high, not executed | ObjectTally.ProtoTagIsDropped | Stats.HistogramCounts |

# Task tracker: in-memory repository, tag normaliser and task endpoints

This project is a Dafny model of the core of a small task-tracking web service. The service stores
task items (title, optional description, status, creation time, optional update time, optional
due date, tags) and serves them under `/api/tasks`. The model covers three parts:

- **`InMemoryTaskRepository`** (module `Data`). A class with a `tasks: map<int, TaskItem>` field
  and a `nextId` counter, which the methods update in place. These are the `_tasks` dictionary
  and the `_nextId` counter of the source. A ghost field `issued` records every id handed out so
  far. The class invariant `Valid()` states that:
  - the issued ids are exactly `1..nextId`, and every stored key is an issued id;
  - every stored item sits under its own id;
  - all stored tags are normalised.

  Ids are never reused. This follows from `Create`'s postcondition that the new id was not in
  the old `issued` set, together with `issued` only growing
  (every other method leaves it unchanged).
- **`TagUtility.NormalizeTags`** (module `TagUtility`). A pure function. It drops blank tags,
  trims and lower-cases the rest, then removes duplicates.
- **The endpoints** (module `Endpoints`). Three queries over the id-ordered listing are pure
  functions:
  - the tag filter;
  - the overdue list;
  - the tag summary.

  The GET, POST, PUT and DELETE handlers are methods that drive the repository and return a small
  `Response` datatype (`Ok`, `Created`, `NoContent`, `NotFound`, `BadRequest`).

Supporting modules:

- `Enumerable` holds the LINQ operators the source uses: `Where`, `Distinct`, and a stable
  `OrderBy` written as an insertion sort under a total preorder.
- `StringOrder` holds the code-point order on strings that stands in for the tag sort.
- `Models` holds the `TaskItem` and `TaskItemStatus` datatypes.
- `Scenarios` replays on the model the repository's unit tests
  (`tests/TaskTracker.Api.Tests/TaskRepositoryTests.cs`) that hold on the code: listing, lookup,
  creation, update, deletion, stored and normalised tags, tag filtering, the tag summary, and due
  dates set or cleared through create and update. Three groups are not replayed one by one:
  - the two tests of `TaskItem`'s property defaults (:221-235), which the model has only as the
    `None` and `[]` fields of a new task;
  - the tests that expect seed due dates (:267-307), because the constructor sets none.
    `UpdateAsync_CanClearDueDate` first checks that task 2 has a due date; only its clearing
    step is replayed, in `Scenarios.UpdateDueDate`;
  - the overdue-exclusion tests (:309-350), whose claims follow from
    `Endpoints.OverdueMembers` and `Scenarios.SeedNothingOverdue`.

Modelling choices:

- Time is an `int` count of seconds. `DateTime.UtcNow` becomes a `now` parameter, and
  `AddDays(-n)` becomes `now - n * 86400`.
- The declaration of `TaskItemStatus` is not modelled. The model takes its members as `Todo`,
  `InProgress`, `Done` (the values used at
  `src/TaskTracker.Api/Data/InMemoryTaskRepository.cs:20,28,36`), with `Todo` as the default
  status of a new item.
- `src/TaskTracker.Api/Models/TaskItem.cs:3-12` declares no `DueDate`, but
  `src/TaskTracker.Api/Endpoints/TaskEndpoints.cs:29,77` and the tests read one, so the model
  carries `DueDate: Option<int>`.

Two behaviours of the code are worth stating explicitly:

- **`UpdateAsync` stores the given item wholesale, `CreatedAt` included**
  (`src/TaskTracker.Api/Data/InMemoryTaskRepository.cs:79-80`). The creation time survives a
  PUT only because the handler copies the body's fields onto the stored item before calling
  `UpdateAsync` (`src/TaskTracker.Api/Endpoints/TaskEndpoints.cs:74-78`).
  `Data.InMemoryTaskRepository.Update` therefore promises no preservation, and
  `Endpoints.PutTask` promises it.
- **The constructor sets no `DueDate`** on the seed items
  (`src/TaskTracker.Api/Data/InMemoryTaskRepository.cs:16-39`), although
  `tests/TaskTracker.Api.Tests/TaskRepositoryTests.cs:282-307` expect seed due dates, with
  task 3 the only overdue item. The model follows the constructor, and
  `Scenarios.SeedNothingOverdue` proves that nothing in the seed is ever overdue.

## Model

| member | source | states |
|---|---|---|
| Data.InMemoryTaskRepository.constructor | src/TaskTracker.Api/Data/InMemoryTaskRepository.cs:12-48 | the store holds exactly the three seed items under ids 1, 2, 3 (each with its id set), the counter is 3, and the invariant holds |
| Data.SeedListing | src/TaskTracker.Api/Data/InMemoryTaskRepository.cs:14-47 | the seeded store lists its items in seed order: the set-up, API and unit-test tasks |
| Data.SeedStoreValid | src/TaskTracker.Api/Data/InMemoryTaskRepository.cs:14-47 | each seed item is stored under its own id and its tags are already normalised |
| Data.ListingSpec | src/TaskTracker.Api/Data/InMemoryTaskRepository.cs:52 | the listing has as many items as the store has keys; each listed item is the one stored under its id; every stored item is listed; ids strictly ascend, so no item is listed twice |
| Data.InKeyOrderLength | src/TaskTracker.Api/Data/InMemoryTaskRepository.cs:52 | listing the items under a set of keys gives one item per key |
| Data.InKeyOrderMembers | src/TaskTracker.Api/Data/InMemoryTaskRepository.cs:52 | every listed item is the stored item under its own id, and that id is among the keys listed |
| Data.InKeyOrderComplete | src/TaskTracker.Api/Data/InMemoryTaskRepository.cs:52 | every item under a listed key appears in the listing |
| Data.InKeyOrderAscending | src/TaskTracker.Api/Data/InMemoryTaskRepository.cs:52 | ids strictly ascend along the listing |
| Data.InMemoryTaskRepository.GetAll | src/TaskTracker.Api/Data/InMemoryTaskRepository.cs:50-54 | the loop (repeated smallest-id selection) returns exactly the id-ordered listing of the store |
| Data.InMemoryTaskRepository.GetById | src/TaskTracker.Api/Data/InMemoryTaskRepository.cs:56-60 | an item is returned iff the id is stored; it is the stored item, and its Id is the requested id |
| Data.InMemoryTaskRepository.Create | src/TaskTracker.Api/Data/InMemoryTaskRepository.cs:62-70 | the new id is the old counter + 1 and greater than every id ever issued, including deleted ones; the item stored (and returned) carries that id, the creation time `now` and normalised tags; no other entry changes; the count grows by one; the invariant is kept |
| Data.InMemoryTaskRepository.Update | src/TaskTracker.Api/Data/InMemoryTaskRepository.cs:72-82 | an absent id returns nothing and changes nothing; a present id is replaced wholesale by the given item with normalised tags, which is returned; the keys, the other entries and the counter are unchanged; the invariant is kept |
| Data.InMemoryTaskRepository.Delete | src/TaskTracker.Api/Data/InMemoryTaskRepository.cs:84-88 | the result is true iff the id was stored; afterwards the id is absent and every other entry is unchanged; the counter is unchanged, so the id is never reissued |
| TagUtility.NormalizeTags | src/TaskTracker.Api/Utils/TagUtility.cs:14-21 | the result has no blank, untrimmed or upper-case tag and no duplicates; it is no longer than the input; each output tag is the trimmed lower-case form of some non-blank input (soundness); each non-blank input's trimmed lower-case form is in the output (completeness) |
| TagUtility.NormalizeTagSpec | src/TaskTracker.Api/Utils/TagUtility.cs:17-18 | a tag is non-blank iff its trimmed lower-case form is a normal tag (non-empty, trimmed, lower case); a normal tag is its own normal form |
| TagUtility.TrimSpec | src/TaskTracker.Api/Utils/TagUtility.cs:18 | the result has no white space at either end, is empty exactly when the input is blank, and a trimmed string is left unchanged |
| TagUtility.TrimStartSpec | src/TaskTracker.Api/Utils/TagUtility.cs:18 | the result is a suffix of the input, preceded only by white space, and starting with a non-white-space character unless empty |
| TagUtility.TrimEndSpec | src/TaskTracker.Api/Utils/TagUtility.cs:18 | the result is a prefix of the input, followed only by white space, and ending with a non-white-space character unless empty |
| TagUtility.ToLowerSpec | src/TaskTracker.Api/Utils/TagUtility.cs:18 | lower-casing keeps the length, leaves no upper-case letter, keeps white space where it was, and leaves a lower-case string unchanged |
| TagUtility.NormalizeEachMembers | src/TaskTracker.Api/Utils/TagUtility.cs:17-18 | after the Where/Select steps, every tag is normal, and the tags present are exactly the normal forms of the non-blank inputs |
| TagUtility.NormalizeTagsOfNormalized | src/TaskTracker.Api/Utils/TagUtility.cs:14-21 | a list that is already normalised is returned unchanged |
| TagUtility.NormalizeTagsIdempotent | src/TaskTracker.Api/Utils/TagUtility.cs:14-21 | normalising twice gives the same list as normalising once |
| TagUtility.NormalizeTagsExample | tests/TaskTracker.Api.Tests/TaskRepositoryTests.cs:129-140 | `["  BUG  ","Bug","FRONTEND","frontend","  ",""]` normalises to `["bug","frontend"]` |
| TagUtility.NormalizeTagsUpdateExample | tests/TaskTracker.Api.Tests/TaskRepositoryTests.cs:156-166 | `["  URGENT  ","urgent",""]` normalises to `["urgent"]` |
| Enumerable.WhereCount | src/TaskTracker.Api/Endpoints/TaskEndpoints.cs:19 | filtering keeps each element that satisfies the predicate as often as it occurs, and drops every other element |
| Enumerable.WhereMembers | src/TaskTracker.Api/Endpoints/TaskEndpoints.cs:19 | an element is in the filtered list iff it is in the input and satisfies the predicate |
| Enumerable.WhereSubsequence | src/TaskTracker.Api/Endpoints/TaskEndpoints.cs:19 | the filtered list is an order-preserving subsequence of the input |
| Enumerable.WhereEqualLength | src/TaskTracker.Api/Endpoints/TaskEndpoints.cs:42-43 | a group of equal elements is as long as the element's multiplicity, and the other elements make up the rest |
| Enumerable.Distinct | src/TaskTracker.Api/Utils/TagUtility.cs:19 | the result has no duplicates, holds exactly the input's elements, is no longer than the input, and is a subsequence of it |
| Enumerable.DistinctFirstOccurrences | src/TaskTracker.Api/Utils/TagUtility.cs:19 | `Distinct` keeps first occurrences in their order: any element placed before another in the result occurs in the input before every occurrence of that other element |
| Enumerable.DistinctOfDistinct | src/TaskTracker.Api/Utils/TagUtility.cs:19 | a duplicate-free list is left unchanged |
| Enumerable.NoDuplicatesCount | src/TaskTracker.Api/Utils/TagUtility.cs:19 | a list has no duplicates iff no element occurs more than once in its multiset |
| Enumerable.OrderBy | src/TaskTracker.Api/Endpoints/TaskEndpoints.cs:32 | under a total preorder, the result is sorted and is a permutation of the input |
| Enumerable.OrderByStable | src/TaskTracker.Api/Endpoints/TaskEndpoints.cs:32 | the sort is stable: elements with equal keys keep their input order |
| StringOrder.OrdinalTotal | src/TaskTracker.Api/Endpoints/TaskEndpoints.cs:44 | any two strings are comparable in code-point order |
| StringOrder.OrdinalTransitive | src/TaskTracker.Api/Endpoints/TaskEndpoints.cs:44 | code-point order is transitive |
| StringOrder.OrdinalAntisymmetric | src/TaskTracker.Api/Endpoints/TaskEndpoints.cs:44 | two strings that compare both ways are equal, so tag rows sort into a single order |
| Endpoints.FilterByTagAll | src/TaskTracker.Api/Endpoints/TaskEndpoints.cs:16 | a missing or blank tag returns the whole listing |
| Endpoints.FilterByTagSpec | src/TaskTracker.Api/Endpoints/TaskEndpoints.cs:16-20 | a non-blank tag keeps exactly the tasks that carry its trimmed lower-case form, each as often as listed, as an order-preserving subsequence of the listing |
| Endpoints.OverdueMembers | src/TaskTracker.Api/Endpoints/TaskEndpoints.cs:28-31 | the overdue list is a permutation of the filtered listing; a task is in it iff it is listed, has a due date strictly before `now`, and is not Done |
| Endpoints.OverdueAscending | src/TaskTracker.Api/Endpoints/TaskEndpoints.cs:32 | every overdue task has a due date, and due dates are ascending along the list |
| Endpoints.OverdueStable | src/TaskTracker.Api/Endpoints/TaskEndpoints.cs:32 | tasks with the same due date keep their listing (id) order |
| Endpoints.AllTagsMembers | src/TaskTracker.Api/Endpoints/TaskEndpoints.cs:41 | a tag occurs in the flattened tag list iff some task carries it |
| Endpoints.GroupsRows | src/TaskTracker.Api/Endpoints/TaskEndpoints.cs:42-43 | row i of the grouping is the i-th key with the number of its occurrences |
| Endpoints.TagSummaryRows | src/TaskTracker.Api/Endpoints/TaskEndpoints.cs:40-45 | a (tag, count) row is in the summary iff the tag occurs among the tasks' tags and the count is its number of occurrences |
| Endpoints.TagSummaryAscending | src/TaskTracker.Api/Endpoints/TaskEndpoints.cs:42-44 | the summary's tags are distinct and strictly ascending in code-point order |
| Endpoints.TagSummaryTotal | src/TaskTracker.Api/Endpoints/TaskEndpoints.cs:41-43 | the counts add up to the total number of tag occurrences across all tasks |
| Endpoints.TagSummaryPresence | src/TaskTracker.Api/Endpoints/TaskEndpoints.cs:41-43 | a tag has a row iff some task carries it |
| Endpoints.SumCountsCovers | src/TaskTracker.Api/Endpoints/TaskEndpoints.cs:41-43 | rows with distinct tags, each counting its tag and together covering every occurrence, sum to the number of occurrences |
| Endpoints.DecimalStringRoundTrip | src/TaskTracker.Api/Endpoints/TaskEndpoints.cs:63 | the id in the location is a non-empty run of decimal digits with no leading zero (unless the id is 0), in the canonical form integer formatting prints, and reads back as the id |
| Endpoints.GetTasks | src/TaskTracker.Api/Endpoints/TaskEndpoints.cs:12-23 | answers Ok with the tag filter applied to the id-ordered listing of the store |
| Endpoints.GetOverdue | src/TaskTracker.Api/Endpoints/TaskEndpoints.cs:25-35 | answers Ok with the overdue list of the id-ordered listing at time `now` |
| Endpoints.GetTagSummary | src/TaskTracker.Api/Endpoints/TaskEndpoints.cs:37-47 | answers Ok with the tag summary of the id-ordered listing |
| Endpoints.GetTask | src/TaskTracker.Api/Endpoints/TaskEndpoints.cs:49-53 | Ok with the stored item (whose Id is the requested id) iff the id is stored, NotFound otherwise |
| Endpoints.PostTask | src/TaskTracker.Api/Endpoints/TaskEndpoints.cs:55-64 | a blank title gives BadRequest "Title is required." and leaves store and counter unchanged; otherwise the task is stored under the next id (fresh), and Created reports `/api/tasks/<id>` and the stored item |
| Endpoints.PutTask | src/TaskTracker.Api/Endpoints/TaskEndpoints.cs:66-82 | an unknown id gives NotFound and no change; a stored id takes title, description, status, due date and (normalised) tags from the body, keeps its Id, CreatedAt and UpdatedAt, is answered with Ok, and nothing else changes |
| Endpoints.DeleteTask | src/TaskTracker.Api/Endpoints/TaskEndpoints.cs:84-88 | NoContent iff the id was stored, NotFound iff it was not; the id is removed and nothing else changes |
| Scenarios.SeedTagSummarySize | tests/TaskTracker.Api.Tests/TaskRepositoryTests.cs:202-213 | the seed's tag summary has five rows |
| Scenarios.SeedTagSummaryCounts | tests/TaskTracker.Api.Tests/TaskRepositoryTests.cs:202-219 | on the seed, backend is counted twice and api, setup, infrastructure and testing once each |
| Scenarios.SeedFilterBackend | tests/TaskTracker.Api.Tests/TaskRepositoryTests.cs:180-190 | filtering the seed on "backend" gives tasks 2 and 3 in id order |
| Scenarios.SeedNothingOverdue | src/TaskTracker.Api/Data/InMemoryTaskRepository.cs:16-39 | no seed item has a due date, so the overdue list of the seed is empty at any time |
| Scenarios.SeededStore | tests/TaskTracker.Api.Tests/TaskRepositoryTests.cs:18-41 | a fresh store lists three tasks; id 1 is "Set up project structure"; id 999 is absent |
| Scenarios.CreateAfterSeed | tests/TaskTracker.Api.Tests/TaskRepositoryTests.cs:43-60 | the first task created gets id 4, keeps its title, gets creation time `now`, and the listing grows to four |
| Scenarios.CreateNormalizesTags | tests/TaskTracker.Api.Tests/TaskRepositoryTests.cs:128-140 | the messy tag list given on creation is stored as `["bug","frontend"]` |
| Scenarios.SeededTags | tests/TaskTracker.Api.Tests/TaskRepositoryTests.cs:168-178 | tasks 1, 2 and 3 carry `[setup, infrastructure]`, `[backend, api]` and `[testing, backend]` |
| Scenarios.CreateWithTags | tests/TaskTracker.Api.Tests/TaskRepositoryTests.cs:114-126 | tags that are already normal, `[bug, frontend]`, are stored as given on creation |
| Scenarios.UpdateTags | tests/TaskTracker.Api.Tests/TaskRepositoryTests.cs:142-153 | updating task 1 with `[urgent, reviewed]` stores exactly those tags |
| Scenarios.SeedFilterNoMatch | tests/TaskTracker.Api.Tests/TaskRepositoryTests.cs:192-200 | filtering the seed on "nonexistent" gives the empty list |
| Scenarios.CreateWithDueDate | tests/TaskTracker.Api.Tests/TaskRepositoryTests.cs:238-250 | any due date given on creation is stored |
| Scenarios.UpdateDueDate | tests/TaskTracker.Api.Tests/TaskRepositoryTests.cs:253-279 | updating task 1 with a due date stores it; updating task 2 with none stores none |
| Scenarios.UpdateSeeded | tests/TaskTracker.Api.Tests/TaskRepositoryTests.cs:62-76 | updating task 1's title and status returns the item with the new values |
| Scenarios.UpdateNormalizesTags | tests/TaskTracker.Api.Tests/TaskRepositoryTests.cs:155-166 | updating task 1 with messy tags stores `["urgent"]` |
| Scenarios.UpdateMissing | tests/TaskTracker.Api.Tests/TaskRepositoryTests.cs:78-90 | updating id 999 returns nothing |
| Scenarios.DeleteSeeded | tests/TaskTracker.Api.Tests/TaskRepositoryTests.cs:92-112 | deleting id 1 succeeds, after which it is absent and two tasks remain; deleting 999 fails |
| Scenarios.NoIdReuse | src/TaskTracker.Api/Data/InMemoryTaskRepository.cs:62-70 | after deleting the newest seed task (id 3), the next task still gets id 4 |
| Scenarios.PostBlankTitle | src/TaskTracker.Api/Endpoints/TaskEndpoints.cs:57-60 | a white-space title is refused with BadRequest and the store keeps three tasks |
| Scenarios.PutKeepsCreation | src/TaskTracker.Api/Endpoints/TaskEndpoints.cs:66-82 | a PUT on task 1 whose body carries another id and creation time renames the task but keeps id 1 and the seeded creation time |

## Left out

- Concurrency is not modelled. The model is sequential: each method runs alone. In the source,
  only each single `ConcurrentDictionary` call and the `Interlocked.Increment` are atomic, not
  the operations built from them. Two races the model therefore does not capture:
  - `UpdateAsync` checks `ContainsKey` and then writes through the indexer
    (`src/TaskTracker.Api/Data/InMemoryTaskRepository.cs:74`, `:80`). A `DeleteAsync` of the
    same id in between lets both calls report success, yet the item is back in the store.
  - The PUT handler reads the item (`src/TaskTracker.Api/Endpoints/TaskEndpoints.cs:68`), writes
    its fields one by one into the shared stored object (`:74-78`) and then calls `UpdateAsync`
    (`:80`). A DELETE in between makes `UpdateAsync` return null, and the handler answers
    `Ok(null)`. A concurrent GET can see a half-updated item.
- The wall clock is not modelled. `DateTime.UtcNow` is a `now` parameter. "Close to the current
  time" checks from the tests cannot be stated.
- Data.InMemoryTaskRepository.Create: the model does not capture the 32-bit wrap-around of
  `_nextId`. The counter is an unbounded integer, so the "fresh id" property holds without the
  overflow that would occur after 2^31 - 1 creations.
- Aliasing of task objects is not modelled:
  - `GetByIdAsync` hands out the stored object, so the PUT handler's field writes reach the
    store before `UpdateAsync` runs;
  - `CreateAsync` and `UpdateAsync` also modify the caller's object.
  
  Items are immutable values in the model. Only the stored contents and the returned values
  are described.
- Data.InMemoryTaskRepository.Create: null tag lists and null titles are not modelled (tags are
  a `seq`, titles a `string`). In the source, `NormalizeTags(null)` throws
  (`src/TaskTracker.Api/Utils/TagUtility.cs:16-17`). In `CreateAsync` it throws after
  `Interlocked.Increment` (`src/TaskTracker.Api/Data/InMemoryTaskRepository.cs:64-67`), so the
  id is used up and nothing is stored.
- Data.InMemoryTaskRepository.Update: null tag lists are not modelled. In the source
  `UpdateAsync` throws at `src/TaskTracker.Api/Data/InMemoryTaskRepository.cs:79` before storing
  anything; writes the caller already made to the stored object remain (see `Endpoints.PutTask`).
- Endpoints.PutTask: null tag lists and null titles in the body are not modelled. In the source
  the handler writes the body's fields into the stored object
  (`src/TaskTracker.Api/Endpoints/TaskEndpoints.cs:74-80`) before `UpdateAsync` throws, so the
  store keeps an item whose tags are null. After that, `?tag=` filtering and `/tags` throw
  (`src/TaskTracker.Api/Endpoints/TaskEndpoints.cs:19`, `:41`). The model's store always
  holds normalised tag lists.
- `GetAllAsync` returns a lazy sequence. The model returns its value at the time of the call.
- Unicode is simplified:
  - `ToLowerInvariant` is modelled on ASCII letters only;
  - white space for `Trim` and `IsNullOrWhiteSpace` is the fixed set of white-space code
    points used by .NET;
  - model strings are sequences of Unicode code points, not of UTF-16 code units as in .NET.
    Comparing characters by code point and comparing them by UTF-16 code unit give different
    orders when a supplementary character (above U+FFFF) meets one in U+E000 to U+FFFF.
- Endpoints.TagSummary: the source sorts tags with the default culture-aware string comparer.
  The model uses code-point order. The two orders agree on the lower-case ASCII tags
  used by the seed and the tests.
- HTTP plumbing is not modelled: routing, model binding, JSON serialisation, `Results` objects
  and status codes. Responses are a datatype, and a location is the string `/api/tasks/<id>`.
- `Program.cs` is not part of this model (hosting and dependency-injection wiring).
- `UpdatedAt` is carried as a field that no operation sets, as in the source.
- Seed due dates are not modelled because the constructor sets none. The tests' facts about
  overdue seed items are therefore not claimed; see `Scenarios.SeedNothingOverdue`.

# Batch loaders of a GraphQL API over users, profiles, posts and member types

The GraphQL server resolves users, profiles, posts and member types. It uses
DataLoader so that the many "fetch by key" calls one query makes are coalesced
into batched storage queries. What the repository itself contributes is the
set of **batch functions** given to DataLoader. Each one receives the ordered
list of requested keys and must answer a list that lines up with that list,
position by position. There are two variants of the loader bundle:

- `src/data-loaders.ts` (`buildDataLoaders`) has seven batch functions. Each
  runs one `findMany ... where key in keys` query. It then `reduce`s the
  returned rows into a record keyed by a key field and maps every requested
  key through that record.
  - Four are **by-key** loaders: member type, post and user by id, and profile
    by user id. Each keeps one row per key, and a later row overwrites an earlier one.
  - Three are **grouping** loaders: posts by author, the authors a user
    subscribes to, and the subscribers of an author. Each keeps a bucket of
    rows per key, in storage order.
- `src/loaders.ts` (`getDataLoaders`) has a by-key `userByIdLoader`, and two
  loaders (`postLoader`, `profileLoader`) that issue one `findUnique` per key
  in sequence and collect the answers in a JavaScript `Set`.
  `subscribersByAuthorLoader` projects every subscription row to its
  subscriber without grouping. The bundle's `fetchPostById`,
  `fetchProfileById` and `fetchUserById` delegate to these loaders.

The model has five modules:

- `Wrappers`: `Option` and `Result`.
- `Rows`: the row types, their key fields, and `Lookup`, the output slot. A
  slot is `Found`, `Undefined` or `Null`, because the source distinguishes
  JavaScript's `undefined` from `null`.
- `Demux`: the shared demultiplexer. The `reduce` loops are the methods
  `IndexByKey` and `GroupByKey`, which update a `map` one row at a time. They
  are proved against two independent reference definitions: `LastWithKey`
  searches the rows from the end, and `Matching` filters the rows in storage
  order. `ByKey` and `Grouped` are the whole outputs, one slot per requested key.
- `DataLoaders`: the seven batch functions of `src/data-loaders.ts`.
- `Loaders`: the batch functions and delegations of `src/loaders.ts`.

Storage is not modelled. A `findMany` result is an input sequence of rows in
no particular order. A `findUnique` is a function parameter
`Key -> Option<Row>`.

A JavaScript `Set` compares objects by identity, and each `findUnique` call
allocates a fresh object. So in `Loaders.JsValue` an object carries the
number of the call that allocated it. Only `null`, which is a single value,
can be merged by the `Set`.

DataLoader's requirement is that a batch function's output be as long as its
key list, or every load of that batch fails. This requirement is stated as
`Loaders.Deliver`. The `fetch...ById` members apply it to the batch functions
as written.

Where the design intent and the code differ, the model follows the code. The
intended contract is that every missing key gets a "not found" sentinel, or
`[]` for a grouping loader. The code does this:

- `memberTypeLoader`, `postsByIdLoader` and `userByIdLoader` of
  `src/data-loaders.ts` answer `undefined`.
- `profileByUserIdLoader` answers `null`.
- `postsByAuthorIdLoader` answers `null` rather than `[]`.
- `postLoader`, `profileLoader` and `subscribersByAuthorLoader` do not keep
  the output aligned with the keys (see Findings).

## Model

| member | source | states |
|---|---|---|
| `Demux.LastWithKeyFinds` | src/data-loaders.ts:10-17 | the reference lookup finds nothing exactly when no returned row has the key, and otherwise returns the last row in storage order that has it |
| `Demux.IndexByKey` | src/data-loaders.ts:10-16 | the `reduce` with `acc[cur.id] = cur` builds a record whose entry for every key is the last returned row with that key, and which has no entry for any other key |
| `Demux.ByKey` | src/data-loaders.ts:17 | a by-key output has exactly one slot per requested key, and duplicate requested keys get identical slots |
| `Demux.ByKeyAt` | src/data-loaders.ts:10-17 | slot i holds the missing marker exactly when no returned row has key `ids[i]`, and otherwise holds the last returned row with that key |
| `Demux.UniqueKeyLookup` | src/data-loaders.ts:10-17 | when returned keys are unique, the row found for a key is exactly the returned row carrying that key |
| `Demux.ByKeyOrderIndependent` | src/data-loaders.ts:10-17 | for rows with unique keys, the by-key output is the same for every order in which storage returns the rows |
| `Demux.MatchingMembers` | src/data-loaders.ts:61-69 | a value is in a key's bucket exactly when it is the projection of a returned row with that key |
| `Demux.MatchingEmpty` | src/data-loaders.ts:61-69 | a key's bucket is empty exactly when no returned row has that key |
| `Demux.MatchingConcat` | src/data-loaders.ts:61-68 | buckets keep storage order: the bucket built from rows `a + b` is the bucket of `a` followed by the bucket of `b` |
| `Demux.GroupByKey` | src/data-loaders.ts:61-68 | the `reduce` that creates or pushes onto buckets has a bucket exactly for the keys some row carries, each holding those rows' projections in storage order, so no existing bucket is empty |
| `Demux.Grouped` | src/data-loaders.ts:69 | a grouping output has one slot per requested key, and duplicate keys get identical slots |
| `Demux.GroupedSnoc` | src/data-loaders.ts:61-68 | with distinct keys, one more row adds one value to the buckets when its key is requested, and none otherwise |
| `Demux.GroupedOfNoRows` | src/data-loaders.ts:61-69 | with no returned rows, every bucket is empty |
| `Demux.EveryRowInOneBucket` | src/data-loaders.ts:61-68 | with distinct keys and every row's key requested, as `findMany ... in ids` guarantees, the bucket sizes add up to the number of returned rows |
| `DataLoaders.MemberTypeLoader` | src/data-loaders.ts:6-18 | the output is the by-key output over member type ids, with `undefined` for a missing key |
| `DataLoaders.PostsByIdLoader` | src/data-loaders.ts:19-28 | the output is the by-key output over post ids, with `undefined` for a missing key |
| `DataLoaders.UserByIdLoader` | src/data-loaders.ts:29-38 | the output is the by-key output over user ids, with `undefined` for a missing key |
| `DataLoaders.ProfileByUserIdLoader` | src/data-loaders.ts:40-51 | the output is the by-key output over profiles' `userId`, with `null` for a missing key |
| `DataLoaders.PostsByAuthorIdLoader` | src/data-loaders.ts:52-70 | one slot per author id: `null` when the author has no returned post, and otherwise that author's posts in storage order (never `[]`) |
| `DataLoaders.UserSubscribedToLoader` | src/data-loaders.ts:71-90 | slot i holds the authors of the subscription rows whose `subscriberId` is `userIds[i]`, in storage order, or `[]` |
| `DataLoaders.SubscribedToUserLoader` | src/data-loaders.ts:91-106 | slot i holds the subscribers of the subscription rows whose `authorId` is `userIds[i]`, in storage order, or `[]` |
| `DataLoaders.MissingMarkers` | src/data-loaders.ts:17-50 | a key that a loader's rows lack answers `undefined` from the member type, post and user loaders, but `null` from the profile loader |
| `DataLoaders.NoMatchDefaults` | src/data-loaders.ts:69-105 | a key that no row carries in a grouping loader's key field has an empty bucket in that loader (the loaders' own contracts turn an empty bucket into `null` or `[]`) |
| `Loaders.LookupResults` | src/loaders.ts:65-71 | call i answers `null` exactly when the lookup of `ids[i]` finds nothing, and otherwise a new object (allocated by call i) holding the row found |
| `Loaders.InsertionOrder` | src/loaders.ts:64-73 | `Array.from` of a `Set` filled in order holds every added value, nothing else, each once, and is no longer than the input |
| `Loaders.InsertionOrderOfDistinct` | src/loaders.ts:64-73 | when all added values differ, the `Set` gives them back unchanged and in order |
| `Loaders.InsertionOrderFull` | src/loaders.ts:64-73 | the `Set`'s output is as long as its input exactly when it equals the input |
| `Loaders.NullCountZero` | src/loaders.ts:64-71 | there are no nulls counted exactly when `null` does not occur |
| `Loaders.MergedNullsLength` | src/loaders.ts:64-73 | when only `null` can repeat, k >= 1 nulls merge into one, so the output is k - 1 shorter than the input |
| `Loaders.SequentialLookupBatch` | src/loaders.ts:63-74 | the loop looks up every key once, in input order, and returns the distinct answers in first-seen order |
| `Loaders.PostLoader` | src/loaders.ts:63-74 | `postLoader` makes one `findUnique` call per post id, in input order, and returns the distinct answers in first-seen order |
| `Loaders.ProfileLoader` | src/loaders.ts:76-90 | `profileLoader` makes one `findUnique` call per profile id, in input order, and returns the distinct answers in first-seen order |
| `Loaders.LookupResultsObjectsDistinct` | src/loaders.ts:66-71 | objects answered by different calls are never equal, so only nulls can repeat |
| `Loaders.SequentialBatchLength` | src/loaders.ts:63-90 | with k >= 1 missing keys, the sequential batch is k - 1 shorter than the key list, and with none it is exactly as long |
| `Loaders.SequentialBatchAligned` | src/loaders.ts:63-90 | the sequential batch equals the per-key answers, position by position, exactly when at most one key is missing |
| `Loaders.SequentialLookupAligned` | src/loaders.ts:63-74 | corrected loader: one lookup per key in input order, and slot i answers key i for every input |
| `Loaders.UserByIdLoader` | src/loaders.ts:26-41 | the output is the by-key output over user ids, with `null` for a missing key |
| `Loaders.SubscribersByAuthorLoader` | src/loaders.ts:43-56 | one subscriber per returned subscription row, in storage order, so the output is as long as the row list and not the key list |
| `Loaders.SubscribersByAuthorFlattens` | src/loaders.ts:43-56 | with distinct keys and every row's author requested, that output is exactly as long as all the per-author buckets together |
| `Loaders.SubscribersByAuthorGrouped` | src/loaders.ts:43-56 | corrected loader: one slot per author id, holding exactly the subscribers of that author's rows, in storage order |
| `Loaders.Deliver` | src/loaders.ts:106-117 | a `load` through DataLoader resolves to its slot when the batch output is as long as the key list, and otherwise fails with the two lengths |
| `Loaders.FetchPostById` | src/loaders.ts:108 | `fetchPostById` resolves exactly when at most one key of its batch has no post, and then to the answer of that key's own lookup (`null` or the post) |
| `Loaders.FetchProfileById` | src/loaders.ts:106 | `fetchProfileById` resolves exactly when at most one key of its batch has no profile, and then to the answer of that key's own lookup (`null` or the profile) |
| `Loaders.FetchUserById` | src/loaders.ts:117 | `fetchUserById` always resolves, to the `userByIdLoader` slot of its key |
| `Loaders.FetchByIdThroughSet` | src/loaders.ts:106-108 | a load through a `Set`-based loader succeeds exactly when at most one key of its batch is missing, and then answers `null` exactly when its own key is missing, and otherwise that key's row |
| `Loaders.FetchPostAndProfileById` | src/loaders.ts:106-108 | `fetchPostById` and `fetchProfileById` resolve exactly when at most one key of the batch is missing, and then answer `null` exactly when the key's lookup found nothing, and otherwise the row that lookup found |
| `Loaders.FetchPostByIdAlone` | src/loaders.ts:108 | a post loaded alone in its batch resolves to its lookup answer |
| `Loaders.FetchUserByIdResolves` | src/loaders.ts:117 | `fetchUserById` always resolves: `null` exactly when no returned user has the id, and otherwise the last returned user with it |
| `Loaders.TwoMissingPostsShiftTheBatch` | src/loaders.ts:63-74 | for keys p1, p2, p3 with only p3 present, the batch is `[null, p3's post]`, and the load of p3 fails although its post exists |
| `Loaders.TwoSubscribersMisalignTheBatch` | src/loaders.ts:43-56 | one author with two subscribers gives two values for one key, so a load of that author through this loader would fail |
| `Loaders.TwoAuthorsMisdeliver` | src/loaders.ts:43-56 | for authors a and b with two subscription rows for a, both loads resolve, and b's delivers a's second subscriber where the grouping gives b no subscribers |
| `Loaders.ReorderedRowsMisdeliver` | src/loaders.ts:43-56 | for authors a and b with one row each, returned b first, a's load delivers b's subscriber and b's load a's |
| `Loaders.TwoSubscribersGrouped` | src/loaders.ts:43-56 | the corrected grouping of that input gives one slot holding both subscribers in storage order |

## Findings

| source | as written | input that shows it | evidently intended | confidence | as-written member | corrected member |
|---|---|---|---|---|---|---|
| src/loaders.ts:63-90 | `postLoader` and `profileLoader` collect answers in a `Set`, which merges the `null` of every missing key into one | keys `p1`, `p2`, `p3` with only `p3` stored: the output is `[null, post3]`, two slots for three keys | one answer per key, `null` where missing | not executed | `Loaders.TwoMissingPostsShiftTheBatch` | `Loaders.SequentialLookupAligned` |
| src/loaders.ts:43-56 | `subscribersByAuthorLoader` returns one subscriber per subscription row and does not group by author | one author with two subscription rows: two values for one key, so that load would fail; authors a and b with two rows for a: both loads resolve and b receives a's second subscriber; one row per author returned in the other order: the two authors swap subscribers. The loader is not part of the returned bundle, so the defect is latent | per author, the list of that author's subscribers | not executed | `Loaders.TwoSubscribersMisalignTheBatch`, `Loaders.TwoAuthorsMisdeliver`, `Loaders.ReorderedRowsMisdeliver` | `Loaders.SubscribersByAuthorGrouped` |

The bundle's `fetchPostById` and `fetchProfileById` (`Loaders.FetchPostById`,
`Loaders.FetchProfileById`) model the code as written, so they delegate to
the `Set`-based batch. `Loaders.FetchByIdThroughSet` states the consequence:
such a load fails whenever two or more keys of its batch are missing.

## Left out

- The DataLoader library itself is not modelled: per-key promise caching, key
  deduplication and next-tick dispatch scheduling. Only its length
  requirement on a batch function is stated, as `Loaders.Deliver`.
- Storage queries are not modelled: `findMany`, `findUnique`, and their
  `include` of relations. A `findMany` result is a row sequence in any order,
  and a `findUnique` is a total lookup function. Query failures, which reject
  the whole batch, are not modelled.
- Asynchrony is not modelled. The sequential `for await` loop is a plain
  loop, and `queried` records how many storage calls it makes and in what
  order, not when they happen.
- `userLoader` (src/loaders.ts:16-24) is not modelled. It is built but is
  never referenced by the returned bundle, and its batch function ignores its
  keys.
- `subscribersByAuthorLoader` is modelled, but nothing in the returned
  bundle (src/loaders.ts:92-118) uses it, so its defect (see Findings) has
  no effect on the bundle's fetch functions.
- `fetchAllMemberTypes`, `fetchMemberTypeById`, `fetchAllProfiles`,
  `fetchAllPosts` and `fetchAllUsers` (src/loaders.ts:93-116) are not
  modelled. They forward directly to a storage call and have no logic of
  their own.
- `|| null` and `|| []` replace any falsy value. They are modelled as a
  presence test, because a stored row (an object) and an existing bucket (a
  non-empty array) are always truthy.
- A JavaScript record lookup can see inherited prototype properties, for
  example a key named `constructor`. This quirk is not modelled: the records
  are Dafny maps.
- Floating-point columns (a user's balance, a member type's discount) are not
  modelled.
- Route registration, the GraphQL schema, field resolvers, input validation
  schemas and the request context bundle are not modelled. These are
  `src/routes/**` and `src/context.ts`, and they are framework glue.

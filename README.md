# Monthly transaction summaries — a Dafny model

The transactions service of the banking application answers two read routes.
`GET /` summarises the embedded transactions of every user document by
calendar month; `GET /:userId` does the same for one user, after checking the
identifier. Both run the same MongoDB aggregation: `$match` on a non-empty
`transactions` array, `$unwind` of that array, a stage that turns text dates
into dates, `$group` by `{ year, month }` of the date with a count, a summed
amount and the pushed records, and `$sort` by year then month, both
descending.

This project models that aggregation and the status decisions of the two
routes as pure Dafny functions, and proves what the pipeline guarantees:

- which identifiers the route accepts (24 hexadecimal characters, either
  case), and that an identifier's text and its 12 bytes round-trip;
- that `$match` followed by `$unwind` yields exactly the embedded records, in
  collection order, and that the `$match` itself changes nothing `$unwind`
  would keep;
- that the date stage leaves dates alone and parses text, and that one
  unparsable text fails the whole aggregation;
- that the `$group` fold agrees with a direct, filter-based definition of each
  month's group (count, total, records), that every record lands in the group
  of its own month and in no other, and that counts and totals are conserved;
- that `$sort` returns a permutation in strictly descending (year, month)
  order, and that the result does not depend on the order in which `$group`
  emits its documents;
- the order of the route checks (503, then 400, then 404, then 200 or 500).

Modules, one per file: `Wrappers` (Option, Result), `ObjectIds`, `Records`
(the data model), `Extraction` (`$match` and `$unwind`), `Normalization`
(the date stage), `Grouping` (`$group`), `Ordering` (`$sort`), `Aggregation`
(the whole pipeline), `Routes` (the two handlers) and `Scenarios` (a worked
example).

A date is modelled by its UTC calendar decomposition (`Instant`: year, month,
day, milliseconds of the day), so `$year` and `$month` are projections. Text
parsing (`$toDate`) is a parameter `parse: string -> Option<Instant>`. The
database handle is an `Option<Store>`: `None` while the connection has not
been established.

An unparsable date text makes the unconditional `$toDate` raise an error, so
the whole aggregation fails and the route answers 500
(`Normalization.NormalizeAll`, `Aggregation.PipelineFailsOnlyOnBadDates`).

## Model

| member | source | states |
|---|---|---|
| ObjectIds.MatchesHexRun | transactions/src/app.js:34 | the text matches the anchored pattern of `n` hexadecimal characters exactly when it has length `n` and every character is a digit or a letter a-f in either case |
| ObjectIds.IsValidObjectId | transactions/src/app.js:34 | the validity test: an absent identifier is read as the empty text and the text must be a run of exactly 24 hexadecimal characters; its meaning is stated by `ObjectIds.ValidObjectIdShape` |
| ObjectIds.ValidObjectIdShape | transactions/src/app.js:34 | an identifier is valid exactly when it is present, 24 characters long and all hexadecimal; a missing identifier (read as the empty text) and the empty text are both rejected |
| ObjectIds.ToHexString | transactions/src/app.js:104 | the text form of any ObjectId passes the validity test |
| ObjectIds.FromHexString | transactions/src/app.js:104 | `new ObjectId(text)` for a valid text: the 12 bytes whose lower-case hexadecimal form is the text folded to lower case |
| ObjectIds.LowerHexAt | transactions/src/app.js:104 | case folding acts character by character |
| ObjectIds.DecodeEncodeHex | transactions/src/app.js:104 | decoding the hexadecimal text of a byte string gives the bytes back |
| ObjectIds.EncodeDecodeHex | transactions/src/app.js:104 | encoding the bytes read from hexadecimal text gives that text folded to lower case |
| ObjectIds.ObjectIdRoundTrip | transactions/src/app.js:104 | building an ObjectId from its own text gives the same ObjectId |
| ObjectIds.SameObjectIdIffSameLowerCase | transactions/src/app.js:104 | two valid identifiers build the same ObjectId exactly when they agree up to letter case |
| Extraction.MatchNonEmpty | transactions/src/app.js:80 | the kept documents are exactly those whose `transactions` exists and is non-empty, and none is added |
| Extraction.Unwind | transactions/src/app.js:81 | the `$unwind` stage: each document's embedded records in stored order, document after document; its meaning is stated by `Extraction.UnwindMembers` and `Extraction.UnwindAppend` |
| Extraction.UnwindMembers | transactions/src/app.js:81 | a record is unwound exactly when some document embeds it |
| Extraction.UnwindAppend | transactions/src/app.js:81 | unwinding keeps document order: the records of earlier documents come first |
| Extraction.SkipsAccountWithoutTransactions | transactions/src/app.js:80-81 | a document with an absent or empty list contributes no record, wherever it sits |
| Extraction.MatchThenUnwind | transactions/src/app.js:80-81 | the `$match` removes only documents that `$unwind` would drop anyway |
| Extraction.MatchNoneWithoutTransactions | transactions/src/app.js:80 | with no document holding transactions nothing passes the `$match` |
| Normalization.NormalizeDate | transactions/src/app.js:37-47 | the `$cond` on the date's type: a date passes through, a text is parsed or fails; its meaning is stated by `Normalization.NormalizeDateIdempotent` |
| Normalization.NormalizeTransaction | transactions/src/app.js:37-47 | one record: it succeeds exactly when its date is a date or parsable text, keeps type and amount and carries the normalised date; otherwise it fails naming the text |
| Normalization.NormalizeDateIdempotent | transactions/src/app.js:37-47 | a date passes unchanged; a text gives the date it parses to, or the failure naming that text when it does not parse; normalising an already normalised date changes nothing |
| Normalization.NormalizeAll | transactions/src/app.js:37-47 | the stage succeeds exactly when every record's date is a date or parsable text; then each output record is its input record normalised, position by position; otherwise the failure names the first unparsable text |
| Normalization.NormalizeAllAlike | transactions/src/app.js:37-47 | streams whose records normalise alike (a text date versus the date it parses to) give the same stage result |
| Grouping.Accumulate | transactions/src/app.js:50-66 | one step of `$group`: the record's month gets one more count, its amount more and the record pushed at the end, or a new group of one; the per-month meaning is stated by `Grouping.AccumulateAgrees` |
| Grouping.GroupByMonth | transactions/src/app.js:50-66 | `$group` as a fold of that step over the stream; its meaning is stated by `Grouping.GroupByMonthIsFilter` |
| Grouping.InMonthMember | transactions/src/app.js:52-55 | a record belongs to month `k` exactly when it is in the stream and its date's year and month are `k` |
| Grouping.GroupByMonthIsFilter | transactions/src/app.js:50-66 | the `$group` fold has a group for `k` exactly when some record falls in month `k`, and that group's count, total and pushed records are those of the records of month `k`, in stream order |
| Grouping.GroupOfKey | transactions/src/app.js:50-66 | every group holds at least one record and only records of its own month |
| Grouping.GroupInvariants | transactions/src/app.js:56-64 | in every group the count is the number of pushed records, the total is their summed amount, and every record of the stream sits in the group of its month |
| Grouping.DistinctKeys | transactions/src/app.js:52-55 | the list of keys holds each month that occurs, once each, and no other |
| Grouping.Emit | transactions/src/app.js:50-66 | the documents `$group` outputs, one per month that occurs; their shape is stated by `Grouping.EmitShape` and `Grouping.EmitConserves` |
| Grouping.EmitConserves | transactions/src/app.js:56-57 | the counts of the emitted groups add up to the number of records and their totals to the sum of all amounts |
| Grouping.EmitShape | transactions/src/app.js:50-66 | one document per month that occurs, with pairwise distinct ids, each equal to the filter-based group of its month |
| Ordering.Insert | transactions/src/app.js:68 | inserting a group adds exactly that group and keeps counts and totals |
| Ordering.InsertKeepsSorted | transactions/src/app.js:68 | inserting into a list in descending (year, month) order keeps that order |
| Ordering.SortDesc | transactions/src/app.js:68 | the sort returns a permutation of its input in descending (year, month) order with the same counts and totals |
| Ordering.SortedDistinctIsStrict | transactions/src/app.js:68 | groups in that order with distinct ids are in strictly descending order: each has a later year than the next, or the same year and a later month |
| Ordering.StrictlyDescUnique | transactions/src/app.js:68 | two strictly descending lists of the same groups are equal |
| Ordering.SortDescCanonical | transactions/src/app.js:68 | for groups with distinct ids the sort's result depends only on which groups there are, not on their input order |
| Ordering.SortDescKeepsSorted | transactions/src/app.js:68 | an already ordered list is returned unchanged |
| Aggregation.NormalizeKeepsTotal | transactions/src/app.js:57 | normalising dates does not change the sum of the amounts |
| Aggregation.Pipeline | transactions/src/app.js:79-85 | the five stages in order, failing when the date stage fails; its properties are the `Aggregation.Pipeline*` lemmas below |
| Aggregation.PipelineFailsOnlyOnBadDates | transactions/src/app.js:79-87 | the aggregation fails exactly when some unwound record has an unparsable text date, and the failure names such a text |
| Aggregation.PipelineOrdered | transactions/src/app.js:79-85 | a successful result has distinct month ids in strictly descending (year, month) order |
| Aggregation.PipelineConserves | transactions/src/app.js:79-85 | the result's counts add up to the number of embedded records and its totals to the sum of their amounts |
| Aggregation.SortedGroupsAreEmitted | transactions/src/app.js:83-84 | the sorted documents are exactly the documents `$group` emitted |
| Aggregation.PipelineGroupShape | transactions/src/app.js:79-85 | every result group holds at least one record, its count is the number of its records, its total their summed amount, and all of them fall in its month |
| Aggregation.EmitOf | transactions/src/app.js:50-66 | every record is pushed into the emitted group of its month |
| Aggregation.PipelineCoversTransactions | transactions/src/app.js:79-85 | every embedded record, normalised, appears in the result group of its month |
| Aggregation.PipelineIndependentOfGroupOrder | transactions/src/app.js:83-84 | whatever order `$group` emits its documents in, the sorted result is the same |
| Aggregation.TextAndNativeDatesAgree | transactions/src/app.js:82 | storing a date as text or as the date it parses to gives the same summary |
| Aggregation.AccountWithoutTransactionsIgnored | transactions/src/app.js:80-81 | adding a document without transactions anywhere in the collection does not change the summary |
| Aggregation.NothingToGroup | transactions/src/app.js:79-88 | without any document holding transactions the result is the empty list |
| Aggregation.SingleTransaction | transactions/src/app.js:79-85 | one document with one record gives one group of that record's month with count 1 and its amount as total |
| Routes.FindOne | transactions/src/app.js:107 | the lookup finds a document exactly when one has that ObjectId, and what it finds has it |
| Routes.MatchId | transactions/src/app.js:111 | the scoped `$match` keeps exactly the documents with that ObjectId |
| Routes.MatchIdAppend | transactions/src/app.js:111 | the scoped `$match` keeps collection order: it filters each part of a collection in turn |
| Routes.MatchIdNone | transactions/src/app.js:111 | with no document of that ObjectId it keeps nothing |
| Routes.MatchIdUnique | transactions/src/app.js:111 | when ObjectIds are unique, it keeps exactly the one document with that ObjectId, so the scoped stream is that document's own records |
| Routes.Respond | transactions/src/app.js:87-91 | 200 with the groups exactly when the aggregation succeeds, 500 without a body exactly when it fails |
| Routes.ListAll | transactions/src/app.js:75-93 | `GET /`; its outcomes are stated by `Routes.ListAllOutcomes` |
| Routes.ListForUser | transactions/src/app.js:95-124 | `GET /:userId`; its outcomes are stated by `Routes.UserRoutePrecedence` |
| Routes.ListAllOutcomes | transactions/src/app.js:75-93 | `GET /` answers 503 exactly when the database is not ready; otherwise it answers the pipeline's outcome: 200 with its groups exactly when it succeeds, 500 when it fails; a body comes only with 200 |
| Routes.UserRoutePrecedence | transactions/src/app.js:95-124 | `GET /:userId` answers 503 before anything else, then 400 for a malformed id, then 404 for an unknown user; for a found user it answers the outcome of the pipeline scoped to that ObjectId: 200 with its groups when it succeeds, 500 when it fails |
| Routes.FoundUserScoped | transactions/src/app.js:104-119 | when ObjectIds are unique, a found user's answer is the pipeline over that user's document alone |
| Routes.FoundUserWithoutTransactions | transactions/src/app.js:107-119 | a known user without transactions gets 200 with an empty list, not 404 |
| Routes.UserIdCaseInsensitive | transactions/src/app.js:100-108 | two valid identifiers that differ only in letter case get the same response |
| Scenarios.KnownUserIsValid | transactions/src/app.js:34 | `507f1f77bcf86cd799439011` passes the validity test |
| Scenarios.MalformedIdRefused | transactions/src/app.js:100-102 | `not-a-valid-id` is answered with 400 whatever is stored |
| Scenarios.ExampleNormalized | transactions/src/app.js:37-47 | three text dates of the example parse into two March records and one January record |
| Scenarios.ExampleGrouped | transactions/src/app.js:50-66 | the example's records group into March 2024 (2 records, total 250) and January 2024 (1 record, total 10) |
| Scenarios.ExampleSummaryFor | transactions/src/app.js:95-124 | a user holding the example's transactions gets 200 with March 2024 before January 2024, whatever its identifier |
| Scenarios.ExampleMonthlySummary | transactions/src/app.js:95-124 | the same for the identifier `507f1f77bcf86cd799439011` |
| Scenarios.AbsentUserFor | transactions/src/app.js:104-108 | a valid identifier that differs from the stored one in some character, ignoring case, is answered with 404 |

## Left out

- Express plumbing: request logging, JSON body parsing, the listening socket and the port and URI read from the environment.
- The `/status` health route: it always answers `{ ok: true }` and holds no logic.
- The connection bootstrap and the process exit on connection failure: the database handle is an `Option<Store>` argument.
- `$toDate` parsing: a parameter `parse`, because its grammar belongs to the database engine.
- The engine's calendar arithmetic: a date is its UTC year, month, day and time of day, so `$year` and `$month` are projections.
- Dates that are missing or of another type than text or date (`$year` of null or of a number): the model's records always carry a text or a date.
- A `transactions` field that is present but not an array: the model's documents hold an optional list.
- Amounts as floating-point numbers: the model sums unbounded integers.
- The order of the records pushed inside a group: the engine does not fix it; the model keeps stream order, one admissible order.
- The order in which `$group` emits its documents: the engine does not fix it; the model emits in order of first occurrence, and `Aggregation.PipelineIndependentOfGroupOrder` proves the sorted result does not depend on it.
- Error messages, logging and the JSON shape of error bodies: only the status is modelled.
- Other failures of the database calls (network, timeouts): only a failing date conversion produces 500 in the model.
- The lookup and the scoped aggregation of `GET /:userId` are two separate reads; the model evaluates both over one snapshot of the collection.
- The projection `{ _id: 1 }` of the lookup: only whether a document is found is used.
- The uniqueness of `_id` in the collection is not an invariant of `Store`; `Routes.MatchIdUnique` and `Routes.FoundUserScoped` take it as the hypothesis `UniqueIds`.

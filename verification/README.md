# Verified model of the request, job, schema and migration protocols

The project models, in Dafny 4.11, the parts of the system in which a wrong interleaving or a wrong byte is expensive,
and proves what they promise.

- **Idempotent requests** (`Idempotency.dfy`, `Protocol.dfy`, `ProtocolPromises.dfy`, `ProtocolHistories.dfy`,
  `ProtocolOrder.dfy`). A mutating request claims a key, runs its scenario and saves the answer in one tenant-scoped
  transaction; a refusal anywhere inside rolls all of it back. `Idempotency` is one request against a database (classes
  `Database` and `Session`, method `Guarded`). `Protocol` is any number of them: private uncommitted writes, an insert
  that waits for a rival's open insert of the same key, a claim that waited and then reads either the current row or
  what its own snapshot showed, a commit that is sent, lands and is acknowledged in three steps, rollback, a process
  that dies or a connection that breaks between any two of them, a moving clock and the sweep of expired keys.
  Everything is proved about every history of these steps. `OneAfterAnother` and `EveryReplyHasItsMoment` tie every
  history back to the single request, taken one at a time in the order in which commits landed, and
  `UndisturbedRunSettles` shows that a single request is one of the histories.
- **Periodic jobs** (`Lease.dfy`, `Jobs.dfy`). The expiring lock row, and the trace that is set before an action so that
  a worker that lost its lock, or died, does no harm; `UndisturbedWorkerExecutes` ties the interleaved steps to the
  loop.
- **The append-only snapshot of event schemas** (`Text.dfy`, `Sorting.dfy`, `YamlBlock.dfy`, `Chunks.dfy`,
  `Snapshot.dfy`, `Registry.dfy`, `RegistrySpelling.dfy`, `SnapshotUpdates.dfy`, `SnapshotText.dfy`, `Documents.dfy`,
  `ReadingRules.dfy`, `Declarations.dfy`). The strict YAML subset and its recursive parser, what the parser makes of
  every document of the subset and of everything the printer writes, which texts it accepts at all, any number of
  `--update` runs over any registries, and registry texts that declare any given schemas.
- **Migrations** (`Migrations.dfy`, `SqlText.dfy`, `SqlTokens.dfy`). Atomic apply-and-record steps with failures between
  them, one run after another and several at once, the checksum guard, and the SQL lexer whose output must keep every
  offset of its input.
- **Invitations** (`Invitations.dfy`, `InvitationRuns.dfy`). Inviting one by one and by list, one scenario after
  another, and then as overlapping transactions in which the look for a live invitation and the insert are two
  statements.
- **Algorithms and rules with exact specifications**: edit distance with one rolling row (`EditDistance.dfy`), 64-bit
  money (`Money.dfy`), UUID text (`Uuid.dfy`, the form of section 3 of RFC 4122), the in-memory repository with its undo
  log (`FakeRepository.dfy`) and the inspection of secrets (`Secrets.dfy`).

Code that changes things step by step is modelled as methods over classes, arrays of lines or growing lists, each proved
equal to a specification function; the promises are lemmas about these functions. Failures are values:
`Outcomes.Attempt` tells a value, a refusal of the domain and an exception apart.

## What came out that the code and its documentation do not say

- `docs/architecture/idempotency.md` (lines 96-97) says that a claim that waited sees the finished answer. The claim is
  one statement with one snapshot, so it may also come back empty, and then the code throws
  (`postgres_idempotency_keys.cpp:63-65`): `EmptyClaimHappens` is such a history, and by `EmptyClaimIff` a waiting claim
  of a committed key may come back empty exactly when it took its snapshot before the key was there. Safety holds either
  way, and it is the only reply that no moment of the run's life explains (`EveryReplyHasItsMoment`).
- A client that hears nothing, or an exception, cannot know whether its effect landed (`SilenceTellsNothing`); its retry
  in time is answered with what the run that was cut off would have said (`RetryOfACutOffRunIsReplayed`).
- The sweep deletes a key whose deadline has passed, and a key that is still there after its deadline still replays;
  hence "at most once" is exact as `OncePerLifetime`: a second execution lands only after the first key's deadline.
- `invite_participant.hpp` promises that no second letter goes out while the first invitation lives. The look and the
  insert are two statements, and the index of `V008__practice_and_accounts.sql` (lines 106-108) is not unique: two
  requests that overlap both issue (`TwoLettersHappen`). `SafeIff` says from which states that can still happen,
  `LookKeepsSafeIff` which looks lead there: exactly those that meet a live uncommitted invitation to the same
  addressee, or another transaction between its look and its insert.
- `strip_comments` is said to keep the length and the line numbers. It keeps the length exactly when every block comment
  is closed (`LengthKeptExactlyWhenClosed`), and all line numbers exactly when every block comment is closed or the text
  does not end in a line break (`LinesSurviveIff`, `OpenCommentLosesALine`).
- The body of a policy is cut from the raw text, where literals still count. It ends with its statement exactly when the
  parentheses inside the statement's comments and literals balance by its end and bring no semicolon out of all
  parentheses before it (`BodyEndsWithItsStatementIff`); one parenthesis in a literal drags the next statement into the
  body of any policy (`LiteralParenthesisOverruns`).
- `--update` does not look at what it writes. After a success the check, and a second update, pass exactly when in what
  was written every key has the form the parser expects, no pair begins with a field that looks like a list item, and
  every kind is read as what was written (`CheckPassesAfterUpdateIff`, `PublishedButNotPassing`). A kind is read as what
  was written exactly when it is an inline list printed just as it is spelled, or has no blanks and no quotation mark at
  its ends and is no fold mark (`KindIsKeptIff`). Registry texts that parse, are published and then fail are given for
  each of the three: by any event name or version that is not of the form (`KeyIsLostIff`), by any second field that
  looks like an item, is listed after another and sorts before it (`FieldIsLostIff`), and by any kind that is not kept
  (`KindIsLostIff`), such as a fold mark in quotes (`QuotedFoldMarkIsLost`).
- `Minus` refuses the smallest 64-bit subtrahend even where the difference fits (`MinusPlainlyExactIff`).
- A claimed action is undone for good exactly when the worker that claimed it died before performing it
  (`UndoneForGoodIff`).
- `apply` never refuses an empty directory, whatever the registry says (`RefusesExactlyWhen`).

## Model

| member | source | states |
|---|---|---|
| Idempotency.Session.Take | libs/pdr-http/src/infrastructure/http/postgres_idempotency_keys.cpp:55-90 | the claim inserts an open row under a free key and touches nothing under a taken one: another body is refused as reused, an open row is in flight, a completed row is replayed |
| Idempotency.Session.Complete | libs/pdr-http/src/infrastructure/http/postgres_idempotency_keys.cpp:92-103 | only an open row is closed, with its fingerprint and deadline kept; otherwise an exception and no change |
| Idempotency.Session.Produce | libs/pdr-http/src/infrastructure/http/authorized_handler.hpp:256-262 | the scenario's writes stay in the transaction, its value becomes a saveable answer, its refusal a rollback |
| Idempotency.Guarded | libs/pdr-http/src/infrastructure/http/authorized_handler.hpp:231-253 | key table, effects and reply after one request are those of `Settle`: all three together, or nothing but the reply |
| Idempotency.RepeatIsAnswered | libs/pdr-http/src/infrastructure/http/authorized_handler.hpp:281-301 | a corollary for two sequential requests: a repeat after success changes nothing and gets the same status and body marked as replayed, or "reused" for another body; after any failure it is served as if it were the first |
| Idempotency.FirstClientSees | libs/pdr-http/src/infrastructure/http/authorized_handler.hpp:281-301 | under a free key, whatever the table holds besides, the client of a scenario that gave a body gets status 200, that body and no replay mark, the client of one that refused the problem with its very code, and the client of one that threw a broken exchange |
| Idempotency.EndingsAreToldApart | libs/pdr-http/src/infrastructure/http/authorized_handler.hpp:281-301 | under a free key two endings look the same to the client only if they are the same |
| Idempotency.LaterClientSees | libs/pdr-http/src/infrastructure/http/authorized_handler.hpp:281-301 | under a taken key nothing changes, and the client gets the saved status and body marked as replayed, "in flight" for an open row, or "reused" for another body |
| Idempotency.ReusedIff | libs/pdr-http/src/infrastructure/http/postgres_idempotency_keys.cpp:67-72 | "reused" is told if and only if the key is taken with another fingerprint, or it is free and the scenario itself said so |
| Idempotency.StoredIffAnswered | libs/pdr-http/src/infrastructure/http/authorized_handler.hpp:231-253 | something is stored if and only if the client gets an answer that is no replay; then it is that answer under the key and one effect with everything the scenario wrote |
| ProtocolPromises.OncePerLifetime | libs/pdr-http/src/infrastructure/http/postgres_idempotency_keys.cpp:28-51 | in every history, two committed effects under one key are apart: the second lands no earlier than the first one's deadline |
| ProtocolPromises.RowExactlyWhenExecutedOnce | libs/pdr-http/src/infrastructure/http/authorized_handler.hpp:231-253 | a key that was not swept has at most one committed effect, and a row exactly when it has one |
| ProtocolPromises.NoOpenRowIsEverCommitted | libs/pdr-http/src/infrastructure/http/authorized_handler.hpp:238-249 | every committed row is completed, with the answer of an effect committed under that key with that body |
| ProtocolPromises.EffectExactlyWhenLanded | libs/pdr-http/src/infrastructure/http/authorized_handler.hpp:192-253 | a run left an effect if and only if it was told that its scenario ran, or is about to be told, or was cut off after its commit had landed: exactly one, with the answer it was or would have been given; refused, thrown, cut-off-earlier and unfinished runs left none |
| ProtocolPromises.SavedAnswerIsNeverRewritten | libs/pdr-http/src/infrastructure/http/postgres_idempotency_keys.cpp:44-51 | whatever happens next, a saved answer stays as it is until its key is swept |
| ProtocolPromises.LaterRunsGetTheirDue | libs/pdr-http/src/infrastructure/http/postgres_idempotency_keys.cpp:67-89 | every run that asks later and is not cut off gets the saved answer for the same body and "reused" for another |
| ProtocolPromises.LaterClientsSeeTheEffectsAnswer | libs/pdr-http/src/infrastructure/http/authorized_handler.hpp:281-301 | its client sees the status and body of the committed effect, marked as replayed, whether or not the first client heard anything |
| ProtocolPromises.RetryOfACutOffRunIsReplayed | docs/architecture/idempotency.md:3-5 | the retry of a run that was cut off after its commit had landed does not run the scenario and is answered with what that run would have answered |
| ProtocolHistories.SilenceTellsNothing | libs/pdr-core/src/infrastructure/postgres_tenant_aware_repository.cpp:8-14 | a client that heard nothing, or an exception, may have left nothing or exactly one effect: both histories are there |
| ProtocolHistories.EmptyClaimHappens | libs/pdr-http/src/infrastructure/http/postgres_idempotency_keys.cpp:55-65 | a history in which the second of two requests waits for the first, reads its own older snapshot and throws although the key is committed |
| ProtocolHistories.EmptyClaimIff | libs/pdr-http/src/infrastructure/http/postgres_idempotency_keys.cpp:55-65 | over every history, a claim that waited for a committed key may come back empty if and only if the run took its snapshot before the key was there |
| ProtocolOrder.OneAfterAnother | libs/pdr-http/src/infrastructure/http/authorized_handler.hpp:231-253 | after every history, keys and effects are what the single requests leave that are served one after another at the moments their commits landed, with the sweeps in between |
| ProtocolOrder.EveryReplyHasItsMoment | libs/pdr-http/src/infrastructure/http/authorized_handler.hpp:192-253 | in every history, whatever a run was told is what its request would be told if it were served alone at one moment of the run's life, for a scenario that ran the moment its commit landed; only a claim that came back empty because it asked too early has no such moment |
| ProtocolHistories.UndisturbedRunSettles | libs/pdr-core/src/infrastructure/postgres_tenant_aware_repository.cpp:8-14 | from any reachable state in which nobody holds the key a new run can go to its end, and leaves exactly what `Guarded` computes; a key freed by a rollback is claimed again |
| ProtocolHistories.ExpiredKeyIsServedAnew | db/http/prune.sql:1-17 | from any reachable state in which nobody holds a key whose deadline has passed, its row can be swept and a new request is then served as under a free key |
| Protocol.StepKeepsInv | libs/pdr-http/src/infrastructure/http/authorized_handler.hpp:223-262 | every step keeps: effects and runs belong together one to one, a row whose commit has not landed is held alone, executed scenarios are rows plus sweeps, and no run was told anything untrue or "in flight" |
| Protocol.InvAlways | libs/pdr-http/src/infrastructure/http/authorized_handler.hpp:223-262 | so does every history |
| Protocol.LandingKeepsInv | libs/pdr-core/src/infrastructure/postgres_tenant_aware_repository.cpp:8-14 | a commit that lands publishes row and effect together without breaking any part of the invariant |
| Protocol.SweepKeepsInv | db/http/prune.sql:1-17 | deleting an expired row keeps the bookkeeping and the distance between effects |
| Protocol.MovedIsOk | libs/pdr-http/src/infrastructure/http/postgres_idempotency_keys.cpp:61-89 | a run that is moved along without committing keeps its writes private and learns only what is true of the committed effects, whichever row its claim read |
| Lease.Acquired | scripts/check_jobs.py:57-68 | the lock is obtained exactly when it is free, one's own or expired, and a refusal changes nothing |
| Lease.ForeignReleaseLeavesNoTrace | scripts/check_jobs.py:70-72 | over any history, a release by anybody but the holder is refused and changes neither the row nor any answer before or after it |
| Lease.ExpiredLeaseIsObtainable | scripts/check_jobs.py:57-68 | over any history, once every granted lease has run out whoever asks gets the lock, released or not |
| Lease.Worker.TryAcquire | scripts/check_jobs.py:110-113 | acts on the shared row as `Acquired` |
| Lease.Worker.TryRelease | scripts/check_jobs.py:115-117 | removes the shared row exactly if it is the worker's own |
| Lease.NobodyElseGetsARunningLease | scripts/check_jobs.py:57-68 | between a grant and its expiry nobody else is granted the lock unless its owner acted in between |
| Lease.PeriodsAreInOrder | scripts/check_jobs.py:57-72 | the periods of all leases granted, each cut at its owner's renewal or release, follow one another |
| Lease.AtMostOneHolderAtAnyInstant | scripts/check_jobs.py:57-72 | at no instant of any history with a clock that does not go back do two periods run |
| Jobs.Ledger.Claim | scripts/check_jobs.py:119-122 | true exactly when the trace was not there, and it is there afterwards |
| Jobs.Execute | libs/pdr-jobs/src/jobs/application/run_periodic_job.cpp:10-41 | a run works off a prefix of its plan, performs in order exactly what nobody had a trace for, counts it, and stops at the first item before which the lock was lost or the time was up |
| Jobs.HandoverLosesAndRepeatsNothing | scripts/check_jobs.py:279-317 | a worker that loses the lock anywhere and a successor with the same plan perform together exactly what one worker would have |
| Jobs.FreshHasNoRepeats | libs/pdr-jobs/contract/jobs/contract.hpp:45-49 | one run performs no key twice, even if its plan repeats it |
| Jobs.StepKeepsInv | libs/pdr-jobs/src/jobs/application/run_periodic_job.cpp:21-36 | every step of any number of workers keeps claims and traces one to one and each claimed action performed or owed by exactly one worker |
| Jobs.ClaimedAndPerformedAtMostOnce | libs/pdr-jobs/contract/jobs/contract.hpp:45-49 | in every interleaving, with workers that lost the lock or died, no key is claimed twice and no action performed twice |
| Jobs.MissingActionHasOneCulprit | libs/pdr-jobs/contract/jobs/contract.hpp:45-49 | a claimed action that was not performed is owed by exactly one worker, which is about to perform it or died |
| Jobs.UndoneForGoodIff | libs/pdr-jobs/contract/jobs/contract.hpp:45-49 | a claimed action stays unperformed in every continuation if and only if the worker that claimed it died before performing it |
| Jobs.UndisturbedWorkerExecutes | libs/pdr-jobs/src/jobs/application/run_periodic_job.cpp:10-41 | a worker that nobody interrupts goes through inserts, commits and actions to exactly the traces, actions and counters that `Execute` ensures |
| Jobs.CompletePassCoversItsPlan | scripts/check_jobs.py:301-314 | after a worker went through its whole plan every planned key has exactly one trace |
| Text.LinesReadBack | scripts/check_product_events.py:301-301 | lines without line breaks come back from the joined text as they were |
| Text.NumbersReadBack | scripts/check_product_events.py:323-323 | a version written in decimal is read as itself |
| ReadingRules.LineIsSplitOff | scripts/check_product_events.py:110-122 | every line break ends a line, a carriage return with its line feed being one of them |
| ReadingRules.StripTakesTheBlanks | scripts/check_product_events.py:110-122 | stripping takes all blanks at both ends and nothing else, and the indentation is the number of those at the beginning |
| ReadingRules.BlanksAre | scripts/check_product_events.py:110-122 | the characters that count as blanks, all of them |
| ReadingRules.UnquoteTakesTheMarks | scripts/check_product_events.py:141-172 | unquoting takes all quotation marks at both ends and nothing else |
| ReadingRules.PartitionIff | scripts/check_product_events.py:147-149 | a text is parted at its first separator, or not at all if it has none |
| Sorting.Sorted | scripts/check_product_events.py:345-347 | every member once, in order |
| Sorting.StringOrder | scripts/check_product_events.py:345-347 | comparison by code points is a total order |
| YamlBlock.CollectBody | scripts/check_product_events.py:116-127 | the lines of a block and where it ends |
| YamlBlock.ReadItems | scripts/check_product_events.py:134-141 | a list is read item by item, and refused if it goes on with anything else |
| YamlBlock.ReadEntries | scripts/check_product_events.py:143-175 | a mapping is read entry by entry; shifted indentation, a line without a colon and a repeated key are refused |
| YamlBlock.ReadValue | scripts/check_product_events.py:157-172 | folded text, nested block, inline list or scalar, by what stands after the colon |
| YamlBlock.ReadBlock | scripts/check_product_events.py:110-175 | the recursive loop computes the block's value and the line after it |
| ReadingRules.BodyIsExactly | scripts/check_product_events.py:116-127 | a block goes on to the first line that is neither blank nor a comment nor deeper, and its body is all its lines but blank ones and comments, in order |
| ReadingRules.ListIsReadIff | scripts/check_product_events.py:134-141 | for all blocks: a list is read if and only if every line is an item, and each item is what follows its dash, stripped and unquoted |
| ReadingRules.MappingIsReadIff | scripts/check_product_events.py:143-175 | for all blocks: a mapping is read if and only if its first line begins an entry, every entry has a colon, a key of its own and a value, and deeper lines stand only below entries without a value on their line; it has these keys and values and no others |
| ReadingRules.FoldedIsExactly | scripts/check_product_events.py:178-189 | for all texts: folded text is the lines that are not blank, up to the first that is no deeper, stripped and joined by a space |
| ReadingRules.ValueIsRead | scripts/check_product_events.py:152-172 | what is read for an entry in each of the four cases, told by the characters after its colon |
| ReadingRules.BlockIsRead | scripts/check_product_events.py:110-175 | for all texts: which blocks are read as nothing, as a list and as a mapping, and which are refused |
| Documents.PieceByPiece | scripts/check_product_events.py:170-170 | in an inline list blank pieces are dropped and every other one is stripped and unquoted in its place |
| Documents.BlockReads | scripts/check_product_events.py:110-175 | wherever it stands, a block that spells nested mappings, lists, inline lists, folded, quoted and bare texts is read as what it spells, or refused if some mapping in it repeats a key |
| Documents.DocumentIsRead | scripts/check_product_events.py:201-235 | for all documents of the subset: the registry parses if and only if all its events are mappings and no mapping in it has a key twice, and then its events are what the document says |
| Documents.MeaningIff | scripts/check_product_events.py:143-175 | fields make a mapping if and only if their names are different and each has a value, and then it has these names and values and no others |
| Snapshot.FieldLineReadsBack | scripts/check_product_events.py:347-348 | every written field line is indented by two, is no comment, is an item exactly if its name looks like one, and splits into its name and kind |
| Snapshot.KeyReadsBack | scripts/check_product_events.py:312-323 | for every name and version, what is written for a pair is read as that pair if it has the expected form and refused otherwise |
| Snapshot.FieldsReadBack | scripts/check_product_events.py:320-325 | the block parser reads the written lines of a pair as exactly its fields with the kinds that are read for those written, up to the next pair, unless the first looks like an item |
| Snapshot.PairsReadBack | scripts/check_product_events.py:303-327 | the parser adds pair after pair, or refuses because of one of their keys or first fields |
| Snapshot.WrittenSnapshotIsReread | scripts/check_product_events.py:298-349 | what parsing makes of any rendered snapshot: the pairs and fields with the kinds that are read for those written, or a refusal exactly if a key or a first field is not what the parser expects |
| Snapshot.WrittenSnapshotReadsBackIff | scripts/check_product_events.py:298-349 | a rendered snapshot reads back as itself if and only if no key or first field stops the parser and every kind is read as what was written |
| Snapshot.TextIsCanonical | scripts/check_product_events.py:330-349 | different snapshots have different texts |
| SnapshotText.TextIsLaidOut | scripts/check_product_events.py:330-349 | the text is the header and then the pairs in the order of their names, by code points, and versions, by number, each laid out as an empty line, `name@version:` and its fields, in the order of their names, as `  field: kind` |
| SnapshotText.NumbersAreDecimal | scripts/check_product_events.py:346-346 | numbers are written in tens, the last digit being the remainder |
| ReadingRules.ParseKeyIff | scripts/check_product_events.py:312-323 | what is taken for a key: a name of small letters, figures, underscores and dots that begins with a letter, the sign, and figures, and for which pair |
| ReadingRules.SnapshotIsReadIff | scripts/check_product_events.py:298-327 | for all texts: a snapshot is read if and only if nothing stands before its first unindented line, each such line names a pair of the expected form, and a mapping stands below it; each pair has the kinds below the last line that names it |
| Registry.ParseEvents | scripts/check_product_events.py:201-235 | the loop computes the events of the registry or refuses |
| ReadingRules.RegistryIsReadIff | scripts/check_product_events.py:201-235 | for all texts: a registry is read if and only if nothing stands before its first unindented line, each such line is an event name of its own followed by a colon and nothing else, and a mapping stands below it; these are its events, all of them, each with the mapping below its name |
| Registry.ParseSnapshot | scripts/check_product_events.py:298-327 | the loop computes `ParsePublished` |
| Registry.ReadCurrent | scripts/check_product_events.py:352-367 | a pair for each event with fields and a version that `int` accepts, with the kind of every field |
| ReadingRules.PyIntIff | scripts/check_product_events.py:358-363 | what counts as a version, and as which: an optional sign and digits, which single underscores may group |
| Registry.CurrentIsExact | scripts/check_product_events.py:352-367 | a pair with these fields is declared if and only if its event has a version that reads as that number and just these fields, each with the kind its `type` says, or none |
| Registry.FindViolations | scripts/check_product_events.py:370-393 | the nested loops list what `FrozenSchemaViolations` says, in order |
| Registry.ViolationsAreExact | scripts/check_product_events.py:370-393 | exactly the published fields that are missing or have another kind in a pair that is still declared |
| Registry.NoViolationsIff | scripts/check_product_events.py:370-393 | nothing is listed exactly when every declared pair keeps its published fields and kinds |
| Registry.RenderPublished | scripts/check_product_events.py:330-349 | the loops that append parts write `Render` |
| Registry.Checkout.Update | scripts/check_product_events.py:674-708 | the file is replaced only on success; on any refusal it stays as it was |
| Registry.Checkout.Check | scripts/check_product_events.py:646-671 | reports a missing, unreadable or stale snapshot and every violation |
| Registry.UpdateSucceedsIff | scripts/check_product_events.py:674-708 | the update succeeds if and only if registry and file can be read and every published pair that is still declared keeps its fields and kinds; then the file holds all pairs, those declared now as declared, and otherwise it stays as it was |
| Registry.ReportsAreExact | scripts/check_product_events.py:646-671 | exactly this is reported: the first of registry, file and snapshot that is missing or unreadable, or else every violation and a text that is not that of the merged pairs |
| SnapshotUpdates.OneUpdateOfAWrittenSnapshot | scripts/check_product_events.py:674-708 | one update under any registry turns the text of a snapshot into the text of one that keeps everything in it, or leaves it |
| SnapshotUpdates.NothingPublishedIsEverLost | scripts/check_product_events.py:674-708 | over any sequence of registries the file stays the text of some snapshot that has every pair and field it ever had, and every kind that is read as what was written; once it holds a key or first field that its parser refuses, it never changes again |
| RegistrySpelling.WhatIsReadIsTrusted | scripts/check_product_events.py:312-325 | whatever text is parsed, the pairs read have names and versions of the expected form and can be spelled out again |
| SnapshotUpdates.CheckPassesAfterUpdateIff | scripts/check_product_events.py:646-708 | after any successful update the check is silent about the snapshot if and only if what was written reads back as itself, key by key, field by field and kind by kind; and the same for a second update that succeeds without change |
| SnapshotUpdates.PublishedButNotPassing | scripts/check_product_events.py:646-708 | schemas of which some key, first field or kind does not read back are published by a first update without complaint, and then neither command passes |
| SnapshotUpdates.OnlyTheRegistryMatters | scripts/check_product_events.py:674-708 | over a snapshot that reads back as itself, the result does so exactly when what the registry declares does |
| SnapshotUpdates.NothingReadIsEverLost | scripts/check_product_events.py:674-708 | from any file, absent or written by hand: over any sequence of registries it stays as it is or becomes the text of some snapshot that has everything that was read from it, and a file that cannot be read never changes |
| Declarations.EverySchemaCanBeDeclared | scripts/check_product_events.py:201-235 | for every key and every schema whose names can stand before a colon, whose kinds are on one line without quotation marks at their ends and whose first listed field is no item, there is a registry text that parses and declares just it |
| Declarations.SchemasCanBeDeclared | scripts/check_product_events.py:201-235 | for any list of such schemas: the registry that declares them one after another parses if and only if their event names are pairwise different, and then it declares exactly all of them |
| Declarations.DeclarationFailsIff | scripts/check_product_events.py:646-708 | such a text is published by a first update without complaint, and then fails the check exactly if the schema, written alone, does not read back as itself |
| Declarations.KeyIsLostIff | scripts/check_product_events.py:312-323 | whatever the event's name and version, the registry that declares it with one plain field parses, is published and then fails the check exactly if they are not of the form the snapshot's parser expects |
| Declarations.KindIsLostIff | scripts/check_product_events.py:157-172 | so for a good key and field with any one-line kind without quotation marks at its ends, exactly if that kind is not read as what was written |
| Declarations.FieldIsLostIff | scripts/check_product_events.py:129-141 | so for any second field, exactly if it looks like an item of a list: it is listed second, sorts first, and makes the written snapshot unreadable |
| Declarations.QuotedFoldMarkIsLost | scripts/check_product_events.py:157-172 | the registry that declares any fold mark in quotes as a kind is published and then fails |
| Snapshot.KindIsKeptIff | scripts/check_product_events.py:157-172 | a kind is read as what was written if and only if it is an inline list whose reprint is that very text, or has no blanks and no quotation mark at its ends and is no fold mark |
| RegistrySpelling.EventsAreSpelled | scripts/check_product_events.py:201-235 | every name the parser lets through can stand before a colon, and every set of fields is non-empty |
| RegistrySpelling.DeclaredSchemasAreSpellable | scripts/check_product_events.py:201-235 | every registry that parses declares schemas whose names can stand before a colon and whose kinds are on one line, and whose fields do not all look like items, so that the statements about written snapshots hold for it |
| Migrations.Load | scripts/migration_model.py:523-564 | all files, each once, in ascending order of version, or a refusal exactly when a name breaks the rule or a number is given twice |
| Migrations.Mismatches | scripts/migrate.py:85-109 | the changed and the vanished applied files, all of them and no others; none exactly when registry and files agree |
| Migrations.RecordedExactlyWhenExecuted | scripts/migrate.py:75-82 | over any runs, failures and directories the registry lists exactly the migrations that were executed |
| Migrations.RecordsComeFromFiles | scripts/migrate.py:75-82 | every recorded checksum is that of a file some run saw under that number |
| Migrations.Database.CommandApply | scripts/migrate.py:134-167 | code and database after one run, failures at any migration included |
| Migrations.Database.CommandVerify | scripts/migrate.py:112-131 | zero exactly when the registry exists, agrees with the files and nothing waits |
| Migrations.ExecutedAtMostOnce | scripts/migrate.py:75-82 | over any runs, failures and changing directories no migration is executed twice, and executions and records are only ever added |
| Migrations.RerunsOnlyProgress | scripts/migrate.py:157-164 | over an unchanged directory what was executed is always the first so many versions in ascending order, and all of them once a run succeeds |
| Migrations.SuccessfulRerunsEqualOneRun | scripts/migrate.py:134-167 | failures and re-runs end in the same database as one uninterrupted run |
| Migrations.ExecutedAtMostOnceInterleaved | scripts/migrate.py:134-167 | however runs over any directories interleave, each with the list it made when it began, no migration is executed twice and the registry lists what was executed |
| Migrations.InterleavedRunsOnlyProgress | scripts/migrate.py:157-164 | however runs over one directory interleave, the database is always the one that a single run leaves after the first so many migrations |
| Migrations.VerifiedIffRegistryIsTheDirectory | scripts/migrate.py:112-131 | verification succeeds exactly when the registry's map of versions to checksums is the directory's |
| Migrations.SuccessfulApplyIsVerified | scripts/migrate.py:134-167 | a successful run on a non-empty directory leaves a database that verifies |
| Migrations.RefusesExactlyWhen | scripts/migrate.py:134-155 | a corollary of one branch of the command: it refuses before touching anything exactly when an applied file changed or vanished, or there is no registry and nowhere in the first migration stands its name, each letter small or capital |
| Migrations.ApplyGoesOnToTheFirstThatStops | scripts/migrate.py:134-167 | from the first so many migrations of a directory a run goes on exactly to the first that fails or has no registry to be recorded in; it succeeds if there is none, and is refused only at the beginning, if the first one does not name the registry |
| Migrations.ApplySucceedsIff | scripts/migrate.py:145-167 | from an empty database a run over a non-empty directory succeeds if and only if its first migration has `schema_version` in it, in any mixture of cases, and creates the registry, and all migrations work; then all were executed in order and are recorded |
| SqlText.StripComments | scripts/migration_model.py:199-251 | the scanner writes `Strip` of the text |
| SqlText.ScanToken | scripts/migration_model.py:203-249 | each branch of the scanner consumes and writes exactly one token |
| SqlText.ScanBlock | scripts/migration_model.py:213-221 | block comments, closed or not |
| SqlText.ScanQuote | scripts/migration_model.py:232-246 | string literals with doubled quotes, closed or not |
| SqlText.PositionsSurvive | scripts/migration_model.py:199-251 | with every block comment closed the length is kept, line breaks stay, and every other character is itself or a space at its own index |
| SqlText.LengthKeptExactlyWhenClosed | scripts/migration_model.py:213-221 | the length is kept if and only if no block comment is left open, and grows by at most two otherwise |
| SqlText.AllButTheLastSurvive | scripts/migration_model.py:199-251 | on every text every character but the last is kept or blanked at its index, line breaks kept; the last one becomes a space if a block comment is left open |
| SqlText.LinesSurviveIff | scripts/migration_model.py:432-450 | the line number computed in the cleaned text is that of the raw text at every offset if and only if every block comment is closed or the text does not end in a line break |
| SqlText.OpenCommentLosesALine | scripts/migration_model.py:213-221 | an open block comment can swallow the last line break |
| SqlText.StrippedIsClean | scripts/migration_model.py:199-251 | on every text, no comment and no literal starts anywhere in the result |
| SqlText.StripIsIdempotent | scripts/migration_model.py:199-251 | on every text, cleaning twice is cleaning once |
| SqlTokens.LineCommentVanishes | scripts/migration_model.py:208-212 | a comment goes on to the end of its line, whatever it holds: it is blanked, and what follows is cleaned as if it stood alone |
| SqlTokens.BlockCommentVanishes | scripts/migration_model.py:213-221 | so does a block comment up to its first closing mark |
| SqlTokens.OpenCommentSwallows | scripts/migration_model.py:213-221 | without a closing mark the rest of the text is blanked |
| SqlTokens.DollarLiteralVanishes | scripts/migration_model.py:222-231 | a literal between tags goes on to the next occurrence of its own tag |
| SqlTokens.OpenDollarLiteralVanishes | scripts/migration_model.py:222-231 | or, without one, to the end of the text |
| SqlTokens.QuotedLiteralVanishes | scripts/migration_model.py:232-246 | for any text in it: a quoted literal with that text, its quotation marks doubled, ends at the first mark that is not doubled |
| SqlTokens.OpenQuotedLiteralVanishes | scripts/migration_model.py:232-246 | or, without one, at the end of the text |
| SqlTokens.OpensIff | scripts/migration_model.py:205-232 | a comment or a literal begins at `--`, at `/*`, at a quotation mark and at two dollar signs with nothing or a name between them, and nowhere else |
| SqlTokens.OtherCharactersStay | scripts/migration_model.py:247-249 | every other character is kept, and what follows is cleaned as if it stood alone |
| SqlText.StatementTail | scripts/migration_model.py:418-429 | the text up to the first semicolon outside parentheses |
| SqlText.BodyEndsWithItsStatementIff | scripts/migration_model.py:432-450 | on every text, a body cut from the raw text at the cleaned text's offset ends where the statement ends if and only if the blanked parentheses balance by then and bring no semicolon out of all parentheses before |
| SqlText.BodyEndsWithItsStatement | scripts/migration_model.py:432-450 | a corollary: so it is if the statement has no delimiter in a comment or literal |
| SqlText.LiteralParenthesisOverruns | scripts/migration_model.py:418-450 | for a policy of any name and table with one parenthesis in a literal, the body takes in the next statement, wherever behind the table's name it begins; a table called `only`, after which it begins behind `using`, is no exception |
| EditDistance.Levenshtein | scripts/compare_quality.py:65-74 | the rolling row computes the recursive edit distance for all sequences |
| EditDistance.NoShorterEditing | scripts/compare_quality.py:65-74 | no sequence of single insertions, deletions and replacements is shorter than the distance |
| EditDistance.ShortestEditing | scripts/compare_quality.py:65-74 | one is exactly as long |
| EditDistance.ZeroExactlyOnEqual | scripts/compare_quality.py:65-74 | distance zero means equal |
| EditDistance.Symmetric | scripts/compare_quality.py:65-74 | the distance does not depend on the direction |
| EditDistance.Triangle | scripts/compare_quality.py:65-74 | the triangle inequality |
| EditDistance.Bounds | scripts/compare_quality.py:65-74 | at least the difference of the lengths, at most the longer length |
| EditDistance.ErrorRateMeaning | scripts/compare_quality.py:77-88 | the rate is zero exactly on an empty sample or exact reproduction, and at most one when the produced sequence is no longer than the expected one |
| EditDistance.ErrorRateCountsEdits | scripts/compare_quality.py:77-88 | the rate times the expected length is the distance |
| EditDistance.ErrorRatesCompare | scripts/compare_quality.py:77-88 | of two results for one sample the one with fewer edits has the lower rate |
| EditDistance.NothingIsWhollyWrong | scripts/compare_quality.py:77-88 | for a sample that is not empty producing nothing has rate one |
| Money.AddOverflows | libs/pdr-core/src/core/money.cpp:11-17 | true exactly when the mathematical sum does not fit 64 bits; nothing overflows on the way |
| Money.MulOverflows | libs/pdr-core/src/core/money.cpp:19-30 | true exactly when the mathematical product does not fit, by truncating divisions that are themselves always defined |
| Money.PlusIsExact | libs/pdr-core/src/core/money.cpp:54-60 | a value exactly when currencies agree and the sum fits, and then the sum |
| Money.TimesIsExact | libs/pdr-core/src/core/money.cpp:72-76 | a value exactly when the product fits, and then the product |
| Money.MinusIsExactButForTheSmallest | libs/pdr-core/src/core/money.cpp:62-70 | the same for the difference, except that the smallest subtrahend is always refused |
| Money.MinusPlainlyExactIff | libs/pdr-core/src/core/money.cpp:65-66 | subtraction of b is exact for every minuend if and only if b is not the smallest value |
| Money.MinusUndoesPlus | libs/pdr-core/src/core/money.cpp:54-70 | adding and subtracting gives the value back whenever both are defined |
| Money.PlusUndoesMinus | libs/pdr-core/src/core/money.cpp:54-70 | and so does subtracting and adding, which is then always defined |
| Uuid.ParseUuid | libs/pdr-core/src/core/types/ids.cpp:35-65 | succeeds exactly on the 8-4-4-4-12 shape, each byte from its own two digits; the byte index stays below 16 |
| Uuid.FormatUuid | libs/pdr-core/src/core/types/ids.cpp:67-78 | hyphens in their four places and each byte as two lower-case digits in its place |
| Uuid.FormattedSpellsItsBytes | libs/pdr-core/src/core/types/ids.cpp:35-78 | formatted bytes parse to exactly themselves |
| Uuid.ReformattingLowerCases | libs/pdr-core/src/core/types/ids.cpp:35-78 | formatting what was parsed lower-cases the text |
| Uuid.DigitIff | libs/pdr-core/src/core/types/ids.cpp:10-24 | the digits are those of base sixteen in both cases, each with its value |
| Uuid.ShapedIff | libs/pdr-core/src/core/types/ids.cpp:35-65 | the texts that parse are five groups of 8, 4, 4, 4 and 12 such digits with hyphens between them |
| FakeRepository.Repository.Run | libs/pdr-testing/src/fakes/fake_tenant_aware_repository.cpp:52-64 | normal return keeps the work's rows and effects; an exception restores the rows and runs the undo steps, and with faithful steps the outside world is as before |
| FakeRepository.Session.SelectAll | libs/pdr-testing/src/fakes/fake_tenant_aware_repository.cpp:11-19 | the tenant's own payloads in order |
| FakeRepository.Session.InsertFor | libs/pdr-testing/src/fakes/fake_tenant_aware_repository.cpp:25-31 | accepted exactly for the tenant itself, and refused without a change |
| FakeRepository.Session.DeleteAll | libs/pdr-testing/src/fakes/fake_tenant_aware_repository.cpp:33-39 | leaves everybody else's rows in order and returns the number of own rows removed |
| FakeRepository.Session.Unwind | libs/pdr-testing/src/fakes/fake_tenant_aware_repository.cpp:45-50 | all undo steps, the last one first |
| FakeRepository.TenantsDoNotInterfere | libs/pdr-testing/src/fakes/fake_tenant_aware_repository.cpp:11-39 | any work's answers and own rows depend on its tenant's rows alone, and all other rows keep content and order |
| FakeRepository.UnwindingRestoresTheWorld | libs/pdr-testing/src/fakes/fake_tenant_aware_repository.cpp:41-64 | if each step takes back the change made just before it was registered, unwinding restores the outside world |
| FakeRepository.OperationsShow | libs/pdr-testing/src/fakes/fake_tenant_aware_repository.cpp:11-39 | what the tenant sees of its own rows after each operation, and what it is told |
| FakeRepository.RowsAreOwnOrOthers | libs/pdr-testing/src/fakes/fake_tenant_aware_repository.cpp:11-39 | the rows seen and the rows kept from sight are all rows |
| Secrets.InspectSecrets | libs/pdr-core/src/application/verify_secrets.cpp:35-72 | the nested loops list the complaints of `Inspected`, in order |
| Secrets.NoComplaintsIff | libs/pdr-core/src/application/verify_secrets.cpp:35-72 | no complaint exactly when all required secrets are there, not empty and pairwise different |
| Secrets.EachRequiredSecretCountsOnce | libs/pdr-core/src/application/verify_secrets.cpp:39-69 | complaints and accepted secrets together are the required ones |
| Secrets.SharedNamesTheEarliestHolder | libs/pdr-core/src/application/verify_secrets.cpp:56-65 | "shared" names the earliest required secret with that value, and tells truly whether the purposes agree |
| Secrets.ComplaintsAreExact | libs/pdr-core/src/application/verify_secrets.cpp:35-72 | a complaint is listed if and only if it is due about some required secret: missing if the source has none, blank if it is empty, shared if an earlier required one has its value, with the first of those and whether the purposes agree |
| Secrets.ComplaintsComeInOrder | libs/pdr-core/src/application/verify_secrets.cpp:35-72 | complaints come in the order of the registry |
| Secrets.VerifySecrets | libs/pdr-core/src/application/verify_secrets.cpp:74-90 | the service is refused its start exactly when something is complained about |
| Invitations.Desk.LiveInvitationTo | libs/pdr-identity/src/identity/infrastructure/auth/postgres_one_time_tokens.cpp:144-171 | finds an unused, unexpired invitation of this tenant to this address exactly when there is one |
| Invitations.Desk.Execute | libs/pdr-identity/src/identity/application/invite_participant.cpp:18-54 | one invitation, with every refusal in the order of the code and every look at the clock |
| Invitations.Desk.Judge | libs/pdr-identity/src/identity/application/invite_many.cpp:16-41 | each ready line gets its verdict, all others stay |
| Invitations.Desk.Send | libs/pdr-identity/src/identity/application/invite_many.cpp:47-66 | the list is judged again and invited line by line up to the first failure |
| Invitations.EventKeepsOrder | libs/pdr-identity/src/identity/application/invite_participant.cpp:26-53 | sequential: inviting, sending a list and using a link keep: of two invitations to one addressee the earlier is over before the later begins |
| Invitations.AtMostOneLiveAtAnyMoment | libs/pdr-identity/src/identity/application/invite_participant.cpp:26-34 | sequential: over any history of scenarios that run one after another, with a clock that does not go back, no moment has two live invitations for one tenant and address |
| Invitations.SendIssuesOneTokenALine | libs/pdr-identity/src/identity/application/invite_many.cpp:47-66 | while the clock stands still, a list goes out exactly when its re-judged ready lines have different addresses, and then one live token a line is issued, in order, and nothing else |
| Invitations.VerdictsAreExact | libs/pdr-identity/src/identity/application/invite_many.cpp:16-41 | for every list: a line that was not ready stays; of the others those are enrolled whose address is known, those ready whose address is unknown and has no live invitation, and the rest are invited already |
| Invitations.NobodyKnownIsInvited | libs/pdr-identity/src/identity/application/invite_many.cpp:47-66 | for every list and however far it gets: nothing leaves the store, and every token added is for a ready line whose address was unknown and held no live invitation |
| Invitations.ReadyTogether | libs/pdr-identity/src/identity/application/invite_many.cpp:52-64 | the addresses invited are those of the ready lines, in order |
| Invitations.IssuedIffAllowed | libs/pdr-identity/src/identity/application/invite_participant.cpp:18-54 | one invitation is issued if and only if settings and secret are to be had, the lifetime is positive and nobody holds a live one; it is one token for this tenant and address, from now for the lifetime of the settings |
| Invitations.RefusalsInOrder | libs/pdr-identity/src/identity/application/invite_participant.cpp:18-54 | what stands in the way is told in this order: the settings, the live invitation, the secret, the lifetime |
| Invitations.LinkWorksOnce | libs/pdr-identity/src/identity/infrastructure/auth/postgres_one_time_tokens.cpp:41-47 | a link works exactly if it is unused and not expired, touches only its own row, and does not work again |
| InvitationRuns.TwoLettersHappen | db/migrations/V008__practice_and_accounts.sql:104-108 | for every tenant and addressee, two requests whose looks come before either insert both issue, and two invitations are live at once |
| InvitationRuns.SafeIff | libs/pdr-identity/src/identity/application/invite_participant.cpp:26-53 | no continuation without another look makes two committed invitations to one addressee live at once if and only if the state is safe: no two rows that may still count are, no transaction is between look and insert while somebody has a live row to that addressee, and no two are there at once |
| InvitationRuns.LookKeepsSafeIff | libs/pdr-identity/src/identity/application/invite_participant.cpp:26-34 | a look that is not refused keeps the state safe if and only if no other transaction has a live uncommitted row to the addressee or is between its look and its insert |
| InvitationRuns.AtMostOneLiveWhenLooksAreAlone | libs/pdr-identity/src/identity/application/invite_participant.cpp:26-53 | over any history of overlapping transactions all states are safe if and only if every unrefused look was alone, and then no moment has two live invitations for one tenant and address |
| InvitationRuns.UndisturbedInvitation | libs/pdr-identity/src/identity/application/invite_participant.cpp:18-54 | a transaction whose look, insert and commit follow one another changes the published tokens exactly as the sequential `Invited` says |

## Left out

- Serving a request up to its scenario (`Serve`: body schema, identification, policy, the demand for a key) and the
  tables of HTTP statuses and problem texts: finite choices settled by one branch each. Statements about keys are about
  POST, PUT, PATCH and DELETE only, since the boundary treats unknown methods as not mutating.
- SHA-256 and the format of keys and fingerprints: a fingerprint is a string that two requests share or do not.
- The transaction is modelled by what Postgres guarantees of it: private writes until commit, an insert that waits for
  an open insert of the same primary key, a claim that reads its snapshot or the current row. Wire format, deadlocks and
  timeouts of the wait are not part of this model.
- The sweep takes one expired row a step; one statement that takes many is many steps.
- Aliasing of the C++ session with the database behind it: `Session` works on a copy that is stored back on commit.
- The journal of periodic runs, the scheduling of workers and the pruning of old traces.
- The acquiring statement of the lease and the claiming of a trace are atomic steps; a lock row with absent columns does
  not occur.
- Multi-error messages are modelled by what they name, not by their wording; the wording of the snapshot's header is a
  parameter, all of whose lines are comments.
- `str` of a list or mapping where a plain kind is expected is a parameter, `repr`: what Python prints for it is not
  modelled, only that it is on one line, since line breaks inside are escaped.
- Decimal digits are ASCII; `int` and the key pattern also accept other decimal digits, and Python refuses numbers of
  more than 4300 digits.
- The other checks of the event registry (question tables, the context map, scenarios in tests) and the walk over files.
- SHA-256 of migration files, `psql` and its output; a migration either works or fails as a parameter says, and that its
  SQL creates the registry is part of the file.
- `parse_tables`, `merged_tables`, `parse_indexes` and the regular expression that finds policies.
- Word splitting and lower-casing in `wer` and `cer`; the rates are over sequences already cut.
- `CurrencyCode::Parse`, `HashBytes`, enum name tables and builders: only easy members.
- `ContactList::Parse`, digests, random secrets and token ids: parameters; roles are carried along without being looked
  at.
- In `InvitationRuns`, links without an addressee, which nobody counts, and the refusals that come before the look;
  using a link is one step.
- SqlText.BodyEndsWithItsStatement: gives a sufficient condition; `BodyEndsWithItsStatementIff` gives the exact one.
- SnapshotUpdates.CheckPassesAfterUpdateIff: speaks of the part of the check that is about the snapshot.
- Documents.DocumentIsRead: speaks of documents without comments and blank lines, indented by two, whose folded lines do
  not begin like comments; where comments and blank lines may stand is said by `BodyIsExactly` and `FoldedIsExactly`.

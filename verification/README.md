# Verified model of the MySQL, PostgreSQL, fincode and Stripe adapters

This project models the adapters' event store, projections, repositories, migration runner and payment
gateway, and proves what they promise over every run. Databases and payment services appear as small
environments: tables with unique keys and a commit step, and a map of remote orders whose replies may
be lost. `dafny verify dfyconfig.toml` checks everything.

Code that works step by step is a class with methods. Between two statements of such a method other
clients take any number of steps: a method `Others` or `OthersElsewhere` stands for them, its callers
know only its contract, and the state of the object is always a reachable state of the component's state
machine. What holds over whole runs is proved once about the machine, and so holds at every statement of
the code.

What the environment did is kept in ghost logs: readings of the clock, failures, cancellations, calls sent and
the replies to them. Only the environment's own methods write them, and the contracts of the code are
stated over them, so they say which calls are made and not only what comes of them.

- **Event log and subscriptions** (`EventLog`, `Pages`, `Append`, `Tailing`, `Subscription`). Transactions
  take the append lock, count, insert and commit or roll back; positions are given at INSERT and become
  visible at COMMIT. In an ambient transaction the COUNT may come from an old snapshot. A commit of rows
  queues one notification on a connection that is LISTENing: this is the only assumption about
  notifications. Failures, clocks and waiting are arbitrary.
- **Projections** (`Projection`, `ContractReadModel`, `ContractRepo`). A projector is generic in its table
  and its `applyEvent`; the log grows between the pages of a rebuild. Upcasting, JSON decoding and the
  contract aggregate are unknown pure functions.
- **Invoices** (`InvoiceRepo`, `InvoiceWriters`). One save is one transaction; the writers module
  interleaves the statements of any number of savers, with commits that fail. Timestamps are arbitrary, decreasing ones included.
- **Payments** (`PaymentRepo`, `DuplicateKey`). Two unique keys, other writers between the two statements
  of MySQL's save, and the text of duplicate-key errors.
- **fincode** (`FincodeServer`, `FincodeGateway`, `Money`). The service refuses a second registration of
  an id, executes only UNPROCESSED orders, changes a total only in the status the job code names, and
  refuses everything on CANCELED ones. A reply can be lost after its call took effect; an answered client
  error means that the call had none. The hashes behind order ids and header keys are taken to be
  injective.
- **Migrations** (`SplitStatements`, `Migrations`, `Migrate`). Any number of runners share the ledger, and
  each can crash after any statement.
- **Amounts** (`Money`). Exact fractions in lowest terms, as `big.Rat` keeps them.

## What the proofs turned up

Each of these is a lemma or a clause about the code as it is.

- A payment whose id contains `idempotency_key` cannot be updated in MySQL: the clash on the primary key
  is read as one on the idempotency key, because the name is looked for in the whole message, the value
  included (`PaymentRepo.OwnKeyIsNoDuplicate`, `PaymentRepo.MisreadId`). The comment at
  mysql/payment_repo.go:96-101 promises otherwise.
- A snapshot accepted by the guard of `FindByIDAsOf` can contain an event that occurred after the asked
  instant; the reconstruction is right if and only if it contains none
  (`ContractRepo.ExactWhenNothingHides`, `ContractRepo.GuardAdmitsHiddenEvent`).
- `Save` makes the saved version the entity's baseline before its transaction commits
  (mysql/invoice_repo.go:246). If the commit then fails, or the caller rolls an ambient transaction back,
  and the entity is saved again without being loaded, the lock version can match a row that somebody else
  wrote: an update is lost and an invoice is finalized twice (`InvoiceWriters.FailedCommitFinalizesTwice`).
- With the lock version alone, saving an entity that was never loaded replaces an existing row without a
  conflict exactly when the row's lock version is 0, so of two creators one can lose its update
  (`InvoiceWriters.FreshSaveOverExistingRow`, `InvoiceWriters.TwoCreatesLoseOne`); a second finalization
  does not commit because of that (`InvoiceWriters.FreshSavesFinalizeOnce`).
- The exact conditions for both are in `InvoiceWriters.NoLostUpdate` and `InvoiceWriters.OneFinalize`.
- Redelivery can change a contract row if events came before the created event
  (`ContractReadModel.RedeliveryCanHarm`); the exact condition for every suffix is in
  `ContractReadModel.OrphansAgain` and `ContractReadModel.LateSuffixAgain`.
- In MySQL a stream id that contains `uq_event_id` turns a version conflict met at INSERT, which callers
  may retry, into a duplicate event id, which they must not (`Append.ClashReadFromMessage`).
- In an ambient MySQL transaction a batch rejected for a duplicate event id leaves the rows before it in
  the transaction (`Append.Database.AppendOn`); a version conflict never does.
- A charge retried after a partial refund is turned down as one for another amount, and a request with
  the same key for the remainder is answered as a success (`FincodeGateway.RefundMovesTheMatch`).
- `CompleteCharge` reports a non-retryable error for a captured order if and only if its lookup is refused
  with an error that is not retryable (`FincodeGateway.Gateway.Complete`); `Charge` takes any unanswered
  lookup for retryable (`FincodeGateway.Gateway.ResolveExistingOrder`).

## Model

| member | source | states |
|---|---|---|
| `EventLog.VersionsAreOneToN` | mysql/eventstore.go:202-259 | in rows numbered by the append rule, a stream's versions are exactly 1 up to the number of its rows, none missing and none twice |
| `EventLog.ClashOnlyWhenStale` | postgres/eventstore.go:244-303 | the first INSERT of a batch meets UNIQUE(stream_id, version) exactly when the COUNT was too low, and a later INSERT of the batch never does |
| `EventLog.InsertAdvances` | mysql/eventstore.go:227-238 | a row that clashes with no unique index keeps positions increasing, versions numbered, event ids and contract keys distinct, and expected versions unclaimed by two calls |
| `EventLog.OthersKeepTx` | mysql/eventstore.go:196-200 | no step of another transaction disturbs the facts a transaction relies on |
| `EventLog.StepKeepsInv` | mysql/eventstore.go:174-261 | every statement of every interleaved transaction keeps the invariant of the event table |
| `Pages.SliceIsPage` | mysql/eventstore.go:306-326 | when positions increase, the rows above a position are a contiguous slice of the log |
| `Pages.LoadAll` | mysql/eventstore.go:306-326 | exactly the rows above the position, in order, at most limit of them when limit is positive |
| `Tailing.NewRowsLieAbove` | mysql/eventstore.go:185-192 | rows that become visible lie above every visible row |
| `Tailing.CommitOrderIsPositionOrder` | postgres/eventstore.go:222-242 | over every run, an event that becomes visible later has a higher position than every event visible earlier |
| `Tailing.SubscriptionIsGapFree` | postgres/eventstore.go:643-661 | over every run, what was sent is exactly the committed events with from < position <= cursor, in order |
| `Tailing.WaitingMeansCaughtUp` | postgres/eventstore.go:588-624 | whenever the tail loop waits, a notification is queued or every committed event past the start has been sent |
| `Tailing.SentOnlyGrows` | postgres/eventstore.go:526-534 | the cursor never moves back and nothing sent is repeated, across any number of reconnects |
| `Tailing.StreamVersionsAreOneToN` | mysql/eventstore.go:202-259 | in every reachable state a stream's committed versions are exactly 1..n, stale COUNTs included |
| `Tailing.OneWinnerPerExpectedVersion` | mysql/eventstore.go:202-208 | of all appends with one stream and one expected version at most one is committed |
| `Tailing.EventsAndContractKeysAreUnique` | mysql/eventstore.go:235-256 | over every run no event id is committed twice and no two contracts were created with one idempotency key |
| `Tailing.LogOnlyGrows` | mysql/eventstore.go:185-192 | over every run the visible log is only ever extended at its end |
| `Append.OthersCannotInterfere` | mysql/eventstore.go:190-195 | while a transaction holds the append lock, no step of others makes a row visible or touches its rows |
| `Append.FollowsKeepsInv` | mysql/eventstore.go:174-261 | any run of transaction steps leads from a good state to a good state and only extends the log |
| `Append.Database.Interfere` | mysql/eventstore.go:190-195 | what an open transaction can rely on after any steps of others |
| `Append.ClashReadFromMessage` | mysql/errors.go:28-58 | MySQL's tests on the message name the clashing index, except exactly when a stream id or an idempotency key contains the name of an index tested before |
| `Append.ConstraintNameIsRight` | postgres/eventstore.go:283-303 | the constraint name PostgreSQL reports names the clashing index, without exception |
| `Append.Database.InsertOne` | mysql/eventstore.go:235-258 | the event is added with its own id, kind, date, data and contract key and the stream and version of the call, unless it clashes with one of the three unique indexes; the error is exactly what the adapter takes that clash for |
| `Append.Database.InsertRows` | mysql/eventstore.go:227-259 | the whole batch is added, each row with its own event's columns, at the version the stream really has, or the first clash stops it: which index, which event, and that the rows before that event are left |
| `Append.Database.AcquireLock` | mysql/eventstore.go:196-200 | when it succeeds this transaction holds the lock; when it fails nothing was added |
| `Append.Database.CheckVersions` | mysql/eventstore.go:202-225 | a version conflict if and only if the rows the COUNT saw differ from the expected version, else a rejection if and only if the stamps are not contiguous; no row is added either way |
| `Append.Database.AppendOn` | postgres/eventstore.go:219-322 | success means the stream was at the expected version, the events were stamped from there, and every row holds its own event's columns under the stream and the next version; a conflict found by the COUNT or by the version index means the stream was not there at some moment since the snapshot; a bad stamp is refused; a failed check leaves no row, a clash at event k the k rows before it |
| `Append.Database.AppendInOwnTx` | mysql/eventstore.go:139-161 | a rejected batch leaves no event behind, an accepted one becomes visible as a block of consecutive rows with the events' own columns, and after a failed COMMIT it is one or the other |
| `Subscription.BackoffDoubles` | postgres/eventstore.go:569-572 | doubling and capping step by step equals min(100ms * 2^n, 5s) |
| `Subscription.OutageDecides` | postgres/eventstore.go:545-562 | counting failed cycles and resetting on a healthy one decides exactly the bound on consecutive unhealthy reconnects |
| `Subscription.KeptAfterFailure` | postgres/eventstore.go:552-572 | one more failed cycle keeps counter and backoff equal to what the history of cycles says |
| `Subscription.LeadsKeepsInv` | postgres/eventstore.go:531-661 | any interleaving of reader and transactions keeps the reader's invariant |
| `Subscription.Subscription.SendOne` | postgres/eventstore.go:650-655 | the event sent is the next one of the page, whatever others commit meanwhile |
| `Subscription.Subscription.SendAll` | postgres/eventstore.go:650-660 | a page is sent to its end or until cancelled; after a short page everything that was committed when it was read has been sent |
| `Subscription.Subscription.SendPage` | postgres/eventstore.go:645-656 | one page is sent in order and the cursor follows each event sent |
| `Subscription.Subscription.CatchUp` | postgres/eventstore.go:643-661 | when it returns normally everything committed before the call has been sent; it fails only when the database does, once, and is cut short only by cancellation |
| `Subscription.Subscription.Tail` | postgres/eventstore.go:607-624 | every wait that ends with a notification is followed by a catch-up; the loop ends by one failure of the database or by cancellation, and by nothing else |
| `Subscription.Subscription.ListenAndTail` | postgres/eventstore.go:592-625 | a cycle is established, at what the clock shows, exactly when a catch-up of its own is through, and then everything committed before the cycle began was sent; it ends by exactly one failure or by cancellation, and a failed cycle releases its connection |
| `Subscription.Subscription.JudgeCycle` | postgres/eventstore.go:545-555 | a cycle is healthy exactly when it established and the clock shows 30 s more or later when it failed; without establishment the clock is not read |
| `Subscription.Subscription.RunSubscription` | postgres/eventstore.go:531-574 | healthy is exactly each failed cycle that established and then stayed up 30 s by the readings of the clock; there is one cycle per failure of the database; every wait is min(100 ms * 2^n, 5 s) for the n-th reconnect of its outage; the channel closes at exactly the first cycle that exhausts the bound, or when cancelled |
| `Subscription.Subscription.Poll` | mysql/eventstore.go:355-380 | a successful turn sends everything committed before it; one fails only when the database does, leaves what was sent as it was and waits for the next |
| `Subscription.Subscription.PollLoop` | mysql/eventstore.go:349-388 | polling goes on through every failure until cancelled, and what was sent is then exactly the committed events up to the cursor |
| `Projection.FoldConcat` | mysql/contract_projector.go:119-137 | projecting two stretches one after the other is projecting them as one |
| `Projection.Projector.ProjectPage` | mysql/contract_projector.go:119-137 | stops at the first event past `until` or at one that cannot be applied, with the fold of exactly the events before it |
| `Projection.Projector.ScanPage` | mysql/contract_projector.go:111-143 | one turn of the scan projects the next page, never gets stuck, and stops exactly at the end of the visible rows or at an event past `until` |
| `Projection.Projector.Reload` | mysql/contract_projector.go:97-151 | while the log grows between pages, the table becomes the fold of the longest prefix within `until` of the rows seen, and the checkpoint the position of its last row |
| `Projection.Projector.Rebuild` | mysql/contract_projector.go:75-93 | the same, and an error leaves table and checkpoint as they were |
| `Projection.Projector.ProjectNext` | mysql/contract_projector.go:124-136 | projecting the event after the checkpoint keeps table and checkpoint in step |
| `Projection.Projector.Resume` | mysql/invoice_projector.go:58-112 | projecting everything after the checkpoint gives the fold of the whole log |
| `Projection.NextPage` | mysql/contract_projector.go:112-118 | a page continues where the last one ended; it is empty exactly when every visible row was read |
| `ContractReadModel.FoldIsPerContract` | mysql/contract_projector.go:187-320 | projecting the log treats every contract's events on their own |
| `ContractReadModel.UpdateIsPatch` | mysql/contract_projector.go:201-319 | despite COALESCE and NULLIF no statement computes a column from its old value |
| `ContractReadModel.UpdatesArePatch` | mysql/contract_projector.go:201-319 | so a run of statements on a row is one overwriting of some columns |
| `ContractReadModel.CreatedFillsBlank` | mysql/contract_projector.go:188-199 | a contract that begins with its created event has the row that overwriting a blank one gives |
| `ContractReadModel.RowTellsHistory` | mysql/contract_projector.go:187-320 | status, price, account, dates, payload and version of a row each come from the last event that carries one, by explicit tables of what each event says: a renewal or activation with a date sets both end and renewal date, an empty price keeps the old one, the end of a trial clears its date |
| `ContractReadModel.TableTellsHistory` | mysql/contract_projector.go:153-321 | so it is for the projected table: a contract has a row exactly when it was created, and the row says what its events said last |
| `ContractReadModel.SuffixAgain` | postgres/contract_projector.go:145-313 | for one contract, delivering any suffix again leaves the row as it was |
| `ContractReadModel.RedeliveryIsHarmless` | mysql/contract_projector.go:153-321 | when every contract begins with created, projecting the log and then any suffix of it again gives the table of projecting it once |
| `ContractReadModel.FoldNeedsDecodable` | mysql/contract_projector.go:160-178 | whether a log can be projected depends only on whether its events can be decoded |
| `ContractReadModel.OrphansAgain` | mysql/contract_projector.go:201-213 | with events before created, redelivering a suffix that begins among them is harmless if and only if no date that one of the suffix's early events writes survives to the end |
| `ContractReadModel.LateSuffixAgain` | mysql/contract_projector.go:188-199 | with events before created, redelivering a suffix that begins at created or later is always harmless |
| `ContractReadModel.RedeliveryCanHarm` | mysql/contract_projector.go:201-213 | a log of an activation and then created: projected once the contract has no end date, delivered again it has one |
| `ContractRepo.ExactWhenNothingHides` | mysql/contract_repo.go:163-179 | starting from a snapshot replays exactly the visible events if and only if it covers no event after the asked instant |
| `ContractRepo.GuardAdmitsHiddenEvent` | mysql/contract_repo.go:153-163 | a faithful snapshot, created before the asked instant and passing the guard, from which an event after that instant is replayed |
| `ContractRepo.PrefixReplaysAll` | mysql/contract_repo.go:138-179 | when the visible events are a version prefix, any accepted snapshot gives exactly their replay |
| `ContractRepo.LoadSnapshotBefore` | mysql/eventstore.go:444-449 | the latest snapshot created before the instant, the highest version among equals |
| `ContractRepo.LoadSnapshot` | mysql/eventstore.go:425-430 | the snapshot of the highest version |
| `ContractRepo.HighestVersion` | mysql/contract_repo.go:138-146 | the highest version among the visible events, 0 when there are none |
| `ContractRepo.EventsAbove` | mysql/contract_repo.go:173-179 | exactly the visible events the snapshot does not cover, in order |
| `ContractRepo.LoadHistory` | mysql/contract_repo.go:66-83 | the events are applied one by one in order, and the version is that of the last |
| `ContractRepo.FindByID` | mysql/contract_repo.go:50-83 | snapshot plus tail equals full replay; not found exactly when the stream is empty |
| `ContractRepo.FindByIDAsOf` | mysql/contract_repo.go:129-193 | the latest snapshot before the instant is used if and only if it does not exceed the highest visible version; replay of its events and the visible ones above it; full replay when the visible events are a version prefix; not found exactly when nothing is visible |
| `InvoiceRepo.HighestValidRow` | mysql/invoice_repo.go:327-332 | whatever the order of the stamps, the highest row valid at t is the last save stamped at or before t |
| `InvoiceRepo.HistoryGrows` | mysql/invoice_repo.go:223-242 | one more save closes the open row at the instant the new one opens: rows stay 1..n with exactly the last one open |
| `InvoiceRepo.HistoryUntouched` | mysql/invoice_repo.go:225-242 | a save of one invoice leaves the history of every other one alone |
| `InvoiceRepo.SavedRow` | mysql/invoice_repo.go:146-203 | a saved row holds the columns that were saved and one more save; account and contract stay those it was inserted with |
| `InvoiceRepo.RefusedExactly` | mysql/migrations/011_invoice_period_uniqueness.up.sql:6-47 | a version conflict exactly when the row has another lock version; a period conflict exactly when the version is right and another invoice, neither of the two voided or a proration, has the same contract and period |
| `InvoiceRepo.PeriodsStayUnique` | mysql/invoice_repo.go:259-263 | a row whose period is free keeps one invoice per contract and period |
| `InvoiceRepo.InvoiceRepository.OneInvoicePerPeriod` | mysql/migrations/011_invoice_period_uniqueness.up.sql:6-24 | in every reachable table two invoices that are neither voided nor prorations differ in contract or period |
| `InvoiceRepo.RowsMatchSaves` | postgres/invoice_repo.go:283-289 | the rows found for an instant end with the last save by then, and there is none exactly when no save is |
| `InvoiceRepo.Highest` | mysql/invoice_repo.go:330-332 | ORDER BY version DESC LIMIT 1 |
| `InvoiceRepo.InvoiceRepository.UpdateGuarded` | mysql/invoice_repo.go:146-171 | the row changes only when id and lock version match and the period is free |
| `InvoiceRepo.InvoiceRepository.WriteMySQL` | mysql/invoice_repo.go:146-212 | guarded UPDATE, probe and INSERT together give the common rule's outcome and table |
| `InvoiceRepo.InvoiceRepository.WritePostgres` | postgres/invoice_repo.go:138-185 | the single guarded upsert gives the same outcome and the same table from every state |
| `InvoiceRepo.InvoiceRepository.AppendHistory` | mysql/invoice_repo.go:223-242 | both history statements make the save the next row of the invoice |
| `InvoiceRepo.InvoiceRepository.SaveOn` | mysql/invoice_repo.go:85-248 | a rejected save changes nothing; an accepted one is recorded as the invoice's next save and its version becomes the loaded one |
| `InvoiceRepo.InvoiceRepository.Save` | mysql/invoice_repo.go:63-80 | a rejected save or one whose commit fails changes nothing, a committed one is the invoice's next save; whenever the statements went through the entity takes its version for the stored one, commit or not |
| `InvoiceRepo.InvoiceRepository.FindByIDAsOf` | mysql/invoice_repo.go:327-345 | the last save stamped at or before t, not found exactly when there is none |
| `InvoiceWriters.GuardMeansUnchanged` | mysql/invoice_repo.go:146-156 | a lock version that still matches means the content is the one that was loaded, if nothing was lost so far, or the version is positive and no save was repeated after a lost commit |
| `InvoiceWriters.SameVersionSameContent` | mysql/invoice_repo.go:137-145 | lock versions never fall, and two commits that left the same version left the same content, under the same conditions |
| `InvoiceWriters.StepKeepsInv` | mysql/invoice_repo.go:63-212 | every interleaved statement, failing commits after SetVersion and saves over existing rows included, keeps the invariant of the commits |
| `InvoiceWriters.NoLostUpdate` | mysql/invoice_repo.go:63-246 | over every run, under the guard alone or FOR UPDATE alone: each commit replaced exactly the content its writer had loaded or saved, if and only if no step saved over the row an entity that was never loaded, or whose last save did not commit, while the row held something else |
| `InvoiceWriters.StepLosesWhenItDestroys` | mysql/invoice_repo.go:146-184 | while nothing is lost, a step loses an update exactly when it is such a save |
| `InvoiceWriters.OneFinalize` | mysql/invoice_repo.go:135-212 | over every run: an invoice is finalized once and stays finalized, if and only if no entity that was a draft when it was loaded was saved over a finalized row |
| `InvoiceWriters.OverFinalNeedsClobber` | mysql/invoice_repo.go:146-156 | that never happens before an entity that was never loaded, or whose last save did not commit, is saved over the row |
| `InvoiceWriters.FreshSavesFinalizeOnce` | mysql/invoice_repo.go:135-212 | saves of never-loaded entities do not suffice: unless a save is repeated after a lost commit, at most one finalization commits |
| `InvoiceWriters.FailedCommitFinalizesTwice` | mysql/invoice_repo.go:72-78 | a run in which a finalizer's commit fails, another one commits, and the first saves again: both finalizations commit |
| `InvoiceWriters.ForUpdateNeverClobbers` | postgres/invoice_repo.go:226-241 | under FOR UPDATE every saver was loaded, so no such save happens and no update is ever lost |
| `InvoiceWriters.FreshSaveOverExistingRow` | mysql/invoice_repo.go:137-141 | with the guard alone a never-loaded entity replaces a row exactly when the row's lock version is 0 |
| `InvoiceWriters.TwoCreatesLoseOne` | mysql/invoice_repo.go:146-212 | a run in which two creators commit and the second was not computed from the first |
| `DuplicateKey.ReadsValueToo` | mysql/errors.go:28-34 | the test on the message is right about the index, and wrong exactly when the duplicate value contains the name |
| `PaymentRepo.KeysStayUnique` | mysql/payment_repo.go:75-94 | over every run of writers each non-empty idempotency key has at most one row, and no row disappears |
| `PaymentRepo.OneUpdatePerVersion` | postgres/payment_repo.go:83-93 | over every run of writers that never lower a version, of the updates computed from one stored version the first that raises it is the last to take effect, so two refunds recorded at once are never both booked |
| `PaymentRepo.OwnKeyIsNoDuplicate` | mysql/payment_repo.go:96-113 | saving a payment again under its own key reports no duplicate: always in Postgres, in MySQL if and only if the id does not contain the index name |
| `PaymentRepo.MisreadId` | mysql/payment_repo.go:102-104 | an id that can be created and then never updated |
| `PaymentRepo.AdaptersAgree` | postgres/payment_repo.go:94-127 | the adapters give the same outcome and table exactly when the payment is new or stale or keeps invoice and key, and is not misread |
| `PaymentRepo.PaymentRepository.Insert` | mysql/payment_repo.go:83-101 | a row that duplicates both keys is reported on PRIMARY |
| `PaymentRepo.PaymentRepository.Update` | mysql/payment_repo.go:114-122 | a row is replaced only when id and lock version match and no other row has the key |
| `PaymentRepo.PaymentRepository.DuplicateOf` | mysql/payment_repo.go:149-160 | the id it carries is the row that holds the key when it looks, if there is one |
| `PaymentRepo.PaymentRepository.SaveMySQL` | mysql/payment_repo.go:41-143 | the verdict fits the table its deciding statement found, with others writing in between; a saved row holds the payment's columns, an empty key as NULL and any other as it is; a rejected save writes nothing and keeps the loaded version |
| `PaymentRepo.PaymentRepository.SavePostgres` | postgres/payment_repo.go:94-127 | the same for the single upsert, which leaves invoice and key of an existing row alone |
| `FincodeServer.CallKeepsInv` | fincode/gateway.go:219-264 | every accepted call keeps the order invariant and changes no order's key, job, amount or earlier charge |
| `FincodeServer.ChargedAtMostOncePerKey` | fincode/gateway.go:87-99 | over every run, across all orders, the card is charged at most once per key and for the amount asked |
| `FincodeServer.ChargeIsPermanent` | fincode/gateway.go:76-99 | no later call repeats or removes a charge |
| `FincodeServer.TransientCodes` | fincode/gateway.go:1008-1019 | a retry may help after a lost answer, 408, 429 and every code from 500 on, and after nothing else |
| `FincodeGateway.HeadersDistinguish` | fincode/gateway.go:764-779 | a key always goes with the call, and two calls share a header exactly when they are one operation under one key |
| `FincodeGateway.RefundBalances` | fincode/gateway.go:551-570 | a refund that took effect keeps charged = remaining + refunded |
| `FincodeGateway.NewOrderBalances` | fincode/gateway.go:219-263 | registering and executing an order keeps charged = remaining + refunded for every order |
| `FincodeGateway.RefundsConserve` | fincode/gateway.go:527-580 | over any run of refunds, remaining plus refunded is what remained before, never negative, and the order is canceled exactly when all was refunded |
| `FincodeGateway.Gateway.ResolveExistingOrder` | fincode/gateway.go:301-347 | one lookup of the derived order, and which of success, partial, mismatch and fall-back is returned, each if and only if the order is so; an unanswered lookup is retryable |
| `FincodeGateway.Gateway.ExecuteRegistered` | fincode/gateway.go:350-370 | one execution is sent; an answer means the order is in the success status of its job; an order that is not UNPROCESSED is left alone |
| `FincodeGateway.Gateway.ExecuteAndConfirm` | fincode/gateway.go:246-263 | a failed execution is followed by a lookup of the order, a successful one is not; success is real, and a partial failure is reported exactly when that lookup does not show the success status |
| `FincodeGateway.Gateway.RegisterAndExecute` | fincode/gateway.go:219-264 | exactly the calls made, in order: register, execute, and a lookup only where one of them failed, with the result their replies give; success is real and for the request; a partial error carries the order's true ids; no final error while the derived order is complete for this job and amount |
| `FincodeGateway.Gateway.Pay` | fincode/gateway.go:109-190 | the same for Charge and Authorize; a request is refused without any call exactly when it asks for 3-D Secure, has no source, or its amount is not one in yen, each with its own error |
| `FincodeGateway.Gateway.Complete` | fincode/gateway.go:141-216 | lookup first, and execution exactly when the lookup was answered with an order not in its success status and an access id was given; success is real; for an order already in its success status the error is final if and only if the lookup was refused with an error that is not retryable |
| `FincodeGateway.Gateway.NeverChargedTwice` | fincode/gateway.go:87-99 | in every state the gateway can be in, a key was charged at most once, for its amount, on the derived order |
| `FincodeGateway.Gateway.SuccessMeansCharged` | fincode/gateway.go:219-264 | a charge that registered its order and reports success charged the card, once, the amount asked |
| `FincodeGateway.Gateway.LowerHold` | fincode/gateway.go:413-422 | the change before a capture only ever lowers a hold |
| `FincodeGateway.Gateway.CaptureOrder` | fincode/gateway.go:425-439 | a fresh capture that reports success took the order's total |
| `FincodeGateway.Gateway.AdjustHold` | fincode/gateway.go:396-423 | a larger amount is refused with nothing sent, an equal or absent one sends nothing, and for a smaller one exactly one change of the hold to that amount is sent |
| `FincodeGateway.Gateway.CaptureHold` | fincode/gateway.go:380-440 | refused as invalid exactly without an id, for an amount in yen that cannot be converted, or for one above the hold shown; otherwise a change where the amount is smaller and then the capture are sent; exactly the requested amount or the whole hold is charged, never more than was held; two headers keep one call's kept reply from standing in for the other |
| `FincodeGateway.Gateway.Void` | fincode/gateway.go:446-473 | refused exactly without an id, when the lookup fails, or when it shows a captured payment, which stays as it is; otherwise a cancel is sent, and an effective one leaves nothing |
| `FincodeGateway.Gateway.RefundOrder` | fincode/gateway.go:551-570 | exactly one call: cancel when nothing is to remain, change of the total to the difference otherwise |
| `FincodeGateway.Gateway.Refund` | fincode/gateway.go:527-580 | refused as invalid exactly without an id, for an amount in yen that cannot be converted, or for one above the total shown, so that the full amount is not refused; otherwise a cancel or a change is sent; a refund takes exactly what was asked from what remains, whether or not its reply arrives, and keeps the balance of charged, remaining and refunded |
| `FincodeGateway.PayAgain` | fincode/gateway.go:87-99 | however often a charge is retried and whichever replies are lost, orders known before are at most charged their total, new ones are for the amount and charged it at most once, and every order stays in balance |
| `FincodeGateway.PaymentLife` | fincode/gateway.go:76-580 | a client that charges or authorizes, retries, completes, and then captures, voids and refunds in any order and number, any reply lost, that of the registration included: unless the order is older than the client, the card is charged at most once and for no more than was asked, and what was charged is what remains plus what was refunded |
| `Money.LowestTermsUnique` | stripe/types.go:105-113 | a value has one fraction in lowest terms, so denominator 1 means the numerator is the value |
| `Money.ConversionIsExact` | stripe/types.go:96-122 | the result is v if and only if the amount is exactly v yen, or v cents of a dollar or a euro, positive and within 64 bits; no other currency is converted |
| `Money.SentAndReadBack` | stripe/types.go:91-146 | reading back what was sent gives the same amount in the same currency |
| `Money.ReadAndSentAgain` | stripe/types.go:124-146 | what is read can be sent again if and only if it is positive |
| `Money.YenAmountsAgree` | fincode/gateway.go:932-956 | for yen fincode's check accepts the same amounts, as the same integers |
| `Money.JpyAmountIsExact` | fincode/gateway.go:932-956 | v is sent if and only if the amount is exactly v yen, positive and within 64 bits; any other currency is turned down as unsupported |
| `SplitStatements.SkipToLineEnd` | mysql/migrate.go:241-248 | the index of the newline that ends the comment, or the last one |
| `SplitStatements.SkipBlockComment` | mysql/migrate.go:252-259 | the index of the mark that closes the comment, or the last one |
| `SplitStatements.ScanSingle` | mysql/migrate.go:185-198 | one turn of the loop inside quotes, escaped and doubled pairs included, keeps what is still to come |
| `SplitStatements.ScanBacktick` | mysql/migrate.go:199-205 | the same inside backticks |
| `SplitStatements.SkipComment` | mysql/migrate.go:207-220 | recognises exactly the comments and skips exactly their length |
| `SplitStatements.Split` | mysql/migrate.go:166-237 | on every input the loop agrees with reading whole tokens off the front, and no statement is empty or begins or ends with a blank |
| `SplitStatements.StatementsAreTrimmed` | mysql/migrate.go:171-181 | no statement of any input is empty, or begins or ends with one of the 25 blanks, newline included |
| `SplitStatements.SplitRoundTrip` | mysql/migrate.go:159-237 | clean statements ended by semicolons, with any of the 25 blanks and comments between them, come back exactly |
| `Migrations.MoveKeepsInv` | mysql/migrate.go:62-141 | every statement of every runner, and every crash, keeps the ledger invariant |
| `Migrations.EachFileRunsOnceInOrder` | mysql/migrate.go:62-141 | no statement is sent twice, a file's statements are sent in order and only after every lower file is applied |
| `Migrations.AppliedMeansFullyRun` | mysql/migrate.go:118-141 | a file marked applied by a runner has had every statement of its text sent |
| `Migrations.HalfRunStays` | mysql/migrate.go:118-141 | a file left half-run stays so |
| `Migrations.HalfRunStopsLaterRuns` | mysql/migrate.go:99-111 | a file left half-run stops every later run before it sends or marks anything |
| `Migrate.FollowsKeepsInv` | mysql/migrate.go:62-141 | any moves of any runners keep the invariant, and what was sent or applied stays |
| `Migrate.Migrator.ApplyFile` | mysql/migrate.go:122-141 | success means every statement was sent and the file is applied; otherwise where it stopped, and it stops at a statement only when that fails |
| `Migrate.Migrator.MigrateOn` | mysql/migrate.go:62-90 | success means every embedded file is applied; a refusal names a ledger row that is not applied, or the file and statement at which it stopped |

## Left out

- FincodeGateway.Gateway.RegisterAndExecute: when fincode replays an earlier registration within the life of the header, the order may be one for another amount or job code; the code looks at neither there, and the contract claims neither.
- FincodeGateway.Gateway.ResolveExistingOrder: a reply that leaves the job code out passes the check on it, as in the code.
- FincodeGateway.Gateway.CreatePayment: a register call is answered from a kept reply only of a register call; the code gives both calls of a capture headers of their own, and this one the caller's key.
- FincodeGateway.Gateway.LowerHold: that fincode accepts a change only in the status its job code names is an assumption. On it rests that a capture asked for on a captured payment changes nothing, so the balance in LowerHold, CaptureHold and PaymentLife, and that a partial refund of a hold not yet captured has no effect.
- FincodeGateway.Gateway.Refund: concurrent refunds of one payment are not covered; the code asks its callers to serialize them. A full refund of a hold that was never captured cancels it and is reported as a refund.
- PaymentRepo.PaymentRepository.SaveMySQL: no other client deletes payments; none of this code does.
- Append.Database.AppendOn: after a failed statement PostgreSQL refuses further statements until rollback; the model also allows the caller to go on, as MySQL does.
- Subscription.Subscription.RunSubscription: a budget of steps stands for the moment the context is cancelled, so each theorem is about finite runs of any length.
- SplitStatements.Split: works on characters; all delimiters are ASCII. A last comment without a newline is covered by it and not by the round trip.
- SplitStatements.SplitRoundTrip: says nothing of comments inside a statement; the code removes them without leaving a blank.
- ContractReadModel.RedeliveryIsHarmless: the invoice projector's rows are not modelled; its rebuild loop is, as a `Projection.Projector`.
- InvoiceRepo.InvoiceRepository.WriteMySQL: ids, keys and stream ids are compared exactly, here and in PaymentRepo and EventLog. MySQL's tables have a character set without a binary collation, so ids that differ only in case are the same there and not in PostgreSQL; equality of the adapters and the conditions for reading messages are about ids that no collation identifies.
- InvoiceWriters.ForUpdateNeverClobbers: FOR UPDATE protects those who load and save in one transaction; a caller who saves what it did not load there is outside that protection.
- InvoiceWriters.NoLostUpdate: one invoice and the columns its edits change; the period index is in `InvoiceRepo`.
- Gateway.Cancel, transaction lookup, customers and cards, 3-D Secure and webhooks: single calls or mappings.
- Request and response encoding, SQL text, connection pools, signatures, hashing and time formats: library plumbing.
- Balance and credit-note repositories: the guarded write again, with nothing harder.
- Contract aggregate, upcasters and hooks belong to the core, which is not part of this model.
- A missing (nil) request or amount is rejected before anything else and is not modelled.
- Fairness, deadlock and elapsed time: only safety and bounded counters are claimed.

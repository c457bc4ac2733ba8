# Core banking platform: verified model

A Dafny model of the money-transfer saga of the core banking platform: the transfer service, the
account service, the outbox relays that join them through Kafka, the Redis idempotency cache, and the
gateway's rate limiter.

`dafny verify dfyconfig.toml` checks the whole project.

## How the model is built

Each service is a transition system whose step is one remote call (a Postgres statement, a Redis command,
a Kafka publish). Any number of handlers may be in flight, and a handler that is never scheduled again has
crashed. A remote call ends in one of three ways (`Reply`): acknowledged; refused, with no effect; or lost,
with its effect but with an error to the caller. `Next` gives the effect of a step and `Run` that of a list of steps;
the theorems quantify over every list of steps, that is over every interleaving, crash, ambiguous error,
duplicate and cache expiry.

The sequential Go code is written as classes over the same tables (`AccountService`, `TransferService`,
`AccountRepository`, `TransferRepository`, `OutboxRepository`, `OutboxRelay`, `IdempotencyStore`,
`RateLimiter`, the consumers). Each method is proved to have exactly the effect that the transition system gives to the
same calls made without interruption, so what is proved of runs holds of the methods.

| files | content |
|---|---|
| `Money`, `Sums`, `Arithmetic` | decimals and NUMERIC(20, 8) rounding; sums over sequences; minimum and products |
| `AccountDomain`, `AccountTable`, `AccountService` | the account aggregate, its table, the service and its consumer |
| `RequestEffects` | what handling one transfer request does, spelt out for every request and every failure |
| `Ledger`, `LedgerInvariant`, `LedgerTheorems` | the account service as a transition system, and its safety |
| `AtomicLedger` | uninterrupted handling against atomic transfers; order independence; redelivery |
| `LedgerSerial` | concurrent handling against atomic transfers: serialisability |
| `Outbox`, `OutboxRelay`, `OutboxDrain` | the outbox and its relay: safety, code, throughput |
| `TransferDomain`, `TransferTable`, `IdempotencyStore`, `TransferService` | the transfer aggregate, its table, the cache, the service and its consumer |
| `TransferEffects` | what a CreateTransfer and an outcome record do, spelt out likewise; where the rows, events and replies of a run come from |
| `TransferStore`, `TransferInvariant`, `TransferTheorems` | the transfer service as a transition system, and its safety |
| `Saga`, `Settlement` | both services joined by their topics: causality, conservation, termination |
| `RateLimiter` | the gateway's limiter |

Amounts are `real` numbers of units of 10^-8 in memory and whole units in the tables, rounded half away
from zero on every write (section 8.1.2 of the PostgreSQL documentation). The two relays and the two outbox
repositories are the same code over two event types, so each is one generic class.

## Where the code and its documentation differ

The model follows the code.

- The outbox is described as written in the same transaction as the entity (`README.md`, `system-specs/system-design.md:33`).
  Every repository call is its own statement. An insert whose reply is lost, a refused `SaveEvent`, or a crash between
  the two leaves a row that is never requested, and no other failure does
  (`TransferTheorems.OrphanedExactly`, `TransferTheorems.StoredIsRequested`, `TransferService.CreateOrphans`,
  `Saga.OrphanNeverSettles`).
- A version conflict is described as returned for retry. The consumer logs it and drops the record, and nothing
  rolls the first write back (`LedgerTheorems.StrandedExactly`, `AtomicLedger.ProcessStrands`,
  `LedgerTheorems.StrandedForever`).
- Statuses are described as pending, then completed or failed. No status is guarded and no redelivery is
  recognised (`TransferService.LastOutcomeDecides`, `AtomicLedger.RedeliveryIsNotRecognised`). A status is final exactly
  when no later update says something else (`TransferTheorems.OutcomeStaysExactly`, `Saga.OutcomeIsFinalExactly`), and so
  it is when each transfer is processed once (`Saga.TerminalStatusIsStable`).
- The account service is drawn as answering each request with a completed or a failed event (`README.md:69-87`). An
  unacknowledged balance write or a refused save leaves none, even when the money has moved
  (`LedgerTheorems.SilentExactly`, `AtomicLedger.ProcessSilent`).
- A transfer of an account to itself is refused by the transfer service only; the account service would
  debit it and report nothing (`AtomicLedger.SelfTransferStrands`).
- Decimal storage is described as exact. An amount that is an odd multiple of half a unit of 10^-8 creates one unit
  when it moves, and no other amount does (`Money.RoundingDrift`, `LedgerTheorems.Conservation`).
- The limiter is described as a sliding window (`api-gateway/internal/middleware/middleware.go:36`). Its counter expires
  only after an idle minute, so it refuses more than a sliding window does (`RateLimiter.SlidingExactly`,
  `RateLimiter.OwnSlidingExactly`, `RateLimiter.NotASlidingWindow`).

## Model

| member | source | states |
|---|---|---|
| Money.QuantiseIsNearest | account-service/migrations/000001_create_accounts.up.sql:4 | a stored balance is the one integer within half a unit of the decimal, ties away from zero |
| Money.DebitIsExact | account-service/internal/adapters/postgres/account_repo.go:69-71 | what storing a debited balance takes depends on the amount alone and never goes below zero |
| Money.CreditIsExact | account-service/internal/adapters/postgres/account_repo.go:69-71 | what storing a credited balance adds depends on the amount alone |
| Money.CreditMinusDebit | account-service/migrations/000001_create_accounts.up.sql:4 | stored credit and stored debit of one amount differ by one unit on a tie and never otherwise |
| Money.RoundingDrift | account-service/internal/domain/account.go:73-90 | a completed movement keeps the sum of the two stored balances, except that a tie adds exactly one unit |
| AccountDomain.NewAccount | account-service/internal/domain/account.go:42-56 | an active account of version 1, exactly when the opening balance is not negative |
| AccountDomain.DebitRefusal | account-service/internal/domain/account.go:61-72 | each refusal exactly when its guard is the first to fail, in the order amount, frozen, currency, balance; none exactly when all four hold |
| AccountDomain.CreditRefusal | account-service/internal/domain/account.go:81-89 | each refusal exactly when its guard is the first to fail, in the order amount, frozen, currency; none exactly when all three hold |
| AccountDomain.Account.Debit | account-service/internal/domain/account.go:60-77 | which guard refuses; otherwise balance less the amount, next version, balance not negative; nothing changes on refusal |
| AccountDomain.Account.Credit | account-service/internal/domain/account.go:80-94 | which guard refuses; otherwise balance plus the amount, next version; nothing changes on refusal |
| AccountTable.AccountRepository.Create | account-service/internal/adapters/postgres/account_repo.go:26-37 | inserts the row with the rounded balance, the currency, the status and the version of the account, and refuses an existing primary key |
| AccountTable.AccountRepository.GetByID | account-service/internal/adapters/postgres/account_repo.go:40-60 | a fresh copy of the row, or not found, or a database error |
| AccountTable.AccountRepository.UpdateWithVersion | account-service/internal/adapters/postgres/account_repo.go:64-79 | writes balance and version only over the preceding version, and tells a conflict from a database error |
| LedgerInvariant.RunKeepsInv | account-service/internal/app/service.go:56-135 | the ledger invariant holds in every state of every schedule |
| LedgerTheorems.BalancesAreExact | account-service/internal/adapters/postgres/account_repo.go:64-79 | in every run a balance is the opening balance plus landed credits minus landed debits and not negative, and a version is the opening version plus the landed writes |
| LedgerTheorems.OpenedAsAsked | account-service/internal/app/service.go:32-42 | an Open step stores the rounded amount under a new identifier, active and with version 1, unless the amount is negative or the insert is refused |
| LedgerTheorems.OpeningExactly | account-service/internal/adapters/postgres/account_repo.go:26-37 | in every run the opening balances are those given at the outset and those that opening steps asked for |
| LedgerTheorems.LandingWriteIsExact | account-service/internal/app/service.go:71-94 | in every run each copy that an attempt still has to write, and a source copy just read, has the row's balance if it has the row's version, so a write that lands is an exact change of the row |
| LedgerTheorems.Conservation | account-service/internal/app/service.go:80-94 | in every run and currency, for amounts of any precision: balances plus stranded debits are the opening balances plus one unit for each credited tie |
| LedgerTheorems.ConservationOfWholeAmounts | account-service/internal/app/service.go:89-94 | with at most eight fractional digits money is never created, and balances add up to the opening balances exactly when no debit lacks its credit |
| LedgerTheorems.PrefixDiscipline | account-service/internal/app/service.go:80-135 | every attempt leaves either one failure event and no balance write, or a beginning of debit, credit, completed event |
| LedgerTheorems.ConservedUnlessStranded | account-service/internal/app/service.go:89-94 | with at most eight fractional digits balances add up to the opening balances exactly when no step of the run stranded a debit and no attempt is between its two writes |
| LedgerTheorems.StrandsWhen | account-service/internal/app/service.go:89-94 | of all steps only two strand a debit: a source write that lands with a lost reply, and a destination write that is not executed or meets a newer version |
| LedgerTheorems.StrandedExactly | account-service/internal/app/service.go:56-135 | over every run an attempt ends with its debit stranded exactly when one of its steps was such a step |
| LedgerTheorems.StrandedForever | account-service/internal/adapters/kafka/consumer.go:68-73 | no continuation of any run ever repairs such a debit |
| LedgerTheorems.SilentWhen | account-service/internal/app/service.go:89-116 | of all steps only an unacknowledged balance write and a refused save end an attempt without an outcome event |
| LedgerTheorems.SilentExactly | account-service/internal/app/service.go:56-135 | over every run an attempt ends without an outcome event exactly when one of its steps was such a step |
| LedgerTheorems.OutcomesAtLeastOnce | account-service/internal/adapters/kafka/outbox_relay.go:46-68 | in every run saved outcomes stay in the table, published ones are in the topic, and the topic holds only what attempts saved |
| LedgerTheorems.RunExtends | account-service/internal/adapters/postgres/account_repo.go:64-79 | over any run rows change only with their version, which grows, and requests and effects are never rewritten |
| AccountService.ProcessIsRun | account-service/internal/app/service.go:56-116 | a request handled without interruption is a run of the ledger |
| AccountService.ProcessFinishes | account-service/internal/app/service.go:56-116 | whatever fails, five database calls end a request |
| RequestEffects.RefusedRequest | account-service/internal/app/service.go:71-135 | for every request and every combination of failing calls: the first reason that applies, of eight guards in source order, is the one failure saved, and no account changes |
| RequestEffects.AcceptedRequest | account-service/internal/app/service.go:80-116 | for every combination of failing calls: the balance and version of every account, the event saved and the result of a request that no guard refuses |
| AccountService.AccountService.CreateAccount | account-service/internal/app/service.go:32-42 | the state is the ledger's after an Open step; a new active row of version 1 with the rounded opening amount unless that is negative or the insert refused, and the account is returned exactly when its row was inserted and acknowledged |
| AccountService.AccountService.ProcessTransferRequested | account-service/internal/app/service.go:56-116 | tables, outbox and attempts are those of the ledger after the same calls, for every combination of failing calls |
| AccountService.AccountService.PublishFailure | account-service/internal/app/service.go:118-135 | saves one failure event with the reason, unless the insert is refused |
| AccountService.Consumer.HandleRecord | account-service/internal/adapters/kafka/consumer.go:60-77 | a record that does not decode changes nothing; any other is processed once, whatever the result |
| AtomicLedger.ProcessIsAtomic | account-service/internal/app/service.go:71-116 | without faults the two conditional writes between different accounts are one atomic transfer with one outcome event |
| AtomicLedger.SelfTransferStrands | account-service/internal/app/service.go:89-94 | an accepted transfer of an account to itself is debited, conflicts with itself and reports nothing |
| AtomicLedger.OneOutcomeUnlessSelf | account-service/internal/app/service.go:56-135 | a fault-free request gets exactly one outcome event if and only if it is not an acceptable transfer to the same account |
| AtomicLedger.ProcessAllIsAtomic | account-service/internal/app/service.go:56-135 | any list of requests between two different accounts each yields the table, outcomes and attempts of atomic transfers in that order |
| AtomicLedger.ProcessStrands | account-service/internal/app/service.go:89-94 | whatever fails, an uninterrupted request strands its debit exactly when it is acceptable, both reads succeed, and the source write lands unacknowledged, or is acknowledged and the destination write is refused or goes to the same account |
| AtomicLedger.ProcessSilent | account-service/internal/app/service.go:89-135 | whatever fails, when an uninterrupted request ends without an outcome event, and when it has then moved its money all the same |
| AtomicLedger.AllComplete | account-service/internal/app/service.go:80-94 | atomic transfers, one after another, all complete exactly when each is affordable in its turn, and then the table is a sum over them |
| AtomicLedger.AllProcessed | account-service/internal/app/service.go:56-116 | requests between two different accounts each, handled one by one, all complete exactly when each is affordable in its turn |
| AtomicLedger.RedeliveryIsNotRecognised | account-service/internal/app/service.go:56-116 | of n deliveries of a request the first ones that the balance pays for move the money each, and every later one reports a failure |
| AtomicLedger.OrderDoesNotMatter | transfer-service/internal/app/service.go:73-78 | every permutation of covered valid requests completes them all and ends in the same balances and versions |
| LedgerSerial.Serialisable | account-service/internal/app/service.go:56-135 | in every run, failures and concurrency included, atomic transfers of the debited requests in the order of their debits all complete, and the table is theirs less the missing credits; it is exactly theirs if and only if no debit lacks its credit |
| LedgerSerial.LandingIsAffordable | account-service/internal/domain/account.go:70-72 | a debit that lands is affordable after all the debits that landed before it, had they all been credited |
| LedgerSerial.OrderIsDebited | account-service/internal/adapters/postgres/account_repo.go:64-79 | that order holds each request as often as attempts for it were debited |
| Outbox.Unpublished | transfer-service/internal/adapters/postgres/outbox_repo.go:32-54 | a batch holds only existing unpublished rows |
| Outbox.AtLeastOnce | account-service/internal/adapters/kafka/outbox_relay.go:46-68 | over every interleaving of relay calls: marked rows are in the topic, topic records are rows, and nothing is lost, rewritten or unmarked |
| Outbox.RelayCallIsRun | account-service/internal/adapters/kafka/outbox_relay.go:46-68 | a relay call that nothing interrupts is a run of fetch, publish and mark steps |
| Outbox.DeliverAllEffect | transfer-service/internal/adapters/kafka/outbox_relay.go:45-53 | the records a call appends and the rows it marks, for every combination of failures |
| OutboxRelay.OutboxRepository.SaveEvent | account-service/internal/adapters/postgres/outbox_repo.go:22-31 | appends one unpublished row unless refused |
| OutboxRelay.OutboxRepository.GetUnpublished | account-service/internal/adapters/postgres/outbox_repo.go:34-56 | the oldest unpublished rows up to the limit, with their identifiers and events |
| OutboxRelay.OutboxRepository.MarkPublished | account-service/internal/adapters/postgres/outbox_repo.go:59-66 | sets the flag of that row only |
| OutboxRelay.Producer.Publish | account-service/internal/adapters/kafka/producer.go:28-38 | appends the record unless refused |
| OutboxRelay.OutboxRelay.Relay | account-service/internal/adapters/kafka/outbox_relay.go:46-68 | table and topic are those of a relay call, for every combination of failing publishes and marks |
| OutboxDrain.BatchIsOldest | transfer-service/internal/adapters/postgres/outbox_repo.go:33-38 | a batch is in creation order and leaves out an unpublished row only if it is full and older |
| OutboxDrain.DrainBound | transfer-service/internal/adapters/kafka/outbox_relay.go:39-54 | with at most k < 50 failing rows ahead, a row behind m others is published within m / (50 - k) + 1 calls, whatever arrives behind it |
| OutboxDrain.FiftyStuckRowsStarve | transfer-service/internal/adapters/kafka/outbox_relay.go:39-54 | the bound on k is sharp: behind fifty rows that always fail a row is never published |
| OutboxDrain.RelayIsFifo | transfer-service/internal/adapters/kafka/outbox_relay.go:39-54 | n calls without failure append the oldest 50 n events, in creation order and once each, and leave the rest |
| OutboxDrain.DrainedInCeiling | transfer-service/internal/adapters/kafka/outbox_relay.go:39-54 | a backlog of n events is gone exactly from call ceil(n / 50) on |
| TransferDomain.NewTransfer | transfer-service/internal/domain/transfer.go:43-62 | a pending transfer of version 1 with the given fields exactly when the amount is positive and the accounts differ; which error otherwise |
| TransferDomain.Transfer.MarkCompleted | transfer-service/internal/domain/transfer.go:65-69 | completed, next version, reason kept, whatever the status was |
| TransferDomain.Transfer.MarkFailed | transfer-service/internal/domain/transfer.go:72-77 | failed with the reason, next version, whatever the status was |
| TransferTable.TransferRepository.Create | transfer-service/internal/adapters/postgres/transfer_repo.go:26-38 | inserts the rounded row only when neither its identifier nor its idempotency key is taken |
| TransferTable.TransferRepository.GetByID | transfer-service/internal/adapters/postgres/transfer_repo.go:41-46 | a fresh copy of the row, or nothing |
| TransferTable.TransferRepository.GetByIdempotencyKey | transfer-service/internal/adapters/postgres/transfer_repo.go:49-54 | a fresh copy of the one row with the key, nothing, or an error |
| TransferTable.TransferRepository.UpdateWithVersion | transfer-service/internal/adapters/postgres/transfer_repo.go:57-72 | writes status, reason and version only over the preceding version |
| IdempotencyStore.IdempotencyStore.Get | transfer-service/internal/adapters/redis/idempotency.go:27-36 | the live entry, nothing, or an error |
| IdempotencyStore.IdempotencyStore.Set | transfer-service/internal/adapters/redis/idempotency.go:39-44 | at every later time the entry is readable for 24 hours and then gone, and other entries are untouched |
| IdempotencyStore.TimeIsExpiry | transfer-service/internal/adapters/redis/idempotency.go:12 | the passing of time is a series of expiry steps |
| TransferInvariant.RunKeepsInv | transfer-service/internal/app/service.go:35-138 | the invariant of the transfer service holds in every state of every schedule |
| TransferTheorems.OneRowOneEvent | transfer-service/internal/app/service.go:58-81 | in every run a key has at most one row and one requested event, and every event matches its row |
| TransferTheorems.RepliesAgree | transfer-service/internal/app/service.go:37-90 | in every run two successful replies name one transfer exactly when they are for one key, and it is the row with that key |
| TransferTheorems.CacheAgrees | transfer-service/internal/app/service.go:83-86 | in every run a cached entry names the transfer of the row with its key, and the event of that row was saved |
| TransferTheorems.RequestsAtLeastOnce | transfer-service/internal/adapters/kafka/outbox_relay.go:39-54 | in every run published requests are in the topic, and the topic holds only requests for stored transfers |
| TransferTheorems.RowHistory | transfer-service/internal/adapters/postgres/transfer_repo.go:57-72 | identity, accounts, amount and currency never change, the version counts the landed updates, each version is won once, and pending never returns |
| TransferTheorems.StableWhenOutcomesAgree | transfer-service/internal/app/service.go:102-138 | when all outcome records of a transfer agree, its status and reason are final once it has left pending |
| TransferTheorems.OverwrittenWhen | transfer-service/internal/domain/transfer.go:65-77 | of all steps only an update that lands on a current copy and brings another status, or a failure with another reason, changes status or reason of a row |
| TransferTheorems.OutcomeStaysExactly | transfer-service/internal/app/service.go:102-138 | over every run status and reason of a row, terminal or not, stay as they are throughout exactly when no such update lands |
| TransferTheorems.OrphanArises | transfer-service/internal/app/service.go:58-81 | of all steps only two leave a row without its event for good: an insert that lands with a lost reply, and a refused save |
| TransferTheorems.OrphanedExactly | transfer-service/internal/app/service.go:58-81 | over every run a row is left without its event exactly when its creation took such a step |
| TransferTheorems.StoredIsRequested | transfer-service/internal/app/service.go:58-81 | any other row has its event, or a call that stands, perhaps crashed, before its save, and never both |
| TransferTheorems.OrphanForever | transfer-service/internal/app/service.go:37-51 | no later call, retry or relay ever saves the event of an orphan |
| TransferService.HandleOutcomeIsRun | transfer-service/internal/app/service.go:102-138 | an outcome record handled without interruption is a run of the transfer store |
| TransferService.CreateIsRun | transfer-service/internal/app/service.go:35-90 | a CreateTransfer handled without interruption is a run of the transfer store |
| TransferService.CreateOrphans | transfer-service/internal/app/service.go:35-90 | for every combination of failing calls: when a CreateTransfer stores a row, when the row has its event, and when it is left without it for good |
| TransferService.RetryFindsOrphan | transfer-service/internal/app/service.go:37-51 | a retry with the key of an orphan is answered with the orphan and changes neither table nor outbox |
| TransferService.CreateFinishes | transfer-service/internal/app/service.go:35-90 | whatever fails, five remote calls end a CreateTransfer |
| TransferEffects.Answered | transfer-service/internal/app/service.go:36-56 | a call is answered from a live cache entry that can be read, else from the row of its key, and rejected when the table cannot be read, the amount is not positive or the accounts are one; it then changes nothing |
| TransferEffects.Initiated | transfer-service/internal/app/service.go:53-90 | any other call, for every combination of failing calls: row, requested event, cache entry and reply carry what the caller passed |
| TransferEffects.OutcomeHandled | transfer-service/internal/app/service.go:102-138 | for every outcome record and every combination of failing calls: status, reason and version of the row, and nothing else changes |
| TransferEffects.RunIsSourced | transfer-service/internal/app/service.go:35-90 | in every run each call keeps the parameters of its submission, and each row and event comes from a call |
| TransferEffects.RowAsSubmitted | transfer-service/internal/adapters/postgres/transfer_repo.go:26-38 | in every run a row has the key, accounts, currency and rounded amount submitted under its identifier |
| TransferEffects.EventAsSubmitted | transfer-service/internal/app/service.go:62-81 | in every run a requested event says exactly what was submitted, a positive amount between two different accounts |
| TransferEffects.ReplyAsSubmitted | transfer-service/internal/app/service.go:37-90 | in every run a successful reply names a transfer submitted under the key of the call, with what was submitted |
| TransferService.OutcomeAlwaysLands | transfer-service/internal/app/service.go:102-117 | an outcome record handled alone is written whatever the status of the row |
| TransferService.LastOutcomeDecides | transfer-service/internal/app/service.go:102-138 | of any list of outcome records handled in turn the last one for a transfer decides its status, its last failure the reason, and each of them counts one version |
| TransferService.CompletionCanBeOverwritten | transfer-service/internal/domain/transfer.go:65-77 | a completed transfer that is reported failed becomes failed |
| TransferService.TransferService.CreateTransfer | transfer-service/internal/app/service.go:35-90 | tables, outbox, cache and reply are those of the transfer store after the same calls, for every combination of failing calls |
| TransferService.TransferService.HandleTransferCompleted | transfer-service/internal/app/service.go:102-117 | the state is that of the transfer store after the same two calls |
| TransferService.TransferService.HandleTransferFailed | transfer-service/internal/app/service.go:120-138 | the state is that of the transfer store after the same two calls |
| TransferService.Consumer.HandleRecord | transfer-service/internal/adapters/kafka/consumer.go:59-82 | dispatches by topic; a record that does not decode changes nothing, and errors are dropped |
| Saga.RunKeepsInv | account-service/internal/adapters/kafka/consumer.go:60-77 | in every run of both services only published requests and published outcomes are ever handled, and both invariants hold |
| Saga.ServicesSeeRun | transfer-service/internal/adapters/kafka/consumer.go:59-82 | every run of the platform is a run of each service, whose deliveries are the other's published records |
| Saga.Causality | transfer-service/internal/app/service.go:102-138 | in every run a completed transfer has an attempt that wrote debit and credit, and a failed one an attempt that reported that reason and wrote nothing |
| Saga.MoneyIsAccountedFor | account-service/internal/app/service.go:71-94 | in every run of the platform balances, stranded debits and ties account for the opening balances; whole amounts are conserved exactly when nothing is stranded |
| Saga.KeyNamesOneTransfer | transfer-service/migrations/000001_create_transfers.up.sql:3 | in every run two attempts are for one idempotency key exactly when they are for one transfer |
| Saga.AttemptAsSubmitted | account-service/internal/app/service.go:56-70 | in every run each attempt is for exactly what was submitted under its transfer, a positive amount between two different accounts |
| Saga.OrphanNeverSettles | transfer-service/internal/app/service.go:79-81 | in every continuation of every run an orphan stays pending and no attempt is made for it |
| Saga.TerminalStatusIsStable | transfer-service/internal/domain/transfer.go:65-77 | when no transfer is processed twice, status and reason never change after pending, however outcome records are duplicated, reordered or raced |
| Saga.OutcomeIsFinalExactly | transfer-service/internal/domain/transfer.go:65-77 | in every run of the platform a stored outcome is final exactly when the rest of the run lands no update that says something else |
| Saga.PlatformIsSerialisable | account-service/internal/app/service.go:56-135 | in every run of the platform the accounts are those of atomic transfers in debit order less the missing credits, and exactly those if and only if no debit lacks its credit |
| Settlement.CreateAllIsJustCreated | transfer-service/internal/app/service.go:58-90 | any number of calls without failures leads from the empty platform to one in which every row has its event |
| Settlement.StepProgresses | account-service/internal/adapters/kafka/outbox_relay.go:30-44 | every remote call that is due, and the delivery of any record not taken before, keeps the pipeline in order and strictly lessens the work left |
| Settlement.SomethingIsDue | account-service/internal/adapters/kafka/consumer.go:39-57 | there is no deadlock: as long as work is left some step is due |
| Settlement.SagaSettles | account-service/internal/app/service.go:56-135 | without failures every interleaving of remote calls, with records delivered in any order, ends within fifteen steps per transfer, and then each transfer was attempted once, completed exactly if its amount moved and failed exactly if no balance changed, and accounts and outcomes are those of atomic transfers in the order in which the requests were taken, each once |
| RateLimiter.CounterIsPosition | api-gateway/internal/middleware/middleware.go:56-58 | the counter holds the number of requests since the last idle minute |
| RateLimiter.HitDoes | api-gateway/internal/middleware/middleware.go:56-58 | the counter after a pipeline, whichever of its two commands are executed: it goes on unless sixty seconds have passed since it was refreshed |
| RateLimiter.CounterSteps | api-gateway/internal/middleware/middleware.go:56-65 | with both commands executed the counter is 1 after sixty seconds without a request, and one more than before otherwise |
| RateLimiter.AnsweredAdmits | api-gateway/internal/middleware/middleware.go:56-70 | a client whose pipelines were all executed is admitted by that number |
| RateLimiter.NoExpiryNoReset | api-gateway/internal/middleware/middleware.go:57-58 | a counter that was incremented but never given its expiry only counts up until some EXPIRE is executed |
| RateLimiter.RateLimiter.Limit | api-gateway/internal/middleware/middleware.go:50-73 | for every outcome of INCR and of EXPIRE: the counter after both, admission by it when both are acknowledged, admission in any case otherwise, and no other client touched |
| RateLimiter.WindowBound | api-gateway/internal/middleware/middleware.go:56-70 | any stretch of L seconds admits at most rpm * (L / 60 + 1) requests, and less than a minute at most rpm |
| RateLimiter.AdmissionRule | api-gateway/internal/middleware/middleware.go:65-70 | a request is admitted exactly when fewer than rpm requests came since the last idle minute |
| RateLimiter.AdmissionInSeconds | api-gateway/internal/middleware/middleware.go:58-70 | after a gap of sixty seconds and with none since, the first rpm requests get through and no other |
| RateLimiter.SlidingExactly | api-gateway/internal/middleware/middleware.go:36 | the limiter admits nothing that a sliding window over its own admissions would refuse, and agrees with it exactly on the first rpm requests after an idle gap and on those within a minute of it |
| RateLimiter.OwnSlidingExactly | api-gateway/internal/middleware/middleware.go:36 | it admits nothing that a stand-alone sliding window would refuse, and the two decide alike on every request since the idle gap exactly as long as the latest is such a request |
| RateLimiter.SteadyClientStarves | api-gateway/internal/middleware/middleware.go:56-70 | a client that never pauses for a minute is admitted rpm times in all |
| RateLimiter.NotASlidingWindow | api-gateway/internal/middleware/middleware.go:36 | a request that is refused although a sliding window would admit it |

## Left out

- Outbox.Unpublished: rows are kept in the order in which they were saved, which stands for created_at order with distinct times; a row that commits late with an earlier time is not modelled.
- Settlement.SagaSettles: each relay is in one call at a time, and each consumer handles one record at a time, in any order; with concurrent handlers a version conflict drops a record, and the saga need not settle.
- TransferService.TransferService.CreateTransfer: the clock stands still during one call; in the transfer store entries may expire between any two calls.
- RateLimiter.WindowBound: the bound and the admission rule are for clients whose pipelines were all executed; requests during a Redis failure are admitted without bound, as the code intends.
- AccountService.AccountService.ProcessTransferRequested: a record whose amount or account identifier does not parse counts as one that does not decode, since both change nothing.
- HTTP handlers, routing, the reverse proxy, correlation identifiers, configuration, migrations, metrics, logging and shutdown.
- GetAccount and GetTransfer, which only read a row.
- The notification service, which only inserts rows per event.
- The internals of Kafka, Redis and Postgres: they are logs with redelivery, a map with expiry, and tables with atomic statements.
- The decimal, JSON and UUID libraries: amounts are real numbers, payloads are datatypes, and identifiers come from a supply of fresh ones.
- Customer and trace identifiers, and timestamps other than the order of outbox rows, which no branch reads.
- The texts of failure reasons: each is a constructor of `Events.Reason`.
- The `idempotency:` prefix of cache keys, which is injective.
- Overflow of NUMERIC(20, 8) and of the 32-bit version: a balance write may be refused at any time, and versions are unbounded.
- The account status never changes after opening, because no code changes it.

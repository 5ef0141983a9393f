# Token ledger pipeline: a verified model

The system follows a blockchain into a token ledger. A block synchronizer polls blocks and transactions, groups them and
publishes one message per block. A broker fans messages out to queues and delivers them until a handler returns nil. An
event processor drains its subscription into a queue of 100 and five workers; each message first passes a gate (the insert
of its block row), then its mint, burn and transfer events change account balances, and each transaction ends with one bulk
insert of transfer rows. A REST service reports balances through a 60-second cache.

This project models these parts in Dafny and proves what they keep, step by step and over whole runs.

## How the model is laid out

The ledger is modelled twice, over one definition of the repository calls (`Tables`) and one translation of a message into
the list of calls it makes (`Model.Program`).

- **Imperatively**: `Repository.RepositoryEnt` and `EventProcessor.Service` are classes with mutable tables and the
  source's nested loops and handlers. Every method is proved equal to the function of the old tables in `Tables`
  (`Exec`, `Process`).
- **As a step relation**: in `Core` each repository call is one atomic step of one task, tasks are interleaved in any order,
  and any call may fail or never come. `Pool` puts the queue, the five workers, repeated deliveries and database outages
  on top. What was minted, burned, debited or logged so far is computed from each task's progress through its own program,
  never accumulated beside it.

`Meaning` says what a message means by its text alone (which letters make a burn, which fields an event has, which calls
and which rows follow), and `Records` what the transactions and transfers tables hold by it.

`Deliveries` connects the two: processing messages in sequence is one of the interleavings, and every run of the pool
that ends at rest without an error leaves the same tables as any such sequence. `Liveness` is the other direction: the
pool can process any sequence, answering each message with its own result, and can always come to rest. `Conservation`,
`Refinement`, `Amounts` and `Handlers` state the ledger's laws; `Success` says exactly when a message succeeds,
`Failures` what a failing one leaves behind, `Races` which concurrent messages can make each other fail, and `Inputs`
holds concrete messages. `Synchronizer` is the restoring loop, `Checkpoint` its guarantees over many crashing runs, and
`EndToEnd` joins it to the ledger. `Broker` is the broker, and `Consumer` puts the worker pool behind it. `Amounts` and
`Rounding` compare float64 columns with integers. `BulkSave` and `Cache` are the remaining parts. `Programs` relates
events to calls. `Sums` and `Float64` are the arithmetic all rests on; `Float64` is binary64 on integers with round to
nearest, ties to even (sections 3.3 and 4.3.1 of IEEE 754-2019).

`Config` covers both account keys: the one the schema source intends, (address, token), and the one the generated schema
has, the address alone (ent/schema/account.go:36-41 against ent/migrate/schema.go:18-29). Results hold for both unless
they say otherwise. It also selects integer or float64 columns for balances and stored transfer amounts. A lemma that
requires `Exact` speaks of integer columns; `Rounding.Binary64Pool` says how a pool with float64 columns differs from it,
and the end-to-end results are stated for both.

## What the code does not keep

Each of these is a property one might expect, and false in general: an input shows it, and where it can hold, an exact
condition says when.

- Transfers do not always conserve supply. A transfer with an empty sender or receiver skips that side, or, where the
  lookup by token alone does not find a single row, fails. Input: `Inputs.EmptySenderMessages`. Condition:
  `Conservation.MoveConservesIff`. `Conservation.SupplyAccount` is the full account with the leak in it.
- Under the generated key an address can hold a single token. Input: `Handlers.SecondTokenRefused`. Conditions:
  `Handlers.MintSucceedsIff` for a mint, `Success.SucceedsIff` for a whole message.
- Balances change before the validator for positive amounts runs, so that an error leaves them ahead of the transfers table.
  Input: `Inputs.HalfFailedMint`. Condition for balances and log to change alike, and by what the events mean:
  `Success.AppliedIff`. What a failure leaves: `Failures.FailureLeaves` and `Failures.MissingHashLeaves`; every failure past
  the gate is one of these (`Failures.FailsSomewhere`).
- A failed message is not repaired by redelivery, which reports success and does nothing. Input: `Inputs.HalfFailedMint`.
  Condition: `Deliveries.NoOpIffTaken`. Since the live path polls transactions with the block's own height as offset, its
  message for a block carries none of that block's transactions, and it shadows the restored one:
  `EndToEnd.LiveMessageShadows`.
- Valid messages that name the same new account, however late in their events, can make each other fail without any outage.
  Input: `Races.MintLosesRace`, and for any two that share an account `Races.RaceLoses`. Condition for one step:
  `Races.FailsIffLostRace`. Condition for whole runs of any set of messages: `Races.NoneFailsIff`.
- A full worker queue drops a message that the broker then deletes. Input: `Consumer.CanLose`, and `Consumer.StaysGone` says
  that nothing brings it back. Condition: `Consumer.ProcessedIffRoom`.
- The restoring checkpoint moves past messages whose publish failed, and no later run makes up for them. Input:
  `Checkpoint.LostForGood`. Conditions: `Checkpoint.PublishedIffOwnPublish` for each height,
  `Checkpoint.PublishesAllIff` for all. Height 1 is never restored: `Checkpoint.FirstBlockNeverRestored`.
- Cache keys join path and query with a question mark. Input: `Cache.SharedKey`. Condition: `Cache.OwnKeyIff`.
- Float64 columns do not always hold what the events say. Input: `Inputs.InexactMint`. Condition:
  `Amounts.ExactIffRepresentable`. Absolute amounts of at most 2^53 in all for every account are enough for the balances
  (`Amounts.Binary64IsExact`, `Rounding.RestFold`), and 2^53 + 1 is the first integer that is lost (`Float64.FirstInexact`).

## Model

| member | source | states |
|---|---|---|
| EndToEnd.ChainToLedger | cmd/block-synchronizer/service/service.go:135-188 | An undisturbed restoring run finishes; once its messages, repeated and reordered at will, have been worked off without error by the interleaved workers, every balance is the plain fold over the chain's events in heights start+1 .. reached, each height once, and equals the transfers table's own sum; reached is at least the announced height. With integer columns for any events; with float64 columns, and for the reported int64 value too, if the absolute event amounts of the range sum to at most 2^53 for every account |
| EndToEnd.CrashesToLedger | cmd/block-synchronizer/service/service.go:135-188 | The same over any number of lives of the synchronizer, cut off at any step, of which the last completes: once all they published has been worked off without error, every balance is the fold over the chain's events in heights 2 .. top, each height once although it may have been published several times and with its transactions in other orders |
| EndToEnd.BrokerToLedger | externals/msgbroker/msgbroker_localstack.go:283-361 | The same over one run of broker, handler and workers together: if the bodies published to the processor's queue stand for exactly the messages of all the lives, fewer than 100 messages wait at every delivery, no worker reports an error and all is at rest, every balance is the fold over the chain |
| EndToEnd.PoolFoldsChain | cmd/event-processor/service/service.go:103-149 | A pool at rest without errors whose messages cover a range of the chain, with repeated heights, shows the fold over that range, with integer columns or with float64 columns and events that fit |
| EndToEnd.PoolFold | cmd/event-processor/service/service.go:103-149 | For any pool run at rest without errors that took messages of distinct heights, every balance is the sum of the event effects of exactly those messages, and of the stored transfer rows, with integer columns or with float64 columns and events that fit |
| EndToEnd.FoldOfRange | cmd/block-synchronizer/service/service.go:158-172 | Messages that match the chain, one per height of a range, in any order and with each block's transactions in any order, sum to the fold over that range, for any sum over transactions |
| Rounding.Binary64Pool | repository/repository_ent.go:374-391 | A state that the pool with float64 columns reaches, within 2^53 per account, is a state that the integer pool reaches, but for stored transfer amounts converted to float64; it is that very state if and only if float64 represents all of them |
| Rounding.RestFold | cmd/event-processor/service/service.go:103-149 | At rest without errors, with integer columns or with float64 columns and events whose absolute amounts sum to at most 2^53 per account: each balance is the fold over the events, the transfers table gives the same number, and so does the reported int64 value |
| EndToEnd.ReportedSupply | repository/repository_ent.go:349-371 | After messages that all succeeded, what the balance query without an address reports for a token is minted minus burned according to the events, for messages whose transfers have both endpoints |
| EndToEnd.LiveMessageShadows | cmd/block-synchronizer/service/service.go:260-281 | The live message of a block holds none of the block's own transactions, and after it passed the gate the restored message of that block succeeds without any effect |
| Core.ReachableInv | cmd/event-processor/service/service.go:103-149 | Every reachable state of every interleaving, failures included, satisfies all nine ledger invariants together: one task per stored height, balances and totals equal to the completed calls' sums, logs equal to the completed inserts, accounts present for every completed lookup |
| Core.StepInv | cmd/event-processor/service/service.go:126-318 | Any single step of any task (a gate, a call, an outage) keeps that whole invariant |
| Core.ReachableStructured | cmd/event-processor/service/service.go:103-149 | The part of it that involves no amounts holds in every reachable state with float64 balances as well |
| Core.CompletedEffect | repository/repository_ent.go:278-317 | When the insert after an empty lookup succeeds, the lookup would still find nothing: the two steps amount to one lookup-or-create, whatever other workers did in between |
| Core.IncrementFinds | cmd/event-processor/service/service.go:214-318 | Whenever a handler increments a balance with address and token non-empty, the row is there, so the update that silently tolerates zero rows does change one |
| Core.KeepGated | cmd/event-processor/service/service.go:127-134 | Every step keeps exactly one task per stored block height |
| Core.KeepBalanced | repository/repository_ent.go:374-391 | Every step keeps each balance equal to the sum of what the completed calls added to it |
| Core.KeepLogged | cmd/event-processor/service/service.go:192-205 | Every step keeps the transfers table equal, as a multiset and in its effect on every account, to the rows of the completed bulk inserts, their amounts converted to the column's type, all valid and referring to accounts |
| Conservation.SupplyAccount | cmd/event-processor/service/service.go:214-318 | In every reachable state and with no assumption on the messages, a token's balances sum to minted minus burned minus the transfers in flight plus what transfers without both endpoints leaked |
| Conservation.Conserved | cmd/event-processor/service/service.go:214-318 | In every reachable state of every interleaving, with transfers that have both endpoints, a token's balances sum to minted minus burned minus the transfers debited and not yet credited |
| Conservation.SupplyAtRest | cmd/event-processor/service/service.go:214-318 | When all messages succeeded, the supply is what the events minted less what they burned: nothing is left in flight |
| Conservation.MoveConservesIff | cmd/event-processor/service/service.go:279-318 | A transfer handled without error keeps the token's supply if and only if the value is zero, or both endpoints are present and the value has an int64 negation, or no endpoint is present |
| Conservation.EmptySenderCreatesSupply | repository/repository_ent.go:292-317 | A concrete transfer without a sender that succeeds and raises the token's supply |
| Refinement.LedgerIsLogPlusPending | cmd/event-processor/service/service.go:152-212 | In every reachable state, failures included, each balance is the sum recomputed from the transfers table plus what unfinished or failed transactions have applied ahead of it |
| Refinement.BalancesAtRest | cmd/event-processor/service/service.go:152-212 | After messages that all succeeded each balance is both the plain fold over their events and the sum over the transfers table alone |
| Refinement.OrderIndependent | cmd/event-processor/service/service.go:126-212 | Any two interleavings that got the same messages through end in equal block and account tables and equal multisets of transactions and transfers |
| Refinement.ReferencesHold | ent/migrate/schema.go:101-118 | With integer and float64 balances and under any interleaving: when a task is about to store the transfer rows of a transaction, every address in the row of an event that carries no stray address has an account in the shared table, whatever the other events of the transaction and the block are |
| Refinement.SavingFailsIff | cmd/event-processor/service/service.go:192-208 | So the bulk insert of a transaction without stray addresses fails exactly if a row is invalid, never for its foreign keys |
| Programs.EventCovered | cmd/event-processor/service/service.go:175-200 | The events all of whose stored addresses are looked up by their own handler are exactly those without a stray address |
| Deliveries.SequenceOrderIndependent | cmd/event-processor/service/service.go:126-212 | Two sequences of the same messages, permuted and with duplicates anywhere, both without error, leave the same tables |
| Deliveries.PoolOrderIndependent | cmd/event-processor/service/service.go:103-149 | Two runs of the worker pool that took the same messages, in any order with any duplicates and interleaving, end in the same tables |
| Deliveries.PoolRefinesSequence | cmd/event-processor/service/service.go:103-149 | If a sequence of the same messages is processed without error, a concurrent run at rest without errors leaves the tables of that sequence |
| Success.PoolIsSequence | cmd/event-processor/service/service.go:103-149 | For proper messages every sequence of the same messages does succeed, and leaves the tables of the concurrent run |
| Deliveries.TaskAlone | cmd/event-processor/service/service.go:152-212 | A task that runs without interference, by calls of its own only, does to the tables what the sequential program does, and fails exactly when that fails |
| Deliveries.RedeliveryIsNoOp | cmd/event-processor/service/service.go:127-134 | Once a height passed the gate, processing it again succeeds and changes nothing, also when the first attempt failed later |
| Deliveries.NoOpIffTaken | repository/repository_ent.go:76-97 | Processing a message succeeds without any effect exactly when its height is already stored |
| Success.SucceedsIff | cmd/event-processor/service/service.go:126-212 | Any message, past the gate and without interference, succeeds if and only if each of its calls is in order and finds what it needs among the account keys there at first and those named before it: a condition on the message and the keys of the account table alone |
| Success.ProperSucceedsIff | cmd/event-processor/service/service.go:126-212 | For a message whose lookups name an address and a token and whose rows carry no address that is not looked up, that is: every value parses, every row is valid, every transaction has a hash, and the account key allows all the accounts it names |
| Success.AppliedIff | cmd/event-processor/service/service.go:152-212 | Under the same condition, and only then, a message succeeds and changes every balance and every log balance by what its events mean |
| Success.ProperAppliedIff | cmd/event-processor/service/service.go:152-212 | The same for a proper message: exactly if it is valid and the key allows its accounts |
| Success.CallOkIff | repository/repository_ent.go:278-317 | Whether any call succeeds depends only on the keys of the account table: a lookup by address and token if the key allows that row, a lookup by part of a key if it finds a single row, a bulk insert if its rows are valid and their addresses known; and which keys are there afterwards |
| Failures.FailureLeaves | cmd/event-processor/service/service.go:152-212 | Any message whose first failing call is call j of transaction n, for whatever reason, the account key included: all transactions before are in balances and log alike; of transaction n the calls before call j are in the balances, and nothing is in the log |
| Failures.FailsSomewhere | cmd/event-processor/service/service.go:152-212 | Every message that fails past the gate, and in which no transaction lacks a hash, has such a call |
| Failures.InvalidTxLeaves | cmd/event-processor/service/service.go:152-212 | For a proper message whose accounts the key allows, in terms of its events: of the first invalid transaction the events before the first value that does not parse, or else all, are applied and not logged |
| Failures.MissingHashLeaves | cmd/event-processor/service/service.go:136-139 | If any transaction lacks a hash, the message fails and only its block row is stored |
| Inputs.HalfFailedMint | ent/transfer_create.go:173-177 | A mint of -5: the balance becomes -5, nothing is logged, the message fails, and its redelivery is reported as a success without any effect |
| Inputs.InexactMint | cmd/event-processor/service/service.go:197 | A mint of 2^53 + 1 is processed without an error; float64 columns then hold 2^53, as balance and as stored amount, where integer columns hold 2^53 + 1 |
| Inputs.EmptySenderMessages | repository/repository_ent.go:292-317 | A mint of 7 and a transfer of 5 without a sender, processed from empty tables without an error, leave a balance of 12 |
| Inputs.MintThenBurn | cmd/event-processor/service/service.go:246-277 | A mint of 7 and then a "Burn" of 5, processed from empty tables, leave a balance of 2 and the two rows, field by field |
| Inputs.OtherTypeIgnored | cmd/event-processor/service/service.go:158 | An event of type "Approval" that is otherwise a transfer, whatever its value, changes no balance, stores no row and fails nothing |
| Races.FailsIffLostRace | repository/repository_ent.go:278-317 | In every reachable state the next call of a valid, proper message fails if and only if it is the insert of an account whose key another task has taken since the lookup |
| Races.RaceLoses | cmd/event-processor/service/service.go:214-318 | For any two sane messages that share an account anywhere in their events, with all their accounts allowed by the key, there is a run without outages in which one is completed and the other has failed, and its redelivery does nothing |
| Races.MintLosesRace | cmd/event-processor/service/service.go:214-244 | Two valid mints of 5 to the same new account: in some run without outages the second is lost |
| Races.CannotFail | cmd/event-processor/service/service.go:103-149 | In any run, outages of others included, a valid, proper message without an outage of its own never fails if each account it names is there when it passes the gate, or clashes with no other account that it or another message names |
| Races.NoneFailsIff | cmd/event-processor/service/service.go:103-149 | For any set of sane messages of distinct heights: in no run without outages does any of them fail, if and only if no account that one names clashes with one that it or another names |
| Pool.AtMostOnePasses | cmd/event-processor/service/service.go:127-134 | Over a whole run, whatever is redelivered or fails, at most one gate step of one worker passes for a given height |
| Pool.PoolAccounting | cmd/event-processor/service/service.go:60-122 | In every reachable state each message handed over is, counted with multiplicity, waiting, in a worker, answered or dropped; the queue holds at most 100; messages are taken in the order they were queued |
| Pool.StepInv | cmd/event-processor/service/service.go:103-122 | Every pool step keeps the queue, accounting and assignment invariants: workers hold distinct tasks, and a task nobody holds has ended |
| Pool.RestComplete | cmd/event-processor/service/service.go:103-149 | At rest without errors every task is complete and every message taken has its height's task |
| Pool.ProcessedIffRoom | cmd/event-processor/service/service.go:77-86 | In any run that has come to rest, a message has been answered by a worker if and only if fewer than 100 messages were waiting at one of its deliveries |
| Pool.QueuedIffRoom | cmd/event-processor/service/service.go:78-86 | A delivery becomes the last message waiting if and only if fewer than 100 wait, and changes nothing else; otherwise it is dropped |
| Pool.EndedAnswered | cmd/event-processor/service/service.go:116-119 | In every reachable state a task that no worker holds has its own answer: success if all its calls are done, an error otherwise |
| Pool.GateAnswers | cmd/event-processor/service/service.go:127-134 | A gate step on a stored height answers success and changes nothing, without a hash it answers an error, and otherwise it stores the block and starts the message's task |
| Pool.NeverStuck | cmd/event-processor/service/service.go:103-122 | In every reachable state any message may arrive, an idle worker may take the oldest one waiting, and a worker that holds a message may go on, or end once its calls are done or one has failed; an outage may hit any call |
| Liveness.PoolDoesSequence | cmd/event-processor/service/service.go:103-149 | For any sequence of messages and any choice of workers there is a run that takes them in that order and comes to rest: its tables are those of processing them one after another, and each message is answered with its own result there |
| Liveness.SaneTwice | cmd/event-processor/service/service.go:103-149 | For every sane message whose accounts the key allows there is a run that takes two deliveries of it, answers both with success, stores its height and comes to rest |
| Liveness.CanRest | cmd/event-processor/service/service.go:103-122 | From every reachable state the workers can, without any outage and without further deliveries, take all that waits and come to rest |
| Consumer.PendingOrArrived | externals/msgbroker/msgbroker_localstack.go:320-361 | Broker and pool together: at every later point of every run a message published to the processor's queue is pending there or was offered to the workers |
| Consumer.ProcessedIffRoom | cmd/event-processor/service/service.go:69-87 | With broker and workers at rest, a published message was decodable and offered, and was answered by a worker if and only if fewer than 100 messages were waiting at one of its deliveries |
| Consumer.TakenIffSent | cmd/event-processor/service/service.go:69-87 | With all at rest and fewer than 100 messages waiting at every delivery, the workers took exactly the messages published to the processor's queue |
| Consumer.HandoverDoes | cmd/event-processor/service/service.go:69-87 | One delivery: an error exactly if the body does not decode; the decoded message becomes the last one waiting if and only if fewer than 100 wait; the broker deletes it if the handler returned nil and the deletion succeeds |
| Consumer.CanLose | cmd/event-processor/service/service.go:77-86 | A reachable state with 100 messages waiting in which the handler reports success for a pending message, the broker deletes it, and no trace of it is left in queue, workers or answers |
| Consumer.StaysGone | cmd/event-processor/service/service.go:77-86 | However the run continues, such a message stays unprocessed until it is published again |
| Consumer.PoolReachable | cmd/event-processor/service/service.go:60-87 | Behind the broker the pool only reaches states it reaches under arbitrary deliveries |
| Consumer.BehindBroker | externals/msgbroker/msgbroker_localstack.go:127-361 | Every state the pool reaches under arbitrary deliveries it also reaches behind the broker, with nothing left pending |
| Consumer.NothingBlocked | externals/msgbroker/msgbroker_localstack.go:283-361 | Neither waits for the other: a pending message may be handed over in any state of the workers, and the workers may go on in any state of the broker |
| Amounts.Binary64IsExact | repository/repository_ent.go:374-391 | A run with float64 columns whose absolute amounts per account sum to at most 2^53 is, state for state, the rounding of a run with integer columns, in which only stored transfer amounts differ; both are the same run if and only if float64 represents every amount stored; and every reported int64 balance is the exact sum in any case |
| Amounts.ExactIffRepresentable | repository/repository_ent.go:374-391 | With no bound: a run with integer columns whose applied amounts are all representable is a run with float64 columns if and only if every balance at every step and every stored amount is representable |
| Amounts.StepIsExact | cmd/event-processor/service/service.go:192-208 | Within 2^53 a step with float64 columns is a step with integer columns if and only if the amounts it stores are representable |
| Float64.RoundNearest | repository/repository_ent.go:381 | The conversion and addition of balances round to a representable number, and none is closer |
| Float64.TiesToEven | repository/repository_ent.go:381 | Halfway cases go to the even significand |
| Float64.RoundExact | cmd/event-processor/service/service.go:197 | Integers up to 2^53 in magnitude survive the conversion to float64 |
| Float64.RoundsToItself | cmd/event-processor/service/service.go:197 | Exactly the representable integers survive it |
| Float64.FirstInexact | cmd/event-processor/service/service.go:197 | The bound is tight: 2^53 + 1 does not survive |
| Handlers.FailedTransferMovesNothing | cmd/event-processor/service/service.go:279-317 | In any run, a transfer that fails in a lookup or a creation, a lost creation race included, leaves by its own steps every existing balance and every token's total unchanged and adds only zero rows |
| Handlers.MintSucceedsIff | cmd/event-processor/service/service.go:214-244 | A mint succeeds exactly when the event has no receiver; or there is a token and the receiver holds it, or the key is (address, token), or the receiver holds no token at all; or there is no token and the receiver has a single row |
| Handlers.BurnSucceedsIff | cmd/event-processor/service/service.go:246-277 | The like for a burn and its sender |
| Handlers.MintLeaves | cmd/event-processor/service/service.go:214-244 | What a mint leaves: nothing changed if it fails or has no receiver; else the receiver's balance, 0 if it had no row, plus the value as the column adds it |
| Handlers.BurnLeaves | cmd/event-processor/service/service.go:246-277 | What a burn leaves: the like, less the value, but for the one value without an int64 negation, which is added |
| Handlers.MoveLeaves | cmd/event-processor/service/service.go:279-318 | What a transfer leaves: with both endpoints and a token, sender less the value and receiver plus it, also if they are the same account; after a failure no existing balance has changed |
| Handlers.SecondTokenRefused | ent/migrate/schema.go:18-29 | Under the generated key an address that holds one token cannot be minted another: the tables stay and the call fails |
| Programs.ProgramShape | cmd/event-processor/service/service.go:214-318 | In the calls of any message, a balance is changed only after its account was looked up, and every debit is followed at once by the credit of the same transfer |
| Programs.ProgramEffect | cmd/event-processor/service/service.go:152-212 | The calls of a message whose rows pass the validators add to each balance, and log for it, exactly what its events say: mint credits, burn debits, transfer does both |
| Programs.ProgramAmountsFit | cmd/event-processor/service/service.go:162-200 | Every amount that any message makes the ledger apply or store is an int64, also after negation |
| Programs.SavePointOp | cmd/event-processor/service/service.go:156-205 | The bulk insert of each transaction follows all the calls of its events, at a stated position of the message's calls |
| Programs.CheckedRowsNegatable | ent/transfer_create.go:173-177 | Rows that pass the positive-amount validator come from events whose value has an int64 negation |
| Model.ParseIff | cmd/event-processor/service/service.go:168 | A string parses to an int64 v exactly when it is an optional sign and digits whose canonical form, without plus sign and leading zeros, is how v is printed in decimal |
| Model.ReadAttrsMeaning | cmd/event-processor/service/service.go:162-173 | Reading the attributes fails exactly when some value attribute is not an int64; otherwise the last occurrence of each key wins |
| Meaning.KindsAndFuncs | cmd/event-processor/service/service.go:158-187 | An event is a transfer event exactly if its type reads "transfer", and a mint, burn or transfer exactly if its function reads so: letter by letter, up to ASCII case and the two other letters that lower-case to i and k |
| Meaning.LowerOfAscii | cmd/event-processor/service/service.go:158-179 | Lower-casing an ASCII text moves the letters A to Z by 32 and leaves all else |
| Meaning.FieldsOf | cmd/event-processor/service/service.go:162-173 | The fields of an event by its text: reading fails exactly on a value that is no int64; otherwise the last value of each key, or "" and 0 |
| Meaning.CallsOfEvent | cmd/event-processor/service/service.go:158-190 | The calls of an event by its text: none for another type, a failure for a bad value, a lookup and an increment for a mint with a receiver or a burn with a sender, two lookups and two increments for a transfer, none for another function |
| Meaning.SignOfIncrement | cmd/event-processor/service/service.go:225-317 | Mints and credits add the value, burns and debits subtract it, in 64 bits: the least int64 is its own negation |
| Meaning.CallsInOrder | cmd/event-processor/service/service.go:136-209 | The calls of a message: the block's transactions first, then transaction by transaction and event by event the calls of each event, and after a transaction's last event one insert of its transfers |
| Meaning.RowOfEvent | cmd/event-processor/service/service.go:192-200 | A transfer event stores one row, whatever its function: hash, function in lower case, addresses or null, token, amount in the column's type and denomination "ugnot"; any other event stores none |
| Meaning.RowsOfEvents | cmd/event-processor/service/service.go:192-205 | The rows of a transaction are those of its transfer events, one each, in their order |
| Meaning.EffectOfEvent | cmd/event-processor/service/service.go:175-190 | The fold's rule by the text: a mint credits its receiver, a burn debits its sender, a transfer does both, no other event does anything |
| Records.TransactionsAre | repository/repository_ent.go:148-178 | In every reachable state, for both kinds of columns: the row (h, tx) occurs as often as tx occurs in the message of height h whose first call is done, and not at all otherwise |
| Records.TransfersAre | repository/repository_ent.go:418-444 | After messages that all succeeded the transfers table holds each row as often as transfer events of the messages say it, field by field, and nothing else |
| Tables.TotalWrite | repository/repository_ent.go:374-391 | Writing one account row moves its own token's total by that row's change and no other total |
| EventProcessor.Service.ProcessBlockWithTransactions | cmd/event-processor/service/service.go:126-149 | Gate, transactions, ledger: the tables and the error result are those of the message's program, in full |
| EventProcessor.Service.ParseAndProcessTransactions | cmd/event-processor/service/service.go:152-212 | The nested loops execute the calls of all transactions in order up to the first failure, early returns included |
| EventProcessor.Service.ProcessTransaction | cmd/event-processor/service/service.go:156-209 | One transaction: its events' calls, then one bulk insert of all its transfers |
| EventProcessor.Service.ReadFields | cmd/event-processor/service/service.go:162-173 | The attribute loop fails exactly if some value is not an int64, and else returns the last value of each key |
| EventProcessor.Service.HandleMintEvent | cmd/event-processor/service/service.go:214-244 | The tables after minting, or after its failure: the one balance that changed, by how much, or none |
| EventProcessor.Service.HandleBurnEvent | cmd/event-processor/service/service.go:246-277 | The tables after burning, or after its failure: the one balance that changed, by how much, or none |
| EventProcessor.Service.HandleTransferEvent | cmd/event-processor/service/service.go:279-318 | The tables after a transfer: both balances that changed; or after a failure at any of its calls: every balance there was is unchanged |
| Repository.RepositoryEnt.AddBlock | repository/repository_ent.go:76-97 | A new height is stored; a taken height is reported as existing and an empty hash as an error, both without change |
| Repository.RepositoryEnt.AddTransactions | repository/repository_ent.go:148-178 | On a stored block the table grows by exactly the given transactions, row i being transaction i under that height; a missing hash is an error and a missing block row is swallowed, both without change |
| Repository.RepositoryEnt.AddAccount | repository/repository_ent.go:278-289 | The row is stored unless a validator or the account key refuses it |
| Repository.RepositoryEnt.GetAccount | repository/repository_ent.go:292-317 | The single row the non-empty arguments select; none is not an error, several are |
| Repository.RepositoryEnt.IncrementAccountBalance | repository/repository_ent.go:374-391 | The one row with the key changes by the amount, converted and added in the column's type; none when there is none, and both succeed |
| Repository.RepositoryEnt.AddTransfers | repository/repository_ent.go:418-444 | The table grows by one row for each transfer, field by field, its amount converted to the column's type, exactly if every one passes the validators and every address has an account; else it stays |
| Repository.RepositoryEnt.GetAccounts | repository/repository_ent.go:320-346 | Exactly the rows the non-empty arguments select |
| Repository.RepositoryEnt.GetBalances | repository/repository_ent.go:349-371 | One entry per token among the selected rows, summed up in some order with the additions of the column's type; this is their sum with integer columns, and with float64 columns if no token's absolute balances sum to more than 2^53 |
| Repository.SumsWithin | repository/repository_ent.go:349-371 | Below that bound the float64 sums are exact in whatever order they are made |
| Repository.SupplyQuery | repository/repository_ent.go:320-371 | The balance reported for a token without an address is the sum over all accounts of that token, and it is reported exactly if there is one |
| Synchronizer.Service.RestoreMissingBlockAndTransactions | cmd/block-synchronizer/service/service.go:102-191 | The loop leaves the checkpoint, the handed-over and the accepted messages of the specified run, cut off wherever the environment cuts it |
| Synchronizer.Service.PublishAll | cmd/block-synchronizer/service/service.go:174-187 | Messages are handed over in order up to the cut; those whose own publish fails are skipped, and no others |
| Synchronizer.AcceptedInOrder | cmd/block-synchronizer/service/service.go:182-185 | The published messages are exactly those at the positions whose publish is not refused, in order: a refused publish stops none of the others |
| Synchronizer.HowItEnds | cmd/block-synchronizer/service/service.go:135-188 | How any run ends, after how many windows, and which start it leaves saved, by the calls that return: finished at or above the height, no more blocks at an empty poll, stopped within a window; the saved start is that of the last window whose save returned |
| Synchronizer.Service.GetNotSequentialBlockNum | cmd/block-synchronizer/repository/repository_ent.go:42-55 | The saved start, or 1 when nothing was saved |
| Synchronizer.Service.SaveRestoringHistory | cmd/block-synchronizer/repository/repository_ent.go:58-76 | The single row is inserted or overwritten |
| Synchronizer.AssembleWindow | cmd/block-synchronizer/service/service.go:158-172 | The nested loops compute one message per block, in order, with the transactions of its height |
| Synchronizer.SelectInOrder | cmd/block-synchronizer/service/service.go:162-170 | A block's message holds exactly the polled transactions of its height, in their original order |
| Synchronizer.Grouping | cmd/block-synchronizer/service/service.go:158-172 | With distinct heights every polled transaction of a polled height is in exactly one message, its own block's, as often as it was polled; others are in none |
| Checkpoint.NeverAGap | cmd/block-synchronizer/service/service.go:135-187 | After any sequence of runs, each cut off at any step, every height from 2 to the saved start was handed to Publish with the chain's block and transactions |
| Checkpoint.RunFromSafe | cmd/block-synchronizer/service/service.go:145-148 | One run, cut off anywhere, keeps the checkpoint safe |
| Synchronizer.ReturningRun | cmd/block-synchronizer/service/service.go:135-188 | A run all of whose calls return takes exactly ceil((height-start)/100) windows, never hits the empty poll, hands over all their messages and publishes the accepted ones |
| Synchronizer.Coverage | cmd/block-synchronizer/service/service.go:135-143 | If besides every publish is accepted, it publishes all of them |
| Synchronizer.WindowsPartition | cmd/block-synchronizer/service/service.go:300-319 | Every height above the start lies in one window, number (h-start-1)/100, and in no other |
| Synchronizer.MessagesMatch | cmd/block-synchronizer/service/service.go:135-172 | An undisturbed run hands over only blocks of the chain, within the range |
| Synchronizer.MessagesCover | cmd/block-synchronizer/service/service.go:135-172 | It hands over every height of the range |
| Synchronizer.MessagesDistinct | cmd/block-synchronizer/service/service.go:135-172 | It hands over no height twice |
| Checkpoint.FirstBlockNeverRestored | cmd/block-synchronizer/repository/repository_ent.go:47-49 | No sequence of runs from an empty table hands over height 1 |
| Checkpoint.LivesHandOver | cmd/block-synchronizer/service/service.go:127-188 | From any saved start, no sequence of honest lives, cut off anywhere, hands over a height at or below that start, and the start never moves back |
| Checkpoint.NeverPublishedLater | cmd/block-synchronizer/service/service.go:127-188 | A height at or below the saved start that is not published by then is never published |
| Checkpoint.AcceptsIgnored | cmd/block-synchronizer/service/service.go:182-185 | Two runs that differ only in which publishes are accepted save the same checkpoint, hand over the same messages and end alike |
| Checkpoint.PublishedIffOwnPublish | cmd/block-synchronizer/service/service.go:174-187 | For a run cut off anywhere and each height: it is newly published if and only if the publish of that height, in the one window it lies in, was made and not refused |
| Checkpoint.PublishedInSomeLife | cmd/block-synchronizer/service/service.go:127-188 | Over any sequence of lives from an empty table, each cut off anywhere, a height is published if and only if in some life its own publish was made and not refused |
| Checkpoint.PublishesAllIff | cmd/block-synchronizer/service/service.go:174-187 | For a run all of whose calls return, every height above its start up to what it reached is newly published if and only if every publish of every window it went through is accepted |
| Checkpoint.LostForGood | cmd/block-synchronizer/service/service.go:174-187 | On every chain of at least 102 blocks there is an honest life that hands height 2 over, fails to publish it and saves a start of 101, and no later lives publish it |
| Broker.MsgBrokerLocalstack.Publish | externals/msgbroker/msgbroker_localstack.go:127-154 | A successful call puts the message on every linked queue of the topic and on no other; a failing one changes no queue |
| Broker.MsgBrokerLocalstack.Subscribe | externals/msgbroker/msgbroker_localstack.go:157-196 | A successful call adds one queue, linked to the topic also when others are, with its handler registered; a failing one leaves what the steps before the failing one did: nothing, or a queue that is not linked |
| Broker.MsgBrokerLocalstack.ProcessMessage | externals/msgbroker/msgbroker_localstack.go:320-361 | The message leaves its queue if and only if the handler returned nil and the deletion succeeded, and nothing else changes |
| Broker.StaysUntilHandled | externals/msgbroker/msgbroker_localstack.go:283-361 | Over any sequence of actions a pending message stays in its queue until its handler has returned nil on it |
| Broker.Delivery | externals/msgbroker/msgbroker_localstack.go:127-196 | A message published after a subscription is put on that subscriber's queue and stays there until it was handled |
| Broker.SubscriberGets | externals/msgbroker/msgbroker_localstack.go:127-361 | From a successful Subscribe on, whatever else is called, a message then published to the topic is in the subscriber's own queue until its handler returned nil on it |
| Broker.OnlyPublished | externals/msgbroker/msgbroker_localstack.go:127-154 | What is pending was published, to the queue's own topic |
| BulkSave.TransferCreateBulk.Save | ent/transfer_create.go:620-677 | For any list of builders, repeated ones included: the time of creation is set where none was and no other field changes; the batch insert is made at most once, exactly when every builder passes its check, with all mutations in builder order; all builders become done with the id of their first place, or none does |
| BulkSave.TransferCreateBulk.Mutate | ent/transfer_create.go:631-672 | The recursive chain from any builder on, with the specs collected so far |
| BulkSave.TransferCreate.Check | ent/transfer_create.go:145-190 | The first required field that is missing or fails its validator |
| BulkSave.TransferCreate.Defaults | ent/transfer_create.go:134-139 | The time of creation is set if there is none; no field that is set changes |
| BulkSave.FirstBadMeaning | ent/transfer_create.go:620-677 | The error names the earliest builder that fails, and there is one exactly when some builder fails |
| BulkSave.AddTransfersIsBulkSave | repository/repository_ent.go:418-444 | The ledger's AddTransfers is this bulk save, with the foreign keys deciding the insert |
| Cache.Controller.Receive | cmd/indexer-rest/controller/controller.go:68-84 | A response from the cache is non-empty, was finished by a handler with status 200 for a GET with the same key less than 60 seconds earlier, and the hit changes nothing; all other requests go to their handler |
| Cache.Controller.Finish | cmd/indexer-rest/controller/controller.go:86-109 | A handler that ran from any earlier moment until now, other requests in between, is answered with its own result, which is stored for 60 seconds from now exactly if it is a non-empty 200 for a GET |
| Cache.Controller.FindFromLocalCache | cmd/indexer-rest/controller/controller.go:150-160 | An entry is found exactly while it has not expired |
| Cache.SharedKey | cmd/indexer-rest/controller/controller.go:53-55 | Every request with a question mark in path or query shares its key with a request for another path |
| Cache.KeysIdentify | cmd/indexer-rest/controller/controller.go:53-55 | Equal keys mean equal path and query when the paths contain no question mark |
| Cache.OwnKeyIff | cmd/indexer-rest/controller/controller.go:53-55 | A request shares its key with no other if and only if neither its path nor its query contains a question mark |

## Left out

- Database outages in the sequential classes: there a call fails only for a reason in the data. In `Core` and `Pool` any call may fail or never return, and a failing call is taken to change nothing.
- SQL, Postgres and the generated query builders beyond keys, foreign keys and validators; hooks, interceptors and transactions.
- JSON encoding, the SNS envelope, queue policies, visibility timeouts and message retention; a broker message can be delivered any number of times.
- Subscribers of the broker other than the event processor: their handlers may answer anything.
- The live path's 1000-slot queue and ten workers, and the transactions its messages carry.
- Missing heights in a restoring poll: the chain is contiguous, and a poll returns what exists at that moment, in any order.
- The initial subscription for the latest block, its errors and the error of the first checkpoint read; the latest height is a parameter.
- Lower-casing beyond ASCII, except the two code points whose lower case is an ASCII letter.
- Float64 overflow to infinity, and the reading of a reported balance beyond int64 on other machines than amd64.
- Success.ProperSucceedsIff: stated for proper messages; for all others Success.SucceedsIff states the condition call by call.
- Timestamps, gas, memo, block totals and other fields that are copied unchanged.
- The cache's size policy (any entry may disappear at any time), a failing Set (a parameter), and a clock that runs backwards. The 60 seconds count from the end of the handler; how old the data was that it had read is not bounded.
- Gin routing and JSON response shapes, GraphQL and WebSocket transport, logging, configuration, shutdown and context cancellation.
- The simple queries GetTransfers, GetBlocks and their relatives, and the unimplemented GetMissingBlocks and GetBlocksMissingTxCount.

# A verified model of the loyalty ledger

Gophermart keeps a loyalty ledger in three tables: orders (owner, status, accrual), balances
(current, withdrawn) and withdrawals. Users register order numbers and withdraw points; a
poller asks an external accrual service about every pending order through a pool of workers
and commits what changed in one batch. This project models that system in Dafny and proves
what it keeps over whole runs. `dafny verify dfyconfig.toml` checks all of it.

## How the model is laid out

| module | models |
|---|---|
| `Luhn` | the order-number check, as loops over 64-bit words, against the formula of ISO/IEC 7812-1, Annex B |
| `Money` | `decimal(19,2)` cells: whole cents, rounding half away from zero, nineteen digits |
| `Tables` | the three tables and the meaning of each SQL statement, errors included |
| `Accounting` | how far each writer moves the balances table from what the other two tables imply |
| `Batches` | the chunked batch against posting order by order; when it goes through; permutations |
| `Pg` | `PgStore`: the writers and readers as methods over the table fields; a transaction is a local copy that reaches the fields at commit |
| `Service` | `HandleService`: number parsing, registration, withdrawal, balance, draining the results channel |
| `Pool`, `PoolProofs` | the worker pool as a step system over explicit channels and goroutine positions; every run of it |
| `Accrual` | `HandlersAccrual`: one poll cycle as a method; the bridge from pool runs to ledger events |
| `Ledger`, `LedgerProofs` | the whole system as a step system; every run of it |
| `Overdraft` | when balances stay non-negative: what the open withdrawals may still take |
| `Counterexamples` | runs from empty tables, and a batch, that show why the assumptions are there |
| `Retry` | the retry loop |

`Tables.FinishWithdraw`, `Tables.PostAll`, `Pool.Sequential` and the two `Step` functions are
the specifications; the methods are proved equal to them and the lemmas say what they mean.
Automatic induction is off for every lemma, so each proof is the body that is written down.

In `Ledger` a withdrawal reads the balance in one event and writes in another, a duplicate
registration looks up the owner in a later event, and a poll cycle reads, gets answers and
commits in three events; anything may happen in between. The methods of `Service` and
`Accrual` are proved to be these events with nothing in between. In `Pool` every channel
operation, context check and request is its own event, and cancellation may strike anywhere.

## Assumptions

Rows, owners and verdicts (`OrdersOnlyAdvance`, `OneOwnerForever`) and the exact accounts
(`CreditedAndOverwritten`, `CreditedOnceExact`, `AgreementExact`) hold in every run, whatever users
ask for and whatever the accrual service says. Other theorems add an assumption each:

* One poller runs. `TwoPollersCreditTwice` shows why; `BatchOverwrites` holds for any number.
* `TruthfulRun`: the accrual service never answers NEW, gives no negative accrual, and gives a
  nonzero accrual only with PROCESSED. The code checks none of this; `EarlyAccrualCreditsTwice`
  and `NewAgainRun` are runs without it, and `CreditedOnceExact` and `BackToNewExact` say exactly
  when an order is credited once and when it goes back to NEW.
* `PermittedRun`: a user without a balance row asks for no negative amount. The code does not
  check it; `NegativeWithdrawalBreaksAgreement` is an input without it, and `AgreementExact` says
  exactly when the books hold. `LawfulRun` is both assumptions.
* Withdrawals are covered along with the open ones when they start, because the read at
  internal/common/store/pg/pg.go:165 takes no lock. Having one withdrawal of a user open at a
  time is enough (`NeverOverdrawn`), but not needed: `NeverOverdrawnExact` says that being covered
  is what decides. `OverlappingWithdrawalsOverdraw` is a run without it.
* The writes of one transaction appear at once. Each writer locks the balance rows it changes
  until it commits, and the statements on a row are increments of its latest version.
* A failed commit has written nothing.
* A missing balance row is reported to the service as a missing row (the driver's no-rows error
  matches the one the store tests for).

## What the proofs show about the code

* The debiting upsert stores +sum in both columns when it creates the row. That is right only
  because the guard leaves nothing but a zero sum for a user without a row, also when the read
  and the write are separated.
* The order update has no status guard and the credit is unconditional, so exactly-once
  crediting is a property of the whole system, not of a statement: it holds exactly as long as no
  commit names an order that carries an accrual already (`CreditedOnceExact`). Sums per user do not
  show when it fails (`AgreementHidesOverwriting`).
* An error in decoding a 200 reply is recorded and never read. If the decoder had set no
  status, the order arrives in the batch with one the enum column refuses, and the whole batch
  of that cycle is rolled back (`BatchAcceptedExact`). If it had, as with a good status beside
  an accrual of the wrong type, the status is committed with the accrual the decoder left.
* A cancelled call may return a partial answer, even an empty one, without an error, whatever the
  orders and the workers (`CancellationCanLoseOrders`); `ReturnedExact` and `CompleteExact` say
  which answers are missing and when none is. A request whose body is cut short by cancellation
  still arrives as a 200; nothing wrong can come of it, since the consumer tests the context
  before it uses a result (`CancelledPoolIsPartial`).
* With no workers the pool returns an empty answer without an error (`PoolIsSequentialExact`).

## Model

| member | source | states |
|---|---|---|
| Luhn.ChecksumLuhn | internal/common/utils/common.go:122-139 | the loop computes the alternating sum modulo 10, in at most twenty rounds, and no 64-bit operation wraps |
| Luhn.ValidLuhn | internal/common/utils/common.go:118-120 | for every 64-bit number the verdict is that of the positional Luhn formula on its decimal digits |
| Luhn.LoopMeetsStandard | internal/common/utils/common.go:118-139 | any digit string, leading zeros or not, satisfies the standard's formula exactly when the loop accepts the number it denotes |
| Luhn.LeadingZeros | internal/common/utils/common.go:118-139 | prefixing zeros changes neither the number nor the verdict |
| Luhn.SingleDigitDetected | internal/common/utils/common.go:118-139 | changing any one digit of a valid number, at any position, makes it invalid |
| Luhn.TranspositionDetected | internal/common/utils/common.go:118-139 | swapping adjacent digits of a valid number leaves it valid exactly when they are equal or are 0 and 9 |
| Luhn.OneCheckDigit | internal/common/utils/common.go:118-120 | every prefix has exactly one check digit |
| Luhn.OneInTen | internal/common/utils/common.go:118-120 | exactly N of the numbers below 10N are valid |
| Money.CentsMonotone | internal/gophermart/app/migrations/00003_create_balances_table.sql:5-6 | rounding to a cell keeps the order of amounts |
| Money.CentsOfCell | internal/gophermart/app/migrations/00003_create_balances_table.sql:5-6 | an amount read from a cell is stored back unchanged |
| Money.CentsNearest | internal/gophermart/app/migrations/00003_create_balances_table.sql:5-6 | a cell stores a nearest cent |
| Money.CentsTies | internal/gophermart/app/migrations/00003_create_balances_table.sql:5-6 | half a cent is rounded away from zero, on both sides |
| Money.AmountExact | internal/gophermart/app/migrations/00003_create_balances_table.sql:5-6 | a cell of c cents reads as exactly c hundredths |
| Money.CellExact | internal/gophermart/app/migrations/00003_create_balances_table.sql:5-6 | a cell holds nineteen digits of cents and no more |
| Tables.BigintExact | internal/gophermart/app/migrations/00002_create_orders_table.sql:12-13 | an id column holds numbers up to 9223372036854775807 |
| Money.GuardCoversRounding | internal/common/store/pg/pg.go:172-176 | an unrounded amount that passes the guard is covered after rounding too |
| Accounting.InsertOrderDrift | internal/common/store/pg/pg.go:111-113 | registering an order moves no user's balance away from the history |
| Accounting.WithdrawDrift | internal/common/store/pg/pg.go:134-138 | a successful withdrawal shifts cache against history by twice the amount if it created the balance row, by nothing otherwise |
| Accounting.WithdrawAgreementExact | internal/common/store/pg/pg.go:165-205 | a successful withdrawal of any amount keeps cache and history in agreement if and only if its user had a row or the amount rounds to zero |
| Accounting.GuardForcesZero | internal/common/store/pg/pg.go:165-176 | for non-negative amounts the row-creating branch runs only for zero and writes zeros |
| Accounting.WithdrawOutcomeExact | internal/common/store/pg/pg.go:149-206 | for any amount, exactly when an undisturbed withdrawal succeeds and exactly when its order number is reported as used; a covered amount that is not negative always leaves a balance its cell can hold |
| Accounting.NegativeWithdrawalBreaksAgreement | internal/gophermart/service/service.go:132 | a concrete negative amount, accepted for a user without a row, that leaves a balance with no history behind it |
| Accounting.BatchDrift | internal/common/store/pg/pg.go:383-397 | a batch of distinct orders moves each user's balance away from the history by exactly the accruals it overwrites |
| Accounting.BatchAgreementExact | internal/common/store/pg/pg.go:140-146 | a batch keeps cache and history in agreement if and only if the accruals it overwrites sum to zero for every user |
| Accounting.TwoPollersCreditTwice | internal/gophermart/accrual/accrual.go:61-99 | two cycles that read before either commits credit an order twice |
| Batches.ChunkIsOneByOne | internal/common/store/pg/pg.go:383-394 | a chunk, all updates and then all credits, does what posting its orders one by one does, errors included |
| Batches.ChunkContinues | internal/common/store/pg/pg.go:378-397 | sending the next chunk continues the one-by-one pass over the whole list, or shows that the pass fails |
| Batches.BatchOrders | internal/common/store/pg/pg.go:145-146 | every named row takes its entry's status and accrual and keeps its owner, no other row changes |
| Batches.BatchBalances | internal/common/store/pg/pg.go:140-143 | every balance grows by exactly what is credited to its user, nothing is withdrawn, rows appear only for credited users |
| Batches.BatchAcceptedExact | internal/common/store/pg/pg.go:392-396 | whatever the signs, a batch goes through if and only if every entry is storable and no balance leaves its cell at any point of the pass |
| Batches.SomeOrderAcceptedExact | internal/common/store/pg/pg.go:378-397 | whatever the signs, some order of the entries goes through if and only if all are storable and every user's total fits its cell |
| Batches.AnyOrderAcceptedExact | internal/common/store/pg/pg.go:378-397 | every order of the entries goes through if and only if all are storable and each balance has room for all its gains and for all its losses |
| Batches.PermutedResult | internal/common/store/pg/pg.go:378-397 | two orders of the same entries that both go through end in the same tables, whatever the signs |
| Batches.OrderIrrelevantExact | internal/common/store/pg/pg.go:378-397 | the order of the entries decides nothing, neither success nor result, if and only if no order goes through or each balance has room for all its gains and for all its losses |
| Batches.PermutedBatch | internal/common/store/pg/pg.go:378-397 | in particular it decides nothing without negative accruals |
| Batches.OrderMattersAtTheLimit | internal/gophermart/app/migrations/00003_create_balances_table.sql:5 | a concrete pair of entries, one negative, for which the order decides success |
| Pg.PgStore.InsertOrder | internal/common/store/pg/pg.go:208-223 | one new row exactly for a storable record with a fresh number, already-exists exactly for one whose number is taken, failure otherwise; any error leaves all tables as they were |
| Pg.PgStore.InsertWithdraw | internal/common/store/pg/pg.go:149-206 | the three statements and their guard, all or nothing wherever the database fails; success records one fresh withdrawal and changes one balance |
| Pg.PgStore.UpdateOrdersBalancesBatch | internal/common/store/pg/pg.go:355-399 | for every limit the chunked loop ends, equals the one-by-one pass, succeeds exactly when that pass and every statement do, and otherwise changes nothing |
| Pg.PgStore.GetOrdersForProcessing | internal/common/store/pg/pg.go:333-353 | every NEW, REGISTERED or PROCESSING row exactly once with its number, owner, status and accrual, nothing else |
| Pg.PgStore.GetOneOrder | internal/common/store/pg/pg.go:225-237 | the row, or an error exactly when it is missing or the query fails |
| Pg.PgStore.GetBalance | internal/common/store/pg/pg.go:239-254 | the row, or row-not-found with zeros, or the failure |
| Service.ParseExact | internal/gophermart/service/service.go:143-149 | a text parses as n if and only if n is below 2^64 and the text is the decimal form of n behind any number of zeros |
| Service.OrderNumberParses | internal/gophermart/service/service.go:143-149 | parsing and checking accept exactly the digit strings below 2^64 that satisfy the Luhn formula |
| Service.HandleService.RegisterOrder | internal/gophermart/service/service.go:142-171 | which of the outcomes is given for which texts and tables, and that only acceptance changes the tables, by one NEW row; tables and answer are those of the ledger's registration events with nothing in between |
| Service.HandleService.PostWithdraw | internal/gophermart/service/service.go:118-140 | the outcome for every input, and the exact effect of the only one that changes the tables; the tables are those of the ledger's two withdrawal events with nothing in between |
| Service.HandleService.GetBalance | internal/gophermart/service/service.go:205-221 | a user without a row has zero of both |
| Service.HandleService.DrainResults | internal/gophermart/service/service.go:273-291 | the loop returns the fold of everything received, or nothing once the context is cancelled |
| Pool.MakeResult | internal/common/httpclientpool/httpclientpool.go:122-134 | a result keeps the number and owner of its job whatever the reply, takes status and accrual from a 200 only and marks a transport error as failed |
| PoolProofs.SequentialMeaning | internal/gophermart/service/service.go:279-288 | asking in sequence yields exactly the orders answered with code 200 with the status and accrual of the reply, and the larger of zero and the longest Retry-After of the replies with code 429 |
| PoolProofs.OrdersConserved | internal/gophermart/service/service.go:246-291 | in every reachable state the places an order can be account for every input order exactly once; only cancellation drops any |
| PoolProofs.ChannelSafety | internal/common/httpclientpool/httpclientpool.go:139-144 | nobody is ever about to send on a closed channel, and both channels stay within twice the worker count |
| PoolProofs.BlockedExact | internal/gophermart/service/service.go:261-262 | a send blocks exactly while twice as many items as workers are buffered, a receive exactly while its channel is empty and open, and cancellation may strike at any time |
| PoolProofs.PoolIsSequential | internal/gophermart/service/service.go:260-292 | every uncancelled schedule with a worker returns what asking in sequence returns |
| PoolProofs.PoolIsSequentialExact | internal/gophermart/service/service.go:260-292 | an uncancelled call returns the sequential answer if and only if there is a worker or that answer is empty |
| PoolProofs.NoWorkersNoAnswers | internal/gophermart/service/service.go:262-272 | without workers nothing is queued and the answer stays empty |
| PoolProofs.CancelledPoolIsPartial | internal/gophermart/service/service.go:275-291 | under cancellation at any moment the answer is part of the sequential one, reply for reply |
| PoolProofs.CancelledRunWindsDown | internal/common/httpclientpool/httpclientpool.go:112-114 | after cancellation no request begins, no order but the one in hand is queued and no result is tallied |
| PoolProofs.LookAfterCancelFails | internal/gophermart/service/service.go:275-277 | a call that looks at a result under a cancelled context ends with an error, whatever happens later |
| PoolProofs.ConsumerDrains | internal/gophermart/service/service.go:273-291 | in every run a returning consumer has folded everything it received, and a failing one had a result left, as `DrainResults` does |
| PoolProofs.ReturnedExact | internal/gophermart/service/service.go:275-291 | a call that returns without an error, cancelled or not and with any number of workers, returns exactly the sequential answer to the orders neither unsent, nor left in the queue, nor dropped |
| PoolProofs.MissingExact | internal/gophermart/service/service.go:279-284 | an answer is missing if and only if its order was lost, and those present are the sequential ones |
| PoolProofs.CompleteExact | internal/gophermart/service/service.go:260-292 | the answer is complete if and only if no answered order was lost and the longest wait was asked for an order that was not |
| PoolProofs.CancellationCanLoseOrders | internal/gophermart/service/service.go:246-257 | for all orders, workers and replies, a run that returns an empty answer without an error |
| PoolProofs.SurelyCompleteExact | internal/gophermart/service/service.go:260-292 | a call that may be cancelled is sure to be complete if and only if the sequential answer is empty |
| PoolProofs.SomebodyCanStep | internal/gophermart/service/service.go:246-291 | until the caller has its answer some goroutine can step, cancelled or not |
| PoolProofs.WorkShrinks | internal/common/httpclientpool/httpclientpool.go:107-137 | every step of any goroutine leaves less work |
| PoolProofs.EveryRunEnds | internal/gophermart/service/service.go:260-292 | every run ends within a linear bound; one that cannot go on has answered its caller, and uncancelled with a worker has left no goroutine behind |
| PoolProofs.SequentialIsReached | internal/gophermart/service/service.go:260-292 | with a worker every input has an uncancelled run to the end, returning the sequential answer |
| Accrual.HandlersAccrual.ChangedOrders | internal/gophermart/accrual/accrual.go:83-91 | the loop computes the changed-status filter |
| Accrual.HandlersAccrual.PollOnce | internal/gophermart/accrual/accrual.go:55-102 | with any pool, cancelled or not, the exact outcome for the listing read: what was changed is posted and committed exactly when the database accepts it, otherwise no table changes, and the wait is the one the pool returned; a committed cycle is the ledger's poll, reply and commit with nothing in between; the books stay in agreement when only processed orders carry accruals |
| Accrual.OutcomeLaw | internal/gophermart/accrual/accrual.go:83-97 | when the pool loses nothing, every NEW, REGISTERED or PROCESSING row answered 200 with another status ends with that status, its owner and the accrual in cents, every other row as it was, unless the batch was refused |
| Accrual.OutcomeWait | internal/gophermart/accrual/accrual.go:73-76 | the next wait is zero or a Retry-After of a 429 about a NEW, REGISTERED or PROCESSING order, the longest one when the pool loses nothing |
| Accrual.PoolFeedsLedger | internal/gophermart/accrual/accrual.go:73-91 | whatever a pool run over a snapshot returns, complete or partial, is an answer the ledger's poll cycle admits |
| LedgerProofs.ChangedPicks | internal/gophermart/accrual/accrual.go:84-91 | the filter picks exactly the answers whose status differs from the snapshot's |
| LedgerProofs.StepShape | internal/common/store/pg/pg.go:149-399 | every step of any request or of the poller keeps the invariant: snapshots and updates still fit their rows, numbers are Luhn-valid, verdicts are right |
| LedgerProofs.StepAdvances | internal/common/store/pg/pg.go:145-146 | every step keeps rows, owners and terminal rows, and brings an order back to NEW if and only if it commits that status |
| LedgerProofs.AgreementExact | internal/common/store/pg/pg.go:131-146 | in any run what a user has withdrawn is the sum of their withdrawals, and cache and history agree throughout if and only if no step overwrites their accruals by a nonzero sum or creates their row with an amount |
| LedgerProofs.LedgerAgrees | internal/common/store/pg/pg.go:131-146 | in every reachable state of a lawful run each user's withdrawn is the sum of their withdrawals and current plus withdrawn is the sum of their orders' accruals and of everything credited to them |
| LedgerProofs.BatchOverwrites | internal/common/store/pg/pg.go:140-146 | one batch, however many pollers there are, leaves what an order was paid ahead of what it carries by the accrual it carried before |
| LedgerProofs.CreditedAndOverwritten | internal/gophermart/accrual/accrual.go:61-99 | in any run an order has been credited what it carries and every accrual ever overwritten on it |
| LedgerProofs.CreditedOnceExact | internal/gophermart/accrual/accrual.go:61-99 | in any run an order is credited exactly its stored accrual throughout if and only if no commit names it while it carries one |
| LedgerProofs.OnePartExact | internal/gophermart/accrual/accrual.go:61-99 | the same condition decides whether all it was paid came in its last payment |
| LedgerProofs.CreditedExactlyOnce | internal/gophermart/accrual/accrual.go:61-99 | with a truthful service an order has been credited exactly its stored accrual, nothing before PROCESSED, only to its owner, never in two parts |
| LedgerProofs.OrdersOnlyAdvance | internal/common/store/pg/pg.go:120-121 | between any two moments of any run no order disappears or changes owner and PROCESSED and INVALID rows never change; none returns to NEW unless a commit sets that |
| LedgerProofs.BackToNewExact | internal/gophermart/accrual/accrual.go:84-91 | a step of any run brings an order back to NEW if and only if it commits that status for it |
| LedgerProofs.NeverNewAgain | internal/gophermart/accrual/accrual.go:84-91 | with a truthful service no order ever returns to NEW |
| LedgerProofs.OneOwnerForever | internal/gophermart/service/service.go:142-171 | in any run a number is accepted at most once; every other definite verdict comes later and says truly whether the submitter is its owner; accepted numbers are Luhn-valid |
| LedgerProofs.EveryRequestEndsOnce | internal/gophermart/service/service.go:142-171 | in any run every registration is answered once and every withdrawal that began ends at most once |
| Ledger.RequestsNeverWait | internal/common/store/pg/pg.go:149-223 | in every state anybody may register any valid number, start any withdrawal and go on with an open one |
| Ledger.PollerNeverWaits | internal/gophermart/accrual/accrual.go:55-102 | from every point of its cycle the poller can go on, or give up and start the next |
| Ledger.DocumentedRepliesHonest | SPECIFICATION.md:337-347 | every reply the service's documentation allows keeps the assumed promise |
| Overdraft.CoveredNeverOverdrawn | internal/common/store/pg/pg.go:165-176 | if every withdrawal is covered when it starts, along with what its user's open ones may still take, no balance is negative in any reachable state, whatever overlaps |
| Overdraft.NeverOverdrawn | internal/common/store/pg/pg.go:165-176 | with each user's withdrawals serialised, no balance is negative in any reachable state |
| Overdraft.SettlingKeepsSlack | internal/common/store/pg/pg.go:134-138 | whatever open withdrawals end and in whatever order, no more is taken from a balance than its exposure shrinks |
| Overdraft.ExposureTaken | internal/common/store/pg/pg.go:134-138 | ending open withdrawals can take exactly the whole exposure from a balance |
| Overdraft.OverdraftExact | internal/common/store/pg/pg.go:165-205 | wherever a run has got to, ending open withdrawals can leave a user a negative balance if and only if together they may take more than there is; faulted, refused and used-up ones count nothing, those for one number only once |
| Overdraft.CoverExact | internal/common/store/pg/pg.go:172-176 | starting a withdrawal makes an overdraft possible if and only if the balance does not cover it along with the open ones |
| Overdraft.NeverOverdrawnExact | internal/common/store/pg/pg.go:165-205 | along a lawful run nobody can ever be overdrawn if and only if every withdrawal is covered when it starts |
| Overdraft.CellsAlwaysFit | internal/gophermart/app/migrations/00003_create_balances_table.sql:5-6 | no reachable state holds a balance its cell cannot hold |
| Counterexamples.EarlyAccrualCreditsTwice | internal/gophermart/accrual/accrual.go:84-91 | a run in which an accrual named before PROCESSED is credited twice |
| Counterexamples.NewAgainRun | internal/gophermart/accrual/accrual.go:84-91 | a run in which an order goes back to NEW |
| Counterexamples.AgreementHidesOverwriting | internal/common/store/pg/pg.go:140-146 | a batch that credits two accruals once more while every user's sums agree |
| Counterexamples.OverlappingWithdrawalsOverdraw | internal/common/store/pg/pg.go:165-176 | a lawful run in which two withdrawals read before either writes, and the balance ends at minus one point |
| Retry.RetryAction | internal/common/utils/common.go:68-111 | at most one call more than there are timers, pauses in timer order between calls, retries exactly the errors some prober accepts or all when there are no probers, and the three reasons to stop |
| Retry.RetryWithoutProbers | internal/common/store/pg/pg.go:77 | with the start-up timers, no probers and a call that always fails: four calls and pauses of 1000, 3000 and 5000 |

## Left out

- NeverOverdrawn: asks for serialised withdrawals of one user, which the code does not enforce; `NeverOverdrawnExact` has the exact condition.
- OverdraftExact: looks at the withdrawals open at one moment with no credit in between, which could make up for an overdraft before anybody sees it, and takes the withdrawn cell to have room for them.
- PollOnce: models one cycle without interference from requests; `Ledger` interleaves its parts with them.
- HTTP handlers, routing, tokens, cookies, compression and logging are plumbing over libraries.
- The HTTP client is an arbitrary reply per order and cycle: a status code with its fields, or a transport error.
- Password hashing, request signatures, user registration and login hold no ledger state.
- Timestamps and the order of listings; real time and the length of a sleep. The wait is kept as a number.
- `GetOrders` and `GetWithdrawals` copy rows element by element.
- Job numbers (`newJid`) are carried through the pool and read by nobody.
- After the caller has its answer, a goroutine abandoned by cancellation may stay blocked; only the caller's return is claimed.
- An unknown commit outcome, where the connection breaks after the database committed.
- A negative batch limit, which nothing in the program can set.

# Money movement in the management-system service, modelled in Dafny

This project models the money-movement core of a Spring banking service as
pure functions and small methods over explicit state:

- **Lock store** (`LockManager`, for `RedisLockManager`): a map from lock key
  to the lease holding it. Acquire is "set if absent". Release deletes a key
  only when it is held under the caller's token.
- **Synchronous transfer** (`AccountService`): validate the request, build a
  lock pair keyed by the smaller then the larger owner id with one shared
  token, acquire the first key and then the second, read the sender and then
  the receiver, check funds, and move the amount. The second key and then the
  first are released on every path that passed validation. Every call made on
  the lock manager is recorded in order. The same module holds `createAccount`
  and the service-side `applyInterest`.
- **Transfer records** (`TransferService`): `createTransfer` persists a
  PENDING record. The drainer runs each listed PENDING record through the
  synchronous transfer and marks it SUCCESS or FAILED. Failures never stop
  the batch.
- **Interest job** (`Interest`, with the rules in `InterestPolicy`): gated by
  `enabled`. Every eligible account (balance below
  `initialDeposit * maxMultiplier`) becomes `min(balance * rate, ceiling)`.
  All fetched accounts are saved. Their owners' cached balances are then
  evicted. Without a cache manager, eviction is skipped. A cache manager
  without the balance cache makes the first eviction throw after the save.

`BigDecimal` arithmetic is modelled with Dafny `real`, which is exact.
Exceptions become the `Errors.Error` datatype. There is one constructor per
exception class, and the classes are kept distinct: `IllegalArgument`,
`AccountNotFound`, `InsufficientFunds`, `TransferFailed` (for
`TransferException`), `NullReference` (for `NullPointerException`). An
operation that may throw returns an `Outcome` or a `Result`, or a record that
carries one. Lock-store operations that cannot fail return the new store. The accounts table is a map from the owning user's id
to `(balance, initialDeposit)`. `Ledger.Total` is the sum of all balances.

Some inputs come from outside the code and are passed in as parameters: the
random lock token (`UUID.randomUUID`), the creation time (`LocalDateTime.now`),
the database identity of a new transfer record, the id list that the status
query returns, and what the cache manager offers.

Files: `errors.dfy`, `long_text.dfy` (the decimal text of a `long`, used in
lock keys), `lock_manager.dfy`, `ledger.dfy`, `interest_policy.dfy`,
`account_service.dfy`, `interest.dfy`, `transfer_service.dfy`.

## Code and tests disagree

The model follows the code in each of these cases:

- The two lock-key prefixes differ. The first key is `"transfer - lock:" + min`
  (with spaces) and the second is `"transfer-lock:" + max`
  (src/main/java/com/taco/managementsystem/service/AccountService.java:103-104).
  The unit test expects `transfer-lock:1` and `transfer-lock:2`.
  Because of this, the key locked for one owner depends on whether that owner
  is the smaller or the larger id of its pair
  (`AccountService.OwnerKeyDependsOnPosition`). So transfers 1→2 and 2→3 do
  not contend on owner 2.
- A self-transfer raises `IllegalArgumentException`. The test expects
  `TransferException`.
- When the first lock is busy, the code raises `InsufficientFundsException`.
  The test expects `TransferException`.
- When the first acquire fails, the `finally` block still releases both keys,
  including keys this call never held. The token check makes those releases
  no-ops when the token is fresh (`AccountService.TransferRestoresLocks`).
- The service check in `createAccount` lets a deposit of zero through,
  although its message says "greater than zero". The entity annotates
  `initialDeposit` as `@Positive`, so bean validation at save time may still
  refuse such an account. That validation is not modelled.
- `createTransfer` has no self-transfer check. Such a record is accepted as
  PENDING and later becomes FAILED (`TransferService.SelfTransferRecordFails`).
- The scheduled `interest` job saves every fetched account, even an unchanged
  one such as a zero balance. `applyInterest` writes only the balances that
  change and does not consult `enabled`.

## Model

| member | source | states |
|---|---|---|
| LockManager.AcquireLock | src/main/java/com/taco/managementsystem/redis/RedisLockManager.java:14-23 | succeeds iff the key was absent; on success the key is held under the caller's token with the given expiry, or 30 seconds when the timeout is null; every existing key keeps its lease; on failure the store is unchanged |
| LockManager.ReleaseLock | src/main/java/com/taco/managementsystem/redis/RedisLockManager.java:25-30 | the key disappears iff it was held under the caller's token; otherwise (foreign, stale or absent) the store is unchanged; no other key is affected |
| LockManager.AcquireReleaseRoundTrip | src/main/java/com/taco/managementsystem/redis/RedisLockManager.java:16-30 | acquiring a free key and releasing it with the same token restores the store exactly |
| LockManager.HeldKeyIsExclusive | src/main/java/com/taco/managementsystem/redis/RedisLockManager.java:17-29 | a caller with another token can neither release nor take over a held key |
| LockManager.ReleaseAbsentKey | src/main/java/com/taco/managementsystem/redis/RedisLockManager.java:26-27 | releasing a key nobody holds is a no-op |
| LongText.LongToString | src/main/java/com/taco/managementsystem/service/AccountService.java:103-104 | the decimal text of an owner id is non-empty and starts with '-' exactly for negative ids |
| LongText.LongToStringInjective | src/main/java/com/taco/managementsystem/service/AccountService.java:103-104 | distinct owner ids give distinct texts (via a parse round trip) |
| Ledger.FindByUserId | src/main/java/com/taco/managementsystem/repository/AccountRepository.java:19-21 | finds an account iff the user owns one, and returns that account |
| Ledger.TotalUpdate | src/main/java/com/taco/managementsystem/service/AccountService.java:136-137 | replacing one account changes the ledger total by exactly that account's balance change |
| InterestPolicy.DefaultConfig | src/main/java/com/taco/managementsystem/config/InterestProperties.java:16-27 | the defaults (rate 1.10, multiplier 2.07, 30000 ms, enabled) meet the validated bounds rate >= 1.01, multiplier >= 1.01, schedule >= 1000 |
| InterestPolicy.Grow | src/main/java/com/taco/managementsystem/util/Interest.java:32-34 | the new balance is balance*rate or the ceiling, whichever is smaller: never above either; the initial deposit is kept |
| InterestPolicy.Accrued | src/main/java/com/taco/managementsystem/repository/AccountRepository.java:23-24 | one pass keeps the owners and deposits; accounts not below their ceiling are untouched; eligible ones end at or below their ceiling |
| InterestPolicy.GrowNeverDecreases | src/main/java/com/taco/managementsystem/util/Interest.java:32-34 | with rate >= 1.01 and balance >= 0 an eligible balance never decreases |
| InterestPolicy.GrowChangesPositive | src/main/java/com/taco/managementsystem/service/AccountService.java:57-64 | with a valid rate, an eligible non-negative balance changes exactly when it is positive |
| InterestPolicy.RepeatedAccrualKeepsDeposit | src/main/java/com/taco/managementsystem/util/Interest.java:31-35 | any number of passes leaves the initial deposit, hence the ceiling, unchanged |
| InterestPolicy.RepeatedAccrualFixesCapped | src/main/java/com/taco/managementsystem/util/Interest.java:28-34 | an account at or above its ceiling is left exactly as it is by any number of passes |
| InterestPolicy.RepeatedAccrualBounded | src/main/java/com/taco/managementsystem/util/Interest.java:28-34 | after any number of passes a balance is at most the larger of its start value and its ceiling |
| InterestPolicy.RepeatedAccrualMonotone | src/main/java/com/taco/managementsystem/util/Interest.java:32-34 | with a valid configuration, any number of passes never lowers a non-negative balance |
| AccountService.CreateAccount | src/main/java/com/taco/managementsystem/service/AccountService.java:32-44 | a negative deposit is rejected with IllegalArgument and zero passes the service check; the new account has balance = initial deposit = deposit; other accounts are unchanged; the total grows by the deposit |
| AccountService.ValidateTransferRequest | src/main/java/com/taco/managementsystem/service/AccountService.java:90-97 | passes iff amount > 0 and the parties differ; a bad amount is reported before a self-transfer |
| AccountService.CreateLockPair | src/main/java/com/taco/managementsystem/service/AccountService.java:99-106 | both keys carry the one token; the two keys always differ and carry their prefixes |
| AccountService.LockPairCanonical | src/main/java/com/taco/managementsystem/service/AccountService.java:99-106 | the pair does not depend on the transfer's direction; the first key names min(from,to), the second max(from,to) |
| AccountService.LockPairIdentifiesOwners | src/main/java/com/taco/managementsystem/service/AccountService.java:99-106 | equal key pairs mean the same two owners |
| AccountService.OwnerKeyDependsOnPosition | src/main/java/com/taco/managementsystem/service/AccountService.java:103-104 | an owner locked as the larger id of one pair and the smaller id of another gets two different keys |
| AccountService.AcquireLocks | src/main/java/com/taco/managementsystem/service/AccountService.java:108-127 | succeeds iff both keys were free; a busy first key gives InsufficientFunds with the second never tried and the store unchanged; a busy second key gives TransferFailed with the first key left held |
| AccountService.ReleaseLocks | src/main/java/com/taco/managementsystem/service/AccountService.java:140-144 | releases the second key then the first; afterwards neither is held under the token; every lease held under another token survives |
| AccountService.GetAccountWithLock | src/main/java/com/taco/managementsystem/service/AccountService.java:146-150 | returns the owner's account, or AccountNotFound tagged Sender or Receiver with the id |
| AccountService.PerformTransfer | src/main/java/com/taco/managementsystem/service/AccountService.java:129-138 | sender checked before receiver, then funds; success iff both exist and the sender covers the amount; the sender loses and the receiver gains exactly the amount, nothing else changes, pair sum and total preserved |
| AccountService.TransferMoney | src/main/java/com/taco/managementsystem/service/AccountService.java:74-88 | succeeds iff valid, both keys free, both accounts present and funded; a failed validation makes no lock call and changes nothing; otherwise the whole call trace is fixed: acquire first, release second, release first when the first key was busy; acquire first, acquire second, release second, release first otherwise; failures leave balances unchanged; the total is preserved |
| AccountService.TransferErrorOrder | src/main/java/com/taco/managementsystem/service/AccountService.java:108-135 | after validation the reported error is, in order: first lock busy, second lock busy, sender missing, receiver missing, insufficient balance |
| AccountService.TransferRestoresLocks | src/main/java/com/taco/managementsystem/service/AccountService.java:81-87 | with a fresh token the lock store ends exactly as it started on every path: what was acquired is released and no other holder's lock is freed |
| AccountService.LockOrderIndependentOfDirection | src/main/java/com/taco/managementsystem/service/AccountService.java:99-127 | transfers a→b and b→a make the same lock calls in the same order |
| AccountService.TransferKeepsNonNegative | src/main/java/com/taco/managementsystem/service/AccountService.java:132-137 | a transfer never makes a non-negative ledger negative |
| AccountService.TransferExample | src/test/java/com/taco/managementsystem/testservice/AccountServiceTest.java:70-91 | 500/200 with 100 gives 400/300, both locks released once and the store empty again (keys as the code writes them) |
| AccountService.ApplyInterest | src/main/java/com/taco/managementsystem/service/AccountService.java:46-71 | the ledger becomes one capped-growth pass; an account is written iff its balance changes; with a valid configuration that is exactly the eligible positive balances |
| Interest.RunInterest | src/main/java/com/taco/managementsystem/util/Interest.java:23-52 | disabled: nothing changes, is saved or evicted; enabled: the ledger becomes one capped-growth pass, every eligible account is saved, accounts not saved are unchanged; with the balance cache every saved owner is evicted; without a cache manager nothing is evicted; without the balance cache nothing is evicted and the run fails with a null reference exactly when something was saved |
| Interest.RunRespectsCeiling | src/main/java/com/taco/managementsystem/util/Interest.java:31-35 | a processed account ends at or below its ceiling and, with a valid configuration, not below its start balance |
| TransferService.CreateTransfer | src/main/java/com/taco/managementsystem/service/TransferService.java:33-54 | amount <= 0 gives IllegalArgument, a null or unknown user gives AccountNotFound, and neither persists anything; otherwise exactly one new PENDING record with the given parties, amount and time |
| TransferService.ProcessTransfer | src/main/java/com/taco/managementsystem/service/TransferService.java:70-90 | missing id gives AccountNotFound and changes nothing; a non-PENDING record is left alone with no transfer run; a PENDING one becomes SUCCESS iff the transfer succeeded, else FAILED, without propagating the error; only allowed status changes; total preserved |
| TransferService.ProcessTransferIdempotent | src/main/java/com/taco/managementsystem/service/TransferService.java:75-77 | processing the same record a second time changes nothing |
| TransferService.FinalStatusIsFinal | src/main/java/com/taco/managementsystem/service/TransferService.java:75-77 | SUCCESS and FAILED records are never changed |
| TransferService.SelfTransferRecordFails | src/main/java/com/taco/managementsystem/service/TransferService.java:45-53 | a self-transfer record is accepted as PENDING and becomes FAILED with locks and ledger untouched |
| TransferService.DrainFrom | src/main/java/com/taco/managementsystem/service/TransferService.java:61-67 | running the single-record step along the list: every listed PENDING record ends SUCCESS or FAILED even if others fail; all other records are unchanged; a list covering all PENDING records leaves none PENDING; total and non-negativity preserved |
| TransferService.ProcessPendingTransfers | src/main/java/com/taco/managementsystem/service/TransferService.java:57-68 | the batch loop's result is exactly `DrainFrom` of the listed ids and their tokens, so each listed record is attempted in list order through the synchronous transfer; every listed PENDING record ends SUCCESS or FAILED even if others fail; all other records are unchanged; a list covering all PENDING records leaves none PENDING; total and non-negativity preserved |

## Left out

- Row locking (`PESSIMISTIC_WRITE`), optimistic `@Version` locking and the database's two-digit scale rounding: the ledger is an exact map with no concurrency.
- Spring transaction semantics: rollback-only marking when `transferMoney` throws inside the drainer's transaction, and the self-invocation of `processTransfer` that bypasses the proxy. The model follows the sequential code path.
- Redis I/O: network failures, expiry of leases over time, and the non-atomic get-then-delete in `releaseLock`. The lease records the requested expiry only.
- Scheduling: `@Scheduled` timing. `scheduleMs` is only part of the validated configuration.
- Logging, the HTTP layer, user CRUD, `getAccountByUserId` (a plain lookup) and `getUserTransfers` (pagination).
- Null owner ids in `transferMoney`: ids are plain integers, and only `createTransfer` receives them as optional.
- Account ids and versions: accounts are identified by their owner. The balance-shortfall error therefore carries the current balance and the required amount, but not the account id in the message.
- AccountService.CreateAccount: requires that the owner has no account yet. The account endpoint can also call it for a user who already owns one. The database then rejects the second account, because of the one-to-one `USER_ID` join column, and that rejection is not modelled.
- AccountService.CreateAccount: entity bean validation at save time (`@Positive initialDeposit`, `@PositiveOrZero balance` in model/entity/Account.java) is not modelled. A zero deposit that the service accepts returns `Ok` here, although persisting it may be refused.
- Interest.RunInterest: saved and evicted owners are sets, not the repository's list order.

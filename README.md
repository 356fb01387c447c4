# Account ledger: balance mutation and transaction coordination

A Dafny model of the core of a small account ledger. An account holds a balance. A *use* debits it and a *cancel* credits back an earlier use. Every attempt is written to an append-only log of transaction records, and failed attempts are logged too.

The model has six modules, one file each:

- `Wrappers` (`wrappers.dfy`): `Option`, `Result` and `Outcome`. A thrown `AccountException` becomes `Failure(code)` or `Fail(code)`.
- `Codes` (`codes.dfy`): the identifier types, `AccountStatus` (`InUse`/`Unregistered`), `TransactionType` (`Use`/`Cancel`), `TransactionResultType` (`S`/`F`) and the error codes the core throws.
- `Accounts` (`accounts.dfy`): the `Account` entity as a class.
  - Its `UseBalance` and `CancelBalance` update `balance` in place.
  - Their frame is `this`balance`, so no other field can change.
  - They are specified by the pure functions `Debit` and `Credit`.
- `Transactions` (`transactions.dfy`): the transaction record (`Transaction.java:22-41`) as an immutable datatype with the same fields, except `child` and the entity key.
  - `parent` names the original by its `transactionId`, not by the entity key.
  - `child` is not stored. Whether a record has a child is derived from the log.
- `TransactionLog` (`transaction_log.dfy`): the transaction repository, modelled as a sequence of records.
  - `FindTransaction` is `findByTransactionId`.
  - `HasChild` is "`getChild() != null`": some record names this one as its parent.
  - It also defines the invariants the log keeps, the running effect of the log on each account (`Net`), and lemmas about appending one record.
- `Service` (`service.dfy`): `TransactionService` as a class.
  - It holds the log (`transactions`), the known user ids (`users`), and the accounts keyed by account number (`accounts`).
  - Its invariant `Valid()` says:
    - the log is well formed: transaction ids are unique; a record has at most one child; only successful cancels carry a parent; each parent is an earlier record on the same account, for the same amount, at most `oneYear` older;
    - every account sits under its own number, and account ids are distinct;
    - every balance is non-negative;
    - every balance equals its opening balance plus the net effect of the account's successful records;
    - the latest record of an account carries the account's current balance.
  - Every entry point preserves `Valid()`.

Inputs that the original draws from the environment become parameters:

- the clock (`LocalDateTime.now()`) becomes `now`;
- the generated transaction id (the random UUID) becomes `newId`, which must be fresh in the log;
- the length of the cancellation window (`minusYears(1)`) becomes the service's constant `oneYear`.

A cancel is refused as too old when the original's `transactedAt < now - oneYear`. The comparison is strict, as with `isBefore`.

Behaviours of the code that the model keeps:

- `Account.useBalance` reports an overdraft as `BALANCE_NOT_EMPTY` (`BalanceNotEmpty`).
- A cancel does not check the account's status.
- A cancel does not check the original record's type or result: the code accepts any record that has no child yet and whose account, amount and age fit.
  - So a recorded failed use can be canceled, which credits money that was never debited (`CancelFailedUseScenario`: 100 becomes 1100).
  - A successful cancel can itself be canceled, which credits the amount a second time.
  - "## Findings" records this, with the intended check beside it.
- Amounts are not checked for sign on the use path, so a negative use raises the balance.
  - A cancel of a negative amount passes `validateCancelBalance` but is refused by `Account.cancelBalance` with `INVALID_REQUEST`.
  - Nothing is written when that happens.
- `saveFailedUseTransaction` and `saveFailedCancelTransaction` resolve only the account.
  - They check neither ownership nor status.
  - They write a failed record against the unchanged balance.

Four verified client methods in `Service` replay the ledger's worked examples:

- `UseScenario`: a use of 1000 on a balance of 10000 leaves 9000.
- `CancelScenario`: the cancel of that use brings the balance back to 10000.
- `UseAndCancelScenario`: a second cancel of the same use is then refused.
- `ExceedBalanceScenario`: a use of 1000 on a balance of 100 is refused.

Two more clients show the canceled mark lasting and the unchecked original:

- `CancelAfterOtherWrite`: a canceled original is still refused after another record has been written.
- `CancelFailedUseScenario`: cancelling a recorded failed use succeeds and raises the balance.

## Model

| member | source | states |
|---|---|---|
| `Accounts.Debit` | src/main/java/com/example/account/domain/Account.java:38-43 | a use succeeds exactly when amount ≤ balance and then takes exactly `amount` off; otherwise it fails with BalanceNotEmpty; a non-negative balance stays non-negative |
| `Accounts.Credit` | src/main/java/com/example/account/domain/Account.java:45-50 | a cancel succeeds exactly when amount ≥ 0 and then adds exactly `amount`; otherwise it fails with InvalidRequest |
| `Accounts.CancelRestoresUse` | src/main/java/com/example/account/domain/Account.java:38-50 | crediting back the non-negative amount of a successful debit restores the original balance |
| `Accounts.NegativeUseIsNotCredited` | src/main/java/com/example/account/domain/Account.java:38-50 | a negative amount passes the debit guard and raises the balance, but the credit guard refuses it with InvalidRequest |
| `Accounts.Account.constructor` | src/main/java/com/example/account/domain/Account.java:25-36 | an account holds exactly the given owner, number, status, balance and timestamps |
| `Accounts.Account.UseBalance` | src/main/java/com/example/account/domain/Account.java:38-43 | overdraft: BalanceNotEmpty with the balance unchanged; otherwise the balance becomes old − amount; non-negativity is kept on both paths; only `balance` may change |
| `Accounts.Account.CancelBalance` | src/main/java/com/example/account/domain/Account.java:45-50 | negative amount: InvalidRequest with the balance unchanged; otherwise the balance becomes old + amount; the status is not consulted; only `balance` may change |
| `Accounts.UseThenCancel` | src/main/java/com/example/account/domain/Account.java:38-50 | a successful use followed by a cancel of the same non-negative amount leaves the balance where it was |
| `TransactionLog.FindTransaction` | src/main/java/com/example/account/service/TransactionService.java:69-70 | the lookup finds the first record carrying the id, or reports none exactly when no record carries it |
| `TransactionLog.ChildIsUnique` | src/main/java/com/example/account/domain/Transaction.java:33-38 | in a well-formed log a record that has a child is itself in the log, and exactly one record names it as parent: the link is one-to-one |
| `TransactionLog.FindAfterAppend` | src/main/java/com/example/account/service/TransactionService.java:129-165 | saving a record leaves every earlier lookup as it was and makes the new id resolve to the new record |
| `TransactionLog.ChildAfterAppend` | src/main/java/com/example/account/domain/Transaction.java:33-38 | once a record naming a parent is saved, that parent has a child (the inverse side of the one-to-one link) |
| `TransactionLog.ChildStaysAfterAppend` | src/main/java/com/example/account/domain/Transaction.java:37-38 | appending never takes a child away: a canceled record stays canceled |
| `TransactionLog.AppendKeepsWellFormed` | src/main/java/com/example/account/domain/Transaction.java:33-38 | saving a record with a fresh id keeps the ids unique and the parent link one-to-one, provided a record with a parent gives no parent a second child and reverses an earlier record on the same account, for the same amount, within the window |
| `TransactionLog.AppendEffects` | src/main/java/com/example/account/service/TransactionService.java:129-165 | saving one record moves the net effect of the log on an account by exactly that record's effect, and makes its snapshot the latest one of its account |
| `Service.ValidateUseBalance` | src/main/java/com/example/account/service/TransactionService.java:117-127 | a use passes exactly when the user owns the account, the account is InUse and amount ≤ balance; otherwise the first failed check (UserAccountUnMatch, AccountAlreadyUnregistered, AmountExceedBalance, in that order) is the error |
| `Service.ValidateCancelOfUse` | src/main/java/com/example/account/service/TransactionService.java:105-115 | the corrected cancel check: it passes exactly when the original is a successful use and the source's three checks pass; any other original fails with InvalidRequest |
| `Service.CancelOfNonUseAccepted` | src/main/java/com/example/account/service/TransactionService.java:105-115 | the check as written passes a failed use and a successful cancel as originals, and their cancel credits 1000 that was never debited, or credits 1000 a second time |
| `Service.IntendedCancelUndoesOriginal` | src/main/java/com/example/account/service/TransactionService.java:105-115 | under the corrected check, the original and its cancel record together move no balance of any account |
| `Service.ValidateCancelBalance` | src/main/java/com/example/account/service/TransactionService.java:105-115 | a cancel passes exactly when the original is on this account, has the same amount and is not strictly older than now − oneYear; otherwise the first failed check (TransactionAccountUnMatch, CancelMustFully, TooOldOrderToCancel) is the error |
| `Service.TransactionService.constructor` | src/main/java/com/example/account/service/TransactionService.java:35-37 | a coordinator over the given user and account stores and an empty log is valid |
| `Service.TransactionService.SaveAndGetTransaction` | src/main/java/com/example/account/service/TransactionService.java:129-145 | appends exactly one record, with the given type, result and amount, the account's id, its current balance as snapshot, no parent, the new id and the current time |
| `Service.TransactionService.SaveAndGetChildTransaction` | src/main/java/com/example/account/service/TransactionService.java:147-165 | the same, with the original's id as parent |
| `Service.TransactionService.ReconciledAfterSave` | src/main/java/com/example/account/service/TransactionService.java:50-52 | after one saved record and a balance move of exactly that record's effect, every account is again reconciled with the log |
| `Service.TransactionService.UseBalance` | src/main/java/com/example/account/service/TransactionService.java:40-53 | UserNotFound first, then AccountNotFound, then the validation error; success exactly when all pass; on failure neither the log nor the balance changes; on success the balance drops by exactly `amount`, one Use/S record with the new balance as snapshot and no parent is appended and resolves by its id; the invariant is kept |
| `Service.TransactionService.SaveFailedUseTransaction` | src/main/java/com/example/account/service/TransactionService.java:56-61 | AccountNotFound is the only error; otherwise exactly one Use/F record with the unchanged balance as snapshot is appended; no balance changes |
| `Service.TransactionService.CancelBalance` | src/main/java/com/example/account/service/TransactionService.java:64-86 | TransactionNotFound, then TransactionAlreadyCanceled when the original has a child, then AccountNotFound, then the validation error, then InvalidRequest for a negative amount; on failure nothing changes; on success the balance rises by exactly `amount`, one Cancel/S record (`CancelRecord` of the original, with the new balance as snapshot) is appended, and the original now has a child |
| `Service.TransactionService.SaveFailedCancelTransaction` | src/main/java/com/example/account/service/TransactionService.java:89-94 | AccountNotFound is the only error; otherwise exactly one Cancel/F record with the unchanged balance as snapshot is appended; no balance changes |
| `Service.TransactionService.QueryTransaction` | src/main/java/com/example/account/service/TransactionService.java:97-103 | returns a stored record carrying the id, unchanged; fails with TransactionNotFound exactly when no record carries it; changes nothing |
| `Service.CancelTwice` | src/main/java/com/example/account/service/TransactionService.java:72-74 | after a successful cancel, a second cancel of the same original is refused with TransactionAlreadyCanceled, and only the first moved the balance |
| `Service.CancelAfterOtherWrite` | src/main/java/com/example/account/service/TransactionService.java:72-74 | once an original has a child, writing another record leaves it canceled: a further cancel is refused with TransactionAlreadyCanceled |
| `Service.UseScenario` | src/main/java/com/example/account/service/TransactionService.java:40-53 | from a balance of 10000, a use of 1000 leaves 9000 and logs one Use/S record with snapshot 9000 |
| `Service.CancelScenario` | src/main/java/com/example/account/service/TransactionService.java:64-86 | cancelling that use restores 10000 and logs a Cancel/S record with snapshot 10000 whose parent is the use |
| `Service.UseAndCancelScenario` | src/main/java/com/example/account/service/TransactionService.java:72-74 | after that use and its cancel, a second cancel of the use is refused with TransactionAlreadyCanceled, the balance stays 10000 and the log keeps its two records |
| `Service.ExceedBalanceScenario` | src/main/java/com/example/account/service/TransactionService.java:124-126 | a use of 1000 on a balance of 100 is refused with AmountExceedBalance, the balance stays 100 and nothing is logged |
| `Service.CancelFailedUseScenario` | src/main/java/com/example/account/service/TransactionService.java:64-86 | after a failed use of 1000 is recorded on a balance of 100, cancelling that record succeeds, links to it, and leaves the balance at 1100 |

## Findings

| source | as written | input that shows it | evidently intended | confidence | as-written member | corrected member |
|---|---|---|---|---|---|---|
| src/main/java/com/example/account/service/TransactionService.java:105-115 | `validateCancelBalance` checks the original's account, amount and age, but not that it is a successful use | a USE/F record of 1000 on balance 100, canceled for 1000: the balance becomes 1100; a CANCEL/S record of 1000, canceled for 1000: credited twice | a cancel reverses a successful use only, so that an original and its cancel move no balance in total | medium, not executed | `Service.CancelOfNonUseAccepted` | `Service.ValidateCancelOfUse` |

`Service.TransactionService.CancelBalance` keeps the check as written, because it models the code. `ValidateCancelOfUse` is the corrected check, proved by `IntendedCancelUndoesOriginal`. The error code for its extra check (InvalidRequest) is a choice of this model, since the code defines none.

## Left out

- Persistence and transaction boundaries: the repositories are in-memory collections. The all-or-nothing commit comes from every check running before any mutation, and from an exception on the cancel path arising before the record is saved.
- Concurrency: per-account locking and lost updates are not modelled. Each entry point runs to completion alone.
- The clock, the UUID generator and calendar arithmetic are replaced by the `now`/`newId` parameters and the `oneYear` constant. Leap years and month lengths are not modelled.
- The two `LocalDateTime.now()` readings of a cancel happen at slightly different instants in the code (validation and record). The model uses one `now` for both.
- `TransactionLog.IsReversal`: its window clause depends on that single `now`. In the code, the record's `transactedAt` is read slightly after the window check, so a cancel at the edge of the window could be stored a little outside it.
- `TransactionDto.fromEntity` and the DTO that the entry points return: the model returns the saved record itself, because DTO conversion is not part of this model. Logging is also left out.
- `BaseEntity` and `AccountUser`: an account's `BaseEntity` key and its user appear only as numeric ids.
  - A record refers to its account by the account's id.
  - A transaction record has no entity key: it is identified by its `transactionId`, which the code also uses for lookup.
- `AccountService` (account creation, closure and number allocation) is not part of this model. The stores' contents are given to the coordinator's constructor, with an empty log.
- `Long` overflow: amounts and balances are unbounded integers.
- Null boxed arguments: amounts are always present.
  - With a null `amount`, the code throws a NullPointerException on the use path when `validateUseBalance` compares it.
  - On the cancel path, `Objects.equals` makes that `CANCEL_MUST_FULLY`.
- `Service.TransactionService.constructor` assumes what `AccountService` keeps: every account is keyed by its own number, account ids are distinct, and opening balances are non-negative. `AccountService` is not part of this model.
- The `ErrorCode` enum's other members, which the core never throws.

/**
 * The transaction coordinator: each entry point resolves the user, the
 * account and (for a cancel) the original record, validates, mutates the
 * account's balance and appends one record to the log.
 */
module Service {
  import opened Wrappers
  import opened Codes
  import opened Accounts
  import opened Transactions
  import opened TransactionLog

  /**
   * The checks of a use, in the order the source makes them; the first one
   * that fails decides the error.
   */
  function ValidateUseBalance(userId: UserId, account: Account, amount: int): (r: Outcome<ErrorCode>)
    reads account
    ensures r == Pass <==> userId == account.accountUser && account.accountStatus == InUse && amount <= account.balance
    ensures userId != account.accountUser ==> r == Fail(UserAccountUnMatch)
    ensures userId == account.accountUser && account.accountStatus != InUse ==> r == Fail(AccountAlreadyUnregistered)
    ensures userId == account.accountUser && account.accountStatus == InUse && account.balance < amount ==>
              r == Fail(AmountExceedBalance)
  {
    if userId != account.accountUser then Fail(UserAccountUnMatch)
    else if account.accountStatus != InUse then Fail(AccountAlreadyUnregistered)
    else if account.balance < amount then Fail(AmountExceedBalance)
    else Pass
  }

  /**
   * The checks of a cancel against its original record, in source order; a
   * record is too old when it was made strictly before `now - oneYear`.
   */
  function ValidateCancelBalance(original: Transaction, account: Account, amount: int,
                                 now: Timestamp, oneYear: nat): (r: Outcome<ErrorCode>)
    ensures r == Pass <==>
              original.account == account.id && original.amount == amount && now - oneYear <= original.transactedAt
    ensures original.account != account.id ==> r == Fail(TransactionAccountUnMatch)
    ensures original.account == account.id && original.amount != amount ==> r == Fail(CancelMustFully)
    ensures original.account == account.id && original.amount == amount && original.transactedAt < now - oneYear ==>
              r == Fail(TooOldOrderToCancel)
  {
    if original.account != account.id then Fail(TransactionAccountUnMatch)
    else if original.amount != amount then Fail(CancelMustFully)
    else if original.transactedAt < now - oneYear then Fail(TooOldOrderToCancel)
    else Pass
  }

  /**
   * The cancel validation as evidently intended: the original must be a
   * successful use, and then the source's checks apply in their order. The
   * code as written (ValidateCancelBalance) skips the first check.
   */
  function ValidateCancelOfUse(original: Transaction, account: Account, amount: int,
                               now: Timestamp, oneYear: nat): (r: Outcome<ErrorCode>)
    ensures r == Pass <==>
              && original.transactionType == Use && original.transactionResultType == S
              && ValidateCancelBalance(original, account, amount, now, oneYear) == Pass
    ensures original.transactionType != Use || original.transactionResultType != S ==> r == Fail(InvalidRequest)
    ensures original.transactionType == Use && original.transactionResultType == S ==>
              r == ValidateCancelBalance(original, account, amount, now, oneYear)
  {
    if original.transactionType != Use || original.transactionResultType != S then Fail(InvalidRequest)
    else ValidateCancelBalance(original, account, amount, now, oneYear)
  }

  /** The record a successful cancel of `original` on `account` appends (SaveAndGetChildTransaction's shape). */
  function CancelRecord(original: Transaction, account: Account, amount: int, snapshot: int,
                        newId: TxId, now: Timestamp): Transaction
  {
    Transaction(Cancel, S, account.id, amount, snapshot, Some(original.transactionId), newId, now)
  }

  /**
   * As written, the cancel validation lets through an original that is not a
   * successful use: a failed use of 1000 and a successful cancel of 1000 both
   * pass, and the cancel that follows credits money that was never debited
   * (first) or credits a second time (second).
   */
  lemma CancelOfNonUseAccepted(account: Account)
    requires account.id == 1
    ensures var failedUse := Transaction(Use, F, 1, 1000, 100, None, "f", 0);
            var c := CancelRecord(failedUse, account, 1000, 1100, "c", 10);
            && ValidateCancelBalance(failedUse, account, 1000, 10, 100) == Pass
            && Effect(failedUse, 1) + Effect(c, 1) == 1000
    ensures var canceled := Transaction(Cancel, S, 1, 1000, 10000, Some("u"), "k", 0);
            var c := CancelRecord(canceled, account, 1000, 11000, "c", 10);
            && ValidateCancelBalance(canceled, account, 1000, 10, 100) == Pass
            && Effect(canceled, 1) + Effect(c, 1) == 2000
  {
  }

  /**
   * With the intended validation a successful cancel is a full reversal: the
   * original and its cancel record together move no balance at all.
   */
  lemma IntendedCancelUndoesOriginal(original: Transaction, account: Account, amount: int, snapshot: int,
                                     newId: TxId, now: Timestamp, oneYear: nat)
    requires ValidateCancelOfUse(original, account, amount, now, oneYear) == Pass
    ensures forall id :: Effect(original, id) + Effect(CancelRecord(original, account, amount, snapshot, newId, now), id) == 0
  {
  }

  class TransactionService {
    /** The transaction repository. */
    var transactions: seq<Transaction>
    /** The account-user repository: the ids findById resolves. */
    const users: set<UserId>
    /** The account repository, keyed by findByAccountNumber's argument. */
    const accounts: map<AccountNumber, Account>
    /** The length of the cancellation window (`minusYears(1)`). */
    const oneYear: nat
    /** Each account's balance when the log was empty. */
    ghost const opening: map<AccountNumber, int>

    /** The account is reconciled with the log: its balance is non-negative, is its opening balance plus every successful record's effect, and is the latest record's snapshot. */
    ghost predicate Reconciled(account: Account, openingBalance: int)
      reads this, account
    {
      && account.balance >= 0
      && account.balance == openingBalance + Net(transactions, account.id)
      && (LatestSnapshot(transactions, account.id).Some? ==>
            LatestSnapshot(transactions, account.id).value == account.balance)
    }

    ghost predicate Valid()
      reads this, accounts.Values
    {
      && LogWellFormed(transactions, oneYear)
      && (forall n :: n in accounts ==> accounts[n].accountNumber == n)
      && (forall n, m :: n in accounts && m in accounts && n != m ==> accounts[n].id != accounts[m].id)
      && (forall n :: n in accounts ==> n in opening && Reconciled(accounts[n], opening[n]))
    }

    /** The objects an entry point on `accountNumber` may change besides the log. */
    function AccountFrame(accountNumber: AccountNumber): set<Account>
    {
      if accountNumber in accounts then {accounts[accountNumber]} else {}
    }

    constructor (users: set<UserId>, accounts: map<AccountNumber, Account>, oneYear: nat)
      requires forall n :: n in accounts ==> accounts[n].accountNumber == n && accounts[n].balance >= 0
      requires forall n, m :: n in accounts && m in accounts && n != m ==> accounts[n].id != accounts[m].id
      ensures Valid()
      ensures this.users == users && this.accounts == accounts && this.oneYear == oneYear
      ensures transactions == []
    {
      this.users := users;
      this.accounts := accounts;
      this.oneYear := oneYear;
      transactions := [];
      opening := map n | n in accounts :: accounts[n].balance;
    }

    /** saveAndGetTransaction without a parent: append a record carrying the account's current balance. */
    method SaveAndGetTransaction(transactionType: TransactionType, transactionResultType: TransactionResultType,
                                 amount: int, account: Account, now: Timestamp, newId: TxId)
      returns (saved: Transaction)
      modifies this`transactions
      ensures saved == Transaction(transactionType, transactionResultType, account.id, amount,
                                   account.balance, None, newId, now)
      ensures transactions == old(transactions) + [saved]
    {
      saved := Transaction(transactionType, transactionResultType, account.id, amount,
                           account.balance, None, newId, now);
      transactions := transactions + [saved];
    }

    /** saveAndGetTransaction with a parent: the same, linking the record to the one it reverses. */
    method SaveAndGetChildTransaction(transactionType: TransactionType, transactionResultType: TransactionResultType,
                                      amount: int, account: Account, parent: TxId, now: Timestamp, newId: TxId)
      returns (saved: Transaction)
      modifies this`transactions
      ensures saved == Transaction(transactionType, transactionResultType, account.id, amount,
                                   account.balance, Some(parent), newId, now)
      ensures transactions == old(transactions) + [saved]
    {
      saved := Transaction(transactionType, transactionResultType, account.id, amount,
                           account.balance, Some(parent), newId, now);
      transactions := transactions + [saved];
    }

    /**
     * After `saved` was appended to `log0` and the balance of the account
     * numbered `number` was moved by exactly the record's effect, every
     * account is reconciled again.
     */
    lemma ReconciledAfterSave(log0: seq<Transaction>, saved: Transaction, number: AccountNumber, balance0: int)
      requires number in accounts && number in opening
      requires transactions == log0 + [saved]
      requires saved.account == accounts[number].id && saved.balanceSnapshot == accounts[number].balance
      requires accounts[number].balance == balance0 + Effect(saved, saved.account) && accounts[number].balance >= 0
      requires balance0 == opening[number] + Net(log0, saved.account)
      requires forall n :: n in accounts ==> accounts[n].accountNumber == n
      requires forall n, m :: n in accounts && m in accounts && n != m ==> accounts[n].id != accounts[m].id
      requires forall n :: n in accounts && n != number ==>
                 && n in opening && accounts[n].balance >= 0
                 && accounts[n].balance == opening[n] + Net(log0, accounts[n].id)
                 && (LatestSnapshot(log0, accounts[n].id).Some? ==>
                       LatestSnapshot(log0, accounts[n].id).value == accounts[n].balance)
      ensures forall n :: n in accounts ==> n in opening && Reconciled(accounts[n], opening[n])
    {
      AppendEffects(log0, saved);
    }

    /** useBalance. */
    method UseBalance(userId: UserId, accountNumber: AccountNumber, amount: int, now: Timestamp, newId: TxId)
      returns (r: Result<Transaction, ErrorCode>)
      requires Valid() && IsFresh(transactions, newId)
      modifies this, AccountFrame(accountNumber)
      ensures Valid()
      ensures userId !in users ==> r == Failure(UserNotFound)
      ensures userId in users && accountNumber !in accounts ==> r == Failure(AccountNotFound)
      ensures userId in users && accountNumber in accounts &&
              old(ValidateUseBalance(userId, accounts[accountNumber], amount)).Fail? ==>
                r == Failure(old(ValidateUseBalance(userId, accounts[accountNumber], amount)).error)
      ensures r.Success? <==>
                userId in users && accountNumber in accounts &&
                old(ValidateUseBalance(userId, accounts[accountNumber], amount)) == Pass
      ensures r.Failure? ==> transactions == old(transactions)
      ensures accountNumber in accounts && r.Failure? ==>
                accounts[accountNumber].balance == old(accounts[accountNumber].balance)
      ensures r.Success? ==>
                && accounts[accountNumber].balance == old(accounts[accountNumber].balance) - amount
                && transactions == old(transactions) + [r.value]
                && r.value == Transaction(Use, S, accounts[accountNumber].id, amount,
                                          accounts[accountNumber].balance, None, newId, now)
                && FindTransaction(transactions, newId) == Some(r.value)
      ensures accountNumber in accounts ==>
                && accounts[accountNumber].accountStatus == old(accounts[accountNumber].accountStatus)
                && accounts[accountNumber].unRegisteredAt == old(accounts[accountNumber].unRegisteredAt)
    {
      if userId !in users {
        return Failure(UserNotFound);
      }
      if accountNumber !in accounts {
        return Failure(AccountNotFound);
      }
      var account := accounts[accountNumber];
      var check := ValidateUseBalance(userId, account, amount);
      if check.Fail? {
        return Failure(check.error);
      }
      ghost var log0, balance0 := transactions, account.balance;
      ghost var status0, unRegistered0 := account.accountStatus, account.unRegisteredAt;
      var used := account.UseBalance(amount);
      assert used == Pass;
      assert account.accountStatus == status0 && account.unRegisteredAt == unRegistered0;
      var saved := SaveAndGetTransaction(Use, S, amount, account, now, newId);
      assert account.accountStatus == status0 && account.unRegisteredAt == unRegistered0;
      AppendKeepsWellFormed(log0, saved, oneYear);
      ReconciledAfterSave(log0, saved, accountNumber, balance0);
      FindAfterAppend(log0, saved, newId);
      return Success(saved);
    }

    /** saveFailedUseTransaction: record a failed use against the unchanged balance. */
    method SaveFailedUseTransaction(accountNumber: AccountNumber, amount: int, now: Timestamp, newId: TxId)
      returns (r: Outcome<ErrorCode>)
      requires Valid() && IsFresh(transactions, newId)
      modifies this
      ensures Valid()
      ensures accountNumber !in accounts ==> r == Fail(AccountNotFound) && transactions == old(transactions)
      ensures accountNumber in accounts ==>
                r == Pass &&
                transactions == old(transactions) +
                  [Transaction(Use, F, accounts[accountNumber].id, amount, accounts[accountNumber].balance, None, newId, now)]
    {
      if accountNumber !in accounts {
        return Fail(AccountNotFound);
      }
      var account := accounts[accountNumber];
      ghost var log0 := transactions;
      var saved := SaveAndGetTransaction(Use, F, amount, account, now, newId);
      AppendKeepsWellFormed(log0, saved, oneYear);
      ReconciledAfterSave(log0, saved, accountNumber, account.balance);
      return Pass;
    }

    /** cancelBalance. */
    method CancelBalance(transactionId: TxId, accountNumber: AccountNumber, amount: int, now: Timestamp, newId: TxId)
      returns (r: Result<Transaction, ErrorCode>)
      requires Valid() && IsFresh(transactions, newId)
      modifies this, AccountFrame(accountNumber)
      ensures Valid()
      ensures old(FindTransaction(transactions, transactionId)).None? ==> r == Failure(TransactionNotFound)
      ensures old(FindTransaction(transactions, transactionId)).Some? && old(HasChild(transactions, transactionId)) ==>
                r == Failure(TransactionAlreadyCanceled)
      ensures old(FindTransaction(transactions, transactionId)).Some? && !old(HasChild(transactions, transactionId)) &&
              accountNumber !in accounts ==>
                r == Failure(AccountNotFound)
      ensures old(FindTransaction(transactions, transactionId)).Some? && !old(HasChild(transactions, transactionId)) &&
              accountNumber in accounts ==>
                var check := ValidateCancelBalance(old(FindTransaction(transactions, transactionId)).value,
                                                   accounts[accountNumber], amount, now, oneYear);
                && (check.Fail? ==> r == Failure(check.error))
                && (check == Pass && amount < 0 ==> r == Failure(InvalidRequest))
                && (r.Success? <==> check == Pass && amount >= 0)
      ensures r.Failure? ==> transactions == old(transactions)
      ensures accountNumber in accounts && r.Failure? ==>
                accounts[accountNumber].balance == old(accounts[accountNumber].balance)
      ensures r.Success? ==>
                && accountNumber in accounts
                && accounts[accountNumber].balance == old(accounts[accountNumber].balance) + amount
                && transactions == old(transactions) + [r.value]
                && r.value == CancelRecord(old(FindTransaction(transactions, transactionId)).value, accounts[accountNumber],
                                           amount, accounts[accountNumber].balance, newId, now)
                && HasChild(transactions, transactionId)
                && FindTransaction(transactions, newId) == Some(r.value)
      ensures accountNumber in accounts ==>
                && accounts[accountNumber].accountStatus == old(accounts[accountNumber].accountStatus)
                && accounts[accountNumber].unRegisteredAt == old(accounts[accountNumber].unRegisteredAt)
    {
      var found := FindTransaction(transactions, transactionId);
      if found.None? {
        return Failure(TransactionNotFound);
      }
      var original := found.value;
      if HasChild(transactions, transactionId) {
        return Failure(TransactionAlreadyCanceled);
      }
      if accountNumber !in accounts {
        return Failure(AccountNotFound);
      }
      var account := accounts[accountNumber];
      var check := ValidateCancelBalance(original, account, amount, now, oneYear);
      if check.Fail? {
        return Failure(check.error);
      }
      ghost var log0, balance0 := transactions, account.balance;
      ghost var status0, unRegistered0 := account.accountStatus, account.unRegisteredAt;
      var credited := account.CancelBalance(amount);
      if credited.Fail? {
        return Failure(credited.error);
      }
      assert account.accountStatus == status0 && account.unRegisteredAt == unRegistered0;
      var saved := SaveAndGetChildTransaction(Cancel, S, amount, account, transactionId, now, newId);
      assert account.accountStatus == status0 && account.unRegisteredAt == unRegistered0;
      AppendKeepsWellFormed(log0, saved, oneYear);
      ReconciledAfterSave(log0, saved, accountNumber, balance0);
      ChildAfterAppend(log0, saved);
      FindAfterAppend(log0, saved, newId);
      return Success(saved);
    }

    /** saveFailedCancelTransaction: record a failed cancel against the unchanged balance. */
    method SaveFailedCancelTransaction(accountNumber: AccountNumber, amount: int, now: Timestamp, newId: TxId)
      returns (r: Outcome<ErrorCode>)
      requires Valid() && IsFresh(transactions, newId)
      modifies this
      ensures Valid()
      ensures accountNumber !in accounts ==> r == Fail(AccountNotFound) && transactions == old(transactions)
      ensures accountNumber in accounts ==>
                r == Pass &&
                transactions == old(transactions) +
                  [Transaction(Cancel, F, accounts[accountNumber].id, amount, accounts[accountNumber].balance, None, newId, now)]
    {
      if accountNumber !in accounts {
        return Fail(AccountNotFound);
      }
      var account := accounts[accountNumber];
      ghost var log0 := transactions;
      var saved := SaveAndGetTransaction(Cancel, F, amount, account, now, newId);
      AppendKeepsWellFormed(log0, saved, oneYear);
      ReconciledAfterSave(log0, saved, accountNumber, account.balance);
      return Pass;
    }

    /** queryTransaction: the stored record, unchanged, or TransactionNotFound. */
    method QueryTransaction(transactionId: TxId) returns (r: Result<Transaction, ErrorCode>)
      ensures r.Success? ==> r.value in transactions && r.value.transactionId == transactionId
      ensures r.Failure? <==> forall t :: t in transactions ==> t.transactionId != transactionId
      ensures r.Failure? ==> r.error == TransactionNotFound
    {
      var found := FindTransaction(transactions, transactionId);
      if found.None? {
        return Failure(TransactionNotFound);
      }
      return Success(found.value);
    }
  }

  /**
   * A successful cancel marks its original as canceled: cancelling the same
   * original again is refused with TransactionAlreadyCanceled and changes
   * neither the balance nor the log.
   */
  method CancelTwice(service: TransactionService, transactionId: TxId, accountNumber: AccountNumber, amount: int,
                     now: Timestamp, firstId: TxId, later: Timestamp, secondId: TxId)
    returns (first: Result<Transaction, ErrorCode>, second: Result<Transaction, ErrorCode>)
    requires service.Valid()
    requires IsFresh(service.transactions, firstId) && IsFresh(service.transactions, secondId) && firstId != secondId
    modifies service, service.AccountFrame(accountNumber)
    ensures service.Valid()
    ensures first.Success? ==> second == Failure(TransactionAlreadyCanceled)
    ensures first.Success? ==>
              && accountNumber in service.accounts
              && service.transactions == old(service.transactions) + [first.value]
              && service.accounts[accountNumber].balance == old(service.accounts[accountNumber].balance) + amount
  {
    first := service.CancelBalance(transactionId, accountNumber, amount, now, firstId);
    ghost var log0 := old(service.transactions);
    if first.Success? {
      FindAfterAppend(log0, first.value, secondId);
      FindAfterAppend(log0, first.value, transactionId);
    }
    second := service.CancelBalance(transactionId, accountNumber, amount, later, secondId);
  }

  /**
   * A canceled original stays canceled whatever is written after it: once a
   * failed use has been recorded, a further cancel of the original is still
   * refused with TransactionAlreadyCanceled.
   */
  method CancelAfterOtherWrite(service: TransactionService, transactionId: TxId, accountNumber: AccountNumber,
                               amount: int, otherNumber: AccountNumber, otherAmount: int, otherId: TxId,
                               now: Timestamp, secondId: TxId)
    returns (again: Result<Transaction, ErrorCode>)
    requires service.Valid()
    requires FindTransaction(service.transactions, transactionId).Some? && HasChild(service.transactions, transactionId)
    requires IsFresh(service.transactions, otherId) && IsFresh(service.transactions, secondId) && otherId != secondId
    modifies service, service.AccountFrame(accountNumber)
    ensures service.Valid()
    ensures again == Failure(TransactionAlreadyCanceled)
  {
    ghost var log0 := service.transactions;
    var recorded := service.SaveFailedUseTransaction(otherNumber, otherAmount, now, otherId);
    if recorded == Pass {
      var other := service.transactions[|log0|];
      assert service.transactions == log0 + [other];
      ChildStaysAfterAppend(log0, other, transactionId);
      FindAfterAppend(log0, other, secondId);
      FindAfterAppend(log0, other, transactionId);
    }
    again := service.CancelBalance(transactionId, accountNumber, amount, now, secondId);
  }

  /** The first step of the ledger's worked example: a use of 1000 from a balance of 10000 leaves 9000. */
  method UseScenario() returns (account: Account, service: TransactionService, used: Transaction)
    ensures service.Valid() && service.accounts == map["1000000012" := account] && service.oneYear == 100
    ensures service.transactions == [used] && used == Transaction(Use, S, 1, 1000, 9000, None, "u", 500)
    ensures account.balance == 9000 && account.id == 1
    ensures fresh(account) && fresh(service)
  {
    var number := "1000000012";
    account := new Account(1, 1, number, InUse, 10000, 0, None);
    service := new TransactionService({1}, map[number := account], 100);
    var r := service.UseBalance(1, number, 1000, 500, "u");
    assert r.Success?;
    used := r.value;
  }

  /** The second step of the worked example: cancelling that use restores 10000. */
  method CancelScenario() returns (account: Account, service: TransactionService, used: Transaction, canceled: Transaction)
    ensures service.Valid() && service.accounts == map["1000000012" := account]
    ensures service.transactions == [used, canceled] && used.transactionId == "u"
    ensures canceled == Transaction(Cancel, S, 1, 1000, 10000, Some("u"), "c", 550)
    ensures account.balance == 10000
    ensures fresh(account) && fresh(service)
  {
    account, service, used := UseScenario();
    assert IsFresh(service.transactions, "c");
    assert FindTransaction(service.transactions, "u") == Some(used);
    assert !HasChild(service.transactions, "u");
    assert ValidateCancelBalance(used, account, 1000, 550, 100) == Pass;
    var r := service.CancelBalance("u", "1000000012", 1000, 550, "c");
    assert r.Success?;
    canceled := r.value;
  }

  /** The last step of the worked example: a second cancel of the same use is refused and changes nothing. */
  method UseAndCancelScenario() returns (again: Result<Transaction, ErrorCode>, balance: int, logged: nat)
    ensures again == Failure(TransactionAlreadyCanceled) && balance == 10000 && logged == 2
  {
    var account, service, used, canceled := CancelScenario();
    assert IsFresh(service.transactions, "a");
    assert FindTransaction(service.transactions, "u") == Some(used);
    assert service.transactions[1].parent == Some("u");
    again := service.CancelBalance("u", "1000000012", 1000, 560, "a");
    balance, logged := account.balance, |service.transactions|;
  }

  /** A use of 1000 on a balance of 100 is refused and changes nothing. */
  method ExceedBalanceScenario() returns (refused: Result<Transaction, ErrorCode>, balance: int, logged: nat)
    ensures refused == Failure(AmountExceedBalance) && balance == 100 && logged == 0
  {
    var number := "1000000012";
    var account := new Account(1, 1, number, InUse, 100, 0, None);
    var service := new TransactionService({1}, map[number := account], 100);
    refused := service.UseBalance(1, number, 1000, 500, "u");
    balance, logged := account.balance, |service.transactions|;
  }

  /**
   * The consequence of the unchecked original, replayed: a failed use of 1000
   * is recorded on a balance of 100, and cancelling that failed record
   * succeeds and raises the balance to 1100 although nothing was debited.
   */
  method CancelFailedUseScenario() returns (canceled: Result<Transaction, ErrorCode>, balance: int)
    ensures canceled.Success? && canceled.value.parent == Some("f") && balance == 1100
  {
    var number := "1000000012";
    var account := new Account(1, 1, number, InUse, 100, 0, None);
    var service := new TransactionService({1}, map[number := account], 100);
    var recorded := service.SaveFailedUseTransaction(number, 1000, 0, "f");
    assert service.transactions == [Transaction(Use, F, 1, 1000, 100, None, "f", 0)];
    assert IsFresh(service.transactions, "c");
    assert FindTransaction(service.transactions, "f").Some?;
    assert !HasChild(service.transactions, "f");
    canceled := service.CancelBalance("f", number, 1000, 10, "c");
    balance := account.balance;
  }
}

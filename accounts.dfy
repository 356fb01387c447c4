/**
 * The account aggregate: a balance that is debited by a use and credited by
 * a cancel, each guarded by its own check.
 */
module Accounts {
  import opened Wrappers
  import opened Codes

  /** The balance a use leaves, or the error it throws when it would overdraw. */
  function Debit(balance: int, amount: int): (r: Result<int, ErrorCode>)
    ensures r.Success? <==> amount <= balance
    ensures r.Failure? ==> r.error == BalanceNotEmpty
    ensures r.Success? ==> r.value + amount == balance
    ensures r.Success? && balance >= 0 ==> r.value >= 0
  {
    if amount > balance then Failure(BalanceNotEmpty) else Success(balance - amount)
  }

  /** The balance a cancel leaves, or the error it throws for a negative amount. */
  function Credit(balance: int, amount: int): (r: Result<int, ErrorCode>)
    ensures r.Success? <==> amount >= 0
    ensures r.Failure? ==> r.error == InvalidRequest
    ensures r.Success? ==> r.value - amount == balance && r.value >= balance
  {
    if amount < 0 then Failure(InvalidRequest) else Success(balance + amount)
  }

  /** Crediting back the amount of a successful debit restores the balance. */
  lemma CancelRestoresUse(balance: int, amount: int)
    requires amount >= 0
    requires Debit(balance, amount).Success?
    ensures Credit(Debit(balance, amount).value, amount) == Success(balance)
  {
  }

  /**
   * A negative amount passes the debit guard (and raises the balance), but
   * the credit guard refuses it, so such a use cannot be credited back.
   */
  lemma NegativeUseIsNotCredited(balance: int, amount: int)
    requires balance >= 0 && amount < 0
    ensures Debit(balance, amount) == Success(balance - amount)
    ensures balance - amount > balance
    ensures Credit(balance - amount, amount) == Failure(InvalidRequest)
  {
  }

  class Account {
    const id: AccountId
    const accountUser: UserId
    const accountNumber: AccountNumber
    var accountStatus: AccountStatus
    var balance: int
    const registeredAt: Timestamp
    var unRegisteredAt: Option<Timestamp>

    constructor (id: AccountId, accountUser: UserId, accountNumber: AccountNumber,
                 accountStatus: AccountStatus, balance: int,
                 registeredAt: Timestamp, unRegisteredAt: Option<Timestamp>)
      ensures this.id == id && this.accountUser == accountUser
      ensures this.accountNumber == accountNumber && this.accountStatus == accountStatus
      ensures this.balance == balance
      ensures this.registeredAt == registeredAt && this.unRegisteredAt == unRegisteredAt
    {
      this.id := id;
      this.accountUser := accountUser;
      this.accountNumber := accountNumber;
      this.accountStatus := accountStatus;
      this.balance := balance;
      this.registeredAt := registeredAt;
      this.unRegisteredAt := unRegisteredAt;
    }

    /**
     * Debits `amount`. Throws BalanceNotEmpty, and leaves the balance alone,
     * when the amount exceeds the balance. Only `balance` is in the frame, so
     * status, owner, number and timestamps are untouched.
     */
    method UseBalance(amount: int) returns (r: Outcome<ErrorCode>)
      modifies this`balance
      ensures amount > old(balance) ==> r == Fail(BalanceNotEmpty) && balance == old(balance)
      ensures amount <= old(balance) ==> r == Pass && balance == old(balance) - amount
      ensures Debit(old(balance), amount) == (if r.Pass? then Success(balance) else Failure(r.error))
      ensures old(balance) >= 0 ==> balance >= 0
    {
      if amount > balance {
        return Fail(BalanceNotEmpty);
      }
      balance := balance - amount;
      return Pass;
    }

    /**
     * Credits `amount`. Throws InvalidRequest, and leaves the balance alone,
     * for a negative amount. The account's status is not consulted.
     */
    method CancelBalance(amount: int) returns (r: Outcome<ErrorCode>)
      modifies this`balance
      ensures amount < 0 ==> r == Fail(InvalidRequest) && balance == old(balance)
      ensures amount >= 0 ==> r == Pass && balance == old(balance) + amount
      ensures Credit(old(balance), amount) == (if r.Pass? then Success(balance) else Failure(r.error))
    {
      if amount < 0 {
        return Fail(InvalidRequest);
      }
      balance := balance + amount;
      return Pass;
    }
  }

  /** A successful use followed by a cancel of the same non-negative amount leaves the balance where it was. */
  method UseThenCancel(account: Account, amount: int) returns (used: Outcome<ErrorCode>, canceled: Outcome<ErrorCode>)
    requires 0 <= amount <= account.balance
    modifies account`balance
    ensures used == Pass && canceled == Pass
    ensures account.balance == old(account.balance)
  {
    used := account.UseBalance(amount);
    canceled := account.CancelBalance(amount);
  }
}

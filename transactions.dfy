/**
 * The transaction record: one immutable fact per attempted use or cancel.
 * The one-to-one parent/child link is kept on the child side only: a cancel
 * record names the transactionId of the record it reverses, and whether a
 * record has a child is derived from the log (TransactionLog.HasChild).
 */
module Transactions {
  import opened Wrappers
  import opened Codes

  datatype Transaction = Transaction(
    transactionType: TransactionType,
    transactionResultType: TransactionResultType,
    account: AccountId,
    amount: int,
    balanceSnapshot: int,
    parent: Option<TxId>,
    transactionId: TxId,
    transactedAt: Timestamp)

  /** How much a record moved the balance of account `id`: failed records and other accounts' records move nothing. */
  function Effect(t: Transaction, id: AccountId): int
  {
    if t.account != id || t.transactionResultType == F then 0
    else if t.transactionType == Use then -t.amount
    else t.amount
  }
}

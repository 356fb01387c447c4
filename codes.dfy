/**
 * Identifiers, enumerations and error codes shared by the account domain and
 * the transaction service (the `type` package of the repository).
 */
module Codes {

  /** Primary key of an account holder (BaseEntity id of AccountUser). */
  type UserId = nat
  /** Primary key of an account (BaseEntity id of Account). */
  type AccountId = nat
  /** The external display number an account is looked up by. */
  type AccountNumber = string
  /** The opaque token a transaction record is looked up by. */
  type TxId = string
  /** A point in time, in some fixed unit; only its order matters. */
  type Timestamp = int

  datatype AccountStatus = InUse | Unregistered

  datatype TransactionType = Use | Cancel

  /** S for success, F for failure, as the source names them. */
  datatype TransactionResultType = S | F

  /** The error codes the core throws (a subset of the repository's ErrorCode enum). */
  datatype ErrorCode =
    | UserNotFound
    | AccountNotFound
    | UserAccountUnMatch
    | AccountAlreadyUnregistered
    | AmountExceedBalance
    | BalanceNotEmpty
    | InvalidRequest
    | TransactionNotFound
    | TransactionAlreadyCanceled
    | TransactionAccountUnMatch
    | CancelMustFully
    | TooOldOrderToCancel
}

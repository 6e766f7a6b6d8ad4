/**
 Error kinds raised by the money-movement services, and the small wrapper
 types that replace Java's nulls and exceptions.

 Each constructor of `Error` stands for one exception class of the service
 layer; the payload records what the exception message identifies.
 */
module Errors {

  /** A Java reference that may be null (or an `Optional` that may be empty). */
  datatype Option<+T> = None | Some(value: T)

  /** Why an `IllegalArgumentException` was raised. */
  datatype Reason =
    | NegativeDeposit     // createAccount: initial deposit below zero
    | NonPositiveAmount   // transferMoney / createTransfer: amount <= 0
    | SelfTransfer        // transferMoney: sender and receiver are the same user

  /** What an `AccountNotFoundException` reports as missing. */
  datatype Missing =
    | SenderAccount(userId: int)     // "Sender account not found for user: <id>"
    | ReceiverAccount(userId: int)   // "Receiver account not found for user: <id>"
    | UnknownUser                    // "User not found"
    | UnknownTransfer                // "Transfer not found"

  /** What an `InsufficientFundsException` reports. */
  datatype Shortfall =
    | LockBusy(lockKey: string)                  // the first lock of the pair was held
    | Balance(current: real, required: real)     // the sender cannot cover the amount

  /** The exception classes of the service layer, kept distinct. */
  datatype Error =
    | IllegalArgument(reason: Reason)
    | AccountNotFound(missing: Missing)
    | InsufficientFunds(shortfall: Shortfall)
    | TransferFailed(lockKey: string)            // TransferException: second lock held
    | NullReference                              // NullPointerException

  /** A `void` operation: it either returns normally or throws. */
  datatype Outcome = Pass | Fail(error: Error)

  /** An operation that returns a value or throws. */
  datatype Result<+T> = Ok(value: T) | Err(error: Error)
}

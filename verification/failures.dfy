/** Error kinds raised by the bank core, and the Option/Result wrappers that stand in
    for Java's null and for thrown exceptions. */
module Failures {

  /** A Java reference that may be null: None is null. */
  datatype Option<+T> = None | Some(value: T)

  /** Which service operation wrapped a lower-level failure ("Deposit failed: ..."). */
  datatype Operation = DepositOperation | WithdrawalOperation | TransferOperation

  /** One constructor per exception the core throws. Messages are kept only where two
      exceptions of the same Java class must be told apart. */
  datatype Error =
    | IllegalArgument(message: string)          // java.lang.IllegalArgumentException
    | NullReference                             // java.lang.NullPointerException
    | IndexOutOfBounds                          // StringIndexOutOfBoundsException
    | InsufficientFunds(available: real)        // base withdraw: amount above balance
    | OverdraftExceeded(available: real)        // current account: amount above balance + overdraft
    | WithdrawalLocked(accountType: string)     // fixed and recurring deposits
    | AccountNotFound(accountNumber: string)    // AccountNotFoundException
    | InvalidAccount(message: string)           // InvalidAccountException
    | InvalidTransaction(message: string)       // InvalidTransactionException
    | UserOperation(subject: string, action: string, message: string)
    | LoanNotFound
    | LoanNotPending                            // approveLoan on a non-PENDING loan
    | LoanNotApproved                           // activateLoan on a non-APPROVED loan
    | LoanNotActive(currentStatus: string)      // makePayment on a non-ACTIVE loan
    | PaymentBelowEmi(paid: real)               // makePayment below the loan's EMI
    | OnlyPendingRejectable                     // rejectLoan on a non-PENDING loan
    | OperationFailed(operation: Operation, cause: Error)

  /** Either a value or the exception that replaced it. */
  datatype Result<+T> = Ok(value: T) | Err(error: Error) {
    predicate IsFailure() {
      Err?
    }

    function PropagateFailure<U>(): Result<U>
      requires Err?
    {
      Err(error)
    }

    function Extract(): T
      requires Ok?
    {
      value
    }
  }

  /** What a service call leaves behind: the state as the call left it (Java mutates in
      place, so a call that throws half-way may still have changed it) and its outcome. */
  datatype Step<S, +T> = Step(state: S, result: Result<T>)
}

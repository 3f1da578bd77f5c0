/** The contract's error taxonomy (`ContractError`). */
module Error {
  import opened Host

  datatype ContractError =
    | Std(std: StdError)
    | Unauthorized
    | Expired(expiration: Expiration)
    | LoanNotFound
    | LoanAlreadyActive
    | InvalidDuration
    | InvalidAmounts
    | InvalidMaxRentDays
    | InvalidLoan(reason: string)

  /** The two reasons Borrow gives with `InvalidLoan`. */
  const NotActiveReason: string := "Loan is not active"
  const AlreadyBorrowedReason: string := "Asset is already borrowed"
}

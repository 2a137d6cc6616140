/** The program's own error codes
    (programs/escrow_contract/src/errors/error_codes.rs). */
module Errors {

  /** `InsufficientFunds` is declared by the program but never raised by it. */
  datatype EscrowError =
    | Unauthorized
    | InvalidState
    | UnlockTimeNotReached
    | UnlockTimeAlreadyReached
    | InsufficientFunds
    | EscrowAlreadyDeposited
    | NoFundsDeposited
    | InvalidAmount
}

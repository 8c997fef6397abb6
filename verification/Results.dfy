/** Success-or-error values for the two on-chain programs. */
module Results {

  datatype Option<+T> = None | Some(value: T)

  /** The error codes of both programs, plus the failures raised by the runtime around them:
      `TokenError` for a rejected token-program call, `AccountError` for a failed account
      constraint, `MissingSignature`, and `ArithmeticPanic` for unchecked overflow. */
  datatype Error =
    | VaultPaused
    | DepositTooSmall
    | DepositTooLarge
    | InsufficientVaultFunds
    | Overflow
    | InvalidAllocation
    | SecondaryMarketDisabled
    | ComplianceCheckFailed
    | InvalidNav
    | NavChangeTooLarge
    | InvalidCredential
    | CredentialExpired
    | TravelRuleRequired
    | InvalidTravelRule
    | OperatorNotAuthorized
    | InvalidMandate
    | MandateBreached
    | ProofOfReserveFailed
    | LiquidityAllocationBreached
    | InvalidVaultTokenAccount
    | AttestationStale
    | AttestationHashMismatch
    | WrongCredentialProgram
    | AssetAlreadyRegistered
    | FactoryFull
    | CredentialNotActive
    | CredentialWalletMismatch
    | CredentialAlreadyRevoked
    | ReceiverCredentialNotActive
    | ReceiverCredentialExpired
    | ZeroShares
    | TravelRuleAlreadyConsumed
    | TokenError
    | AccountError
    | MissingSignature
    | ArithmeticPanic

  datatype Result<+T> = Ok(value: T) | Err(error: Error) {
    predicate IsFailure() { Err? }

    function PropagateFailure<U>(): Result<U>
      requires Err?
    {
      Err(error)
    }

    function Extract(): T
      requires Ok?
    {
      value
    }
  }

  datatype Outcome = Pass | Fail(error: Error) {
    predicate IsFailure() { Fail? }

    function PropagateFailure<U>(): Result<U>
      requires Fail?
    {
      Err(error)
    }
  }

  /** The `require!` macro. */
  function Need(condition: bool, error: Error): Outcome {
    if condition then Pass else Fail(error)
  }

  /** A handler that returned `r` and left the state `after` did what `spec` prescribes. */
  ghost predicate Agrees<S>(r: Result<()>, after: S, spec: Result<S>) {
    match spec
    case Ok(s) => r.Ok? && after == s
    case Err(e) => r == Err(e)
  }
}

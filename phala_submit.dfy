/** The one piece of the destination-ledger client (`src/phala/index.ts`)
    that the relay depends on: how the outcome of a finalized
    `storeErc20BurnedTransactions` submission is classified. */
module PhalaSubmit {

  /** Why a submission failed other than as a duplicate. */
  datatype Cause =
    | ModuleError(section: string, name: string)
    | NonModuleError
    | InvalidTransaction
    | SendFailed

  /** What one submission call ends in: stored, `TransactionHashAlreadyExistError`,
      or any other error. */
  datatype SubmitOutcome = Stored | Duplicate | OtherError(cause: Cause)

  /** A failed extrinsic whose dispatch error is a module error: only the
      claim pallet's `TxHashAlreadyExist` error counts as a duplicate. */
  function ClassifyModuleError(section: string, name: string): (r: SubmitOutcome)
    ensures r.Duplicate? <==> section == "phaClaim" && name == "TxHashAlreadyExist"
    ensures !r.Stored?
    ensures r.OtherError? ==> r.cause == ModuleError(section, name)
  {
    if section == "phaClaim" && name == "TxHashAlreadyExist" then Duplicate
    else OtherError(ModuleError(section, name))
  }
}

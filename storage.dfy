/** The contract's persistent records: the `CONFIG` singleton and the `LOANS` registry. */
module Storage {
  import opened Wrappers
  import opened Host

  /** The deployment's configuration; `source` is whoever instantiated the contract. */
  datatype Config = Config(arbiter: Addr, recipient: Addr, source: Addr, expiration: Option<Expiration>)

  /** One loan record, stored under its asset's address. */
  datatype Loan = Loan(
    lender: Addr,
    borrower: Addr,
    assetAddress: Addr,
    duration: U64,
    collateralAmount: seq<Coin>,
    dailyFeeAmount: seq<Coin>,
    maxRentDays: U64,
    ipfsCid: string,
    startTime: U64,
    isActive: bool)

  /** The empty address, which the contract reads as "nobody is borrowing". */
  const NoBorrower: Addr := ""

  /** The `kind` a failed `load` reports for each record type. */
  const LoanKind: string := "Loan"
  const ConfigKind: string := "Config"

  /** Everything the contract keeps between calls. */
  datatype Store = Store(config: Option<Config>, loans: map<Addr, Loan>)

  /** Every record sits under the key its own `assetAddress` names. */
  ghost predicate KeysMatchAssets(loans: map<Addr, Loan>)
  {
    forall k :: k in loans ==> loans[k].assetAddress == k
  }
}

/** The messages the contract accepts. */
module Msg {
  import opened Wrappers
  import opened Host

  datatype InstantiateMsg = InstantiateMsg(arbiter: Addr, recipient: Addr, expiration: Option<Expiration>)

  /** The execute messages, including `LendToken`, which the dispatcher handles. */
  datatype ExecuteMsg =
    | LendToken(assetAddress: Addr, duration: U64, collateralAmount: seq<Coin>,
                dailyFeeAmount: seq<Coin>, maxRentDays: U64, ipfsCid: string)
    | BorrowToken(assetAddress: Addr)
    | ReturnToken(assetAddress: Addr)
    | WithdrawCollateral(amount: seq<Coin>)
}

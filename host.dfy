/**
 * The pieces of the chain runtime (cosmwasm_std, cw_utils, cw20) that the
 * contract reads or builds. Only their shape is modelled: the host executes
 * the messages, the contract only returns them.
 */
module Host {

  /** An account or contract address (`Addr`); the contract compares them as strings. */
  type Addr = string

  /** Rust's `u64`. */
  type U64 = x: int | 0 <= x < 0x1_0000_0000_0000_0000

  /** Rust's `Uint128`, the amount inside a coin. */
  type U128 = x: int | 0 <= x < 0x1_0000_0000_0000_0000_0000_0000_0000_0000

  /** A native-currency amount of one denomination. */
  datatype Coin = Coin(denom: string, amount: U128)

  /** The block the current call runs in (`env.block`). */
  datatype BlockInfo = BlockInfo(height: U64, time: U64)

  datatype Env = Env(block: BlockInfo)

  /** Who sent the current call (`info.sender`); attached funds play no part here. */
  datatype MessageInfo = MessageInfo(sender: Addr)

  /** `cw_utils::Expiration`: a block height, a block time, or no expiry at all. */
  datatype Expiration = AtHeight(height: U64) | AtTime(time: U64) | Never

  /** `Expiration::is_expired`: the threshold has been reached by the current block. */
  predicate IsExpired(e: Expiration, block: BlockInfo)
  {
    match e
    case AtHeight(h) => block.height >= h
    case AtTime(t) => block.time >= t
    case Never => false
  }

  /** A key/value pair attached to a response for observers. */
  datatype Attribute = Attribute(key: string, value: string)

  /** `BankMsg::Send`: move native coins from the contract to an address. */
  datatype BankMsg = Send(toAddress: Addr, amount: seq<Coin>)

  /**
   * `Cw20ExecuteMsg::Transfer`. The contract fills `amount` with the loan's
   * coin list, so it is typed as that list here.
   */
  datatype Cw20ExecuteMsg = Transfer(recipient: Addr, amount: seq<Coin>)

  /**
   * `WasmMsg::Execute`: call another contract. The payload is kept as the
   * CW20 message value rather than its serialised bytes.
   */
  datatype WasmMsg = Execute(contractAddr: Addr, msg: Cw20ExecuteMsg, funds: seq<Coin>)

  datatype CosmosMsg = Bank(bank: BankMsg) | Wasm(wasm: WasmMsg)

  /** What a handler hands back to the host: messages to execute and attributes. */
  datatype Response = Response(messages: seq<CosmosMsg>, attributes: seq<Attribute>)

  /** `Response::default()`: no messages and no attributes. */
  const EmptyResponse: Response := Response([], [])

  /**
   * The runtime errors the contract's code can propagate with `?`: a storage
   * `load` of a missing key, and an address that fails `addr_validate`.
   */
  datatype StdError = NotFound(kind: string) | InvalidAddress(addr: Addr)
}

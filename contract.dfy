/**
 * The contract's entry points as they run against persistent storage: each
 * handler loads what it needs, checks its guards one after another (returning
 * at the first failure), and saves the updated record at the end. Each method
 * is proved to do exactly what the matching function in Transitions says.
 */
module Contract {
  import opened Wrappers
  import opened Host
  import opened Error
  import opened Msg
  import opened Storage
  import T = Transitions

  class LendingContract {
    /** The `CONFIG` singleton; `None` until instantiate has saved it. */
    var config: Option<Config>
    /** The `LOANS` registry, keyed by asset address. */
    var loans: map<Addr, Loan>

    /** The whole store, for stating what one call does to it. */
    function Snapshot(): Store
      reads this
    {
      Store(config, loans)
    }

    /**
     * Storage before instantiate: no config, and whatever loan records were
     * written by code outside this contract's handlers.
     */
    constructor (existing: map<Addr, Loan>)
      ensures config == None && loans == existing
    {
      config := None;
      loans := existing;
    }

    /** `instantiate`. */
    method Instantiate(env: Env, info: MessageInfo, msg: InstantiateMsg, addrValid: Addr -> bool)
      returns (r: Result<Response, ContractError>)
      modifies this
      ensures loans == old(loans)
      ensures T.ConfigStep(r, config) == T.Instantiate(old(config), env, info, msg, addrValid)
    {
      if !addrValid(msg.arbiter) {
        return Err(Std(InvalidAddress(msg.arbiter)));
      }
      if !addrValid(msg.recipient) {
        return Err(Std(InvalidAddress(msg.recipient)));
      }
      var cfg := Config(msg.arbiter, msg.recipient, info.sender, msg.expiration);
      if msg.expiration.Some? {
        var expiration := msg.expiration.value;
        if IsExpired(expiration, env.block) {
          return Err(Expired(expiration));
        }
      }
      config := Some(cfg);
      r := Ok(EmptyResponse);
    }

    /** `execute`: dispatch the message to its handler. */
    method Execute(env: Env, info: MessageInfo, msg: ExecuteMsg) returns (r: Result<Response, ContractError>)
      modifies this
      ensures T.Outcome(r, Snapshot()) == T.Execute(old(Snapshot()), env, info, msg)
    {
      match msg
      case LendToken(asset, duration, collateralAmount, dailyFeeAmount, maxRentDays, ipfsCid) =>
        r := LendToken(env, info, asset, duration, collateralAmount, dailyFeeAmount, maxRentDays, ipfsCid);
      case BorrowToken(asset) =>
        r := BorrowToken(env, info, asset);
      case ReturnToken(asset) =>
        r := ReturnToken(env, info, asset);
      case WithdrawCollateral(amount) =>
        r := WithdrawCollateral(env, info, amount);
    }

    /** `execute_lend_token`. */
    method LendToken(env: Env, info: MessageInfo, asset: Addr, duration: U64,
                     collateralAmount: seq<Coin>, dailyFeeAmount: seq<Coin>, maxRentDays: U64,
                     ipfsCid: string)
      returns (r: Result<Response, ContractError>)
      modifies this
      ensures config == old(config)
      ensures T.LoanStep(r, loans) ==
              T.Lend(old(loans), info.sender, asset, duration, collateralAmount, dailyFeeAmount,
                     maxRentDays, ipfsCid)
    {
      if asset !in loans {
        return Err(LoanNotFound);
      }
      var loan := loans[asset];
      if loan.lender != info.sender {
        return Err(Unauthorized);
      }
      if loan.borrower != NoBorrower {
        return Err(LoanAlreadyActive);
      }
      if duration == 0 {
        return Err(InvalidDuration);
      }
      if collateralAmount == [] || dailyFeeAmount == [] {
        return Err(InvalidAmounts);
      }
      if maxRentDays == 0 {
        return Err(InvalidMaxRentDays);
      }
      var updated := loan.(duration := duration, collateralAmount := collateralAmount,
                           dailyFeeAmount := dailyFeeAmount, maxRentDays := maxRentDays,
                           ipfsCid := ipfsCid);
      loans := loans[asset := updated];
      r := Ok(EmptyResponse);
    }

    /** `execute_borrow_token`. */
    method BorrowToken(env: Env, info: MessageInfo, asset: Addr) returns (r: Result<Response, ContractError>)
      modifies this
      ensures config == old(config)
      ensures T.LoanStep(r, loans) == T.Borrow(old(loans), info.sender, asset)
    {
      if asset !in loans {
        return Err(Std(NotFound(LoanKind)));
      }
      var loan := loans[asset];
      if !loan.isActive {
        return Err(InvalidLoan(NotActiveReason));
      }
      if info.sender == loan.lender {
        return Err(Unauthorized);
      }
      if loan.borrower != NoBorrower {
        return Err(InvalidLoan(AlreadyBorrowedReason));
      }
      var transfer := Transfer(loan.lender, loan.collateralAmount);
      var executeMsg := WasmMsg.Execute(loan.assetAddress, transfer, []);
      var response := Response([Wasm(executeMsg)], []);
      var updated := loan.(borrower := info.sender);
      loans := loans[asset := updated];
      r := Ok(response);
    }

    /** `execute_return_token`. */
    method ReturnToken(env: Env, info: MessageInfo, asset: Addr) returns (r: Result<Response, ContractError>)
      modifies this
      ensures config == old(config)
      ensures T.LoanStep(r, loans) == T.Return(old(loans), info.sender, env.block.time, asset)
    {
      if asset !in loans {
        return Err(Std(NotFound(LoanKind)));
      }
      var loan := loans[asset];
      if !loan.isActive {
        return Err(LoanNotFound);
      }
      if info.sender != loan.borrower {
        return Err(Unauthorized);
      }
      if env.block.time > loan.startTime + loan.duration {
        return Err(LoanNotFound);
      }
      var updated := loan.(isActive := false);
      loans := loans[asset := updated];
      r := Ok(EmptyResponse);
    }

    /** `execute_withdraw_collateral`: reads the config and builds a response; stores nothing. */
    method WithdrawCollateral(env: Env, info: MessageInfo, amount: seq<Coin>)
      returns (r: Result<Response, ContractError>)
      ensures r == T.WithdrawCollateral(config, info.sender, amount)
    {
      if config.None? {
        return Err(Std(NotFound(ConfigKind)));
      }
      var cfg := config.value;
      if info.sender != cfg.source {
        return Err(Unauthorized);
      }
      var recipient := info.sender;
      var response := Response([Bank(Send(recipient, amount))],
                               [Attribute("action", "withdraw_collateral"), Attribute("recipient", recipient)]);
      r := Ok(response);
    }
  }
}

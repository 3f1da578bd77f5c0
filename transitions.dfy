/**
 * The contract's handlers as functions of the stored state and the call.
 * Each one runs the source's guard chain (the first failing check decides the
 * error), builds the next record, and answers with the response and the
 * registry it leaves. The imperative handlers in module Contract are proved
 * equal to these; the properties the contract promises are stated here.
 */
module Transitions {
  import opened Wrappers
  import opened Host
  import opened Error
  import opened Msg
  import opened Storage

  /** A handler's result together with the `LOANS` registry after the call. */
  datatype LoanStep = LoanStep(result: Result<Response, ContractError>, loans: map<Addr, Loan>)

  /** Instantiate's result together with the `CONFIG` singleton after the call. */
  datatype ConfigStep = ConfigStep(result: Result<Response, ContractError>, config: Option<Config>)

  /** An execute call's result together with the whole store after it. */
  datatype Outcome = Outcome(result: Result<Response, ContractError>, store: Store)

  /** Every key except `asset` keeps its record, and no key is added or removed. */
  ghost predicate OnlyTouches(before: map<Addr, Loan>, after: map<Addr, Loan>, asset: Addr)
  {
    after.Keys == before.Keys &&
    forall k :: k in before && k != asset ==> after[k] == before[k]
  }

  /**
   * `instantiate`: validate the two addresses, refuse an expiration the
   * current block has already reached, then save a config whose `source` is
   * the sender.
   */
  function Instantiate(config: Option<Config>, env: Env, info: MessageInfo, msg: InstantiateMsg,
                       addrValid: Addr -> bool): (r: ConfigStep)
    ensures r.result.Ok? <==>
              addrValid(msg.arbiter) && addrValid(msg.recipient) &&
              !(msg.expiration.Some? && IsExpired(msg.expiration.value, env.block))
    ensures r.result.Err? ==> r.config == config
    ensures !addrValid(msg.arbiter) ==> r.result == Err(Std(InvalidAddress(msg.arbiter)))
    ensures addrValid(msg.arbiter) && !addrValid(msg.recipient) ==>
              r.result == Err(Std(InvalidAddress(msg.recipient)))
    ensures (addrValid(msg.arbiter) && addrValid(msg.recipient) &&
             msg.expiration.Some? && IsExpired(msg.expiration.value, env.block)) ==>
              r.result == Err(Expired(msg.expiration.value))
    ensures r.result.Ok? ==>
              r.result.value == EmptyResponse &&
              r.config.Some? && r.config.value.source == info.sender &&
              r.config.value.arbiter == msg.arbiter && r.config.value.recipient == msg.recipient &&
              r.config.value.expiration == msg.expiration
  {
    if !addrValid(msg.arbiter) then ConfigStep(Err(Std(InvalidAddress(msg.arbiter))), config)
    else if !addrValid(msg.recipient) then ConfigStep(Err(Std(InvalidAddress(msg.recipient))), config)
    else if msg.expiration.Some? && IsExpired(msg.expiration.value, env.block) then
      ConfigStep(Err(Expired(msg.expiration.value)), config)
    else
      ConfigStep(Ok(EmptyResponse), Some(Config(msg.arbiter, msg.recipient, info.sender, msg.expiration)))
  }

  /** The listing parameters a lender may set on an unborrowed record. */
  predicate ValidListing(duration: U64, collateralAmount: seq<Coin>, dailyFeeAmount: seq<Coin>, maxRentDays: U64)
  {
    duration != 0 && collateralAmount != [] && dailyFeeAmount != [] && maxRentDays != 0
  }

  /** `execute_lend_token`: the lender refreshes the parameters of an unborrowed listing. */
  function Lend(loans: map<Addr, Loan>, sender: Addr, asset: Addr, duration: U64,
                collateralAmount: seq<Coin>, dailyFeeAmount: seq<Coin>, maxRentDays: U64,
                ipfsCid: string): (r: LoanStep)
    // failures leave the registry as it was
    ensures r.result.Err? ==> r.loans == loans
    ensures r.result.Ok? <==>
              asset in loans && sender == loans[asset].lender && loans[asset].borrower == NoBorrower &&
              ValidListing(duration, collateralAmount, dailyFeeAmount, maxRentDays)
    // the checks in the order they run; the first one that fails names the error
    ensures asset !in loans ==> r.result == Err(LoanNotFound)
    ensures asset in loans && sender != loans[asset].lender ==> r.result == Err(Unauthorized)
    ensures asset in loans && sender == loans[asset].lender && loans[asset].borrower != NoBorrower ==>
              r.result == Err(LoanAlreadyActive)
    ensures (asset in loans && sender == loans[asset].lender && loans[asset].borrower == NoBorrower &&
             duration == 0) ==> r.result == Err(InvalidDuration)
    ensures (asset in loans && sender == loans[asset].lender && loans[asset].borrower == NoBorrower &&
             duration != 0 && (collateralAmount == [] || dailyFeeAmount == [])) ==>
              r.result == Err(InvalidAmounts)
    ensures (asset in loans && sender == loans[asset].lender && loans[asset].borrower == NoBorrower &&
             duration != 0 && collateralAmount != [] && dailyFeeAmount != [] && maxRentDays == 0) ==>
              r.result == Err(InvalidMaxRentDays)
    // success: the new parameters are stored, the rest of the record and the registry are kept
    ensures r.result.Ok? ==>
              r.result.value == EmptyResponse && OnlyTouches(loans, r.loans, asset) &&
              var was, now := loans[asset], r.loans[asset];
              now.duration == duration && now.collateralAmount == collateralAmount &&
              now.dailyFeeAmount == dailyFeeAmount && now.maxRentDays == maxRentDays &&
              now.ipfsCid == ipfsCid &&
              now.lender == was.lender && now.borrower == was.borrower &&
              now.assetAddress == was.assetAddress && now.startTime == was.startTime &&
              now.isActive == was.isActive
  {
    if asset !in loans then LoanStep(Err(LoanNotFound), loans)
    else
      var loan := loans[asset];
      if loan.lender != sender then LoanStep(Err(Unauthorized), loans)
      else if loan.borrower != NoBorrower then LoanStep(Err(LoanAlreadyActive), loans)
      else if duration == 0 then LoanStep(Err(InvalidDuration), loans)
      else if collateralAmount == [] || dailyFeeAmount == [] then LoanStep(Err(InvalidAmounts), loans)
      else if maxRentDays == 0 then LoanStep(Err(InvalidMaxRentDays), loans)
      else
        var updated := loan.(duration := duration, collateralAmount := collateralAmount,
                             dailyFeeAmount := dailyFeeAmount, maxRentDays := maxRentDays,
                             ipfsCid := ipfsCid);
        LoanStep(Ok(EmptyResponse), loans[asset := updated])
  }

  /** The CW20 call Borrow emits: the asset's contract transfers the collateral to the lender. */
  function CollateralTransfer(loan: Loan): CosmosMsg
  {
    Wasm(WasmMsg.Execute(loan.assetAddress, Transfer(loan.lender, loan.collateralAmount), []))
  }

  /** `execute_borrow_token`: someone other than the lender takes an active, unborrowed loan. */
  function Borrow(loans: map<Addr, Loan>, sender: Addr, asset: Addr): (r: LoanStep)
    ensures r.result.Err? ==> r.loans == loans
    ensures r.result.Ok? <==>
              asset in loans && loans[asset].isActive && sender != loans[asset].lender &&
              loans[asset].borrower == NoBorrower
    ensures asset !in loans ==> r.result == Err(Std(NotFound(LoanKind)))
    ensures asset in loans && !loans[asset].isActive ==> r.result == Err(InvalidLoan(NotActiveReason))
    ensures asset in loans && loans[asset].isActive && sender == loans[asset].lender ==>
              r.result == Err(Unauthorized)
    ensures (asset in loans && loans[asset].isActive && sender != loans[asset].lender &&
             loans[asset].borrower != NoBorrower) ==> r.result == Err(InvalidLoan(AlreadyBorrowedReason))
    // success: exactly one CW20 transfer of the collateral to the lender, and only the borrower changes
    ensures r.result.Ok? ==>
              var was := loans[asset];
              r.result.value.attributes == [] &&
              |r.result.value.messages| == 1 &&
              r.result.value.messages[0].Wasm? &&
              r.result.value.messages[0].wasm.contractAddr == was.assetAddress &&
              r.result.value.messages[0].wasm.msg == Transfer(was.lender, was.collateralAmount) &&
              r.result.value.messages[0].wasm.funds == [] &&
              OnlyTouches(loans, r.loans, asset) &&
              r.loans[asset].borrower == sender &&
              r.loans[asset] == was.(borrower := sender)
  {
    if asset !in loans then LoanStep(Err(Std(NotFound(LoanKind))), loans)
    else
      var loan := loans[asset];
      if !loan.isActive then LoanStep(Err(InvalidLoan(NotActiveReason)), loans)
      else if sender == loan.lender then LoanStep(Err(Unauthorized), loans)
      else if loan.borrower != NoBorrower then LoanStep(Err(InvalidLoan(AlreadyBorrowedReason)), loans)
      else
        LoanStep(Ok(Response([CollateralTransfer(loan)], [])), loans[asset := loan.(borrower := sender)])
  }

  /** The last block time at which a loan may still be returned. */
  function ReturnDeadline(loan: Loan): int
  {
    loan.startTime + loan.duration
  }

  /** `execute_return_token`: the borrower hands back an active loan before its deadline. */
  function Return(loans: map<Addr, Loan>, sender: Addr, now: U64, asset: Addr): (r: LoanStep)
    ensures r.result.Err? ==> r.loans == loans
    ensures r.result.Ok? <==>
              asset in loans && loans[asset].isActive && sender == loans[asset].borrower &&
              now <= loans[asset].startTime + loans[asset].duration
    ensures asset !in loans ==> r.result == Err(Std(NotFound(LoanKind)))
    ensures asset in loans && !loans[asset].isActive ==> r.result == Err(LoanNotFound)
    ensures asset in loans && loans[asset].isActive && sender != loans[asset].borrower ==>
              r.result == Err(Unauthorized)
    ensures (asset in loans && loans[asset].isActive && sender == loans[asset].borrower &&
             now > loans[asset].startTime + loans[asset].duration) ==> r.result == Err(LoanNotFound)
    // success: nothing is sent, and only the active flag is cleared
    ensures r.result.Ok? ==>
              r.result.value == EmptyResponse &&
              OnlyTouches(loans, r.loans, asset) &&
              !r.loans[asset].isActive &&
              r.loans[asset] == loans[asset].(isActive := false)
  {
    if asset !in loans then LoanStep(Err(Std(NotFound(LoanKind))), loans)
    else
      var loan := loans[asset];
      if !loan.isActive then LoanStep(Err(LoanNotFound), loans)
      else if sender != loan.borrower then LoanStep(Err(Unauthorized), loans)
      else if now > ReturnDeadline(loan) then LoanStep(Err(LoanNotFound), loans)
      else LoanStep(Ok(EmptyResponse), loans[asset := loan.(isActive := false)])
  }

  /** `execute_withdraw_collateral`: only the deployer may have coins sent to itself. */
  function WithdrawCollateral(config: Option<Config>, sender: Addr, amount: seq<Coin>)
    : (r: Result<Response, ContractError>)
    ensures config.None? ==> r == Err(Std(NotFound(ConfigKind)))
    ensures config.Some? && sender != config.value.source ==> r == Err(Unauthorized)
    ensures r.Ok? <==> config.Some? && sender == config.value.source
    ensures r.Ok? ==>
              r.value.messages == [Bank(Send(sender, amount))] &&
              r.value.attributes == [Attribute("action", "withdraw_collateral"), Attribute("recipient", sender)]
  {
    if config.None? then Err(Std(NotFound(ConfigKind)))
    else if sender != config.value.source then Err(Unauthorized)
    else
      Ok(Response([Bank(Send(sender, amount))],
                  [Attribute("action", "withdraw_collateral"), Attribute("recipient", sender)]))
  }

  /**
   * `execute`: hand the message to its handler. No handler touches the
   * config, adds or removes a record, or changes a record's lender or asset
   * address; a failed call changes nothing; a record that has a borrower keeps
   * it, and a record that is inactive stays inactive.
   */
  function Execute(s: Store, env: Env, info: MessageInfo, msg: ExecuteMsg): (o: Outcome)
    ensures o.store.config == s.config
    ensures o.result.Err? ==> o.store == s
    ensures o.store.loans.Keys == s.loans.Keys
    ensures forall k :: k in s.loans ==>
              o.store.loans[k].lender == s.loans[k].lender &&
              o.store.loans[k].assetAddress == s.loans[k].assetAddress
    ensures forall k :: k in s.loans && s.loans[k].borrower != NoBorrower ==>
              o.store.loans[k].borrower == s.loans[k].borrower
    ensures forall k :: k in s.loans && !s.loans[k].isActive ==> !o.store.loans[k].isActive
    ensures msg.WithdrawCollateral? ==> o.store == s
  {
    match msg
    case LendToken(asset, duration, collateralAmount, dailyFeeAmount, maxRentDays, ipfsCid) =>
      var st := Lend(s.loans, info.sender, asset, duration, collateralAmount, dailyFeeAmount,
                     maxRentDays, ipfsCid);
      Outcome(st.result, s.(loans := st.loans))
    case BorrowToken(asset) =>
      var st := Borrow(s.loans, info.sender, asset);
      Outcome(st.result, s.(loans := st.loans))
    case ReturnToken(asset) =>
      var st := Return(s.loans, info.sender, env.block.time, asset);
      Outcome(st.result, s.(loans := st.loans))
    case WithdrawCollateral(amount) =>
      Outcome(WithdrawCollateral(s.config, info.sender, amount), s)
  }
}

/**
 * What holds of the contract over any sequence of execute calls. No handler
 * creates, deletes or re-keys a record, none touches the config, a borrower
 * once recorded is never cleared, and an inactive record is never made active
 * again, so a loan can be borrowed at most once and returned at most once.
 */
module Lifecycle {
  import opened Wrappers
  import opened Host
  import opened Error
  import opened Msg
  import opened Storage
  import T = Transitions

  /** One execute call as the host delivers it. */
  datatype Call = Call(env: Env, info: MessageInfo, msg: ExecuteMsg)

  /** The store after the calls have run one after another, each on the store the previous left. */
  function Run(s: Store, calls: seq<Call>): Store
    decreases |calls|
  {
    if calls == [] then s
    else Run(T.Execute(s, calls[0].env, calls[0].info, calls[0].msg).store, calls[1..])
  }

  /** The store after the first call of the trace. */
  function Next(s: Store, calls: seq<Call>): Store
    requires calls != []
  {
    T.Execute(s, calls[0].env, calls[0].info, calls[0].msg).store
  }

  lemma {:induction false} RunKeepsConfig(s: Store, calls: seq<Call>)
    ensures Run(s, calls).config == s.config
    decreases |calls|
  {
    if calls != [] {
      RunKeepsConfig(Next(s, calls), calls[1..]);
    }
  }

  lemma {:induction false} RunKeepsRegistry(s: Store, calls: seq<Call>)
    ensures Run(s, calls).loans.Keys == s.loans.Keys
    ensures forall k :: k in s.loans ==>
              Run(s, calls).loans[k].lender == s.loans[k].lender &&
              Run(s, calls).loans[k].assetAddress == s.loans[k].assetAddress
    decreases |calls|
  {
    if calls != [] {
      RunKeepsRegistry(Next(s, calls), calls[1..]);
    }
  }

  /** Records stay under the key their own asset address names. */
  lemma {:induction false} RunKeepsKeysMatchAssets(s: Store, calls: seq<Call>)
    requires KeysMatchAssets(s.loans)
    ensures KeysMatchAssets(Run(s, calls).loans)
  {
    RunKeepsRegistry(s, calls);
  }

  /** With records under their own asset addresses, Borrow's transfer goes to the asset it was called for. */
  lemma BorrowAddressesKey(loans: map<Addr, Loan>, sender: Addr, asset: Addr)
    requires KeysMatchAssets(loans)
    requires T.Borrow(loans, sender, asset).result.Ok?
    ensures T.Borrow(loans, sender, asset).result.value.messages[0].wasm.contractAddr == asset
  {
  }

  lemma {:induction false} RunKeepsBorrower(s: Store, calls: seq<Call>, asset: Addr)
    requires asset in s.loans && s.loans[asset].borrower != NoBorrower
    ensures asset in Run(s, calls).loans
    ensures Run(s, calls).loans[asset].borrower == s.loans[asset].borrower
    decreases |calls|
  {
    if calls != [] {
      RunKeepsBorrower(Next(s, calls), calls[1..], asset);
    }
  }

  lemma {:induction false} RunKeepsInactive(s: Store, calls: seq<Call>, asset: Addr)
    requires asset in s.loans && !s.loans[asset].isActive
    ensures asset in Run(s, calls).loans
    ensures !Run(s, calls).loans[asset].isActive
    decreases |calls|
  {
    if calls != [] {
      RunKeepsInactive(Next(s, calls), calls[1..], asset);
    }
  }

  /**
   * After a successful Borrow (by a non-empty address), whatever happens
   * later, the loan can be neither borrowed again nor re-listed.
   */
  lemma {:induction false} BorrowIsFinal(s: Store, env: Env, info: MessageInfo, asset: Addr,
                                         later: seq<Call>, sender: Addr, duration: U64,
                                         collateralAmount: seq<Coin>, dailyFeeAmount: seq<Coin>,
                                         maxRentDays: U64, ipfsCid: string)
    requires T.Execute(s, env, info, BorrowToken(asset)).result.Ok?
    requires info.sender != NoBorrower
    ensures var t := Run(T.Execute(s, env, info, BorrowToken(asset)).store, later);
            T.Borrow(t.loans, sender, asset).result.Err? &&
            T.Borrow(t.loans, sender, asset).result.error in
              {InvalidLoan(NotActiveReason), Unauthorized, InvalidLoan(AlreadyBorrowedReason)} &&
            var relist := T.Lend(t.loans, sender, asset, duration, collateralAmount,
                                 dailyFeeAmount, maxRentDays, ipfsCid);
            relist.result.Err? && relist.result.error in
              {Unauthorized, LoanAlreadyActive}
  {
    var s1 := T.Execute(s, env, info, BorrowToken(asset)).store;
    assert s1.loans[asset].borrower == info.sender;
    RunKeepsBorrower(s1, later, asset);
  }

  /**
   * After a successful Return, whatever happens later, the loan can be
   * neither borrowed nor returned again.
   */
  lemma {:induction false} ReturnIsFinal(s: Store, env: Env, info: MessageInfo, asset: Addr,
                                         later: seq<Call>, sender: Addr, now: U64)
    requires T.Execute(s, env, info, ReturnToken(asset)).result.Ok?
    ensures var t := Run(T.Execute(s, env, info, ReturnToken(asset)).store, later);
            T.Borrow(t.loans, sender, asset).result == Err(InvalidLoan(NotActiveReason)) &&
            T.Return(t.loans, sender, now, asset).result == Err(LoanNotFound)
  {
    var s1 := T.Execute(s, env, info, ReturnToken(asset)).store;
    RunKeepsInactive(s1, later, asset);
  }

  /** Withdrawing is the deployer's alone, at any point of any trace after instantiate. */
  lemma {:induction false} WithdrawStaysWithSource(s: Store, calls: seq<Call>, sender: Addr, amount: seq<Coin>)
    requires s.config.Some? && sender != s.config.value.source
    ensures T.WithdrawCollateral(Run(s, calls).config, sender, amount) == Err(Unauthorized)
  {
    RunKeepsConfig(s, calls);
  }
}

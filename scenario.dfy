/**
 * A deployment walked through the contract's methods. Storage already holds
 * an active, unborrowed record for asset "X" whose lender is A, and A
 * instantiates the contract. B, not being the lender, cannot re-list "X";
 * B then borrows it and the collateral transfer names A; C then cannot
 * borrow it; and B cannot withdraw collateral.
 */
module Scenario {
  import opened Wrappers
  import opened Host
  import opened Error
  import opened Msg
  import opened Storage
  import opened Contract

  method BorrowThenBorrowAgain(env: Env)
  {
    var usd := [Coin("usd", 100)];
    var fee := [Coin("usd", 1)];
    var x := Loan("A", NoBorrower, "X", 10, usd, fee, 5, "cid", 0, true);
    var c := new LendingContract(map["X" := x]);
    var init := c.Instantiate(env, MessageInfo("A"), InstantiateMsg("arb", "rcp", None), _ => true);
    assert init.Ok? && c.config.value.source == "A";

    var lendByB := c.Execute(env, MessageInfo("B"), LendToken("X", 20, usd, fee, 5, "cid"));
    assert lendByB == Err(Unauthorized);

    var borrowByB := c.Execute(env, MessageInfo("B"), BorrowToken("X"));
    assert borrowByB.Ok?;
    assert borrowByB.value.messages == [Wasm(WasmMsg.Execute("X", Transfer("A", usd), []))];
    assert c.loans["X"].borrower == "B";

    var borrowByC := c.Execute(env, MessageInfo("C"), BorrowToken("X"));
    assert borrowByC == Err(InvalidLoan(AlreadyBorrowedReason));

    var withdrawByB := c.Execute(env, MessageInfo("B"), WithdrawCollateral(usd));
    assert withdrawByB == Err(Unauthorized);
  }
}

# Lending contract: a Dafny model of its loan state machine

The contract keeps a `CONFIG` singleton (arbiter, recipient, the deploying
`source`, an optional expiration) and a `LOANS` registry that maps an asset
address to one `Loan` record. Four execute handlers act on that state:

- **LendToken**: the lender refreshes the listing parameters of an unborrowed record.
- **BorrowToken**: someone other than the lender takes an active, unborrowed loan.
  The call emits a CW20 `Transfer` of the collateral to the lender.
- **ReturnToken**: the borrower clears the active flag before the deadline.
- **WithdrawCollateral**: only the deployer may have native coins sent to itself.

`instantiate` saves the config. It refuses an expiration the current block has
already reached. `execute` dispatches a message to its handler.

The model has three layers.

- Module `Transitions` gives each handler as a function of the stored state and the call.
  Its contract states the properties the contract promises:
  - the guard order, in which the first failing check names the error;
  - that a failure changes nothing;
  - which record fields are kept and which are replaced;
  - the exact messages and attributes emitted.
- Class `Contract.LendingContract` holds `config` and `loans` as fields.
  Each handler is an imperative method with early returns, written the way the source is.
  Each method is proved to do exactly what its `Transitions` function says.
- Module `Lifecycle` runs any sequence of execute calls. It proves what holds over the
  whole sequence:
  - the config and the set of keys never change;
  - lenders and asset addresses never change;
  - a recorded borrower is never cleared;
  - an inactive record never becomes active again.

  So a loan can be borrowed at most once and returned at most once.

`Scenario.BorrowThenBorrowAgain` walks one deployment through the class's methods.

Files: `wrappers.dfy` (Option, Result), `host.dfy` (runtime types: addresses,
coins, block info, expiration, messages, responses, runtime errors), `error.dfy`
(`ContractError`), `msg.dfy` (instantiate and execute messages), `storage.dfy`
(`Config`, `Loan`, the store), `transitions.dfy`, `contract.dfy`,
`lifecycle.dfy`, `scenario.dfy`.

On these points the model follows the code as written:

- The borrower's absence is the empty address `""` (`Storage.NoBorrower`), not an optional value.
- `is_active` and `borrower` stay two separate fields.
- `LoanNotFound` is reused both for an inactive loan and for an expired one in ReturnToken.
- ReturnToken emits nothing.
- A missing record in BorrowToken and ReturnToken fails with the runtime's not-found error,
  because those handlers use an unchecked `load`. In LendToken it fails with `LoanNotFound`.

Reconstructions of names `src/contract.rs` uses that its imports, `src/error.rs` and `src/msg.rs` do not define:

- `ExecuteMsg` has a `LendToken` variant, because the dispatcher matches on one.
- `ContractError` has `Expired` and `Std` variants. Both are commented out in `src/error.rs`,
  but the code raises them with `Err(...)` and `?`.
- `state.rs` is not part of this model. `Config` and `Loan` are rebuilt from how the code uses them.
- `instantiate` reads `env.block`, but its parameter is named `_env`. The model passes the environment in.
- `CONFIG` is not imported, but `instantiate` saves it and WithdrawCollateral loads it. The model treats it as the config singleton.
- `WasmMsg` is not imported, but BorrowToken builds a `WasmMsg::Execute`. The model defines it as `Host.WasmMsg`.
- Time has one unit. `env.block.time` is a runtime `Timestamp`, while `start_time` and `duration` take their types from `state.rs`. The model compares all three as plain 64-bit counts, and `start_time + duration` uses that unit too.
- The `Loan` literal in LendToken does not set `is_active`. The model assumes that field is
  carried over unchanged.

## Model

| member | source | states |
|---|---|---|
| Transitions.Instantiate | src/contract.rs:17-39 | succeeds iff both addresses validate and the expiration, if any, has not been reached. The arbiter is checked first, then the recipient, then the expiration (`Expired`). On success the saved config has `source` = sender and the message's arbiter, recipient and expiration, and the response is empty. On failure the config is unchanged. |
| Transitions.Lend | src/contract.rs:79-142 | a missing record gives `LoanNotFound`. Then, in order, the first failing check names the error: caller is not the lender (`Unauthorized`), borrower not `""` (`LoanAlreadyActive`), zero duration, an empty amount list, zero max rent days. Success happens iff all checks pass. It stores the new duration, collateral, daily fee, max rent days and content id. It keeps lender, borrower, asset address, start time and active flag, leaves every other key untouched and emits nothing. Failure leaves `LOANS` as it was. |
| Transitions.Borrow | src/contract.rs:144-195 | a missing record gives the not-found error. Then, in order: inactive gives `InvalidLoan("Loan is not active")`, caller is the lender gives `Unauthorized`, borrower already set gives `InvalidLoan("Asset is already borrowed")`. Success happens iff all checks pass. It emits exactly one CW20 `Transfer` to the record's asset contract, with recipient = lender, amount = collateral and no funds. It sets borrower := caller and changes no other field or key. Failure leaves `LOANS` as it was. |
| Transitions.Return | src/contract.rs:197-232 | a missing record gives the not-found error. Then, in order: inactive gives `LoanNotFound`, caller not the borrower gives `Unauthorized`, block time > start time + duration gives `LoanNotFound`. Success happens iff all checks pass, so a return at exactly the deadline succeeds. It clears only `is_active`, leaves other keys untouched and emits nothing. |
| Transitions.WithdrawCollateral | src/contract.rs:234-259 | fails with the not-found error without a config, and with `Unauthorized` for any caller other than `config.source`. Success happens iff the caller is the source. It emits exactly one bank `Send` of exactly `amount` to the caller, with attributes `action=withdraw_collateral` and `recipient=<caller>`. |
| Transitions.Execute | src/contract.rs:42-77 | dispatches each message to its handler. No execute call changes the config, adds or removes a key, or changes a record's lender or asset address. A failed call changes nothing. A set borrower is never cleared and an inactive record never becomes active. WithdrawCollateral changes nothing. |
| Contract.LendingContract.Instantiate | src/contract.rs:17-39 | the imperative entry point returns and saves exactly what `Transitions.Instantiate` gives for the old config, and leaves `loans` alone. |
| Contract.LendingContract.Execute | src/contract.rs:42-77 | the result and the new store are exactly what `Transitions.Execute` gives for the old store. |
| Contract.LendingContract.LendToken | src/contract.rs:79-142 | the result and the new `loans` are exactly `Transitions.Lend` of the old `loans`. The config is unchanged. |
| Contract.LendingContract.BorrowToken | src/contract.rs:144-195 | the result and the new `loans` are exactly `Transitions.Borrow` of the old `loans`. The config is unchanged. |
| Contract.LendingContract.ReturnToken | src/contract.rs:197-232 | the result and the new `loans` are exactly `Transitions.Return` of the old `loans` at the block time. The config is unchanged. |
| Contract.LendingContract.WithdrawCollateral | src/contract.rs:234-259 | changes nothing and returns exactly `Transitions.WithdrawCollateral` of the stored config. |
| Lifecycle.RunKeepsConfig | src/contract.rs:48-76 | no sequence of execute calls changes the config. Only instantiate saves it. |
| Lifecycle.RunKeepsRegistry | src/contract.rs:123-228 | over any sequence of execute calls the set of keys stays the same, and every record keeps its lender and asset address. |
| Lifecycle.RunKeepsKeysMatchAssets | src/contract.rs:177-191 | if every record sits under its own asset address, that stays true over any sequence of calls. |
| Lifecycle.BorrowAddressesKey | src/contract.rs:177-191 | when every record sits under its own asset address, a successful Borrow's transfer is addressed to the asset contract whose key it was called with. |
| Lifecycle.RunKeepsBorrower | src/contract.rs:103-190 | once a record has a borrower other than `""`, no sequence of calls changes it. |
| Lifecycle.RunKeepsInactive | src/contract.rs:153-227 | once a record is inactive, no sequence of calls makes it active again. |
| Lifecycle.BorrowIsFinal | src/contract.rs:151-191 | after a successful Borrow by a non-empty address and any later calls, Borrow of that asset fails for every caller. A re-listing through Lend fails too, with `Unauthorized` or `LoanAlreadyActive`. |
| Lifecycle.ReturnIsFinal | src/contract.rs:153-228 | after a successful Return and any later calls, Borrow fails with `InvalidLoan("Loan is not active")` and Return fails with `LoanNotFound`. |
| Lifecycle.WithdrawStaysWithSource | src/contract.rs:241-246 | after instantiate, anyone other than the source keeps getting `Unauthorized` from WithdrawCollateral at every point of every sequence of calls. |

## Left out

- Transitions.Return: the deadline `start_time + duration` is computed over unbounded integers. How the source behaves when the 64-bit sum overflows (a panic or a wrap-around) depends on the crate's `overflow-checks` profile setting, which the model does not fix.
- Contract.LendingContract.ReturnToken: the same unbounded deadline sum as `Transitions.Return`.
- Lifecycle.BorrowIsFinal: assumes the borrower's address is not empty. A Borrow sent from `""` would record the sentinel again, but the runtime never delivers an empty sender.
- `set_contract_version` (cw2 metadata) is left out. It only writes version strings.
- `addr_validate` is foreign code. It is the parameter `addrValid`, and a failure is `StdError.InvalidAddress`.
- `Expiration::is_expired` is cw_utils code. It is reduced to height/time thresholds (`Host.IsExpired`).
- `to_binary` serialisation is left out. The CW20 payload is kept as a message value.
- The CW20 `Transfer` amount is kept as the coin list the code passes. A real cw20 `Transfer` takes one `Uint128`.
- BorrowToken's comment says the collateral moves from the borrower to the lender. A CW20 `Transfer` sent by the contract moves the contract's own balance, though, and it is addressed to the asset's contract, so it moves the asset token rather than a collateral token. The model keeps the message as written (`Transitions.CollateralTransfer`), and what the host does with it is not modelled.
- The runtime's `SubMsg` wrapper, response events and data are left out.
- How the host executes emitted messages is left out. This covers bank and CW20 balance movement, and rolling back a call whose message is rejected.
- The query path (`QueryMsg::Arbiter`) is left out. `src/contract.rs` has no query handler.
- The `thiserror` display strings are left out. Only the variants and the `reason` payload are kept.
- A not-found error reports its record type only by a short name (`Loan`, `Config`), not by Rust's full type name.
- Fee and interest settlement on return is not modelled. It is only described in a comment, and no code implements it.
- Nothing creates a loan record. Existing records are passed to the class's constructor, standing for storage written outside these handlers.
- BorrowToken never sets `start_time` or `is_active`. Return's deadline is therefore measured from whatever start time the record already had. The model keeps this as written.

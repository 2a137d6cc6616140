# Time-locked escrow: a Dafny model

This project models the on-chain escrow program in `programs/escrow_contract/src`. It is a Solana program written with Anchor. For each (depositor, beneficiary) pair there is at most one escrow account, stored at a program-derived address (PDA). Four instructions act on that account:

- `initialize` creates the record. The record starts with `amount = 0`, state `Initialized` and an unlock time that must lie in the future. The depositor pays the account's storage reserve.
- `deposit` lets the depositor move lamports into the record, once.
- `withdraw` lets the beneficiary take the whole balance once the unlock time has come, and closes the account.
- `cancel` lets the depositor take the whole balance back before the unlock time, and closes the account.

Layout, one module per source file:

- `state.dfy` (`State`): the record, its state enum, the fixed-width integer types and `LEN`.
- `errors.dfy` (`Errors`): the program's error codes.
- `runtime.dfy` (`Runtime`): what the program runs against. This covers addresses (a wallet, or a PDA that is an injective function of its seeds), lamport balances and transfers, and the total-lamport sum. It also covers the failures the framework raises and the ordered list of checks an instruction makes (`Guard`, `Check`). Account loading (`Load`), account closing (`Close`) and the ledger invariant (`Valid`) are here too.
- `initialize.dfy`, `deposit.dfy`, `withdraw.dfy`, `cancel.dfy`: each instruction is a pure transition function on a `World` (records plus balances), with lemmas for its error cases, its effect and the invariant it keeps. `initialize` checks, in this order: the passed address is the one derived from (signer, beneficiary) (`ConstraintSeeds`); `init` finds it unused (`AccountAlreadyInUse`); the payer can fund the reserve, which `init` moves before the handler runs (`InsufficientLamports`); then the handler's unlock-time `require!` (`initialize.rs:13-29`). `deposit`, `withdraw` and `cancel` check in this order:
  1. Anchor's account loading: a missing or closed account gives `AccountNotInitialized`.
  2. The `has_one` constraint gives `Unauthorized`. It is placed before the seeds because the test suite expects `Unauthorized` for a wrong signer (`tests/escrow_contract.ts:489`, `:548`).
  3. The `seeds` constraint gives `ConstraintSeeds`.
  4. The handler's `require!`s run in source order.
  5. The lamport transfer (`deposit`) or the close (`withdraw`, `cancel`) runs last.
- `program.dfy` (`EscrowProgram.Ledger`): a class whose fields are the records and the balances. Its four instruction methods, and a `Close` helper shared by `Withdraw` and `Cancel`, update the fields in place, the way the handlers mutate the account. Each instruction method is proved to return the result, and leave the state, that the transition function gives. Each one also keeps the invariant.
- `lifecycle.dfy` (`Lifecycle`): runs of several transactions. It proves that every run keeps the invariant and conserves lamports. A closed record stays absent until the pair is initialized again. A funded record is never changed again, only closed, so a second deposit cannot succeed. For a funded escrow at any time, exactly one of withdraw and cancel is admitted.

The ledger invariant (`Runtime.Valid`) says four things:
- Every live record sits at the address derived from its own depositor and beneficiary.
- A live record is either `Initialized` with `amount == 0` or `Deposited` with `amount > 0`. It is never `Withdrawn` or `Cancelled`, because those states are written just before the account is closed.
- The record's address holds exactly the reserve plus `amount`.
- An escrow address without a record holds nothing.

The ledger clock and the signer are explicit parameters (`now`, `signer`). A transaction is atomic: every rejected call leaves the ledger exactly as it was.

Points where the code behaves differently from what one might assume:
- `cancel` requires state `Deposited` and a positive amount (`cancel.rs:23-24`). An escrow that is only `Initialized` cannot be cancelled.
- Authorization (`has_one`) is an account constraint, so it is checked before the state and time checks.
- `deposit` checks the amount before the state (`deposit.rs:23-24`). A zero deposit into a funded escrow therefore reports `InvalidAmount`, not `EscrowAlreadyDeposited`.
- `withdraw` on a record that is not `Deposited` reports `InvalidState`, which is checked before the time.
- The `amount > 0` checks of `withdraw` and `cancel` (`withdraw.rs:25`, `cancel.rs:24`) never fire on a ledger the program itself produced: every `Deposited` record there holds a positive amount (`Lifecycle.RunPreservesValid`, `State.ConsistentIsLive`). `WithdrawNoFunds` and `CancelNoFunds` describe what the checks do on a record outside that invariant.
- `initialize` reports an unlock time that is not in the future as `InvalidAmount` (`initialize.rs:29`).
- The refund lines in `withdraw.rs:33` and `cancel.rs:32` are not valid Rust as written. The model uses their evident effect together with `close`: the recipient receives the account's whole balance (the amount plus the reserve), and the record is deleted.

## Model

| member | source | states |
|---|---|---|
| `State.TagInjective` | programs/escrow_contract/src/state/escrow_account.rs:32-41 | `Tag` numbers the states by declaration order. Two states have the same tag exactly when they are the same state, and every tag fits in the one byte `LEN` reserves for the state (`escrow_account.rs:26`) |
| `State.LenMatchesFields` | programs/escrow_contract/src/state/escrow_account.rs:20-28 | `LEN` is 8 + 32 + 32 + 8 + 8 + 1 + 1 = 90. Every value of the `U8`, `U64` and `I64` types fits its field's width (unsigned, unsigned, two's complement), and the extreme values fill it |
| `State.ConsistentIsLive` | programs/escrow_contract/src/state/escrow_account.rs:33-40 | a consistent record is never `Withdrawn` or `Cancelled`. It has `amount == 0` when `Initialized` and `amount > 0` when `Deposited` |
| `Runtime.Transfer` | programs/escrow_contract/src/instructions/deposit.rs:27-36 | a transfer debits the source by exactly `n`, credits the destination by exactly `n`, and leaves every other balance alone |
| `Runtime.TransferConserves` | programs/escrow_contract/src/instructions/deposit.rs:27-36 | a transfer leaves the total of all balances unchanged |
| `Runtime.Close` | programs/escrow_contract/src/instructions/withdraw.rs:13 | closing an account deletes its record and empties its address. The recipient gains the whole former balance. Other records and balances, and the total, are unchanged |
| `Runtime.FirstFailing` | programs/escrow_contract/src/instructions/deposit.rs:23-24 | returns the index of the first check that does not hold; every earlier check holds |
| `Runtime.Check` | programs/escrow_contract/src/instructions/deposit.rs:23-24 | the call proceeds exactly when every check holds; otherwise the first failing check decides the error |
| `InitializeInstruction.Initialize` | programs/escrow_contract/src/instructions/initialize.rs:13-37 | a rejected call changes nothing. An accepted one needs a fresh pair and adds exactly the new record. It conserves the total of lamports |
| `InitializeInstruction.InitializeSucceedsIff` | programs/escrow_contract/src/instructions/initialize.rs:13-29 | succeeds exactly when four things hold: the address is the one derived from (signer, beneficiary), no record exists for the pair, the payer can fund the reserve, and `unlock_timestamp > now` |
| `InitializeInstruction.InitializeRejectsPastUnlock` | programs/escrow_contract/src/instructions/initialize.rs:29 | once the account checks pass, an unlock time not after `now` fails with `InvalidAmount` and creates nothing |
| `InitializeInstruction.InitializeAlreadyInUse` | programs/escrow_contract/src/instructions/initialize.rs:13-18 | a second `initialize` for an existing pair fails and leaves the existing record unchanged |
| `InitializeInstruction.InitializeWritesRecord` | programs/escrow_contract/src/instructions/initialize.rs:31-37 | the new record holds: depositor = signer, the given beneficiary, amount 0, the given unlock time and bump, and state `Initialized`. Records of other pairs are unchanged |
| `InitializeInstruction.InitializePaysReserve` | programs/escrow_contract/src/instructions/initialize.rs:14-16 | on a valid ledger the depositor pays exactly the reserve and the new account holds exactly the reserve. No other balance moves |
| `InitializeInstruction.InitializePreservesValid` | programs/escrow_contract/src/instructions/initialize.rs:31-37 | `initialize` keeps the ledger invariant |
| `DepositInstruction.Deposit` | programs/escrow_contract/src/instructions/deposit.rs:10-39 | a rejected call changes nothing. An accepted one targets a live record, creates or deletes no record, and conserves the total of lamports |
| `DepositInstruction.DepositAbsent` | programs/escrow_contract/src/instructions/deposit.rs:16 | a deposit into a closed or never-created escrow fails with `AccountNotInitialized` |
| `DepositInstruction.DepositUnauthorized` | programs/escrow_contract/src/instructions/deposit.rs:12 | a signer other than the stored depositor fails with `Unauthorized`, whatever the amount and state |
| `DepositInstruction.DepositZeroAmount` | programs/escrow_contract/src/instructions/deposit.rs:23-24 | an amount of 0 fails with `InvalidAmount` before the state is checked, even on a funded escrow |
| `DepositInstruction.DepositAlreadyDeposited` | programs/escrow_contract/src/instructions/deposit.rs:24 | a positive deposit into a record that is no longer `Initialized` fails with `EscrowAlreadyDeposited` |
| `DepositInstruction.DepositInsufficientFunds` | programs/escrow_contract/src/instructions/deposit.rs:27-36 | a depositor holding less than `amount` makes the whole call fail, with nothing changed |
| `DepositInstruction.DepositSucceedsIff` | programs/escrow_contract/src/instructions/deposit.rs:10-36 | succeeds exactly when all of these hold: the record exists, the signer is its depositor, it sits at its derived address, `amount > 0`, its state is `Initialized`, and the depositor can pay |
| `DepositInstruction.DepositEffect` | programs/escrow_contract/src/instructions/deposit.rs:27-39 | on success the record holds `amount` and is `Deposited`; parties, unlock time and bump are unchanged. The escrow gains exactly `amount` and the depositor loses exactly `amount`. Other balances and records are unchanged |
| `DepositInstruction.DepositPreservesValid` | programs/escrow_contract/src/instructions/deposit.rs:38-39 | `deposit` keeps the ledger invariant |
| `WithdrawInstruction.Withdraw` | programs/escrow_contract/src/instructions/withdraw.rs:10-35 | a rejected call changes nothing. An accepted one removes exactly that record, empties its address and pays its whole balance to the signer. It conserves the total of lamports |
| `WithdrawInstruction.WithdrawAbsent` | programs/escrow_contract/src/instructions/withdraw.rs:17 | withdrawing from a closed or never-created escrow fails with `AccountNotInitialized` |
| `WithdrawInstruction.WithdrawUnauthorized` | programs/escrow_contract/src/instructions/withdraw.rs:12 | a signer other than the stored beneficiary fails with `Unauthorized`, whatever the time and state |
| `WithdrawInstruction.WithdrawStateThenTime` | programs/escrow_contract/src/instructions/withdraw.rs:24-29 | called by the beneficiary, a record that is not `Deposited` fails with `InvalidState`, before the time is checked. A `Deposited` one before its unlock time fails with `UnlockTimeNotReached` |
| `WithdrawInstruction.WithdrawNoFunds` | programs/escrow_contract/src/instructions/withdraw.rs:24-25 | a `Deposited` record with amount 0 fails with `NoFundsDeposited`, after the state check and before the time check |
| `WithdrawInstruction.WithdrawSucceedsIff` | programs/escrow_contract/src/instructions/withdraw.rs:10-29 | succeeds exactly when all of these hold: the record exists, the signer is its beneficiary, it sits at its derived address, it is `Deposited`, `amount > 0`, and `now >= unlock_timestamp` |
| `WithdrawInstruction.WithdrawPaysBeneficiary` | programs/escrow_contract/src/instructions/withdraw.rs:13-36 | on a valid ledger the beneficiary gains the amount plus the reserve, the record is removed and its address holds 0. Other balances and records are unchanged |
| `WithdrawInstruction.WithdrawPreservesValid` | programs/escrow_contract/src/instructions/withdraw.rs:32-36 | `withdraw` keeps the ledger invariant |
| `CancelInstruction.Cancel` | programs/escrow_contract/src/instructions/cancel.rs:9-34 | a rejected call changes nothing. An accepted one removes exactly that record, empties its address and refunds its whole balance to the signer. It conserves the total of lamports |
| `CancelInstruction.CancelAbsent` | programs/escrow_contract/src/instructions/cancel.rs:16 | cancelling a closed or never-created escrow fails with `AccountNotInitialized` |
| `CancelInstruction.CancelUnauthorized` | programs/escrow_contract/src/instructions/cancel.rs:11 | a signer other than the stored depositor fails with `Unauthorized`, whatever the time and state |
| `CancelInstruction.CancelStateThenTime` | programs/escrow_contract/src/instructions/cancel.rs:23-28 | called by the depositor, a record that is not `Deposited` (including an `Initialized` one) fails with `InvalidState`. A `Deposited` one at or after its unlock time fails with `UnlockTimeAlreadyReached` |
| `CancelInstruction.CancelNoFunds` | programs/escrow_contract/src/instructions/cancel.rs:23-24 | a `Deposited` record with amount 0 fails with `NoFundsDeposited`, after the state check and before the time check |
| `CancelInstruction.CancelSucceedsIff` | programs/escrow_contract/src/instructions/cancel.rs:9-28 | succeeds exactly when all of these hold: the record exists, the signer is its depositor, it sits at its derived address, it is `Deposited`, `amount > 0`, and `now < unlock_timestamp` |
| `CancelInstruction.CancelRefundsDepositor` | programs/escrow_contract/src/instructions/cancel.rs:12-35 | on a valid ledger the depositor gains the amount plus the reserve, the record is removed and its address holds 0. Other balances and records are unchanged |
| `CancelInstruction.CancelPreservesValid` | programs/escrow_contract/src/instructions/cancel.rs:31-35 | `cancel` keeps the ledger invariant |
| `Lifecycle.Apply` | programs/escrow_contract/src/lib.rs:16-34 | dispatching any instruction either fails with no change or succeeds, and it conserves the total of lamports |
| `Lifecycle.ApplyPreservesValid` | programs/escrow_contract/src/lib.rs:16-34 | every instruction keeps the ledger invariant |
| `Lifecycle.RunPreservesValid` | programs/escrow_contract/src/state/escrow_account.rs:33-40 | after any sequence of transactions, every live record is `Initialized` with 0 or `Deposited` with a positive amount, and is backed by the reserve plus its amount |
| `Lifecycle.RunConservesLamports` | programs/escrow_contract/src/lib.rs:16-34 | no sequence of transactions creates or destroys lamports |
| `Lifecycle.NoInitializeNeverReinitializes` | programs/escrow_contract/src/lib.rs:16-22 | helper for the run lemmas below: a run that dispatches no `initialize` of the pair at all also has no successful one |
| `Lifecycle.WrongSignerFailsSeeds` | programs/escrow_contract/src/instructions/deposit.rs:12-13 | on a valid ledger, a signer other than the stored depositor fails the `seeds` check of `deposit` and `cancel` (`cancel.rs:11-13`), and one other than the stored beneficiary fails that of `withdraw` (`withdraw.rs:12-14`): the seeds are built from the signer's own key |
| `Lifecycle.ApplyCreatesOnlyByInitialize` | programs/escrow_contract/src/instructions/initialize.rs:13-18 | only a successful `initialize` of the pair can bring an absent record into existence; every other instruction, and a failed `initialize`, leaves it absent |
| `Lifecycle.AbsentStaysAbsent` | programs/escrow_contract/src/instructions/withdraw.rs:13 | a closed record stays absent through any run in which no `initialize` of the pair succeeds; failed attempts (past unlock time, payer short of the reserve) may occur |
| `Lifecycle.ClosedAccountNotInitialized` | programs/escrow_contract/src/instructions/cancel.rs:12-16 | after such a run, every `deposit`, `withdraw` and `cancel` aimed at the closed address fails with `AccountNotInitialized` |
| `Lifecycle.CreditedClosedAddress` | programs/escrow_contract/src/instructions/deposit.rs:10-16 | lamports credited from outside to a closed escrow address break the ledger invariant, and `deposit`, `withdraw` and `cancel` at it then fail with `AccountOwnedByWrongProgram` |
| `Lifecycle.CreditedLiveAddress` | programs/escrow_contract/src/instructions/withdraw.rs:10-16 | lamports credited from outside to a live escrow are paid out with it: a successful `withdraw` or `cancel` gives the signer reserve + amount + the credit |
| `Lifecycle.DepositedIsFinal` | programs/escrow_contract/src/instructions/deposit.rs:24 | no instruction changes a `Deposited` record; it can only close it |
| `Lifecycle.DepositedUntilClosed` | programs/escrow_contract/src/instructions/deposit.rs:24 | through any run in which no `initialize` of the pair succeeds, a funded record is either gone or exactly as it was |
| `Lifecycle.NoDoubleDeposit` | programs/escrow_contract/src/instructions/deposit.rs:24 | after a successful deposit, a second deposit on the same escrow fails, whoever signs and whatever the amount |
| `Lifecycle.TimeWindowsPartition` | programs/escrow_contract/src/instructions/withdraw.rs:26-29 | for a funded escrow and any `now`, exactly one of the beneficiary's withdraw (`now >= unlock`) and the depositor's cancel (`now < unlock`, cancel.rs:25-28) is admitted |
| `Scenarios.WithdrawScenario` | tests/escrow_contract.ts:41-131 | from any valid ledger with a fresh pair, a reserve of at most 1 SOL and a depositor holding 2 SOL: initialize with unlock `t + 5` succeeds with an Initialized empty record, and depositing 1 SOL succeeds, marks it Deposited and credits the escrow with 1 SOL. Withdrawing at `t` fails with `UnlockTimeNotReached` (lines 198-212). Withdrawing at any time from `t + 5` on succeeds, the beneficiary gains at least 1 SOL and the account is closed (lines 281-314). A second withdrawal fails with `AccountNotInitialized` (lines 316-331) |
| `Scenarios.CancelScenario` | tests/escrow_contract.ts:333-401 | from the same start, initialize with unlock `t + 10` and deposit 1 SOL both succeed. Cancelling from `t + 10` on fails with `UnlockTimeAlreadyReached` (lines 215-279). Cancelling at `t` succeeds, refunds the depositor at least 1 SOL and closes the account. A second cancellation of the closed account fails with `AccountNotInitialized`. That last step is not one of the tests: lines 403-429 cancel an escrow that was never created, which is `CancelInstruction.CancelAbsent` |
| `EscrowProgram.Ledger.Initialize` | programs/escrow_contract/src/instructions/initialize.rs:24-37 | the in-place update returns the result and leaves the state given by `InitializeInstruction.Initialize`, and keeps the invariant |
| `EscrowProgram.Ledger.Deposit` | programs/escrow_contract/src/instructions/deposit.rs:20-42 | the in-place update returns the result and leaves the state given by `DepositInstruction.Deposit`, and keeps the invariant |
| `EscrowProgram.Ledger.Close` | programs/escrow_contract/src/instructions/cancel.rs:12 | closing in place leaves the ledger given by `Runtime.Close` |
| `EscrowProgram.Ledger.Withdraw` | programs/escrow_contract/src/instructions/withdraw.rs:21-39 | the in-place update writes `Withdrawn` and then closes the account. It returns the result and leaves the state given by `WithdrawInstruction.Withdraw`, and keeps the invariant |
| `EscrowProgram.Ledger.Cancel` | programs/escrow_contract/src/instructions/cancel.rs:20-38 | the in-place update writes `Cancelled` and then closes the account. It returns the result and leaves the state given by `CancelInstruction.Cancel`, and keeps the invariant |

## Left out

- PDA derivation is not modelled: no seed hashing and no off-curve bump search. An escrow address is `Pda(Seeds(depositor, beneficiary))`. This is injective on the pair and never equal to a wallet address. `bump` is stored as opaque data, and the model never checks that it is the canonical bump. `ConstraintSeeds` arises only when the passed address is not the one derived from the pair. The program itself does check a bump at `init`: `#[instruction(bump: u8)]` (`initialize.rs:6`) decodes the first instruction argument, which is `unlock_timestamp` (`initialize.rs:26`, `lib.rs:16-20`), so `bump = bump` (`initialize.rs:18`) compares the low byte of the unlock time with the canonical bump. `InitializeInstruction.InitializeSucceedsIff` leaves that condition out. The handler then stores its own `bump` argument unchecked (`initialize.rs:27`, `:37`), and `deposit`, `withdraw` and `cancel` re-derive the address from the stored bump (`deposit.rs:14`, `withdraw.rs:15`, `cancel.rs:14`). So in the program a record stored with a non-canonical bump fails every later instruction with `ConstraintSeeds`, and its lamports stay locked. The model keeps the bump opaque and cannot show this.
- The rent-exempt minimum for `LEN` bytes is not computed. It is the parameter `reserve` (`Ledger.reserve`).
- Transaction fees, signature verification, Borsh serialization and the discriminator are framework machinery and are not modelled. Of the serialized form, the model keeps only the field widths summed in `LEN` and the enum's one-byte variant index (`State.Tag`); no record is ever encoded or decoded. The system-program CPI is reduced to a map update (`Runtime.Transfer`). `signer` stands for a key that signed the transaction.
- The ledger clock is not read. `Clock::get()` is the parameter `now`. Whether the clock can be read at all is not modelled.
- Lamport balances are unbounded naturals. The model does not capture the runtime's `u64` overflow check when an account is credited, because the total supply stays far below 2^64.
- When `init` finds the target address already holding lamports but no record, the model follows Anchor: the payer tops up only the shortfall to the reserve. Anchor's extra check that the payer is not the account itself is not modelled, because a wallet is never a program-derived address.
- Lamports credited to an escrow address from outside the program are not modelled. On the real ledger any wallet can send lamports to any address with a plain system transfer. The ledger invariant `Runtime.Valid`, with its exact backing of reserve plus amount, holds only for ledgers that the four instructions alone have changed. After such a credit the transition functions still behave as the program does: `withdraw` and `cancel` pay out the whole, larger balance (`Lifecycle.CreditedLiveAddress`), `init` pays only the shortfall to the reserve, and a closed address that has been credited reports `AccountOwnedByWrongProgram` (`Lifecycle.CreditedClosedAddress`). The lemmas that assume `Valid` hold only in the closed ledger: `DepositAbsent`, `WithdrawAbsent`, `CancelAbsent`, `ClosedAccountNotInitialized`, `InitializePaysReserve`, `WithdrawPaysBeneficiary`, `CancelRefundsDepositor`, and the backing part of `RunPreservesValid`.
- `InsufficientFunds` is declared in the error enum but never raised by the program. The model does not raise it either.
- DepositUnauthorized: the `has_one`-before-`seeds` order that makes a wrong signer fail with `Unauthorized` follows the test suite (`tests/escrow_contract.ts:489`, `:548`). Anchor's generated validation checks `seeds` before `has_one`; under that order a wrong signer fails with `ConstraintSeeds` (see `Lifecycle.WrongSignerFailsSeeds`), and `Unauthorized` is never reported.
- WithdrawUnauthorized: the same holds for `withdraw`. Under Anchor's own order a wrong beneficiary fails with `ConstraintSeeds`.
- CancelUnauthorized: the same holds for `cancel`. Under Anchor's own order a wrong depositor fails with `ConstraintSeeds`.
- InitializeSucceedsIff: "succeeds exactly when" leaves out the bump condition of `init`. The program decodes `#[instruction(bump: u8)]` (`initialize.rs:6`) from the first argument, `unlock_timestamp`, so `init` (`initialize.rs:18`) also requires the canonical bump to equal the low byte of the unlock time. The model has no canonical bump, so its `Initialize` outcome does not depend on that byte.
- DepositSucceedsIff: "succeeds exactly when" leaves out the stored-bump condition. The seeds check re-derives the address from the stored `bump` (`deposit.rs:14`), so a record whose stored bump is not canonical fails with `ConstraintSeeds`. In the model the stored bump affects no outcome.
- WithdrawSucceedsIff: the same stored-bump condition (`withdraw.rs:15`) is left out; a non-canonical stored bump makes `withdraw` fail with `ConstraintSeeds`.
- CancelSucceedsIff: the same stored-bump condition (`cancel.rs:14`) is left out; a non-canonical stored bump makes `cancel` fail with `ConstraintSeeds`.
- TimeWindowsPartition, WithdrawScenario, CancelScenario: these hold for every `bump` in the model. In the program they also need the stored bump to be canonical, and `CancelScenario`/`WithdrawScenario` need the low byte of the unlock time to equal it.
- The client-side test suite, the scaffold test and the deploy script contain RPC calls, airdrops, sleeps and logging, and no program logic. They are not modelled. The two end-to-end scenarios of tests/escrow_contract.ts are restated as the lemmas in `Scenarios`, with waiting replaced by a later `now`.
- The runtime's rent-state check on the wallets a transaction touches is not modelled. A wallet left with a positive balance below its own rent-exempt minimum would make the transaction fail.

/** The two end-to-end scenarios of the program's test suite
    (tests/escrow_contract.ts), stated for any ledger, any pair of parties
    and any starting time, with the storage reserve at most one SOL. */
module Scenarios {
  import opened State
  import opened Errors
  import opened Runtime
  import opened InitializeInstruction
  import opened DepositInstruction
  import opened WithdrawInstruction
  import opened CancelInstruction

  /** Lamports in one SOL: the amount every test deposits. */
  const SOL: U64 := 1_000_000_000

  /** Initialize with unlock `t + 5` at time `t`, deposit one SOL, try to
      withdraw at once (refused: not yet unlocked), withdraw at any time from
      `t + 5` on (the beneficiary gains at least the deposit and the account
      is closed), then withdraw again (the account is not initialized). */
  lemma WithdrawScenario(w: World, reserve: nat, d: Pubkey, b: Pubkey, bump: U8, t: I64, later: I64)
    requires Valid(w, reserve) && Seeds(d, b) !in w.records
    requires reserve <= SOL as int && Balance(w.lamports, Wallet(d)) >= 2 * SOL as int
    requires t as int + 5 < 0x8000_0000_0000_0000 && later as int >= t as int + 5
    ensures var s := Seeds(d, b);
      var init := Initialize(w, reserve, d, b, Pda(s), t + 5, bump, t);
      var dep := Deposit(init.world, d, Pda(s), SOL);
      var early := Withdraw(dep.world, b, Pda(s), t);
      var late := Withdraw(dep.world, b, Pda(s), later);
      && init.outcome == Ok
      && s in init.world.records && init.world.records[s].amount == 0
      && init.world.records[s].state == Initialized
      && dep.outcome == Ok
      && s in dep.world.records && dep.world.records[s].amount == SOL
      && dep.world.records[s].state == Deposited
      && Balance(dep.world.lamports, Pda(s)) == Balance(init.world.lamports, Pda(s)) + SOL as int
      && early == Step(Err(Program(UnlockTimeNotReached)), dep.world)
      && late.outcome == Ok
      && Balance(late.world.lamports, Wallet(b)) >= Balance(dep.world.lamports, Wallet(b)) + SOL as int
      && Balance(late.world.lamports, Pda(s)) == 0 && s !in late.world.records
      && Withdraw(late.world, b, Pda(s), later) == Step(Err(AccountNotInitialized), late.world)
  {
    var s := Seeds(d, b);
    var init := Initialize(w, reserve, d, b, Pda(s), t + 5, bump, t);
    InitializeSucceedsIff(w, reserve, d, b, Pda(s), t + 5, bump, t);
    InitializeWritesRecord(w, reserve, d, b, Pda(s), t + 5, bump, t);
    InitializePaysReserve(w, reserve, d, b, Pda(s), t + 5, bump, t);
    InitializePreservesValid(w, reserve, d, b, Pda(s), t + 5, bump, t);
    var dep := Deposit(init.world, d, Pda(s), SOL);
    DepositSucceedsIff(init.world, d, Pda(s), SOL);
    DepositEffect(init.world, d, Pda(s), SOL);
    DepositPreservesValid(init.world, reserve, d, Pda(s), SOL);
    WithdrawStateThenTime(dep.world, reserve, s, t);
    var late := Withdraw(dep.world, b, Pda(s), later);
    WithdrawSucceedsIff(dep.world, b, Pda(s), later);
    WithdrawPaysBeneficiary(dep.world, reserve, b, Pda(s), later);
    WithdrawPreservesValid(dep.world, reserve, b, Pda(s), later);
    WithdrawAbsent(late.world, reserve, b, s, later);
  }

  /** Initialize with unlock `t + 10` at time `t` and deposit one SOL. A
      cancellation from `t + 10` on is refused (the unlock time has passed);
      one at `t` refunds the depositor at least the deposit and closes the
      account, after which a second cancellation finds no account. */
  lemma CancelScenario(w: World, reserve: nat, d: Pubkey, b: Pubkey, bump: U8, t: I64, later: I64)
    requires Valid(w, reserve) && Seeds(d, b) !in w.records
    requires reserve <= SOL as int && Balance(w.lamports, Wallet(d)) >= 2 * SOL as int
    requires t as int + 10 < 0x8000_0000_0000_0000 && later as int >= t as int + 10
    ensures var s := Seeds(d, b);
      var init := Initialize(w, reserve, d, b, Pda(s), t + 10, bump, t);
      var dep := Deposit(init.world, d, Pda(s), SOL);
      var tooLate := Cancel(dep.world, d, Pda(s), later);
      var cancel := Cancel(dep.world, d, Pda(s), t);
      && init.outcome == Ok
      && dep.outcome == Ok
      && tooLate == Step(Err(Program(UnlockTimeAlreadyReached)), dep.world)
      && cancel.outcome == Ok
      && Balance(cancel.world.lamports, Wallet(d)) >= Balance(dep.world.lamports, Wallet(d)) + SOL as int
      && Balance(cancel.world.lamports, Pda(s)) == 0 && s !in cancel.world.records
      && Cancel(cancel.world, d, Pda(s), t) == Step(Err(AccountNotInitialized), cancel.world)
  {
    var s := Seeds(d, b);
    var init := Initialize(w, reserve, d, b, Pda(s), t + 10, bump, t);
    InitializeSucceedsIff(w, reserve, d, b, Pda(s), t + 10, bump, t);
    InitializeWritesRecord(w, reserve, d, b, Pda(s), t + 10, bump, t);
    InitializePaysReserve(w, reserve, d, b, Pda(s), t + 10, bump, t);
    InitializePreservesValid(w, reserve, d, b, Pda(s), t + 10, bump, t);
    var dep := Deposit(init.world, d, Pda(s), SOL);
    DepositSucceedsIff(init.world, d, Pda(s), SOL);
    DepositEffect(init.world, d, Pda(s), SOL);
    DepositPreservesValid(init.world, reserve, d, Pda(s), SOL);
    CancelStateThenTime(dep.world, reserve, s, later);
    var cancel := Cancel(dep.world, d, Pda(s), t);
    CancelSucceedsIff(dep.world, d, Pda(s), t);
    CancelRefundsDepositor(dep.world, reserve, d, Pda(s), t);
    CancelPreservesValid(dep.world, reserve, d, Pda(s), t);
    CancelAbsent(cancel.world, reserve, d, s, t);
  }
}

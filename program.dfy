/** The escrow program's four instructions as operations on one ledger that
    they update in place (programs/escrow_contract/src/lib.rs dispatches to
    the handlers in programs/escrow_contract/src/instructions/). Each
    operation is atomic: it either returns `Ok` with its full effect or an
    error with the ledger untouched. */
module EscrowProgram {
  import opened State
  import opened Errors
  import opened Runtime
  import InitializeInstruction
  import DepositInstruction
  import WithdrawInstruction
  import CancelInstruction

  class Ledger {
    /** The live escrow records, by the seeds of their address. */
    var records: map<Seeds, EscrowAccount>
    /** The lamport balance of every address; absent means zero. */
    var lamports: map<Address, nat>
    /** The rent-exempt minimum balance for an account of LEN bytes. */
    const reserve: nat

    function Snapshot(): World
      reads this
    {
      World(records, lamports)
    }

    ghost predicate Valid()
      reads this
    {
      Runtime.Valid(Snapshot(), reserve)
    }

    /** A ledger with no escrows, whose wallets hold `wallets`. */
    constructor (reserve: nat, wallets: map<Pubkey, nat>)
      ensures Valid()
      ensures this.reserve == reserve && records == map[]
      ensures forall k :: Balance(lamports, Wallet(k)) == if k in wallets then wallets[k] else 0
    {
      this.reserve := reserve;
      records := map[];
      lamports := map k | k in wallets :: Wallet(k) := wallets[k];
    }

    /** `initialize`: creates the record at the address derived from
        (signer, beneficiary), paid for by the signer. */
    method Initialize(signer: Pubkey, beneficiary: Pubkey, escrow: Address,
                      unlockTimestamp: I64, bump: U8, now: I64) returns (r: Outcome)
      modifies this
      ensures old(Valid()) ==> Valid()
      ensures Step(r, Snapshot())
        == InitializeInstruction.Initialize(old(Snapshot()), reserve, signer, beneficiary, escrow, unlockTimestamp, bump, now)
    {
      ghost var w := Snapshot();
      ghost var gs := InitializeInstruction.Guards(w, reserve, signer, beneficiary, escrow, unlockTimestamp, now);
      var s := Seeds(signer, beneficiary);
      // Account constraints: seeds, then `init` with `payer = depositor`.
      if escrow != Pda(s) {
        assert FailsFirst(gs, 0);
        return Err(ConstraintSeeds);
      }
      if s in records {
        assert FailsFirst(gs, 1);
        return Err(AccountAlreadyInUse);
      }
      var current := Balance(lamports, escrow);
      var topUp := if current < reserve then reserve - current else 0;
      var payer := Balance(lamports, Wallet(signer));
      if payer < topUp {
        assert FailsFirst(gs, 2);
        return Err(InsufficientLamports);
      }
      // Handler.
      if !(unlockTimestamp > now) {
        assert FailsFirst(gs, 3);
        return Err(Program(InvalidAmount));
      }
      lamports := lamports[Wallet(signer) := payer - topUp][escrow := current + topUp];
      records := records[s := EscrowAccount(signer, beneficiary, 0, unlockTimestamp, Initialized, bump)];
      r := Ok;
      assert Snapshot() == InitializeInstruction.Initialize(w, reserve, signer, beneficiary, escrow, unlockTimestamp, bump, now).world;
      if old(Valid()) {
        InitializeInstruction.InitializePreservesValid(w, reserve, signer, beneficiary, escrow, unlockTimestamp, bump, now);
      }
    }

    /** `deposit`: moves `amount` lamports from the depositor into the
        escrow and marks it Deposited. */
    method Deposit(signer: Pubkey, escrow: Address, amount: U64) returns (r: Outcome)
      modifies this
      ensures old(Valid()) ==> Valid()
      ensures Step(r, Snapshot()) == DepositInstruction.Deposit(old(Snapshot()), signer, escrow, amount)
    {
      ghost var w := Snapshot();
      // Loading the account.
      if !(escrow.Pda? && escrow.seeds in records) {
        return if Balance(lamports, escrow) == 0 then Err(AccountNotInitialized) else Err(AccountOwnedByWrongProgram);
      }
      var s := escrow.seeds;
      var account := records[s];
      ghost var gs := DepositInstruction.Guards(w, account, signer, escrow, amount);
      // Account constraints: `has_one = depositor`, then seeds.
      if account.depositor != signer {
        assert FailsFirst(gs, 0);
        return Err(Program(Unauthorized));
      }
      if escrow != Pda(Seeds(signer, account.beneficiary)) {
        assert FailsFirst(gs, 1);
        return Err(ConstraintSeeds);
      }
      // Handler.
      if !(amount > 0) {
        assert FailsFirst(gs, 2);
        return Err(Program(InvalidAmount));
      }
      if account.state != Initialized {
        assert FailsFirst(gs, 3);
        return Err(Program(EscrowAlreadyDeposited));
      }
      var from := Balance(lamports, Wallet(signer));
      if from < amount as nat {
        assert FailsFirst(gs, 4);
        return Err(InsufficientLamports);
      }
      lamports := lamports[Wallet(signer) := from - amount as nat][escrow := Balance(lamports, escrow) + amount as nat];
      records := records[s := account.(amount := amount)];
      records := records[s := records[s].(state := Deposited)];
      r := Ok;
      assert Snapshot() == DepositInstruction.Deposit(w, signer, escrow, amount).world;
      if old(Valid()) {
        DepositInstruction.DepositPreservesValid(w, reserve, signer, escrow, amount);
      }
    }

    /** Closes the account at `escrow`: its whole balance goes to `to` and
        its record is deleted. */
    method Close(escrow: Address, to: Address)
      requires escrow.Pda? && escrow != to
      modifies this
      ensures Snapshot() == Runtime.Close(old(Snapshot()), escrow.seeds, to)
    {
      var balance := Balance(lamports, escrow);
      lamports := lamports[escrow := 0][to := Balance(lamports, to) + balance];
      records := records - {escrow.seeds};
    }

    /** `withdraw`: once the unlock time has come, the beneficiary receives
        the whole escrow and the account is closed. */
    method Withdraw(signer: Pubkey, escrow: Address, now: I64) returns (r: Outcome)
      modifies this
      ensures old(Valid()) ==> Valid()
      ensures Step(r, Snapshot()) == WithdrawInstruction.Withdraw(old(Snapshot()), signer, escrow, now)
    {
      ghost var w := Snapshot();
      if !(escrow.Pda? && escrow.seeds in records) {
        return if Balance(lamports, escrow) == 0 then Err(AccountNotInitialized) else Err(AccountOwnedByWrongProgram);
      }
      var s := escrow.seeds;
      var account := records[s];
      ghost var gs := WithdrawInstruction.Guards(account, signer, escrow, now);
      // Account constraints: `has_one = beneficiary`, then seeds.
      if account.beneficiary != signer {
        assert FailsFirst(gs, 0);
        return Err(Program(Unauthorized));
      }
      if escrow != Pda(Seeds(account.depositor, signer)) {
        assert FailsFirst(gs, 1);
        return Err(ConstraintSeeds);
      }
      // Handler.
      if account.state != Deposited {
        assert FailsFirst(gs, 2);
        return Err(Program(InvalidState));
      }
      if !(account.amount > 0) {
        assert FailsFirst(gs, 3);
        return Err(Program(NoFundsDeposited));
      }
      if !(now >= account.unlockTimestamp) {
        assert FailsFirst(gs, 4);
        return Err(Program(UnlockTimeNotReached));
      }
      records := records[s := account.(state := Withdrawn)];
      // `close = beneficiary`.
      Close(escrow, Wallet(signer));
      r := Ok;
      assert Snapshot() == WithdrawInstruction.Withdraw(w, signer, escrow, now).world;
      if old(Valid()) {
        WithdrawInstruction.WithdrawPreservesValid(w, reserve, signer, escrow, now);
      }
    }

    /** `cancel`: before the unlock time, the depositor takes the whole
        escrow back and the account is closed. */
    method Cancel(signer: Pubkey, escrow: Address, now: I64) returns (r: Outcome)
      modifies this
      ensures old(Valid()) ==> Valid()
      ensures Step(r, Snapshot()) == CancelInstruction.Cancel(old(Snapshot()), signer, escrow, now)
    {
      ghost var w := Snapshot();
      if !(escrow.Pda? && escrow.seeds in records) {
        return if Balance(lamports, escrow) == 0 then Err(AccountNotInitialized) else Err(AccountOwnedByWrongProgram);
      }
      var s := escrow.seeds;
      var account := records[s];
      ghost var gs := CancelInstruction.Guards(account, signer, escrow, now);
      // Account constraints: `has_one = depositor`, then seeds.
      if account.depositor != signer {
        assert FailsFirst(gs, 0);
        return Err(Program(Unauthorized));
      }
      if escrow != Pda(Seeds(signer, account.beneficiary)) {
        assert FailsFirst(gs, 1);
        return Err(ConstraintSeeds);
      }
      // Handler.
      if account.state != Deposited {
        assert FailsFirst(gs, 2);
        return Err(Program(InvalidState));
      }
      if !(account.amount > 0) {
        assert FailsFirst(gs, 3);
        return Err(Program(NoFundsDeposited));
      }
      if !(now < account.unlockTimestamp) {
        assert FailsFirst(gs, 4);
        return Err(Program(UnlockTimeAlreadyReached));
      }
      records := records[s := account.(state := Cancelled)];
      // `close = depositor`.
      Close(escrow, Wallet(signer));
      r := Ok;
      assert Snapshot() == CancelInstruction.Cancel(w, signer, escrow, now).world;
      if old(Valid()) {
        CancelInstruction.CancelPreservesValid(w, reserve, signer, escrow, now);
      }
    }
  }
}

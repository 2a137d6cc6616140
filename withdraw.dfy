/** `withdraw`: the beneficiary takes the whole escrow once the unlock time
    has come, and the account is closed
    (programs/escrow_contract/src/instructions/withdraw.rs). */
module WithdrawInstruction {
  import opened State
  import opened Errors
  import opened Runtime

  /** The checks `withdraw` makes once the account has loaded: `has_one =
      beneficiary`, the seeds, then the handler's three `require!`s in source
      order. `has_one` is placed before the seeds as the test suite expects
      (see `Lifecycle.WrongSignerFailsSeeds`). */
  function Guards(account: EscrowAccount, signer: Pubkey, escrow: Address, now: I64): seq<Guard> {
    [ Guard(account.beneficiary == signer, Program(Unauthorized)),
      Guard(escrow == Pda(Seeds(account.depositor, signer)), ConstraintSeeds),
      Guard(account.state == Deposited, Program(InvalidState)),
      Guard(account.amount > 0, Program(NoFundsDeposited)),
      Guard(now >= account.unlockTimestamp, Program(UnlockTimeNotReached)) ]
  }

  /** `withdraw` signed by `signer` against the account at `escrow`, at
      ledger time `now`. A rejected call changes nothing; an accepted one
      deletes exactly that record and pays its whole balance to the signer. */
  function Withdraw(w: World, signer: Pubkey, escrow: Address, now: I64): (r: Step)
    ensures r.outcome.Err? ==> r.world == w
    ensures r.outcome.Ok? ==>
      && escrow.Pda? && escrow.seeds in w.records
      && r.world.records == w.records - {escrow.seeds}
      && Balance(r.world.lamports, escrow) == 0
      && Balance(r.world.lamports, Wallet(signer)) == Balance(w.lamports, Wallet(signer)) + Balance(w.lamports, escrow)
    ensures Total(r.world.lamports) == Total(w.lamports)
  {
    match Load(w, escrow)
    case Missing(f) => Step(Err(f), w)
    case Found(s, account) =>
      match Check(Guards(account, signer, escrow, now))
      case Err(f) => Step(Err(f), w)
      case Ok => Step(Ok, Close(w, s, Wallet(signer)))
  }

  /** A closed or never created escrow fails with `AccountNotInitialized`. */
  lemma WithdrawAbsent(w: World, reserve: nat, signer: Pubkey, s: Seeds, now: I64)
    requires Valid(w, reserve) && s !in w.records
    ensures Withdraw(w, signer, Pda(s), now) == Step(Err(AccountNotInitialized), w)
  {
  }

  /** A signer other than the stored beneficiary fails with `Unauthorized`,
      whatever the time and the state. */
  lemma WithdrawUnauthorized(w: World, signer: Pubkey, s: Seeds, now: I64)
    requires s in w.records && w.records[s].beneficiary != signer
    ensures Withdraw(w, signer, Pda(s), now) == Step(Err(Program(Unauthorized)), w)
  {
    assert FailsFirst(Guards(w.records[s], signer, Pda(s), now), 0);
  }

  /** Called by the beneficiary on a live escrow: a record that is not
      Deposited fails with `InvalidState` (before the time is looked at); a
      Deposited one before its unlock time fails with `UnlockTimeNotReached`. */
  lemma WithdrawStateThenTime(w: World, reserve: nat, s: Seeds, now: I64)
    requires Valid(w, reserve) && s in w.records
    ensures w.records[s].state != Deposited ==>
      Withdraw(w, s.beneficiary, Pda(s), now) == Step(Err(Program(InvalidState)), w)
    ensures w.records[s].state == Deposited && now < w.records[s].unlockTimestamp ==>
      Withdraw(w, s.beneficiary, Pda(s), now) == Step(Err(Program(UnlockTimeNotReached)), w)
  {
    assert LiveAt(w, reserve, s);
    var gs := Guards(w.records[s], s.beneficiary, Pda(s), now);
    if w.records[s].state != Deposited {
      assert FailsFirst(gs, 2);
    } else if now < w.records[s].unlockTimestamp {
      assert FailsFirst(gs, 4);
    }
  }

  /** A record that claims to be Deposited with nothing in it is refused
      with `NoFundsDeposited`, after the state check and before the time check. */
  lemma WithdrawNoFunds(w: World, s: Seeds, now: I64)
    requires s in w.records && w.records[s].depositor == s.depositor
    requires w.records[s].beneficiary == s.beneficiary
    requires w.records[s].state == Deposited && w.records[s].amount == 0
    ensures Withdraw(w, s.beneficiary, Pda(s), now) == Step(Err(Program(NoFundsDeposited)), w)
  {
    assert FailsFirst(Guards(w.records[s], s.beneficiary, Pda(s), now), 3);
  }

  /** It succeeds exactly when the record exists, the signer is its
      beneficiary, it sits at its derived address, it is Deposited with a
      positive amount and the unlock time has come. */
  lemma WithdrawSucceedsIff(w: World, signer: Pubkey, escrow: Address, now: I64)
    ensures Withdraw(w, signer, escrow, now).outcome.Ok?
      <==> && escrow.Pda? && escrow.seeds in w.records
           && w.records[escrow.seeds].beneficiary == signer
           && escrow == Pda(Seeds(w.records[escrow.seeds].depositor, signer))
           && w.records[escrow.seeds].state == Deposited
           && w.records[escrow.seeds].amount > 0
           && now >= w.records[escrow.seeds].unlockTimestamp
  {
    if escrow.Pda? && escrow.seeds in w.records {
      var gs := Guards(w.records[escrow.seeds], signer, escrow, now);
      assert gs[0].holds && gs[1].holds && gs[2].holds && gs[3].holds && gs[4].holds
        ==> forall j :: 0 <= j < |gs| ==> gs[j].holds;
    }
  }

  /** On a valid ledger a successful withdrawal pays the beneficiary the
      escrowed amount plus the reserve, leaves the escrow address empty, and
      touches no other balance and no other record. */
  lemma WithdrawPaysBeneficiary(w: World, reserve: nat, signer: Pubkey, escrow: Address, now: I64)
    requires Valid(w, reserve)
    requires Withdraw(w, signer, escrow, now).outcome.Ok?
    ensures var w' := Withdraw(w, signer, escrow, now).world;
      && escrow.Pda? && escrow.seeds in w.records && escrow.seeds !in w'.records
      && signer == w.records[escrow.seeds].beneficiary
      && Balance(w'.lamports, Wallet(signer))
         == Balance(w.lamports, Wallet(signer)) + w.records[escrow.seeds].amount as int + reserve
      && Balance(w'.lamports, escrow) == 0
      && (forall b :: b != escrow && b != Wallet(signer) ==> Balance(w'.lamports, b) == Balance(w.lamports, b))
      && (forall t :: t != escrow.seeds && t in w.records ==> t in w'.records && w'.records[t] == w.records[t])
  {
    WithdrawSucceedsIff(w, signer, escrow, now);
    assert LiveAt(w, reserve, escrow.seeds);
  }

  /** `withdraw` keeps the ledger invariant. */
  lemma WithdrawPreservesValid(w: World, reserve: nat, signer: Pubkey, escrow: Address, now: I64)
    requires Valid(w, reserve)
    ensures Valid(Withdraw(w, signer, escrow, now).world, reserve)
  {
    var r := Withdraw(w, signer, escrow, now);
    if r.outcome.Ok? {
      WithdrawPaysBeneficiary(w, reserve, signer, escrow, now);
      var w' := r.world;
      forall t | t in w'.records
        ensures LiveAt(w', reserve, t)
      {
        assert LiveAt(w, reserve, t);
      }
    }
  }
}

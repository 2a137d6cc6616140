/** `deposit`: the depositor moves lamports into the escrow, once
    (programs/escrow_contract/src/instructions/deposit.rs). */
module DepositInstruction {
  import opened State
  import opened Errors
  import opened Runtime

  /** The checks `deposit` makes once the account has loaded: `has_one =
      depositor`, the seeds, the handler's two `require!`s in source order
      (amount before state), and the transfer's funds check. `has_one` is
      placed before the seeds as the test suite expects (see
      `Lifecycle.WrongSignerFailsSeeds`). */
  function Guards(w: World, account: EscrowAccount, signer: Pubkey, escrow: Address, amount: U64): seq<Guard> {
    [ Guard(account.depositor == signer, Program(Unauthorized)),
      Guard(escrow == Pda(Seeds(signer, account.beneficiary)), ConstraintSeeds),
      Guard(amount > 0, Program(InvalidAmount)),
      Guard(account.state == Initialized, Program(EscrowAlreadyDeposited)),
      Guard(amount as int <= Balance(w.lamports, Wallet(signer)), InsufficientLamports) ]
  }

  /** `deposit` of `amount` lamports signed by `signer` against the account
      at `escrow`. A rejected call changes nothing; an accepted one changes
      only the record at `escrow` and moves lamports only from the signer to
      that account. */
  function Deposit(w: World, signer: Pubkey, escrow: Address, amount: U64): (r: Step)
    ensures r.outcome.Err? ==> r.world == w
    ensures r.outcome.Ok? ==> escrow.Pda? && escrow.seeds in w.records && r.world.records.Keys == w.records.Keys
    ensures Total(r.world.lamports) == Total(w.lamports)
  {
    match Load(w, escrow)
    case Missing(f) => Step(Err(f), w)
    case Found(s, account) =>
      match Check(Guards(w, account, signer, escrow, amount))
      case Err(f) => Step(Err(f), w)
      case Ok =>
        assert Guards(w, account, signer, escrow, amount)[4].holds;
        TransferConserves(w.lamports, Wallet(signer), escrow, amount as nat);
        Step(Ok, World(w.records[s := account.(amount := amount, state := Deposited)],
                       Transfer(w.lamports, Wallet(signer), escrow, amount as nat)))
  }

  /** A closed or never created escrow fails with `AccountNotInitialized`. */
  lemma DepositAbsent(w: World, reserve: nat, signer: Pubkey, s: Seeds, amount: U64)
    requires Valid(w, reserve) && s !in w.records
    ensures Deposit(w, signer, Pda(s), amount) == Step(Err(AccountNotInitialized), w)
  {
  }

  /** A signer other than the stored depositor fails with `Unauthorized`,
      whatever the amount and the state. */
  lemma DepositUnauthorized(w: World, signer: Pubkey, s: Seeds, amount: U64)
    requires s in w.records && w.records[s].depositor != signer
    ensures Deposit(w, signer, Pda(s), amount) == Step(Err(Program(Unauthorized)), w)
  {
    assert FailsFirst(Guards(w, w.records[s], signer, Pda(s), amount), 0);
  }

  /** A zero amount fails with `InvalidAmount` before the state is looked
      at, so even an already funded escrow reports `InvalidAmount`. */
  lemma DepositZeroAmount(w: World, reserve: nat, s: Seeds)
    requires Valid(w, reserve) && s in w.records
    ensures Deposit(w, s.depositor, Pda(s), 0) == Step(Err(Program(InvalidAmount)), w)
  {
    assert LiveAt(w, reserve, s);
    assert FailsFirst(Guards(w, w.records[s], s.depositor, Pda(s), 0), 2);
  }

  /** A positive deposit into an escrow that is no longer Initialized fails
      with `EscrowAlreadyDeposited`. */
  lemma DepositAlreadyDeposited(w: World, reserve: nat, s: Seeds, amount: U64)
    requires Valid(w, reserve) && s in w.records
    requires w.records[s].state != Initialized && amount > 0
    ensures Deposit(w, s.depositor, Pda(s), amount) == Step(Err(Program(EscrowAlreadyDeposited)), w)
  {
    assert LiveAt(w, reserve, s);
    assert FailsFirst(Guards(w, w.records[s], s.depositor, Pda(s), amount), 3);
  }

  /** A depositor holding less than `amount` cannot fund the transfer, and
      the whole call fails with no change. */
  lemma DepositInsufficientFunds(w: World, reserve: nat, s: Seeds, amount: U64)
    requires Valid(w, reserve) && s in w.records
    requires w.records[s].state == Initialized && amount > 0
    requires Balance(w.lamports, Wallet(s.depositor)) < amount as int
    ensures Deposit(w, s.depositor, Pda(s), amount) == Step(Err(InsufficientLamports), w)
  {
    assert LiveAt(w, reserve, s);
    assert FailsFirst(Guards(w, w.records[s], s.depositor, Pda(s), amount), 4);
  }

  /** It succeeds exactly when the record exists, the signer is its
      depositor, it sits at its derived address, the amount is positive, it
      is still Initialized and the depositor can pay. */
  lemma DepositSucceedsIff(w: World, signer: Pubkey, escrow: Address, amount: U64)
    ensures Deposit(w, signer, escrow, amount).outcome.Ok?
      <==> && escrow.Pda? && escrow.seeds in w.records
           && w.records[escrow.seeds].depositor == signer
           && escrow == Pda(Seeds(signer, w.records[escrow.seeds].beneficiary))
           && amount > 0
           && w.records[escrow.seeds].state == Initialized
           && amount as int <= Balance(w.lamports, Wallet(signer))
  {
    if escrow.Pda? && escrow.seeds in w.records {
      var gs := Guards(w, w.records[escrow.seeds], signer, escrow, amount);
      assert gs[0].holds && gs[1].holds && gs[2].holds && gs[3].holds && gs[4].holds
        ==> forall j :: 0 <= j < |gs| ==> gs[j].holds;
    }
  }

  /** On success the record holds `amount` and is Deposited, with its
      parties, unlock time and bump unchanged; the escrow's balance rises and
      the depositor's falls by exactly `amount`; nothing else changes. */
  lemma DepositEffect(w: World, signer: Pubkey, escrow: Address, amount: U64)
    requires Deposit(w, signer, escrow, amount).outcome.Ok?
    ensures var w' := Deposit(w, signer, escrow, amount).world;
      && escrow.Pda? && escrow.seeds in w.records && escrow.seeds in w'.records
      && var (a, a') := (w.records[escrow.seeds], w'.records[escrow.seeds]);
      && a'.amount == amount && a'.state == Deposited
      && a'.depositor == a.depositor && a'.beneficiary == a.beneficiary
      && a'.unlockTimestamp == a.unlockTimestamp && a'.bump == a.bump
      && Balance(w'.lamports, escrow) == Balance(w.lamports, escrow) + amount as int
      && Balance(w'.lamports, Wallet(signer)) == Balance(w.lamports, Wallet(signer)) - amount as int
      && (forall b :: b != escrow && b != Wallet(signer) ==> Balance(w'.lamports, b) == Balance(w.lamports, b))
      && (forall t :: t != escrow.seeds && t in w.records ==> w'.records[t] == w.records[t])
  {
    var gs := Guards(w, w.records[escrow.seeds], signer, escrow, amount);
    assert gs[4].holds;
  }

  /** `deposit` keeps the ledger invariant. */
  lemma DepositPreservesValid(w: World, reserve: nat, signer: Pubkey, escrow: Address, amount: U64)
    requires Valid(w, reserve)
    ensures Valid(Deposit(w, signer, escrow, amount).world, reserve)
  {
    var r := Deposit(w, signer, escrow, amount);
    if r.outcome.Ok? {
      DepositEffect(w, signer, escrow, amount);
      var s := escrow.seeds;
      var w' := r.world;
      assert LiveAt(w, reserve, s);
      var gs := Guards(w, w.records[s], signer, escrow, amount);
      assert gs[2].holds && gs[3].holds;
      forall t | t in w'.records
        ensures LiveAt(w', reserve, t)
      {
        if t != s {
          assert LiveAt(w, reserve, t);
        }
      }
    }
  }
}

/** The four instructions run one transaction at a time against one ledger
    (the dispatch in programs/escrow_contract/src/lib.rs), and what holds of
    every such run. */
module Lifecycle {
  import opened State
  import opened Runtime
  import InitializeInstruction
  import DepositInstruction
  import WithdrawInstruction
  import CancelInstruction

  datatype Instruction =
    | Initialize(signer: Pubkey, beneficiary: Pubkey, escrow: Address, unlockTimestamp: I64, bump: U8)
    | Deposit(signer: Pubkey, escrow: Address, amount: U64)
    | Withdraw(signer: Pubkey, escrow: Address)
    | Cancel(signer: Pubkey, escrow: Address)

  /** One transaction: an instruction and the ledger time it executes at. */
  datatype Transaction = Transaction(ix: Instruction, now: I64)

  function Apply(w: World, reserve: nat, tx: Transaction): (r: Step)
    ensures r.outcome.Err? ==> r.world == w
    ensures Total(r.world.lamports) == Total(w.lamports)
  {
    match tx.ix
    case Initialize(signer, beneficiary, escrow, unlockTimestamp, bump) =>
      InitializeInstruction.Initialize(w, reserve, signer, beneficiary, escrow, unlockTimestamp, bump, tx.now)
    case Deposit(signer, escrow, amount) => DepositInstruction.Deposit(w, signer, escrow, amount)
    case Withdraw(signer, escrow) => WithdrawInstruction.Withdraw(w, signer, escrow, tx.now)
    case Cancel(signer, escrow) => CancelInstruction.Cancel(w, signer, escrow, tx.now)
  }

  /** The ledger after a sequence of transactions, rejected ones included. */
  function Run(w: World, reserve: nat, txs: seq<Transaction>): World
    decreases |txs|
  {
    if txs == [] then w else Run(Apply(w, reserve, txs[0]).world, reserve, txs[1..])
  }

  /** True when `tx` is an `initialize` that could create the record at `s`. */
  predicate Creates(tx: Transaction, s: Seeds) {
    tx.ix.Initialize? && Seeds(tx.ix.signer, tx.ix.beneficiary) == s
  }

  /** True when no transaction of `txs`, applied in turn from `w`, is an
      `initialize` of the pair `s` that succeeds. Failed attempts (an unlock
      time in the past, a payer short of the reserve) are allowed. */
  predicate NeverReinitialized(w: World, reserve: nat, txs: seq<Transaction>, s: Seeds)
    decreases |txs|
  {
    || txs == []
    || (&& !(Creates(txs[0], s) && Apply(w, reserve, txs[0]).outcome.Ok?)
        && NeverReinitialized(Apply(w, reserve, txs[0]).world, reserve, txs[1..], s))
  }

  lemma ApplyPreservesValid(w: World, reserve: nat, tx: Transaction)
    requires Valid(w, reserve)
    ensures Valid(Apply(w, reserve, tx).world, reserve)
  {
    match tx.ix
    case Initialize(signer, beneficiary, escrow, unlockTimestamp, bump) =>
      InitializeInstruction.InitializePreservesValid(w, reserve, signer, beneficiary, escrow, unlockTimestamp, bump, tx.now);
    case Deposit(signer, escrow, amount) =>
      DepositInstruction.DepositPreservesValid(w, reserve, signer, escrow, amount);
    case Withdraw(signer, escrow) =>
      WithdrawInstruction.WithdrawPreservesValid(w, reserve, signer, escrow, tx.now);
    case Cancel(signer, escrow) =>
      CancelInstruction.CancelPreservesValid(w, reserve, signer, escrow, tx.now);
  }

  /** Every run keeps the ledger invariant: each live record sits at its own
      derived address, is Initialized with nothing escrowed or Deposited with
      a positive amount, and holds the reserve plus its amount. */
  lemma {:induction false} RunPreservesValid(w: World, reserve: nat, txs: seq<Transaction>)
    requires Valid(w, reserve)
    ensures Valid(Run(w, reserve, txs), reserve)
    decreases |txs|
  {
    if txs != [] {
      ApplyPreservesValid(w, reserve, txs[0]);
      RunPreservesValid(Apply(w, reserve, txs[0]).world, reserve, txs[1..]);
    }
  }

  /** No run creates or destroys lamports. */
  lemma {:induction false} RunConservesLamports(w: World, reserve: nat, txs: seq<Transaction>)
    ensures Total(Run(w, reserve, txs).lamports) == Total(w.lamports)
    decreases |txs|
  {
    if txs != [] {
      RunConservesLamports(Apply(w, reserve, txs[0]).world, reserve, txs[1..]);
    }
  }

  /** A run with no `initialize` of the pair at all never reinitializes it. */
  lemma {:induction false} NoInitializeNeverReinitializes(w: World, reserve: nat, txs: seq<Transaction>, s: Seeds)
    requires forall k :: 0 <= k < |txs| ==> !Creates(txs[k], s)
    ensures NeverReinitialized(w, reserve, txs, s)
    decreases |txs|
  {
    if txs != [] {
      assert forall k :: 0 <= k < |txs[1..]| ==> txs[1..][k] == txs[k + 1];
      NoInitializeNeverReinitializes(Apply(w, reserve, txs[0]).world, reserve, txs[1..], s);
    }
  }

  /** On a valid ledger the `seeds` constraint of `deposit`, `withdraw` and
      `cancel` is built from the signer's own key, so a signer other than the
      stored party fails it as well as `has_one`: the order of those two
      checks alone decides whether `Unauthorized` or `ConstraintSeeds` is
      reported. */
  lemma WrongSignerFailsSeeds(w: World, reserve: nat, s: Seeds, signer: Pubkey, amount: U64, now: I64)
    requires Valid(w, reserve) && s in w.records
    ensures var a := w.records[s];
      && (signer != a.depositor ==>
            && !DepositInstruction.Guards(w, a, signer, Pda(s), amount)[1].holds
            && !CancelInstruction.Guards(a, signer, Pda(s), now)[1].holds)
      && (signer != a.beneficiary ==> !WithdrawInstruction.Guards(a, signer, Pda(s), now)[1].holds)
  {
    assert LiveAt(w, reserve, s);
  }

  /** Only a successful `initialize` of the pair creates its record. */
  lemma ApplyCreatesOnlyByInitialize(w: World, reserve: nat, tx: Transaction, s: Seeds)
    requires s !in w.records && !(Creates(tx, s) && Apply(w, reserve, tx).outcome.Ok?)
    ensures s !in Apply(w, reserve, tx).world.records
  {
    var r := Apply(w, reserve, tx);
    if tx.ix.Initialize? && r.outcome.Ok? {
      assert r.world.records.Keys == w.records.Keys + {Seeds(tx.ix.signer, tx.ix.beneficiary)};
    }
  }

  /** A closed or never created record stays absent through any run in
      which no `initialize` of the pair succeeds. */
  lemma {:induction false} AbsentStaysAbsent(w: World, reserve: nat, txs: seq<Transaction>, s: Seeds)
    requires s !in w.records
    requires NeverReinitialized(w, reserve, txs, s)
    ensures s !in Run(w, reserve, txs).records
    decreases |txs|
  {
    if txs != [] {
      ApplyCreatesOnlyByInitialize(w, reserve, txs[0], s);
      AbsentStaysAbsent(Apply(w, reserve, txs[0]).world, reserve, txs[1..], s);
    }
  }

  /** After such a run every `deposit`, `withdraw` and `cancel` aimed at the
      record's address fails with `AccountNotInitialized`. */
  lemma ClosedAccountNotInitialized(w: World, reserve: nat, txs: seq<Transaction>, s: Seeds, tx: Transaction)
    requires Valid(w, reserve) && s !in w.records
    requires NeverReinitialized(w, reserve, txs, s)
    requires !tx.ix.Initialize? && tx.ix.escrow == Pda(s)
    ensures var w' := Run(w, reserve, txs);
      Apply(w', reserve, tx) == Step(Err(AccountNotInitialized), w')
  {
    AbsentStaysAbsent(w, reserve, txs, s);
    RunPreservesValid(w, reserve, txs);
  }

  /** Lamports credited to an escrow address from outside the program (a
      plain transfer by any wallet), which the ledger invariant excludes:
      at a closed address, `deposit`, `withdraw` and `cancel` then report
      `AccountOwnedByWrongProgram` instead of `AccountNotInitialized`. */
  lemma CreditedClosedAddress(w: World, s: Seeds, n: nat, tx: Transaction, reserve: nat)
    requires s !in w.records && n > 0
    requires !tx.ix.Initialize? && tx.ix.escrow == Pda(s)
    ensures var w' := World(w.records, w.lamports[Pda(s) := Balance(w.lamports, Pda(s)) + n]);
      && !Valid(w', reserve)
      && Apply(w', reserve, tx) == Step(Err(AccountOwnedByWrongProgram), w')
  {
  }

  /** At a live escrow such a credit is paid out with the rest: a successful
      `withdraw` or `cancel` hands over the whole balance, which is then more
      than the reserve plus the amount. */
  lemma CreditedLiveAddress(w: World, reserve: nat, s: Seeds, n: nat, tx: Transaction)
    requires Valid(w, reserve) && s in w.records && n > 0
    requires (tx.ix.Withdraw? || tx.ix.Cancel?) && tx.ix.escrow == Pda(s)
    ensures var w' := World(w.records, w.lamports[Pda(s) := Balance(w.lamports, Pda(s)) + n]);
      var r := Apply(w', reserve, tx);
      r.outcome.Ok? ==>
        Balance(r.world.lamports, Wallet(tx.ix.signer))
        == Balance(w'.lamports, Wallet(tx.ix.signer)) + reserve + w.records[s].amount as int + n
  {
    assert LiveAt(w, reserve, s);
  }

  /** A Deposited record is never changed by any instruction: it can only
      be closed. */
  lemma DepositedIsFinal(w: World, reserve: nat, tx: Transaction, s: Seeds)
    requires Valid(w, reserve) && s in w.records && w.records[s].state == Deposited
    ensures var w' := Apply(w, reserve, tx).world;
      s !in w'.records || w'.records[s] == w.records[s]
  {
    var r := Apply(w, reserve, tx);
    match tx.ix
    case Initialize(signer, beneficiary, escrow, unlockTimestamp, bump) =>
    case Deposit(signer, escrow, amount) =>
      if r.outcome.Ok? && escrow == Pda(s) {
        DepositInstruction.DepositSucceedsIff(w, signer, escrow, amount);
      }
    case Withdraw(signer, escrow) =>
    case Cancel(signer, escrow) =>
  }

  /** Once funded, an escrow keeps exactly that record until it is closed:
      through any run in which no `initialize` of the pair succeeds, the
      record is either gone or unchanged, so no second deposit ever succeeds
      on it. */
  lemma {:induction false} DepositedUntilClosed(w: World, reserve: nat, txs: seq<Transaction>, s: Seeds)
    requires Valid(w, reserve) && s in w.records && w.records[s].state == Deposited
    requires NeverReinitialized(w, reserve, txs, s)
    ensures var w' := Run(w, reserve, txs);
      s !in w'.records || w'.records[s] == w.records[s]
    decreases |txs|
  {
    if txs != [] {
      var w1 := Apply(w, reserve, txs[0]).world;
      DepositedIsFinal(w, reserve, txs[0], s);
      ApplyPreservesValid(w, reserve, txs[0]);
      if s in w1.records {
        DepositedUntilClosed(w1, reserve, txs[1..], s);
      } else {
        AbsentStaysAbsent(w1, reserve, txs[1..], s);
      }
    }
  }

  /** A successful deposit is never followed by another successful deposit
      on the same escrow, whoever signs and whatever the amount. */
  lemma NoDoubleDeposit(w: World, reserve: nat, signer: Pubkey, escrow: Address, amount: U64,
                        signer': Pubkey, amount': U64)
    requires Valid(w, reserve)
    requires DepositInstruction.Deposit(w, signer, escrow, amount).outcome.Ok?
    ensures var w' := DepositInstruction.Deposit(w, signer, escrow, amount).world;
      DepositInstruction.Deposit(w', signer', escrow, amount').outcome.Err?
  {
    var w' := DepositInstruction.Deposit(w, signer, escrow, amount).world;
    DepositInstruction.DepositEffect(w, signer, escrow, amount);
    DepositInstruction.DepositSucceedsIff(w', signer', escrow, amount');
  }

  /** For a funded escrow and any time, exactly one of the beneficiary's
      withdrawal and the depositor's cancellation is admitted: the two time
      windows are disjoint and together cover all times. */
  lemma TimeWindowsPartition(w: World, reserve: nat, s: Seeds, now: I64)
    requires Valid(w, reserve) && s in w.records && w.records[s].state == Deposited
    ensures WithdrawInstruction.Withdraw(w, s.beneficiary, Pda(s), now).outcome.Ok?
        != CancelInstruction.Cancel(w, s.depositor, Pda(s), now).outcome.Ok?
  {
    assert LiveAt(w, reserve, s);
    WithdrawInstruction.WithdrawSucceedsIff(w, s.beneficiary, Pda(s), now);
    CancelInstruction.CancelSucceedsIff(w, s.depositor, Pda(s), now);
  }
}

/** `initialize`: creates the escrow record for a (depositor, beneficiary)
    pair (programs/escrow_contract/src/instructions/initialize.rs). */
module InitializeInstruction {
  import opened State
  import opened Errors
  import opened Runtime

  /** Lamports the payer must add so that the new account holds the storage
      reserve: all of it for an empty address, only the shortfall otherwise. */
  function TopUp(w: World, reserve: nat, s: Seeds): nat {
    if Balance(w.lamports, Pda(s)) < reserve then reserve - Balance(w.lamports, Pda(s)) else 0
  }

  /** The checks `initialize` makes, in the order they run: the passed address
      must be the one derived from (signer, beneficiary); `init` must find it
      unused and the payer able to fund it; then the handler requires an
      unlock time in the future. */
  function Guards(w: World, reserve: nat, signer: Pubkey, beneficiary: Pubkey, escrow: Address,
                  unlockTimestamp: I64, now: I64): seq<Guard>
  {
    var s := Seeds(signer, beneficiary);
    [ Guard(escrow == Pda(s), ConstraintSeeds),
      Guard(s !in w.records, AccountAlreadyInUse),
      Guard(TopUp(w, reserve, s) <= Balance(w.lamports, Wallet(signer)), InsufficientLamports),
      Guard(unlockTimestamp > now, Program(InvalidAmount)) ]
  }

  /** The record the handler writes. */
  function NewRecord(signer: Pubkey, beneficiary: Pubkey, unlockTimestamp: I64, bump: U8): EscrowAccount {
    EscrowAccount(signer, beneficiary, 0, unlockTimestamp, Initialized, bump)
  }

  /** `initialize` signed by `signer`, at ledger time `now`, with the storage
      reserve for LEN bytes being `reserve`. A rejected call changes nothing;
      an accepted one creates exactly the one record and moves lamports only
      from the payer to the new account. */
  function Initialize(w: World, reserve: nat, signer: Pubkey, beneficiary: Pubkey, escrow: Address,
                      unlockTimestamp: I64, bump: U8, now: I64): (r: Step)
    ensures r.outcome.Err? ==> r.world == w
    ensures r.outcome.Ok? ==>
      && Seeds(signer, beneficiary) !in w.records
      && r.world.records == w.records[Seeds(signer, beneficiary) := NewRecord(signer, beneficiary, unlockTimestamp, bump)]
    ensures Total(r.world.lamports) == Total(w.lamports)
  {
    var s := Seeds(signer, beneficiary);
    match Check(Guards(w, reserve, signer, beneficiary, escrow, unlockTimestamp, now))
    case Err(f) => Step(Err(f), w)
    case Ok =>
      assert Guards(w, reserve, signer, beneficiary, escrow, unlockTimestamp, now)[1].holds;
      assert Guards(w, reserve, signer, beneficiary, escrow, unlockTimestamp, now)[2].holds;
      var paid := TopUp(w, reserve, s);
      TransferConserves(w.lamports, Wallet(signer), Pda(s), paid);
      Step(Ok, World(w.records[s := NewRecord(signer, beneficiary, unlockTimestamp, bump)],
                     Transfer(w.lamports, Wallet(signer), Pda(s), paid)))
  }

  /** It succeeds exactly when the address is the derived one, no record
      exists there, the payer can fund the reserve and the unlock time lies
      in the future. */
  lemma InitializeSucceedsIff(w: World, reserve: nat, signer: Pubkey, beneficiary: Pubkey, escrow: Address,
                              unlockTimestamp: I64, bump: U8, now: I64)
    ensures Initialize(w, reserve, signer, beneficiary, escrow, unlockTimestamp, bump, now).outcome.Ok?
      <==> && escrow == Pda(Seeds(signer, beneficiary))
           && Seeds(signer, beneficiary) !in w.records
           && TopUp(w, reserve, Seeds(signer, beneficiary)) <= Balance(w.lamports, Wallet(signer))
           && unlockTimestamp > now
  {
    var gs := Guards(w, reserve, signer, beneficiary, escrow, unlockTimestamp, now);
    assert gs[0].holds && gs[1].holds && gs[2].holds && gs[3].holds ==> forall j :: 0 <= j < |gs| ==> gs[j].holds;
  }

  /** An unlock time not strictly after `now` is rejected with
      `InvalidAmount` once the account checks pass, and nothing is created. */
  lemma InitializeRejectsPastUnlock(w: World, reserve: nat, signer: Pubkey, beneficiary: Pubkey,
                                    unlockTimestamp: I64, bump: U8, now: I64)
    requires unlockTimestamp <= now
    requires Seeds(signer, beneficiary) !in w.records
    requires TopUp(w, reserve, Seeds(signer, beneficiary)) <= Balance(w.lamports, Wallet(signer))
    ensures Initialize(w, reserve, signer, beneficiary, Pda(Seeds(signer, beneficiary)), unlockTimestamp, bump, now)
      == Step(Err(Program(InvalidAmount)), w)
  {
    assert FailsFirst(Guards(w, reserve, signer, beneficiary, Pda(Seeds(signer, beneficiary)), unlockTimestamp, now), 3);
  }

  /** A second `initialize` for the same pair fails and leaves the existing
      record as it was. */
  lemma InitializeAlreadyInUse(w: World, reserve: nat, signer: Pubkey, beneficiary: Pubkey,
                               unlockTimestamp: I64, bump: U8, now: I64)
    requires Seeds(signer, beneficiary) in w.records
    ensures Initialize(w, reserve, signer, beneficiary, Pda(Seeds(signer, beneficiary)), unlockTimestamp, bump, now)
      == Step(Err(AccountAlreadyInUse), w)
  {
    assert FailsFirst(Guards(w, reserve, signer, beneficiary, Pda(Seeds(signer, beneficiary)), unlockTimestamp, now), 1);
  }

  /** After a successful call the record holds the signer as depositor, the
      given beneficiary, nothing escrowed, the given unlock time and bump, and
      state Initialized; every other pair's record is unchanged. */
  lemma InitializeWritesRecord(w: World, reserve: nat, signer: Pubkey, beneficiary: Pubkey, escrow: Address,
                               unlockTimestamp: I64, bump: U8, now: I64)
    requires Initialize(w, reserve, signer, beneficiary, escrow, unlockTimestamp, bump, now).outcome.Ok?
    ensures var w' := Initialize(w, reserve, signer, beneficiary, escrow, unlockTimestamp, bump, now).world;
      var s := Seeds(signer, beneficiary);
      && s in w'.records
      && w'.records[s].depositor == signer
      && w'.records[s].beneficiary == beneficiary
      && w'.records[s].amount == 0
      && w'.records[s].unlockTimestamp == unlockTimestamp
      && w'.records[s].state == Initialized
      && w'.records[s].bump == bump
      && (forall t :: t != s ==> (t in w'.records <==> t in w.records))
      && (forall t :: t != s && t in w.records ==> w'.records[t] == w.records[t])
  {
  }

  /** On a valid ledger the depositor pays exactly the reserve, the new
      account holds exactly the reserve, and no other balance moves. */
  lemma InitializePaysReserve(w: World, reserve: nat, signer: Pubkey, beneficiary: Pubkey, escrow: Address,
                              unlockTimestamp: I64, bump: U8, now: I64)
    requires Valid(w, reserve)
    requires Initialize(w, reserve, signer, beneficiary, escrow, unlockTimestamp, bump, now).outcome.Ok?
    ensures var w' := Initialize(w, reserve, signer, beneficiary, escrow, unlockTimestamp, bump, now).world;
      var s := Seeds(signer, beneficiary);
      && Balance(w'.lamports, Pda(s)) == reserve
      && Balance(w'.lamports, Wallet(signer)) == Balance(w.lamports, Wallet(signer)) - reserve
      && (forall a :: a != Pda(s) && a != Wallet(signer) ==> Balance(w'.lamports, a) == Balance(w.lamports, a))
  {
    var s := Seeds(signer, beneficiary);
    assert s !in w.records;
    assert Balance(w.lamports, Pda(s)) == 0;
  }

  /** `initialize` keeps the ledger invariant. */
  lemma InitializePreservesValid(w: World, reserve: nat, signer: Pubkey, beneficiary: Pubkey, escrow: Address,
                                 unlockTimestamp: I64, bump: U8, now: I64)
    requires Valid(w, reserve)
    ensures Valid(Initialize(w, reserve, signer, beneficiary, escrow, unlockTimestamp, bump, now).world, reserve)
  {
    var r := Initialize(w, reserve, signer, beneficiary, escrow, unlockTimestamp, bump, now);
    if r.outcome.Ok? {
      InitializePaysReserve(w, reserve, signer, beneficiary, escrow, unlockTimestamp, bump, now);
      var s := Seeds(signer, beneficiary);
      var w' := r.world;
      forall t | t in w'.records
        ensures LiveAt(w', reserve, t)
      {
        if t != s {
          assert LiveAt(w, reserve, t);
        }
      }
      forall t | t !in w'.records
        ensures Balance(w'.lamports, Pda(t)) == 0
      {
        assert t !in w.records;
      }
    }
  }
}

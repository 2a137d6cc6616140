/** The part of the ledger the escrow program runs against: addresses,
    lamport balances, the escrow records, the failures the framework reports,
    and the order in which an instruction's checks run. */
module Runtime {
  import opened State
  import opened Errors

  /** The seeds of an escrow address: `b"escrow"`, the depositor, the beneficiary. */
  datatype Seeds = Seeds(depositor: Pubkey, beneficiary: Pubkey)

  /** A wallet owned by a key pair, or the program-derived address of an
      escrow. A derived address is a function of its seeds alone and lies off
      the curve, so it never equals a wallet's address. */
  datatype Address = Wallet(key: Pubkey) | Pda(seeds: Seeds)

  /** Every way an instruction can be rejected: the program's own errors and
      the errors the framework raises while loading and creating accounts
      and moving lamports. */
  datatype Failure =
    | Program(error: EscrowError)
    | AccountNotInitialized
    | AccountOwnedByWrongProgram
    | ConstraintSeeds
    | AccountAlreadyInUse
    | InsufficientLamports

  datatype Outcome = Ok | Err(failure: Failure)

  /** The ledger as the program sees it: the live escrow records, by seeds,
      and the lamport balance of every address (absent means zero). */
  datatype World = World(records: map<Seeds, EscrowAccount>, lamports: map<Address, nat>)

  /** What an instruction returns and the ledger it leaves. */
  datatype Step = Step(outcome: Outcome, world: World)

  function Balance(lamports: map<Address, nat>, a: Address): nat {
    if a in lamports then lamports[a] else 0
  }

  /** Moves `n` lamports between two distinct addresses. */
  function Transfer(lamports: map<Address, nat>, from: Address, to: Address, n: nat): (r: map<Address, nat>)
    requires from != to && n <= Balance(lamports, from)
    ensures Balance(r, from) == Balance(lamports, from) - n
    ensures Balance(r, to) == Balance(lamports, to) + n
    ensures forall a :: a != from && a != to ==> Balance(r, a) == Balance(lamports, a)
  {
    lamports[from := Balance(lamports, from) - n][to := Balance(lamports, to) + n]
  }

  /** All lamports on the ledger. */
  ghost function Total(lamports: map<Address, nat>): nat
    decreases |lamports|
  {
    if lamports == map[] then 0
    else
      var a :| a in lamports;
      assert |lamports - {a}| < |lamports| by {
        assert lamports.Keys - {a} < lamports.Keys;
      }
      lamports[a] + Total(lamports - {a})
  }

  lemma {:induction false} TotalRemove(lamports: map<Address, nat>, a: Address)
    requires a in lamports
    ensures Total(lamports) == lamports[a] + Total(lamports - {a})
    decreases |lamports|
  {
    var b :| b in lamports && Total(lamports) == lamports[b] + Total(lamports - {b});
    if b != a {
      assert (lamports - {b}).Keys < lamports.Keys;
      assert (lamports - {a}).Keys < lamports.Keys;
      TotalRemove(lamports - {b}, a);
      TotalRemove(lamports - {a}, b);
      assert lamports - {b} - {a} == lamports - {a} - {b};
    }
  }

  /** Setting one balance changes the total by the difference. */
  lemma TotalUpdate(lamports: map<Address, nat>, a: Address, v: nat)
    ensures Total(lamports[a := v]) + Balance(lamports, a) == Total(lamports) + v
  {
    var m := lamports[a := v];
    TotalRemove(m, a);
    if a in lamports {
      TotalRemove(lamports, a);
      assert m - {a} == lamports - {a};
    } else {
      assert m - {a} == lamports;
    }
  }

  /** A transfer neither creates nor destroys lamports. */
  lemma TransferConserves(lamports: map<Address, nat>, from: Address, to: Address, n: nat)
    requires from != to && n <= Balance(lamports, from)
    ensures Total(Transfer(lamports, from, to, n)) == Total(lamports)
  {
    var m := lamports[from := Balance(lamports, from) - n];
    TotalUpdate(lamports, from, Balance(lamports, from) - n);
    TotalUpdate(m, to, Balance(lamports, to) + n);
    assert Balance(m, to) == Balance(lamports, to);
  }

  /** Closing the escrow account at `s`: its whole balance goes to `to`
      and its record is deleted. */
  function Close(w: World, s: Seeds, to: Address): (r: World)
    requires to != Pda(s)
    ensures s !in r.records
    ensures forall t :: t != s ==> (t in r.records <==> t in w.records)
    ensures forall t :: t != s && t in w.records ==> r.records[t] == w.records[t]
    ensures Balance(r.lamports, Pda(s)) == 0
    ensures Balance(r.lamports, to) == Balance(w.lamports, to) + Balance(w.lamports, Pda(s))
    ensures forall a :: a != Pda(s) && a != to ==> Balance(r.lamports, a) == Balance(w.lamports, a)
    ensures Total(r.lamports) == Total(w.lamports)
  {
    TransferConserves(w.lamports, Pda(s), to, Balance(w.lamports, Pda(s)));
    World(w.records - {s}, Transfer(w.lamports, Pda(s), to, Balance(w.lamports, Pda(s))))
  }

  /** One check an instruction makes, and the failure it reports when the
      check does not hold. */
  datatype Guard = Guard(holds: bool, failure: Failure)

  /** The index of the first check that does not hold, or `|gs|` if all hold. */
  function FirstFailing(gs: seq<Guard>): (i: nat)
    ensures i <= |gs|
    ensures forall j :: 0 <= j < i ==> gs[j].holds
    ensures i < |gs| ==> !gs[i].holds
  {
    if gs == [] || !gs[0].holds then 0 else 1 + FirstFailing(gs[1..])
  }

  /** Check `k` is the first one that does not hold. */
  predicate FailsFirst(gs: seq<Guard>, k: int) {
    0 <= k < |gs| && !gs[k].holds && forall j :: 0 <= j < k ==> gs[j].holds
  }

  /** Runs the checks in order: the first that does not hold decides the
      failure; if all hold, the instruction may proceed. */
  function Check(gs: seq<Guard>): (r: Outcome)
    ensures r == Ok <==> forall j :: 0 <= j < |gs| ==> gs[j].holds
    ensures forall k :: FailsFirst(gs, k) ==> r == Err(gs[k].failure)
  {
    var i := FirstFailing(gs);
    if i == |gs| then Ok else Err(gs[i].failure)
  }

  /** The result of loading an escrow account passed to an instruction. */
  datatype Loaded = Found(seeds: Seeds, account: EscrowAccount) | Missing(failure: Failure)

  /** Loading the account at `escrow` as an escrow record: an address that
      holds no lamports is not initialized; one that holds lamports but no
      escrow record belongs to another program. */
  function Load(w: World, escrow: Address): Loaded {
    if escrow.Pda? && escrow.seeds in w.records then Found(escrow.seeds, w.records[escrow.seeds])
    else if Balance(w.lamports, escrow) == 0 then Missing(AccountNotInitialized)
    else Missing(AccountOwnedByWrongProgram)
  }

  /** A live record sits at the address derived from its own parties, keeps
      its record invariant, and its address holds the storage reserve plus
      the escrowed amount. */
  ghost predicate LiveAt(w: World, reserve: nat, s: Seeds)
    requires s in w.records
  {
    var a := w.records[s];
    && a.depositor == s.depositor
    && a.beneficiary == s.beneficiary
    && Consistent(a)
    && Balance(w.lamports, Pda(s)) == reserve + a.amount as int
  }

  /** The ledger invariant: every live record is well formed, and an escrow
      address without a record holds nothing. */
  ghost predicate Valid(w: World, reserve: nat) {
    && (forall s :: s in w.records ==> LiveAt(w, reserve, s))
    && (forall s :: s !in w.records ==> Balance(w.lamports, Pda(s)) == 0)
  }
}

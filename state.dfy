/** The escrow record kept at each escrow address, its state tag and its
    serialized size (programs/escrow_contract/src/state/escrow_account.rs). */
module State {

  /** Rust's fixed-width integers, written out as bounded integers. */
  newtype U8 = x: int | 0 <= x < 0x100
  newtype U64 = x: int | 0 <= x < 0x1_0000_0000_0000_0000
  newtype I64 = x: int | -0x8000_0000_0000_0000 <= x < 0x8000_0000_0000_0000

  /** An account address: 32 bytes. */
  type Pubkey = k: seq<U8> | |k| == 32 witness seq(32, _ => 0)

  /** The four states an escrow record can carry. */
  datatype EscrowState = Initialized | Deposited | Withdrawn | Cancelled

  /** The stored escrow record. `amount` counts lamports, `unlockTimestamp`
      is a Unix time in seconds, `bump` is the stored address nonce. */
  datatype EscrowAccount = EscrowAccount(
    depositor: Pubkey,
    beneficiary: Pubkey,
    amount: U64,
    unlockTimestamp: I64,
    state: EscrowState,
    bump: U8)

  /** What a live record satisfies: nothing escrowed before the deposit,
      something escrowed after it, and never a terminal state. */
  predicate Consistent(a: EscrowAccount) {
    || (a.state == Initialized && a.amount == 0)
    || (a.state == Deposited && a.amount > 0)
  }

  // Serialized widths, in bytes, of the account header and of each field.
  const DISCRIMINATOR_LEN: nat := 8
  const PUBKEY_LEN: nat := 32
  const U64_LEN: nat := 8
  const I64_LEN: nat := 8
  const ENUM_TAG_LEN: nat := 1
  const U8_LEN: nat := 1

  /** Space allocated for an escrow account: the discriminator and then the
      fields in declaration order. */
  const LEN: nat :=
    DISCRIMINATOR_LEN + PUBKEY_LEN + PUBKEY_LEN + U64_LEN + I64_LEN + ENUM_TAG_LEN + U8_LEN

  function Pow256(n: nat): (r: nat)
    ensures r > 0
  {
    if n == 0 then 1 else 256 * Pow256(n - 1)
  }

  /** The variant index of a state: its position in the declaration. */
  function Tag(s: EscrowState): U8 {
    match s
    case Initialized => 0
    case Deposited => 1
    case Withdrawn => 2
    case Cancelled => 3
  }

  /** Distinct states have distinct tags, and every tag fits in the one byte
      LEN reserves for the state. */
  lemma TagInjective(s: EscrowState, u: EscrowState)
    ensures Tag(s) == Tag(u) <==> s == u
    ensures (Tag(s) as int) < Pow256(ENUM_TAG_LEN)
  {
    assert Pow256(ENUM_TAG_LEN) == 256;
  }

  /** True when `n` fits in `width` bytes, unsigned. */
  predicate FitsUnsigned(n: int, width: nat) {
    0 <= n < Pow256(width)
  }

  /** True when `n` fits in `width` bytes, two's complement. */
  predicate FitsSigned(n: int, width: nat) {
    -(Pow256(width) as int) <= 2 * n < Pow256(width)
  }

  /** LEN adds up to 90 bytes, and each field's width holds exactly the range
      of its type: every value (`x`, `y`, `z`) fits, and the extreme values
      fill the width. So LEN is the serialized size of the record. */
  lemma LenMatchesFields(x: U8, y: U64, z: I64)
    ensures LEN == 90
    ensures FitsUnsigned(x as int, U8_LEN)
    ensures (0xFF as U8) as int == Pow256(U8_LEN) - 1
    ensures FitsUnsigned(y as int, U64_LEN)
    ensures (0xFFFF_FFFF_FFFF_FFFF as U64) as int == Pow256(U64_LEN) - 1
    ensures FitsSigned(z as int, I64_LEN)
    ensures 2 * (-0x8000_0000_0000_0000 as I64) as int == -(Pow256(I64_LEN) as int)
    ensures 2 * (0x7FFF_FFFF_FFFF_FFFF as I64) as int == Pow256(I64_LEN) - 2
  {
    assert Pow256(1) == 0x100;
    assert Pow256(2) == 0x1_0000;
    assert Pow256(4) == 0x1_0000_0000 by {
      assert Pow256(3) == 0x100_0000;
    }
    assert Pow256(8) == 0x1_0000_0000_0000_0000 by {
      assert Pow256(5) == 0x100_0000_0000;
      assert Pow256(6) == 0x1_0000_0000_0000;
      assert Pow256(7) == 0x100_0000_0000_0000;
    }
  }

  /** A live record is never seen in a terminal state. */
  lemma ConsistentIsLive(a: EscrowAccount)
    requires Consistent(a)
    ensures a.state != Withdrawn && a.state != Cancelled
    ensures a.state == Initialized ==> a.amount == 0
    ensures a.state == Deposited ==> a.amount > 0
  {
  }
}

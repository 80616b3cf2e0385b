/** 32-bit register-word helpers shared by the GPU field encoders. */
module Bits {

  /** `BIT(n)` is defined in the SDK's types header, which is not part of this
      model. It is taken to be the unsigned single-bit mask `1 << n`, defined
      for bit positions 0..31. */
  function Bit(n: bv32): (r: bv32)
    requires n < 32
    ensures r != 0 && r & (r - 1) == 0
    ensures r >> n == 1
  {
    1 << n
  }

  /** The value of a C comparison: 1 if it holds, 0 otherwise. */
  function FromBool(b: bool): (r: bv32)
    ensures r <= 1 && (r == 1 <==> b)
  {
    if b then 1 else 0
  }

  /** Field k (bits 4k..4k+3) of a register word made of eight 4-bit
      fields: drop k fields, keep the low four bits. */
  function Nibble(w: bv32, k: bv32): (r: bv32)
    requires k < 8
    ensures r < 16
    decreases k
  {
    if k == 0 then w & 0xF else Nibble(w >> 4, k - 1)
  }

  /** Field k is the word shifted right by 4k bits, masked to four bits. */
  lemma {:induction false} NibbleShift(w: bv32, k: bv32)
    requires k < 8
    ensures Nibble(w, k) == (w >> (k * 4)) & 0xF
    decreases k
  {
    if k != 0 {
      NibbleShift(w >> 4, k - 1);
    }
  }

  /** The field number of a sequence position 0..7, as a shift operand. */
  function FieldIndex(k: nat): (b: bv32)
    requires k < 8
    ensures b < 8 && b as int == k
  {
    if k == 0 then 0 else FieldIndex(k - 1) + 1
  }

  /** Distinct positions are distinct fields. */
  lemma FieldIndexInjective(j: nat, k: nat)
    requires j < 8 && k < 8
    ensures FieldIndex(j) == FieldIndex(k) <==> j == k
  {
  }

  /** The bits of field k. */
  function NibbleMask(k: bv32): bv32
    requires k < 8
  {
    0xF << (k * 4)
  }
}

/** The parts of a 32-bit register that address memory: all of it, or the lower half. */
module Registers {
  import opened WideArithmetic

  datatype Segment = Segment(base: U32, limit: U32)

  /** 2^16 or 2^32 */
  function AddressSize(addr32: bool): nat {
    if addr32 then WORD else 0x1_0000
  }

  /** The part of a register that counts or indexes: CX or ECX, DI or EDI. */
  function Part(reg: U32, addr32: bool): (r: U32)
    ensures r < AddressSize(addr32)
  {
    reg % AddressSize(addr32)
  }

  /** A register after k is added to that part; the upper half of a 16-bit one stays. */
  function Advance(reg: U32, k: int, addr32: bool): U32 {
    if addr32 then Wrap(reg + k) else reg / 0x1_0000 * 0x1_0000 + (reg % 0x1_0000 + k) % 0x1_0000
  }

  lemma WrapTwice(x: int, b: int)
    ensures Wrap(Wrap(x) + b) == Wrap(x + b)
  {
  }

  lemma LowTwice(x: int, b: int)
    ensures (x % 0x1_0000 + b) % 0x1_0000 == (x + b) % 0x1_0000
  {
  }

  lemma Halves16(hi: nat, lo: nat)
    requires lo < 0x1_0000
    ensures (hi * 0x1_0000 + lo) / 0x1_0000 == hi && (hi * 0x1_0000 + lo) % 0x1_0000 == lo
  {
  }

  lemma AdvanceTwice(reg: U32, a: int, b: int, addr32: bool)
    ensures Advance(Advance(reg, a, addr32), b, addr32) == Advance(reg, a + b, addr32)
    ensures Advance(reg, 0, addr32) == reg
  {
    if addr32 {
      WrapTwice(reg + a, b);
    } else {
      LowTwice(reg % 0x1_0000 + a, b);
      Halves16(reg / 0x1_0000, (reg % 0x1_0000 + a) % 0x1_0000);
    }
  }

  lemma CountLeft(reg: U32, k: nat, addr32: bool)
    requires k <= Part(reg, addr32)
    ensures Part(Advance(reg, 0 - k, addr32), addr32) == Part(reg, addr32) - k
  {
  }
}

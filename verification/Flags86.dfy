/** The flags word of the emulated processor and the macros that change it. */
module Flags86 {
  const F_CF: bv32 := 0x0001
  const F_PF: bv32 := 0x0004
  const F_AF: bv32 := 0x0010
  const F_ZF: bv32 := 0x0040
  const F_SF: bv32 := 0x0080
  const F_TF: bv32 := 0x0100
  const F_IF: bv32 := 0x0200
  const F_DF: bv32 := 0x0400
  const F_OF: bv32 := 0x0800
  const F_ALWAYS_ON: bv32 := 0x0002

  /** CONDITIONAL_SET_FLAG */
  function Put(flags: bv32, cond: bool, flag: bv32): bv32 {
    if cond then flags | flag else flags & !flag
  }

  /** ACCESS_FLAG */
  predicate Has(flags: bv32, flag: bv32) {
    flags & flag != 0
  }

  /** PARITY */
  predicate Parity(x: bv8) {
    (TableRow(x >> 5) >> ((x & 31) as bv5)) & 1 == 0
  }

  /** x86emu_parity_tab[i] */
  function TableRow(i: bv8): bv32 {
    if i == 0 then 0x96696996
    else if i == 1 then 0x69969669
    else if i == 2 then 0x69969669
    else if i == 3 then 0x96696996
    else if i == 4 then 0x69969669
    else if i == 5 then 0x96696996
    else if i == 6 then 0x96696996
    else 0x69969669
  }

  /** The number of ones is even: the exclusive or of the bits is 0. */
  predicate EvenOnes(x: bv8) {
    (x ^ (x >> 1) ^ (x >> 2) ^ (x >> 3) ^ (x >> 4) ^ (x >> 5) ^ (x >> 6) ^ (x >> 7)) & 1 == 0
  }

  /** The table says whether the number of ones is even. */
  lemma ParityIsEven(x: bv8)
    ensures Parity(x) <==> EvenOnes(x)
  {
  }

  predicate OneBit(flag: bv32) {
    flag == F_CF || flag == F_PF || flag == F_AF || flag == F_ZF || flag == F_SF || flag == F_OF || flag == F_DF
    || flag == F_IF || flag == F_TF
  }

  lemma PutHere(flags: bv32, cond: bool, flag: bv32)
    requires OneBit(flag)
    ensures Has(Put(flags, cond, flag), flag) == cond
  {
  }

  lemma PutElsewhere(flags: bv32, cond: bool, flag: bv32, other: bv32)
    requires OneBit(flag) && OneBit(other) && flag != other
    ensures Has(Put(flags, cond, flag), other) == Has(flags, other)
  {
  }

  /** CONDITIONAL_SET_FLAG sets one flag and keeps the others. */
  lemma Keeps(flags: bv32, cond: bool, flag: bv32)
    requires OneBit(flag)
    ensures forall other :: OneBit(other) ==> Has(Put(flags, cond, flag), other) == if other == flag then cond else Has(flags, other)
  {
    hide Has, Put;
    forall other | OneBit(other)
      ensures Has(Put(flags, cond, flag), other) == if other == flag then cond else Has(flags, other)
    {
      if other == flag {
        PutHere(flags, cond, flag);
      } else {
        PutElsewhere(flags, cond, flag, other);
      }
    }
  }
}

/**
 ADD, ADC, SUB, SBB and CMP of prim_ops.c at 8, 16 and 32 bits, with the flags taken from the
 carry (borrow) chain, and the conditions that read the flags.
 */
module CarryChain {
  import opened Flags86
  import opened WideArithmetic

  datatype Width = Byte | Word | Long

  function Bits(w: Width): nat {
    match w
    case Byte => 8
    case Word => 16
    case Long => 32
  }

  /** 2^w */
  function Top(w: Width): nat {
    match w
    case Byte => 0x100
    case Word => 0x1_0000
    case Long => 0x1_0000_0000
  }

  /** Bit i of a number in two's complement. */
  predicate Bit(x: int, i: nat) {
    x / Pow2(i) % 2 == 1
  }

  /** Bit i of cc = (s & d) | (~res & (s | d)). */
  predicate CarryBit(d: int, s: int, res: int, i: nat) {
    (Bit(s, i) && Bit(d, i)) || (!Bit(res, i) && (Bit(s, i) || Bit(d, i)))
  }

  /** Bit i of bc = (res & (~d | s)) | (~d & s). */
  predicate BorrowBit(d: int, s: int, res: int, i: nat) {
    (Bit(res, i) && (!Bit(d, i) || Bit(s, i))) || (!Bit(d, i) && Bit(s, i))
  }

  lemma BitHalf(x: int, i: nat)
    requires i > 0
    ensures Bit(x, i) == Bit(x / 2, i - 1)
  {
    DivDiv(x, Pow2(i - 1));
  }

  lemma DivDiv(x: int, p: nat)
    requires p > 0
    ensures x / 2 / p == x / (2 * p)
  {
    var q := x / (2 * p);
    var r := x % (2 * p);
    assert x == 2 * p * q + r;
    assert x / 2 == p * q + r / 2;
    DivUnique(x / 2, p, q, r / 2);
  }

  lemma DivUnique(x: int, p: nat, q: int, r: nat)
    requires p > 0 && x == p * q + r && r < p
    ensures x / p == q
  {
    var e := x / p;
    assert x == p * e + x % p;
    if e < q {
      MulInt(p, e + 1, q);
    } else if e > q {
      MulInt(p, q + 1, e);
    }
  }

  lemma MulInt(p: nat, a: int, b: int)
    requires a <= b
    ensures p * a <= p * b
  {
  }

  lemma ModHalf(x: int, p: nat)
    requires p > 0
    ensures x % (2 * p) == 2 * (x / 2 % p) + x % 2
  {
    DivDiv(x, p);
    var q := x / (2 * p);
    assert x == 2 * p * q + x % (2 * p);
    assert x / 2 == p * q + x / 2 % p;
  }

  lemma CarryAtZero(d: int, s: int, c: int)
    requires 0 <= c <= 1
    ensures CarryBit(d, s, d + s + c, 0) <==> d % Pow2(1) + s % Pow2(1) + c >= Pow2(1)
  {
    assert Pow2(0) == 1 && Pow2(1) == 2;
  }

  lemma BorrowAtZero(d: int, s: int, c: int)
    requires 0 <= c <= 1
    ensures BorrowBit(d, s, d - s - c, 0) <==> d % Pow2(1) < s % Pow2(1) + c
  {
    assert Pow2(0) == 1 && Pow2(1) == 2;
  }

  /** Bit i of the carry chain is the carry out of the lowest i+1 bits, whatever was carried in. */
  lemma {:induction false} CarryOutOf(d: int, s: int, c: int, i: nat)
    requires 0 <= c <= 1
    ensures CarryBit(d, s, d + s + c, i) <==> d % Pow2(i + 1) + s % Pow2(i + 1) + c >= Pow2(i + 1)
    decreases i
  {
    var r := d + s + c;
    if i == 0 {
      CarryAtZero(d, s, c);
    } else {
      hide Bit;
      var c1 := (d % 2 + s % 2 + c) / 2;
      assert r / 2 == d / 2 + s / 2 + c1;
      CarryOutOf(d / 2, s / 2, c1, i - 1);
      BitHalf(d, i);
      BitHalf(s, i);
      BitHalf(r, i);
      ModHalf(d, Pow2(i));
      ModHalf(s, Pow2(i));
      assert Pow2(i + 1) == 2 * Pow2(i);
      hide Pow2;
    }
  }

  lemma BorrowStep(a: int, b: int, d0: int, s0: int, c: int, c1: int)
    requires 0 <= d0 <= 1 && 0 <= s0 <= 1 && 0 <= c <= 1 && c1 == if d0 < s0 + c then 1 else 0
    ensures 2 * a + d0 < 2 * b + s0 + c <==> a < b + c1
  {
  }

  lemma HalfDifference(d: int, s: int, c: int)
    requires 0 <= c <= 1
    ensures (d - s - c) / 2 == d / 2 - s / 2 - (if d % 2 < s % 2 + c then 1 else 0)
  {
  }

  /** Bit i of the borrow chain is the borrow out of the lowest i+1 bits. */
  lemma {:induction false} BorrowOutOf(d: int, s: int, c: int, i: nat)
    requires 0 <= c <= 1
    ensures BorrowBit(d, s, d - s - c, i) <==> d % Pow2(i + 1) < s % Pow2(i + 1) + c
    decreases i
  {
    if i == 0 {
      BorrowAtZero(d, s, c);
    } else {
      hide Bit;
      var c1 := if d % 2 < s % 2 + c then 1 else 0;
      HalfDifference(d, s, c);
      BorrowOutOf(d / 2, s / 2, c1, i - 1);
      BitHalf(d, i);
      BitHalf(s, i);
      BitHalf(d - s - c, i);
      ModHalf(d, Pow2(i));
      ModHalf(s, Pow2(i));
      BorrowStep(d / 2 % Pow2(i), s / 2 % Pow2(i), d % 2, s % 2, c, c1);
      assert Pow2(i + 1) == 2 * Pow2(i);
      hide Pow2;
    }
  }

  // ---------- the operations ----------

  lemma Tops()
    ensures Pow2(4) == 16 && Pow2(7) == 0x80 && Pow2(8) == 0x100 && Pow2(15) == 0x8000 && Pow2(16) == 0x1_0000
    ensures Pow2(31) == 0x8000_0000 && Pow2(32) == WORD
  {
    Pow2s();
    assert Pow2(32) == 2 * Pow2(31);
    assert Pow2(16) == 2 * Pow2(15);
    assert Pow2(8) == 256;
  }

  /** A word keeps the low bits of what it is cut from. */
  lemma LowBits(x: int, i: nat)
    requires i < 32
    ensures Bit(x % WORD, i) == Bit(x, i)
  {
    Tops();
    var k, q := x / WORD, Pow2(32 - i - 1);
    Pow2Split(i, 32);
    Regroup(2 * Pow2(i), q, k);
    assert x == WORD * k + x % WORD;
    hide Bit, Pow2;
    BitShift(x % WORD, q * k, i);
  }

  lemma Regroup(p: int, q: int, k: int)
    ensures p * q * k == p * (q * k)
  {
  }

  lemma {:induction false} Pow2Split(i: nat, n: nat)
    requires i < n
    ensures Pow2(n) == 2 * Pow2(i) * Pow2(n - i - 1)
    decreases n
  {
    if i + 1 < n {
      Pow2Split(i, n - 1);
      assert Pow2(n - i - 1) == 2 * Pow2(n - i - 2);
    } else {
      assert Pow2(0) == 1;
    }
  }

  lemma Spread(p: int, a: int, b: int)
    ensures p * (a + b) == p * a + p * b
  {
  }

  lemma Twice(p: int, k: int)
    ensures 2 * p * k == p * (2 * k)
  {
  }

  lemma ShiftedQuotient(x: int, k: int, p: nat)
    requires p > 0
    ensures (x + 2 * p * k) / p == x / p + 2 * k
  {
    var q, r := x / p, x % p;
    assert x == p * q + r;
    Spread(p, q, 2 * k);
    Twice(p, k);
    DivUnique(x + 2 * p * k, p, q + 2 * k, r);
  }

  lemma Halved(x: int, k: int)
    ensures (x + 2 * k) % 2 == x % 2
  {
  }

  /** Adding a multiple of 2^(i+1) does not change bit i. */
  lemma BitShift(x: int, k: int, i: nat)
    ensures Bit(x + 2 * Pow2(i) * k, i) == Bit(x, i)
  {
    ShiftedQuotient(x, k, Pow2(i));
    hide Pow2;
    Halved(x / Pow2(i), k);
  }

  function SignedOf(x: nat, w: Width): int {
    if x < Top(w) / 2 then x else x - Top(w)
  }

  predicate FitsSigned(x: int, w: Width) {
    -(Top(w) / 2) <= x < Top(w) / 2
  }

  /** The six flags as an addition sets them, one after the other. */
  function SetBySum(flags: bv32, cf: bool, zf: bool, sf: bool, pf: bool, of: bool, af: bool): bv32 {
    Put(Put(Put(Put(Put(Put(flags, cf, F_CF), zf, F_ZF), sf, F_SF), pf, F_PF), of, F_OF), af, F_AF)
  }

  /** The six flags as a subtraction sets them. */
  function SetByDifference(flags: bv32, sf: bool, zf: bool, pf: bool, cf: bool, of: bool, af: bool): bv32 {
    Put(Put(Put(Put(Put(Put(flags, sf, F_SF), zf, F_ZF), pf, F_PF), cf, F_CF), of, F_OF), af, F_AF)
  }

  predicate EvenParity(r: nat) {
    Parity((r % 256) as bv8)
  }

  /** What an addition leaves in the flags word: unsigned, signed and nibble overflow. */
  function SumFlags(flags: bv32, d: nat, s: nat, c: nat, w: Width): bv32 {
    var r := (d + s + c) % Top(w);
    SetBySum(flags, d + s + c >= Top(w), r == 0, r >= Top(w) / 2, EvenParity(r),
             !FitsSigned(SignedOf(d, w) + SignedOf(s, w) + c, w), d % 16 + s % 16 + c >= 16)
  }

  /** What a subtraction or comparison leaves. */
  function DifferenceFlags(flags: bv32, d: nat, s: nat, c: nat, w: Width): bv32 {
    var r := (d - s - c) % Top(w);
    SetByDifference(flags, r >= Top(w) / 2, r == 0, EvenParity(r), d < s + c,
                    !FitsSigned(SignedOf(d, w) - SignedOf(s, w) - c, w), d % 16 < s % 16 + c)
  }

  lemma ModMod(x: int, a: nat, b: nat)
    requires a > 0 && b > 0
    ensures x % (a * b) % a == x % a
  {
    var q, r := x / (a * b), x % (a * b);
    Regroup(a, b, q);
    assert x == a * b * q + r;
    var k := r / a;
    assert r == a * k + r % a;
    assert x == a * (b * q + k) + r % a;
    DivUnique(x, a, b * q + k, r % a);
  }

  lemma Mod256(x: int, w: Width)
    ensures x % Top(w) % 256 == x % 256 && x % WORD % 256 == x % 256 && x % WORD % Top(w) == x % Top(w)
  {
    ModMod(x, 256, Top(w) / 256);
    ModMod(x, 256, WORD / 256);
    ModMod(x, Top(w), WORD / Top(w));
  }

  /** CF of a sum, the way add_long and adc_long get it from two halves. */
  lemma HalvesCarry(d: U32, s: U32, c: nat)
    requires c <= 1
    ensures var lo := c + d % 0x1_0000 + s % 0x1_0000; var hi := lo / 0x1_0000 + d / 0x1_0000 + s / 0x1_0000;
      hi / 0x1_0000 % 2 == 1 <==> d + s + c >= WORD
  {
  }

  /** The carry chain of the stored sum, which has only 32 bits. */
  lemma ChainBit(d: nat, s: nat, c: nat, res: int, i: nat, p: nat)
    requires c <= 1 && i < 32 && res == (d + s + c) % WORD && p == Pow2(i + 1)
    ensures CarryBit(d, s, res, i) <==> d % p + s % p + c >= p
  {
    LowBits(d + s + c, i);
    CarryOutOf(d, s, c, i);
    hide Bit, Pow2;
  }

  lemma BorrowChainBit(d: nat, s: nat, c: nat, res: int, i: nat, p: nat)
    requires c <= 1 && i < 32 && res == (d - s - c) % WORD && p == Pow2(i + 1)
    ensures BorrowBit(d, s, res, i) <==> d % p < s % p + c
  {
    LowBits(d - s - c, i);
    BorrowOutOf(d, s, c, i);
    hide Bit, Pow2;
  }

  /** Carries into and out of the sign bit differ exactly on signed overflow. */
  lemma SignedSum(d: nat, s: nat, c: nat, t: int)
    requires t > 0 && d < 2 * t && s < 2 * t && c <= 1
    ensures var x := (if d < t then d else d - 2 * t) + (if s < t then s else s - 2 * t) + c;
      (d % t + s % t + c >= t) != (d + s + c >= 2 * t) <==> !(-t <= x < t)
  {
    Residue(d, t);
    Residue(s, t);
  }

  lemma SignedDifference(d: nat, s: nat, c: nat, t: int)
    requires t > 0 && d < 2 * t && s < 2 * t && c <= 1
    ensures var x := (if d < t then d else d - 2 * t) - (if s < t then s else s - 2 * t) - c;
      (d % t < s % t + c) != (d < s + c) <==> !(-t <= x < t)
  {
    Residue(d, t);
    Residue(s, t);
  }

  lemma Residue(x: nat, t: int)
    requires t > 0 && x < 2 * t
    ensures x % t == if x < t then x else x - t
  {
    if x >= t {
      DivUnique(x, t, 1, x - t);
    }
  }

  /** The two top bits of the carry chain, for a width of n bits, t = 2^(n-1). */
  lemma SumTop(d: nat, s: nat, c: nat, res: int, n: nat, t: int)
    requires 2 <= n <= 32 && Pow2(n - 1) == t && Pow2(n) == 2 * t
    requires d < 2 * t && s < 2 * t && c <= 1 && res == (d + s + c) % WORD
    ensures var x := (if d < t then d else d - 2 * t) + (if s < t then s else s - 2 * t) + c;
      CarryBit(d, s, res, n - 2) != CarryBit(d, s, res, n - 1) <==> !(-t <= x < t)
  {
    hide CarryBit, Pow2;
    ChainBit(d, s, c, res, n - 2, t);
    ChainBit(d, s, c, res, n - 1, 2 * t);
    Residue(d, 2 * t);
    Residue(s, 2 * t);
    SignedSum(d, s, c, t);
  }

  lemma DifferenceTop(d: nat, s: nat, c: nat, res: int, n: nat, t: int)
    requires 2 <= n <= 32 && Pow2(n - 1) == t && Pow2(n) == 2 * t
    requires d < 2 * t && s < 2 * t && c <= 1 && res == (d - s - c) % WORD
    ensures var x := (if d < t then d else d - 2 * t) - (if s < t then s else s - 2 * t) - c;
      BorrowBit(d, s, res, n - 2) != BorrowBit(d, s, res, n - 1) <==> !(-t <= x < t)
    ensures BorrowBit(d, s, res, n - 1) <==> d < s + c
  {
    hide BorrowBit, Pow2;
    BorrowChainBit(d, s, c, res, n - 2, t);
    BorrowChainBit(d, s, c, res, n - 1, 2 * t);
    Residue(d, 2 * t);
    Residue(s, 2 * t);
    SignedDifference(d, s, c, t);
  }

  lemma SumOverflow(d: nat, s: nat, c: nat, res: int, w: Width)
    requires d < Top(w) && s < Top(w) && c <= 1 && res == (d + s + c) % WORD
    ensures CarryBit(d, s, res, Bits(w) - 2) != CarryBit(d, s, res, Bits(w) - 1)
      <==> !FitsSigned(SignedOf(d, w) + SignedOf(s, w) + c, w)
    ensures CarryBit(d, s, res, 3) <==> d % 16 + s % 16 + c >= 16
    ensures Bit(res, Bits(w) - 1) <==> res % Top(w) >= Top(w) / 2
  {
    hide CarryBit, Bit, Pow2;
    Tops();
    SignBit(res, w);
    ChainBit(d, s, c, res, 3, 16);
    SumTop(d, s, c, res, Bits(w), Top(w) / 2);
  }

  lemma DifferenceOverflow(d: nat, s: nat, c: nat, res: int, w: Width)
    requires d < Top(w) && s < Top(w) && c <= 1 && res == (d - s - c) % WORD
    ensures BorrowBit(d, s, res, Bits(w) - 2) != BorrowBit(d, s, res, Bits(w) - 1)
      <==> !FitsSigned(SignedOf(d, w) - SignedOf(s, w) - c, w)
    ensures BorrowBit(d, s, res, Bits(w) - 1) <==> d < s + c
    ensures BorrowBit(d, s, res, 3) <==> d % 16 < s % 16 + c
    ensures Bit(res, Bits(w) - 1) <==> res % Top(w) >= Top(w) / 2
  {
    hide BorrowBit, Bit, Pow2;
    Tops();
    SignBit(res, w);
    BorrowChainBit(d, s, c, res, 3, 16);
    DifferenceTop(d, s, c, res, Bits(w), Top(w) / 2);
  }

  lemma TopBit(x: int, t: nat)
    requires t > 0
    ensures x / t % 2 == 1 <==> x % (2 * t) >= t
  {
    var q, r := x / t, x % t;
    assert x == t * q + r;
    Regroup(t, 2, q / 2);
    assert t * q == t * (2 * (q / 2)) + t * (q % 2);
    DivUnique(x, 2 * t, q / 2, t * (q % 2) + r);
  }

  lemma SignBit(x: int, w: Width)
    ensures Bit(x, Bits(w) - 1) <==> x % Top(w) >= Top(w) / 2
  {
    Tops();
    hide Pow2;
    TopBit(x, Top(w) / 2);
  }

  class Alu {
    var flags: bv32

    constructor (flags: bv32)
      ensures this.flags == flags
    {
      this.flags := flags;
    }

    method SetSumFlags(cf: bool, zf: bool, sf: bool, pf: bool, of: bool, af: bool)
      modifies this
      ensures flags == SetBySum(old(flags), cf, zf, sf, pf, of, af)
    {
      hide Put;
      flags := Put(flags, cf, F_CF);
      flags := Put(flags, zf, F_ZF);
      flags := Put(flags, sf, F_SF);
      flags := Put(flags, pf, F_PF);
      flags := Put(flags, of, F_OF);
      flags := Put(flags, af, F_AF);
    }

    method SetDifferenceFlags(sf: bool, zf: bool, pf: bool, cf: bool, of: bool, af: bool)
      modifies this
      ensures flags == SetByDifference(old(flags), sf, zf, pf, cf, of, af)
    {
      hide Put;
      flags := Put(flags, sf, F_SF);
      flags := Put(flags, zf, F_ZF);
      flags := Put(flags, pf, F_PF);
      flags := Put(flags, cf, F_CF);
      flags := Put(flags, of, F_OF);
      flags := Put(flags, af, F_AF);
    }

    /** The common body of add_* and adc_*. */
    method Sum(w: Width, d: U32, s: U32, c: nat) returns (r: U32)
      requires d < Top(w) && s < Top(w) && c <= 1
      modifies this
      ensures r == (d + s + c) % Top(w) && flags == SumFlags(old(flags), d, s, c, w)
    {
      hide SetBySum, EvenParity, CarryBit, Bit, FitsSigned, SignedOf;
      var res := Wrap(d + s + c);
      var cf := CarryFlag(w, d, s, c, res);
      SumOverflow(d, s, c, res, w);
      Mod256(res, w);
      Mod256(d + s + c, w);
      ParityLow(res, w);
      r := res % Top(w);
      SetSumFlags(cf, r == 0, Bit(res, Bits(w) - 1), EvenParity(res),
                  CarryBit(d, s, res, Bits(w) - 2) != CarryBit(d, s, res, Bits(w) - 1), CarryBit(d, s, res, 3));
    }

    /** add_byte, add_word, add_long */
    method Add(w: Width, d: U32, s: U32) returns (r: U32)
      requires d < Top(w) && s < Top(w)
      modifies this
      ensures r == (d + s) % Top(w) && flags == SumFlags(old(flags), d, s, 0, w)
    {
      r := Sum(w, d, s, 0);
    }

    /** adc_byte, adc_word, adc_long */
    method Adc(w: Width, d: U32, s: U32) returns (r: U32)
      requires d < Top(w) && s < Top(w)
      modifies this
      ensures var c := if Has(old(flags), F_CF) then 1 else 0;
        r == (d + s + c) % Top(w) && flags == SumFlags(old(flags), d, s, c, w)
    {
      r := Sum(w, d, s, if Has(flags, F_CF) then 1 else 0);
    }

    /** sub_byte, sub_word, sub_long */
    method Sub(w: Width, d: U32, s: U32) returns (r: U32)
      requires d < Top(w) && s < Top(w)
      modifies this
      ensures r == (d - s) % Top(w) && flags == DifferenceFlags(old(flags), d, s, 0, w)
    {
      r := Subtract(w, d, s, 0);
    }

    /** sbb_byte, sbb_word, sbb_long */
    method Sbb(w: Width, d: U32, s: U32) returns (r: U32)
      requires d < Top(w) && s < Top(w)
      modifies this
      ensures var c := if Has(old(flags), F_CF) then 1 else 0;
        r == (d - s - c) % Top(w) && flags == DifferenceFlags(old(flags), d, s, c, w)
    {
      r := Subtract(w, d, s, if Has(flags, F_CF) then 1 else 0);
    }

    /** cmp_byte, cmp_word, cmp_long */
    method Cmp(w: Width, d: U32, s: U32) returns (r: U32)
      requires d < Top(w) && s < Top(w)
      modifies this
      ensures r == d && flags == DifferenceFlags(old(flags), d, s, 0, w)
    {
      var _ := Subtract(w, d, s, 0);
      r := d;
    }

    /** The common body of sub_*, sbb_* and cmp_*. */
    method Subtract(w: Width, d: U32, s: U32, c: nat) returns (r: U32)
      requires d < Top(w) && s < Top(w) && c <= 1
      modifies this
      ensures r == (d - s - c) % Top(w) && flags == DifferenceFlags(old(flags), d, s, c, w)
    {
      hide SetByDifference, EvenParity, BorrowBit, Bit, FitsSigned, SignedOf;
      var res := Wrap(d - s - c);
      DifferenceOverflow(d, s, c, res, w);
      Mod256(res, w);
      Mod256(d - s - c, w);
      ParityLow(res, w);
      r := res % Top(w);
      SetDifferenceFlags(Bit(res, Bits(w) - 1), r == 0, EvenParity(res), BorrowBit(d, s, res, Bits(w) - 1),
                         BorrowBit(d, s, res, Bits(w) - 2) != BorrowBit(d, s, res, Bits(w) - 1), BorrowBit(d, s, res, 3));
    }
  }

  lemma ParityLow(x: nat, w: Width)
    ensures EvenParity(x) == EvenParity(x % Top(w))
  {
    Mod256(x, w);
    hide Parity;
  }

  /** CF: bit w of the sum, or for 32 bits the carry out of the upper halves. */
  method CarryFlag(w: Width, d: U32, s: U32, c: nat, res: int) returns (cf: bool)
    requires d < Top(w) && s < Top(w) && c <= 1 && res == (d + s + c) % WORD
    ensures cf <==> d + s + c >= Top(w)
  {
    Tops();
    if w == Long {
      HalvesCarry(d, s, c);
      var lo := c + d % 0x1_0000 + s % 0x1_0000;
      var hi := lo / 0x1_0000 + d / 0x1_0000 + s / 0x1_0000;
      cf := hi / 0x1_0000 % 2 == 1;
    } else {
      TopBit(res, Top(w));
      hide Pow2;
      cf := Bit(res, Bits(w));
    }
  }

  /** The flags a comparison does not set. */
  function Others(flags: bv32): bv32 {
    flags & 0xffff_f72a
  }

  lemma PutOthers(flags: bv32, cond: bool, flag: bv32)
    requires flag == F_CF || flag == F_PF || flag == F_AF || flag == F_ZF || flag == F_SF || flag == F_OF
    ensures Others(Put(flags, cond, flag)) == Others(flags)
  {
  }

  lemma SetOthers(flags: bv32, sf: bool, zf: bool, pf: bool, cf: bool, of: bool, af: bool)
    ensures Others(SetByDifference(flags, sf, zf, pf, cf, of, af)) == Others(flags)
  {
    hide Put, Others;
    var f1 := Put(flags, sf, F_SF);
    var f2 := Put(f1, zf, F_ZF);
    var f3 := Put(f2, pf, F_PF);
    var f4 := Put(f3, cf, F_CF);
    var f5 := Put(f4, of, F_OF);
    PutOthers(flags, sf, F_SF);
    PutOthers(f1, zf, F_ZF);
    PutOthers(f2, pf, F_PF);
    PutOthers(f3, cf, F_CF);
    PutOthers(f4, of, F_OF);
    PutOthers(f5, af, F_AF);
  }

  lemma OrJoins(f: bv32, flag: bv32, same: bv32)
    ensures (f | flag) & (same | flag) == (f & same) | flag
  {
  }

  lemma AndJoins(f: bv32, flag: bv32, same: bv32)
    ensures (f & !flag) & (same | flag) == (f & same) & !flag
  {
  }

  /** What two words share but for a flag, they share after that flag is set. */
  lemma PutJoins(f: bv32, g: bv32, cond: bool, flag: bv32, same: bv32)
    requires f & same == g & same
    ensures Put(f, cond, flag) & (same | flag) == Put(g, cond, flag) & (same | flag)
  {
    if cond {
      OrJoins(f, flag, same);
      OrJoins(g, flag, same);
    } else {
      AndJoins(f, flag, same);
      AndJoins(g, flag, same);
    }
  }

  predicate Agree(f: bv32, g: bv32, on: bv32) {
    f & on == g & on
  }

  lemma PutAgrees(f: bv32, g: bv32, cond: bool, flag: bv32, on: bv32, more: bv32)
    requires Agree(f, g, on) && more == on | flag
    ensures Agree(Put(f, cond, flag), Put(g, cond, flag), more)
  {
    PutJoins(f, g, cond, flag, on);
  }

  lemma OthersAgree(f: bv32, g: bv32)
    requires Others(f) == Others(g)
    ensures Agree(f, g, 0xffff_f72a)
  {
  }

  lemma AllAgree(f: bv32, g: bv32)
    requires Agree(f, g, 0xffff_ffff)
    ensures f == g
  {
  }

  lemma SetDetermined(f: bv32, g: bv32, sf: bool, zf: bool, pf: bool, cf: bool, of: bool, af: bool)
    requires Others(f) == Others(g)
    ensures SetByDifference(f, sf, zf, pf, cf, of, af) == SetByDifference(g, sf, zf, pf, cf, of, af)
  {
    hide Put, Agree, Others;
    OthersAgree(f, g);
    var f1, g1 := Put(f, sf, F_SF), Put(g, sf, F_SF);
    var f2, g2 := Put(f1, zf, F_ZF), Put(g1, zf, F_ZF);
    var f3, g3 := Put(f2, pf, F_PF), Put(g2, pf, F_PF);
    var f4, g4 := Put(f3, cf, F_CF), Put(g3, cf, F_CF);
    var f5, g5 := Put(f4, of, F_OF), Put(g4, of, F_OF);
    PutAgrees(f, g, sf, F_SF, 0xffff_f72a, 0xffff_f7aa);
    PutAgrees(f1, g1, zf, F_ZF, 0xffff_f7aa, 0xffff_f7ea);
    PutAgrees(f2, g2, pf, F_PF, 0xffff_f7ea, 0xffff_f7ee);
    PutAgrees(f3, g3, cf, F_CF, 0xffff_f7ee, 0xffff_f7ef);
    PutAgrees(f4, g4, of, F_OF, 0xffff_f7ef, 0xffff_ffef);
    PutAgrees(f5, g5, af, F_AF, 0xffff_ffef, 0xffff_ffff);
    AllAgree(Put(f5, af, F_AF), Put(g5, af, F_AF));
  }

  /** A comparison leaves nothing of the flags an earlier one set. */
  lemma ComparedTwice(flags: bv32, d: nat, s: nat, d2: nat, s2: nat, w: Width)
    ensures DifferenceFlags(DifferenceFlags(flags, d, s, 0, w), d2, s2, 0, w) == DifferenceFlags(flags, d2, s2, 0, w)
  {
    hide SetByDifference, EvenParity, SignedOf, FitsSigned, Others;
    var f := DifferenceFlags(flags, d, s, 0, w);
    var r: nat := (d - s) % Top(w);
    SetOthers(flags, r >= Top(w) / 2, r == 0, EvenParity(r), d < s, !FitsSigned(SignedOf(d, w) - SignedOf(s, w), w), d % 16 < s % 16);
    var q: nat := (d2 - s2) % Top(w);
    SetDetermined(f, flags, q >= Top(w) / 2, q == 0, EvenParity(q), d2 < s2,
                  !FitsSigned(SignedOf(d2, w) - SignedOf(s2, w), w), d2 % 16 < s2 % 16);
  }

  // ---------- the conditions ----------

  /** eval_condition: the even types, then their negations. */
  predicate EvalCondition(flags: bv32, kind: nat) {
    var cond :=
      match kind / 2
      case 0 => Has(flags, F_OF)
      case 1 => Has(flags, F_CF)
      case 2 => Has(flags, F_ZF)
      case 3 => Has(flags, F_CF) || Has(flags, F_ZF)
      case 4 => Has(flags, F_SF)
      case 5 => Has(flags, F_PF)
      case 6 => Has(flags, F_SF) != Has(flags, F_OF)
      case 7 => Has(flags, F_ZF) || Has(flags, F_SF) != Has(flags, F_OF)
      case _ => false;
    if kind % 2 == 1 then !cond else cond
  }

  /** The flags word after the six flags are set, bit by bit; every other bit is as it was. */
  ghost predicate Reads(f: bv32, flags: bv32, cf: bool, zf: bool, sf: bool, pf: bool, of: bool, af: bool) {
    && (f & 0x001 != 0) == cf && (f & 0x004 != 0) == pf && (f & 0x010 != 0) == af
    && (f & 0x040 != 0) == zf && (f & 0x080 != 0) == sf && (f & 0x800 != 0) == of
    && f & 0xffff_f72a == flags & 0xffff_f72a
  }

  lemma HasIs(f: bv32)
    ensures Has(f, F_CF) == (f & 0x001 != 0) && Has(f, F_PF) == (f & 0x004 != 0) && Has(f, F_AF) == (f & 0x010 != 0)
    ensures Has(f, F_ZF) == (f & 0x040 != 0) && Has(f, F_SF) == (f & 0x080 != 0) && Has(f, F_OF) == (f & 0x800 != 0)
    ensures Has(f, F_DF) == (f & 0x400 != 0)
  {
  }

  lemma DirectionIs(f: bv32, g: bv32)
    requires f & 0xffff_f72a == g & 0xffff_f72a
    ensures Has(f, F_DF) == Has(g, F_DF)
  {
    var m: bv32 := 0xffff_f72a;
    assert f & 0x400 == (f & m) & 0x400 && g & 0x400 == (g & m) & 0x400;
  }

  lemma DifferenceSets(flags: bv32, sf: bool, zf: bool, pf: bool, cf: bool, of: bool, af: bool)
    ensures Reads(SetByDifference(flags, sf, zf, pf, cf, of, af), flags, cf, zf, sf, pf, of, af)
  {
    SetOthers(flags, sf, zf, pf, cf, of, af);
    hide Has, Put;
    var f1 := Put(flags, sf, F_SF);
    var f2 := Put(f1, zf, F_ZF);
    var f3 := Put(f2, pf, F_PF);
    var f4 := Put(f3, cf, F_CF);
    var f5 := Put(f4, of, F_OF);
    Keeps(flags, sf, F_SF);
    Keeps(f1, zf, F_ZF);
    Keeps(f2, pf, F_PF);
    Keeps(f3, cf, F_CF);
    Keeps(f4, of, F_OF);
    Keeps(f5, af, F_AF);
    HasIs(Put(f5, af, F_AF));
  }

  lemma SumSets(flags: bv32, cf: bool, zf: bool, sf: bool, pf: bool, of: bool, af: bool)
    ensures Reads(SetBySum(flags, cf, zf, sf, pf, of, af), flags, cf, zf, sf, pf, of, af)
  {
    hide Has, Put, Others;
    var f1 := Put(flags, cf, F_CF);
    var f2 := Put(f1, zf, F_ZF);
    var f3 := Put(f2, sf, F_SF);
    var f4 := Put(f3, pf, F_PF);
    var f5 := Put(f4, of, F_OF);
    var f6 := Put(f5, af, F_AF);
    Keeps(flags, cf, F_CF);
    Keeps(f1, zf, F_ZF);
    Keeps(f2, sf, F_SF);
    Keeps(f3, pf, F_PF);
    Keeps(f4, of, F_OF);
    Keeps(f5, af, F_AF);
    PutOthers(flags, cf, F_CF);
    PutOthers(f1, zf, F_ZF);
    PutOthers(f2, sf, F_SF);
    PutOthers(f3, pf, F_PF);
    PutOthers(f4, of, F_OF);
    PutOthers(f5, af, F_AF);
    HasIs(f6);
    OthersIs(f6);
    OthersIs(flags);
  }

  lemma OthersIs(f: bv32)
    ensures Others(f) == f & 0xffff_f72a
  {
  }

  /**
   What an addition leaves in the flags word: unsigned overflow in CF, zero and sign of the result in ZF and
   SF, an even number of ones in its low byte in PF, signed overflow in OF, a carry out of the low nibble in
   AF, and nothing else changed.
   */
  lemma SumReads(flags: bv32, d: nat, s: nat, c: nat, w: Width)
    requires d < Top(w) && s < Top(w) && c <= 1
    ensures var r := (d + s + c) % Top(w);
      Reads(SumFlags(flags, d, s, c, w), flags, d + s + c >= Top(w), r == 0, SignedOf(r, w) < 0, EvenOnes((r % 256) as bv8),
            !(-(Top(w) / 2) <= SignedOf(d, w) + SignedOf(s, w) + c < Top(w) / 2), d % 16 + s % 16 + c >= 16)
  {
    hide Reads, SetBySum, Parity, EvenOnes;
    var r: nat := (d + s + c) % Top(w);
    ParityIsEven((r % 256) as bv8);
    SumSets(flags, d + s + c >= Top(w), r == 0, r >= Top(w) / 2, EvenParity(r),
            !FitsSigned(SignedOf(d, w) + SignedOf(s, w) + c, w), d % 16 + s % 16 + c >= 16);
  }

  /** The same for a subtraction or a comparison, with a borrow in CF and AF. */
  lemma DifferenceReads(flags: bv32, d: nat, s: nat, c: nat, w: Width)
    requires d < Top(w) && s < Top(w) && c <= 1
    ensures var r := (d - s - c) % Top(w);
      Reads(DifferenceFlags(flags, d, s, c, w), flags, d < s + c, r == 0, SignedOf(r, w) < 0, EvenOnes((r % 256) as bv8),
            !(-(Top(w) / 2) <= SignedOf(d, w) - SignedOf(s, w) - c < Top(w) / 2), d % 16 < s % 16 + c)
  {
    hide Reads, SetByDifference, Parity, EvenOnes;
    var r: nat := (d - s - c) % Top(w);
    ParityIsEven((r % 256) as bv8);
    DifferenceSets(flags, r >= Top(w) / 2, r == 0, EvenParity(r), d < s + c,
                   !FitsSigned(SignedOf(d, w) - SignedOf(s, w) - c, w), d % 16 < s % 16 + c);
  }

  /**
   After cmp_*, the conditions decide the unsigned and the signed order of the operands, and tell the
   sign, the parity and the signed overflow of their difference.
   */
  lemma CompareDecides(flags: bv32, d: nat, s: nat, w: Width)
    requires d < Top(w) && s < Top(w)
    ensures var f := DifferenceFlags(flags, d, s, 0, w);
      && EvalCondition(f, 2) == (d < s) && EvalCondition(f, 3) == (d >= s)
      && EvalCondition(f, 4) == (d == s) && EvalCondition(f, 5) == (d != s)
      && EvalCondition(f, 6) == (d <= s) && EvalCondition(f, 7) == (d > s)
      && EvalCondition(f, 12) == (SignedOf(d, w) < SignedOf(s, w)) && EvalCondition(f, 13) == (SignedOf(d, w) >= SignedOf(s, w))
      && EvalCondition(f, 14) == (SignedOf(d, w) <= SignedOf(s, w)) && EvalCondition(f, 15) == (SignedOf(d, w) > SignedOf(s, w))
    ensures var f := DifferenceFlags(flags, d, s, 0, w); var r := (d - s) % Top(w);
      && EvalCondition(f, 0) == !(-(Top(w) / 2) <= SignedOf(d, w) - SignedOf(s, w) < Top(w) / 2) == !EvalCondition(f, 1)
      && EvalCondition(f, 8) == (SignedOf(r, w) < 0) == !EvalCondition(f, 9)
      && EvalCondition(f, 10) == EvenOnes((r % 256) as bv8) == !EvalCondition(f, 11)
  {
    hide Has, EvenOnes, EvalCondition, Top, DifferenceFlags, SignedOf;
    var f := DifferenceFlags(flags, d, s, 0, w);
    DifferenceReads(flags, d, s, 0, w);
    HasIs(f);
    Order(d, s, w);
    SignIs((d - s) % Top(w), w);
    Conditions(f);
  }

  lemma SignIs(r: nat, w: Width)
    requires r < Top(w)
    ensures SignedOf(r, w) < 0 <==> r >= Top(w) / 2
  {
  }

  lemma Conditions(f: bv32)
    ensures EvalCondition(f, 0) == Has(f, F_OF) && EvalCondition(f, 1) == !Has(f, F_OF)
    ensures EvalCondition(f, 2) == Has(f, F_CF) && EvalCondition(f, 3) == !Has(f, F_CF)
    ensures EvalCondition(f, 4) == Has(f, F_ZF) && EvalCondition(f, 5) == !Has(f, F_ZF)
    ensures EvalCondition(f, 6) == (Has(f, F_CF) || Has(f, F_ZF)) && EvalCondition(f, 7) == !EvalCondition(f, 6)
    ensures EvalCondition(f, 8) == Has(f, F_SF) && EvalCondition(f, 9) == !Has(f, F_SF)
    ensures EvalCondition(f, 10) == Has(f, F_PF) && EvalCondition(f, 11) == !Has(f, F_PF)
    ensures EvalCondition(f, 12) == (Has(f, F_SF) != Has(f, F_OF)) && EvalCondition(f, 13) == !EvalCondition(f, 12)
    ensures EvalCondition(f, 14) == (Has(f, F_ZF) || Has(f, F_SF) != Has(f, F_OF)) && EvalCondition(f, 15) == !EvalCondition(f, 14)
  {
    hide Has;
  }

  /** The difference modulo 2^w against the exact one. */
  lemma Order(d: nat, s: nat, w: Width)
    requires d < Top(w) && s < Top(w)
    ensures var r := (d - s) % Top(w); var x := SignedOf(d, w) - SignedOf(s, w);
      && (r == 0 <==> d == s) && (x == 0 <==> d == s)
      && ((r >= Top(w) / 2) != !FitsSigned(x, w) <==> x < 0)
  {
  }
}

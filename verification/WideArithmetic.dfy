/**
 div_long and imul_long_direct of prim_ops.c: 64-bit division and multiplication on 32-bit halves.
 */
module WideArithmetic {
  import opened Flags86

  const WORD := 0x1_0000_0000

  type U32 = n: nat | n < WORD

  /** Unsigned 32-bit arithmetic wraps. */
  function Wrap(n: int): U32 {
    n % WORD
  }

  function Pow2(n: nat): (r: nat)
    ensures r > 0
  {
    if n == 0 then 1 else 2 * Pow2(n - 1)
  }

  lemma Pow2s()
    ensures Pow2(16) == 0x1_0000 && Pow2(32) == WORD && Pow2(33) == 2 * WORD
  {
    assert Pow2(8) == 256;
    assert Pow2(16) == 0x1_0000;
    assert Pow2(24) == 0x100_0000;
  }

  // ---------- div_long ----------

  /** The 33 quotient bits the loop can produce. */
  function Quotient33(n: nat, s: nat): (q: nat)
    requires s > 0
  {
    if n / s < 2 * WORD then n / s else 2 * WORD - 1
  }

  /**
   One round of the loop, with p the divisor shifted by c and k = 2^(32-c): p is subtracted at
   most once, so that what remains is below p unless every quotient bit so far is 1.
   */
  lemma Round(n: nat, p: nat, k: nat, d: nat, q: nat)
    requires n == d + (2 * p) * q && q < k
    requires d < 2 * p || q == k - 1
    ensures d >= p ==> n == (d - p) + p * (2 * q + 1) && 2 * q + 1 < 2 * k && (d - p < p || 2 * q + 1 == 2 * k - 1)
    ensures d < p ==> n == d + p * (2 * q) && 2 * q < 2 * k
  {
    assert (2 * p) * q == p * (2 * q);
    assert p * (2 * q + 1) == p * (2 * q) + p;
  }

  /** s * 2^c: what the two halves of the divisor hold. */
  function Shifted(s: U32, c: nat): nat {
    s * Pow2(c)
  }

  lemma Next(s: U32, c: nat)
    ensures Pow2(c + 1) == 2 * Pow2(c) && Shifted(s, c + 1) == 2 * Shifted(s, c)
  {
  }

  lemma Pow2Grows(c: nat, e: nat)
    requires c <= e
    ensures Pow2(c) <= Pow2(e)
  {
    if c < e {
      Pow2Grows(c, e - 1);
    }
  }

  lemma Mul(a: nat, b: nat, c: nat)
    requires b <= c
    ensures a * b <= a * c
  {
  }

  lemma ShiftedSmall(s: U32, c: nat)
    requires c <= 31
    ensures s * Pow2(c) < WORD * 0x8000_0000
  {
    Pow2s();
    assert Pow2(32) == 2 * Pow2(31);
    Pow2Grows(c, 31);
    Mul(s, Pow2(c), 0x8000_0000);
  }

  /** The two halves of the shifted divisor, and what one shift to the right makes of them. */
  lemma Halves(hS: U32, lS: U32, s: U32, c: nat)
    requires c <= 32 && hS * WORD + lS == Shifted(s, c)
    ensures hS < WORD - 1 || lS == 0
    ensures c > 0 ==> hS / 2 * WORD + Wrap(Shifted(s, c - 1)) == Shifted(s, c - 1)
  {
    if c == 32 {
      Pow2s();
    } else {
      ShiftedSmall(s, c);
    }
    if c > 0 {
      Next(s, c - 1);
      HalfOf(hS, lS, Shifted(s, c - 1));
    }
  }

  lemma HalfOf(h: U32, l: U32, t: nat)
    requires h * WORD + l == 2 * t
    ensures h / 2 * WORD + Wrap(t) == t
  {
  }

  /** What the loop leaves is the quotient, capped at 33 ones, and what it does not account for. */
  lemma Capped(n: nat, s: nat, d: nat, q: nat)
    requires s > 0 && n == d + s * q && q < 2 * WORD && (d < s || q == 2 * WORD - 1)
    ensures q == Quotient33(n, s) && d == n - Quotient33(n, s) * s
  {
    if d < s {
      DivIs(n, s, d, q);
    } else {
      assert n >= s * (2 * WORD);
      DivAtLeast(n, s, 2 * WORD);
    }
  }

  lemma DivIs(n: nat, s: nat, d: nat, q: nat)
    requires s > 0 && n == d + s * q && d < s
    ensures n / s == q && n % s == d
  {
    var e := n / s;
    assert n == s * e + n % s;
    if e < q {
      Mul(s, e + 1, q);
    } else if e > q {
      Mul(s, q + 1, e);
    }
  }

  lemma DivAtLeast(n: nat, s: nat, q: nat)
    requires s > 0 && n >= s * q
    ensures n / s >= q
  {
    var e := n / s;
    if e < q {
      Mul(s, e + 1, q);
    }
  }

  lemma WrapSmall(x: int)
    requires 0 <= x < WORD
    ensures Wrap(x) == x
  {
  }

  /** The comparison and the subtraction with borrow on two halves. */
  method TakeAway(h: U32, l: U32, hS: U32, lS: U32) returns (hDvd: U32, lDvd: U32, took: bool)
    requires hS < WORD - 1 || lS == 0
    ensures took <==> h * WORD + l >= hS * WORD + lS
    ensures hDvd * WORD + lDvd == h * WORD + l - (if took then hS * WORD + lS else 0)
  {
    hDvd, lDvd := h, l;
    var carry := if lDvd >= lS then 0 else 1;
    WrapSmall(hS + carry);
    if hDvd < Wrap(hS + carry) {
      took := false;
    } else {
      WrapSmall(hDvd - (hS + carry));
      hDvd := Wrap(hDvd - Wrap(hS + carry));
      lDvd := if carry == 1 then Wrap((0xffff_ffff - lS) + lDvd + 1) else Wrap(lDvd - lS);
      took := true;
    }
  }

  /** The loop of div_long: the quotient modulo 2^32, and what is left of the dividend. */
  method DivideLoop(h: U32, l: U32, s: U32) returns (div: U32, hDvd: U32, lDvd: U32)
    requires s > 0
    ensures var n := h * WORD + l; div == Quotient33(n, s) % WORD && hDvd * WORD + lDvd == n - Quotient33(n, s) * s
  {
    hDvd, lDvd, div := h, l, 0;
    var hS: U32, lS: U32 := s, 0;
    var counter := 32;
    ghost var n, q: nat, k: nat, big: nat := h * WORD + l, 0, 1, Shifted(s, 33);
    Ends(s);
    hide Pow2, Shifted;
    while counter > -1
      invariant -1 <= counter <= 32 && big == Shifted(s, counter + 1)
      invariant counter >= 0 ==> hS * WORD + lS == Shifted(s, counter)
      invariant q < k == Pow2(32 - counter) && div == q % WORD
      invariant n == hDvd * WORD + lDvd + big * q
      invariant hDvd * WORD + lDvd < big || q == k - 1
    {
      Next(s, counter);
      Next(s, 32 - counter);
      Round(n, Shifted(s, counter), k, hDvd * WORD + lDvd, q);
      Halves(hS, lS, s, counter);
      var took;
      hDvd, lDvd, took := TakeAway(hDvd, lDvd, hS, lS);
      DoubleMod(q, div);
      div := Wrap(div * 2);
      q, k, big := 2 * q, 2 * k, Shifted(s, counter);
      if took {
        div := div + 1;
        q := q + 1;
      }
      hS := hS / 2;
      counter := counter - 1;
      if counter >= 0 {
        lS := ShiftLeft(s, counter);
      } else {
        lS := *;
      }
    }
    Capped(n, s, hDvd * WORD + lDvd, q);
  }

  lemma DoubleMod(q: nat, div: U32)
    requires div == q % WORD
    ensures Wrap(div * 2) == (2 * q) % WORD && Wrap(div * 2) + 1 == (2 * q + 1) % WORD
  {
    var a := q / WORD;
    assert 2 * q == 2 * a * WORD + 2 * div;
    if div < WORD / 2 {
      DivIs(2 * q, WORD, 2 * div, 2 * a);
      DivIs(2 * q + 1, WORD, 2 * div + 1, 2 * a);
    } else {
      DivIs(2 * q, WORD, 2 * div - WORD, 2 * a + 1);
      DivIs(2 * q + 1, WORD, 2 * div - WORD + 1, 2 * a + 1);
    }
  }

  /** s << c */
  function ShiftLeft(s: U32, c: nat): U32 {
    Wrap(Shifted(s, c))
  }

  lemma Ends(s: U32)
    ensures Pow2(0) == 1 && Pow2(33) == 2 * WORD
    ensures Shifted(s, 0) == s && Shifted(s, 32) == s * WORD && Shifted(s, 33) == s * (2 * WORD)
  {
    Pow2s();
  }

  class Divider {
    var eax: U32
    var edx: U32
    var flags: bv32
    var divideError: bool

    /** div_long */
    method DivLong(s: U32)
      modifies this
      ensures var n := old(edx) * WORD + old(eax);
        if s == 0 || n - Quotient33(n, s) * s > s then
          divideError && eax == old(eax) && edx == old(edx) && flags == old(flags)
        else
          && divideError == old(divideError)
          && eax == Quotient33(n, s) % WORD && edx == n - Quotient33(n, s) * s
          && flags == Put(Put(Put(Put(Put(old(flags), false, F_CF), false, F_AF), false, F_SF), true, F_ZF),
                          Parity((edx % 256) as bv8), F_PF)
    {
      hide Put, Parity, Quotient33;
      if s == 0 {
        divideError := true;
        return;
      }
      var div, hDvd, lDvd := DivideLoop(edx, eax, s);
      if hDvd != 0 || lDvd > s {
        divideError := true;
        return;
      }
      var mod := lDvd;
      flags := Put(flags, false, F_CF);
      flags := Put(flags, false, F_AF);
      flags := Put(flags, false, F_SF);
      flags := Put(flags, true, F_ZF);
      flags := Put(flags, Parity((mod % 256) as bv8), F_PF);
      eax := div;
      edx := mod;
    }
  }

  /** The dividend divided: no error, exact quotient and remainder, as the architecture asks. */
  predicate DividesRight(edx: U32, eax: U32, s: U32)
    requires s > 0
  {
    var n := Dividend(edx, eax); var q := Quotient33(n, s);
    if edx >= s then n - q * s > s
    else n - q * s <= s && q % WORD == n / s && n - q * s == n % s
  }

  /**
   On EDX < s the quotient and the remainder are exact and there is no error. On EDX >= s, where
   the architecture demands a divide error, there is one exactly when EDX:EAX exceeds s * 2^33.
   */
  lemma DivideExact(edx: U32, eax: U32, s: U32)
    requires s > 0
    ensures DividesRight(edx, eax, s) <==> edx < s || edx * WORD + eax > s * (2 * WORD)
    ensures edx < s ==> Dividend(edx, eax) / s < WORD
  {
    var n := Dividend(edx, eax);
    assert n == s * (n / s) + n % s;
    if edx < s {
      if n / s >= WORD {
        Mul(s, WORD, n / s);
      }
    } else if n / s < 2 * WORD {
      Mul(s, n / s + 1, 2 * WORD);
    } else {
      assert s * (2 * WORD - 1) == s * (2 * WORD) - s;
    }
  }

  /** 2^32 divided by 1 ought to raise a divide error; the code returns 0 and no error. */
  lemma DivideWitness()
    ensures Quotient33(Dividend(1, 0), 1) == WORD && WORD % WORD == 0 && Dividend(1, 0) - WORD * 1 == 0
    ensures !DividesRight(1, 0, 1)
  {
    DivideExact(1, 0, 1);
  }

  function Dividend(edx: U32, eax: U32): nat {
    edx * WORD + eax
  }

  // ---------- imul_long_direct ----------

  /** The number a 32-bit word stands for in two's complement. */
  function Signed(x: U32): int {
    if x < 0x8000_0000 then x else x - WORD
  }

  function Magnitude(x: U32): (m: nat)
    ensures m <= 0x8000_0000
  {
    if x < 0x8000_0000 then x else WORD - x
  }

  /** A product of two words, cut off at 32 bits. */
  function Product(a: U32, b: U32): U32 {
    Wrap(a * b)
  }

  /** No partial product is cut off, and neither is their sum. */
  lemma PartialProducts(dLo: U32, dHi: U32, sLo: U32, sHi: U32)
    requires dLo < 0x1_0000 && sLo < 0x1_0000 && dHi <= 0x8000 && sHi <= 0x8000
    ensures Product(dLo, sLo) == dLo * sLo <= 0xfffe_0001 && Product(dHi, sLo) == dHi * sLo <= 0x7fff_8000
    ensures Product(dLo, sHi) == dLo * sHi <= 0x7fff_8000 && Product(dHi, sHi) == dHi * sHi <= 0x4000_0000
  {
    hide Product;
    ProductFits(dLo, 0xffff, sLo, 0xffff);
    ProductFits(dHi, 0x8000, sLo, 0xffff);
    ProductFits(dLo, 0xffff, sHi, 0x8000);
    ProductFits(dHi, 0x8000, sHi, 0x8000);
  }

  lemma ProductFits(a: U32, x: nat, b: U32, y: nat)
    requires a <= x && b <= y && x * y < WORD
    ensures Product(a, b) == a * b <= x * y
  {
    MulBound(a, x, b, y);
  }

  lemma MulBound(a: nat, x: nat, b: nat, y: nat)
    requires a <= x && b <= y
    ensures a * b <= x * y
  {
    Mul(a, b, y);
    Mul(y, a, x);
  }

  /** (a << 16) | (b & 0xFFFF) */
  function Join(a: U32, b: U32): (r: U32)
    ensures r == a % 0x1_0000 * 0x1_0000 + b % 0x1_0000
  {
    (a * 0x1_0000) % WORD + b % 0x1_0000
  }

  lemma Distribute(dLo: nat, dHi: nat, sLo: nat, sHi: nat)
    ensures (dHi * 0x1_0000 + dLo) * (sHi * 0x1_0000 + sLo)
      == dHi * sHi * WORD + (dHi * sLo + dLo * sHi) * 0x1_0000 + dLo * sLo
  {
  }

  lemma ProductBounds(dLo: U32, dHi: U32, sLo: U32, sHi: U32)
    requires dLo < 0x1_0000 && sLo < 0x1_0000 && dHi <= 0x8000 && sHi <= 0x8000
    ensures Product(dLo, sLo) <= 0xfffe_0001 && Product(dHi, sLo) <= 0x7fff_8000
    ensures Product(dLo, sHi) <= 0x7fff_8000 && Product(dHi, sHi) <= 0x4000_0000
  {
    PartialProducts(dLo, dHi, sLo, sHi);
  }

  lemma SumsFit(low: U32, mid: nat, high: U32)
    requires low <= 0xfffe_0001 && mid <= 0xffff_0000 && high <= 0x4000_0000
    ensures Wrap(mid) == mid && Wrap(mid + low / 0x1_0000) == mid + low / 0x1_0000
    ensures var r := mid + low / 0x1_0000; Wrap(high + r / 0x1_0000) == high + r / 0x1_0000
  {
  }

  lemma ProductSums(dLo: U32, dHi: U32, sLo: U32, sHi: U32)
    requires dLo < 0x1_0000 && sLo < 0x1_0000 && dHi <= 0x8000 && sHi <= 0x8000
    ensures var mid := Product(dHi, sLo) + Product(dLo, sHi); var r := mid + Product(dLo, sLo) / 0x1_0000;
      Wrap(mid) == mid && Wrap(r) == r && Wrap(Product(dHi, sHi) + r / 0x1_0000) == Product(dHi, sHi) + r / 0x1_0000
  {
    ProductBounds(dLo, dHi, sLo, sHi);
    hide Product, Wrap;
    SumsFit(Product(dLo, sLo), Product(dHi, sLo) + Product(dLo, sHi), Product(dHi, sHi));
  }

  lemma Recombined(d: U32, s: U32, rloLo: U32, rloHi: U32, lo: U32, hi: U32)
    requires d <= 0x8000_0000 && s <= 0x8000_0000
    requires var dLo, dHi, sLo, sHi := d % 0x1_0000, d / 0x1_0000, s % 0x1_0000, s / 0x1_0000;
      && rloLo == Product(dLo, sLo) && rloHi == Product(dHi, sLo) + Product(dLo, sHi) + rloLo / 0x1_0000
      && hi == Product(dHi, sHi) + rloHi / 0x1_0000 && lo == Join(rloHi, rloLo)
    ensures hi * WORD + lo == d * s
  {
    hide Product;
    var dLo, dHi, sLo, sHi := d % 0x1_0000, d / 0x1_0000, s % 0x1_0000, s / 0x1_0000;
    PartialProducts(dLo, dHi, sLo, sHi);
    Distribute(dLo, dHi, sLo, sHi);
    assert d == dHi * 0x1_0000 + dLo && s == sHi * 0x1_0000 + sLo;
  }

  /** Four partial products of halves: no sum on the way overflows, as neither factor exceeds 2^31. */
  method Multiply(d: U32, s: U32) returns (lo: U32, hi: U32)
    requires d <= 0x8000_0000 && s <= 0x8000_0000
    ensures hi * WORD + lo == d * s
  {
    var dLo, dHi := d % 0x1_0000, d / 0x1_0000;
    var sLo, sHi := s % 0x1_0000, s / 0x1_0000;
    ProductSums(dLo, dHi, sLo, sHi);
    hide *;
    var rloLo := Product(dLo, sLo);
    var rloHi := Wrap(Wrap(Product(dHi, sLo) + Product(dLo, sHi)) + rloLo / 0x1_0000);
    var rhiLo := Wrap(Product(dHi, sHi) + rloHi / 0x1_0000);
    lo := Join(rloHi, rloLo);
    hi := rhiLo;
    Recombined(d, s, rloLo, rloHi, lo, hi);
  }

  lemma CarryOut(d: U32)
    ensures (d % 0x1_0000 + 1) / 0x1_0000 + d / 0x1_0000 <= 0x1_0000
    ensures ((d % 0x1_0000 + 1) / 0x1_0000 + d / 0x1_0000) / 0x1_0000 == if d == WORD - 1 then 1 else 0
  {
  }

  /** The two's complement of a 64-bit number in two words, with the carry from the low one. */
  method Negate(lo: U32, hi: U32) returns (negLo: U32, negHi: U32)
    ensures negHi * WORD + negLo == (if lo == 0 && hi == 0 then 0 else WORD * WORD - (hi * WORD + lo))
  {
    var d: U32 := WORD - 1 - lo;
    var s := Wrap((d % 0x1_0000 + 1) / 0x1_0000 + d / 0x1_0000);
    CarryOut(d);
    negLo := Wrap(WORD - 1 - lo + 1);
    negHi := Wrap(WORD - 1 - hi + s / 0x1_0000);
  }

  /** imul_long_direct: the exact signed product of any two words, in two words. */
  method ImulLongDirect(d: U32, s: U32) returns (resLo: U32, resHi: U32)
    ensures Signed(resHi) * WORD + resLo == Signed(d) * Signed(s)
  {
    var dAbs, sAbs := d, s;
    var dSign := d >= 0x8000_0000;
    if dSign {
      dAbs := Wrap(WORD - d);
    }
    var sSign := s >= 0x8000_0000;
    if sSign {
      sAbs := Wrap(WORD - s);
    }
    resLo, resHi := Multiply(dAbs, sAbs);
    MulBound(dAbs, 0x8000_0000, sAbs, 0x8000_0000);
    SignedProduct(d, s, dAbs, sAbs);
    if dSign != sSign {
      resLo, resHi := Negate(resLo, resHi);
    }
  }

  lemma SignedProduct(d: U32, s: U32, dAbs: nat, sAbs: nat)
    requires dAbs == Magnitude(d) && sAbs == Magnitude(s)
    ensures Signed(d) * Signed(s) ==
      if (d >= 0x8000_0000) == (s >= 0x8000_0000) then dAbs * sAbs else -(dAbs * sAbs)
  {
  }
}

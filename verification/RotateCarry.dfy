/**
 rcl_* and rcr_* of prim_ops.c. Operands are their bits, least significant first, so that one
 proof covers every width; the carry flag on top of the operand makes a ring.
 */
module RotateCarry {
  import opened Flags86

  type BitString = seq<bool>

  // The operators of the source on unsigned numbers, cut off at the width of the operand.

  function ShiftLeft(d: BitString, n: nat): (r: BitString)
    ensures |r| == |d|
  {
    seq(|d|, i requires 0 <= i < |d| => i >= n && d[i - n])
  }

  function ShiftRight(d: BitString, n: nat): (r: BitString)
    ensures |r| == |d|
  {
    seq(|d|, i requires 0 <= i < |d| => i + n < |d| && d[i + n])
  }

  /** & ((1 << n) - 1) */
  function Low(d: BitString, n: nat): (r: BitString)
    ensures |r| == |d|
  {
    seq(|d|, i requires 0 <= i < |d| => i < n && d[i])
  }

  function Or(d: BitString, e: BitString): (r: BitString)
    requires |d| == |e|
    ensures |r| == |d|
  {
    seq(|d|, i requires 0 <= i < |d| => d[i] || e[i])
  }

  /** | (1 << n) */
  function SetBit(d: BitString, n: nat): (r: BitString)
    ensures |r| == |d|
  {
    seq(|d|, i requires 0 <= i < |d| => d[i] || i == n)
  }

  /** Bit n, as in (d >> n) & 1. */
  predicate BitOf(d: BitString, n: nat) {
    n < |d| && d[n]
  }

  // ---------- the code ----------

  /** The value and the carry that rcl_byte and rcl_word compute for a count below the ring's size. */
  function Rcl(d: BitString, cf: bool, cnt: nat): (r: (BitString, bool))
    requires cnt <= |d|
    ensures |r.0| == |d|
  {
    if cnt == 0 then (d, cf)
    else
      var res := ShiftLeft(d, cnt);
      var res := Or(res, Low(ShiftRight(d, |d| + 1 - cnt), cnt - 1));
      (if cf then SetBit(res, cnt - 1) else res, BitOf(d, |d| - cnt))
  }

  /** The same for rcr_byte and rcr_word. */
  function Rcr(d: BitString, cf: bool, cnt: nat): (r: (BitString, bool))
    requires cnt <= |d|
    ensures |r.0| == |d|
  {
    if cnt == 0 then (d, cf)
    else
      var res := Low(ShiftRight(d, cnt), |d| - cnt);
      var res := Or(res, ShiftLeft(d, |d| + 1 - cnt));
      (if cf then SetBit(res, |d| - cnt) else res, if cnt == 1 then BitOf(d, 0) else BitOf(d, cnt - 1))
  }

  class Rotator {
    var flags: bv32

    /** rcl_byte (8 bits) and rcl_word (16 bits) */
    method RotateLeft(d: BitString, s: nat) returns (r: BitString)
      requires d != []
      modifies this
      ensures var cnt := s % (|d| + 1); var (v, cf) := Rcl(d, Has(old(flags), F_CF), cnt);
        && r == v
        && flags == (if cnt == 0 then old(flags)
                     else Put(Put(old(flags), cf, F_CF), cnt == 1 && cf != v[|d| - 1], F_OF))
    {
      hide Has, Put, ShiftLeft, ShiftRight, Low, Or, SetBit, BitOf;
      r := d;
      var cnt := s % (|d| + 1);
      if cnt != 0 {
        var cf := BitOf(d, |d| - cnt);
        r := ShiftLeft(d, cnt);
        r := Or(r, Low(ShiftRight(d, |d| + 1 - cnt), cnt - 1));
        if Has(flags, F_CF) {
          r := SetBit(r, cnt - 1);
        }
        flags := Put(flags, cf, F_CF);
        flags := Put(flags, cnt == 1 && cf != r[|d| - 1], F_OF);
      }
    }

    /** rcr_byte and rcr_word */
    method RotateRight(d: BitString, s: nat) returns (r: BitString)
      requires d != []
      modifies this
      ensures var cnt := s % (|d| + 1); var (v, cf) := Rcr(d, Has(old(flags), F_CF), cnt);
        && r == v
        && flags == (if cnt == 0 then old(flags)
                     else if cnt == 1 then Put(Put(old(flags), cf, F_CF), Has(old(flags), F_CF) != d[|d| - 1], F_OF)
                     else Put(old(flags), cf, F_CF))
    {
      hide Has, Put, ShiftLeft, ShiftRight, Low, Or, SetBit, BitOf;
      r := d;
      var cnt := s % (|d| + 1);
      if cnt != 0 {
        var cf, ocf := false, false;
        if cnt == 1 {
          cf := BitOf(d, 0);
          ocf := Has(flags, F_CF);
        } else {
          cf := BitOf(d, cnt - 1);
        }
        r := Low(ShiftRight(d, cnt), |d| - cnt);
        r := Or(r, ShiftLeft(d, |d| + 1 - cnt));
        if Has(flags, F_CF) {
          r := SetBit(r, |d| - cnt);
        }
        flags := Put(flags, cf, F_CF);
        if cnt == 1 {
          flags := Put(flags, ocf != d[|d| - 1], F_OF);
        }
      }
    }
  }

  // ---------- the ring ----------

  /** The operand with the carry flag above it. */
  function Ring(x: (BitString, bool)): BitString {
    x.0 + [x.1]
  }

  /** Every place p of the ring comes from n places below, or above, round the end. */
  function Up(v: BitString, n: nat): BitString
    requires v != []
  {
    seq(|v|, p requires 0 <= p < |v| => v[(p - n) % |v|])
  }

  function Down(v: BitString, n: nat): BitString
    requires v != []
  {
    seq(|v|, p requires 0 <= p < |v| => v[(p + n) % |v|])
  }

  lemma Wrapped(x: int, m: int)
    requires m > 0 && -m <= x < 2 * m
    ensures x % m == if x < 0 then x + m else if x < m then x else x - m
  {
  }

  /** Where each bit of the results comes from. */
  lemma Place(d: BitString, cf: bool, cnt: nat, p: nat)
    requires cnt <= |d| && p <= |d|
    ensures var v := Ring((d, cf)); Ring(Rcl(d, cf, cnt))[p] == v[if p < cnt then p - cnt + |v| else p - cnt]
    ensures var v := Ring((d, cf)); Ring(Rcr(d, cf, cnt))[p] == v[if p + cnt < |v| then p + cnt else p + cnt - |v|]
  {
  }

  /** The code turns the ring by the count, upwards for RCL and downwards for RCR. */
  lemma CodeTurns(d: BitString, cf: bool, cnt: nat)
    requires cnt <= |d|
    ensures Ring(Rcl(d, cf, cnt)) == Up(Ring((d, cf)), cnt)
    ensures Ring(Rcr(d, cf, cnt)) == Down(Ring((d, cf)), cnt)
  {
    hide Rcl, Rcr;
    var v := Ring((d, cf));
    forall p | 0 <= p < |v|
      ensures Ring(Rcl(d, cf, cnt))[p] == Up(v, cnt)[p]
      ensures Ring(Rcr(d, cf, cnt))[p] == Down(v, cnt)[p]
    {
      Place(d, cf, cnt, p);
      Wrapped(p - cnt, |v|);
      Wrapped(p + cnt, |v|);
    }
  }

  // ---------- laws ----------

  lemma UpUp(v: BitString, a: nat, b: nat)
    requires v != []
    ensures Up(Up(v, a), b) == Up(v, a + b)
  {
    forall p | 0 <= p < |v|
      ensures Up(Up(v, a), b)[p] == Up(v, a + b)[p]
    {
      ModPlus(p - b, -1 * a, |v|);
      assert Up(Up(v, a), b)[p] == Up(v, a)[(p - b) % |v|];
    }
  }

  lemma DownUp(v: BitString, n: nat)
    requires v != []
    ensures Down(Up(v, n), n) == v
  {
    forall p | 0 <= p < |v|
      ensures Down(Up(v, n), n)[p] == v[p]
    {
      ModPlus(p + n, -1 * n, |v|);
      Wrapped(p, |v|);
      assert Down(Up(v, n), n)[p] == Up(v, n)[(p + n) % |v|];
    }
  }

  lemma DownDown(v: BitString, a: nat, b: nat)
    requires v != []
    ensures Down(Down(v, a), b) == Down(v, a + b)
  {
    forall p | 0 <= p < |v|
      ensures Down(Down(v, a), b)[p] == Down(v, a + b)[p]
    {
      ModPlus(p + b, a, |v|);
      assert Down(Down(v, a), b)[p] == Down(v, a)[(p + b) % |v|];
    }
  }

  lemma ModPlus(x: int, y: int, m: nat)
    requires m > 0
    ensures (x % m + y) % m == (x + y) % m
  {
    var k := x / m;
    assert x == m * k + x % m;
    ModShift(x % m + y, k, m);
  }

  lemma ModShift(x: int, k: int, m: nat)
    requires m > 0
    ensures (x + m * k) % m == x % m
  {
    var q, r := x / m, x % m;
    assert x + m * k == m * (q + k) + r;
    ModIs(x + m * k, m, q + k, r);
  }

  lemma ModIs(x: int, m: nat, q: int, r: nat)
    requires m > 0 && x == m * q + r && r < m
    ensures x % m == r
  {
    var e := x / m;
    assert x == m * e + x % m;
    if e < q {
      Le(m, e + 1, q);
    } else if e > q {
      Le(m, q + 1, e);
    }
  }

  lemma Le(m: nat, a: int, b: int)
    requires a <= b
    ensures m * a <= m * b
  {
  }

  lemma CountPlace(p: int, s: nat, m: nat)
    requires m > 0
    ensures (p - s % m) % m == (p - s) % m && (p + s % m) % m == (p + s) % m
  {
    var k := s / m;
    assert s == m * k + s % m;
    ModShift(p - s, k, m);
    ModShift(p + s % m, k, m);
    assert p - s + m * k == p - s % m;
    assert p + s % m + m * k == p + s;
  }

  /** Whole turns change nothing. */
  lemma UpCount(v: BitString, s: nat)
    requires v != []
    ensures Up(v, s % |v|) == Up(v, s) && Down(v, s % |v|) == Down(v, s)
  {
    forall p | 0 <= p < |v|
      ensures Up(v, s % |v|)[p] == Up(v, s)[p] && Down(v, s % |v|)[p] == Down(v, s)[p]
    {
      CountPlace(p, s, |v|);
    }
  }

  /** RCL and RCR by any count, as functions on the operand and the carry. */
  function RclBy(x: (BitString, bool), s: nat): (r: (BitString, bool))
    ensures |r.0| == |x.0|
  {
    Rcl(x.0, x.1, s % (|x.0| + 1))
  }

  function RcrBy(x: (BitString, bool), s: nat): (r: (BitString, bool))
    ensures |r.0| == |x.0|
  {
    Rcr(x.0, x.1, s % (|x.0| + 1))
  }

  lemma RingInjective(x: (BitString, bool), y: (BitString, bool))
    requires Ring(x) == Ring(y)
    ensures x == y
  {
    var v := Ring(x);
    assert x.0 == v[..|v| - 1] && y.0 == v[..|v| - 1];
    assert x.1 == v[|v| - 1] && y.1 == v[|v| - 1];
  }

  lemma ByTurns(x: (BitString, bool), s: nat)
    ensures Ring(RclBy(x, s)) == Up(Ring(x), s) && Ring(RcrBy(x, s)) == Down(Ring(x), s)
  {
    CodeTurns(x.0, x.1, s % (|x.0| + 1));
    UpCount(Ring(x), s);
  }

  /** Rotating by a and then by b is rotating by a + b, for every count. */
  lemma RotationsAdd(x: (BitString, bool), a: nat, b: nat)
    ensures RclBy(RclBy(x, a), b) == RclBy(x, a + b) && RcrBy(RcrBy(x, a), b) == RcrBy(x, a + b)
  {
    hide RclBy, RcrBy, Up, Down;
    ByTurns(x, a);
    ByTurns(x, a + b);
    ByTurns(RclBy(x, a), b);
    ByTurns(RcrBy(x, a), b);
    UpUp(Ring(x), a, b);
    DownDown(Ring(x), a, b);
    RingInjective(RclBy(RclBy(x, a), b), RclBy(x, a + b));
    RingInjective(RcrBy(RcrBy(x, a), b), RcrBy(x, a + b));
  }

  /** RCR undoes RCL by the same count, in the value and in the carry. */
  lemma RcrUndoesRcl(x: (BitString, bool), n: nat)
    ensures RcrBy(RclBy(x, n), n) == x
  {
    hide RclBy, RcrBy, Up, Down;
    ByTurns(x, n);
    ByTurns(RclBy(x, n), n);
    DownUp(Ring(x), n);
    RingInjective(RcrBy(RclBy(x, n), n), x);
  }
}

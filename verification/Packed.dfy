/**
 Two or four bytes held in one machine word, as the word and dword paths of mem.c use them on
 a little-endian host.
 */
module Packed {

  /** PERM16 and PERM32: the same bits in every byte. */
  function Repeat16(x: bv8): bv16 {
    x as bv16 | (x as bv16 << 8)
  }

  function Repeat32(x: bv8): bv32 {
    x as bv32 | (x as bv32 << 8) | (x as bv32 << 16) | (x as bv32 << 24)
  }

  function Pack16(a: bv8, b: bv8): bv16 {
    a as bv16 | (b as bv16 << 8)
  }

  function Pack32(a: bv8, b: bv8, c: bv8, d: bv8): bv32 {
    a as bv32 | (b as bv32 << 8) | (c as bv32 << 16) | (d as bv32 << 24)
  }

  /** A word as the slow paths add it up, and as the fast paths load it. */
  function Add16(a: bv8, b: bv8): bv32 {
    a as bv32 + (b as bv32 << 8)
  }

  function Load16(a: bv8, b: bv8): bv32 {
    Pack16(a, b) as bv32
  }

  function Add32(a: bv8, b: bv8, c: bv8, d: bv8): bv32 {
    a as bv32 + (b as bv32 << 8) + (c as bv32 << 16) + (d as bv32 << 24)
  }

  function Low16(w: bv16): bv8 { (w & 0xff) as bv8 }

  function High16(w: bv16): bv8 { (w >> 8) as bv8 }

  function First(w: bv32): bv8 { (w & 0xff) as bv8 }

  function Second(w: bv32): bv8 { ((w >> 8) & 0xff) as bv8 }

  function Third(w: bv32): bv8 { ((w >> 16) & 0xff) as bv8 }

  function Fourth(w: bv32): bv8 { (w >> 24) as bv8 }

  /** The first n bytes of w, least significant first. */
  function Bytes(w: bv32, n: nat): (v: seq<bv8>)
    requires n <= 4
    ensures |v| == n
  {
    [First(w), Second(w), Third(w), Fourth(w)][..n]
  }

  /** A byte below a number. */
  function Prefix(a: bv8, w: bv32): bv32 {
    a as bv32 | (w << 8)
  }

  /** The number whose bytes, least significant first, are v. */
  function Value(v: seq<bv8>): bv32 {
    if v == [] then 0 else Prefix(v[0], Value(v[1..]))
  }

  // One comparison of packed words tests every byte, one or marks every byte.

  predicate HasAll(attr: bv8, x: bv8) {
    attr & x == x
  }

  lemma Test16Bits(a: bv8, b: bv8, x: bv8)
    ensures Pack16(a, b) & Repeat16(x) == Repeat16(x) <==> a & x == x && b & x == x
  {
  }

  lemma Test16(a: bv8, b: bv8, x: bv8)
    ensures Pack16(a, b) & Repeat16(x) == Repeat16(x) <==> HasAll(a, x) && HasAll(b, x)
  {
    Test16Bits(a, b, x);
    hide Pack16, Repeat16;
  }

  lemma Mark16(a: bv8, b: bv8, x: bv8)
    ensures Low16(Pack16(a, b) | Repeat16(x)) == a | x
    ensures High16(Pack16(a, b) | Repeat16(x)) == b | x
  {
  }

  lemma Test32Bits(a: bv8, b: bv8, c: bv8, d: bv8, x: bv8)
    ensures Pack32(a, b, c, d) & Repeat32(x) == Repeat32(x) <==> a & x == x && b & x == x && c & x == x && d & x == x
  {
  }

  lemma Test32(a: bv8, b: bv8, c: bv8, d: bv8, x: bv8)
    ensures Pack32(a, b, c, d) & Repeat32(x) == Repeat32(x)
      <==> HasAll(a, x) && HasAll(b, x) && HasAll(c, x) && HasAll(d, x)
  {
    Test32Bits(a, b, c, d, x);
    hide Pack32, Repeat32;
  }

  lemma MarkFirst(a: bv8, b: bv8, c: bv8, d: bv8, x: bv8)
    ensures First(Pack32(a, b, c, d) | Repeat32(x)) == With(a, x)
  {
  }

  lemma MarkSecond(a: bv8, b: bv8, c: bv8, d: bv8, x: bv8)
    ensures Second(Pack32(a, b, c, d) | Repeat32(x)) == With(b, x)
  {
  }

  lemma MarkThird(a: bv8, b: bv8, c: bv8, d: bv8, x: bv8)
    ensures Third(Pack32(a, b, c, d) | Repeat32(x)) == With(c, x)
  {
  }

  lemma MarkFourth(a: bv8, b: bv8, c: bv8, d: bv8, x: bv8)
    ensures Fourth(Pack32(a, b, c, d) | Repeat32(x)) == With(d, x)
  {
  }

  function With32(a: bv8, b: bv8, c: bv8, d: bv8, x: bv8): seq<bv8> {
    var w := Pack32(a, b, c, d) | Repeat32(x);
    [First(w), Second(w), Third(w), Fourth(w)]
  }

  function With(a: bv8, x: bv8): bv8 {
    a | x
  }

  lemma Mark32(a: bv8, b: bv8, c: bv8, d: bv8, x: bv8)
    ensures With32(a, b, c, d, x) == [With(a, x), With(b, x), With(c, x), With(d, x)]
  {
    MarkFirst(a, b, c, d, x);
    MarkSecond(a, b, c, d, x);
    MarkThird(a, b, c, d, x);
    MarkFourth(a, b, c, d, x);
    hide Pack32, Repeat32, First, Second, Third, Fourth, With;
  }

  // The byte-by-byte sums of the slow paths are the packed words of the fast ones.

  lemma Sum16(a: bv8, b: bv8)
    ensures Add16(a, b) == Load16(a, b) == Prefix(a, Prefix(b, 0))
  {
  }

  lemma Sum32(a: bv8, b: bv8, c: bv8, d: bv8)
    ensures Add32(a, b, c, d) == Pack32(a, b, c, d)
    ensures Prefix(a, Prefix(b, Prefix(c, Prefix(d, 0)))) == Pack32(a, b, c, d)
  {
  }

  lemma Value2(a: bv8, b: bv8)
    ensures Value([a, b]) == Add16(a, b) == Load16(a, b)
  {
    ValueTwo(a, b);
    Sum16(a, b);
  }

  lemma ValueTwo(a: bv8, b: bv8)
    ensures Value([a, b]) == Prefix(a, Prefix(b, 0))
  {
    hide Prefix;
    assert [a, b][1..] == [b] && [b][1..] == [];
    assert Value([b]) == Prefix(b, Value([]));
    assert Value([a, b]) == Prefix(a, Value([b]));
  }

  lemma Value4(a: bv8, b: bv8, c: bv8, d: bv8)
    ensures Value([a, b, c, d]) == Pack32(a, b, c, d) == Add32(a, b, c, d)
  {
    Sum32(a, b, c, d);
    hide Prefix, Pack32, Add32;
    assert [d][1..] == [] && [c, d][1..] == [d] && [b, c, d][1..] == [c, d] && [a, b, c, d][1..] == [b, c, d];
    assert Value([c, d]) == Prefix(c, Value([d]));
    assert Value([b, c, d]) == Prefix(b, Value([c, d]));
  }

  /** Taking a word apart and putting it together again. */
  lemma ValueOfBytes(w: bv32)
    ensures Value(Bytes(w, 4)) == w
  {
    Value4(First(w), Second(w), Third(w), Fourth(w));
    Repack(w);
    assert Bytes(w, 4) == [First(w), Second(w), Third(w), Fourth(w)];
  }

  lemma Repack(w: bv32)
    ensures Pack32(First(w), Second(w), Third(w), Fourth(w)) == w
  {
  }

  /** Two words make a double word. */
  function AddHigh(lo: bv32, hi: bv32): bv32 {
    lo + (hi << 16)
  }

  function OrHigh(lo: bv32, hi: bv32): bv32 {
    lo | (hi << 16)
  }

  lemma ValueHalves(a: bv8, b: bv8, c: bv8, d: bv8)
    ensures Value([a, b, c, d]) == AddHigh(Add16(a, b), Add16(c, d))
  {
    hide Pack32, Add16, Add32, Load16, Value, AddHigh, OrHigh;
    Value4(a, b, c, d);
    Sum16(a, b);
    Sum16(c, d);
    Load16Small(a, b);
    NoCarry(Add16(a, b), Add16(c, d));
    OrHalves(a, b, c, d);
  }

  lemma Load16Small(a: bv8, b: bv8)
    ensures Load16(a, b) < 0x10000
  {
  }

  lemma NoCarry(lo: bv32, hi: bv32)
    requires lo < 0x10000
    ensures AddHigh(lo, hi) == OrHigh(lo, hi)
  {
  }

  lemma OrHalves(a: bv8, b: bv8, c: bv8, d: bv8)
    ensures Pack32(a, b, c, d) == OrHigh(Load16(a, b), Load16(c, d))
  {
  }
}

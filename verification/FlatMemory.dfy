/**
 What the memory of the emulator means: 2^32 bytes, each with an attribute byte.
 The accessors of mem.c, byte by byte. Pages are only a way to index the bytes.
 */
module FlatMemory {
  const PERM_R: bv8 := 0x01
  const PERM_W: bv8 := 0x02
  const PERM_X: bv8 := 0x04
  const PERM_VALID: bv8 := 0x08
  const ACC_R: bv8 := 0x10
  const ACC_W: bv8 := 0x20
  const ACC_X: bv8 := 0x40
  const ACC_INVALID: bv8 := 0x80

  const PAGE := 4096
  const PAGES := 0x10_0000
  const SIZE := 0x1_0000_0000

  type Addr = a: nat | a < SIZE

  datatype Cell = Cell(attr: bv8, data: bv8)

  datatype Memory = Memory(pages: seq<seq<Cell>>, invalid: bool)

  predicate Full(m: Memory) {
    |m.pages| == PAGES && forall p :: 0 <= p < PAGES ==> |m.pages[p]| == PAGE
  }

  function At(m: Memory, a: Addr): Cell
    requires Full(m)
  {
    m.pages[a / PAGE][a % PAGE]
  }

  function Put(m: Memory, a: Addr, c: Cell): (r: Memory)
    requires Full(m)
    ensures Full(r) && r.invalid == m.invalid
    ensures forall b: Addr :: At(r, b) == if b == a then c else At(m, b)
  {
    m.(pages := m.pages[a / PAGE := m.pages[a / PAGE][a % PAGE := c]])
  }

  /** Addresses wrap at 2^32. */
  function Plus(a: Addr, k: nat): Addr {
    (a + k) % SIZE
  }

  /** An address that may be read (or executed) and has been written. */
  predicate FetchOk(c: Cell, need: bv8) {
    c.attr & need != 0 && c.attr & PERM_VALID != 0
  }

  predicate May(c: Cell, need: bv8) {
    c.attr & need != 0
  }

  /** Without permission the bus reads 0xff. */
  function FetchedValue(c: Cell, need: bv8): bv8 {
    if c.attr & need == 0 then 0xff else c.data
  }

  /** An allowed access leaves its mark, and one more if the byte was never written. */
  function FetchedCell(c: Cell, need: bv8, mark: bv8): Cell {
    if c.attr & need == 0 then c
    else c.(attr := if c.attr & PERM_VALID == 0 then c.attr | mark | ACC_INVALID else c.attr | mark)
  }

  /** A denied write only leaves a mark. */
  function WrittenCell(c: Cell, v: bv8): Cell {
    if c.attr & PERM_W == 0 then c.(attr := c.attr | ACC_INVALID) else Cell(c.attr | PERM_VALID | ACC_W, v)
  }

  /**
   A read or an execution of one byte, bit by bit: need is bit 0 (R) or 2 (X), and mark the bit 4 above it. A
   byte without permission reads as 0xff and is left alone. Any other keeps its data, its permissions and
   whether it is valid, gets the mark, and gets bit 7 if it was never written.
   */
  lemma FetchMarks(c: Cell, need: bv8, mark: bv8)
    requires (need == 0x01 && mark == 0x10) || (need == 0x04 && mark == 0x40)
    ensures FetchOk(c, need) <==> c.attr & need != 0 && c.attr & 0x08 != 0
    ensures c.attr & need == 0 ==> FetchedCell(c, need, mark) == c && FetchedValue(c, need) == 0xff
    ensures c.attr & need != 0 ==>
      var d := FetchedCell(c, need, mark);
      && FetchedValue(c, need) == d.data == c.data && d.attr & 0x0f == c.attr & 0x0f
      && d.attr & mark != 0 && d.attr | mark | 0x80 == c.attr | mark | 0x80
      && (d.attr & 0x80 != 0 <==> c.attr & 0x80 != 0 || c.attr & 0x08 == 0)
  {
  }

  /**
   A write of one byte: without permission (bit 1) only bit 7 is set; with it the byte holds v, is
   valid (bit 3) and marked as written (bit 5), and nothing else of its attribute changes.
   */
  lemma WriteMarks(c: Cell, v: bv8)
    ensures May(c, PERM_W) <==> c.attr & 0x02 != 0
    ensures var d := WrittenCell(c, v);
      if c.attr & 0x02 == 0 then d.data == c.data && d.attr == c.attr | 0x80
      else d.data == v && d.attr == c.attr | 0x28
  {
  }

  function Fail(m: Memory, error: bool): (r: Memory)
    requires Full(m)
    ensures Full(r) && r.pages == m.pages && (forall b: Addr :: At(r, b) == At(m, b))
  {
    m.(invalid := m.invalid || error)
  }

  /** vm_r_byte (need is PERM_R, mark is ACC_R) and vm_x_byte (PERM_X, ACC_X). */
  function Fetch(m: Memory, a: Addr, need: bv8, mark: bv8): (r: (Memory, bv8))
    requires Full(m)
    ensures Full(r.0)
  {
    var c := At(m, a);
    (Fail(Put(m, a, FetchedCell(c, need, mark)), !FetchOk(c, need)), FetchedValue(c, need))
  }

  /** vm_w_byte */
  function Write(m: Memory, a: Addr, v: bv8): (r: Memory)
    requires Full(m)
    ensures Full(r)
  {
    var c := At(m, a);
    Fail(Put(m, a, WrittenCell(c, v)), !May(c, PERM_W))
  }

  /** vm_w_byte_noperm */
  function WriteAnyway(m: Memory, a: Addr, v: bv8): (r: Memory)
    requires Full(m)
    ensures Full(r)
  {
    Put(m, a, Cell(At(m, a).attr | PERM_VALID | ACC_W, v))
  }

  /** n bytes from a upwards, least significant first. */
  function FetchAll(m: Memory, a: Addr, n: nat, need: bv8, mark: bv8): (r: (Memory, seq<bv8>))
    requires Full(m)
    ensures Full(r.0) && |r.1| == n
    decreases n
  {
    if n == 0 then (m, [])
    else
      var (m1, b) := Fetch(m, a, need, mark);
      var (m2, rest) := FetchAll(m1, Plus(a, 1), n - 1, need, mark);
      (m2, [b] + rest)
  }

  function WriteAll(m: Memory, a: Addr, v: seq<bv8>): (r: Memory)
    requires Full(m)
    ensures Full(r)
    decreases |v|
  {
    if v == [] then m else WriteAll(Write(m, a, v[0]), Plus(a, 1), v[1..])
  }

  // ---------- several bytes at once ----------

  /** b is one of the n addresses from a upwards. */
  predicate Among(a: Addr, n: nat, b: Addr) {
    (b - a) % SIZE < n
  }

  lemma PlusPlus(a: Addr, j: nat, k: nat)
    ensures Plus(Plus(a, j), k) == Plus(a, j + k)
  {
  }

  lemma AmongNext(a: Addr, n: nat, b: Addr)
    requires 0 < n <= SIZE
    ensures Among(a, n, b) <==> b == a || Among(Plus(a, 1), n - 1, b)
    ensures !Among(Plus(a, 1), n - 1, a)
  {
  }

  ghost predicate AllFetchOk(m: Memory, a: Addr, n: nat, need: bv8)
    requires Full(m)
  {
    forall k {:trigger Plus(a, k)} :: 0 <= k < n ==> FetchOk(At(m, Plus(a, k)), need)
  }

  ghost predicate AllMay(m: Memory, a: Addr, n: nat, need: bv8)
    requires Full(m)
  {
    forall k {:trigger Plus(a, k)} :: 0 <= k < n ==> May(At(m, Plus(a, k)), need)
  }

  lemma FetchExact(m: Memory, a: Addr, need: bv8, mark: bv8)
    requires Full(m)
    ensures var (r, v) := Fetch(m, a, need, mark);
      && Full(r) && v == FetchedValue(At(m, a), need)
      && At(r, a) == FetchedCell(At(m, a), need, mark)
      && (forall b: Addr :: b != a ==> At(r, b) == At(m, b))
      && (r.invalid <==> m.invalid || !FetchOk(At(m, a), need))
  {
    hide At, Put, Full, FetchedCell, FetchOk, FetchedValue;
  }

  lemma FetchAllNext(m: Memory, a: Addr, n: nat, need: bv8, mark: bv8)
    requires Full(m) && n > 0
    ensures Full(Fetch(m, a, need, mark).0)
    ensures var (r, v) := FetchAll(m, a, n, need, mark);
      var (r1, v1) := FetchAll(Fetch(m, a, need, mark).0, Plus(a, 1), n - 1, need, mark);
      r == r1 && v == [Fetch(m, a, need, mark).1] + v1
  {
  }

  lemma {:induction false} FetchAllCells(m: Memory, a: Addr, n: nat, need: bv8, mark: bv8)
    requires Full(m) && n <= SIZE
    ensures var r := FetchAll(m, a, n, need, mark).0;
      forall b: Addr :: At(r, b) == if Among(a, n, b) then FetchedCell(At(m, b), need, mark) else At(m, b)
    decreases n
  {
    if n > 0 {
      hide Fetch, At, Plus, Among, FetchedCell, FetchedValue, FetchAll;
      FetchExact(m, a, need, mark);
      FetchAllNext(m, a, n, need, mark);
      FetchAllCells(Fetch(m, a, need, mark).0, Plus(a, 1), n - 1, need, mark);
      forall b: Addr
        ensures At(FetchAll(m, a, n, need, mark).0, b) == if Among(a, n, b) then FetchedCell(At(m, b), need, mark) else At(m, b)
      {
        AmongNext(a, n, b);
      }
    }
  }

  lemma {:induction false} FetchAllErrors(m: Memory, a: Addr, n: nat, need: bv8, mark: bv8)
    requires Full(m) && n <= SIZE
    ensures FetchAll(m, a, n, need, mark).0.invalid <==> m.invalid || !AllFetchOk(m, a, n, need)
    decreases n
  {
    if n > 0 {
      hide Fetch, At, Plus, FetchedValue, FetchedCell, FetchOk, AllFetchOk, FetchAll;
      FetchExact(m, a, need, mark);
      FetchAllNext(m, a, n, need, mark);
      var m1 := Fetch(m, a, need, mark).0;
      FetchAllErrors(m1, Plus(a, 1), n - 1, need, mark);
      AllFetchOkNext(m, m1, a, n, need);
    }
  }

  lemma {:induction false} FetchAllValue(m: Memory, a: Addr, n: nat, need: bv8, mark: bv8, k: nat)
    requires Full(m) && k < n <= SIZE
    ensures FetchAll(m, a, n, need, mark).1[k] == FetchedValue(At(m, Plus(a, k)), need)
    decreases n
  {
    hide Fetch, At, FetchedValue, FetchedCell, FetchOk, FetchAll;
    FetchExact(m, a, need, mark);
    FetchAllNext(m, a, n, need, mark);
    PlusZero(a);
    if k > 0 {
      FetchAllValue(Fetch(m, a, need, mark).0, Plus(a, 1), n - 1, need, mark, k - 1);
      PlusPlus(a, 1, k - 1);
      assert Plus(a, k) != a;
    }
  }

  /** A wide access gives each byte its own due: value, marks, and an error if any byte has one. */
  lemma FetchAllExact(m: Memory, a: Addr, n: nat, need: bv8, mark: bv8)
    requires Full(m) && n <= SIZE
    ensures var (r, v) := FetchAll(m, a, n, need, mark);
      && (forall k {:trigger v[k]} :: 0 <= k < n ==> v[k] == FetchedValue(At(m, Plus(a, k)), need))
      && (forall b: Addr :: At(r, b) == if Among(a, n, b) then FetchedCell(At(m, b), need, mark) else At(m, b))
      && (r.invalid <==> m.invalid || !AllFetchOk(m, a, n, need))
  {
    hide At, Plus, FetchAll, Among;
    FetchAllCells(m, a, n, need, mark);
    FetchAllErrors(m, a, n, need, mark);
    forall k | 0 <= k < n
      ensures FetchAll(m, a, n, need, mark).1[k] == FetchedValue(At(m, Plus(a, k)), need)
    {
      FetchAllValue(m, a, n, need, mark, k);
    }
  }

  lemma PlusZero(a: Addr)
    ensures Plus(a, 0) == a
  {
  }

  lemma Shifted(m: Memory, m1: Memory, a: Addr, n: nat)
    requires Full(m) && Full(m1) && n <= SIZE
    requires forall b: Addr :: b != a ==> At(m1, b) == At(m, b)
    ensures forall k {:trigger Plus(a, k)} :: 0 < k < n ==> At(m1, Plus(a, k)) == At(m, Plus(a, k))
  {
  }

  lemma AllFetchOkNext(m: Memory, m1: Memory, a: Addr, n: nat, need: bv8)
    requires Full(m) && Full(m1) && 0 < n <= SIZE
    requires forall b: Addr :: b != a ==> At(m1, b) == At(m, b)
    ensures AllFetchOk(m, a, n, need) <==> FetchOk(At(m, a), need) && AllFetchOk(m1, Plus(a, 1), n - 1, need)
  {
    Shifted(m, m1, a, n);
    if AllFetchOk(m, a, n, need) {
      assert Plus(a, 0) == a;
      forall k | 0 <= k < n - 1
        ensures FetchOk(At(m1, Plus(Plus(a, 1), k)), need)
      {
        PlusPlus(a, 1, k);
      }
    }
    if FetchOk(At(m, a), need) && AllFetchOk(m1, Plus(a, 1), n - 1, need) {
      forall k | 0 <= k < n
        ensures FetchOk(At(m, Plus(a, k)), need)
      {
        if k > 0 {
          PlusPlus(a, 1, k - 1);
        }
      }
    }
  }

  lemma WriteExact(m: Memory, a: Addr, v: bv8)
    requires Full(m)
    ensures var r := Write(m, a, v);
      && Full(r) && At(r, a) == WrittenCell(At(m, a), v)
      && (forall b: Addr :: b != a ==> At(r, b) == At(m, b))
      && (r.invalid <==> m.invalid || !May(At(m, a), PERM_W))
  {
    hide At, Put, Full, WrittenCell, May;
  }

  lemma AllMayNext(m: Memory, m1: Memory, a: Addr, n: nat, need: bv8)
    requires Full(m) && Full(m1) && 0 < n <= SIZE
    requires forall b: Addr :: b != a ==> At(m1, b) == At(m, b)
    ensures AllMay(m, a, n, need) <==> May(At(m, a), need) && AllMay(m1, Plus(a, 1), n - 1, need)
  {
    hide At, May;
    Shifted(m, m1, a, n);
    if AllMay(m, a, n, need) {
      assert Plus(a, 0) == a;
      forall k | 0 <= k < n - 1
        ensures May(At(m1, Plus(Plus(a, 1), k)), need)
      {
        PlusPlus(a, 1, k);
      }
    }
    if May(At(m, a), need) && AllMay(m1, Plus(a, 1), n - 1, need) {
      forall k | 0 <= k < n
        ensures May(At(m, Plus(a, k)), need)
      {
        if k > 0 {
          PlusPlus(a, 1, k - 1);
        }
      }
    }
  }

  lemma {:induction false} WriteAllErrors(m: Memory, a: Addr, v: seq<bv8>)
    requires Full(m) && |v| <= SIZE
    ensures WriteAll(m, a, v).invalid <==> m.invalid || !AllMay(m, a, |v|, PERM_W)
    decreases |v|
  {
    if v != [] {
      hide Write, At, Plus, WrittenCell, AllMay, May;
      WriteExact(m, a, v[0]);
      var m1 := Write(m, a, v[0]);
      WriteAllErrors(m1, Plus(a, 1), v[1..]);
      AllMayNext(m, m1, a, |v|, PERM_W);
    }
  }

  lemma {:induction false} WriteAllCell(m: Memory, a: Addr, v: seq<bv8>, k: nat)
    requires Full(m) && k < |v| <= SIZE
    ensures At(WriteAll(m, a, v), Plus(a, k)) == WrittenCell(At(m, Plus(a, k)), v[k])
    decreases |v|
  {
    hide Write, At, WrittenCell;
    WriteExact(m, a, v[0]);
    PlusZero(a);
    if k > 0 {
      WriteAllCell(Write(m, a, v[0]), Plus(a, 1), v[1..], k - 1);
      PlusPlus(a, 1, k - 1);
      assert Plus(a, k) != a;
    } else {
      AmongNext(a, |v|, a);
      WriteAllElsewhere(Write(m, a, v[0]), Plus(a, 1), v[1..], a);
    }
  }

  lemma {:induction false} WriteAllElsewhere(m: Memory, a: Addr, v: seq<bv8>, b: Addr)
    requires Full(m) && |v| <= SIZE && !Among(a, |v|, b)
    ensures At(WriteAll(m, a, v), b) == At(m, b)
    decreases |v|
  {
    if v != [] {
      hide Write, At, Plus, Among, WrittenCell;
      WriteExact(m, a, v[0]);
      AmongNext(a, |v|, b);
      WriteAllElsewhere(Write(m, a, v[0]), Plus(a, 1), v[1..], b);
    }
  }

  /** A wide write treats each byte on its own, and there is an error if any byte may not be written. */
  lemma WriteAllExact(m: Memory, a: Addr, v: seq<bv8>)
    requires Full(m) && |v| <= SIZE
    ensures var r := WriteAll(m, a, v);
      && (forall k {:trigger v[k]} :: 0 <= k < |v| ==> At(r, Plus(a, k)) == WrittenCell(At(m, Plus(a, k)), v[k]))
      && (forall b: Addr :: !Among(a, |v|, b) ==> At(r, b) == At(m, b))
      && (r.invalid <==> m.invalid || !AllMay(m, a, |v|, PERM_W))
  {
    hide At, Plus, WriteAll, Among, WrittenCell;
    WriteAllErrors(m, a, v);
    forall k | 0 <= k < |v|
      ensures At(WriteAll(m, a, v), Plus(a, k)) == WrittenCell(At(m, Plus(a, k)), v[k])
    {
      WriteAllCell(m, a, v, k);
    }
    forall b: Addr | !Among(a, |v|, b)
      ensures At(WriteAll(m, a, v), b) == At(m, b)
    {
      WriteAllElsewhere(m, a, v, b);
    }
  }

  lemma WrittenReads(c: Cell, v: bv8, need: bv8)
    requires May(c, PERM_W) && May(c, need)
    ensures FetchOk(WrittenCell(c, v), need) && FetchedValue(WrittenCell(c, v), need) == v
  {
  }

  /** What was written is read (or executed) back, without an error, wherever it may be. */
  lemma ReadsBack(m: Memory, a: Addr, v: seq<bv8>, need: bv8, mark: bv8)
    requires Full(m) && |v| <= SIZE && !m.invalid
    requires AllMay(m, a, |v|, PERM_W) && AllMay(m, a, |v|, need)
    ensures var r := WriteAll(m, a, v);
      !r.invalid && FetchAll(r, a, |v|, need, mark).1 == v && !FetchAll(r, a, |v|, need, mark).0.invalid
  {
    WriteAllExact(m, a, v);
    var r := WriteAll(m, a, v);
    FetchAllExact(r, a, |v|, need, mark);
    hide At, Plus, WriteAll, FetchAll, Among, WrittenCell, FetchOk, FetchedValue;
    forall k | 0 <= k < |v|
      ensures FetchOk(At(r, Plus(a, k)), need) && FetchedValue(At(r, Plus(a, k)), need) == v[k]
    {
      WrittenReads(At(m, Plus(a, k)), v[k], need);
    }
  }

  /** Two byte accesses at different addresses may be made in either order. */
  lemma FetchesCommute(m: Memory, a: Addr, b: Addr, need: bv8, mark: bv8)
    requires Full(m) && a != b
    ensures var (ma, va) := Fetch(m, a, need, mark); var (mab, vb) := Fetch(ma, b, need, mark);
      var (mb, wb) := Fetch(m, b, need, mark); var (mba, wa) := Fetch(mb, a, need, mark);
      va == wa && vb == wb && mab.invalid == mba.invalid && forall c: Addr :: At(mab, c) == At(mba, c)
  {
    FetchExact(m, a, need, mark);
    FetchExact(m, b, need, mark);
    FetchExact(Fetch(m, a, need, mark).0, b, need, mark);
    FetchExact(Fetch(m, b, need, mark).0, a, need, mark);
    hide At, Fetch, FetchedCell, FetchOk, FetchedValue;
  }

  /** Memories that agree at every address are equal. */
  lemma SameMemory(m: Memory, n: Memory)
    requires Full(m) && Full(n) && m.invalid == n.invalid
    requires forall a: Addr :: At(m, a) == At(n, a)
    ensures m == n
  {
    forall p | 0 <= p < PAGES
      ensures m.pages[p] == n.pages[p]
    {
      forall o | 0 <= o < PAGE
        ensures m.pages[p][o] == n.pages[p][o]
      {
        var a: Addr := PAGE * p + o;
        assert a / PAGE == p && a % PAGE == o;
        assert At(m, a) == At(n, a);
      }
    }
  }

  // ---------- attributes of a range ----------

  function Repainted(m: Memory, lo: nat, hi: nat, perm: bv8, a: nat): Cell
    requires Full(m) && a < SIZE
  {
    if lo <= a < hi then At(m, a).(attr := perm) else At(m, a)
  }

  /** The memory with attribute perm on the addresses from lo up to but not including hi. */
  function Paint(m: Memory, lo: nat, hi: nat, perm: bv8): (r: Memory)
    requires Full(m)
    ensures Full(r) && r.invalid == m.invalid
    ensures forall a: Addr :: At(r, a) == Repainted(m, lo, hi, perm, a)
  {
    m.(pages := seq(PAGES, p requires 0 <= p < PAGES => seq(PAGE, o requires 0 <= o < PAGE => Repainted(m, lo, hi, perm, PAGE * p + o))))
  }

  lemma PaintNone(m: Memory, lo: nat, perm: bv8)
    requires Full(m)
    ensures Paint(m, lo, lo, perm) == m
  {
    hide At;
    SameMemory(Paint(m, lo, lo, perm), m);
  }

  lemma PaintJoin(m: Memory, lo: nat, mid: nat, hi: nat, perm: bv8)
    requires Full(m) && lo <= mid <= hi
    ensures Paint(Paint(m, lo, mid, perm), mid, hi, perm) == Paint(m, lo, hi, perm)
  {
    hide At, Paint;
    SameMemory(Paint(Paint(m, lo, mid, perm), mid, hi, perm), Paint(m, lo, hi, perm));
  }

  lemma PaintOne(m: Memory, a: Addr, perm: bv8)
    requires Full(m)
    ensures Paint(m, a, a + 1, perm) == Put(m, a, At(m, a).(attr := perm))
  {
    hide At, Paint, Put;
    SameMemory(Paint(m, a, a + 1, perm), Put(m, a, At(m, a).(attr := perm)));
  }

  lemma PaintPage(m: Memory, p: nat, perm: bv8)
    requires Full(m) && p < PAGES
    ensures var r := Paint(m, PAGE * p, PAGE * p + PAGE, perm);
      && (forall q :: 0 <= q < PAGES && q != p ==> r.pages[q] == m.pages[q])
      && (forall o :: 0 <= o < PAGE ==> r.pages[p][o] == m.pages[p][o].(attr := perm))
  {
    var r := Paint(m, PAGE * p, PAGE * p + PAGE, perm);
    forall q, o | 0 <= q < PAGES && 0 <= o < PAGE
      ensures r.pages[q][o] == if q == p then m.pages[q][o].(attr := perm) else m.pages[q][o]
    {
      var a: Addr := PAGE * q + o;
      assert a / PAGE == q && a % PAGE == o;
      assert At(r, a) == Repainted(m, PAGE * p, PAGE * p + PAGE, perm, a);
    }
  }

  /** What x86emu_set_perm paints: one page only if it starts at 0 and goes past it. */
  function PaintedEnd(start: Addr, end: Addr): nat {
    if start > end then start
    else if start == 0 && end >= PAGE then PAGE
    else end + 1
  }

  /** x86emu_set_perm does what it promises to the memory m. */
  predicate SetPermExact(m: Memory, start: Addr, end: Addr, perm: bv8)
    requires Full(m)
  {
    Paint(m, start, PaintedEnd(start, end), perm) == Paint(m, start, end + 1, perm)
  }

  /** It keeps its promise for every memory exactly when it starts above 0 or ends in the first page. */
  lemma SetPermMeets(start: Addr, end: Addr, perm: bv8)
    requires start <= end
    ensures (forall m {:trigger Full(m)} :: Full(m) ==> SetPermExact(m, start, end, perm)) <==> start > 0 || end < PAGE
  {
    if start == 0 && end >= PAGE {
      var m := SetPermFallsShort(start, end, perm);
      hide SetPermExact;
      assert !SetPermExact(m, start, end, perm);
    }
  }

  /** Otherwise address 0x1000, say, keeps whatever attribute it had. */
  lemma SetPermFallsShort(start: Addr, end: Addr, perm: bv8) returns (m: Memory)
    requires start == 0 && end >= PAGE
    ensures Full(m) && !SetPermExact(m, start, end, perm)
  {
    m := Memory(seq(PAGES, p => seq(PAGE, o => Cell(perm ^ 1, 0))), false);
    Differs(perm);
    assert At(m, PAGE).attr == perm ^ 1;
    assert At(Paint(m, start, PaintedEnd(start, end), perm), PAGE) == At(m, PAGE);
    assert At(Paint(m, start, end + 1, perm), PAGE).attr == perm;
  }

  lemma Differs(perm: bv8)
    ensures perm ^ 1 != perm
  {
  }

  // ---------- access marks ----------

  /** An attribute without access marks. */
  predicate Unmarked(attr: bv8) {
    attr & (ACC_R | ACC_W | ACC_X | ACC_INVALID) == 0
  }

  /** Page p lies wholly between two addresses. */
  predicate Whole(lo: nat, hi: nat, p: nat) {
    lo <= PAGE * p && PAGE * p + PAGE <= hi
  }

  /** The defaults of pages after those wholly between lo and hi have been painted. */
  predicate DefaultsPainted(before: seq<bv8>, after: seq<bv8>, lo: nat, hi: nat, perm: bv8) {
    && |before| == |after| == PAGES
    && forall p :: 0 <= p < PAGES ==> after[p] == if Whole(lo, hi, p) then perm else before[p]
  }

  /** Every page that has not been made is free of access marks. */
  predicate Tidy(defaults: seq<bv8>, made: set<nat>)
    requires |defaults| == PAGES
  {
    forall p :: 0 <= p < PAGES && p !in made ==> Unmarked(defaults[p])
  }

  /** Pages that get their buffer do not matter any more. */
  lemma TidyGrows(defaults: seq<bv8>, before: set<nat>, after: set<nat>)
    requires |defaults| == PAGES && before <= after && Tidy(defaults, before)
    ensures Tidy(defaults, after)
  {
  }

  /**
   What x86emu_set_perm does to a tidy memory: it stays tidy exactly if the attribute has no
   access mark, or if no page in the range is painted as a whole that has not been made.
   */
  lemma TidyPainted(before: seq<bv8>, after: seq<bv8>, lo: nat, hi: nat, perm: bv8, had: set<nat>, has: set<nat>)
    requires DefaultsPainted(before, after, lo, hi, perm) && Tidy(before, had) && had <= has
    requires forall p :: 0 <= p < PAGES && Whole(lo, hi, p) ==> (p in has <==> p in had)
    ensures Tidy(after, has) <==> Unmarked(perm) || forall p :: 0 <= p < PAGES && Whole(lo, hi, p) ==> p in had
  {
    hide Unmarked;
    if Tidy(after, has) && !Unmarked(perm) {
      forall p | 0 <= p < PAGES && Whole(lo, hi, p)
        ensures p in had
      {
        assert after[p] == perm;
      }
    }
  }

  function Clear(c: Cell): Cell {
    c.(attr := c.attr & (PERM_R | PERM_W | PERM_X | PERM_VALID))
  }

  function Cleared(cells: seq<Cell>): (r: seq<Cell>)
    ensures |r| == |cells| && forall o :: 0 <= o < |cells| ==> r[o] == Clear(cells[o])
  {
    seq(|cells|, o requires 0 <= o < |cells| => Clear(cells[o]))
  }

  /** Clearing changes a byte exactly if it carries an access mark. */
  lemma ClearChanges(c: Cell)
    ensures Clear(c) == c <==> c.attr & 0xf0 == 0
    ensures Clear(c).data == c.data && Clear(c).attr == c.attr & 0x0f
    ensures (Unmarked(c.attr) <==> c.attr & 0xf0 == 0) && Unmarked(Clear(c).attr)
  {
  }

  /**
   Clearing only the pages in `made` clears every byte exactly when no other page carries an
   access mark, which x86emu_set_perm can give it through the page's default.
   */
  lemma ResetExact(m: Memory, r: Memory, made: set<nat>)
    requires Full(m) && Full(r)
    requires forall p :: 0 <= p < PAGES ==> r.pages[p] == if p in made then Cleared(m.pages[p]) else m.pages[p]
    ensures (forall a: Addr :: At(r, a) == Clear(At(m, a)))
      <==> (forall a: Addr :: a / PAGE !in made ==> Unmarked(At(m, a).attr))
  {
    forall a: Addr
      ensures At(r, a) == if a / PAGE in made then Clear(At(m, a)) else At(m, a)
      ensures Clear(At(m, a)) == At(m, a) <==> Unmarked(At(m, a).attr)
    {
      ClearChanges(At(m, a));
    }
    hide Clear, At;
  }
}

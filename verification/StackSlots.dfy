/**
 The stack as the pushes of prim_ops.c lay it out: slot k is where the (k + 1)-th word goes, with
 the stack pointer wrapping at its own width and addresses at 2^32.
 */
module StackSlots {
  import opened WideArithmetic
  import opened Registers
  import opened FlatMemory
  import opened Packed
  import opened EmuMemory

  /** Words and longs, as vm_memio names their sizes. */
  datatype Item = Short | Long

  function Size(i: Item): nat {
    if i == Long then 4 else 2
  }

  /** X86EMU_MEMIO_16 and X86EMU_MEMIO_32 */
  function BusWidth(i: Item): nat {
    if i == Long then 2 else 1
  }

  function Depth(n: nat, i: Item): nat {
    if i == Long then 4 * n else 2 * n
  }

  /** How the stack is addressed: SS base, SP or ESP at the start, and MODE_STACK32. */
  datatype Frame = Frame(base: U32, top: U32, wide: bool, item: Item)

  /** The stack pointer after n pushes. */
  function PointerAt(f: Frame, n: nat): U32 {
    Advance(f.top, 0 - Depth(n, f.item), f.wide)
  }

  function Slot(f: Frame, k: nat): Addr {
    Plus(f.base, Part(PointerAt(f, k + 1), f.wide))
  }

  /** So many items leave no room for two slots to share a byte, even where the pointer wraps. */
  predicate Fits(f: Frame, n: nat) {
    Depth(n, f.item) + 3 < 0x1_0000
  }

  lemma ModDifference(x: int, y: int)
    ensures (x % SIZE - y % SIZE) % SIZE == (x - y) % SIZE
  {
  }

  lemma OutOfRange(x: int, size: nat)
    requires size <= x < SIZE || -SIZE + size <= x < 0
    ensures x % SIZE >= size
  {
  }

  lemma ApartBy(base: U32, o: U32, p: U32, i: nat, size: nat)
    requires i < size <= 4 && (o + size <= p <= o + SIZE - size || p + size <= o <= p + SIZE - size)
    ensures !Among(Plus(base, o), size, Plus(Plus(base, p), i))
  {
    PlusPlus(base, p, i);
    ModDifference(base + p + i, base + o);
    OutOfRange(p + i - o, size);
  }

  lemma WrapApart(t: U32, d: nat, e: nat, m: nat)
    requires d + 2 <= e && e < 0x1_0000 && (m == 0x1_0000 || m == WORD)
    ensures var o, p := (t - d) % m, (t - e) % m; o - p == e - d || p - o == m - (e - d)
  {
    if m == WORD {
      assert (t - d) % WORD == (if t >= d then t - d else t - d + WORD);
      assert (t - e) % WORD == (if t >= e then t - e else t - e + WORD);
    } else {
      LowApart(t, d, e);
    }
  }

  lemma LowApart(t: nat, d: nat, e: nat)
    requires d < e < 0x1_0000
    ensures var o, p := (t - d) % 0x1_0000, (t - e) % 0x1_0000; o - p == e - d || p - o == 0x1_0000 - (e - d)
  {
  }

  lemma PartOf(f: Frame, n: nat)
    ensures Part(PointerAt(f, n), f.wide) == (f.top - Depth(n, f.item)) % AddressSize(f.wide)
  {
  }

  /** Two slots have no byte in common. */
  lemma SlotsApart(f: Frame, n: nat, j: nat, k: nat, i: nat)
    requires Fits(f, n) && j < n && k < n && j != k && i < Size(f.item)
    ensures !Among(Slot(f, j), Size(f.item), Plus(Slot(f, k), i))
  {
    PartOf(f, j + 1);
    PartOf(f, k + 1);
    var d, e := Depth(j + 1, f.item), Depth(k + 1, f.item);
    var o, p := Part(PointerAt(f, j + 1), f.wide), Part(PointerAt(f, k + 1), f.wide);
    WrapApart(f.top, if d < e then d else e, if d < e then e else d, AddressSize(f.wide));
    hide Part, PointerAt, Plus, Among;
    ApartBy(f.base, o, p, i, Size(f.item));
  }

  // ---------- what the slots hold ----------

  /** store_data_word_abs and store_data_long_abs, without the limit check */
  function Store(m: Memory, a: Addr, v: bv32, item: Item): (r: Memory)
    requires Full(m)
    ensures Full(r)
  {
    MemIoOn(m, a, v, Writing, BusWidth(item)).0
  }

  /** fetch_data_word_abs and fetch_data_long_abs, without the limit check */
  function Load(m: Memory, a: Addr, item: Item): (r: (Memory, bv32))
    requires Full(m)
    ensures Full(r.0)
  {
    MemIoOn(m, a, 0, Reading, BusWidth(item))
  }

  /** The bytes from a upwards read as v, without an error. */
  ghost predicate Holds(m: Memory, a: Addr, v: seq<bv8>)
    requires Full(m)
  {
    forall k {:trigger v[k]} :: 0 <= k < |v| ==> HoldsByte(At(m, Plus(a, k)), v[k])
  }

  predicate HoldsByte(c: Cell, b: bv8) {
    c.data == b && FetchOk(c, PERM_R)
  }

  predicate ReadWrite(c: Cell) {
    May(c, PERM_R) && May(c, PERM_W)
  }

  lemma ReadKeepsByte(c: Cell, b: bv8)
    ensures HoldsByte(c, b) ==> HoldsByte(FetchedCell(c, PERM_R, ACC_R), b)
    ensures ReadWrite(FetchedCell(c, PERM_R, ACC_R)) == ReadWrite(c)
    ensures HoldsByte(c, b) ==> FetchedValue(c, PERM_R) == b
  {
  }

  lemma WriteMakesByte(c: Cell, b: bv8)
    ensures ReadWrite(c) ==> HoldsByte(WrittenCell(c, b), b)
    ensures ReadWrite(WrittenCell(c, b)) == ReadWrite(c)
  {
  }

  lemma NoError(m: Memory, a: Addr)
    requires Full(m)
    ensures At(m.(invalid := false), a) == At(m, a)
  {
  }

  lemma StoreIs(m: Memory, a: Addr, v: bv32, item: Item)
    requires Full(m)
    ensures Store(m, a, v, item) == WriteAll(m.(invalid := false), a, Bytes(v, Size(item)))
  {
  }

  lemma LoadIs(m: Memory, a: Addr, item: Item)
    requires Full(m)
    ensures var (r, b) := FetchAll(m.(invalid := false), a, Size(item), PERM_R, ACC_R); Load(m, a, item) == (r, Value(b))
  {
  }

  /** What is stored where reading and writing are allowed is held there, and nothing else changes. */
  lemma StoreHolds(m: Memory, a: Addr, v: bv32, item: Item)
    requires Full(m) && forall k :: 0 <= k < Size(item) ==> ReadWrite(At(m, Plus(a, k)))
    ensures var r := Store(m, a, v, item);
      && Holds(r, a, Bytes(v, Size(item)))
      && forall b: Addr :: !Among(a, Size(item), b) ==> At(r, b) == At(m, b)
  {
    hide At, Plus, WriteAll, Store, ReadWrite, HoldsByte, WrittenCell, Bytes, Among;
    var c := m.(invalid := false);
    var bytes := Bytes(v, Size(item));
    StoreIs(m, a, v, item);
    WriteAllExact(c, a, bytes);
    forall b: Addr | true ensures At(c, b) == At(m, b) { NoError(m, b); }
    forall k {:trigger bytes[k]} | 0 <= k < |bytes|
      ensures HoldsByte(At(Store(m, a, v, item), Plus(a, k)), bytes[k])
    {
      WriteMakesByte(At(m, Plus(a, k)), bytes[k]);
    }
  }

  /** A store changes no permission. */
  lemma StoreKeeps(m: Memory, a: Addr, v: bv32, item: Item, b: Addr)
    requires Full(m)
    ensures ReadWrite(At(Store(m, a, v, item), b)) == ReadWrite(At(m, b))
  {
    hide At, WriteAll, Store, ReadWrite, WrittenCell, Bytes;
    var c := m.(invalid := false);
    var bytes := Bytes(v, Size(item));
    StoreIs(m, a, v, item);
    WriteAllExact(c, a, bytes);
    NoError(m, b);
    if Among(a, Size(item), b) {
      var k := (b - a) % SIZE;
      assert Plus(a, k) == b;
      WriteMakesByte(At(m, b), bytes[k]);
    }
  }

  /** A load gives what is held, and whatever is held anywhere stays. */
  lemma LoadHeld(m: Memory, a: Addr, v: bv32, item: Item)
    requires Full(m) && Holds(m, a, Bytes(v, Size(item)))
    ensures Load(m, a, item).1 == Truncated(v, BusWidth(item))
  {
    hide At, Plus, FetchAll, Load, HoldsByte, FetchedCell, FetchedValue, Bytes, Value, Truncated;
    var c := m.(invalid := false);
    var bytes := Bytes(v, Size(item));
    LoadIs(m, a, item);
    FetchAllExact(c, a, Size(item), PERM_R, ACC_R);
    var read := FetchAll(c, a, Size(item), PERM_R, ACC_R).1;
    forall k | 0 <= k < Size(item)
      ensures read[k] == bytes[k]
    {
      NoError(m, Plus(a, k));
      ReadKeepsByte(At(m, Plus(a, k)), bytes[k]);
    }
    assert read == bytes;
    ValueTruncated(v, BusWidth(item));
  }

  lemma LoadKeeps(m: Memory, a: Addr, item: Item, b: Addr, w: bv8)
    requires Full(m)
    ensures var r := Load(m, a, item).0;
      (HoldsByte(At(m, b), w) ==> HoldsByte(At(r, b), w)) && ReadWrite(At(r, b)) == ReadWrite(At(m, b))
  {
    hide At, FetchAll, Load, HoldsByte, ReadWrite, FetchedCell;
    var c := m.(invalid := false);
    LoadIs(m, a, item);
    FetchAllExact(c, a, Size(item), PERM_R, ACC_R);
    NoError(m, b);
    ReadKeepsByte(At(m, b), w);
  }

  // ---------- several items ----------

  /** The first n slots may be written and read. */
  ghost predicate Open(m: Memory, f: Frame, n: nat)
    requires Full(m)
  {
    forall k, i {:trigger Plus(Slot(f, k), i)} :: 0 <= k < n && 0 <= i < Size(f.item) ==> ReadWrite(At(m, Plus(Slot(f, k), i)))
  }

  /** The slots from the top hold vs. */
  ghost predicate Stacked(m: Memory, f: Frame, vs: seq<bv32>)
    requires Full(m)
  {
    forall k {:trigger vs[k]} :: 0 <= k < |vs| ==> Holds(m, Slot(f, k), Bytes(vs[k], Size(f.item)))
  }

  /** One more push. */
  lemma PushStacks(m: Memory, f: Frame, n: nat, vs: seq<bv32>, v: bv32)
    requires Full(m) && Fits(f, n) && |vs| < n && Open(m, f, n) && Stacked(m, f, vs)
    ensures var r := Store(m, Slot(f, |vs|), v, f.item); Open(r, f, n) && Stacked(r, f, vs + [v])
  {
    hide At, Plus, Slot, Store, ReadWrite, HoldsByte, Bytes, Among;
    var a := Slot(f, |vs|);
    var r := Store(m, a, v, f.item);
    assert forall i {:trigger Plus(a, i)} :: 0 <= i < Size(f.item) ==> ReadWrite(At(m, Plus(a, i)));
    StoreHolds(m, a, v, f.item);
    forall k, i {:trigger Plus(Slot(f, k), i)} | 0 <= k < n && 0 <= i < Size(f.item)
      ensures ReadWrite(At(r, Plus(Slot(f, k), i)))
    {
      StoreKeeps(m, a, v, f.item, Plus(Slot(f, k), i));
    }
    var ws := vs + [v];
    forall k {:trigger ws[k]} | 0 <= k < |vs|
      ensures Holds(r, Slot(f, k), Bytes(ws[k], Size(f.item)))
    {
      var bytes := Bytes(vs[k], Size(f.item));
      forall i {:trigger bytes[i]} | 0 <= i < |bytes|
        ensures HoldsByte(At(r, Plus(Slot(f, k), i)), bytes[i])
      {
        SlotsApart(f, n, |vs|, k, i);
      }
    }
  }

  /** A read of any slot gives what it holds, and every slot goes on holding what it did. */
  lemma LoadStacked(m: Memory, f: Frame, vs: seq<bv32>, k: nat)
    requires Full(m) && k < |vs| && Stacked(m, f, vs)
    ensures var (r, v) := Load(m, Slot(f, k), f.item); v == Truncated(vs[k], BusWidth(f.item)) && Stacked(r, f, vs)
  {
    hide At, Plus, Slot, Load, HoldsByte, Bytes, Truncated;
    var w := vs[k];
    LoadHeld(m, Slot(f, k), w, f.item);
    var r := Load(m, Slot(f, k), f.item).0;
    forall j {:trigger vs[j]} | 0 <= j < |vs|
      ensures Holds(r, Slot(f, j), Bytes(vs[j], Size(f.item)))
    {
      var bytes := Bytes(vs[j], Size(f.item));
      forall i {:trigger bytes[i]} | 0 <= i < |bytes|
        ensures HoldsByte(At(r, Plus(Slot(f, j), i)), bytes[i])
      {
        LoadKeeps(m, Slot(f, k), f.item, Plus(Slot(f, j), i), bytes[i]);
      }
    }
  }

  /** A read anywhere leaves every slot open. */
  lemma LoadOpen(m: Memory, a: Addr, item: Item, f: Frame, n: nat)
    requires Full(m) && Open(m, f, n)
    ensures Open(Load(m, a, item).0, f, n)
  {
    hide At, Plus, Slot, Load, ReadWrite;
    forall k, i {:trigger Plus(Slot(f, k), i)} | 0 <= k < n && 0 <= i < Size(f.item)
      ensures ReadWrite(At(Load(m, a, item).0, Plus(Slot(f, k), i)))
    {
      LoadKeeps(m, a, item, Plus(Slot(f, k), i), 0);
    }
  }
}

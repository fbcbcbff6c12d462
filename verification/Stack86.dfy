/**
 The stack instructions and real-mode interrupts of the emulated processor: push_* and pop_*
 (prim_ops.c), PUSHA, POPA and IRET (ops.c), generate_int (decode.c).
 */
module Stack86 {
  import opened Basics
  import opened Flags86
  import opened WideArithmetic
  import opened Registers
  import FlatMemory
  import opened Packed
  import EmuMemory
  import opened StackSlots

  /** The stack pointer, the stack segment, MODE_STACK32, the memory, and a pending protection fault. */
  datatype Stack = Stack(esp: U32, ss: Segment, wide: bool, mem: FlatMemory.Memory, fault: bool)

  datatype CodeSegment = CodeSegment(sel: bv32, base: bv32)

  /** A processor in real mode. */
  datatype Cpu = Cpu(
    eax: bv32, ecx: bv32, edx: bv32, ebx: bv32, ebp: bv32, esi: bv32, edi: bv32,
    eip: bv32, flags: bv32, cs: CodeSegment, idt: U32, savedCs: bv32, savedEip: bv32, data32: bool, stack: Stack)

  predicate Good(s: Stack) {
    FlatMemory.Full(s.mem)
  }

  /** check_data_access, with its 32-bit sum */
  predicate Beyond(seg: Segment, ofs: U32, size: nat) {
    Wrap(ofs + size - 1) > seg.limit
  }

  // ---------- pushes and pops ----------

  /** push_word, push_long */
  function Push(s: Stack, item: Item, v: bv32): (t: Stack)
    requires Good(s)
    ensures Good(t)
  {
    var esp := Advance(s.esp, 0 - Size(item), s.wide);
    var ofs := Part(esp, s.wide);
    s.(esp := esp, mem := Store(s.mem, FlatMemory.Plus(s.ss.base, ofs), v, item), fault := s.fault || Beyond(s.ss, ofs, Size(item)))
  }

  /** pop_word, pop_long */
  function Pop(s: Stack, item: Item): (r: (Stack, bv32))
    requires Good(s)
    ensures Good(r.0)
  {
    var ofs := Part(s.esp, s.wide);
    var (m, v) := Load(s.mem, FlatMemory.Plus(s.ss.base, ofs), item);
    (s.(esp := Advance(s.esp, Size(item), s.wide), mem := m, fault := s.fault || Beyond(s.ss, ofs, Size(item))), v)
  }

  /** The stack pointer is n items below the top of the frame. */
  predicate Stands(s: Stack, f: Frame, n: nat) {
    s.ss.base == f.base && s.wide == f.wide && s.esp == PointerAt(f, n)
  }

  function FrameOf(s: Stack, item: Item): Frame {
    Frame(s.ss.base, s.esp, s.wide, item)
  }

  lemma TopIs(f: Frame)
    ensures PointerAt(f, 0) == f.top
  {
    AdvanceTwice(f.top, 0, 0, f.wide);
  }

  lemma PointerSteps(f: Frame, n: nat)
    ensures Advance(PointerAt(f, n), 0 - Size(f.item), f.wide) == PointerAt(f, n + 1)
    ensures Advance(PointerAt(f, n + 1), Size(f.item), f.wide) == PointerAt(f, n)
  {
    AdvanceTwice(f.top, 0 - Depth(n, f.item), 0 - Size(f.item), f.wide);
    AdvanceTwice(f.top, 0 - Depth(n + 1, f.item), Size(f.item), f.wide);
    hide Advance;
  }

  lemma SlotIs(f: Frame, k: nat)
    ensures Slot(f, k) == FlatMemory.Plus(f.base, Part(PointerAt(f, k + 1), f.wide))
  {
  }

  /** The items vs have been pushed from the top of the frame, and there is room for n in all. */
  ghost predicate Ready(s: Stack, f: Frame, n: nat, vs: seq<bv32>) {
    Good(s) && Stands(s, f, |vs|) && Fits(f, n) && Open(s.mem, f, n) && Stacked(s.mem, f, vs)
  }

  lemma ReadyEmpty(s: Stack, item: Item, n: nat)
    requires Good(s) && Open(s.mem, FrameOf(s, item), n) && Fits(FrameOf(s, item), n)
    ensures Ready(s, FrameOf(s, item), n, [])
  {
    TopIs(FrameOf(s, item));
    hide PointerAt, Open;
  }

  lemma Pushed(s: Stack, f: Frame, n: nat, vs: seq<bv32>, v: bv32)
    requires Ready(s, f, n, vs) && |vs| < n
    ensures Ready(Push(s, f.item, v), f, n, vs + [v])
  {
    hide Advance, Part, PointerAt, Open, Stacked, Store, FlatMemory.Plus;
    PointerSteps(f, |vs|);
    SlotIs(f, |vs|);
    PushStacks(s.mem, f, n, vs, v);
  }

  /** The stack pointer is above the n-th of the items vs. */
  ghost predicate Below(s: Stack, f: Frame, vs: seq<bv32>, n: nat) {
    Good(s) && Stands(s, f, n) && Stacked(s.mem, f, vs)
  }

  lemma Popped(s: Stack, f: Frame, vs: seq<bv32>, k: nat)
    requires k < |vs| && Below(s, f, vs, k + 1)
    ensures Below(Pop(s, f.item).0, f, vs, k) && Pop(s, f.item).1 == EmuMemory.Truncated(vs[k], BusWidth(f.item))
    ensures Pop(s, f.item).0.ss == s.ss && Pop(s, f.item).0.wide == s.wide
  {
    hide Advance, Part, PointerAt, Stacked, Load, FlatMemory.Plus, EmuMemory.Truncated;
    PointerSteps(f, k);
    SlotIs(f, k);
    LoadStacked(s.mem, f, vs, k);
  }

  /** Words pushed one after the other, the first of vs first. */
  function Pushes(s: Stack, item: Item, vs: seq<bv32>): (t: Stack)
    requires Good(s)
    ensures Good(t)
    decreases |vs|
  {
    if vs == [] then s else Push(Pushes(s, item, vs[..|vs| - 1]), item, vs[|vs| - 1])
  }

  lemma PushesNext(s: Stack, item: Item, vs: seq<bv32>, v: bv32)
    requires Good(s)
    ensures Pushes(s, item, vs + [v]) == Push(Pushes(s, item, vs), item, v)
  {
    hide Push, Good;
    assert (vs + [v])[..|vs|] == vs;
  }

  lemma {:induction false} AllPushed(s: Stack, f: Frame, n: nat, vs: seq<bv32>)
    requires Good(s) && Ready(s, f, n, []) && |vs| <= n
    ensures Ready(Pushes(s, f.item, vs), f, n, vs)
    decreases |vs|
  {
    hide Push, Ready, Good, Pushes;
    if vs == [] {
      NonePushed(s, f.item);
    } else {
      var init, v := vs[..|vs| - 1], vs[|vs| - 1];
      assert vs == init + [v];
      AllPushed(s, f, n, init);
      Pushed(Pushes(s, f.item, init), f, n, init, v);
      PushesNext(s, f.item, init, v);
    }
  }

  lemma NonePushed(s: Stack, item: Item)
    requires Good(s)
    ensures Pushes(s, item, []) == s
  {
  }

  /** n words popped one after the other. */
  function Pops(s: Stack, item: Item, n: nat): (r: (Stack, seq<bv32>))
    requires Good(s)
    ensures Good(r.0) && |r.1| == n
    decreases n
  {
    if n == 0 then (s, [])
    else
      var (s1, vs) := Pops(s, item, n - 1);
      var (s2, v) := Pop(s1, item);
      (s2, vs + [v])
  }

  lemma PopsNext(s: Stack, item: Item, n: nat)
    requires Good(s)
    ensures var (s1, vs) := Pops(s, item, n); var (s2, v) := Pop(s1, item); Pops(s, item, n + 1) == (s2, vs + [v])
    ensures Pops(s, item, 0) == (s, [])
  {
    hide Pop, Good;
  }

  /** The last k of the n items above the stack pointer come off, the last one first. */
  lemma {:induction false} AllPopped(s: Stack, f: Frame, vs: seq<bv32>, n: nat, k: nat)
    requires k <= n <= |vs| && Good(s) && Below(s, f, vs, n)
    ensures var (t, ws) := Pops(s, f.item, k);
      && Below(t, f, vs, n - k) && t.ss == s.ss && t.wide == s.wide
      && forall j :: 0 <= j < k ==> ws[j] == EmuMemory.Truncated(vs[n - 1 - j], BusWidth(f.item))
    decreases k
  {
    hide Pop, Good, Below, Pops, EmuMemory.Truncated;
    if k == 0 {
      PopsNext(s, f.item, 0);
    } else {
      AllPopped(s, f, vs, n, k - 1);
      Popped(Pops(s, f.item, k - 1).0, f, vs, n - k);
      PopsNext(s, f.item, k - 1);
    }
  }

  // ---------- the instructions ----------

  function Low(v: bv32): bv32 {
    v & 0xffff
  }

  function DataItem(c: Cpu): Item {
    if c.data32 then Long else Short
  }

  /** A general register, or its lower half, set to a popped value. */
  function Set(reg: bv32, v: bv32, item: Item): bv32 {
    if item == Long then v else (reg & 0xffff_0000) | Low(v)
  }

  function Bits32(n: U32): bv32 {
    n as bv32
  }

  /** The general registers in the order of PUSHA. */
  function Generals(c: Cpu): (r: seq<bv32>)
    ensures |r| == 8
  {
    [c.eax, c.ecx, c.edx, c.ebx, Bits32(c.stack.esp), c.ebp, c.esi, c.edi]
  }

  /** x86emuOp_push_all */
  function PushAll(c: Cpu): (d: Cpu)
    requires Good(c.stack)
    ensures Good(d.stack)
  {
    c.(stack := Pushes(c.stack, DataItem(c), Generals(c)))
  }

  /** POPA passes over the pushed stack pointer: it moves ESP or SP as the data is wide, whatever the stack is. */
  function Skip(s: Stack, item: Item): Stack {
    s.(esp := Advance(s.esp, Size(item), item == Long))
  }

  /** x86emuOp_pop_all */
  function PopAll(c: Cpu): (d: Cpu)
    requires Good(c.stack)
    ensures Good(d.stack)
  {
    var i := DataItem(c);
    var (s, low) := Pops(c.stack, i, 3);
    var (t, high) := Pops(Skip(s, i), i, 4);
    c.(edi := Set(c.edi, low[0], i), esi := Set(c.esi, low[1], i), ebp := Set(c.ebp, low[2], i), ebx := Set(c.ebx, high[0], i),
       edx := Set(c.edx, high[1], i), ecx := Set(c.ecx, high[2], i), eax := Set(c.eax, high[3], i), stack := t)
  }

  /** x86emu_set_seg_register in real mode */
  function CodeAt(sel: bv32): CodeSegment {
    CodeSegment(Low(sel), Low(sel) << 4)
  }

  /** idt_lookup: the memory after it, the new IP and the new CS. */
  function Vector(m: FlatMemory.Memory, idt: U32, nr: nat): (r: (FlatMemory.Memory, bv32, bv32))
    requires FlatMemory.Full(m)
    ensures FlatMemory.Full(r.0)
  {
    var (m1, ip) := Load(m, FlatMemory.Plus(idt, 4 * nr), Short);
    var (m2, cs) := Load(m1, FlatMemory.Plus(idt, 4 * nr + 2), Short);
    (m2, ip, cs)
  }

  /** CLEAR_FLAG of F_IF and of F_TF */
  function Masked(flags: bv32): bv32 {
    flags & !F_IF & !F_TF
  }

  /** The vector is looked up and the return frame pushed: the stack after it, the new IP and CS. */
  function Delivered(s: Stack, idt: U32, nr: nat, frame: seq<bv32>, errcode: Option<bv32>): (r: (Stack, bv32, bv32))
    requires Good(s)
    ensures Good(r.0)
  {
    var (m, ip, cs) := Vector(s.mem, idt, nr);
    var t := Pushes(s.(mem := m), Short, frame);
    (if errcode.Some? then Push(t, Long, errcode.value) else t, ip, cs)
  }

  /** FLAGS, CS and IP, or the CS and IP saved at the start of the instruction to restart. */
  function ReturnFrame(c: Cpu, restart: bool): (r: seq<bv32>)
    ensures |r| == 3 && r[0] == c.flags
  {
    if restart then [c.flags, c.savedCs, c.savedEip] else [c.flags, c.cs.sel, c.eip]
  }

  /** generate_int, unless the embedder's own handler took the interrupt. */
  function Interrupt(c: Cpu, nr: nat, handled: bool, restart: bool, errcode: Option<bv32>): (d: Cpu)
    requires Good(c.stack)
    ensures Good(d.stack)
  {
    if handled then c
    else
      var (s, ip, cs) := Delivered(c.stack, c.idt, nr, ReturnFrame(c, restart), errcode);
      c.(flags := Masked(c.flags), cs := CodeAt(cs), eip := ip, stack := s)
  }

  /** x86emuOp_iret */
  function Iret(c: Cpu): (d: Cpu)
    requires Good(c.stack)
    ensures Good(d.stack)
  {
    var (s, vs) := Pops(c.stack, DataItem(c), 3);
    c.(flags := vs[2] | F_ALWAYS_ON, cs := CodeAt(vs[1]), eip := vs[0], stack := s)
  }

  // ---------- limits ----------

  predicate ByteBeyond(seg: Segment, ofs: U32, k: nat) {
    Wrap(ofs + k) > seg.limit
  }

  /** Some byte of an access of `size` bytes at ofs lies beyond the limit. */
  ghost predicate Outside(seg: Segment, ofs: U32, size: nat) {
    exists k :: 0 <= k < size && ByteBeyond(seg, ofs, k)
  }

  lemma ByteOutside(seg: Segment, ofs: U32, size: nat, k: nat)
    requires k < size && ByteBeyond(seg, ofs, k)
    ensures Outside(seg, ofs, size)
  {
  }

  /**
   check_data_access looks at the last byte only, in 32-bit arithmetic. It is right for the access unless that
   wraps: then exactly if the limit is the last address, or the wrapped end is beyond the limit too.
   */
  lemma LimitExact(seg: Segment, ofs: U32, size: nat)
    requires 1 <= size <= 4
    ensures (Beyond(seg, ofs, size) <==> Outside(seg, ofs, size))
      <==> ofs + size <= WORD || seg.limit == WORD - 1 || ofs + size - 1 - WORD > seg.limit
  {
    if ofs + size <= WORD {
      if Beyond(seg, ofs, size) {
        ByteOutside(seg, ofs, size, size - 1);
      }
    } else {
      assert Wrap(ofs + size - 1) == ofs + size - 1 - WORD;
      if seg.limit < WORD - 1 {
        assert Wrap(ofs + (WORD - 1 - ofs)) == WORD - 1;
        ByteOutside(seg, ofs, size, WORD - 1 - ofs);
      }
    }
  }

  /** Four bytes two below the end of a 64 KB segment's address space pass the check. */
  lemma LimitWitness()
    ensures var seg := Segment(0, 0xFFFF); Outside(seg, 0xFFFF_FFFE, 4) && !Beyond(seg, 0xFFFF_FFFE, 4)
  {
    ByteOutside(Segment(0, 0xFFFF), 0xFFFF_FFFE, 4, 0);
  }

  /** The offset at which item k is pushed. */
  function PushedAt(s: Stack, item: Item, k: nat): U32 {
    Part(PointerAt(FrameOf(s, item), k + 1), s.wide)
  }

  /** After pushes a fault is pending iff one was before, or one of them was checked and found beyond the limit. */
  lemma {:induction false} PushesFault(s: Stack, item: Item, vs: seq<bv32>)
    requires Good(s)
    ensures var t := Pushes(s, item, vs);
      && t.ss == s.ss && t.wide == s.wide && t.esp == PointerAt(FrameOf(s, item), |vs|)
      && (t.fault <==> s.fault || exists k :: 0 <= k < |vs| && Beyond(s.ss, PushedAt(s, item, k), Size(item)))
    decreases |vs|
  {
    hide Beyond, PointerAt, Part, Advance, Store, FlatMemory.Plus, FlatMemory.Full;
    var f := FrameOf(s, item);
    if vs == [] {
      TopIs(f);
    } else {
      PushesFault(s, item, vs[..|vs| - 1]);
      PointerSteps(f, |vs| - 1);
      assert PushedAt(s, item, |vs| - 1) == Part(PointerAt(f, |vs|), s.wide);
    }
  }

  /** The same for pops, whose offsets go up from the stack pointer. */
  function PoppedAt(s: Stack, item: Item, k: nat): U32 {
    Part(Advance(s.esp, k * Size(item), s.wide), s.wide)
  }

  lemma {:induction false} PopsFault(s: Stack, item: Item, n: nat)
    requires Good(s)
    ensures var t := Pops(s, item, n).0;
      && t.ss == s.ss && t.wide == s.wide && t.esp == Advance(s.esp, n * Size(item), s.wide)
      && (t.fault <==> s.fault || exists k :: 0 <= k < n && Beyond(s.ss, PoppedAt(s, item, k), Size(item)))
    decreases n
  {
    hide Beyond, Part, Advance, Load, FlatMemory.Plus, FlatMemory.Full;
    if n == 0 {
      AdvanceTwice(s.esp, 0, 0, s.wide);
    } else {
      PopsFault(s, item, n - 1);
      AdvanceTwice(s.esp, (n - 1) * Size(item), Size(item), s.wide);
      assert PoppedAt(s, item, n - 1) == Part(Advance(s.esp, (n - 1) * Size(item), s.wide), s.wide);
    }
  }

  // ---------- an interrupt and IRET ----------

  lemma SetSame(reg: bv32, item: Item)
    ensures Set(reg, EmuMemory.Truncated(reg, BusWidth(item)), item) == reg
  {
  }

  lemma TruncatedLow(v: bv32)
    ensures EmuMemory.Truncated(v, 1) == Low(v)
  {
  }

  /** The flags a 16-bit IRET pops. */
  function Fixed(flags: bv32): bv32 {
    Low(flags) | F_ALWAYS_ON
  }

  /** What is left of a word, a selector and the flags that are pushed as 16 bits. */
  lemma SixteenBits(v: bv32)
    ensures Low(v) == v & 0xffff && Fixed(v) == (v & 0xffff) | 0x0002
  {
  }

  lemma SegmentBase(v: bv32)
    ensures CodeAt(v).sel == Low(v) && CodeAt(v).base == Low(v) << 4
  {
    hide Low;
  }

  /** What an interrupt pushes. */
  lemma FrameHas(c: Cpu)
    ensures ReturnFrame(c, false) == [c.flags, c.cs.sel, c.eip] && ReturnFrame(c, true) == [c.flags, c.savedCs, c.savedEip]
  {
  }

  lemma LowLow(v: bv32)
    ensures Low(Low(v)) == Low(v)
  {
  }

  lemma CodeAtLow(v: bv32)
    ensures CodeAt(Low(v)) == CodeAt(v) && Fixed(v) == Low(v) | F_ALWAYS_ON
  {
    LowLow(v);
    hide Low;
  }

  /** IF is bit 9 and TF is bit 8. */
  lemma MaskedFlags(flags: bv32)
    ensures Masked(flags) == flags & 0xffff_fcff
  {
  }

  lemma VectorOpen(m: FlatMemory.Memory, idt: U32, nr: nat, f: Frame, n: nat)
    requires FlatMemory.Full(m) && Open(m, f, n)
    ensures Open(Vector(m, idt, nr).0, f, n)
  {
    hide Load, Open, FlatMemory.Full;
    var a := FlatMemory.Plus(idt, 4 * nr);
    LoadOpen(m, a, Short, f, n);
    LoadOpen(Load(m, a, Short).0, FlatMemory.Plus(idt, 4 * nr + 2), Short, f, n);
  }

  /** The vector: IP in the word at idt + 4 * nr, CS in the next. */
  lemma VectorReads(m: FlatMemory.Memory, idt: U32, nr: nat, ip: bv32, cs: bv32)
    requires FlatMemory.Full(m)
    requires Holds(m, FlatMemory.Plus(idt, 4 * nr), Bytes(ip, 2)) && Holds(m, FlatMemory.Plus(idt, 4 * nr + 2), Bytes(cs, 2))
    ensures Vector(m, idt, nr).1 == Low(ip) && Vector(m, idt, nr).2 == Low(cs)
  {
    hide FlatMemory.At, FlatMemory.Plus, Load, HoldsByte, Bytes, EmuMemory.Truncated, Low;
    var a, b := FlatMemory.Plus(idt, 4 * nr), FlatMemory.Plus(idt, 4 * nr + 2);
    var bytes := Bytes(cs, 2);
    LoadHeld(m, a, ip, Short);
    var m1 := Load(m, a, Short).0;
    forall k {:trigger bytes[k]} | 0 <= k < 2
      ensures HoldsByte(FlatMemory.At(m1, FlatMemory.Plus(b, k)), bytes[k])
    {
      LoadKeeps(m, a, Short, FlatMemory.Plus(b, k), bytes[k]);
    }
    LoadHeld(m1, b, cs, Short);
    TruncatedLow(ip);
    TruncatedLow(cs);
  }

  /**
   Where an interrupt goes, restarting or not, with or without an error code: to the IP and CS of its
   vector. One that the embedder handled leaves the processor as it was.
   */
  lemma InterruptGoes(c: Cpu, nr: nat, restart: bool, errcode: Option<bv32>, ip: bv32, cs: bv32)
    requires Good(c.stack)
    requires Holds(c.stack.mem, FlatMemory.Plus(c.idt, 4 * nr), Bytes(ip, 2))
    requires Holds(c.stack.mem, FlatMemory.Plus(c.idt, 4 * nr + 2), Bytes(cs, 2))
    ensures var d := Interrupt(c, nr, false, restart, errcode);
      d.eip == ip & 0xffff && d.cs.sel == cs & 0xffff && d.cs.base == (cs & 0xffff) << 4
    ensures Interrupt(c, nr, true, restart, errcode) == c
  {
    VectorReads(c.stack.mem, c.idt, nr, ip, cs);
    LowLow(cs);
    hide Pushes, Push, Masked, Vector, FlatMemory.Full, Holds;
  }

  lemma InterruptIs(c: Cpu, nr: nat, restart: bool, errcode: Option<bv32>)
    requires Good(c.stack)
    ensures var a := Interrupt(c, nr, false, restart, errcode); var frame := ReturnFrame(c, restart);
      && a == c.(flags := a.flags, cs := a.cs, eip := a.eip, stack := a.stack)
      && a.flags == Masked(c.flags) && a.cs.base == a.cs.sel << 4
      && var t := Pushes(c.stack.(mem := Vector(c.stack.mem, c.idt, nr).0), Short, frame);
         a.stack == if errcode.Some? then Push(t, Long, errcode.value) else t
  {
    hide Pushes, Push, Masked, Vector, FlatMemory.Full, Low, ReturnFrame;
  }

  lemma EntersReady(c: Cpu, nr: nat, restart: bool)
    requires Good(c.stack) && Open(c.stack.mem, FrameOf(c.stack, Short), 3)
    ensures Ready(Interrupt(c, nr, false, restart, None).stack, FrameOf(c.stack, Short), 3, ReturnFrame(c, restart))
  {
    var f := FrameOf(c.stack, Short);
    InterruptIs(c, nr, restart, None);
    VectorOpen(c.stack.mem, c.idt, nr, f, 3);
    hide Open, Pushes, Masked, Vector, Interrupt, Ready, ReturnFrame, FlatMemory.Full;
    var s := c.stack.(mem := Vector(c.stack.mem, c.idt, nr).0);
    ReadyEmpty(s, Short, 3);
    AllPushed(s, f, 3, ReturnFrame(c, restart));
  }

  /**
   The state an interrupt enters: the return frame on the stack, IF and TF off, and nothing else changed
   but CS and IP.
   */
  lemma InterruptEnters(c: Cpu, nr: nat, restart: bool)
    requires Good(c.stack) && Open(c.stack.mem, FrameOf(c.stack, Short), 3)
    ensures var f := FrameOf(c.stack, Short); var a := Interrupt(c, nr, false, restart, None);
      && Ready(a.stack, f, 3, ReturnFrame(c, restart))
      && a == c.(flags := Masked(c.flags), cs := a.cs, eip := a.eip, stack := a.stack)
      && a.cs.base == a.cs.sel << 4
  {
    EntersReady(c, nr, restart);
    InterruptIs(c, nr, restart, None);
    hide Open, Masked, Vector, Interrupt, Ready, Pushes, ReturnFrame;
  }

  /**
   An error code is one long more on the stack. Popped off, it leaves the stack pointer at the return frame;
   the interrupt does nothing else differently.
   */
  lemma ErrorCodePushed(c: Cpu, nr: nat, restart: bool, e: bv32)
    requires Good(c.stack)
    requires var t := Interrupt(c, nr, false, restart, None).stack; Open(t.mem, FrameOf(t, Long), 1)
    ensures var a := Interrupt(c, nr, false, restart, None); var d := Interrupt(c, nr, false, restart, Some(e));
      && d == a.(stack := d.stack) && d.stack == Push(a.stack, Long, e)
      && Pop(d.stack, Long).1 == e && Pop(d.stack, Long).0.esp == a.stack.esp
  {
    InterruptIs(c, nr, restart, None);
    InterruptIs(c, nr, restart, Some(e));
    SameEntry(c, nr, restart, e);
    hide Interrupt, Pushes, Push, Pop, Open, Ready, Below, EmuMemory.Truncated, Good, Vector;
    var t := Interrupt(c, nr, false, restart, None).stack;
    PopsPushed(t, e);
  }

  lemma SameEntry(c: Cpu, nr: nat, restart: bool, e: bv32)
    requires Good(c.stack)
    ensures var a := Interrupt(c, nr, false, restart, None); var d := Interrupt(c, nr, false, restart, Some(e));
      a.cs == d.cs && a.eip == d.eip
  {
    hide Pushes, Push, Masked, Vector, FlatMemory.Full, Low;
  }

  lemma AtTop(s: Stack, f: Frame, vs: seq<bv32>)
    requires Below(s, f, vs, 0)
    ensures s.esp == f.top
  {
    TopIs(f);
  }

  lemma ReadyBelow(s: Stack, f: Frame, n: nat, vs: seq<bv32>)
    requires Ready(s, f, n, vs)
    ensures Below(s, f, vs, |vs|)
  {
  }

  /** A long pushed where there is room comes off again. */
  lemma PopsPushed(t: Stack, e: bv32)
    requires Good(t) && Open(t.mem, FrameOf(t, Long), 1)
    ensures Pop(Push(t, Long, e), Long).1 == e && Pop(Push(t, Long, e), Long).0.esp == t.esp
  {
    var f := FrameOf(t, Long);
    hide Push, Pop, Open, PointerAt, EmuMemory.Truncated, Ready, Below;
    ReadyEmpty(t, Long, 1);
    Pushed(t, f, 1, [], e);
    assert [] + [e] == [e];
    ReadyBelow(Push(t, Long, e), f, 1, [e]);
    Popped(Push(t, Long, e), f, [e], 0);
    AtTop(Pop(Push(t, Long, e), Long).0, f, [e]);
    EmuMemory.TruncatedIs(e, 2);
  }

  /** The bytes of the first n slots are the same. */
  ghost predicate SameSlots(m: FlatMemory.Memory, n: FlatMemory.Memory, f: Frame, count: nat)
    requires FlatMemory.Full(m) && FlatMemory.Full(n)
  {
    forall k, i {:trigger FlatMemory.Plus(Slot(f, k), i)} :: 0 <= k < count && 0 <= i < Size(f.item) ==>
      FlatMemory.At(m, FlatMemory.Plus(Slot(f, k), i)) == FlatMemory.At(n, FlatMemory.Plus(Slot(f, k), i))
  }

  lemma SameStacked(m: FlatMemory.Memory, n: FlatMemory.Memory, f: Frame, vs: seq<bv32>)
    requires FlatMemory.Full(m) && FlatMemory.Full(n) && SameSlots(m, n, f, |vs|) && Stacked(m, f, vs)
    ensures Stacked(n, f, vs)
  {
    hide FlatMemory.At, FlatMemory.Plus, Slot, HoldsByte, Bytes;
    forall k {:trigger vs[k]} | 0 <= k < |vs|
      ensures Holds(n, Slot(f, k), Bytes(vs[k], Size(f.item)))
    {
      var bytes := Bytes(vs[k], Size(f.item));
      forall i {:trigger bytes[i]} | 0 <= i < |bytes|
        ensures HoldsByte(FlatMemory.At(n, FlatMemory.Plus(Slot(f, k), i)), bytes[i])
      {
        assert FlatMemory.At(m, FlatMemory.Plus(Slot(f, k), i)) == FlatMemory.At(n, FlatMemory.Plus(Slot(f, k), i));
      }
    }
  }

  /** IRET above a return frame, whoever left it there. */
  lemma IretTakes(h: Cpu, f: Frame, flags: bv32, sel: bv32, eip: bv32)
    requires Below(h.stack, f, [flags, sel, eip], 3) && f.item == DataItem(h)
    ensures var d := Iret(h); var i := BusWidth(f.item);
      && d == h.(cs := CodeAt(EmuMemory.Truncated(sel, i)), eip := EmuMemory.Truncated(eip, i),
                 flags := EmuMemory.Truncated(flags, i) | F_ALWAYS_ON, stack := d.stack)
      && d.stack.esp == f.top && d.stack.ss == h.stack.ss && d.stack.wide == h.stack.wide
  {
    assert Good(h.stack);
    AllPopped(h.stack, f, [flags, sel, eip], 3, 3);
    TopIs(f);
    hide Pops, Stacked, PointerAt, Good, EmuMemory.Truncated, CodeAt;
  }

  lemma ShortIretTakes(h: Cpu, f: Frame, flags: bv32, sel: bv32, eip: bv32)
    requires Below(h.stack, f, [flags, sel, eip], 3) && f.item == DataItem(h) == Short
    ensures var d := Iret(h);
      && d == h.(cs := CodeAt(sel), eip := Low(eip), flags := Fixed(flags), stack := d.stack)
      && d.stack.esp == f.top && d.stack.ss == h.stack.ss && d.stack.wide == h.stack.wide
  {
    IretTakes(h, f, flags, sel, eip);
    TruncatedLow(eip);
    TruncatedLow(sel);
    TruncatedLow(flags);
    CodeAtLow(sel);
    CodeAtLow(flags);
    hide Iret, Below, EmuMemory.Truncated, Low, Good, CodeAt, Fixed;
  }

  /** The handler is still in the state the interrupt entered, as far as its return goes. */
  ghost predicate Returnable(s: Stack, h: Stack, f: Frame)
    requires Good(s) && Good(h)
  {
    h.esp == s.esp && h.ss == s.ss && h.wide == s.wide && SameSlots(s.mem, h.mem, f, 3)
  }

  lemma StillBelow(s: Stack, h: Stack, f: Frame, vs: seq<bv32>)
    requires Ready(s, f, 3, vs) && |vs| == 3 && Good(h) && Returnable(s, h, f)
    ensures Below(h, f, vs, 3)
  {
    hide Stacked, Open, PointerAt, SameSlots, FlatMemory.Full;
    SameStacked(s.mem, h.mem, f, vs);
  }

  /**
   A 16-bit IRET returns from an interrupt or a fault: from any state h of the handler with the stack
   pointer it was entered with and the return frame intact, and so from its first instruction.
   ESP, CS, the low half of EIP and the low half of the flags, with bit 1 set, are back; on a restart
   CS and EIP are those saved at the start of the instruction.
   */
  lemma InterruptReturns(c: Cpu, nr: nat, restart: bool, h: Cpu)
    requires Good(c.stack) && Open(c.stack.mem, FrameOf(c.stack, Short), 3)
    requires Good(h.stack) && !h.data32 && Returnable(Interrupt(c, nr, false, restart, None).stack, h.stack, FrameOf(c.stack, Short))
    ensures var d := Iret(h); var frame := ReturnFrame(c, restart);
      && d == h.(cs := CodeAt(frame[1]), eip := Low(frame[2]), flags := Fixed(c.flags), stack := d.stack)
      && d.stack.esp == c.stack.esp && d.stack.ss == h.stack.ss && d.stack.wide == h.stack.wide
  {
    var f := FrameOf(c.stack, Short);
    var frame := ReturnFrame(c, restart);
    EntersReady(c, nr, restart);
    assert frame == [c.flags, frame[1], frame[2]];
    hide Interrupt, Returnable, Ready, Below, Open, FlatMemory.Full, Iret, Good, ReturnFrame, CodeAt, Low, Fixed;
    StillBelow(Interrupt(c, nr, false, restart, None).stack, h.stack, f, frame);
    ShortIretTakes(h, f, c.flags, frame[1], frame[2]);
  }

  // ---------- PUSHA and POPA ----------

  lemma SkipExact(p: U32, size: nat, a: bool, b: bool)
    requires size <= 4
    ensures Advance(p, size, a) == Advance(p, size, b) <==> a == b || p % 0x1_0000 + size < 0x1_0000
  {
  }

  lemma BackAgain(p: U32, q: U32, k: nat, wide: bool)
    requires Advance(p, k, wide) == Advance(q, k, wide)
    ensures p == q
  {
    AdvanceTwice(p, k, 0 - k, wide);
    AdvanceTwice(q, k, 0 - k, wide);
    hide Advance;
  }

  /** POPA finds the other registers if it passes over the stack pointer correctly. */
  predicate SkipsRight(c: Cpu) {
    c.data32 == c.stack.wide || (c.stack.esp - Depth(5, DataItem(c))) % 0x1_0000 + Size(DataItem(c)) < 0x1_0000
  }

  lemma LowPointer(f: Frame, n: nat)
    requires Depth(n, f.item) < 0x1_0000
    ensures PointerAt(f, n) % 0x1_0000 == (f.top - Depth(n, f.item)) % 0x1_0000
  {
    hide Depth;
    if f.wide {
      LowOfWrap(f.top - Depth(n, f.item));
    } else {
      LowOfSplit(f.top, 0 - Depth(n, f.item));
    }
  }

  lemma LowOfWrap(x: int)
    ensures Wrap(x) % 0x1_0000 == x % 0x1_0000
  {
  }

  lemma LowOfSplit(x: nat, k: int)
    ensures (x / 0x1_0000 * 0x1_0000 + (x % 0x1_0000 + k) % 0x1_0000) % 0x1_0000 == (x + k) % 0x1_0000
  {
  }

  /** POPA passes over the fifth item exactly if its addition stays within 16 bits or is as wide as the stack. */
  lemma SkipPasses(s: Stack, f: Frame, vs: seq<bv32>)
    requires Below(s, f, vs, 5)
    ensures var right := f.wide == (f.item == Long) || (f.top - Depth(5, f.item)) % 0x1_0000 + Size(f.item) < 0x1_0000;
      Skip(s, f.item).esp == PointerAt(f, 4) <==> right
  {
    PointerSteps(f, 4);
    LowPointer(f, 5);
    SkipExact(s.esp, Size(f.item), f.wide, f.item == Long);
    hide Advance, PointerAt, Stacked;
  }

  lemma Skipped(s: Stack, f: Frame, vs: seq<bv32>)
    requires Below(s, f, vs, 5) && Skip(s, f.item).esp == PointerAt(f, 4)
    ensures Below(Skip(s, f.item), f, vs, 4)
  {
    hide Advance, PointerAt, Stacked;
  }

  lemma PopMoves(s: Stack, item: Item)
    requires Good(s)
    ensures Pop(s, item).0.esp == Advance(s.esp, Size(item), s.wide) && Pop(s, item).0.wide == s.wide
  {
  }

  /** n pops move the stack pointer by n items, wherever it is. */
  lemma {:induction false} PopsMove(s: Stack, item: Item, n: nat)
    requires Good(s)
    ensures Pops(s, item, n).0.esp == Advance(s.esp, Depth(n, item), s.wide) && Pops(s, item, n).0.wide == s.wide
    decreases n
  {
    hide Pop, Good, Pops, Advance;
    if n == 0 {
      PopsNext(s, item, 0);
      AdvanceTwice(s.esp, 0, 0, s.wide);
    } else {
      PopsMove(s, item, n - 1);
      PopsNext(s, item, n - 1);
      PopMoves(Pops(s, item, n - 1).0, item);
      AdvanceTwice(s.esp, Depth(n - 1, item), Size(item), s.wide);
    }
  }

  lemma PointerBack(f: Frame, n: nat)
    ensures Advance(PointerAt(f, n), Depth(n, f.item), f.wide) == f.top
  {
    AdvanceTwice(f.top, 0 - Depth(n, f.item), Depth(n, f.item), f.wide);
    hide Advance, Depth;
  }

  /** From a stack pointer that is off, POPA does not come back to the top. */
  lemma StaysOff(s: Stack, f: Frame)
    requires Good(s) && s.wide == f.wide && s.esp != PointerAt(f, 4)
    ensures Pops(s, f.item, 4).0.esp != f.top
  {
    hide Pops, Good, Advance, Depth, PointerAt;
    PopsMove(s, f.item, 4);
    PointerBack(f, 4);
    if Pops(s, f.item, 4).0.esp == f.top {
      BackAgain(s.esp, PointerAt(f, 4), Depth(4, f.item), f.wide);
    }
  }

  lemma AllSetSame(c: Cpu, i: Item)
    ensures forall r :: r in Generals(c) ==> Set(r, EmuMemory.Truncated(r, BusWidth(i)), i) == r
  {
    hide Set, EmuMemory.Truncated, Generals;
    forall r | r in Generals(c)
      ensures Set(r, EmuMemory.Truncated(r, BusWidth(i)), i) == r
    {
      SetSame(r, i);
    }
  }

  /** POPA below the registers of c. */
  lemma PopAllBack(c: Cpu, p: Stack, f: Frame)
    requires Good(p) && Below(p, f, Generals(c), 8) && f.item == DataItem(c)
    requires Skip(Pops(p, f.item, 3).0, f.item).esp == PointerAt(f, 4)
    ensures var d := PopAll(c.(stack := p)); d.stack.esp == f.top && d == c.(stack := d.stack)
  {
    var i := f.item;
    var gs := Generals(c);
    hide Pops, Below, Depth, PointerAt, Advance, Set, EmuMemory.Truncated, Generals;
    AllPopped(p, f, gs, 8, 3);
    var (s, low) := Pops(p, i, 3);
    Skipped(s, f, gs);
    AllPopped(Skip(s, i), f, gs, 4, 4);
    AtTop(Pops(Skip(s, i), i, 4).0, f, gs);
    AllSetSame(c, i);
    GeneralsAre(c);
  }

  lemma PopAllOff(c: Cpu, p: Stack, f: Frame)
    requires Good(p) && Below(p, f, Generals(c), 8) && f.item == DataItem(c)
    requires Skip(Pops(p, f.item, 3).0, f.item).esp != PointerAt(f, 4)
    ensures PopAll(c.(stack := p)).stack.esp != f.top
  {
    hide Pops, Below, Depth, PointerAt, Advance, Set, EmuMemory.Truncated, Generals;
    AllPopped(p, f, Generals(c), 8, 3);
    var s := Pops(p, f.item, 3).0;
    SameWidth(s, f, Generals(c));
    StaysOff(Skip(s, f.item), f);
  }

  lemma PopAllTakes(c: Cpu, p: Stack, f: Frame)
    requires Good(p) && Below(p, f, Generals(c), 8) && f.item == DataItem(c)
    ensures var d := PopAll(c.(stack := p));
      var right := f.wide == (f.item == Long) || (f.top - Depth(5, f.item)) % 0x1_0000 + Size(f.item) < 0x1_0000;
      && (d.stack.esp == f.top <==> right) && (right ==> d == c.(stack := d.stack))
  {
    hide Pops, Below, Depth, PointerAt, Skip, PopAll, Generals, Size;
    AllPopped(p, f, Generals(c), 8, 3);
    SkipPasses(Pops(p, f.item, 3).0, f, Generals(c));
    if Skip(Pops(p, f.item, 3).0, f.item).esp == PointerAt(f, 4) {
      PopAllBack(c, p, f);
    } else {
      PopAllOff(c, p, f);
    }
  }

  lemma GeneralsAre(c: Cpu)
    ensures Generals(c)[0] == c.eax && Generals(c)[1] == c.ecx && Generals(c)[2] == c.edx && Generals(c)[3] == c.ebx
    ensures Generals(c)[4] == Bits32(c.stack.esp) && Generals(c)[5] == c.ebp && Generals(c)[6] == c.esi && Generals(c)[7] == c.edi
  {
  }

  lemma SameWidth(s: Stack, f: Frame, vs: seq<bv32>)
    requires Below(s, f, vs, 5)
    ensures s.wide == f.wide
  {
  }

  /** PUSHA leaves the general registers on the stack, and everything else alone. */
  lemma PushAllStacks(c: Cpu)
    requires Good(c.stack) && Open(c.stack.mem, FrameOf(c.stack, DataItem(c)), 8)
    ensures var p := PushAll(c).stack;
      PushAll(c) == c.(stack := p) && Good(p) && Below(p, FrameOf(c.stack, DataItem(c)), Generals(c), 8)
    ensures Generals(c) == [c.eax, c.ecx, c.edx, c.ebx, Bits32(c.stack.esp), c.ebp, c.esi, c.edi]
  {
    assert Generals(c) == [c.eax, c.ecx, c.edx, c.ebx, Bits32(c.stack.esp), c.ebp, c.esi, c.edi];
    var f := FrameOf(c.stack, DataItem(c));
    assert Fits(f, 8);
    hide Ready, Below, Open, Generals, Good, Pushes, Depth, FrameOf;
    ReadyEmpty(c.stack, DataItem(c), 8);
    ItemOf(c.stack, DataItem(c));
    AllPushed(c.stack, f, 8, Generals(c));
    ReadyBelow(Pushes(c.stack, DataItem(c), Generals(c)), f, 8, Generals(c));
  }

  lemma ItemOf(s: Stack, item: Item)
    ensures FrameOf(s, item).item == item && FrameOf(s, item).top == s.esp && FrameOf(s, item).wide == s.wide
  {
  }

  lemma SkipsRightIs(c: Cpu)
    ensures var f := FrameOf(c.stack, DataItem(c));
      SkipsRight(c) <==> f.wide == (f.item == Long) || (f.top - Depth(5, f.item)) % 0x1_0000 + Size(f.item) < 0x1_0000
  {
  }

  /**
   POPA after PUSHA restores every general register and the stack pointer exactly when its skip
   over the pushed stack pointer is right: always, when data and stack are of one width.
   */
  lemma PushAllPopAll(c: Cpu)
    requires Good(c.stack) && Open(c.stack.mem, FrameOf(c.stack, DataItem(c)), 8)
    ensures var d := PopAll(PushAll(c));
      && (d.stack.esp == c.stack.esp <==> SkipsRight(c))
      && (SkipsRight(c) ==> d == c.(stack := d.stack))
  {
    hide PushAll, PopAll, SkipsRight, FrameOf, Depth, Size, DataItem, Open, Below, Good, Generals;
    PushAllStacks(c);
    SkipsRightIs(c);
    ItemOf(c.stack, DataItem(c));
    PopAllTakes(c, PushAll(c).stack, FrameOf(c.stack, DataItem(c)));
  }

  /** Memory that may be read and written everywhere. */
  function AllOpen(): (m: FlatMemory.Memory)
    ensures FlatMemory.Full(m) && forall a: FlatMemory.Addr :: ReadWrite(FlatMemory.At(m, a))
  {
    OpenByte();
    FlatMemory.Memory(seq(FlatMemory.PAGES, _ => seq(FlatMemory.PAGE, _ => FlatMemory.Cell(3, 0))), false)
  }

  lemma OpenByte()
    ensures ReadWrite(FlatMemory.Cell(3, 0))
  {
  }

  /** With 32-bit data on a 16-bit stack and SP = 0x10, the skip carries into the upper half of ESP. */
  lemma PopAllWitness() returns (c: Cpu)
    ensures Good(c.stack) && Open(c.stack.mem, FrameOf(c.stack, DataItem(c)), 8) && c.stack.esp == 0x10
    ensures PopAll(PushAll(c)).stack.esp != 0x10
  {
    var s := Stack(0x10, Segment(0, 0xffff), false, AllOpen(), false);
    c := Cpu(0, 0, 0, 0, 0, 0, 0, 0, 0, CodeSegment(0, 0), 0, 0, 0, true, s);
    assert !SkipsRight(c);
    hide SkipsRight, PopAll, PushAll, AllOpen, Slot, ReadWrite, FlatMemory.At, FlatMemory.Plus;
    PushAllPopAll(c);
  }
}

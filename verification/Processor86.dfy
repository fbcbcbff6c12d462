/** The same instructions as the code has them: registers and memory updated step by step. */
module Processor86 {
  import opened Basics
  import opened Flags86
  import opened WideArithmetic
  import opened Registers
  import FlatMemory
  import opened StackSlots
  import opened Stack86

  class Processor {
    var eax: bv32
    var ecx: bv32
    var edx: bv32
    var ebx: bv32
    var ebp: bv32
    var esi: bv32
    var edi: bv32
    var esp: U32
    var eip: bv32
    var flags: bv32
    var cs: CodeSegment
    var ss: Segment
    var idt: U32
    var savedCs: bv32
    var savedEip: bv32
    var stack32: bool
    var data32: bool
    var mem: FlatMemory.Memory
    var fault: bool

    ghost function StackView(): Stack
      reads this`esp, this`ss, this`stack32, this`mem, this`fault
    {
      Stack(esp, ss, stack32, mem, fault)
    }

    ghost function View(): Cpu
      reads this
    {
      Cpu(eax, ecx, edx, ebx, ebp, esi, edi, eip, flags, cs, idt, savedCs, savedEip, data32, StackView())
    }

    ghost predicate Valid()
      reads this`mem
    {
      FlatMemory.Full(mem)
    }

    constructor (c: Cpu)
      requires Good(c.stack)
      ensures Valid() && View() == c
    {
      eax, ecx, edx, ebx, ebp, esi, edi := c.eax, c.ecx, c.edx, c.ebx, c.ebp, c.esi, c.edi;
      eip, flags, cs, idt, savedCs, savedEip, data32 := c.eip, c.flags, c.cs, c.idt, c.savedCs, c.savedEip, c.data32;
      esp, ss, stack32, mem, fault := c.stack.esp, c.stack.ss, c.stack.wide, c.stack.mem, c.stack.fault;
    }

    /** check_data_access: a protection fault becomes pending, and the access goes on. */
    method CheckDataAccess(seg: Segment, ofs: U32, size: nat)
      modifies this`fault
      ensures fault == (old(fault) || Beyond(seg, ofs, size))
    {
      if Wrap(ofs + size - 1) > seg.limit {
        fault := true;
      }
    }

    /** push_word and push_long, with store_data_word_abs and store_data_long_abs */
    method PushItem(item: Item, v: bv32)
      requires Valid()
      modifies this`esp, this`mem, this`fault
      ensures Valid() && Good(old(StackView())) && StackView() == Push(old(StackView()), item, v)
    {
      hide Advance, Part, Store, Beyond, FlatMemory.Plus, FlatMemory.Full;
      esp := Advance(esp, 0 - Size(item), stack32);
      var ofs := Part(esp, stack32);
      CheckDataAccess(ss, ofs, Size(item));
      mem := Store(mem, FlatMemory.Plus(ss.base, ofs), v, item);
    }

    /** pop_word and pop_long, with fetch_data_word_abs and fetch_data_long_abs */
    method PopItem(item: Item) returns (v: bv32)
      requires Valid()
      modifies this`esp, this`mem, this`fault
      ensures Valid() && Good(old(StackView())) && (StackView(), v) == Pop(old(StackView()), item)
    {
      hide Advance, Part, Load, Beyond, FlatMemory.Plus, FlatMemory.Full;
      var ofs := Part(esp, stack32);
      CheckDataAccess(ss, ofs, Size(item));
      mem, v := LoadFrom(mem, FlatMemory.Plus(ss.base, ofs), item);
      esp := Advance(esp, Size(item), stack32);
    }

    static method LoadFrom(m: FlatMemory.Memory, a: FlatMemory.Addr, item: Item) returns (r: FlatMemory.Memory, v: bv32)
      requires FlatMemory.Full(m)
      ensures (r, v) == Load(m, a, item) && FlatMemory.Full(r)
    {
      hide Load;
      var p := Load(m, a, item);
      r, v := p.0, p.1;
    }

    /** One more push: the first n of vs are on the stack, then the first n + 1. */
    method PushNext(item: Item, v: bv32, ghost s: Stack, ghost vs: seq<bv32>, ghost n: nat)
      requires Valid() && Good(s) && n < |vs| && v == vs[n] && StackView() == Pushes(s, item, vs[..n])
      modifies this`esp, this`mem, this`fault
      ensures Valid() && StackView() == Pushes(s, item, vs[..n + 1])
    {
      PushesNext(s, item, vs[..n], v);
      assert vs[..n] + [v] == vs[..n + 1];
      hide Push, Pushes, FlatMemory.Full;
      PushItem(item, v);
    }

    method PopNext(item: Item, ghost s: Stack, ghost vs: seq<bv32>) returns (v: bv32)
      requires Valid() && Good(s) && (StackView(), vs) == Pops(s, item, |vs|)
      modifies this`esp, this`mem, this`fault
      ensures Valid() && (StackView(), vs + [v]) == Pops(s, item, |vs| + 1)
    {
      PopsNext(s, item, |vs|);
      hide Pop, Pops, FlatMemory.Full;
      v := PopItem(item);
    }

    method PopThree(item: Item) returns (u: bv32, v: bv32, w: bv32)
      requires Valid()
      modifies this`esp, this`mem, this`fault
      ensures Valid() && Good(old(StackView())) && (StackView(), [u, v, w]) == Pops(old(StackView()), item, 3)
    {
      hide Pops, FlatMemory.Full;
      ghost var s := StackView();
      PopsNext(s, item, 0);
      u := PopNext(item, s, []);
      assert [] + [u] == [u];
      v := PopNext(item, s, [u]);
      assert [u] + [v] == [u, v];
      w := PopNext(item, s, [u, v]);
      assert [u, v] + [w] == [u, v, w];
    }

    method PushEight(item: Item, was: U32)
      requires Valid() && was == esp && item == (if data32 then Long else Short)
      modifies this`esp, this`mem, this`fault
      ensures Valid() && Good(old(StackView())) && StackView() == Pushes(old(StackView()), item, old(Generals(View())))
    {
      hide Pushes, FlatMemory.Full, Generals;
      ghost var s, vs := StackView(), Generals(View());
      GeneralsAre(View());
      assert vs[..0] == [];
      NonePushed(s, item);
      PushNext(item, eax, s, vs, 0);
      PushNext(item, ecx, s, vs, 1);
      PushNext(item, edx, s, vs, 2);
      PushNext(item, ebx, s, vs, 3);
      PushNext(item, Bits32(was), s, vs, 4);
      PushNext(item, ebp, s, vs, 5);
      PushNext(item, esi, s, vs, 6);
      PushNext(item, edi, s, vs, 7);
      assert vs[..8] == vs;
    }

    /** x86emuOp_push_all */
    method PushAllRegisters()
      requires Valid()
      modifies this`esp, this`mem, this`fault
      ensures Valid() && Good(old(View()).stack) && View() == PushAll(old(View()))
    {
      hide Pushes, FlatMemory.Full, Generals;
      PushEight(if data32 then Long else Short, esp);
    }

    /** x86emuOp_pop_all: the three registers below the stack pointer it passes over */
    method PopLower(item: Item)
      requires Valid()
      modifies this`edi, this`esi, this`ebp, this`esp, this`mem, this`fault
      ensures Valid() && Good(old(StackView()))
      ensures var (s, low) := Pops(old(StackView()), item, 3);
        StackView() == s && edi == Set(old(edi), low[0], item) && esi == Set(old(esi), low[1], item) && ebp == Set(old(ebp), low[2], item)
    {
      hide Pops, FlatMemory.Full, Set;
      var di, si, bp := PopThree(item);
      edi := Set(edi, di, item);
      esi := Set(esi, si, item);
      ebp := Set(ebp, bp, item);
    }

    /** x86emuOp_pop_all: the four registers above the stack pointer it passes over */
    method PopFour(item: Item)
      requires Valid()
      modifies this`ebx, this`edx, this`ecx, this`eax, this`esp, this`mem, this`fault
      ensures Valid() && Good(old(StackView()))
      ensures var (t, high) := Pops(old(StackView()), item, 4);
        && StackView() == t && ebx == Set(old(ebx), high[0], item) && edx == Set(old(edx), high[1], item)
        && ecx == Set(old(ecx), high[2], item) && eax == Set(old(eax), high[3], item)
    {
      hide Pops, FlatMemory.Full, Set;
      ghost var s := StackView();
      var bx, dx, cx := PopThree(item);
      var ax := PopNext(item, s, [bx, dx, cx]);
      assert [bx, dx, cx] + [ax] == [bx, dx, cx, ax];
      ebx := Set(ebx, bx, item);
      edx := Set(edx, dx, item);
      ecx := Set(ecx, cx, item);
      eax := Set(eax, ax, item);
    }

    /** x86emuOp_pop_all */
    method PopAllRegisters()
      requires Valid()
      modifies this`eax, this`ecx, this`edx, this`ebx, this`ebp, this`esi, this`edi, this`esp, this`mem, this`fault
      ensures Valid() && Good(old(View()).stack)
      ensures var d := PopAll(old(View()));
        && StackView() == d.stack && edi == d.edi && esi == d.esi && ebp == d.ebp
        && ebx == d.ebx && edx == d.edx && ecx == d.ecx && eax == d.eax
    {
      hide Pops, FlatMemory.Full, Set, Advance, Good, Size;
      var item := if data32 then Long else Short;
      PopLower(item);
      esp := Advance(esp, Size(item), item == Long);
      PopFour(item);
    }

    /** idt_lookup */
    method IdtLookup(nr: nat) returns (newCs: bv32, newEip: bv32)
      requires Valid()
      modifies this`mem
      ensures Valid() && FlatMemory.Full(old(mem)) && (mem, newEip, newCs) == Vector(old(mem), idt, nr)
    {
      hide FlatMemory.Full, Load;
      mem, newEip := LoadFrom(mem, FlatMemory.Plus(idt, 4 * nr), Short);
      mem, newCs := LoadFrom(mem, FlatMemory.Plus(idt, 4 * nr + 2), Short);
    }

    /** generate_int: the vector is looked up, then the return frame is pushed. */
    method Deliver(nr: nat, sel: bv32, ip: bv32, errcode: Option<bv32>) returns (newCs: bv32, newEip: bv32)
      requires Valid()
      modifies this`esp, this`mem, this`fault
      ensures Valid() && Good(old(StackView()))
      ensures (StackView(), newEip, newCs) == Delivered(old(StackView()), idt, nr, [flags, sel, ip], errcode)
    {
      hide Pushes, Push, FlatMemory.Full, Vector;
      newCs, newEip := IdtLookup(nr);
      ghost var s, vs := StackView(), [flags, sel, ip];
      assert vs[..0] == [];
      NonePushed(s, Short);
      PushNext(Short, flags, s, vs, 0);
      PushNext(Short, sel, s, vs, 1);
      PushNext(Short, ip, s, vs, 2);
      assert vs[..3] == vs;
      if errcode.Some? {
        PushItem(Long, errcode.value);
      }
    }

    /** generate_int in real mode; handled says whether the embedder's handler took the interrupt. */
    method GenerateInt(nr: nat, handled: bool, restart: bool, errcode: Option<bv32>)
      requires Valid()
      modifies this`eip, this`cs, this`flags, this`esp, this`mem, this`fault
      ensures Valid() && Good(old(View()).stack)
      ensures var d := Interrupt(old(View()), nr, handled, restart, errcode);
        StackView() == d.stack && flags == d.flags && cs == d.cs && eip == d.eip
    {
      hide Delivered, FlatMemory.Full, CodeAt, Masked, ReturnFrame;
      if !handled {
        FrameHas(View());
        var sel, ip := cs.sel, eip;
        if restart {
          sel, ip := savedCs, savedEip;
        }
        var newCs, newEip := Deliver(nr, sel, ip, errcode);
        flags := Masked(flags);
        cs := CodeAt(newCs);
        eip := newEip;
      }
    }

    /** x86emuOp_iret */
    method InterruptReturn()
      requires Valid()
      modifies this`eip, this`cs, this`flags, this`esp, this`mem, this`fault
      ensures Valid() && Good(old(View()).stack)
      ensures var d := Iret(old(View())); StackView() == d.stack && flags == d.flags && cs == d.cs && eip == d.eip
    {
      hide Pops, FlatMemory.Full, CodeAt;
      var ip, sel, popped := PopThree(if data32 then Long else Short);
      flags := popped | F_ALWAYS_ON;
      cs := CodeAt(sel);
      eip := ip;
    }
  }
}

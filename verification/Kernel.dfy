/**
 pmm.c and vmm.c over the hardware: physical memory, the TLB, the page tables reached
 through the self-map, and the free stack kept in the very frames it lists.
 Each method computes the function of the same operation in VmModel or VmRuns.
 */
module Kernel {
  import opened Basics
  import opened Paging
  import opened VmModel
  import opened VmRuns
  import opened BootMap

  const PAGE_FAULT_PRESENT := 1
  const PAGE_FAULT_WRITE := 2
  const PMM_STACK_VMA := 0xFF000000

  /** Entry k of the free stack lives in page k/1024 of the stack, whose frame is entry 1024*(k/1024). */
  ghost predicate SlotOk(ram: seq<seq<Word>>, stack: seq<Frame>, k: nat)
    requires RamOk(ram) && k < |stack|
  {
    ram[stack[k / 1024 * 1024]][k % 1024] == Entry(stack[k], 0)
  }

  /** Every cached translation is the one a walk would give now. */
  ghost predicate TlbFresh(tlb: map<Page, Frame>, ram: seq<seq<Word>>, dir: Frame)
    requires RamOk(ram)
  {
    forall p :: p in tlb ==> Mapped(ram, dir, p) && tlb[p] == Walk(ram, dir, p)
  }

  /** The page tables in memory are those of the view. */
  ghost predicate TablesMatch(ram: seq<seq<Word>>, vm: Vm)
    requires RamOk(ram) && Shape(vm)
  {
    && SelfMapped(ram, vm.dir)
    && TablesApart(ram[vm.dir], vm.dir)
    && (forall i: Index :: i != SELF ==> (Present(ram[vm.dir][i]) <==> i in vm.tables))
    && (forall i: Index :: Present(ram[vm.dir][i]) ==> Writable(ram[vm.dir][i]))
    && (forall i :: i in vm.tables ==> FrameOf(ram[vm.dir][i]) == vm.tables[i])
    && (forall p: Page :: p < WINDOW ==> Pte(ram, vm.dir, p) == vm.pages[p])
  }

  ghost predicate SlotsMatch(ram: seq<seq<Word>>, vm: Vm)
    requires RamOk(ram)
  {
    forall k :: 0 <= k < |vm.stack| ==> SlotOk(ram, vm.stack, k)
  }

  // ---------- single stores, as facts about memory ----------

  lemma EntryStored(ram: seq<seq<Word>>, vm: Vm, p: Page, w: Word)
    requires RamOk(ram) && Shape(vm) && FramesApart(vm) && TablesMatch(ram, vm) && SlotsMatch(ram, vm)
    requires p < WINDOW && p / 1024 in vm.tables
    ensures MayWrite(ram, vm.dir, WindowPage(p)) && Walk(ram, vm.dir, WindowPage(p)) == vm.tables[p / 1024]
    ensures var after := Put(ram, vm.tables[p / 1024], p % 1024, w);
            var v := vm.(pages := vm.pages[p := w]);
            && TablesMatch(after, v) && SlotsMatch(after, v)
            && forall q: Page :: q != p ==> Pte(after, vm.dir, q) == Pte(ram, vm.dir, q)
  {
    SelfMap(ram, vm.dir, p);
    StoreEntry(ram, vm.dir, p, w);
    var after := Put(ram, vm.tables[p / 1024], p % 1024, w);
    forall k | 0 <= k < |vm.stack| ensures SlotOk(after, vm.stack, k) {
      assert SlotOk(ram, vm.stack, k);
      assert IsFree(vm, vm.stack[k / 1024 * 1024]);
    }
  }

  lemma TableSlots(ram: seq<seq<Word>>, vm: Vm, i: Index, f: Frame, e: Word)
    requires RamOk(ram) && FramesApart(vm) && SlotsMatch(ram, vm) && !IsFree(vm, f)
    ensures var after := Put(ram, vm.dir, i, e)[f := Blank()]; RamOk(after) && SlotsMatch(after, vm)
  {
    var after := Put(ram, vm.dir, i, e)[f := Blank()];
    forall k | 0 <= k < |vm.stack| ensures SlotOk(after, vm.stack, k) {
      assert SlotOk(ram, vm.stack, k);
      assert IsFree(vm, vm.stack[k / 1024 * 1024]);
    }
  }

  lemma TableApart(vm: Vm, i: Index, f: Frame)
    requires FramesApart(vm) && i !in vm.tables && !IsFree(vm, f) && !Kernels(vm, f)
    ensures FramesApart(vm.(tables := vm.tables[i := f]))
  {
    hide Distinct;
  }

  lemma TableStored(ram: seq<seq<Word>>, vm: Vm, i: Index, f: Frame, flags: nat)
    requires RamOk(ram) && Shape(vm) && FramesApart(vm) && TablesMatch(ram, vm) && SlotsMatch(ram, vm)
    requires i != SELF && i !in vm.tables && !IsFree(vm, f) && !Kernels(vm, f)
    requires flags < 0x1000 && flags % 4 == 3
    ensures var after := Put(ram, vm.dir, i, Entry(f, flags))[f := Blank()];
            var v := vm.(tables := vm.tables[i := f]);
            && RamOk(after) && TablesMatch(after, v) && SlotsMatch(after, v) && FramesApart(v)
  {
    hide FramesApart, SlotOk;
    var e := Entry(f, flags);
    EntryBits(f, flags);
    forall j: Index | Present(ram[vm.dir][j]) ensures FrameOf(ram[vm.dir][j]) != f {
      assert j in vm.tables || j == SELF;
    }
    InstallTable(ram, vm.dir, i, e);
    TableSlots(ram, vm, i, f, e);
    TableApart(vm, i, f);
  }

  /**
   Between the directory store and the clearing of the new table nothing stale is cached:
   the table's own page of the window and the 1024 pages below it were not mapped before.
   */
  lemma TableFresh(tlb: map<Page, Frame>, ram: seq<seq<Word>>, vm: Vm, i: Index, f: Frame, flags: nat)
    requires RamOk(ram) && Shape(vm) && FramesApart(vm) && TablesMatch(ram, vm) && SlotsMatch(ram, vm)
    requires i != SELF && i !in vm.tables && !IsFree(vm, f) && !Kernels(vm, f)
    requires flags < 0x1000 && flags % 4 == 3 && TlbFresh(tlb, ram, vm.dir)
    ensures MayWrite(ram, vm.dir, DIRECTORY_PAGE) && Walk(ram, vm.dir, DIRECTORY_PAGE) == vm.dir
    ensures var linked := Put(ram, vm.dir, i, Entry(f, flags));
            var after := linked[f := Blank()];
            && MayWrite(linked, vm.dir, WINDOW + i) && Walk(linked, vm.dir, WINDOW + i) == f
            && RamOk(after) && TlbFresh(tlb[WINDOW + i := f], after, vm.dir)
  {
    hide FramesApart, SlotsMatch;
    TableStored(ram, vm, i, f, flags);
    EntryBits(f, flags);
    var linked := Put(ram, vm.dir, i, Entry(f, flags));
    var after := linked[f := Blank()];
    assert (WINDOW + i) / 1024 == SELF && (WINDOW + i) % 1024 == i;
    assert linked[vm.dir] == after[vm.dir] == ram[vm.dir][i := Entry(f, flags)];
    forall p | p in tlb && p != WINDOW + i ensures Pte(after, vm.dir, p) == Pte(ram, vm.dir, p) {
      if p >= WINDOW {
        assert p / 1024 == SELF;
      }
    }
  }

  /** A store into a frame that is neither the directory nor a page table moves no translation. */
  lemma DataStored(ram: seq<seq<Word>>, vm: Vm, f: Frame, row: seq<Word>)
    requires RamOk(ram) && Shape(vm) && TablesMatch(ram, vm) && !Kernels(vm, f) && |row| == WORDS
    ensures var after := ram[f := row];
            && RamOk(after) && TablesMatch(after, vm)
            && forall q: Page :: Pte(after, vm.dir, q) == Pte(ram, vm.dir, q)
  {
    var after := ram[f := row];
    forall q: Page ensures Pte(after, vm.dir, q) == Pte(ram, vm.dir, q) {
      assert Present(ram[vm.dir][q / 1024]) ==> q / 1024 == SELF || q / 1024 in vm.tables;
    }
  }

  /** The slot below the top: where it is mapped and what it holds. */
  lemma TopSlot(ram: seq<seq<Word>>, vm: Vm)
    requires RamOk(ram) && OkExcept(vm, FRAMES) && TablesMatch(ram, vm) && SlotsMatch(ram, vm) && vm.stack != []
    ensures var n := |vm.stack| - 1; var a := PMM_STACK_VMA + 4 * n;
            && a < 0x1_0000_0000
            && PageOf(a) == STACK_PAGE + n / 1024 && WordOf(a) == n % 1024
            && PageOf(a) / 1024 in vm.tables
            && Mapped(ram, vm.dir, PageOf(a))
            && ram[Walk(ram, vm.dir, PageOf(a))][WordOf(a)] == Entry(vm.stack[n], 0)
  {
    StackBound(vm);
    var n := |vm.stack| - 1;
    var p := STACK_PAGE + n / 1024;
    assert vm.pages[p] == StackEntry(vm.stack, n / 1024);
    MappingNotAllocated(vm.stack[n / 1024 * 1024]);
    assert SlotOk(ram, vm.stack, n);
  }

  lemma Rewire(ram: seq<seq<Word>>, vm: Vm, v: Vm)
    requires RamOk(ram) && Shape(vm) && Shape(v) && TablesMatch(ram, vm) && SlotsMatch(ram, vm)
    requires v.dir == vm.dir && v.tables == vm.tables && v.pages == vm.pages && v.stack <= vm.stack
    ensures TablesMatch(ram, v) && SlotsMatch(ram, v)
  {
    forall k | 0 <= k < |v.stack| ensures SlotOk(ram, v.stack, k) {
      assert SlotOk(ram, vm.stack, k);
    }
  }

  lemma PopUnused(vm: Vm)
    requires Shape(vm) && vm.stack == [] && vm.unused != []
    ensures Pop(vm) == Done((vm.(unused := vm.unused[1..]), vm.unused[0]))
  {
  }

  lemma OkSplit(vm: Vm, except: nat)
    requires OkExcept(vm, except)
    ensures Shape(vm) && FramesApart(vm)
  {
  }

  lemma RemainingStep(regions: seq<Region>, i: nat)
    requires i < |regions| && forall j :: 0 <= j < |regions| ==> regions[j].start <= regions[j].end <= FRAMES
    ensures Remaining(regions[i..]) == FrameRange(regions[i].start, regions[i].end) + Remaining(regions[i + 1..])
    ensures var r := regions[i]; r.start < r.end ==>
              Remaining(regions[i..]) != [] && Remaining(regions[i := Region(r.start + 1, r.end)][i..]) == Remaining(regions[i..])[1..]
              && Remaining(regions[i..])[0] == r.start
  {
    assert regions[i..][1..] == regions[i + 1..];
    var r := regions[i];
    if r.start < r.end {
      var after := regions[i := Region(r.start + 1, r.end)];
      assert after[i..][1..] == regions[i + 1..];
    }
  }

  /** The frames callers may hold do not shrink: what is free or the kernel's was so before. */
  ghost predicate Narrower(vm: Vm, v: Vm) {
    forall f: Frame :: IsFree(v, f) || Kernels(v, f) ==> IsFree(vm, f) || Kernels(vm, f)
  }

  lemma IntactTwice(a: seq<seq<Word>>, b: seq<seq<Word>>, c: seq<seq<Word>>, vm: Vm, v: Vm)
    requires RamOk(a) && RamOk(b) && RamOk(c) && Intact(a, b, vm) && Intact(b, c, v)
    requires Narrower(vm, v)
    ensures Intact(a, c, vm)
  {
  }

  lemma GrownKernels(vm: Vm, v: Vm)
    requires Grown(vm, v)
    ensures Narrower(vm, v)
  {
  }

  /** A store into a page table touches nothing of the callers. */
  lemma IntactStore(a: seq<seq<Word>>, b: seq<seq<Word>>, c: seq<seq<Word>>, vm: Vm, v: Vm, i: nat)
    requires RamOk(a) && RamOk(b) && RamOk(c) && Intact(a, b, vm) && Grown(vm, v) && i in v.tables
    requires forall f: Frame :: f != v.tables[i] ==> c[f] == b[f]
    ensures Intact(a, c, vm)
  {
    GrownKernels(vm, v);
    assert Kernels(v, v.tables[i]);
  }

  /** What a frame just popped is good for: it can become a page table. */
  lemma PoppedTable(vm: Vm, i: nat)
    requires OkExcept(vm, FRAMES) && Pop(vm).Done? && i < SELF && i !in vm.tables
    ensures var (v, f) := Pop(vm).value;
            && !IsFree(v, f) && !Kernels(v, f) && v.tables == vm.tables && IsFree(vm, f)
            && EnsureTable(vm, 1024 * i) == Done(v.(tables := v.tables[i := f]))
            && OkExcept(v.(tables := v.tables[i := f]), FRAMES)
            && Grown(vm, v.(tables := v.tables[i := f]))
  {
    PopOk(vm, FRAMES);
    EnsureTableOk(vm, 1024 * i);
  }

  lemma TableThere(vm: Vm, p: Page)
    requires Shape(vm) && p < WINDOW && p / 1024 in vm.tables
    ensures EnsureTable(vm, p) == Done(vm) && Grown(vm, vm)
  {
  }

  lemma DirectoryApart(vm: Vm, i: nat)
    requires FramesApart(vm) && i in vm.tables
    ensures vm.tables[i] != vm.dir
  {
  }

  /** EnsureTable depends on the directory slot of the page only. */
  lemma SameSlot(vm: Vm, p: Page, i: nat)
    requires Shape(vm) && p < WINDOW && i == p / 1024
    ensures EnsureTable(vm, p) == EnsureTable(vm, 1024 * i)
  {
  }

  /** Frames that were neither free nor the kernel's have not been written to. */
  ghost predicate Intact(before: seq<seq<Word>>, after: seq<seq<Word>>, vm: Vm)
    requires RamOk(before) && RamOk(after)
  {
    forall f: Frame :: !IsFree(vm, f) && !Kernels(vm, f) ==> after[f] == before[f]
  }

  /** The state between the two halves of pmm_free_page. */
  function Extended(vm: Vm, f: Frame): (r: Outcome<Vm>)
    requires Shape(vm) && |vm.stack| < FRAMES
    ensures r.Done? ==> Shape(r.value)
  {
    if |vm.stack| % 1024 == 0 then MapPage(vm, f, STACK_PAGE + |vm.stack| / 1024) else Done(vm)
  }

  lemma ExtendedReady(vm: Vm, f: Frame)
    requires OkExcept(vm, FRAMES) && |vm.stack| < FRAMES && Extended(vm, f).Done?
    requires !IsFree(vm, f) && !Kernels(vm, f)
    ensures var m := Extended(vm, f).value; var n := |vm.stack|;
            && m.stack == vm.stack && m.next == vm.next && FramesApart(m)
            && !Kernels(m, f) && !IsFree(m, f)
            && m.pages[STACK_PAGE + n / 1024] == StackEntry(m.stack + [f], n / 1024)
            && Push(vm, f) == Done(m.(stack := m.stack + [f]))
            && Narrower(vm, m)
  {
    PushOk(vm, f);
    var n := |vm.stack|;
    var p := STACK_PAGE + n / 1024;
    StackBound(vm);
    if n % 1024 == 0 {
      MapPageOk(vm, f, p);
      EnsureTableOk(vm, p);
      GrownKernels(vm, Extended(vm, f).value);
    }
    assert Push(vm, f).value.pages[p] == StackEntry(vm.stack + [f], n / 1024);
  }

  lemma PushSplit(vm: Vm, f: Frame)
    requires Shape(vm) && |vm.stack| < FRAMES
    ensures match Extended(vm, f)
            case Fatal(why) => Push(vm, f) == Fatal(why)
            case Done(m) => Push(vm, f) == Done(m.(stack := m.stack + [f]))
  {
  }

  lemma PushKeeps(vm: Vm, f: Frame)
    requires OkExcept(vm, FRAMES) && |vm.stack| < FRAMES && Push(vm, f).Done?
    requires !IsFree(vm, f) && !Kernels(vm, f)
    ensures OkExcept(Push(vm, f).value, FRAMES) && FramesApart(Push(vm, f).value)
  {
    PushOk(vm, f);
  }

  lemma TlbKept(tlb: map<Page, Frame>, before: seq<seq<Word>>, after: seq<seq<Word>>, dir: Frame)
    requires RamOk(before) && RamOk(after) && TlbFresh(tlb, before, dir)
    requires forall q: Page :: Pte(after, dir, q) == Pte(before, dir, q)
    ensures TlbFresh(tlb, after, dir)
  {
  }

  /** A window page is mapped exactly when the page table it shows exists. */
  lemma WindowMapped(ram: seq<seq<Word>>, vm: Vm, p: Page)
    requires RamOk(ram) && Shape(vm) && TablesMatch(ram, vm) && p < WINDOW
    ensures Mapped(ram, vm.dir, WindowPage(p)) <==> p / 1024 in vm.tables
  {
    SelfMap(ram, vm.dir, p);
  }

  lemma WindowUnmapped(ram: seq<seq<Word>>, vm: Vm, p: Page)
    requires RamOk(ram) && Shape(vm) && TablesMatch(ram, vm) && p >= WINDOW && !Mapped(ram, vm.dir, p)
    ensures p - WINDOW != SELF && p - WINDOW !in vm.tables
  {
    assert p / 1024 == SELF && p % 1024 == p - WINDOW;
  }

  /** The frame popped for a fault backs nothing: clearing it disturbs neither tables nor free stack. */
  lemma FaultFrame(vm: Vm, p: Page)
    requires OkExcept(vm, FRAMES) && Pop(vm).Done? && p < WINDOW && p / 1024 in vm.tables && Allocated(vm.pages[p])
    ensures var (v, f) := Pop(vm).value; var w := v.(pages := v.pages[p := DemandEntry(f, p)]);
            && Fault(vm, p) == Done((w, f))
            && OkExcept(w, FRAMES) && IsFree(vm, f) && !IsFree(w, f) && !Kernels(w, f) && !Kernels(vm, f)
            && p / 1024 in v.tables
            && Narrower(vm, w)
  {
    PopOk(vm, FRAMES);
    var j := p - STACK_PAGE;
    if STACK_PAGE <= p < STACK_END {
      assert vm.pages[p] == StackEntry(vm.stack, j);
      MappingNotAllocated(if 1024 * j < |vm.stack| then vm.stack[1024 * j] else 0);
      assert false;
    }
  }

  lemma Cleared(ram: seq<seq<Word>>, vm: Vm, p: Page, f: Frame)
    requires RamOk(ram) && Shape(vm) && TablesMatch(ram, vm) && SlotsMatch(ram, vm) && FramesApart(vm)
    requires p < WINDOW && vm.pages[p] == DemandEntry(f, p) && !IsFree(vm, f) && !Kernels(vm, f)
    ensures MayWrite(ram, vm.dir, p) && Walk(ram, vm.dir, p) == f
    ensures var after := ram[f := Blank()];
            && RamOk(after) && TablesMatch(after, vm) && SlotsMatch(after, vm)
            && MayWrite(after, vm.dir, p) && Walk(after, vm.dir, p) == f
            && forall q: Page :: Pte(after, vm.dir, q) == Pte(ram, vm.dir, q)
  {
    DemandMapped(f, p);
    DataStored(ram, vm, f, Blank());
    var after := ram[f := Blank()];
    forall k | 0 <= k < |vm.stack| ensures SlotOk(after, vm.stack, k) {
      assert SlotOk(ram, vm.stack, k);
      assert IsFree(vm, vm.stack[k / 1024 * 1024]);
    }
  }

  /** The slot above the top, once its page is mapped to the right frame. */
  lemma NextSlot(ram: seq<seq<Word>>, vm: Vm, f: Frame)
    requires RamOk(ram) && Shape(vm) && |vm.stack| < FRAMES && FramesApart(vm) && TablesMatch(ram, vm) && SlotsMatch(ram, vm)
    requires !Kernels(vm, f) && !IsFree(vm, f)
    requires var j := |vm.stack| / 1024; vm.pages[STACK_PAGE + j] == StackEntry(vm.stack + [f], j)
    ensures var n := |vm.stack|; var a := PMM_STACK_VMA + 4 * n; var g := (vm.stack + [f])[n / 1024 * 1024];
            && a < 0x1_0000_0000
            && MayWrite(ram, vm.dir, PageOf(a)) && Walk(ram, vm.dir, PageOf(a)) == g && WordOf(a) == n % 1024
            && !Kernels(vm, g) && (IsFree(vm, g) || g == f)
    ensures var n := |vm.stack|; var g := (vm.stack + [f])[n / 1024 * 1024]; var v := vm.(stack := vm.stack + [f]);
            var after := Put(ram, g, n % 1024, Entry(f, 0));
            && TablesMatch(after, v) && SlotsMatch(after, v)
            && forall q: Page :: Pte(after, vm.dir, q) == Pte(ram, vm.dir, q)
  {
    var n := |vm.stack|;
    var s := vm.stack + [f];
    var g := s[n / 1024 * 1024];
    assert n / 1024 * 1024 < n ==> IsFree(vm, g);
    MappingNotAllocated(g);
    var after := Put(ram, g, n % 1024, Entry(f, 0));
    DataStored(ram, vm, g, after[g]);
    assert after == ram[g := after[g]];
    forall k | 0 <= k < n ensures SlotOk(after, s, k) {
      assert SlotOk(ram, vm.stack, k);
      assert s[k] == vm.stack[k] && s[k / 1024 * 1024] == vm.stack[k / 1024 * 1024];
      if s[k / 1024 * 1024] == g {
        assert k / 1024 * 1024 == n / 1024 * 1024;
      }
    }
  }

  lemma {:induction false} ReserveFatal(vm: Vm, k: nat, n: nat)
    requires Shape(vm) && vm.next + n <= WINDOW && k <= n && ReserveMany(vm, k).Fatal?
    ensures ReserveMany(vm, n) == ReserveMany(vm, k)
    decreases n
  {
    if k < n {
      ReserveFatal(vm, k, n - 1);
    }
  }

  lemma {:induction false} MapFatal(vm: Vm, f: Frame, p: nat, k: nat, n: nat)
    requires Shape(vm) && p + n <= WINDOW && k <= n && MapMany(vm, f, p, k).Fatal?
    ensures MapMany(vm, f, p, n) == MapMany(vm, f, p, k)
    decreases n
  {
    if k < n {
      MapFatal(vm, f, p, k, n - 1);
    }
  }

  lemma {:induction false} UnmapFatal(vm: Vm, p: nat, k: nat, n: nat)
    requires Shape(vm) && p + n <= WINDOW && k <= n && UnmapMany(vm, p, k).Fatal?
    ensures UnmapMany(vm, p, n) == UnmapMany(vm, p, k)
    decreases n
  {
    if k < n {
      UnmapFatal(vm, p, k, n - 1);
    }
  }

  /** Reserving a page cannot disturb the free stack: the heap lies below it. */
  lemma ReserveKeeps(vm: Vm)
    requires OkExcept(vm, FRAMES) && vm.next < STACK_PAGE && Reserve(vm).Done?
    ensures var w := EnsureTable(vm, vm.next).value; var v := Reserve(vm).value;
            v == w.(pages := w.pages[vm.next := PAGE_ALLOCATED], next := w.next + 1) && OkExcept(v, FRAMES) && Grown(vm, v)
  {
    EnsureTableOk(vm, vm.next);
  }

  /** boot_32.asm: one page table with the first 4 MB, used by directory slots 0 and 768 only. */
  ghost predicate BootTables(ram: seq<seq<Word>>, dir: Frame, table: Frame)
    requires RamOk(ram)
  {
    && dir != table && dir < 1024 && table < 1024
    && (forall i: Index :: ram[dir][i] == if i == 0 || i == KERNEL_SPACE_PAGE / 1024 then Entry(table, MAPPING) else 0)
    && (forall k: Index :: ram[table][k] == Entry(k, MAPPING))
  }

  function EarlyPage(p: nat): Word {
    var k := p - KERNEL_SPACE_PAGE;
    if 0 <= k < 1024 then Entry(k, MAPPING) else 0
  }

  /** The view right after the self-map is in place, before the boot tables are unmapped. */
  function Early(dir: Frame, table: Frame, unused: seq<Frame>): Vm {
    Vm(dir, map[KERNEL_SPACE_PAGE / 1024 := table],
       seq(WINDOW, p requires 0 <= p < WINDOW => EarlyPage(p)), [], unused, HEAP_BEGIN)
  }

  /** vmm_init up to the reload of CR3. */
  function LinkSelf(ram: seq<seq<Word>>, dir: Frame): (r: seq<seq<Word>>)
    requires RamOk(ram)
    ensures RamOk(r)
  {
    Put(Put(ram, dir, SELF, Entry(dir, MAPPING)), dir, 0, 0)
  }

  /** The directory then has two entries, itself and the table of the first 4 MB. */
  lemma LinkSelfDirectory(ram: seq<seq<Word>>, dir: Frame, table: Frame)
    requires RamOk(ram) && BootTables(ram, dir, table)
    ensures var row := LinkSelf(ram, dir)[dir];
            && (forall i: Index :: Present(row[i]) <==> i == SELF || i == KERNEL_SPACE_PAGE / 1024)
            && (forall i: Index :: Present(row[i]) ==> Writable(row[i]))
            && FrameOf(row[SELF]) == dir && FrameOf(row[KERNEL_SPACE_PAGE / 1024]) == table
            && SelfMapped(LinkSelf(ram, dir), dir) && TablesApart(row, dir)
  {
    MappingNotAllocated(dir);
    MappingNotAllocated(table);
    hide Entry, Present, FrameOf, Writable;
  }

  lemma LinkSelfEntries(ram: seq<seq<Word>>, dir: Frame, table: Frame, unused: seq<Frame>)
    requires RamOk(ram) && BootTables(ram, dir, table)
    ensures var vm := Early(dir, table, unused); Shape(vm) && TablesMatch(LinkSelf(ram, dir), vm)
  {
    var after, vm := LinkSelf(ram, dir), Early(dir, table, unused);
    assert after[table] == ram[table];
    LinkSelfDirectory(ram, dir, table);
    forall p: Page | p < WINDOW ensures Pte(after, dir, p) == vm.pages[p] {
      if p / 1024 == KERNEL_SPACE_PAGE / 1024 {
        assert p % 1024 == p - KERNEL_SPACE_PAGE;
      }
    }
    hide Entry, Present, FrameOf, Writable;
  }

  lemma LinkSelfMatches(ram: seq<seq<Word>>, dir: Frame, table: Frame, unused: seq<Frame>)
    requires RamOk(ram) && BootTables(ram, dir, table)
    requires Distinct(unused) && dir !in unused && table !in unused
    ensures var vm := Early(dir, table, unused);
            Shape(vm) && TablesMatch(LinkSelf(ram, dir), vm) && SlotsMatch(LinkSelf(ram, dir), vm) && FramesApart(vm)
  {
    LinkSelfEntries(ram, dir, table, unused);
    hide TablesMatch;
  }

  lemma EarlyBoot(dir: Frame, table: Frame, unused: seq<Frame>)
    requires dir < 1024 && table < 1024 && dir != table
    ensures var vm := Early(dir, table, unused);
            Shape(vm) && vm.dir == dir && vm.tables == map[KERNEL_SPACE_PAGE / 1024 := table] && vm.stack == [] && vm.unused == unused && vm.next == HEAP_BEGIN
    ensures var p := Early(dir, table, unused).pages[KERNEL_SPACE_PAGE + dir := 0][KERNEL_SPACE_PAGE + table := 0];
            Boot(dir, table, unused) == Early(dir, table, unused).(pages := p)
  {
    assert Boot(dir, table, unused).pages == Early(dir, table, unused).pages[KERNEL_SPACE_PAGE + dir := 0][KERNEL_SPACE_PAGE + table := 0];
  }

  lemma ImageIs(kernel: Image)
    requires Linked(kernel)
    ensures ImageOk(kernel)
  {
  }

  lemma RoundedUp(vm: Vm, length: Word)
    requires Room(vm, PagesWanted(length))
    ensures vm.next + PagesUp(length) <= STACK_PAGE
  {
  }

  lemma NothingAsked(vm: Vm, pa: Word, length: Word)
    requires Shape(vm) && vm.next <= STACK_PAGE
    ensures HeapAlloc(vm, 0) == Done((vm, 0))
    ensures PagesSpanned(pa, length) == 0 ==> MapRange(vm, pa, length).Done? && MapRange(vm, pa, length).value.0 == vm
  {
    if PagesSpanned(pa, length) == 0 {
      MapNone(vm, pa, length);
    }
  }

  lemma EntrySeen(ram: seq<seq<Word>>, vm: Vm, p: Page)
    requires Shape(vm) && RamOk(ram) && TablesMatch(ram, vm) && p < WINDOW
    ensures Mapped(ram, vm.dir, p) == Present(vm.pages[p])
  {
  }

  lemma PresentNotReserved(vm: Vm, p: Page)
    requires Shape(vm) && AllocatedBelow(vm) && p < WINDOW && Present(vm.pages[p])
    ensures Fault(vm, p) == Fatal(UnhandledFault)
  {
    MappingNotAllocated(0);
    hide Pop, Present, Allocated;
  }

  /** Apart from a frame that is freed, the frames callers hold are not written to. */
  ghost predicate Undisturbed(before: seq<seq<Word>>, after: seq<seq<Word>>, r: Run, op: Op)
    requires RamOk(before) && RamOk(after)
  {
    forall f: Frame :: Held(r, f) && op != FreeFrame(f) ==> after[f] == before[f]
  }

  lemma IntactHeld(before: seq<seq<Word>>, after: seq<seq<Word>>, r: Run, op: Op)
    requires RamOk(before) && RamOk(after) && RunOk(r) && Intact(before, after, r.vm)
    ensures Undisturbed(before, after, r, op)
  {
    HeldOut(r);
  }

  lemma IntactButFreed(before: seq<seq<Word>>, after: seq<seq<Word>>, r: Run, f: Frame)
    requires RamOk(before) && RamOk(after) && RunOk(r) && Intact(before[f := after[f]], after, r.vm)
    ensures Undisturbed(before, after, r, FreeFrame(f))
  {
    HeldOut(r);
  }

  lemma HeldOut(r: Run)
    requires RunOk(r)
    ensures forall f: Frame :: Held(r, f) ==> !IsFree(r.vm, f) && !Kernels(r.vm, f)
  {
  }

  /** The states a run goes through. */
  ghost predicate Trace(r: Run, ops: seq<Op>, runs: seq<Run>)
    ensures Trace(r, ops, runs) ==> |runs| == |ops| + 1
  {
    && |runs| == |ops| + 1 && runs[0] == r
    && forall i :: 0 <= i < |ops| ==> Ok(runs[i].vm) && Legal(runs[i], ops[i]) && Step(runs[i], ops[i]) == Done(runs[i + 1])
  }

  ghost predicate AllAnswered(ops: seq<Op>, runs: seq<Run>, answers: seq<nat>) {
    && |runs| == |ops| + 1 && |answers| == |ops|
    && forall i :: 0 <= i < |ops| ==> Ok(runs[i].vm) && Answered(runs[i], ops[i], runs[i + 1], answers[i])
  }

  lemma TraceMore(r: Run, ops: seq<Op>, runs: seq<Run>, op: Op, answers: seq<nat>, answer: nat)
    requires Trace(r, ops, runs) && AllAnswered(ops, runs, answers)
    requires RunOk(runs[|ops|]) && Legal(runs[|ops|], op) && Step(runs[|ops|], op).Done?
    requires Answered(runs[|ops|], op, Step(runs[|ops|], op).value, answer)
    ensures var s := Step(runs[|ops|], op).value;
            Trace(r, ops + [op], runs + [s]) && AllAnswered(ops + [op], runs + [s], answers + [answer])
  {
    hide RunOk, Step, Legal, Answered, Ok;
  }

  lemma OneMore(s: Run, ops: seq<Op>, i: nat)
    requires RunOk(s) && i < |ops| && LegalRun(s, ops[i..])
    ensures Legal(s, ops[i]) && Step(s, ops[i]).Done? && RunOk(Step(s, ops[i]).value)
    ensures ops[i].WriteFault? ==> ops[i].p in Step(s, ops[i]).value.paged
    ensures ops[..i + 1] == ops[..i] + [ops[i]]
    ensures var t := Step(s, ops[i]).value; LegalRun(t, ops[i + 1..]) && After(t, ops[i + 1..]) == After(s, ops[i..])
  {
    assert ops[i..][1..] == ops[i + 1..];
    hide RunOk, Legal, Pop, Push, Fault, HeapAlloc, MapRange, UnmapRange;
    StepOk(s, ops[i]);
  }

  lemma NoneYet(ram: seq<seq<Word>>, r: Run, ops: seq<Op>)
    requires RamOk(ram)
    ensures ops[..0] == [] && ops[0..] == ops && Trace(r, [], [r]) && AllAnswered([], [r], [])
    ensures HeldIntact(ram, ram, r, r, []) && PagedBlank(ram, ram, r, r)
  {
  }

  /** A frame held before a run and not freed in it is held after it, with the same contents. */
  ghost predicate HeldIntact(before: seq<seq<Word>>, after: seq<seq<Word>>, r: Run, s: Run, ops: seq<Op>)
    requires RamOk(before) && RamOk(after)
  {
    forall f: Frame :: Held(r, f) && FreeFrame(f) !in ops ==> Held(s, f) && after[f] == before[f]
  }

  /** What backs a demand-paged page is blank, unless it backed it before. */
  ghost predicate PagedBlank(before: seq<seq<Word>>, after: seq<seq<Word>>, r: Run, s: Run)
    requires RamOk(before) && RamOk(after)
  {
    forall p :: p in s.paged ==>
      || after[s.paged[p]] == Blank()
      || (p in r.paged && r.paged[p] == s.paged[p] && after[s.paged[p]] == before[s.paged[p]])
  }

  lemma IntactMore(a: seq<seq<Word>>, b: seq<seq<Word>>, c: seq<seq<Word>>, r: Run, s: Run, ops: seq<Op>, op: Op)
    requires RamOk(a) && RamOk(b) && RamOk(c) && RunOk(s) && Legal(s, op) && Step(s, op).Done?
    requires HeldIntact(a, b, r, s, ops) && PagedBlank(a, b, r, s) && Undisturbed(b, c, s, op)
    requires op.WriteFault? ==> op.p in Step(s, op).value.paged && c[Step(s, op).value.paged[op.p]] == Blank()
    ensures HeldIntact(a, c, r, Step(s, op).value, ops + [op]) && PagedBlank(a, c, r, Step(s, op).value)
  {
    hide RunOk, Step, Legal, Held;
    var t := Step(s, op).value;
    forall f: Frame | Held(r, f) && FreeFrame(f) !in ops + [op] ensures Held(t, f) && c[f] == a[f] {
      assert FreeFrame(f) in [op] ==> FreeFrame(f) in ops + [op];
      HeldKept(s, op, f);
    }
    forall p | p in t.paged && !(op.WriteFault? && p == op.p) ensures p in s.paged && t.paged[p] == s.paged[p] && c[s.paged[p]] == b[s.paged[p]] {
      PagedBefore(s, op, p);
    }
  }

  /** A demand-paged page was so before, with its frame, or the operation served the fault on it. */
  lemma PagedBefore(s: Run, op: Op, p: Page)
    requires RunOk(s) && Legal(s, op) && Step(s, op).Done? && p in Step(s, op).value.paged && op != WriteFault(p)
    ensures p in s.paged && Step(s, op).value.paged[p] == s.paged[p] && Held(s, s.paged[p]) && op != FreeFrame(s.paged[p])
  {
    hide Ok, Pop, Push, Fault, ReserveMany, MapMany, UnmapMany, PagedMapped, RangesApart, AllocatedBelow;
  }

  class Machine {
    // CR3, physical memory, TLB
    const dir: Frame
    var ram: seq<seq<Word>>
    var tlb: map<Page, Frame>

    // pmm.c: pmm_stack_top (as an index from pmm_stack_base), s_free_memory and its
    // count and position, pmm_free_memory
    var stackTop: nat
    const regions: array<Region>
    var count: nat
    var current: nat
    var freeMemory: nat

    // vmm.c: next_alloc
    var nextAlloc: Word

    // what the above stands for
    ghost var vm: Vm

    /** The tables, the TLB and the free-stack memory agree with the view. */
    ghost predicate Wired()
      reads this`ram, this`tlb, this`vm
      ensures Wired() ==> Shape(vm) && RamOk(ram)
    {
      && vm.dir == dir
      && Shape(vm) && FramesApart(vm)
      && RamOk(ram) && TablesMatch(ram, vm) && SlotsMatch(ram, vm)
      && TlbFresh(tlb, ram, dir)
    }

    ghost predicate Counted()
      reads this, regions
    {
      && current <= count <= regions.Length
      && (forall i :: 0 <= i < count ==> regions[i].start <= regions[i].end <= FRAMES)
      && Remaining(regions[current..count]) == vm.unused
      && stackTop == |vm.stack|
      && freeMemory == 0x1000 * (|vm.stack| + |vm.unused|)
      && nextAlloc == vm.next * 0x1000
      && HEAP_BEGIN <= vm.next <= STACK_PAGE
    }

    ghost predicate ValidExcept(page: nat)
      reads this, regions
      ensures ValidExcept(page) ==> Shape(vm) && RamOk(ram)
    {
      Wired() && OkExcept(vm, page) && Counted()
    }

    ghost predicate Valid()
      reads this, regions
      ensures Valid() ==> Shape(vm) && RamOk(ram)
    {
      ValidExcept(FRAMES)
    }

    // ---------- boot ----------

    /** Static data as the loader leaves it, with the TLB in whatever state the boot code left it. */
    constructor (d: Frame, memory: seq<seq<Word>>, cached: map<Page, Frame>)
      requires RamOk(memory)
      ensures dir == d && ram == memory && regions.Length == MAX_REGIONS && fresh(regions)
      ensures stackTop == count == current == freeMemory == 0 && nextAlloc == HEAP_BEGIN * 0x1000
    {
      dir, ram, tlb := d, memory, cached;
      regions := new Region[MAX_REGIONS](_ => Region(0, 0));
      stackTop, count, current, freeMemory := 0, 0, 0, 0;
      nextAlloc := HEAP_BEGIN * 0x1000;
      vm := Vm(d, map[], [], [], [], HEAP_BEGIN);
    }

    /** s_free_memory[s_free_memory_count++] = { start, end }; pmm_free_memory += end - start */
    method AddRegion(start: nat, end: nat)
      requires count < regions.Length && start <= end
      requires forall k :: 0 <= k < count ==> regions[k].start <= regions[k].end
      requires freeMemory == Size(regions[..count])
      modifies this`count, this`freeMemory, regions
      ensures count == old(count) + 1 && regions[..count] == old(regions[..count]) + [Region(start, end)]
      ensures forall k :: 0 <= k < count ==> regions[k].start <= regions[k].end
      ensures freeMemory == Size(regions[..count])
    {
      SizeAppend(regions[..count], Region(start, end));
      hide Size;
      regions[count] := Region(start, end);
      count := count + 1;
      freeMemory := freeMemory + (end - start) * 0x1000;
      assert regions[..count] == old(regions[..count]) + [Region(start, end)];
    }

    /** pmm_init: the region list and the amount of free memory; no memory at all is fatal. */
    method PmmInit(boot: seq<MemoryMapEntry>, kernel: Image) returns (r: Outcome<nat>)
      requires ImageOk(kernel) && regions.Length == MAX_REGIONS && freeMemory == 0
      modifies this`count, this`current, this`freeMemory, regions
      ensures count <= MAX_REGIONS && current == 0
      ensures regions[..count] == Regions(boot, kernel, |boot|)
      ensures forall i :: 0 <= i < count ==> regions[i].start < regions[i].end <= FRAMES
      ensures freeMemory == |Remaining(regions[..count])| * 0x1000
      ensures r == if freeMemory == 0 then Fatal(OutOfMemory) else Done(freeMemory)
    {
      hide Clip;
      count, current := 0, 0;
      var i := 0;
      while i != |boot|
        invariant i <= |boot| && count <= MAX_REGIONS && current == 0
        invariant regions[..count] == Regions(boot, kernel, i)
        invariant forall k :: 0 <= k < count ==> regions[k].start <= regions[k].end
        invariant freeMemory == Size(regions[..count])
      {
        if count == MAX_REGIONS {
          RegionsFull(boot, kernel, i, |boot|);
          break;
        }
        ClipAligned(boot[i], kernel);
        var (start, end) := Clip(boot[i], kernel);
        if start < end {
          AddRegion(start / 0x1000, end / 0x1000);
        }
        i := i + 1;
      }
      RegionsBounded(boot, kernel, |boot|);
      SizeRemaining(regions[..count]);
      forall k | 0 <= k < count ensures regions[k].start < regions[k].end <= FRAMES {
        assert regions[..count][k] in Regions(boot, kernel, |boot|);
      }
      r := if freeMemory == 0 then Fatal(OutOfMemory) else Done(freeMemory);
    }

    /**
     vmm_init: point directory slot 1023 at the directory, drop the identity mapping,
     reload CR3, and unmap the boot tables through the new window.
     */
    method VmmInit(table: Frame)
      requires RamOk(ram) && BootTables(ram, dir, table)
      requires current == 0 && count <= regions.Length && stackTop == 0 && nextAlloc == HEAP_BEGIN * 0x1000
      requires forall i :: 0 <= i < count ==> regions[i].start <= regions[i].end <= FRAMES
      requires freeMemory == |Remaining(regions[..count])| * 0x1000
      requires var unused := Remaining(regions[..count]); Distinct(unused) && dir !in unused && table !in unused
      modifies this`ram, this`tlb, this`vm
      ensures vm == Boot(dir, table, Remaining(regions[..count])) && Valid()
    {
      hide TablesMatch, SlotsMatch, FramesApart, OkExcept, LinkSelf, Early, Boot, Remaining, Pte;
      ghost var unused := Remaining(regions[..count]);
      LinkSelfMatches(ram, dir, table, unused);
      ram := LinkSelf(ram, dir);
      tlb := map[];
      vm := Early(dir, table, unused);
      EarlyBoot(dir, table, unused);
      SetEntry(KERNEL_SPACE_PAGE + dir, 0);
      SetEntry(KERNEL_SPACE_PAGE + table, 0);
      BootOk(dir, table, unused);
      OkAll(vm);
    }

    /**
     kernel_early: pmm_init and then vmm_init. For an image linked at 1 MB that holds the boot
     tables, and a memory map without overlaps, the machine is valid, and the frames that can be
     handed out are distinct and none of them is the kernel's. No call is legal before this one.
     */
    method KernelEarly(boot: seq<MemoryMapEntry>, kernel: Image, table: Frame) returns (r: Outcome<nat>)
      requires Linked(kernel) && Disjoint(boot) && WellRead(boot, kernel)
      requires RamOk(ram) && BootTables(ram, dir, table) && InImage(kernel, dir) && InImage(kernel, table)
      requires regions.Length == MAX_REGIONS && stackTop == freeMemory == 0 && nextAlloc == HEAP_BEGIN * 0x1000
      modifies this, regions
      ensures forall q :: q in Regions(boot, kernel, |boot|) ==> q.end <= FRAMES
      ensures r == if Remaining(Regions(boot, kernel, |boot|)) == [] then Fatal(OutOfMemory) else Done(freeMemory)
      ensures r.Done? ==> Valid() && RunOk(Run(vm, {}, map[], [])) && vm.stack == []
      ensures r.Done? ==> vm.unused == Remaining(Regions(boot, kernel, |boot|)) && Distinct(vm.unused)
      ensures r.Done? ==> forall f: Frame :: InImage(kernel, f) ==> f !in vm.unused
    {
      assert dir != table;
      hide Valid, RunOk, Remaining, Disjoint, WellRead, BootTables, VmRuns.Boot, InImage, Linked, Regions;
      ImageIs(kernel);
      r := PmmInit(boot, kernel);
      RegionsDistinct(boot, kernel, |boot|);
      forall f: Frame | InImage(kernel, f) ensures f !in Remaining(regions[..count]) {
        ImageNotListed(boot, kernel, f);
      }
      if r.Fatal? {
        return;
      }
      BootOk(dir, table, Remaining(regions[..count]));
      BootIs(dir, table, Remaining(regions[..count]));
      VmmInit(table);
    }

    // ---------- the processor ----------

    /** Translate a page through the TLB, filling it from a walk on a miss. */
    method Translate(p: Page) returns (f: Frame)
      requires RamOk(ram) && TlbFresh(tlb, ram, dir) && Mapped(ram, dir, p)
      modifies this`tlb
      ensures f == Walk(ram, dir, p)
      ensures TlbFresh(tlb, ram, dir) && tlb.Keys == old(tlb.Keys) + {p}
    {
      if p in tlb {
        f := tlb[p];
      } else {
        f := Walk(ram, dir, p);
        tlb := tlb[p := f];
      }
    }

    method Load(a: Word) returns (w: Word)
      requires RamOk(ram) && TlbFresh(tlb, ram, dir) && Mapped(ram, dir, PageOf(a))
      modifies this`tlb
      ensures w == ram[Walk(ram, dir, PageOf(a))][WordOf(a)]
      ensures TlbFresh(tlb, ram, dir)
    {
      var f := Translate(PageOf(a));
      w := ram[f][WordOf(a)];
    }

    method Store(a: Word, w: Word)
      requires RamOk(ram) && TlbFresh(tlb, ram, dir) && MayWrite(ram, dir, PageOf(a))
      modifies this`tlb, this`ram
      ensures ram == Put(old(ram), Walk(old(ram), dir, PageOf(a)), WordOf(a), w)
      ensures TlbFresh(tlb, old(ram), dir) && tlb.Keys == old(tlb.Keys) + {PageOf(a)}
    {
      var f := Translate(PageOf(a));
      ram := Put(ram, f, WordOf(a), w);
    }

    /** memset of a whole page to 0. */
    method ClearPage(p: Page)
      requires RamOk(ram) && MayWrite(ram, dir, p)
      requires p in tlb ==> tlb[p] == Walk(ram, dir, p)
      modifies this`tlb, this`ram
      ensures ram == old(ram)[Walk(old(ram), dir, p) := Blank()]
      ensures tlb == old(tlb)[p := Walk(old(ram), dir, p)]
    {
      var f := if p in tlb then tlb[p] else Walk(ram, dir, p);
      tlb := tlb[p := f];
      ram := ram[f := Blank()];
    }

    /** invlpg: drops the translation of the page, global or not. */
    method Invalidate(p: Page)
      modifies this`tlb
      ensures tlb == old(tlb) - {p}
    {
      tlb := tlb - {p};
    }

    // ---------- writing entries through the window ----------

    /** vmm_page_mappings_1[p] = w; vmm_invalidate(p). */
    method SetEntry(p: Page, w: Word)
      requires Wired() && p < WINDOW && p / 1024 in vm.tables
      modifies this`ram, this`tlb, this`vm
      ensures Wired()
      ensures vm == old(vm).(pages := old(vm).pages[p := w])
      ensures forall f: Frame :: f != old(vm).tables[p / 1024] ==> ram[f] == old(ram)[f]
    {
      EntryStored(ram, vm, p, w);
      Store(MappingAddress(p), w);
      Invalidate(p);
      vm := vm.(pages := vm.pages[p := w]);
    }

    /** vmm_page_mappings_2[i] = f | flags; then invalidate and clear the table's page of the window. */
    method SetTable(i: Index, f: Frame, flags: nat)
      requires Wired() && i != SELF && i !in vm.tables && !IsFree(vm, f) && !Kernels(vm, f)
      requires flags < 0x1000 && flags % 4 == 3
      modifies this`ram, this`tlb, this`vm
      ensures Wired()
      ensures vm == old(vm).(tables := old(vm).tables[i := f]) && ram[dir][i] == Entry(f, flags)
      ensures forall g: Frame :: g != dir && g != f ==> ram[g] == old(ram)[g]
    {
      hide SlotsMatch, TablesMatch, FramesApart, Pte, Walk, Mapped;
      TableStored(ram, vm, i, f, flags);
      TableFresh(tlb, ram, vm, i, f, flags);
      Store(DirectoryAddress(i), Entry(f, flags));
      TableFresh(tlb, old(ram), vm, i, f, flags);
      ghost var cached := tlb;
      Invalidate(WINDOW + i);
      ClearPage(WINDOW + i);
      vm := vm.(tables := vm.tables[i := f]);
      assert tlb == cached[WINDOW + i := f];
    }

    // ---------- pmm.c ----------

    /** pmm_alloc_page */
    method PmmAllocPage() returns (r: Outcome<Frame>)
      requires Valid()
      modifies this, regions
      ensures match Pop(old(vm))
              case Fatal(why) => r == Fatal(why)
              case Done((v, f)) => r == Done(f) && vm == v && Valid() && Intact(old(ram), ram, old(vm))
    {
      hide OkExcept, Wired;
      if stackTop != 0 {
        r := PopStack();
        return;
      }
      while current != count
        invariant current <= count
        invariant Valid() && stackTop == 0
        invariant ram == old(ram) && vm == old(vm)
      {
        RemainingStep(regions[..count], current);
        if regions[current].start != regions[current].end {
          r := TakeFromRegion();
          return;
        }
        current := current + 1;
      }
      return Fatal(OutOfMemory);
    }

    /** The body of the region loop: the first page of the current region. */
    method TakeFromRegion() returns (r: Outcome<Frame>)
      requires Valid() && stackTop == 0
      requires current < count && regions[current].start != regions[current].end
      modifies this`freeMemory, this`vm, regions
      ensures Pop(old(vm)).Done?
      ensures var (v, f) := Pop(old(vm)).value; r == Done(f) && vm == v
      ensures Valid()
    {
      hide OkExcept, FramesApart, TablesMatch, SlotsMatch, Remaining, FrameRange, Pop, TlbFresh, RamOk;
      RemainingStep(regions[..count], current);
      PopUnused(vm);
      PopOk(vm, FRAMES);
      OkSplit(Pop(vm).value.0, FRAMES);
      Rewire(ram, vm, Pop(vm).value.0);
      var entry := regions[current];
      regions[current] := entry.(start := entry.start + 1);
      freeMemory := freeMemory - 0x1000;
      vm := vm.(unused := vm.unused[1..]);
      assert regions[..count] == old(regions[..])[..count][current := Region(entry.start + 1, entry.end)];
      return Done(entry.start);
    }

    /** The first half of pmm_alloc_page: take the page on top of the stack. */
    method PopStack() returns (r: Outcome<Frame>)
      requires Valid() && stackTop != 0
      modifies this`ram, this`tlb, this`vm, this`stackTop, this`freeMemory
      ensures var (v, f) := Pop(old(vm)).value; r == Done(f) && vm == v
      ensures Valid() && Intact(old(ram), ram, old(vm))
    {
      hide OkExcept, FramesApart, TablesMatch, SlotsMatch, Pte, Walk, Mapped, Remaining;
      TopSlot(ram, vm);
      PopOk(vm, FRAMES);
      OkSplit(Pop(vm).value.0, FRAMES);
      stackTop := stackTop - 1;
      var page := Load(PMM_STACK_VMA + 4 * stackTop);
      if stackTop % 1024 == 0 {
        SetEntry(STACK_PAGE + stackTop / 1024, 0);
      }
      Rewire(ram, vm, vm.(stack := vm.stack[..stackTop]));
      vm := vm.(stack := vm.stack[..stackTop]);
      freeMemory := freeMemory - 0x1000;
      return Done(FrameOf(page));
    }

    // ---------- vmm.c, i386 without PAE ----------

    /** The page-table half of vmm_map_page, also what a fault on the window does. */
    method MakeTable(i: Index, flags: nat) returns (r: Outcome<Frame>)
      requires Valid() && i != SELF && i !in vm.tables
      requires flags < 0x1000 && flags % 4 == 3
      modifies this, regions
      ensures match EnsureTable(old(vm), 1024 * i)
              case Fatal(why) => r == Fatal(why)
              case Done(v) => r.Done? && vm == v && Valid() && Intact(old(ram), ram, old(vm))
      ensures r.Done? ==> i in vm.tables && RamOk(ram) && ram[dir][i] == Entry(vm.tables[i], flags)
    {
      hide OkExcept, Grown, Pop, TablesMatch, SlotsMatch, FramesApart;
      if Pop(vm).Done? {
        PoppedTable(vm, i);
      }
      r := PmmAllocPage();
      if r.Done? {
        SetTable(i, r.value, flags);
      }
    }

    /** vmm_map_page: the outcome of MapPage; afterwards only page p may break Valid. */
    method VmmMapPage(f: Frame, p: Page) returns (r: Outcome<Frame>)
      requires Valid() && p < WINDOW
      modifies this, regions
      ensures match MapPage(old(vm), f, p)
              case Fatal(why) => r == Fatal(why)
              case Done(v) => r.Done? && vm == v && ValidExcept(p) && (Ordinary(p) ==> Valid()) && Intact(old(ram), ram, old(vm)) && Grown(old(vm), vm)
      ensures r.Done? && p / 1024 !in old(vm).tables ==>
                RamOk(ram) && p / 1024 in vm.tables && ram[dir][p / 1024] == Entry(vm.tables[p / 1024], 0x003)
    {
      hide OkExcept, Grown, Pop, TablesMatch, SlotsMatch, FramesApart, EnsureTable;
      SameSlot(vm, p, p / 1024);
      var hasTable := HasTable(p / 1024);
      if !hasTable {
        var t :- MakeTable(p / 1024, MAPPING);
      } else {
        TableThere(vm, p);
      }
      ghost var tabled, middle := vm, ram;
      var entry := LoadEntry(p);
      if Present(entry) {
        return Fatal(AlreadyMapped);
      }
      DirectoryApart(vm, p / 1024);
      SetEntry(p, Entry(f, MAPPING));
      MapPageOk(old(vm), f, p);
      r := Done(f);
    }

    /** vmm_page_mappings_2[i] & PAGE_PRESENT */
    method HasTable(i: Index) returns (b: bool)
      requires Wired() && i != SELF
      modifies this`tlb
      ensures Wired() && b == (i in vm.tables)
    {
      SelfMap(ram, dir, 1024 * i);
      var pde := Load(DirectoryAddress(i));
      b := Present(pde);
    }

    /** vmm_page_mappings_1[p], for a page that has a page table */
    method LoadEntry(p: Page) returns (w: Word)
      requires Wired() && p < WINDOW && p / 1024 in vm.tables
      modifies this`tlb
      ensures Wired() && w == vm.pages[p]
    {
      SelfMap(ram, dir, p);
      w := Load(MappingAddress(p));
    }

    /** pmm_free_page */
    method PmmFreePage(f: Frame) returns (r: Outcome<Frame>)
      requires Valid() && !IsFree(vm, f) && !Kernels(vm, f)
      modifies this, regions
      ensures |old(vm).stack| < FRAMES
      ensures match Push(old(vm), f)
              case Fatal(why) => r == Fatal(why)
              case Done(v) => r.Done? && vm == v && Valid() && Intact(old(ram)[f := ram[f]], ram, old(vm))
    {
      hide OkExcept, Grown, Pop, Push, TablesMatch, SlotsMatch, FramesApart, MapPage, Pte, Kernels, IsFree;
      PushOutcome(vm, f);
      PushSplit(vm, f);
      if stackTop % 1024 == 0 {
        var m :- VmmMapPage(f, STACK_PAGE + stackTop / 1024);
      }
      ExtendedReady(old(vm), f);
      PushKeeps(old(vm), f);
      PushSlot(f);
      r := Done(f);
    }

    /** *pmm_stack_top++ = page, with the page of the slot mapped. */
    method PushSlot(f: Frame)
      requires Wired() && Counted() && |vm.stack| < FRAMES && !Kernels(vm, f) && !IsFree(vm, f)
      requires var j := |vm.stack| / 1024; vm.pages[STACK_PAGE + j] == StackEntry(vm.stack + [f], j)
      requires FramesApart(vm.(stack := vm.stack + [f]))
      modifies this`ram, this`tlb, this`stackTop, this`freeMemory, this`vm
      ensures Wired() && Counted() && vm == old(vm).(stack := old(vm).stack + [f])
      ensures forall g: Frame :: g != f && !IsFree(old(vm), g) ==> ram[g] == old(ram)[g]
    {
      hide TablesMatch, SlotsMatch, FramesApart, Pte, Kernels, Mapped, Walk, StackEntry;
      NextSlot(ram, vm, f);
      Store(PMM_STACK_VMA + 4 * stackTop, Entry(f, 0));
      TlbKept(tlb, old(ram), ram, dir);
      stackTop := stackTop + 1;
      freeMemory := freeMemory + 0x1000;
      vm := vm.(stack := vm.stack + [f]);
    }

    /**
     vmm_page_fault_handler for a fault on page p. The processor's error code says write to
     a page that is not present (2) or something else. A window page stands for a page
     table: the handler then creates the table. A reserved page gets a blank frame, and the
     store that faulted then goes through.
     Reading the entry of a page without a page table faults again, as a read: fatal.
     */
    method PageFault(p: Page, error: nat) returns (r: Outcome<Frame>)
      requires Valid() && (error == PAGE_FAULT_WRITE ==> !Mapped(ram, dir, p))
      modifies this, regions
      ensures error != 2 ==> r == Fatal(UnhandledFault)
      ensures error == 2 && p < WINDOW ==>
                match Fault(old(vm), p)
                case Fatal(why) => r == Fatal(why)
                case Done((v, f)) => r == Done(f) && vm == v && Valid() && ram[f] == Blank() && Intact(old(ram), ram, old(vm))
      ensures r.Done? && p < WINDOW ==> RamOk(ram) && MayWrite(ram, dir, p) && Walk(ram, dir, p) == r.value
      ensures error == 2 && p >= WINDOW ==>
                match EnsureTable(old(vm), 1024 * (p - WINDOW))
                case Fatal(why) => r == Fatal(why)
                case Done(v) => r.Done? && vm == v && Valid() && p - WINDOW in vm.tables && Intact(old(ram), ram, old(vm))
      ensures r.Done? && p >= WINDOW ==>
                RamOk(ram) && p - WINDOW in vm.tables && ram[dir][p - WINDOW] == Entry(vm.tables[p - WINDOW], 0x103)
    {
      hide OkExcept, Grown, Pop, TablesMatch, SlotsMatch, FramesApart, Pte, Mapped, Walk, MayWrite, Intact, EnsureTable;
      if error != PAGE_FAULT_WRITE {
        return Fatal(UnhandledFault);
      }
      if p >= WINDOW {
        WindowUnmapped(ram, vm, p);
        r := MakeTable(p - WINDOW, DEMAND);
        return;
      }
      var hasTable := HasTable(p / 1024);
      if !hasTable {
        return Fatal(UnhandledFault);
      }
      var entry := LoadEntry(p);
      if !Allocated(entry) {
        return Fatal(UnhandledFault);
      }
      r := Demand(p);
    }

    /** The served half of the handler: a frame, its entry, and 1024 blank words. */
    method Demand(p: Page) returns (r: Outcome<Frame>)
      requires Valid() && p < WINDOW && p / 1024 in vm.tables && Allocated(vm.pages[p])
      modifies this, regions
      ensures match Fault(old(vm), p)
              case Fatal(why) => r == Fatal(why)
              case Done((v, f)) => r == Done(f) && vm == v && Valid() && ram[f] == Blank() && Intact(old(ram), ram, old(vm))
      ensures r.Done? ==> RamOk(ram) && MayWrite(ram, dir, p) && Walk(ram, dir, p) == r.value
    {
      hide OkExcept, Grown, Pop, TablesMatch, SlotsMatch, FramesApart, Pte, Mapped, Walk, MayWrite;
      if Pop(vm).Done? {
        FaultFrame(vm, p);
      }
      var f :- PmmAllocPage();
      SetEntry(p, DemandEntry(f, p));
      Cleared(ram, vm, p, f);
      ghost var before := ram;
      ClearPage(p);
      TlbKept(tlb, before, ram, dir);
      r := Done(f);
    }

    /** vmm_unmap_page: the store may fault on a missing page table, which creates it. */
    method VmmUnmapPage(p: Page) returns (r: Outcome<Frame>)
      requires Valid() && p < WINDOW
      modifies this, regions
      ensures match UnmapPage(old(vm), p)
              case Fatal(why) => r == Fatal(why)
              case Done(v) => r.Done? && vm == v && ValidExcept(p) && (Ordinary(p) ==> Valid()) && Intact(old(ram), ram, old(vm)) && Grown(old(vm), vm)
    {
      hide OkExcept, Grown, Pop, TablesMatch, SlotsMatch, FramesApart, EnsureTable, Intact;
      var t :- Reach(p);
      ghost var tabled, before := vm, ram;
      SetEntry(p, 0);
      IntactStore(old(ram), before, ram, old(vm), tabled, p / 1024);
      UnmapPageOk(old(vm), p);
      r := Done(0);
    }

    /** A store to the entry of page p, up to the point where it no longer faults. */
    method Reach(p: Page) returns (r: Outcome<Frame>)
      requires Valid() && p < WINDOW
      modifies this, regions
      ensures match EnsureTable(old(vm), p)
              case Fatal(why) => r == Fatal(why)
              case Done(v) => r.Done? && vm == v && Valid() && Intact(old(ram), ram, old(vm)) && Grown(old(vm), vm)
    {
      hide OkExcept, Grown, Pop, TablesMatch, SlotsMatch, FramesApart, EnsureTable, Pte, Walk;
      SameSlot(vm, p, p / 1024);
      WindowMapped(ram, vm, p);
      if !Mapped(ram, dir, WindowPage(p)) {
        if EnsureTable(vm, p).Done? {
          EnsureTableOk(vm, p);
        }
        r := PageFault(WindowPage(p), PAGE_FAULT_WRITE);
      } else {
        TableThere(vm, p);
        r := Done(0);
      }
    }

    /** The body of the vmm_alloc loop. */
    method ReservePage() returns (r: Outcome<Frame>)
      requires Valid() && vm.next < STACK_PAGE
      modifies this, regions
      ensures match Reserve(old(vm))
              case Fatal(why) => r == Fatal(why)
              case Done(v) => r.Done? && vm == v && Valid() && Intact(old(ram), ram, old(vm)) && Grown(old(vm), vm)
    {
      hide OkExcept, Grown, Pop, TablesMatch, SlotsMatch, FramesApart, EnsureTable, Intact, MayWrite, Pte, Walk, TlbFresh, Writable, Shape;
      if Reserve(vm).Done? {
        ReserveKeeps(vm);
      }
      var t :- Reach(nextAlloc / 0x1000);
      ghost var tabled, before := vm, ram;
      SetEntry(nextAlloc / 0x1000, PAGE_ALLOCATED);
      IntactStore(old(ram), before, ram, old(vm), tabled, tabled.next / 1024);
      Rewire(ram, vm, vm.(next := vm.next + 1));
      nextAlloc := nextAlloc + 0x1000;
      vm := vm.(next := vm.next + 1);
      r := Done(0);
    }

    /** vmm_alloc: NULL for no bytes, otherwise the address of the pages reserved. */
    method VmmAlloc(length: Word) returns (r: Outcome<Word>)
      requires Valid() && vm.next + PagesUp(length) <= STACK_PAGE
      modifies this, regions
      ensures match HeapAlloc(old(vm), length)
              case Fatal(why) => r == Fatal(why)
              case Done((v, a)) => r == Done(a) && vm == v && Valid() && Intact(old(ram), ram, old(vm)) && Narrower(old(vm), vm)
    {
      hide OkExcept, Grown, Pop, Wired, Reserve;
      if length == 0 {
        return Done(0);
      }
      var begin := nextAlloc;
      var end: Word := begin + PagesUp(length) * 0x1000;
      var p := begin;
      ghost var k := 0;
      while p != end
        invariant p == begin + k * 0x1000 && k <= PagesUp(length)
        invariant Valid() && RamOk(ram) && ReserveMany(old(vm), k) == Done(vm)
        invariant Intact(old(ram), ram, old(vm))
        invariant Narrower(old(vm), vm)
        decreases end - p
      {
        if ReserveMany(old(vm), k + 1).Fatal? {
          ReserveFatal(old(vm), k + 1, PagesUp(length));
        }
        ghost var before, v := ram, vm;
        var t :- ReservePage();
        IntactTwice(old(ram), before, ram, old(vm), v);
        GrownKernels(v, vm);
        p := p + 0x1000;
        k := k + 1;
      }
      r := Done(begin);
    }

    /** vmm_map: reserve, check the end of the heap, map page after page. */
    method VmmMap(pa: Word, length: Word) returns (r: Outcome<Word>)
      requires Valid() && vm.next + PagesSpanned(pa, length) <= STACK_PAGE
      modifies this, regions
      ensures match MapRange(old(vm), pa, length)
              case Fatal(why) => r == Fatal(why)
              case Done((v, a)) => r == Done(a) && vm == v && Valid() && Intact(old(ram), ram, old(vm))
    {
      hide OkExcept, Grown, Pop, Wired, MapMany, ReserveMany, PagesSpanned;
      var n := PagesSpanned(pa, length);
      WholePages(n);
      var base :- VmmAlloc(n * 0x1000);
      if base + n * 0x1000 > HEAP_END * 0x1000 {
        return Fatal(OutOfVirtualSpace);
      }
      ghost var before, v := ram, vm;
      var t :- MapPages(pa / 0x1000, base / 0x1000, n);
      IntactTwice(old(ram), before, ram, old(vm), v);
      r := Done(base + pa % 0x1000);
    }

    /** The loop of vmm_map. */
    method MapPages(f: Frame, p: nat, n: nat) returns (r: Outcome<Frame>)
      requires Valid() && p + n <= STACK_PAGE
      modifies this, regions
      ensures match MapMany(old(vm), f, p, n)
              case Fatal(why) => r == Fatal(why)
              case Done(v) => r.Done? && vm == v && Valid() && Intact(old(ram), ram, old(vm))
    {
      hide OkExcept, Grown, Pop, Wired, MapPage;
      var k := 0;
      while k != n
        invariant k <= n
        invariant Valid() && MapMany(old(vm), f, p, k) == Done(vm)
        invariant Intact(old(ram), ram, old(vm)) && Narrower(old(vm), vm)
      {
        if MapMany(old(vm), f, p, k + 1).Fatal? {
          MapFatal(old(vm), f, p, k + 1, n);
        }
        ghost var before, v := ram, vm;
        var t :- VmmMapPage((f + k) % FRAMES, p + k);
        IntactTwice(old(ram), before, ram, old(vm), v);
        GrownKernels(v, vm);
        k := k + 1;
      }
      r := Done(0);
    }

    /** vmm_unmap */
    method VmmUnmap(a: Word, length: Word) returns (r: Outcome<Frame>)
      requires Valid() && a / 0x1000 + PagesSpanned(a, length) <= STACK_PAGE
      modifies this, regions
      ensures match UnmapRange(old(vm), a, length)
              case Fatal(why) => r == Fatal(why)
              case Done(v) => r.Done? && vm == v && Valid() && Intact(old(ram), ram, old(vm))
    {
      hide OkExcept, Grown, Pop, Wired, UnmapPage, PagesSpanned;
      var n := PagesSpanned(a, length);
      var begin := a / 0x1000;
      var p := begin;
      while p != begin + n
        invariant begin <= p <= begin + n
        invariant Valid() && UnmapMany(old(vm), begin, p - begin) == Done(vm)
        invariant Intact(old(ram), ram, old(vm))
        invariant Narrower(old(vm), vm)
      {
        if UnmapMany(old(vm), begin, p + 1 - begin).Fatal? {
          UnmapFatal(old(vm), begin, p + 1 - begin, n);
        }
        ghost var before, v := ram, vm;
        var t :- VmmUnmapPage(p);
        IntactTwice(old(ram), before, ram, old(vm), v);
        GrownKernels(v, vm);
        p := p + 1;
      }
      r := Done(0);
    }

    // ---------- runs ----------

    /**
     The call, or the fault, that an operation of a run stands for: its outcome, what it returns, and
     the memory of the callers, in which it writes to nothing but the frame that is freed.
     */
    method Perform(op: Op, ghost r: Run) returns (done: Outcome<nat>)
      requires Valid() && RunOk(r) && vm == r.vm && Legal(r, op)
      modifies this, regions
      ensures match Step(r, op)
              case Fatal(why) => done == Fatal(why)
              case Done(s) => done.Done? && vm == s.vm && Valid() && Answered(r, op, s, done.value)
      ensures Step(r, op).Done? ==> Undisturbed(old(ram), ram, r, op)
      ensures Step(r, op).Done? && op.WriteFault? ==>
                var f := Step(r, op).value.paged[op.p]; ram[f] == Blank() && MayWrite(ram, dir, op.p) && Walk(ram, dir, op.p) == f
    {
      hide Valid, RunOk, Pop, Push, Fault, HeapAlloc, MapRange, UnmapRange, PagesSpanned, Intact, Undisturbed, MayWrite, Walk;
      if op.FreeFrame? {
        HeldFree(r, op.f);
        done := PmmFreePage(op.f);
        if done.Done? {
          IntactButFreed(old(ram), ram, r, op.f);
        }
      } else {
        done := PerformHeld(op, r);
        if done.Done? {
          IntactHeld(old(ram), ram, r, op);
        }
      }
    }

    /** The operations that write to no frame a caller holds. */
    method PerformHeld(op: Op, ghost r: Run) returns (done: Outcome<nat>)
      requires Valid() && RunOk(r) && vm == r.vm && Legal(r, op) && !op.FreeFrame?
      modifies this, regions
      ensures match Step(r, op)
              case Fatal(why) => done == Fatal(why)
              case Done(s) => done.Done? && vm == s.vm && Valid() && Answered(r, op, s, done.value)
      ensures done.Done? ==> Intact(old(ram), ram, old(vm))
      ensures Step(r, op).Done? && op.WriteFault? ==>
                var f := Step(r, op).value.paged[op.p]; ram[f] == Blank() && MayWrite(ram, dir, op.p) && Walk(ram, dir, op.p) == f
    {
      hide Valid, RunOk, Pop, Fault, HeapAlloc, MapRange, UnmapRange, PagesSpanned, Intact, Mapped, Narrower, Undisturbed, MayWrite, Walk;
      match op
      case AllocFrame =>
        done := PmmAllocPage();
      case Alloc(length) =>
        RoundedUp(vm, length);
        NothingAsked(vm, 0, length);
        done := VmmAlloc(length);
      case Map(pa, length) =>
        SpanWanted(pa, length);
        NothingAsked(vm, pa, length);
        done := VmmMap(pa, length);
      case Unmap(a, length) =>
        done := VmmUnmap(a, length);
      case WriteFault(p) =>
        PresentUnserved(this, r, p);
        done := PageFault(p, if Mapped(ram, dir, p) then PAGE_FAULT_WRITE + PAGE_FAULT_PRESENT else PAGE_FAULT_WRITE);
    }

    /**
     A whole run on the machine. It ends in the state the run has on values, so everything
     said of runs holds of the machine: for one, its free stack is backed by its own frames.
     Each call returns what it returns on values. A frame held and not freed keeps its contents,
     and what backs a page paged in by the run is still blank at its end. At each demand-paged page the
     processor finds its frame, and may write to it.
     */
    method PerformAll(ops: seq<Op>, ghost r: Run) returns (answers: seq<nat>, ghost runs: seq<Run>)
      requires Valid() && RunOk(r) && vm == r.vm && LegalRun(r, ops)
      modifies this, regions
      ensures Valid() && vm == After(r, ops).vm && freeMemory == 0x1000 * (|vm.stack| + |vm.unused|)
      ensures forall p: Page :: STACK_PAGE <= p < STACK_END ==> vm.pages[p] == StackEntry(vm.stack, p - STACK_PAGE)
      ensures Trace(r, ops, runs) && runs[|ops|] == After(r, ops) && AllAnswered(ops, runs, answers)
      ensures HeldIntact(old(ram), ram, r, After(r, ops), ops)
      ensures PagedBlank(old(ram), ram, r, After(r, ops))
      ensures var paged := After(r, ops).paged; forall p :: p in paged ==> MayWrite(ram, dir, p) && Walk(ram, dir, p) == paged[p]
    {
      hide Valid, RunOk, Step, Legal, LegalRun, After, Trace, AllAnswered, HeldIntact, PagedBlank, Answered, Undisturbed, MayWrite, Walk;
      ghost var s := r;
      var i := 0;
      answers, runs := [], [r];
      NoneYet(ram, r, ops);
      while i < |ops|
        invariant i <= |ops| && Valid() && RunOk(s) && vm == s.vm
        invariant LegalRun(s, ops[i..]) && After(s, ops[i..]) == After(r, ops)
        invariant Trace(r, ops[..i], runs) && runs[i] == s && AllAnswered(ops[..i], runs, answers)
        invariant HeldIntact(old(ram), ram, r, s, ops[..i]) && PagedBlank(old(ram), ram, r, s)
      {
        OneMore(s, ops, i);
        ghost var before := ram;
        var done := Perform(ops[i], s);
        TraceMore(r, ops[..i], runs, ops[i], answers, done.value);
        IntactMore(old(ram), before, ram, r, s, ops[..i], ops[i]);
        s := Step(s, ops[i]).value;
        answers, runs := answers + [done.value], runs + [s];
        i := i + 1;
      }
      Finished(this, s, ops, i);
    }
  }

  /** What the run takes a page to be backed by is where the processor finds it, and it may be written. */
  lemma PagedReached(m: Machine, s: Run)
    requires m.Valid() && RunOk(s) && m.vm == s.vm
    ensures RamOk(m.ram) && forall p :: p in s.paged ==> MayWrite(m.ram, m.dir, p) && Walk(m.ram, m.dir, p) == s.paged[p]
  {
    assert m.Wired();
    hide OkExcept, SlotsMatch, FramesApart, HeldApart, RangesApart, AllocatedBelow, TlbFresh, Remaining;
    forall p | p in s.paged
      ensures MayWrite(m.ram, m.dir, p) && Walk(m.ram, m.dir, p) == s.paged[p]
    {
      DemandMapped(s.paged[p], p);
    }
  }

  lemma Finished(m: Machine, s: Run, ops: seq<Op>, i: nat)
    requires m.Valid() && RunOk(s) && m.vm == s.vm && i == |ops| && LegalRun(s, ops[i..])
    ensures ops[..i] == ops && s == After(s, ops[i..])
    ensures m.freeMemory == 0x1000 * (|m.vm.stack| + |m.vm.unused|)
    ensures forall p: Page :: STACK_PAGE <= p < STACK_END ==> m.vm.pages[p] == StackEntry(m.vm.stack, p - STACK_PAGE)
    ensures RamOk(m.ram) && forall p :: p in s.paged ==> MayWrite(m.ram, m.dir, p) && Walk(m.ram, m.dir, p) == s.paged[p]
  {
    PagedReached(m, s);
    hide RunOk, MayWrite, Walk;
  }

  /** A present page is not reserved: no fault on it is served, whichever it is. */
  lemma PresentUnserved(m: Machine, r: Run, p: Page)
    requires m.Valid() && RunOk(r) && m.vm == r.vm && p < WINDOW
    ensures RamOk(m.ram) && Shape(r.vm)
    ensures Mapped(m.ram, m.dir, p) ==> Fault(r.vm, p) == Fatal(UnhandledFault)
  {
    assert m.Wired();
    hide OkExcept, TablesMatch, SlotsMatch, FramesApart, HeldApart, PagedMapped, RangesApart, Mapped, Fault, AllocatedBelow, TlbFresh, Remaining;
    EntrySeen(m.ram, m.vm, p);
    if Present(m.vm.pages[p]) {
      PresentNotReserved(m.vm, p);
    }
  }
}

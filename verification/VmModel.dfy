/**
 What pmm.c and vmm.c do, seen from outside the page tables: which entry each page has,
 which frames are free and in which order they will be handed out. Every operation is
 a function on this view; module Kernel shows that the code, which edits tables through
 the self-map and keeps its free list in mapped memory, computes exactly these.
 */
module VmModel {
  import opened Basics
  import opened Paging

  datatype Panic = OutOfMemory | AlreadyMapped | OutOfVirtualSpace | UnhandledFault

  /** Fatal stands for a call to fatal(), which halts the machine. */
  datatype Outcome<+T> = Done(value: T) | Fatal(why: Panic) {
    predicate IsFailure() {
      Fatal?
    }
    function PropagateFailure<U>(): Outcome<U>
      requires Fatal?
    {
      Fatal(why)
    }
    function Extract(): T
      requires Done?
    {
      value
    }
  }

  /** PMM_STACK_VMA, KERNEL_SPACE and the heap limits as page numbers. */
  const STACK_PAGE := 0xFF000
  const STACK_END := 0xFF400
  const KERNEL_SPACE_PAGE := 0xC0000
  const HEAP_BEGIN := 0xE0000
  const HEAP_END := 0xF0000

  /** Flags of an ordinary mapping and of one made by the page-fault handler. */
  const MAPPING := PAGE_WRITE + PAGE_PRESENT
  const DEMAND := PAGE_GLOBAL + PAGE_WRITE + PAGE_PRESENT

  /**
   tables: the frame of each page table, by directory slot.
   pages:  the entry of every page below the window (0 without a page table).
   stack:  the freed frames; the last one is handed out next.
   unused: the frames of the boot regions not handed out yet, in order.
   next:   next_alloc, as a page number.
   */
  datatype Vm = Vm(dir: Frame, tables: map<nat, Frame>, pages: seq<Word>,
                   stack: seq<Frame>, unused: seq<Frame>, next: nat)

  predicate IsFree(vm: Vm, f: Frame) {
    f in vm.stack || f in vm.unused
  }

  predicate Shape(vm: Vm) {
    |vm.pages| == WINDOW && |vm.stack| <= FRAMES && (forall i :: i in vm.tables ==> i < SELF)
  }

  /** The entry free-stack page j must have: the frame kept in the first slot of the page itself. */
  function StackEntry(stack: seq<Frame>, j: nat): Word {
    if 1024 * j < |stack| then Entry(stack[1024 * j], MAPPING) else 0
  }

  /**
   Free-stack page j is mapped to the frame stored in its own first slot; pages above
   the top are not mapped. Page `except` is left out (used while a page is being added).
   */
  ghost predicate StackMapped(vm: Vm, except: nat)
    requires Shape(vm)
  {
    forall p: Page :: STACK_PAGE <= p < STACK_END && p != except ==> vm.pages[p] == StackEntry(vm.stack, p - STACK_PAGE)
  }

  /** No frame is free twice, and no free frame is the directory or a page table. */
  ghost predicate FramesApart(vm: Vm) {
    && Distinct(vm.stack) && Distinct(vm.unused)
    && (forall f :: f in vm.stack ==> f !in vm.unused)
    && !IsFree(vm, vm.dir)
    && (forall i :: i in vm.tables ==> vm.tables[i] != vm.dir && !IsFree(vm, vm.tables[i]))
    && (forall i, j :: i in vm.tables && j in vm.tables && i != j ==> vm.tables[i] != vm.tables[j])
  }

  ghost predicate OkExcept(vm: Vm, except: nat)
    ensures OkExcept(vm, except) ==> Shape(vm)
  {
    && Shape(vm)
    && FramesApart(vm)
    && StackMapped(vm, except)
    && (forall p: Page :: p < WINDOW && p / 1024 !in vm.tables ==> vm.pages[p] == 0)
  }

  ghost predicate Ok(vm: Vm)
    ensures Ok(vm) ==> Shape(vm) && HEAP_BEGIN <= vm.next <= STACK_PAGE
  {
    && OkExcept(vm, FRAMES)
    && HEAP_BEGIN <= vm.next <= STACK_PAGE
    && HeapAbove(vm)
  }

  /** Heap pages not handed out yet carry no entry. */
  ghost predicate HeapAbove(vm: Vm)
    requires Shape(vm)
  {
    forall p: Page :: vm.next <= p < STACK_PAGE ==> vm.pages[p] == 0
  }

  /** pmm_alloc_page. */
  function Pop(vm: Vm): (r: Outcome<(Vm, Frame)>)
    requires Shape(vm)
    ensures r.Done? ==> Shape(r.value.0)
    ensures r.Fatal? <==> vm.stack == [] && vm.unused == []
  {
    if vm.stack != [] then
      var n := |vm.stack| - 1;
      var top := STACK_PAGE + n / 1024;
      Done((vm.(stack := vm.stack[..n], pages := if n % 1024 == 0 then vm.pages[top := 0] else vm.pages), vm.stack[n]))
    else if vm.unused != [] then
      Done((vm.(unused := vm.unused[1..]), vm.unused[0]))
    else
      Fatal(OutOfMemory)
  }

  /** Give page p a page table if it has none. */
  function EnsureTable(vm: Vm, p: Page): (r: Outcome<Vm>)
    requires Shape(vm) && p < WINDOW
    ensures r.Done? ==> Shape(r.value) && p / 1024 in r.value.tables
  {
    if p / 1024 in vm.tables then Done(vm)
    else
      var (popped, f) :- Pop(vm);
      Done(popped.(tables := popped.tables[p / 1024 := f]))
  }

  /** vmm_map_page. */
  function MapPage(vm: Vm, f: Frame, p: Page): (r: Outcome<Vm>)
    requires Shape(vm) && p < WINDOW
    ensures r.Done? ==> Shape(r.value)
  {
    var v :- EnsureTable(vm, p);
    if Present(v.pages[p]) then Fatal(AlreadyMapped) else Done(v.(pages := v.pages[p := Entry(f, MAPPING)]))
  }

  /** vmm_unmap_page. The store to a missing page table faults and creates it first. */
  function UnmapPage(vm: Vm, p: Page): (r: Outcome<Vm>)
    requires Shape(vm) && p < WINDOW
    ensures r.Done? ==> Shape(r.value)
  {
    var v :- EnsureTable(vm, p);
    Done(v.(pages := v.pages[p := 0]))
  }

  /** pmm_free_page. */
  function Push(vm: Vm, f: Frame): (r: Outcome<Vm>)
    requires Shape(vm) && |vm.stack| < FRAMES
    ensures r.Done? ==> Shape(r.value)
  {
    if |vm.stack| % 1024 == 0 then
      var v :- MapPage(vm, f, STACK_PAGE + |vm.stack| / 1024);
      Done(v.(stack := v.stack + [f]))
    else
      Done(vm.(stack := vm.stack + [f]))
  }

  /** One turn of the vmm_alloc loop: reserve page `next`. */
  function Reserve(vm: Vm): (r: Outcome<Vm>)
    requires Shape(vm) && vm.next < WINDOW
    ensures r.Done? ==> Shape(r.value) && r.value.next == vm.next + 1
  {
    var v :- EnsureTable(vm, vm.next);
    Done(v.(pages := v.pages[v.next := PAGE_ALLOCATED], next := v.next + 1))
  }

  /** The vmm_alloc loop over n pages. */
  function ReserveMany(vm: Vm, n: nat): (r: Outcome<Vm>)
    requires Shape(vm) && vm.next + n <= WINDOW
    ensures r.Done? ==> Shape(r.value) && r.value.next == vm.next + n
    decreases n
  {
    if n == 0 then Done(vm)
    else
      var v :- ReserveMany(vm, n - 1);
      Reserve(v)
  }

  /** The vmm_map loop: n consecutive frames from f (modulo the address space) on pages from p. */
  function MapMany(vm: Vm, f: Frame, p: nat, n: nat): (r: Outcome<Vm>)
    requires Shape(vm) && p + n <= WINDOW
    ensures r.Done? ==> Shape(r.value)
    decreases n
  {
    if n == 0 then Done(vm)
    else
      var v :- MapMany(vm, f, p, n - 1);
      MapPage(v, (f + n - 1) % FRAMES, p + n - 1)
  }

  /** The vmm_unmap loop. */
  function UnmapMany(vm: Vm, p: nat, n: nat): (r: Outcome<Vm>)
    requires Shape(vm) && p + n <= WINDOW
    ensures r.Done? ==> Shape(r.value)
    decreases n
  {
    if n == 0 then Done(vm)
    else
      var v :- UnmapMany(vm, p, n - 1);
      UnmapPage(v, p + n - 1)
  }

  /** Entry the page-fault handler installs: kernel pages are global. */
  function DemandEntry(f: Frame, p: Page): Word {
    Entry(f, if p >= KERNEL_SPACE_PAGE then DEMAND else MAPPING)
  }

  /** vmm_page_fault_handler for a write to page p, below the window, that is not present. */
  function Fault(vm: Vm, p: Page): (r: Outcome<(Vm, Frame)>)
    requires Shape(vm) && p < WINDOW
    ensures r.Done? ==> Shape(r.value.0)
  {
    if p / 1024 !in vm.tables || !Allocated(vm.pages[p]) then Fatal(UnhandledFault)
    else
      var (v, f) :- Pop(vm);
      Done((v.(pages := v.pages[p := DemandEntry(f, p)]), f))
  }

  // ---------- every operation keeps Ok ----------

  /** Distinct numbers below n number at most n. */
  lemma {:induction false} Pigeonhole(s: seq<nat>, n: nat)
    requires Distinct(s) && forall i :: 0 <= i < |s| ==> s[i] < n
    ensures |s| <= n
    decreases n
  {
    if s != [] {
      assert s[0] < n;
      if n - 1 in s {
        var k :| 0 <= k < |s| && s[k] == n - 1;
        Pigeonhole(s[..k] + s[k + 1..], n - 1);
      } else {
        Pigeonhole(s, n - 1);
      }
    }
  }

  lemma StackBound(vm: Vm)
    requires Shape(vm) && FramesApart(vm)
    ensures |vm.stack| < FRAMES
  {
    Pigeonhole(vm.stack + [vm.dir], FRAMES);
  }

  /** Pages below the window that are not part of the free stack. */
  predicate Ordinary(p: Page) {
    p < WINDOW && !(STACK_PAGE <= p < STACK_END)
  }

  /** Entries outside the free-stack area are as before. */
  ghost predicate SameOutside(vm: Vm, v: Vm)
    requires Shape(vm) && Shape(v)
  {
    && v.next == vm.next
    && (forall p: Page :: Ordinary(p) ==> v.pages[p] == vm.pages[p])
  }

  /** The only frames that left the free list became page tables; no frame joined it. */
  ghost predicate Grown(vm: Vm, v: Vm) {
    && v.dir == vm.dir
    && (forall i :: i in vm.tables ==> i in v.tables && v.tables[i] == vm.tables[i])
    && (forall i :: i in v.tables && i !in vm.tables ==> IsFree(vm, v.tables[i]))
    && (forall g: Frame :: IsFree(v, g) ==> IsFree(vm, g))
    && (forall g: Frame :: IsFree(vm, g) && !IsFree(v, g) ==> g in v.tables.Values)
  }

  lemma GrownSelf(a: Vm)
    ensures Grown(a, a)
  {
  }

  lemma GrownTwice(a: Vm, b: Vm, c: Vm)
    requires Grown(a, b) && Grown(b, c)
    ensures Grown(a, c)
  {
    forall g: Frame | IsFree(a, g) && !IsFree(c, g) ensures g in c.tables.Values {
      if !IsFree(b, g) {
        var i :| i in b.tables && b.tables[i] == g;
        assert c.tables[i] == g;
      }
    }
  }

  lemma PopOk(vm: Vm, except: nat)
    requires OkExcept(vm, except) && Pop(vm).Done?
    ensures var (v, f) := Pop(vm).value;
            && OkExcept(v, except) && SameOutside(vm, v)
            && v.tables == vm.tables && v.dir == vm.dir
            && IsFree(vm, f) && !IsFree(v, f)
            && (forall g: Frame :: g != f ==> (IsFree(v, g) <==> IsFree(vm, g)))
  {
  }

  /** No mapped page of the free stack is backed by the frame just handed out. */
  lemma PopNotBacking(vm: Vm, p: Page)
    requires Ok(vm) && Pop(vm).Done? && STACK_PAGE <= p < STACK_END
    ensures var (v, f) := Pop(vm).value; Present(v.pages[p]) ==> FrameOf(v.pages[p]) != f
  {
    PopOk(vm, FRAMES);
    var (v, f) := Pop(vm).value;
    var j := p - STACK_PAGE;
    if 1024 * j < |v.stack| {
      assert IsFree(v, v.stack[1024 * j]);
    }
  }

  /** A missing stack page table means an empty stack. */
  lemma NoStackTable(vm: Vm)
    requires OkExcept(vm, FRAMES) && STACK_PAGE / 1024 !in vm.tables
    ensures vm.stack == []
  {
    assert vm.pages[STACK_PAGE] == StackEntry(vm.stack, 0);
  }

  lemma EnsureTableOk(vm: Vm, p: Page)
    requires OkExcept(vm, FRAMES) && p < WINDOW && EnsureTable(vm, p).Done?
    ensures var v := EnsureTable(vm, p).value;
            OkExcept(v, FRAMES) && SameOutside(vm, v) && Grown(vm, v)
    ensures var v := EnsureTable(vm, p).value;
            STACK_PAGE <= p < STACK_END ==> v.pages == vm.pages && v.stack == vm.stack
  {
    if p / 1024 !in vm.tables {
      PopOk(vm, FRAMES);
      var v := EnsureTable(vm, p).value;
      assert v.tables[p / 1024] in v.tables.Values;
      if STACK_PAGE <= p < STACK_END {
        NoStackTable(vm);
      }
    }
  }

  lemma MapPageOk(vm: Vm, f: Frame, p: Page)
    requires OkExcept(vm, FRAMES) && p < WINDOW && MapPage(vm, f, p).Done?
    ensures var w := EnsureTable(vm, p).value; var v := MapPage(vm, f, p).value;
            && !Present(w.pages[p]) && v == w.(pages := w.pages[p := Entry(f, MAPPING)])
            && OkExcept(v, p) && Grown(vm, v)
            && (!(STACK_PAGE <= p < STACK_END) ==> OkExcept(v, FRAMES))
  {
    EnsureTableOk(vm, p);
  }

  /** Unmapping a page of the free stack, which pmm_alloc_page does, leaves only that page to be accounted for. */
  lemma UnmapPageOk(vm: Vm, p: Page)
    requires OkExcept(vm, FRAMES) && p < WINDOW && UnmapPage(vm, p).Done?
    ensures var w := EnsureTable(vm, p).value; var v := UnmapPage(vm, p).value;
            && v == w.(pages := w.pages[p := 0]) && OkExcept(v, p) && Grown(vm, v)
            && (Ordinary(p) ==> OkExcept(v, FRAMES))
  {
    EnsureTableOk(vm, p);
    hide EnsureTable, FramesApart, StackEntry;
    SameFrames(EnsureTable(vm, p).value, UnmapPage(vm, p).value);
  }

  lemma SameFrames(vm: Vm, v: Vm)
    requires v.dir == vm.dir && v.tables == vm.tables && v.stack == vm.stack && v.unused == vm.unused
    ensures FramesApart(v) == FramesApart(vm) && (forall a :: Grown(a, v) == Grown(a, vm))
  {
  }

  /**
   Freeing a frame fails only when the stack needs its page table and there is no frame
   for it: the panic is then "out of memory", raised by a free. The page the stack grows
   into is never occupied.
   */
  lemma PushOutcome(vm: Vm, f: Frame)
    requires OkExcept(vm, FRAMES)
    ensures |vm.stack| < FRAMES
    ensures Push(vm, f).Fatal? <==> STACK_PAGE / 1024 !in vm.tables && vm.unused == []
    ensures Push(vm, f).Fatal? ==> Push(vm, f).why == OutOfMemory
  {
    StackBound(vm);
    var n := |vm.stack|;
    var p := STACK_PAGE + n / 1024;
    if STACK_PAGE / 1024 !in vm.tables {
      NoStackTable(vm);
    }
    if n % 1024 == 0 && EnsureTable(vm, p).Done? {
      EnsureTableOk(vm, p);
      assert vm.pages[p] == StackEntry(vm.stack, n / 1024);
    }
  }

  /** Push in two steps: the page and its table, if the stack needs them, and then the frame. */
  lemma PushForm(vm: Vm, f: Frame) returns (w: Vm)
    requires OkExcept(vm, FRAMES) && |vm.stack| < FRAMES && Push(vm, f).Done?
    ensures OkExcept(w, FRAMES) && SameOutside(vm, w) && Grown(vm, w) && w.stack == vm.stack
    ensures var p := STACK_PAGE + |vm.stack| / 1024; var v := Push(vm, f).value;
            p < STACK_END && p / 1024 in w.tables && v == w.(stack := w.stack + [f], pages := w.pages[p := v.pages[p]])
  {
    hide FramesApart, StackMapped;
    GrownSelf(vm);
    w := vm;
    if |vm.stack| % 1024 == 0 {
      EnsureTableOk(vm, STACK_PAGE + |vm.stack| / 1024);
      w := EnsureTable(vm, STACK_PAGE + |vm.stack| / 1024).value;
    } else if STACK_PAGE / 1024 !in vm.tables {
      NoStackTable(vm);
    }
  }

  lemma FramePushed(w: Vm, v: Vm, f: Frame)
    requires FramesApart(w) && !IsFree(w, f) && f != w.dir && forall i :: i in w.tables ==> w.tables[i] != f
    requires v == w.(stack := w.stack + [f], pages := v.pages)
    ensures FramesApart(v) && forall g: Frame :: IsFree(v, g) <==> IsFree(w, g) || g == f
  {
  }

  /** A frame that was neither free nor a page table has not become one. */
  lemma NotTable(vm: Vm, w: Vm, f: Frame)
    requires Grown(vm, w) && !IsFree(vm, f) && f != vm.dir && forall i :: i in vm.tables ==> vm.tables[i] != f
    ensures !IsFree(w, f) && f != w.dir && forall i :: i in w.tables ==> w.tables[i] != f
  {
  }

  lemma PushOk(vm: Vm, f: Frame)
    requires OkExcept(vm, FRAMES) && |vm.stack| < FRAMES && Push(vm, f).Done?
    requires !IsFree(vm, f) && f != vm.dir && forall i :: i in vm.tables ==> vm.tables[i] != f
    ensures var v := Push(vm, f).value;
            && OkExcept(v, FRAMES) && SameOutside(vm, v)
            && v.stack == vm.stack + [f] && v.dir == vm.dir
            && (forall i :: i in vm.tables ==> i in v.tables && v.tables[i] == vm.tables[i])
            && (forall g: Frame :: IsFree(v, g) ==> IsFree(vm, g) || g == f)
            && (forall i :: i in v.tables && i !in vm.tables ==> IsFree(vm, v.tables[i]))
            && (forall g: Frame :: IsFree(vm, g) && !IsFree(v, g) ==> g in v.tables.Values)
  {
    hide StackMapped, StackEntry, FramesApart;
    StackBound(vm);
    var w := PushForm(vm, f);
    NotTable(vm, w, f);
    FramePushed(w, Push(vm, f).value, f);
    PushMapped(vm, f);
    hide Push;
  }

  lemma PushMapped(vm: Vm, f: Frame)
    requires OkExcept(vm, FRAMES) && |vm.stack| < FRAMES && Push(vm, f).Done?
    ensures StackMapped(Push(vm, f).value, FRAMES)
  {
    hide FramesApart;
    var n := |vm.stack|;
    var v := Push(vm, f).value;
    var p := STACK_PAGE + n / 1024;
    if n % 1024 == 0 {
      EnsureTableOk(vm, p);
    }
    forall q: Page | STACK_PAGE <= q < STACK_END
      ensures v.pages[q] == StackEntry(v.stack, q - STACK_PAGE)
    {
      StackGrows(vm.stack, f, q - STACK_PAGE);
    }
  }

  /** One more frame on the stack changes the entry of the page it starts, if any. */
  lemma StackGrows(stack: seq<Frame>, f: Frame, j: nat)
    ensures StackEntry(stack + [f], j) == if 1024 * j == |stack| then Entry(f, MAPPING) else StackEntry(stack, j)
  {
  }

  /** Freeing a frame and allocating again hands back that frame and leaves the free list as it was. */
  lemma PushPop(vm: Vm, f: Frame)
    requires OkExcept(vm, FRAMES) && |vm.stack| < FRAMES && Push(vm, f).Done?
    requires !IsFree(vm, f) && f != vm.dir && forall i :: i in vm.tables ==> vm.tables[i] != f
    ensures var v := Push(vm, f).value;
            && Pop(v).Done? && Pop(v).value.1 == f
            && Pop(v).value.0.stack == vm.stack
            && Pop(v).value.0.pages == vm.pages
            && (STACK_PAGE / 1024 in vm.tables ==> Pop(v).value.0 == vm)
  {
    PushOk(vm, f);
    var v := Push(vm, f).value;
    var w := Pop(v).value.0;
    PopOk(v, FRAMES);
    forall p: Page | p < WINDOW ensures w.pages[p] == vm.pages[p] {
      if STACK_PAGE <= p < STACK_END {
        assert w.pages[p] == StackEntry(vm.stack, p - STACK_PAGE);
      }
    }
  }
}

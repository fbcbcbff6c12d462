/**
 Runs of the memory manager: any sequence of pmm_alloc_page, pmm_free_page, vmm_alloc,
 vmm_map, vmm_unmap and write faults, in any order. The frames the callers hold, the
 demand-paged pages and the heap ranges handed out are recorded beside the state.
 */
module VmRuns {
  import opened Basics
  import opened Paging
  import opened VmModel

  /** Pages of PAGE_ALIGN_UP(length), in 32-bit arithmetic. */
  function PagesUp(length: Word): nat {
    (length + 0xFFF) % 0x1_0000_0000 / 0x1000
  }

  /** Pages a caller that asked for `length` bytes will believe it owns. */
  function PagesWanted(length: Word): nat {
    (length + 0xFFF) / 0x1000
  }

  /** Pages from PAGE_ALIGN_DOWN(a) up to PAGE_ALIGN_UP(a + length), in 32-bit arithmetic. */
  function PagesSpanned(a: Word, length: Word): (n: nat)
    ensures n < FRAMES
  {
    (PagesUp((a + length) % 0x1_0000_0000) - a / 0x1000) % FRAMES
  }

  /** vmm_alloc: the new state and the address returned (0 for NULL). */
  function HeapAlloc(vm: Vm, length: Word): (r: Outcome<(Vm, Word)>)
    requires Shape(vm) && vm.next + PagesUp(length) <= WINDOW
    ensures r.Done? ==> Shape(r.value.0)
  {
    if length == 0 then Done((vm, 0))
    else
      var v :- ReserveMany(vm, PagesUp(length));
      Done((v, vm.next * 0x1000))
  }

  /** The rest of vmm_map once n pages are reserved: check the heap limit, map them, return the address of `pa`. */
  function MapReserved(vm: Vm, base: Word, pa: Word, n: nat): (r: Outcome<(Vm, Word)>)
    requires Shape(vm) && base / 0x1000 + n <= STACK_PAGE
  {
    if base + n * 0x1000 > HEAP_END * 0x1000 then Fatal(OutOfVirtualSpace)
    else
      var w :- MapMany(vm, pa / 0x1000, base / 0x1000, n);
      Done((w, base + pa % 0x1000))
  }

  /** vmm_map */
  function MapRange(vm: Vm, pa: Word, length: Word): (r: Outcome<(Vm, Word)>)
    requires Shape(vm) && vm.next + PagesSpanned(pa, length) <= STACK_PAGE
  {
    var n := PagesSpanned(pa, length);
    var (v, base) :- HeapAlloc(vm, n * 0x1000);
    MapReserved(v, base, pa, n)
  }

  lemma MapReservedIs(vm: Vm, next: nat, pa: Word, n: nat)
    requires Shape(vm) && next + n <= STACK_PAGE
    ensures MapReserved(vm, next * 0x1000, pa, n).Done? ==>
              && next + n <= HEAP_END && MapMany(vm, pa / 0x1000, next, n).Done?
              && MapReserved(vm, next * 0x1000, pa, n).value
                  == (MapMany(vm, pa / 0x1000, next, n).value, next * 0x1000 + pa % 0x1000)
  {
    hide MapMany;
  }

  /** The two loops behind a vmm_map that returns. */
  lemma MapUnfold(vm: Vm, pa: Word, length: Word)
    requires Shape(vm) && vm.next + PagesSpanned(pa, length) <= STACK_PAGE && MapRange(vm, pa, length).Done?
    requires PagesSpanned(pa, length) > 0
    ensures var n := PagesSpanned(pa, length); var w := ReserveMany(vm, n);
            && w.Done? && vm.next + n <= HEAP_END
            && var m := MapMany(w.value, pa / 0x1000, vm.next, n);
               m.Done? && MapRange(vm, pa, length).value == (m.value, vm.next * 0x1000 + pa % 0x1000)
  {
    hide PagesSpanned, PagesUp, ReserveMany, MapMany, HeapAlloc, MapReserved;
    var n := PagesSpanned(pa, length);
    WholePages(n);
    WholeHeap(vm, n);
    MapReservedIs(ReserveMany(vm, n).value, vm.next, pa, n);
  }

  lemma MapNone(vm: Vm, pa: Word, length: Word)
    requires Shape(vm) && vm.next <= STACK_PAGE && PagesSpanned(pa, length) == 0
    ensures MapRange(vm, pa, length) == Done((vm, pa % 0x1000))
  {
    NothingMapped(vm, pa / 0x1000, 0);
    hide PagesSpanned, MapMany;
  }

  lemma NothingMapped(vm: Vm, f: Frame, p: nat)
    requires Shape(vm) && p <= WINDOW
    ensures MapMany(vm, f, p, 0) == Done(vm)
  {
  }

  lemma WholeHeap(vm: Vm, n: nat)
    requires Shape(vm) && 0 < n < FRAMES && vm.next + n <= STACK_PAGE && PagesUp(n * 0x1000) == n
    ensures HeapAlloc(vm, n * 0x1000).Done? ==>
              ReserveMany(vm, n).Done? && HeapAlloc(vm, n * 0x1000).value == (ReserveMany(vm, n).value, vm.next * 0x1000)
  {
    hide PagesUp, ReserveMany;
  }

  lemma WholePages(n: nat)
    requires n < FRAMES
    ensures PagesUp(n * 0x1000) == n
  {
  }

  /** vmm_unmap. */
  function UnmapRange(vm: Vm, a: Word, length: Word): (r: Outcome<Vm>)
    requires Shape(vm) && a / 0x1000 + PagesSpanned(a, length) <= STACK_PAGE
  {
    UnmapMany(vm, a / 0x1000, PagesSpanned(a, length))
  }

  // ---------- what each loop does ----------

  lemma ReserveOk(vm: Vm)
    requires Ok(vm) && vm.next < STACK_PAGE && Reserve(vm).Done?
    ensures var v := Reserve(vm).value;
            && Ok(v) && Grown(vm, v)
            && v.pages[vm.next] == PAGE_ALLOCATED
            && forall p: Page :: Ordinary(p) && p != vm.next ==> v.pages[p] == vm.pages[p]
  {
    EnsureTableOk(vm, vm.next);
    hide EnsureTable, FramesApart, StackEntry;
    SameFrames(EnsureTable(vm, vm.next).value, Reserve(vm).value);
  }

  /** vmm_alloc marks exactly the pages from `next` on, one after the other. */
  lemma {:induction false} ReserveManyOk(vm: Vm, n: nat)
    requires Ok(vm) && vm.next + n <= STACK_PAGE && ReserveMany(vm, n).Done?
    ensures var v := ReserveMany(vm, n).value;
            && Ok(v) && Grown(vm, v)
            && (forall p: Page :: vm.next <= p < vm.next + n ==> v.pages[p] == PAGE_ALLOCATED)
            && (forall p: Page :: Ordinary(p) && !(vm.next <= p < vm.next + n) ==> v.pages[p] == vm.pages[p])
  {
    hide Ok, Grown, Reserve;
    GrownSelf(vm);
    if n > 0 {
      ReserveManyOk(vm, n - 1);
      var v := ReserveMany(vm, n - 1).value;
      ReserveOk(v);
      GrownTwice(vm, v, ReserveMany(vm, n).value);
    }
  }

  lemma MapOk(vm: Vm, f: Frame, p: Page)
    requires Ok(vm) && p < vm.next && MapPage(vm, f, p).Done?
    ensures var v := MapPage(vm, f, p).value;
            && Ok(v) && Grown(vm, v) && v.next == vm.next
            && v.pages[p] == Entry(f, MAPPING)
            && (forall q: Page :: Ordinary(q) && q != p ==> v.pages[q] == vm.pages[q])
  {
    EnsureTableOk(vm, p);
    MapPageOk(vm, f, p);
  }

  lemma MapOutcome(vm: Vm, f: Frame, p: Page)
    requires Ok(vm) && p < vm.next && !Present(vm.pages[p])
    ensures MapPage(vm, f, p).Fatal? ==> MapPage(vm, f, p).why == OutOfMemory
  {
    if EnsureTable(vm, p).Done? {
      EnsureTableOk(vm, p);
    }
  }

  /** vmm_map puts frame f + k behind page p + k, and leaves the other pages alone. */
  lemma {:induction false} MapManyOk(vm: Vm, f: Frame, p: nat, n: nat)
    requires Ok(vm) && p + n <= vm.next && MapMany(vm, f, p, n).Done?
    ensures var v := MapMany(vm, f, p, n).value;
            && Ok(v) && Grown(vm, v) && v.next == vm.next
            && (forall q: Page :: p <= q < p + n ==> v.pages[q] == Entry((f + (q - p)) % FRAMES, MAPPING))
            && (forall q: Page :: Ordinary(q) && !(p <= q < p + n) ==> v.pages[q] == vm.pages[q])
  {
    hide Ok, Grown, MapPage;
    GrownSelf(vm);
    if n > 0 {
      MapManyOk(vm, f, p, n - 1);
      var v := MapMany(vm, f, p, n - 1).value;
      MapOk(v, (f + n - 1) % FRAMES, p + n - 1);
      GrownTwice(vm, v, MapMany(vm, f, p, n).value);
    }
  }

  /** Mapping pages that hold no mapping yet can only fail for want of a page table. */
  lemma {:induction false} MapManyOutcome(vm: Vm, f: Frame, p: nat, n: nat)
    requires Ok(vm) && p + n <= vm.next
    requires forall q: Page :: p <= q < p + n ==> !Present(vm.pages[q])
    ensures MapMany(vm, f, p, n).Fatal? ==> MapMany(vm, f, p, n).why == OutOfMemory
  {
    hide Ok, Grown, MapPage;
    if n > 0 {
      MapManyOutcome(vm, f, p, n - 1);
      if MapMany(vm, f, p, n - 1).Done? {
        MapManyOk(vm, f, p, n - 1);
        MapOutcome(MapMany(vm, f, p, n - 1).value, (f + n - 1) % FRAMES, p + n - 1);
      }
    }
  }

  lemma UnmapOk(vm: Vm, p: Page)
    requires Ok(vm) && p < STACK_PAGE && UnmapPage(vm, p).Done?
    ensures var v := UnmapPage(vm, p).value;
            && Ok(v) && Grown(vm, v) && v.next == vm.next
            && v.pages[p] == 0
            && (forall q: Page :: Ordinary(q) && q != p ==> v.pages[q] == vm.pages[q])
  {
    EnsureTableOk(vm, p);
    UnmapPageOk(vm, p);
  }

  /** vmm_unmap clears exactly the pages it spans. */
  lemma {:induction false} UnmapManyOk(vm: Vm, p: nat, n: nat)
    requires Ok(vm) && p + n <= STACK_PAGE && UnmapMany(vm, p, n).Done?
    ensures var v := UnmapMany(vm, p, n).value;
            && Ok(v) && Grown(vm, v) && v.next == vm.next
            && (forall q: Page :: p <= q < p + n ==> v.pages[q] == 0)
            && (forall q: Page :: Ordinary(q) && !(p <= q < p + n) ==> v.pages[q] == vm.pages[q])
  {
    hide Ok, Grown, UnmapPage;
    GrownSelf(vm);
    if n > 0 {
      UnmapManyOk(vm, p, n - 1);
      var v := UnmapMany(vm, p, n - 1).value;
      UnmapOk(v, p + n - 1);
      GrownTwice(vm, v, UnmapMany(vm, p, n).value);
    }
  }

  lemma FaultOk(vm: Vm, p: Page)
    requires Ok(vm) && p < STACK_PAGE && Fault(vm, p).Done?
    ensures var (v, f) := Fault(vm, p).value;
            && Ok(v) && v.tables == vm.tables && v.next == vm.next && v.dir == vm.dir
            && v.pages[p] == DemandEntry(f, p) == f * 0x1000 + (if p >= 0xC0000 then 0x103 else 0x003)
            && IsFree(vm, f) && !IsFree(v, f)
            && (forall g: Frame :: g != f ==> (IsFree(v, g) <==> IsFree(vm, g)))
            && (forall q: Page :: Ordinary(q) && q != p ==> v.pages[q] == vm.pages[q])
  {
    DemandNumber(Fault(vm, p).value.1, p);
    PopOk(vm, FRAMES);
    assert Allocated(vm.pages[p]);
  }

  // ---------- runs ----------

  datatype Op =
    | AllocFrame
    | FreeFrame(f: Frame)
    | Alloc(length: Word)
    | Map(pa: Word, length: Word)
    | Unmap(a: Word, length: Word)
    | WriteFault(p: Page)

  datatype Range = Range(base: nat, size: nat)

  /**
   owned:  frames a caller got from pmm_alloc_page, or left behind by vmm_unmap, and has not freed.
   paged:  the demand-paged pages and the frame each one got.
   ranges: the heap ranges returned by vmm_alloc and vmm_map, as the callers see them.
   */
  datatype Run = Run(vm: Vm, owned: set<Frame>, paged: map<Page, Frame>, ranges: seq<Range>)

  predicate Room(vm: Vm, pages: nat) {
    vm.next + pages <= STACK_PAGE
  }

  /**
   What a caller has to respect: frees only what it was given and did not free already,
   heap requests that stay below the free stack, and unmapping outside the free stack
   and the window. Each is a test a caller can make before the call.
   */
  ghost predicate Legal(r: Run, op: Op) {
    match op
    case AllocFrame => true
    case FreeFrame(f) => f in r.owned
    case Alloc(length) => Room(r.vm, PagesWanted(length))
    case Map(pa, length) => Room(r.vm, PagesWanted(length) + 1)
    case Unmap(a, length) => a / 0x1000 + PagesSpanned(a, length) <= STACK_PAGE
    case WriteFault(p) => p < WINDOW
  }

  ghost function Within(paged: map<Page, Frame>, p: nat, n: nat): map<Page, Frame> {
    map q | q in paged && p <= q < p + n :: paged[q]
  }

  ghost function Step(r: Run, op: Op): Outcome<Run>
    requires Ok(r.vm) && Legal(r, op)
  {
    match op
    case AllocFrame =>
      var (v, f) :- Pop(r.vm);
      Done(r.(vm := v, owned := r.owned + {f}))
    case FreeFrame(f) =>
      StackBound(r.vm);
      var v :- Push(r.vm, f);
      Done(r.(vm := v, owned := r.owned - {f}))
    case Alloc(length) =>
      var (v, base) :- HeapAlloc(r.vm, length);
      Done(if length == 0 then r else r.(vm := v, ranges := r.ranges + [Range(base / 0x1000, PagesWanted(length))]))
    case Map(pa, length) =>
      var n := PagesSpanned(pa, length);
      SpanWanted(pa, length);
      var (v, at) :- MapRange(r.vm, pa, length);
      Done(if n == 0 then r else r.(vm := v, ranges := r.ranges + [Range(at / 0x1000, n)]))
    case Unmap(a, length) =>
      var v :- UnmapRange(r.vm, a, length);
      var gone := Within(r.paged, a / 0x1000, PagesSpanned(a, length));
      Done(r.(vm := v, paged := r.paged - gone.Keys, owned := r.owned + gone.Values))
    case WriteFault(p) =>
      var (v, f) :- Fault(r.vm, p);
      Done(r.(vm := v, paged := r.paged[p := f]))
  }

  lemma WrapPages(x: nat)
    requires x < 0x2_0000_0000
    ensures x % 0x1_0000_0000 / 0x1000 == x / 0x1000 % FRAMES
  {
    assert x == x / 0x1_0000_0000 * 0x1_0000_0000 + x % 0x1_0000_0000;
  }

  lemma WrapDifference(end: nat, begin: nat, n: nat, carry: int)
    requires end + carry * FRAMES == begin + n && n < FRAMES && begin < FRAMES && end < 2 * FRAMES
    ensures (end % FRAMES - begin) % FRAMES == n
  {
  }

  /** Unless the bytes wrap around the address space, the span is every page the bytes touch. */
  lemma SpanExact(a: Word, length: Word)
    requires PagesWanted(length) + 1 < FRAMES
    ensures PagesSpanned(a, length) == (a % 0x1000 + length + 0xFFF) / 0x1000
  {
    var up := (a + length) % 0x1_0000_0000 + 0xFFF;
    var carry := (a + length) / 0x1_0000_0000;
    WrapPages(up);
    assert up / 0x1000 + carry * FRAMES == a / 0x1000 + (a % 0x1000 + length + 0xFFF) / 0x1000;
    WrapDifference(up / 0x1000, a / 0x1000, (a % 0x1000 + length + 0xFFF) / 0x1000, carry);
  }

  lemma SpanWanted(pa: Word, length: Word)
    ensures PagesSpanned(pa, length) <= PagesWanted(length) + 1
  {
    if PagesWanted(length) + 1 < FRAMES {
      SpanExact(pa, length);
      hide PagesSpanned;
    }
  }

  /** Frames no caller may be given: free ones excepted, these are the kernel's own and the held ones. */
  ghost predicate Held(r: Run, f: Frame) {
    f in r.owned || f in r.paged.Values
  }

  ghost predicate Kernels(vm: Vm, f: Frame) {
    f == vm.dir || f in vm.tables.Values
  }

  ghost predicate HeldApart(r: Run) {
    && (forall f: Frame :: Held(r, f) ==> !IsFree(r.vm, f) && !Kernels(r.vm, f))
    && (forall p :: p in r.paged ==> r.paged[p] !in r.owned)
    && (forall p, q :: p in r.paged && q in r.paged && p != q ==> r.paged[p] != r.paged[q])
  }

  ghost predicate PagedMapped(r: Run)
    requires Shape(r.vm)
  {
    forall p :: p in r.paged ==> p < STACK_PAGE && r.vm.pages[p] == DemandEntry(r.paged[p], p)
  }

  ghost predicate RangesApart(r: Run) {
    && (forall i :: 0 <= i < |r.ranges| ==> HEAP_BEGIN <= r.ranges[i].base && r.ranges[i].base + r.ranges[i].size <= r.vm.next)
    && (forall i, j :: 0 <= i < j < |r.ranges| ==> r.ranges[i].base + r.ranges[i].size <= r.ranges[j].base)
  }

  /** Only heap pages are ever marked allocated-on-demand. */
  ghost predicate AllocatedBelow(vm: Vm)
    requires Shape(vm)
  {
    forall p: Page :: p < WINDOW && Allocated(vm.pages[p]) ==> HEAP_BEGIN <= p < vm.next && vm.pages[p] == PAGE_ALLOCATED
  }

  ghost predicate RunOk(r: Run)
    ensures RunOk(r) ==> Ok(r.vm)
  {
    && Ok(r.vm)
    && AllocatedBelow(r.vm)
    && HeldApart(r)
    && PagedMapped(r)
    && RangesApart(r)
  }

  // ---------- every step keeps RunOk ----------

  lemma StepAlloc(r: Run)
    requires RunOk(r) && Pop(r.vm).Done?
    ensures var (v, f) := Pop(r.vm).value;
            && RunOk(r.(vm := v, owned := r.owned + {f}))
            && !Held(r, f) && !Kernels(r.vm, f)
  {
    PopOk(r.vm, FRAMES);
    PopBelow(r.vm);
  }

  lemma PopBelow(vm: Vm)
    requires Ok(vm) && AllocatedBelow(vm) && Pop(vm).Done?
    ensures Ok(Pop(vm).value.0) && AllocatedBelow(Pop(vm).value.0)
  {
    PopOk(vm, FRAMES);
  }

  /** Operations that only grow page tables leave the frames of callers alone. */
  lemma GrownApart(r: Run, v: Vm)
    requires HeldApart(r) && FramesApart(r.vm) && Grown(r.vm, v)
    ensures HeldApart(r.(vm := v))
  {
  }

  lemma StepFree(r: Run, f: Frame)
    requires RunOk(r) && f in r.owned && |r.vm.stack| < FRAMES && Push(r.vm, f).Done?
    ensures RunOk(r.(vm := Push(r.vm, f).value, owned := r.owned - {f}))
  {
    var v := Push(r.vm, f).value;
    assert Held(r, f);
    PushOk(r.vm, f);
    PushBelow(r.vm, f);
    var s := r.(vm := v, owned := r.owned - {f});
    forall g: Frame | Held(s, g) ensures !IsFree(v, g) && !Kernels(v, g) {
      assert Held(r, g) && g != f;
    }
  }

  lemma PushBelow(vm: Vm, f: Frame)
    requires Ok(vm) && AllocatedBelow(vm) && |vm.stack| < FRAMES && Push(vm, f).Done?
    requires !IsFree(vm, f) && !Kernels(vm, f)
    ensures Ok(Push(vm, f).value) && AllocatedBelow(Push(vm, f).value)
  {
    PushOk(vm, f);
    hide Push, OkExcept;
    var v := Push(vm, f).value;
    assert HeapAbove(v);
    hide HeapAbove, Ok;
    AllocatedKept(vm, v, 0, 0);
  }

  lemma StepReserve(r: Run, n: nat)
    requires RunOk(r) && Room(r.vm, n) && ReserveMany(r.vm, n).Done?
    ensures var v := ReserveMany(r.vm, n).value;
            && RunOk(r.(vm := v, ranges := r.ranges + [Range(r.vm.next, n)]))
            && Grown(r.vm, v)
  {
    var v := ReserveMany(r.vm, n).value;
    ReserveManyOk(r.vm, n);
    GrownApart(r, v);
    ReserveBelow(r.vm, n);
    PagedKept(r, v, r.vm.next, n);
  }

  lemma ReserveBelow(vm: Vm, n: nat)
    requires Ok(vm) && AllocatedBelow(vm) && Room(vm, n) && ReserveMany(vm, n).Done?
    ensures AllocatedBelow(ReserveMany(vm, n).value)
  {
    ReserveManyOk(vm, n);
    StackNotAllocated(ReserveMany(vm, n).value);
  }

  lemma StackNotAllocated(vm: Vm)
    requires Ok(vm)
    ensures forall p: Page :: STACK_PAGE <= p < STACK_END ==> !Allocated(vm.pages[p])
  {
  }

  /** Demand-paged pages keep their frame when only pages p .. p+n-1, none of them demand-paged, change. */
  lemma PagedKept(r: Run, v: Vm, p: nat, n: nat)
    requires RunOk(r) && Shape(v)
    requires forall q: Page :: Ordinary(q) && !(p <= q < p + n) ==> v.pages[q] == r.vm.pages[q]
    requires forall q :: p <= q < p + n ==> q !in r.paged
    ensures PagedMapped(r.(vm := v))
  {
  }

  lemma PagedBelow(r: Run)
    requires RunOk(r)
    ensures forall p :: p in r.paged ==> p < r.vm.next
  {
    forall p | p in r.paged ensures p < r.vm.next {
      assert r.vm.pages[p] != 0;
    }
  }

  lemma AllocatedKept(vm: Vm, v: Vm, p: nat, n: nat)
    requires Ok(vm) && Ok(v) && AllocatedBelow(vm) && v.next == vm.next
    requires forall q: Page :: Ordinary(q) && !(p <= q < p + n) ==> v.pages[q] == vm.pages[q]
    requires forall q: Page :: Ordinary(q) && p <= q < p + n ==> !Allocated(v.pages[q])
    ensures AllocatedBelow(v)
  {
    StackNotAllocated(v);
  }

  lemma EntryBits(f: Frame, flags: nat)
    requires flags < 0x1000
    ensures Allocated(Entry(f, flags)) == (flags / 0x200 % 2 == 1) && Present(Entry(f, flags)) == (flags % 2 == 1)
    ensures Writable(Entry(f, flags)) == (flags / 2 % 2 == 1)
  {
    var q, r := flags / 0x200, flags % 0x200;
    EntryWritable(f, flags);
    Quotient(8 * f + q, r);
    Halves(4 * f, q);
    Halves(0x800 * f, flags);
  }

  lemma EntryWritable(f: Frame, flags: nat)
    requires flags < 0x1000
    ensures Writable(Entry(f, flags)) == (flags / 2 % 2 == 1)
  {
    assert (0x1000 * f + flags) / 2 == 0x800 * f + flags / 2;
    Halves(0x400 * f, flags / 2);
  }

  lemma Quotient(k: nat, r: nat)
    requires r < 0x200
    ensures (0x200 * k + r) / 0x200 == k
  {
  }

  lemma Halves(k: nat, q: nat)
    ensures (2 * k + q) % 2 == q % 2
  {
  }

  lemma MappingNotAllocated(f: Frame)
    ensures !Allocated(Entry(f, MAPPING)) && Present(Entry(f, MAPPING)) && !Allocated(0) && !Present(0)
    ensures !Allocated(Entry(f, DEMAND)) && Present(Entry(f, DEMAND))
    ensures Allocated(PAGE_ALLOCATED) && !Present(PAGE_ALLOCATED)
    ensures Writable(Entry(f, MAPPING)) && Writable(Entry(f, DEMAND))
  {
    EntryBits(f, MAPPING);
    EntryBits(f, DEMAND);
    hide Entry;
  }

  lemma StepMapMany(r: Run, f: Frame, p: nat, n: nat)
    requires RunOk(r) && p + n <= r.vm.next && MapMany(r.vm, f, p, n).Done?
    requires forall q :: p <= q < p + n ==> q !in r.paged
    ensures RunOk(r.(vm := MapMany(r.vm, f, p, n).value)) && Grown(r.vm, MapMany(r.vm, f, p, n).value)
  {
    hide Ok, Grown, HeldApart, PagedMapped, Allocated, Entry, MapMany;
    var v := MapMany(r.vm, f, p, n).value;
    MapManyOk(r.vm, f, p, n);
    OkApart(r.vm);
    GrownApart(r, v);
    PagedKept(r, v, p, n);
    forall q: Page | Ordinary(q) && p <= q < p + n ensures !Allocated(v.pages[q]) {
      MappingNotAllocated((f + (q - p)) % FRAMES);
    }
    AllocatedKept(r.vm, v, p, n);
  }

  lemma OkApart(vm: Vm)
    requires Ok(vm)
    ensures FramesApart(vm)
  {
  }

  lemma StepMap(r: Run, pa: Word, length: Word)
    requires RunOk(r) && Legal(r, Map(pa, length)) && Step(r, Map(pa, length)).Done?
    ensures var s := Step(r, Map(pa, length)).value; RunOk(s) && Grown(r.vm, s.vm) && s.owned == r.owned && s.paged == r.paged
  {
    hide Ok, Grown, RunOk, ReserveMany, MapMany, MapRange, PagesSpanned;
    var n := PagesSpanned(pa, length);
    SpanWanted(pa, length);
    GrownSelf(r.vm);
    if n == 0 {
      MapNone(r.vm, pa, length);
    } else {
      MapUnfold(r.vm, pa, length);
      StepReserve(r, n);
      PagedBelow(r);
      var v := ReserveMany(r.vm, n).value;
      StepMapMany(r.(vm := v, ranges := r.ranges + [Range(r.vm.next, n)]), pa / 0x1000, r.vm.next, n);
      GrownTwice(r.vm, v, MapMany(v, pa / 0x1000, r.vm.next, n).value);
    }
  }

  lemma StepUnmap(r: Run, p: nat, n: nat)
    requires RunOk(r) && p + n <= STACK_PAGE && UnmapMany(r.vm, p, n).Done?
    ensures var gone := Within(r.paged, p, n);
            var v := UnmapMany(r.vm, p, n).value;
            && RunOk(r.(vm := v, paged := r.paged - gone.Keys, owned := r.owned + gone.Values))
            && Grown(r.vm, v)
  {
    hide Ok, Grown, Allocated, UnmapMany;
    var gone := Within(r.paged, p, n);
    var v := UnmapMany(r.vm, p, n).value;
    UnmapManyOk(r.vm, p, n);
    OkApart(r.vm);
    GrownApart(r, v);
    MappingNotAllocated(0);
    AllocatedKept(r.vm, v, p, n);
    GoneOwned(r.(vm := v), gone);
  }

  /** Unmapped demand-paged frames become the caller's: no frame is lost, none is held twice. */
  lemma GoneOwned(r: Run, gone: map<Page, Frame>)
    requires HeldApart(r) && forall q :: q in gone ==> q in r.paged && r.paged[q] == gone[q]
    ensures var s := r.(paged := r.paged - gone.Keys, owned := r.owned + gone.Values);
            HeldApart(s) && forall f: Frame :: Held(s, f) <==> Held(r, f)
  {
    var s := r.(paged := r.paged - gone.Keys, owned := r.owned + gone.Values);
    forall f: Frame ensures Held(s, f) <==> Held(r, f) {
      if f in r.paged.Values {
        var q :| q in r.paged && r.paged[q] == f;
        if q in gone {
          assert gone[q] in gone.Values;
        } else {
          assert s.paged[q] == f;
        }
      }
    }
  }

  lemma DemandNumber(f: Frame, p: Page)
    ensures DemandEntry(f, p) == f * 0x1000 + if p >= 0xC0000 then 0x103 else 0x003
  {
  }

  lemma DemandMapped(f: Frame, p: Page)
    ensures !Allocated(DemandEntry(f, p)) && Present(DemandEntry(f, p)) && FrameOf(DemandEntry(f, p)) == f
    ensures Writable(DemandEntry(f, p))
    ensures DemandEntry(f, p) == f * 0x1000 + if p >= 0xC0000 then 0x103 else 0x003
  {
    DemandNumber(f, p);
    MappingNotAllocated(f);
    hide Entry, Allocated, Present, FrameOf, Writable;
  }

  lemma StepFault(r: Run, p: Page)
    requires RunOk(r) && p < WINDOW && Fault(r.vm, p).Done?
    ensures var (v, f) := Fault(r.vm, p).value;
            && RunOk(r.(vm := v, paged := r.paged[p := f]))
            && !Held(r, f) && !Kernels(r.vm, f)
  {
    hide Ok, Allocated, DemandEntry, Fault, Present;
    NotPagedYet(r, p);
    FaultOk(r.vm, p);
    var (v, f) := Fault(r.vm, p).value;
    DemandMapped(f, p);
    AllocatedKept(r.vm, v, p, 1);
    FreeNotKernels(r.vm, f);
    HeldMore(r, v, p, f);
  }

  lemma HeldMore(r: Run, v: Vm, p: Page, f: Frame)
    requires HeldApart(r) && IsFree(r.vm, f) && !IsFree(v, f) && p !in r.paged
    requires v.tables == r.vm.tables && v.dir == r.vm.dir && !Kernels(r.vm, f)
    requires forall g: Frame :: g != f ==> (IsFree(v, g) <==> IsFree(r.vm, g))
    ensures HeldApart(r.(vm := v, paged := r.paged[p := f])) && !Held(r, f)
  {
    PagedValues(r.paged, p, f);
    var s := r.(vm := v, paged := r.paged[p := f]);
    assert forall g: Frame :: Held(s, g) ==> g == f || Held(r, g);
    assert !Held(r, f);
    assert forall q :: q in r.paged ==> r.paged[q] in r.paged.Values;
  }

  lemma FreeNotKernels(vm: Vm, f: Frame)
    requires Ok(vm) && IsFree(vm, f)
    ensures !Kernels(vm, f)
  {
  }

  /** Every frame is free, the kernel's own, or held: this is what no operation changes. */
  ghost predicate Accounted(r: Run, f: Frame) {
    IsFree(r.vm, f) || Kernels(r.vm, f) || Held(r, f)
  }

  ghost predicate SameAccounts(r: Run, s: Run) {
    forall f: Frame :: Accounted(s, f) <==> Accounted(r, f)
  }

  /** Growing page tables moves frames from the free list to the kernel; the callers keep what they hold. */
  lemma GrownAccounts(r: Run, s: Run)
    requires Grown(r.vm, s.vm) && forall f: Frame :: Held(s, f) <==> Held(r, f)
    ensures SameAccounts(r, s)
  {
    forall f: Frame ensures Accounted(s, f) <==> Accounted(r, f) {
      if f in s.vm.tables.Values {
        var i :| i in s.vm.tables && s.vm.tables[i] == f;
        assert i in r.vm.tables ==> f in r.vm.tables.Values;
      }
      if f in r.vm.tables.Values {
        var i :| i in r.vm.tables && r.vm.tables[i] == f;
        assert s.vm.tables[i] in s.vm.tables.Values;
      }
    }
  }

  lemma FreeAccounts(r: Run, f: Frame)
    requires RunOk(r) && f in r.owned && |r.vm.stack| < FRAMES && Push(r.vm, f).Done?
    ensures SameAccounts(r, r.(vm := Push(r.vm, f).value, owned := r.owned - {f}))
  {
    var s := r.(vm := Push(r.vm, f).value, owned := r.owned - {f});
    assert Held(r, f);
    PushOk(r.vm, f);
    assert s.vm.stack[|r.vm.stack|] == f;
    forall g: Frame ensures Accounted(s, g) <==> Accounted(r, g) {
      if g in s.vm.tables.Values {
        var i :| i in s.vm.tables && s.vm.tables[i] == g;
        assert i in r.vm.tables ==> g in r.vm.tables.Values;
      }
      if g in r.vm.tables.Values {
        var i :| i in r.vm.tables && r.vm.tables[i] == g;
        assert s.vm.tables[i] in s.vm.tables.Values;
      }
    }
  }

  lemma AllocAccounts(r: Run)
    requires RunOk(r) && Pop(r.vm).Done?
    ensures var (v, f) := Pop(r.vm).value; SameAccounts(r, r.(vm := v, owned := r.owned + {f}))
  {
    PopOk(r.vm, FRAMES);
  }

  lemma FaultAccounts(r: Run, p: Page)
    requires RunOk(r) && p < WINDOW && Fault(r.vm, p).Done?
    ensures var (v, f) := Fault(r.vm, p).value; SameAccounts(r, r.(vm := v, paged := r.paged[p := f]))
  {
    hide Ok, PagedMapped, HeldApart, RangesApart;
    FaultOk(r.vm, p);
    NotPagedYet(r, p);
    PagedValues(r.paged, p, Fault(r.vm, p).value.1);
  }

  lemma NotPagedYet(r: Run, p: Page)
    requires RunOk(r) && p < WINDOW && Fault(r.vm, p).Done?
    ensures p !in r.paged && p < STACK_PAGE
  {
    hide Pop, FramesApart, HeldApart, RangesApart;
    if p in r.paged {
      MappingNotAllocated(r.paged[p]);
      DemandMapped(r.paged[p], p);
    } else if p >= STACK_PAGE {
      StackNotAllocated(r.vm);
    }
  }

  lemma PagedValues(paged: map<Page, Frame>, p: Page, f: Frame)
    requires p !in paged
    ensures paged[p := f].Values == paged.Values + {f}
  {
    var after := paged[p := f];
    forall g | g in paged.Values + {f} ensures g in after.Values {
      if g in paged.Values {
        var q :| q in paged && paged[q] == g;
        assert after[q] == g;
      } else {
        assert after[p] == g;
      }
    }
  }

  /** One legal step keeps RunOk and neither loses nor invents a frame. */
  lemma StepOk(r: Run, op: Op)
    requires RunOk(r) && Legal(r, op) && Step(r, op).Done?
    ensures RunOk(Step(r, op).value) && SameAccounts(r, Step(r, op).value)
  {
    hide Ok, RunOk, Grown, SameAccounts, MapMany, UnmapMany, ReserveMany, Pop, Push, Fault;
    var s := Step(r, op).value;
    match op
    case AllocFrame =>
      StepAlloc(r);
      AllocAccounts(r);
    case FreeFrame(f) =>
      StackBoundOk(r.vm);
      StepFree(r, f);
      FreeAccounts(r, f);
    case Alloc(length) =>
      GrownSelf(r.vm);
      if length != 0 {
        assert PagesUp(length) == PagesWanted(length);
        StepReserve(r, PagesUp(length));
      }
      GrownAccounts(r, s);
    case Map(pa, length) =>
      StepMap(r, pa, length);
      GrownAccounts(r, s);
    case Unmap(a, length) =>
      var p, n := a / 0x1000, PagesSpanned(a, length);
      StepUnmap(r, p, n);
      RunApart(r);
      GoneOwned(r, Within(r.paged, p, n));
      GrownAccounts(r, s);
    case WriteFault(p) =>
      StepFault(r, p);
      FaultAccounts(r, p);
  }

  lemma StackBoundOk(vm: Vm)
    requires Ok(vm)
    ensures |vm.stack| < FRAMES
  {
    StackBound(vm);
  }

  lemma RunApart(r: Run)
    requires RunOk(r)
    ensures HeldApart(r)
  {
  }

  /** Each operation of the run respects Legal and does not halt the machine. */
  ghost predicate LegalRun(r: Run, ops: seq<Op>)
    requires RunOk(r)
    decreases ops
  {
    if ops == [] then true
    else if Legal(r, ops[0]) && Step(r, ops[0]).Done? then
      StepOk(r, ops[0]);
      LegalRun(Step(r, ops[0]).value, ops[1..])
    else false
  }

  ghost function After(r: Run, ops: seq<Op>): (s: Run)
    requires RunOk(r) && LegalRun(r, ops)
    ensures RunOk(s)
    decreases ops
  {
    if ops == [] then r
    else
      StepOk(r, ops[0]);
      After(Step(r, ops[0]).value, ops[1..])
  }

  /** Frames are conserved by every run. */
  lemma {:induction false} RunConserves(r: Run, ops: seq<Op>)
    requires RunOk(r) && LegalRun(r, ops)
    ensures SameAccounts(r, After(r, ops))
    decreases ops
  {
    if ops != [] {
      StepOk(r, ops[0]);
      RunConserves(Step(r, ops[0]).value, ops[1..]);
    }
  }

  /**
   What RunOk means to the callers after any run: heap ranges lie in the heap (0xE0000000 to 0xFF000000) and do
   not overlap, no frame is given to two holders, and the next frame handed out is nobody's.
   */
  lemma RunSafe(r: Run, ops: seq<Op>)
    requires RunOk(r) && LegalRun(r, ops)
    ensures var s := After(r, ops);
            && (forall i :: 0 <= i < |s.ranges| ==> 0xE0000 <= s.ranges[i].base && s.ranges[i].base + s.ranges[i].size <= 0xFF000)
            && (forall i, j :: 0 <= i < j < |s.ranges| ==> s.ranges[i].base + s.ranges[i].size <= s.ranges[j].base)
            && (forall p, q :: p in s.paged && q in s.paged && p != q ==> s.paged[p] != s.paged[q])
            && (forall p :: p in s.paged ==> Present(s.vm.pages[p]) && FrameOf(s.vm.pages[p]) == s.paged[p] && s.paged[p] !in s.owned)
            && (Pop(s.vm).Done? ==> !Held(s, Pop(s.vm).value.1) && !Kernels(s.vm, Pop(s.vm).value.1))
  {
    var s := After(r, ops);
    forall p | p in s.paged ensures Present(s.vm.pages[p]) {
      MappingNotAllocated(s.paged[p]);
    }
    if Pop(s.vm).Done? {
      StepAlloc(s);
    }
  }

  /**
   After any run, free-stack page j is mapped to the frame in its own first slot and the pages
   above the top are not mapped; the frame pmm_alloc_page would hand out backs none of those
   that stay mapped.
   */
  lemma StackBacked(r: Run, ops: seq<Op>, p: Page)
    requires RunOk(r) && LegalRun(r, ops) && 0xFF000 <= p < 0xFF400
    ensures var vm := After(r, ops).vm; var j := p - 0xFF000;
            && (1024 * j < |vm.stack| ==> vm.pages[p] == vm.stack[1024 * j] as int * 0x1000 + 0x003)
            && (1024 * j >= |vm.stack| ==> vm.pages[p] == 0)
            && (Pop(vm).Done? && Present(Pop(vm).value.0.pages[p]) ==> FrameOf(Pop(vm).value.0.pages[p]) != Pop(vm).value.1)
  {
    var vm := After(r, ops).vm;
    assert vm.pages[p] == StackEntry(vm.stack, p - STACK_PAGE);
    if Pop(vm).Done? {
      PopNotBacking(vm, p);
    }
  }

  /** A frame given to a caller is not given out again until it is freed. */
  lemma {:induction false} OutUntilFreed(r: Run, ops: seq<Op>, f: Frame)
    requires RunOk(r) && LegalRun(r, ops) && f in r.owned && FreeFrame(f) !in ops
    ensures var s := After(r, ops); f in s.owned && (Pop(s.vm).Done? ==> Pop(s.vm).value.1 != f)
    decreases ops
  {
    if ops == [] {
      assert Held(r, f);
      if Pop(r.vm).Done? {
        StepAlloc(r);
      }
    } else {
      StepOk(r, ops[0]);
      OwnedKept(r, ops[0], f);
      hide RunOk, Step, Legal;
      OutUntilFreed(Step(r, ops[0]).value, ops[1..], f);
    }
  }

  lemma OwnedKept(r: Run, op: Op, f: Frame)
    requires RunOk(r) && Legal(r, op) && Step(r, op).Done? && f in r.owned && op != FreeFrame(f)
    ensures f in Step(r, op).value.owned
  {
    hide RunOk, Ok, MapMany, UnmapMany, ReserveMany, Pop, Push, Fault;
  }

  /** What a caller holds, as a frame or behind a demand-paged page, it holds until it frees it. */
  lemma HeldKept(r: Run, op: Op, f: Frame)
    requires RunOk(r) && Legal(r, op) && Step(r, op).Done? && Held(r, f) && op != FreeFrame(f)
    ensures Held(Step(r, op).value, f)
  {
    hide RunOk, Ok, MapMany, UnmapMany, ReserveMany, Pop, Push, Fault, HeldApart;
    RunApart(r);
    if op.WriteFault? {
      NotPagedYet(r, op.p);
      PagedValues(r.paged, op.p, Fault(r.vm, op.p).value.1);
    } else if op.Unmap? {
      GoneOwned(r, Within(r.paged, op.a / 0x1000, PagesSpanned(op.a, op.length)));
    }
  }

  /** The value an operation returns: a frame, an address, or the frame a served fault put behind the page. */
  ghost predicate Answered(r: Run, op: Op, s: Run, answer: nat)
    requires Ok(r.vm)
  {
    match op
    case AllocFrame => Pop(r.vm).Done? && answer == Pop(r.vm).value.1
    case Alloc(length) => Room(r.vm, PagesWanted(length)) && HeapAlloc(r.vm, length) == Done((s.vm, answer))
    case Map(pa, length) =>
      r.vm.next + PagesSpanned(pa, length) <= STACK_PAGE && MapRange(r.vm, pa, length) == Done((s.vm, answer))
    case WriteFault(p) => p in s.paged && answer == s.paged[p]
    case _ => true
  }

  // ---------- reserved pages ----------

  /** A write to a reserved page is served unless no frame is free; the frame was free before. */
  lemma ReservedServed(r: Run, p: Page)
    requires RunOk(r) && p < STACK_PAGE && r.vm.pages[p] == PAGE_ALLOCATED
    ensures Fault(r.vm, p).Done? <==> exists f: Frame :: IsFree(r.vm, f)
    ensures Fault(r.vm, p).Done? ==>
              var s := Step(r, WriteFault(p)).value;
              p in s.paged && IsFree(r.vm, s.paged[p]) && !IsFree(s.vm, s.paged[p])
  {
    if r.vm.stack != [] {
      assert IsFree(r.vm, r.vm.stack[|r.vm.stack| - 1]);
    } else if r.vm.unused != [] {
      assert IsFree(r.vm, r.vm.unused[0]);
    }
    if Fault(r.vm, p).Done? {
      FaultOk(r.vm, p);
    }
  }

  /** A reserved page stays reserved until it is written to or unmapped. */
  lemma ReservedKept(r: Run, op: Op, p: Page)
    requires RunOk(r) && Legal(r, op) && Step(r, op).Done?
    requires p < STACK_PAGE && r.vm.pages[p] == PAGE_ALLOCATED
    requires op != WriteFault(p)
    requires op.Unmap? ==> !(op.a / 0x1000 <= p < op.a / 0x1000 + PagesSpanned(op.a, op.length))
    ensures Step(r, op).value.vm.pages[p] == PAGE_ALLOCATED
  {
    hide Ok, Grown, MapMany, UnmapMany, ReserveMany, Pop, Push, Fault, HeldApart, PagedMapped, RangesApart, AllocatedBelow, OkExcept, PagesSpanned, MapRange;
    ReservedBelow(r.vm, p);
    match op
    case AllocFrame => OkAll(r.vm); PopOk(r.vm, FRAMES);
    case FreeFrame(f) =>
      StackBoundOk(r.vm);
      FreePages(r, f);
    case Alloc(length) =>
      if length != 0 {
        ReserveManyOk(r.vm, PagesUp(length));
      }
    case Map(pa, length) =>
      var n := PagesSpanned(pa, length);
      SpanWanted(pa, length);
      if n == 0 {
        MapNone(r.vm, pa, length);
      } else {
        MapUnfold(r.vm, pa, length);
        ReserveManyOk(r.vm, n);
        MapManyOk(ReserveMany(r.vm, n).value, pa / 0x1000, r.vm.next, n);
      }
    case Unmap(a, length) => UnmapManyOk(r.vm, a / 0x1000, PagesSpanned(a, length));
    case WriteFault(q) => NotPagedYet(r, q); FaultOk(r.vm, q);
  }

  lemma ReservedBelow(vm: Vm, p: Page)
    requires Ok(vm) && p < STACK_PAGE && vm.pages[p] == PAGE_ALLOCATED
    ensures p < vm.next
  {
  }

  lemma OkAll(vm: Vm)
    requires Ok(vm)
    ensures OkExcept(vm, FRAMES)
  {
  }

  lemma FreePages(r: Run, f: Frame)
    requires RunOk(r) && f in r.owned && |r.vm.stack| < FRAMES && Push(r.vm, f).Done?
    ensures SameOutside(r.vm, Push(r.vm, f).value)
  {
    assert Held(r, f);
    PushOk(r.vm, f);
  }

  // ---------- when a call succeeds ----------

  function FreeFrames(vm: Vm): nat {
    |vm.stack| + |vm.unused|
  }

  /** How many of the page tables of n pages from p do not exist. */
  function MissingTables(vm: Vm, p: nat, n: nat): nat {
    if n == 0 then 0
    else MissingTables(vm, p, n - 1) + if (p + n - 1) / 1024 !in vm.tables && (n == 1 || (p + n - 1) % 1024 == 0) then 1 else 0
  }

  /** The page tables of n pages from p exist. */
  ghost predicate Tabled(vm: Vm, v: Vm, p: nat, n: nat) {
    forall i :: i in v.tables <==> i in vm.tables || (n > 0 && p / 1024 <= i <= (p + n - 1) / 1024)
  }

  lemma TableCost(vm: Vm, p: Page)
    requires Shape(vm) && p < WINDOW
    ensures EnsureTable(vm, p).Done? <==> p / 1024 in vm.tables || FreeFrames(vm) > 0
    ensures EnsureTable(vm, p).Fatal? ==> EnsureTable(vm, p).why == OutOfMemory
    ensures EnsureTable(vm, p).Done? ==>
              var v := EnsureTable(vm, p).value;
              && v.tables.Keys == vm.tables.Keys + {p / 1024}
              && FreeFrames(v) == FreeFrames(vm) - (if p / 1024 in vm.tables then 0 else 1)
  {
  }

  lemma LastTable(vm: Vm, v: Vm, w: Vm, p: nat, n: nat)
    requires n > 0 && Tabled(vm, v, p, n - 1) && w.tables.Keys == v.tables.Keys + {(p + n - 1) / 1024}
    ensures Tabled(vm, w, p, n)
  {
    assert n > 1 ==> (p + n - 1) / 1024 <= (p + n - 2) / 1024 + 1;
    forall i
      ensures i in w.tables <==> i in vm.tables || p / 1024 <= i <= (p + n - 1) / 1024
    {
      assert i in w.tables <==> i in v.tables || i == (p + n - 1) / 1024;
    }
  }

  /** One page more needs one table more exactly if it is the first page of its table and that does not exist. */
  lemma OneMoreTable(vm: Vm, v: Vm, p: nat, n: nat)
    requires n > 0 && Tabled(vm, v, p, n - 1)
    ensures MissingTables(vm, p, n) == MissingTables(vm, p, n - 1) + if (p + n - 1) / 1024 in v.tables then 0 else 1
    ensures forall w: Vm :: w.tables.Keys == v.tables.Keys + {(p + n - 1) / 1024} ==> Tabled(vm, w, p, n)
  {
    var j := (p + n - 1) / 1024;
    assert n > 1 ==> (j <= (p + n - 2) / 1024 <==> (p + n - 1) % 1024 != 0);
    assert j in v.tables <==> j in vm.tables || (n > 1 && p / 1024 <= j <= (p + n - 2) / 1024);
    forall w: Vm | w.tables.Keys == v.tables.Keys + {j}
      ensures Tabled(vm, w, p, n)
    {
      LastTable(vm, v, w, p, n);
    }
  }

  lemma ReserveCosts(v: Vm)
    requires Shape(v) && v.next < WINDOW
    ensures Reserve(v).Done? <==> v.next / 1024 in v.tables || FreeFrames(v) > 0
    ensures Reserve(v).Fatal? ==> Reserve(v).why == OutOfMemory
    ensures Reserve(v).Done? ==>
              && Reserve(v).value.tables.Keys == v.tables.Keys + {v.next / 1024}
              && FreeFrames(Reserve(v).value) == FreeFrames(v) - (if v.next / 1024 in v.tables then 0 else 1)
  {
    TableCost(v, v.next);
    hide EnsureTable;
  }

  lemma UnmapCosts(v: Vm, p: Page)
    requires Shape(v) && p < WINDOW
    ensures UnmapPage(v, p).Done? <==> p / 1024 in v.tables || FreeFrames(v) > 0
    ensures UnmapPage(v, p).Fatal? ==> UnmapPage(v, p).why == OutOfMemory
    ensures UnmapPage(v, p).Done? ==>
              && UnmapPage(v, p).value.tables.Keys == v.tables.Keys + {p / 1024}
              && FreeFrames(UnmapPage(v, p).value) == FreeFrames(v) - (if p / 1024 in v.tables then 0 else 1)
  {
    TableCost(v, p);
    hide EnsureTable;
  }

  /** vmm_alloc goes through exactly if there is a free frame for each page table it has to make. */
  lemma {:induction false} ReserveOutcome(vm: Vm, n: nat)
    requires Shape(vm) && vm.next + n <= WINDOW
    ensures ReserveMany(vm, n).Done? <==> MissingTables(vm, vm.next, n) <= FreeFrames(vm)
    ensures ReserveMany(vm, n).Fatal? ==> ReserveMany(vm, n).why == OutOfMemory
    ensures ReserveMany(vm, n).Done? ==>
              var v := ReserveMany(vm, n).value;
              Tabled(vm, v, vm.next, n) && FreeFrames(v) == FreeFrames(vm) - MissingTables(vm, vm.next, n)
    decreases n
  {
    hide Reserve, FreeFrames;
    if n > 0 {
      hide Tabled;
      ReserveOutcome(vm, n - 1);
      if ReserveMany(vm, n - 1).Done? {
        OneMoreTable(vm, ReserveMany(vm, n - 1).value, vm.next, n);
        hide MissingTables;
        ReserveCosts(ReserveMany(vm, n - 1).value);
      }
    }
  }

  /** So does vmm_unmap, which makes a missing page table before it clears the entry. */
  lemma {:induction false} UnmapOutcome(vm: Vm, p: nat, n: nat)
    requires Shape(vm) && p + n <= WINDOW
    ensures UnmapMany(vm, p, n).Done? <==> MissingTables(vm, p, n) <= FreeFrames(vm)
    ensures UnmapMany(vm, p, n).Fatal? ==> UnmapMany(vm, p, n).why == OutOfMemory
    ensures UnmapMany(vm, p, n).Done? ==>
              var v := UnmapMany(vm, p, n).value;
              Tabled(vm, v, p, n) && FreeFrames(v) == FreeFrames(vm) - MissingTables(vm, p, n)
    decreases n
  {
    hide UnmapPage, FreeFrames;
    if n > 0 {
      hide Tabled;
      UnmapOutcome(vm, p, n - 1);
      if UnmapMany(vm, p, n - 1).Done? {
        OneMoreTable(vm, UnmapMany(vm, p, n - 1).value, p, n);
        hide MissingTables;
        UnmapCosts(UnmapMany(vm, p, n - 1).value, p + n - 1);
      }
    }
  }

  /** Reserved pages with their tables can be mapped. */
  lemma {:induction false} MapManyDone(vm: Vm, f: Frame, p: nat, n: nat)
    requires Ok(vm) && p + n <= vm.next
    requires forall q: Page :: p <= q < p + n ==> !Present(vm.pages[q]) && q / 1024 in vm.tables
    ensures MapMany(vm, f, p, n).Done?
    decreases n
  {
    hide Ok, Grown, MapPage, Present;
    if n > 0 {
      MapManyDone(vm, f, p, n - 1);
      MapManyOk(vm, f, p, n - 1);
      var v := MapMany(vm, f, p, n - 1).value;
      TablesStay(vm, v);
      MapDone(v, (f + n - 1) % FRAMES, p + n - 1);
    }
  }

  lemma TablesStay(vm: Vm, v: Vm)
    requires Grown(vm, v)
    ensures forall i :: i in vm.tables ==> i in v.tables
  {
  }

  lemma MapDone(vm: Vm, f: Frame, p: Page)
    requires Shape(vm) && p < WINDOW && !Present(vm.pages[p]) && p / 1024 in vm.tables
    ensures MapPage(vm, f, p).Done?
  {
  }

  /**
   vmm_map of a range that touches any page goes through exactly if there is a free frame for each page table it has
   to make and the heap reaches as far as it ends; otherwise it is the first of these it runs out of.
   */
  lemma MapRangeOutcome(vm: Vm, pa: Word, length: Word)
    requires Ok(vm) && Room(vm, PagesSpanned(pa, length)) && PagesSpanned(pa, length) > 0
    ensures var n := PagesSpanned(pa, length); var tabled := MissingTables(vm, vm.next, n) <= FreeFrames(vm);
            && (MapRange(vm, pa, length).Done? <==> tabled && vm.next + n <= 0xF0000)
            && (MapRange(vm, pa, length).Fatal? ==> MapRange(vm, pa, length).why == if tabled then OutOfVirtualSpace else OutOfMemory)
  {
    hide Ok, MapMany, ReserveMany, PagesSpanned, MissingTables;
    var n := PagesSpanned(pa, length);
    ReserveOutcome(vm, n);
    WholePages(n);
    if ReserveMany(vm, n).Done? {
      ReserveManyOk(vm, n);
      MappingNotAllocated(0);
      hide Present;
      MapManyDone(ReserveMany(vm, n).value, pa / 0x1000, vm.next, n);
    }
  }

  /** vmm_alloc, in bytes. */
  lemma HeapAllocOutcome(vm: Vm, length: Word)
    requires Shape(vm) && vm.next + PagesUp(length) <= WINDOW
    ensures HeapAlloc(vm, length).Done? <==> length == 0 || MissingTables(vm, vm.next, PagesUp(length)) <= FreeFrames(vm)
    ensures HeapAlloc(vm, length).Fatal? ==> HeapAlloc(vm, length).why == OutOfMemory
  {
    ReserveOutcome(vm, PagesUp(length));
    hide ReserveMany, MissingTables;
  }

  // ---------- vmm_map and vmm_unmap, byte by byte ----------

  /** Byte k of the mapped range translates to physical address pa + k. */
  lemma MapTranslates(vm: Vm, pa: Word, length: Word, k: nat)
    requires Ok(vm) && Room(vm, PagesWanted(length) + 1) && k < length
    requires vm.next + PagesSpanned(pa, length) <= STACK_PAGE && MapRange(vm, pa, length).Done?
    ensures var (v, at) := MapRange(vm, pa, length).value;
            var phys := (pa + k) % 0x1_0000_0000;
            && at + k < STACK_PAGE * 0x1000
            && v.pages[(at + k) / 0x1000] == phys / 0x1000 * 0x1000 + 0x003
            && (at + k) % 0x1000 == phys % 0x1000
  {
    hide Ok, Grown, MapMany, ReserveMany, PagesSpanned, MapRange;
    var n := PagesSpanned(pa, length);
    SpanExact(pa, length);
    assert n > 0;
    MapUnfold(vm, pa, length);
    ReserveManyOk(vm, n);
    MapManyOk(ReserveMany(vm, n).value, pa / 0x1000, vm.next, n);
    BytePage(vm.next, pa, length, k);
  }

  /** Where byte k of the mapping lies, in virtual and in physical memory. */
  lemma BytePage(next: nat, pa: Word, length: Word, k: nat)
    requires k < length
    ensures var at := next * 0x1000 + pa % 0x1000;
            var q := (at + k) / 0x1000;
            && next <= q < next + (pa % 0x1000 + length + 0xFFF) / 0x1000
            && (pa / 0x1000 + (q - next)) % FRAMES == (pa + k) % 0x1_0000_0000 / 0x1000
            && (at + k) % 0x1000 == (pa + k) % 0x1_0000_0000 % 0x1000
  {
    var q := (next * 0x1000 + pa % 0x1000 + k) / 0x1000;
    assert q == next + (pa % 0x1000 + k) / 0x1000;
    assert pa / 0x1000 + (q - next) == (pa + k) / 0x1000;
    WrapPages(pa + k);
    WrapOffset(next, pa, k);
  }

  lemma WrapOffset(next: nat, pa: Word, k: nat)
    ensures (next * 0x1000 + pa % 0x1000 + k) % 0x1000 == (pa + k) % 0x1_0000_0000 % 0x1000
  {
    var w := (pa + k) / 0x1_0000_0000;
    assert next * 0x1000 + pa % 0x1000 + k == (pa + k) % 0x1_0000_0000 + 0x1000 * (next - pa / 0x1000 + w * FRAMES);
  }

  /** vmm_unmap clears page q iff q starts at or after the page of `a` and before a + length. */
  lemma UnmapExact(vm: Vm, a: Word, length: Word, q: Page)
    requires Ok(vm) && a + length <= STACK_PAGE * 0x1000 && q < STACK_PAGE
    requires a / 0x1000 + PagesSpanned(a, length) <= STACK_PAGE && UnmapRange(vm, a, length).Done?
    ensures UnmapRange(vm, a, length).value.pages[q]
              == if a / 0x1000 <= q && q * 0x1000 < a + length then 0 else vm.pages[q]
  {
    hide Ok, Grown, PagesSpanned, UnmapMany;
    UnmapManyOk(vm, a / 0x1000, PagesSpanned(a, length));
    SpanBelow(a, length);
  }

  lemma SpanBelow(a: Word, length: Word)
    requires a + length <= STACK_PAGE * 0x1000
    ensures a / 0x1000 + PagesSpanned(a, length) == (a + length + 0xFFF) / 0x1000
  {
    WrapPages(a + length + 0xFFF);
  }

  // ---------- where the guarantees end ----------

  /**
   PAGE_ALIGN_UP(length) wraps for the last 4095 lengths: vmm_alloc then reserves nothing
   and returns the same address to the next caller.
   */
  lemma WrappedRequest(vm: Vm, length: Word)
    requires Ok(vm) && 0 < length && Room(vm, PagesUp(length))
    ensures PagesUp(length) == PagesWanted(length) <==> length <= 0xFFFF_F000
    ensures length > 0xFFFF_F000 ==> HeapAlloc(vm, length) == Done((vm, vm.next * 0x1000))
  {
  }

  /** For example the largest length of all, in the state vmm_init leaves. */
  lemma WrappedWitness()
    ensures var vm := Boot(1, 2, []); var length := 0xFFFF_FFFF;
            && Ok(vm) && vm.next == HEAP_BEGIN && PagesUp(length) == 0
            && PagesWanted(length) == 0x10_0000 && HeapAlloc(vm, length) == Done((vm, 0xE000_0000))
  {
    BootOk(1, 2, []);
    hide Ok;
    WrappedRequest(Boot(1, 2, []), 0xFFFF_FFFF);
    hide Boot, HeapAlloc;
  }

  /** The turn of the vmm_alloc loop that reserves the first page of the free stack, whose table it makes if need be. */
  lemma ReserveTop(vm: Vm)
    requires Ok(vm) && vm.next == STACK_PAGE && Reserve(vm).Done?
    ensures var v := Reserve(vm).value; v.pages[STACK_PAGE] == PAGE_ALLOCATED && STACK_PAGE / 1024 in v.tables
  {
  }

  lemma ReserveNext(vm: Vm, n: nat)
    requires Shape(vm) && vm.next + n < WINDOW
    ensures ReserveMany(vm, n + 1).Done? <==> ReserveMany(vm, n).Done? && Reserve(ReserveMany(vm, n).value).Done?
    ensures ReserveMany(vm, n).Done? ==> ReserveMany(vm, n + 1) == Reserve(ReserveMany(vm, n).value)
    ensures ReserveMany(vm, 0) == Done(vm)
  {
    hide Reserve;
  }

  lemma BeyondOnce(vm: Vm)
    requires Shape(vm) && STACK_PAGE < vm.next < STACK_END && STACK_PAGE / 1024 in vm.tables
    ensures Reserve(vm) == Done(vm.(pages := vm.pages[vm.next := PAGE_ALLOCATED], next := vm.next + 1))
  {
  }

  /** Later turns leave it so, and take no frame. */
  lemma {:induction false} ReserveBeyond(vm: Vm, n: nat)
    requires Shape(vm) && vm.next > STACK_PAGE && vm.next + n <= STACK_END && STACK_PAGE / 1024 in vm.tables
    ensures ReserveMany(vm, n).Done?
    ensures var v := ReserveMany(vm, n).value;
            v.pages[STACK_PAGE] == vm.pages[STACK_PAGE] && v.stack == vm.stack && v.tables == vm.tables
    decreases n
  {
    hide Reserve, ReserveMany;
    if n == 0 {
      ReserveNext(vm, 0);
    } else {
      ReserveNext(vm, n - 1);
      ReserveBeyond(vm, n - 1);
      BeyondOnce(ReserveMany(vm, n - 1).value);
    }
  }

  lemma {:induction false} ReserveSplit(vm: Vm, m: nat, n: nat)
    requires Shape(vm) && vm.next + m + n <= WINDOW && ReserveMany(vm, m + n).Done?
    ensures ReserveMany(vm, m).Done? && ReserveMany(ReserveMany(vm, m).value, n) == ReserveMany(vm, m + n)
    decreases n
  {
    hide Reserve, ReserveMany;
    if n == 0 {
      if vm.next + m < WINDOW {
        ReserveNext(ReserveMany(vm, m).value, 0);
      } else {
        NoneReserved(ReserveMany(vm, m).value);
      }
    } else {
      ReserveNext(vm, m + n - 1);
      ReserveSplit(vm, m, n - 1);
      ReserveNext(ReserveMany(vm, m).value, n - 1);
    }
  }

  lemma NoneReserved(vm: Vm)
    requires Shape(vm) && vm.next <= WINDOW
    ensures ReserveMany(vm, 0) == Done(vm)
  {
  }

  /** The free stack is no longer mapped where its frames are. */
  lemma TopLost(v: Vm)
    requires Shape(v) && v.pages[STACK_PAGE] == PAGE_ALLOCATED
    ensures !StackMapped(v, FRAMES) && !Present(v.pages[STACK_PAGE])
  {
    if v.stack != [] {
      MappingNotAllocated(v.stack[0]);
    }
    MappingNotAllocated(0);
    assert v.pages[STACK_PAGE] != StackEntry(v.stack, 0);
  }

  lemma ReserveCrosses(vm: Vm, n: nat)
    requires Ok(vm) && STACK_PAGE < vm.next + n <= STACK_END && ReserveMany(vm, n).Done?
    ensures ReserveMany(vm, n).value.pages[STACK_PAGE] == PAGE_ALLOCATED
  {
    hide Reserve, ReserveMany, Ok;
    var m := STACK_PAGE - vm.next;
    ReserveSplit(vm, m, n - m);
    ReserveManyOk(vm, m);
    var u := ReserveMany(vm, m).value;
    ReserveSplit(u, 1, n - m - 1);
    ReserveNext(u, 0);
    ReserveTop(u);
    ReserveBeyond(Reserve(u).value, n - m - 1);
  }

  /**
   vmm_alloc does not compare with the end of the heap. Reserving n pages leaves the free stack
   mapped exactly if the last one lies below it. Otherwise the page that holds the bottom of the
   stack is unmapped, and pmm_alloc_page and pmm_free_page lose what they keep there.
   */
  lemma HeapOverrun(vm: Vm, n: nat)
    requires Ok(vm) && vm.next + n <= STACK_END && ReserveMany(vm, n).Done?
    ensures StackMapped(ReserveMany(vm, n).value, FRAMES) <==> vm.next + n <= STACK_PAGE
    ensures vm.next + n > STACK_PAGE ==> !Present(ReserveMany(vm, n).value.pages[STACK_PAGE])
  {
    if vm.next + n <= STACK_PAGE {
      ReserveManyOk(vm, n);
    } else {
      ReserveCrosses(vm, n);
      hide Ok, ReserveMany;
      TopLost(ReserveMany(vm, n).value);
    }
  }

  /** The same for a request in bytes: what the caller can compare is next_alloc and the rounded length. */
  lemma RequestOverrun(vm: Vm, length: Word)
    requires Ok(vm) && vm.next + PagesUp(length) <= STACK_END && HeapAlloc(vm, length).Done?
    ensures StackMapped(HeapAlloc(vm, length).value.0, FRAMES) <==> vm.next + PagesUp(length) <= STACK_PAGE
  {
    if length == 0 {
      assert PagesUp(length) == 0;
    } else {
      HeapOverrun(vm, PagesUp(length));
    }
    hide ReserveMany, StackMapped;
  }

  /** A request that ends further up goes through the same turn: its first pages already lose the stack. */
  lemma LongRequestOverrun(vm: Vm, n: nat)
    requires Ok(vm) && STACK_PAGE < vm.next + n <= WINDOW && ReserveMany(vm, n).Done?
    ensures var k := STACK_PAGE + 1 - vm.next;
            k <= n && ReserveMany(vm, k).Done? && !StackMapped(ReserveMany(vm, k).value, FRAMES)
  {
    var k := STACK_PAGE + 1 - vm.next;
    ReserveSplit(vm, k, n - k);
    HeapOverrun(vm, k);
    hide ReserveMany;
  }

  /** Reserving n pages from a table boundary takes at most one frame for every 1024 of them. */
  lemma {:induction false} ReserveFits(vm: Vm, n: nat)
    requires Shape(vm) && vm.stack == [] && vm.next % 1024 == 0 && vm.next + n <= WINDOW && (n + 1023) / 1024 <= |vm.unused|
    ensures ReserveMany(vm, n).Done?
    ensures var v := ReserveMany(vm, n).value;
            && v.stack == [] && |v.unused| + (n + 1023) / 1024 >= |vm.unused|
            && (n > 0 ==> (vm.next + n - 1) / 1024 in v.tables)
    decreases n
  {
    hide Reserve, ReserveMany;
    if n == 0 {
      NoneReserved(vm);
    } else {
      ReserveFits(vm, n - 1);
      ReserveNext(vm, n - 1);
      ReserveCost(ReserveMany(vm, n - 1).value, n - 1);
    }
  }

  lemma ReserveCost(v: Vm, k: nat)
    requires Shape(v) && v.stack == [] && v.next < WINDOW && k <= v.next && (v.next - k) % 1024 == 0
    requires if k % 1024 == 0 then v.unused != [] else (v.next - 1) / 1024 in v.tables
    ensures Reserve(v).Done? && Reserve(v).value.stack == [] && v.next / 1024 in Reserve(v).value.tables
    ensures |Reserve(v).value.unused| + (if k % 1024 == 0 then 1 else 0) >= |v.unused|
  {
  }

  /** vmm_alloc of so many bytes goes through, and unmaps the bottom of the free stack. */
  ghost predicate LosesStack(vm: Vm, length: Word) {
    && Shape(vm) && vm.next + PagesUp(length) <= WINDOW && Present(vm.pages[STACK_PAGE])
    && HeapAlloc(vm, length).Done? && !Present(HeapAlloc(vm, length).value.0.pages[STACK_PAGE])
  }

  ghost predicate Reaches(r: Run, ops: seq<Op>, s: Run) {
    RunOk(r) && LegalRun(r, ops) && After(r, ops) == s
  }

  /**
   A run that gets there, from any boot with 126 frames to hand out: the heap is used up to the free
   stack, a frame is allocated and freed, and the next request of one byte unmaps the stack it lies on.
   */
  lemma OverrunWitness(dir: Frame, table: Frame, unused: seq<Frame>) returns (f: Frame, s: Run)
    requires dir != table && Distinct(unused) && dir !in unused && table !in unused && |unused| >= 126
    ensures Reaches(Run(Boot(dir, table, unused), {}, map[], []), [Alloc(0x1F00_0000), AllocFrame, FreeFrame(f)], s)
    ensures s.vm.stack == [f] && LosesStack(s.vm, 1)
  {
    var r := Run(Boot(dir, table, unused), {}, map[], []);
    BootOk(dir, table, unused);
    BootIs(dir, table, unused);
    hide Boot, RunOk, Step, Legal, LosesStack, Ok, Reaches, Distinct;
    HeapUsedUp(r);
    f, s := FreedAgain(Step(r, Alloc(0x1F00_0000)).value);
    ReachesMore(r, Alloc(0x1F00_0000), [AllocFrame, FreeFrame(f)], s);
    assert [Alloc(0x1F00_0000)] + [AllocFrame, FreeFrame(f)] == [Alloc(0x1F00_0000), AllocFrame, FreeFrame(f)];
    OneRequest(s.vm, f);
  }

  lemma BootIs(dir: Frame, table: Frame, unused: seq<Frame>)
    ensures var vm := Boot(dir, table, unused); vm.unused == unused && vm.stack == [] && vm.next == HEAP_BEGIN
  {
  }

  lemma ReachesMore(r: Run, op: Op, ops: seq<Op>, s: Run)
    requires RunOk(r) && Legal(r, op) && Step(r, op).Done? && Reaches(Step(r, op).value, ops, s)
    ensures Reaches(r, [op] + ops, s)
  {
    assert ([op] + ops)[1..] == ops;
    hide RunOk, Step, Legal;
    StepOk(r, op);
  }

  lemma ReachesHere(r: Run)
    requires RunOk(r)
    ensures Reaches(r, [], r)
  {
  }

  /** Its 124 page tables are the first frames taken. */
  lemma HeapUsedUp(r: Run)
    requires RunOk(r) && r.vm.next == HEAP_BEGIN && r.vm.stack == [] && |r.vm.unused| >= 126
    ensures Legal(r, Alloc(0x1F00_0000)) && Step(r, Alloc(0x1F00_0000)).Done? && RunOk(Step(r, Alloc(0x1F00_0000)).value)
    ensures var v := Step(r, Alloc(0x1F00_0000)).value.vm; v.next == STACK_PAGE && v.stack == [] && |v.unused| >= 2
  {
    hide RunOk, ReserveMany;
    assert PagesUp(0x1F00_0000) == PagesWanted(0x1F00_0000) == 0x1F000;
    ReserveFits(r.vm, 0x1F000);
    StepOk(r, Alloc(0x1F00_0000));
  }

  /** The next two steps: there is a frame to allocate, and one for the table of the stack when it is freed. */
  lemma FreedAgain(a: Run) returns (f: Frame, s: Run)
    requires RunOk(a) && a.vm.next == STACK_PAGE && a.vm.stack == [] && |a.vm.unused| >= 2
    ensures Reaches(a, [AllocFrame, FreeFrame(f)], s)
    ensures Ok(s.vm) && s.vm.stack == [f] && s.vm.next == STACK_PAGE
  {
    f := a.vm.unused[0];
    TakenOut(a, f);
    var b := Step(a, AllocFrame).value;
    StepOk(a, AllocFrame);
    PushedBack(b, f);
    s := Step(b, FreeFrame(f)).value;
    StepOk(b, FreeFrame(f));
    hide RunOk, Step, Legal, Reaches;
    ReachesHere(s);
    ReachesMore(b, FreeFrame(f), [], s);
    assert [FreeFrame(f)] + [] == [FreeFrame(f)];
    ReachesMore(a, AllocFrame, [FreeFrame(f)], s);
    assert [AllocFrame] + [FreeFrame(f)] == [AllocFrame, FreeFrame(f)];
  }

  lemma TakenOut(a: Run, f: Frame)
    requires RunOk(a) && a.vm.stack == [] && |a.vm.unused| >= 2 && f == a.vm.unused[0]
    ensures Legal(a, AllocFrame) && Step(a, AllocFrame).Done?
    ensures var b := Step(a, AllocFrame).value; b.vm == a.vm.(unused := a.vm.unused[1..]) && f in b.owned
  {
    hide RunOk;
  }

  lemma PushedBack(b: Run, f: Frame)
    requires RunOk(b) && f in b.owned && b.vm.stack == [] && b.vm.unused != []
    ensures Legal(b, FreeFrame(f)) && Step(b, FreeFrame(f)).Done?
    ensures var v := Step(b, FreeFrame(f)).value.vm; v.stack == [f] && v.next == b.vm.next
  {
    HeldFree(b, f);
    OkAll(b.vm);
    hide RunOk, OkExcept, Ok, Push;
    PushOutcome(b.vm, f);
    PushOk(b.vm, f);
  }

  lemma HeldFree(r: Run, f: Frame)
    requires RunOk(r) && Held(r, f)
    ensures !IsFree(r.vm, f) && !Kernels(r.vm, f)
  {
  }

  lemma TableOfTop(vm: Vm)
    requires OkExcept(vm, FRAMES) && vm.stack != []
    ensures STACK_PAGE / 1024 in vm.tables
  {
    if STACK_PAGE / 1024 !in vm.tables {
      NoStackTable(vm);
    }
  }

  lemma OnePage(vm: Vm)
    requires Shape(vm) && vm.next < WINDOW && vm.next / 1024 in vm.tables
    ensures ReserveMany(vm, 1).Done? && HeapAlloc(vm, 1) == Done((ReserveMany(vm, 1).value, vm.next * 0x1000))
  {
    assert PagesUp(1) == 1;
    assert Reserve(vm).Done?;
    hide Reserve, ReserveMany;
    ReserveNext(vm, 0);
  }

  lemma StackThere(vm: Vm, f: Frame)
    requires Ok(vm) && vm.stack == [f]
    ensures Present(vm.pages[STACK_PAGE])
  {
    assert vm.pages[STACK_PAGE] == StackEntry(vm.stack, 0);
    MappingNotAllocated(f);
  }

  lemma OneRequest(vm: Vm, f: Frame)
    requires Ok(vm) && vm.stack == [f] && vm.next == STACK_PAGE
    ensures LosesStack(vm, 1)
  {
    OkAll(vm);
    hide Ok, OkExcept, Present, ReserveMany, HeapAlloc;
    TableOfTop(vm);
    StackThere(vm, f);
    OnePage(vm);
    HeapOverrun(vm, 1);
  }

  // ---------- the state vmm_init leaves ----------

  /** The first 4 MB seen at KERNEL_SPACE, without the boot tables; nothing else is mapped. */
  function BootPage(dir: Frame, table: Frame, p: nat): Word {
    var k := p - KERNEL_SPACE_PAGE;
    if 0 <= k < 1024 && k != dir && k != table then Entry(k, MAPPING) else 0
  }

  function Boot(dir: Frame, table: Frame, unused: seq<Frame>): Vm {
    Vm(dir, map[KERNEL_SPACE_PAGE / 1024 := table], seq(WINDOW, p requires 0 <= p < WINDOW => BootPage(dir, table, p)), [], unused, HEAP_BEGIN)
  }

  /**
   Which pages that state maps: page 0xC0000 + k to frame k, for the first 1024 frames but those of the directory
   and of the page table; the heap starts at 0xE0000000.
   */
  lemma BootMaps(dir: Frame, table: Frame, unused: seq<Frame>, p: Page)
    requires p < WINDOW
    ensures var vm := Boot(dir, table, unused);
            && vm.dir == dir && vm.tables == map[768 := table] && vm.next == 0xE0000
            && (Present(vm.pages[p]) <==> 0xC0000 <= p < 0xC0400 && p - 0xC0000 != dir && p - 0xC0000 != table)
            && (Present(vm.pages[p]) ==> vm.pages[p] == (p - 0xC0000) * 0x1000 + 0x003)
            && (!Present(vm.pages[p]) ==> vm.pages[p] == 0)
  {
    if 0xC0000 <= p < 0xC0400 {
      MappingNotAllocated(p - 0xC0000);
    }
  }

  lemma BootOk(dir: Frame, table: Frame, unused: seq<Frame>)
    requires dir != table && Distinct(unused) && dir !in unused && table !in unused
    ensures RunOk(Run(Boot(dir, table, unused), {}, map[], []))
  {
    var vm := Boot(dir, table, unused);
    forall p: Page | p < WINDOW ensures !Allocated(vm.pages[p]) {
      assert vm.pages[p] == BootPage(dir, table, p);
      MappingNotAllocated(if KERNEL_SPACE_PAGE <= p < KERNEL_SPACE_PAGE + 1024 then p - KERNEL_SPACE_PAGE else 0);
    }
  }
}

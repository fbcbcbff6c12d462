/**
 pmm_init: the firmware's memory map becomes the list of regions pages are handed out
 from. Low memory and the kernel image are cut off, and what lies above 4 GB is dropped.
 */
module BootMap {
  import opened Basics
  import opened Paging

  const LOW_MEMORY := 0x100000
  const FOUR_GB := 0x1_0000_0000
  const MAX_REGIONS := 1000
  const TWO_64 := 0x1_0000_0000_0000_0000

  type U64 = n: nat | n < 0x1_0000_0000_0000_0000

  /** MemoryMapEntry: `length` bytes of usable memory from `base`. */
  datatype MemoryMapEntry = MemoryMapEntry(base: U64, length: U64)

  /**
   FreeMemory: a boot region, in pages; `start` moves up as pages are handed out. The source keeps
   an end of 4 GB as 0 in a 32-bit word, which `start` reaches when it wraps; it compares with != only.
   */
  datatype Region = Region(start: nat, end: nat)

  /** The kernel image in physical memory, rounded to pages. */
  datatype Image = Image(start: nat, end: nat)

  predicate ImageOk(kernel: Image) {
    kernel.start % 0x1000 == 0 && kernel.end % 0x1000 == 0 && kernel.start < kernel.end <= FOUR_GB
  }

  /** The image is linked at 1 MB (CMakeLists.txt, linker_32.ld). */
  predicate Linked(kernel: Image) {
    ImageOk(kernel) && kernel.start <= LOW_MEMORY
  }

  predicate InImage(kernel: Image, q: nat) {
    kernel.start <= q * 0x1000 < kernel.end
  }

  // Addresses in the map have 64 bits, and sums of them wrap.

  function Sum(a: U64, b: U64): U64 {
    (a + b) % TWO_64
  }

  function AlignUp(a: U64): U64 {
    AlignDown(Sum(a, 0xFFF))
  }

  function AlignDown(a: U64): U64 {
    a / 0x1000 * 0x1000
  }

  /** The loop body of pmm_init up to "if there is nothing left", in bytes; empty when start >= end. */
  function Clip(e: MemoryMapEntry, kernel: Image): (nat, nat) {
    var start, end := AlignUp(e.base), AlignDown(Sum(e.base, e.length));
    if start >= FOUR_GB then (0, 0)
    else
      var end := if end > FOUR_GB then FOUR_GB else end;
      var start := if start < LOW_MEMORY then LOW_MEMORY else start;
      var start := if kernel.start <= start < kernel.end then kernel.end else start;
      var end := if kernel.start <= end < kernel.end then kernel.start else end;
      (start, end)
  }

  predicate Clipped(e: MemoryMapEntry, kernel: Image, q: nat) {
    var (start, end) := Clip(e, kernel);
    start <= q * 0x1000 < end
  }

  /** Page q lies wholly inside the entry, above the first MB and below 4 GB. */
  predicate Usable(e: MemoryMapEntry, q: nat) {
    && e.base <= q * 0x1000 && (q + 1) * 0x1000 <= e.base + e.length
    && 0x10_0000 <= q * 0x1000 && (q + 1) * 0x1000 <= 0x1_0000_0000
  }

  /** Usable, and not a page of the kernel. */
  predicate Offered(e: MemoryMapEntry, kernel: Image, q: nat) {
    Usable(e, q) && !InImage(kernel, q)
  }

  predicate Covers(r: Region, q: nat) {
    r.start <= q < r.end
  }

  /** Where the memory that can be offered starts: above low memory and the image. */
  function Floor(kernel: Image): nat {
    if kernel.end > LOW_MEMORY then kernel.end else LOW_MEMORY
  }

  /** A 64-bit sum wraps, and pages between the image and 4 GB are gained or lost by it. */
  predicate Misread(e: MemoryMapEntry, kernel: Image) {
    && Floor(kernel) < FOUR_GB
    && if e.base > TWO_64 - 0x1000 then AlignDown(Sum(e.base, e.length)) > Floor(kernel)
       else e.base + e.length >= TWO_64 && AlignUp(e.base) < FOUR_GB
  }

  lemma ClipRight(e: MemoryMapEntry, kernel: Image, q: nat)
    requires Linked(kernel) && !Misread(e, kernel)
    ensures Clipped(e, kernel, q) <==> Offered(e, kernel, q)
  {
    if e.base <= TWO_64 - 0x1000 && e.base + e.length < TWO_64 {
      assert e.base <= q * 0x1000 <==> AlignUp(e.base) <= q * 0x1000;
      assert (q + 1) * 0x1000 <= e.base + e.length <==> q * 0x1000 < AlignDown(e.base + e.length);
    }
  }

  /** The page that a misread entry gains, or the first one it loses. */
  lemma ClipWrong(e: MemoryMapEntry, kernel: Image) returns (q: nat)
    requires Linked(kernel) && Misread(e, kernel)
    ensures Clipped(e, kernel, q) != Offered(e, kernel, q)
  {
    q := if e.base > TWO_64 - 0x1000 || AlignUp(e.base) < Floor(kernel) then Floor(kernel) / 0x1000 else AlignUp(e.base) / 0x1000;
  }

  /**
   The region made from an entry holds exactly its usable pages outside the image, unless a
   wrapping sum makes the entry look like another one: for each image at or below 1 MB.
   */
  lemma ClipExact(e: MemoryMapEntry, kernel: Image)
    requires Linked(kernel)
    ensures (forall q: nat :: Clipped(e, kernel, q) <==> Offered(e, kernel, q)) <==> !Misread(e, kernel)
  {
    hide Clipped, Offered, Linked, Misread;
    if Misread(e, kernel) {
      var q := ClipWrong(e, kernel);
      assert Clipped(e, kernel, q) != Offered(e, kernel, q);
    } else {
      forall q: nat
        ensures Clipped(e, kernel, q) <==> Offered(e, kernel, q)
      {
        ClipRight(e, kernel, q);
      }
    }
  }

  /** 8 MB from the last byte of the address space: with a 2 MB image at 1 MB, 5 MB of memory nobody reported are listed. */
  lemma MisreadWitness()
    ensures var e, kernel := MemoryMapEntry(0xFFFF_FFFF_FFFF_FFFF, 0x80_0001), Image(0x10_0000, 0x30_0000);
            Linked(kernel) && Misread(e, kernel)
            && forall q :: 0x300 <= q < 0x800 ==> Clipped(e, kernel, q) && !Offered(e, kernel, q)
  {
  }

  /** An image that started above 1 MB could end up in a region: the code looks only at where an entry begins and ends. */
  lemma ImageLeftOut(kernel: Image)
    requires ImageOk(kernel)
    ensures (forall e, q: nat :: InImage(kernel, q) ==> !Clipped(e, kernel, q)) <==> kernel.start <= LOW_MEMORY
  {
    if kernel.start > LOW_MEMORY {
      ImageKept(kernel);
    }
  }

  lemma ImageKept(kernel: Image)
    requires ImageOk(kernel) && kernel.start > LOW_MEMORY
    ensures InImage(kernel, kernel.start / 0x1000) && Clipped(MemoryMapEntry(0, FOUR_GB), kernel, kernel.start / 0x1000)
  {
  }

  /** The regions of the first n entries. */
  function Regions(boot: seq<MemoryMapEntry>, kernel: Image, n: nat): (r: seq<Region>)
    requires n <= |boot|
    ensures |r| <= MAX_REGIONS
  {
    if n == 0 then []
    else
      var r := Regions(boot, kernel, n - 1);
      var (start, end) := Clip(boot[n - 1], kernel);
      if |r| == MAX_REGIONS || start >= end then r else r + [Region(start / 0x1000, end / 0x1000)]
  }

  lemma {:induction false} RegionsFull(boot: seq<MemoryMapEntry>, kernel: Image, i: nat, n: nat)
    requires i <= n <= |boot| && |Regions(boot, kernel, i)| == MAX_REGIONS
    ensures Regions(boot, kernel, n) == Regions(boot, kernel, i)
  {
    if i < n {
      RegionsFull(boot, kernel, i, n - 1);
    }
  }

  /** Bytes in the regions. */
  function Size(regions: seq<Region>): nat
    requires forall i :: 0 <= i < |regions| ==> regions[i].start <= regions[i].end
  {
    if regions == [] then 0
    else
      var last := regions[|regions| - 1];
      Size(regions[..|regions| - 1]) + (last.end - last.start) * 0x1000
  }

  /** Frames a .. b-1, in order. */
  function FrameRange(a: nat, b: nat): (s: seq<Frame>)
    requires b <= FRAMES
    ensures |s| == if a <= b then b - a else 0
    ensures forall k :: 0 <= k < |s| ==> s[k] == a + k
    decreases b - a
  {
    if a >= b then [] else [a] + FrameRange(a + 1, b)
  }

  /** What the regions still hold, in the order pmm_alloc_page takes it. */
  function Remaining(regions: seq<Region>): seq<Frame>
    requires forall i :: 0 <= i < |regions| ==> regions[i].end <= FRAMES
  {
    if regions == [] then [] else FrameRange(regions[0].start, regions[0].end) + Remaining(regions[1..])
  }

  /** Every region is whole pages below 4 GB, at least one. */
  lemma {:induction false} RegionsBounded(boot: seq<MemoryMapEntry>, kernel: Image, n: nat)
    requires n <= |boot| && ImageOk(kernel)
    ensures forall r :: r in Regions(boot, kernel, n) ==> r.start < r.end <= FRAMES
  {
    if n > 0 {
      RegionsBounded(boot, kernel, n - 1);
      ClipAligned(boot[n - 1], kernel);
    }
  }

  ghost predicate WellRead(boot: seq<MemoryMapEntry>, kernel: Image) {
    forall i :: 0 <= i < |boot| ==> !Misread(boot[i], kernel)
  }

  /** Entry i is looked at, as the region array still has room, and has page q to offer. */
  predicate Listing(boot: seq<MemoryMapEntry>, kernel: Image, i: nat, q: nat) {
    i < |boot| && |Regions(boot, kernel, i)| < MAX_REGIONS && Offered(boot[i], kernel, q)
  }

  /** Each page of a region comes from an entry that has it to offer. */
  lemma {:induction false} RegionsOwned(boot: seq<MemoryMapEntry>, kernel: Image, n: nat, r: Region, q: nat)
    requires n <= |boot| && Linked(kernel) && WellRead(boot, kernel)
    requires r in Regions(boot, kernel, n) && Covers(r, q)
    ensures exists i :: 0 <= i < n && Listing(boot, kernel, i, q)
  {
    if n > 0 {
      if r in Regions(boot, kernel, n - 1) {
        RegionsOwned(boot, kernel, n - 1, r, q);
      } else {
        ClipAligned(boot[n - 1], kernel);
        ClipRight(boot[n - 1], kernel, q);
        assert Listing(boot, kernel, n - 1, q);
      }
    }
  }

  /** And each page such an entry has to offer is in a region. */
  lemma {:induction false} RegionsComplete(boot: seq<MemoryMapEntry>, kernel: Image, n: nat, i: nat, q: nat) returns (r: Region)
    requires i < n <= |boot| && Linked(kernel) && WellRead(boot, kernel) && Listing(boot, kernel, i, q)
    ensures r in Regions(boot, kernel, n) && Covers(r, q)
    decreases n
  {
    if i < n - 1 {
      r := RegionsComplete(boot, kernel, n - 1, i, q);
    } else {
      ClipAligned(boot[i], kernel);
      ClipRight(boot[i], kernel, q);
      var (start, end) := Clip(boot[i], kernel);
      r := Region(start / 0x1000, end / 0x1000);
      assert Regions(boot, kernel, n) == Regions(boot, kernel, i) + [r];
    }
  }

  /**
   A frame can be handed out exactly if some entry reports it as usable and it is not the
   kernel's, up to the entry with which the region array fills up.
   */
  lemma ListedExactly(boot: seq<MemoryMapEntry>, kernel: Image, f: Frame)
    requires Linked(kernel) && WellRead(boot, kernel)
    ensures forall r :: r in Regions(boot, kernel, |boot|) ==> r.end <= FRAMES
    ensures f in Remaining(Regions(boot, kernel, |boot|)) <==> exists i :: 0 <= i < |boot| && Listing(boot, kernel, i, f)
  {
    RegionsBounded(boot, kernel, |boot|);
    hide Linked, WellRead, Listing, FrameRange;
    var regions := Regions(boot, kernel, |boot|);
    if f in Remaining(regions) {
      var r := RemainingFrom(regions, f);
      RegionsOwned(boot, kernel, |boot|, r, f);
    }
    if i :| 0 <= i < |boot| && Listing(boot, kernel, i, f) {
      var r := RegionsComplete(boot, kernel, |boot|, i, f);
      RemainingHas(regions, r, f);
    }
  }

  lemma {:induction false} FewRegions(boot: seq<MemoryMapEntry>, kernel: Image, n: nat)
    requires n <= |boot|
    ensures |Regions(boot, kernel, n)| <= n && |Regions(boot, kernel, n)| <= 1000
  {
    hide Clip;
    if n > 0 {
      FewRegions(boot, kernel, n - 1);
    }
  }

  /** The array has room for a thousand regions, so a map of no more entries is read to its end. */
  lemma {:induction false} ShortMapListed(boot: seq<MemoryMapEntry>, kernel: Image, f: Frame)
    requires Linked(kernel) && WellRead(boot, kernel) && |boot| <= 1000
    ensures forall r :: r in Regions(boot, kernel, |boot|) ==> r.end <= FRAMES
    ensures f in Remaining(Regions(boot, kernel, |boot|)) <==> exists i :: 0 <= i < |boot| && Offered(boot[i], kernel, f)
  {
    ListedExactly(boot, kernel, f);
    hide Offered, Linked, WellRead, Remaining;
    forall i | 0 <= i < |boot|
      ensures Listing(boot, kernel, i, f) <==> Offered(boot[i], kernel, f)
    {
      FewRegions(boot, kernel, i);
    }
  }

  /** No page of the kernel image is in a region, whatever the map says. */
  lemma {:induction false} ImageNotInRegions(boot: seq<MemoryMapEntry>, kernel: Image, n: nat, r: Region, q: nat)
    requires n <= |boot| && Linked(kernel) && InImage(kernel, q)
    requires r in Regions(boot, kernel, n)
    ensures !Covers(r, q)
  {
    if n > 0 {
      if r in Regions(boot, kernel, n - 1) {
        ImageNotInRegions(boot, kernel, n - 1, r, q);
      } else {
        ClipAligned(boot[n - 1], kernel);
        ImageLeftOut(kernel);
        assert !Clipped(boot[n - 1], kernel, q);
      }
    }
  }

  /** The frames pmm_init lists: each once, and none of the kernel's. */
  lemma ImageNotListed(boot: seq<MemoryMapEntry>, kernel: Image, f: Frame)
    requires Linked(kernel) && InImage(kernel, f)
    ensures forall r :: r in Regions(boot, kernel, |boot|) ==> r.end <= FRAMES
    ensures f !in Remaining(Regions(boot, kernel, |boot|))
  {
    RegionsBounded(boot, kernel, |boot|);
    if f in Remaining(Regions(boot, kernel, |boot|)) {
      var r := RemainingFrom(Regions(boot, kernel, |boot|), f);
      ImageNotInRegions(boot, kernel, |boot|, r, f);
    }
  }

  lemma ClipAligned(e: MemoryMapEntry, kernel: Image)
    requires ImageOk(kernel)
    ensures var (start, end) := Clip(e, kernel); start % 0x1000 == 0 && end % 0x1000 == 0 && end <= FOUR_GB
  {
  }

  /** Entries of the map do not overlap; empty ones may be anywhere. */
  ghost predicate Disjoint(boot: seq<MemoryMapEntry>) {
    forall i, j :: 0 <= i < |boot| && 0 <= j < |boot| && i != j ==>
      boot[i].length == 0 || boot[j].length == 0 || boot[i].base + boot[i].length <= boot[j].base || boot[j].base + boot[j].length <= boot[i].base
  }

  /** With entries that do not overlap, no page is listed twice. */
  lemma {:induction false} RegionsDistinct(boot: seq<MemoryMapEntry>, kernel: Image, n: nat)
    requires n <= |boot| && Linked(kernel)
    requires Disjoint(boot) && WellRead(boot, kernel)
    ensures forall r :: r in Regions(boot, kernel, n) ==> r.end <= FRAMES
    ensures Distinct(Remaining(Regions(boot, kernel, n)))
  {
    hide Disjoint, Usable, Clip, Clipped, FrameRange, ImageOk, WellRead, Offered;
    RegionsBounded(boot, kernel, n);
    if n > 0 {
      var before, after := Regions(boot, kernel, n - 1), Regions(boot, kernel, n);
      RegionsBounded(boot, kernel, n - 1);
      RegionsDistinct(boot, kernel, n - 1);
      if after != before {
        var last := after[|before|];
        var (start, end) := Clip(boot[n - 1], kernel);
        assert after == before + [last] && last == Region(start / 0x1000, end / 0x1000);
        ClipAligned(boot[n - 1], kernel);
        RemainingAppend(before, last);
        forall f: Frame | f in Remaining(before) ensures !Covers(last, f) {
          if Covers(last, f) {
            var r := RemainingFrom(before, f);
            RegionsApart(boot, kernel, n, r, last, f);
          }
        }
        JoinDistinct(Remaining(before), last);
      }
    }
  }

  /** A page of an earlier region is not a page of the last entry's. */
  lemma RegionsApart(boot: seq<MemoryMapEntry>, kernel: Image, n: nat, r: Region, last: Region, q: nat)
    requires 0 < n <= |boot| && Linked(kernel) && Disjoint(boot) && WellRead(boot, kernel)
    requires r in Regions(boot, kernel, n - 1) && Covers(r, q)
    requires var (start, end) := Clip(boot[n - 1], kernel); last == Region(start / 0x1000, end / 0x1000)
    ensures !Covers(last, q)
  {
    RegionsOwned(boot, kernel, n - 1, r, q);
    ClipAligned(boot[n - 1], kernel);
    ClipRight(boot[n - 1], kernel, q);
    NotTwice(boot, n - 1, q);
  }

  lemma JoinDistinct(a: seq<Frame>, r: Region)
    requires Distinct(a) && r.end <= FRAMES && forall f: Frame :: f in a ==> !Covers(r, f)
    ensures Distinct(a + FrameRange(r.start, r.end))
  {
    var b := FrameRange(r.start, r.end);
    assert forall k :: 0 <= k < |b| ==> Covers(r, b[k]);
    forall i, j | 0 <= i < j < |a + b| ensures (a + b)[i] != (a + b)[j] {
      if i < |a| <= j {
        assert a[i] in a;
      }
    }
  }

  /** A page lies in at most one entry. */
  lemma NotTwice(boot: seq<MemoryMapEntry>, j: nat, q: nat)
    requires Disjoint(boot) && j < |boot|
    ensures Usable(boot[j], q) ==> forall i :: 0 <= i < |boot| && i != j ==> !Usable(boot[i], q)
  {
  }

  lemma Grouped(a: seq<Frame>, b: seq<Frame>, c: seq<Frame>)
    ensures a + (b + c) == a + b + c
  {
  }

  lemma SizeAppend(regions: seq<Region>, r: Region)
    requires forall i :: 0 <= i < |regions| ==> regions[i].start <= regions[i].end
    requires r.start <= r.end
    ensures Size(regions + [r]) == Size(regions) + (r.end - r.start) * 0x1000
  {
    assert (regions + [r])[..|regions|] == regions;
  }

  lemma {:induction false} RemainingAppend(regions: seq<Region>, r: Region)
    requires forall q :: q in regions + [r] ==> q.end <= FRAMES
    ensures Remaining(regions + [r]) == Remaining(regions) + FrameRange(r.start, r.end)
  {
    hide FrameRange;
    if regions == [] {
      assert [r][1..] == [];
      assert regions + [r] == [r];
    } else {
      var tail := Remaining(regions[1..]);
      RemainingAppend(regions[1..], r);
      assert (regions + [r])[1..] == regions[1..] + [r];
      Grouped(FrameRange(regions[0].start, regions[0].end), tail, FrameRange(r.start, r.end));
    }
  }

  lemma {:induction false} RemainingFrom(regions: seq<Region>, f: Frame) returns (r: Region)
    requires forall q :: q in regions ==> q.end <= FRAMES
    requires f in Remaining(regions)
    ensures r in regions && Covers(r, f)
  {
    if f in FrameRange(regions[0].start, regions[0].end) {
      r := regions[0];
    } else {
      r := RemainingFrom(regions[1..], f);
    }
  }

  lemma {:induction false} RemainingHas(regions: seq<Region>, r: Region, f: Frame)
    requires forall q :: q in regions ==> q.end <= FRAMES
    requires r in regions && Covers(r, f)
    ensures f in Remaining(regions)
  {
    if r == regions[0] {
      var range := FrameRange(r.start, r.end);
      assert range[f - r.start] == f;
    } else {
      RemainingHas(regions[1..], r, f);
    }
  }

  /** pmm_free_memory after pmm_init: the size of what can be handed out. */
  lemma {:induction false} SizeRemaining(regions: seq<Region>)
    requires forall r :: r in regions ==> r.start <= r.end <= FRAMES
    ensures Size(regions) == |Remaining(regions)| * 0x1000
  {
    if regions != [] {
      var init, last := regions[..|regions| - 1], regions[|regions| - 1];
      SizeRemaining(init);
      assert regions == init + [last];
      RemainingAppend(init, last);
    }
  }
}

/**
 The repeated SCAS and CMPS of bytes (ops.c): where they stop, what is left of the count, and
 where the index registers are, for both directions and both address sizes.
 */
module StringOps {
  import opened Flags86
  import opened WideArithmetic
  import opened Registers
  import opened CarryChain
  import opened FlatMemory

  /** The elements a string instruction visits: a segment, an index register and a direction. */
  datatype Walk = Walk(seg: Segment, start: U32, inc: int, addr32: bool)

  /** The offset of element k. */
  function Offset(w: Walk, k: nat): U32 {
    Part(Advance(w.start, k * w.inc, w.addr32), w.addr32)
  }

  function Place(w: Walk, k: nat): Addr {
    Plus(w.seg.base, Offset(w, k))
  }

  /** The byte at an address, as the bus reads it. */
  function ByteAt(m: FlatMemory.Memory, a: Addr): (r: nat)
    requires Full(m)
    ensures r < 0x100
  {
    ByteValue(FetchedValue(At(m, a), PERM_R))
  }

  function ByteValue(b: bv8): (r: nat)
    ensures r < 0x100
  {
    b as nat
  }

  /** Which comparisons end the instruction: the unequal ones for REPE, the equal ones for REPNE. */
  function Stops(left: seq<nat>, right: seq<nat>, repe: bool): (r: seq<bool>)
    requires |left| == |right|
    ensures |r| == |left|
  {
    seq(|left|, k requires 0 <= k < |left| => (left[k] == right[k]) != repe)
  }

  function Copies(x: nat, n: nat): (r: seq<nat>)
    ensures |r| == n && forall k :: 0 <= k < n ==> r[k] == x
  {
    seq(n, _ => x)
  }

  function BytesOf(m: FlatMemory.Memory, w: Walk, n: nat): (r: seq<nat>)
    requires Full(m)
    ensures |r| == n && forall k :: 0 <= k < n ==> r[k] == ByteAt(m, Place(w, k))
  {
    seq(n, k requires 0 <= k < n => ByteAt(m, Place(w, k)))
  }

  /** Elements compared until one stops the loop, or all of them. */
  function Moved(stops: seq<bool>): (r: nat)
    ensures r <= |stops|
  {
    if stops == [] then 0 else if stops[0] then 1 else 1 + Moved(stops[1..])
  }

  predicate NoStop(stops: seq<bool>, k: nat) {
    forall j :: 0 <= j < k && j < |stops| ==> !stops[j]
  }

  /** Going on for one element more. */
  lemma {:induction false} MovedNext(stops: seq<bool>, k: nat)
    requires k < |stops| && NoStop(stops, k) && (stops[k] || k + 1 == |stops|)
    ensures Moved(stops) == k + 1
    decreases k
  {
    if k > 0 {
      MovedNext(stops[1..], k - 1);
    }
  }

  /** The count has run out. */
  lemma AllMoved(stops: seq<bool>, k: nat)
    requires k == |stops| && NoStop(stops, k)
    ensures Moved(stops) == k
  {
    if k > 0 {
      MovedNext(stops, k - 1);
    }
  }

  // ---------- the bus ----------

  /** Memory after a byte was read. */
  function Touch(m: FlatMemory.Memory, a: Addr): (r: FlatMemory.Memory)
    requires Full(m)
    ensures Full(r)
  {
    Fetch(m.(invalid := false), a, PERM_R, ACC_R).0
  }

  /** Memory after the first n bytes of one walk, or of two by turns. */
  function Touched(m: FlatMemory.Memory, w: Walk, n: nat): (r: FlatMemory.Memory)
    requires Full(m)
    ensures Full(r)
    decreases n
  {
    if n == 0 then m else Touch(Touched(m, w, n - 1), Place(w, n - 1))
  }

  function TouchedBoth(m: FlatMemory.Memory, v: Walk, w: Walk, n: nat): (r: FlatMemory.Memory)
    requires Full(m)
    ensures Full(r)
    decreases n
  {
    if n == 0 then m else Touch(Touch(TouchedBoth(m, v, w, n - 1), Place(v, n - 1)), Place(w, n - 1))
  }

  ghost predicate SameBytes(m: FlatMemory.Memory, n: FlatMemory.Memory)
    requires Full(m) && Full(n)
  {
    forall b: Addr :: ByteAt(m, b) == ByteAt(n, b)
  }

  lemma CellKeeps(c: Cell)
    ensures FetchedValue(FetchedCell(c, PERM_R, ACC_R), PERM_R) == FetchedValue(c, PERM_R)
  {
  }

  /** A read leaves every byte as readable, and as it was, for the reads after it. */
  lemma TouchKeeps(m: FlatMemory.Memory, a: Addr)
    requires Full(m)
    ensures SameBytes(m, Touch(m, a))
  {
    var c := m.(invalid := false);
    assert forall b: Addr :: At(c, b) == At(m, b);
    FetchExact(c, a, PERM_R, ACC_R);
    CellKeeps(At(m, a));
    hide At, Fetch, FetchedCell, FetchedValue, FetchOk;
  }

  lemma {:induction false} TouchedKeeps(m: FlatMemory.Memory, w: Walk, n: nat)
    requires Full(m)
    ensures SameBytes(m, Touched(m, w, n))
    decreases n
  {
    hide ByteAt, Touch, Place;
    if n > 0 {
      TouchedKeeps(m, w, n - 1);
      TouchKeeps(Touched(m, w, n - 1), Place(w, n - 1));
    }
  }

  lemma {:induction false} TouchedBothKeeps(m: FlatMemory.Memory, v: Walk, w: Walk, n: nat)
    requires Full(m)
    ensures SameBytes(m, TouchedBoth(m, v, w, n))
    decreases n
  {
    hide ByteAt, Touch, Place;
    if n > 0 {
      TouchedBothKeeps(m, v, w, n - 1);
      var m1 := TouchedBoth(m, v, w, n - 1);
      TouchKeeps(m1, Place(v, n - 1));
      TouchKeeps(Touch(m1, Place(v, n - 1)), Place(w, n - 1));
    }
  }

  /** A byte that may be read (bit 0) reads as its data and is marked (bit 4); any other reads as 0xff. No other byte is touched. */
  lemma ByteSeen(m: FlatMemory.Memory, a: Addr)
    requires Full(m)
    ensures ByteAt(m, a) == if At(m, a).attr & 0x01 != 0 then ByteValue(At(m, a).data) else 0xff
    ensures At(m, a).attr & 0x01 != 0 ==> At(Touch(m, a), a).attr & 0x10 != 0
    ensures forall b: Addr :: b != a ==> At(Touch(m, a), b) == At(m, b)
  {
    var c := m.(invalid := false);
    assert forall b: Addr :: At(c, b) == At(m, b);
    FetchExact(c, a, PERM_R, ACC_R);
    FetchMarks(At(m, a), 0x01, 0x10);
    hide At, Fetch, FetchedCell, FetchedValue, FetchOk;
  }

  // ---------- the flags ----------

  /** The flags after the comparisons of n pairs. */
  function FlagsAfter(flags: bv32, left: seq<nat>, right: seq<nat>, n: nat): bv32
    requires n <= |left| == |right|
  {
    if n == 0 then flags else DifferenceFlags(flags, left[n - 1], right[n - 1], 0, Byte)
  }

  lemma FlagsNext(flags: bv32, left: seq<nat>, right: seq<nat>, n: nat)
    requires n < |left| == |right|
    ensures DifferenceFlags(FlagsAfter(flags, left, right, n), left[n], right[n], 0, Byte) == FlagsAfter(flags, left, right, n + 1)
  {
    hide DifferenceFlags;
    if n > 0 {
      ComparedTwice(flags, left[n - 1], right[n - 1], left[n], right[n], Byte);
    }
  }

  /** The offsets of the first n elements are within the limit. */
  ghost predicate Within(w: Walk, n: nat) {
    forall k {:trigger Offset(w, k)} :: 0 <= k < n ==> Offset(w, k) <= w.seg.limit
  }

  // ---------- what the instructions do ----------

  /**
   The registers the instructions use. src is the segment of the source operand: DS, unless a
   prefix names another. A fault is a pending general protection fault.
   */
  datatype Regs = Regs(flags: bv32, al: nat, ecx: U32, esi: U32, edi: U32, es: Segment, src: Segment,
                       mem: FlatMemory.Memory, fault: bool)

  predicate Good(r: Regs) {
    Full(r.mem) && r.al < 0x100
  }

  function Step(flags: bv32): int {
    if Has(flags, F_DF) then -1 else 1
  }

  function Destination(r: Regs, addr32: bool): Walk {
    Walk(r.es, r.edi, Step(r.flags), addr32)
  }

  function Source(r: Regs, addr32: bool): Walk {
    Walk(r.src, r.esi, Step(r.flags), addr32)
  }

  /** What SCAS and CMPS compare: AL, or the source, with the destination. */
  function LeftOf(r: Regs, cmps: bool, addr32: bool): (s: seq<nat>)
    requires Good(r)
    ensures |s| == Part(r.ecx, addr32) && forall k :: 0 <= k < |s| ==> s[k] < 0x100
  {
    if cmps then BytesOf(r.mem, Source(r, addr32), Part(r.ecx, addr32)) else Copies(r.al, Part(r.ecx, addr32))
  }

  function RightOf(r: Regs, addr32: bool): (s: seq<nat>)
    requires Good(r)
    ensures |s| == Part(r.ecx, addr32) && forall k :: 0 <= k < |s| ==> s[k] < 0x100
  {
    BytesOf(r.mem, Destination(r, addr32), Part(r.ecx, addr32))
  }

  /** The comparisons that end the repeated instruction. */
  function StopsOf(r: Regs, cmps: bool, addr32: bool, repe: bool): (s: seq<bool>)
    requires Good(r)
    ensures |s| == Part(r.ecx, addr32)
  {
    Stops(LeftOf(r, cmps, addr32), RightOf(r, addr32), repe)
  }

  /** The registers after k elements: counted down by k, moved on by k, the flags of the last comparison. */
  ghost function After(r: Regs, cmps: bool, addr32: bool, k: nat): (s: Regs)
    requires Good(r) && k <= Part(r.ecx, addr32)
    ensures Good(s) && s.al == r.al && s.es == r.es && s.src == r.src
  {
    var inc := Step(r.flags);
    var v, w := Source(r, addr32), Destination(r, addr32);
    r.(ecx := Advance(r.ecx, 0 - k, addr32),
       esi := if cmps then Advance(r.esi, k * inc, addr32) else r.esi,
       edi := Advance(r.edi, k * inc, addr32),
       flags := FlagsAfter(r.flags, LeftOf(r, cmps, addr32), RightOf(r, addr32), k),
       mem := if cmps then TouchedBoth(r.mem, v, w, k) else Touched(r.mem, w, k),
       fault := r.fault || !Within(w, k) || (cmps && !Within(v, k)))
  }

  // ---------- one element ----------

  function Counted(r: Regs, addr32: bool): Regs {
    r.(ecx := Advance(r.ecx, -1, addr32))
  }

  /** SCAS of one byte. */
  function ScasOnce(r: Regs, addr32: bool): (s: Regs)
    requires Good(r)
    ensures Good(s)
  {
    var ofs := Part(r.edi, addr32); var a := Plus(r.es.base, ofs);
    r.(edi := Advance(r.edi, Step(r.flags), addr32), mem := Touch(r.mem, a), fault := r.fault || ofs > r.es.limit,
       flags := DifferenceFlags(r.flags, r.al, ByteAt(r.mem, a), 0, Byte))
  }

  /** CMPS of one byte. */
  function CmpsOnce(r: Regs, addr32: bool): (s: Regs)
    requires Good(r)
    ensures Good(s)
  {
    var ofs1 := Part(r.esi, addr32); var a1 := Plus(r.src.base, ofs1);
    var ofs2 := Part(r.edi, addr32); var a2 := Plus(r.es.base, ofs2);
    var m := Touch(r.mem, a1);
    r.(esi := Advance(r.esi, Step(r.flags), addr32), edi := Advance(r.edi, Step(r.flags), addr32), mem := Touch(m, a2),
       fault := r.fault || ofs1 > r.src.limit || ofs2 > r.es.limit,
       flags := DifferenceFlags(r.flags, ByteAt(r.mem, a1), ByteAt(m, a2), 0, Byte))
  }

  function Once(r: Regs, cmps: bool, addr32: bool): (s: Regs)
    requires Good(r)
    ensures Good(s)
  {
    if cmps then CmpsOnce(r, addr32) else ScasOnce(r, addr32)
  }

  /** The flags after k elements have the direction flag they started with. */
  lemma StepKept(flags: bv32, left: seq<nat>, right: seq<nat>, k: nat)
    requires k <= |left| == |right|
    requires forall j :: 0 <= j < |left| ==> left[j] < 0x100 && right[j] < 0x100
    ensures Step(FlagsAfter(flags, left, right, k)) == Step(flags)
    ensures k > 0 ==> EvalCondition(FlagsAfter(flags, left, right, k), 4) == (left[k - 1] == right[k - 1])
    ensures k > 0 ==> EvalCondition(FlagsAfter(flags, left, right, k), 5) == (left[k - 1] != right[k - 1])
  {
    hide DifferenceFlags, Has, EvalCondition;
    if k > 0 {
      CompareEnds(flags, left[k - 1], right[k - 1]);
    }
  }

  /** Conditions Z and NZ after a comparison; the direction flag stays. */
  lemma CompareEnds(flags: bv32, d: nat, s: nat)
    requires d < 0x100 && s < 0x100
    ensures var f := DifferenceFlags(flags, d, s, 0, Byte);
      EvalCondition(f, 4) == (d == s) && EvalCondition(f, 5) == (d != s) && Has(f, F_DF) == Has(flags, F_DF)
  {
    CompareDecides(flags, d, s, Byte);
    DifferenceReads(flags, d, s, 0, Byte);
    hide Has, EvalCondition, DifferenceFlags;
    DirectionIs(DifferenceFlags(flags, d, s, 0, Byte), flags);
  }

  /** After one element more. */
  lemma OneMore(r: Regs, cmps: bool, addr32: bool, k: nat)
    requires Good(r) && k < Part(r.ecx, addr32)
    ensures Counted(Once(After(r, cmps, addr32, k), cmps, addr32), addr32) == After(r, cmps, addr32, k + 1)
  {
    hide DifferenceFlags, Touch, ByteAt, Advance, Part, Has, FlagsAfter;
    var inc := Step(r.flags);
    var left, right := LeftOf(r, cmps, addr32), RightOf(r, addr32);
    var v, w := Source(r, addr32), Destination(r, addr32);
    StepKept(r.flags, left, right, k);
    FlagsNext(r.flags, left, right, k);
    AdvanceTwice(r.ecx, 0 - k, -1, addr32);
    AdvanceTwice(r.esi, k * inc, inc, addr32);
    AdvanceTwice(r.edi, k * inc, inc, addr32);
    TouchedKeeps(r.mem, w, k);
    TouchedBothKeeps(r.mem, v, w, k);
    if cmps {
      TouchKeeps(TouchedBoth(r.mem, v, w, k), Place(v, k));
    }
  }

  /** Before the first, and what ends the loop: the count, or a comparison that stops it. */
  lemma AfterNone(r: Regs, cmps: bool, addr32: bool)
    requires Good(r)
    ensures After(r, cmps, addr32, 0) == r
  {
    AdvanceTwice(r.ecx, 0, 0, addr32);
    AdvanceTwice(r.esi, 0, 0, addr32);
    AdvanceTwice(r.edi, 0, 0, addr32);
    hide Advance;
  }

  lemma EndsWhen(r: Regs, cmps: bool, addr32: bool, repe: bool, k: nat)
    requires Good(r) && k <= Part(r.ecx, addr32)
    ensures Part(After(r, cmps, addr32, k).ecx, addr32) == Part(r.ecx, addr32) - k
    ensures k > 0 ==> EvalCondition(After(r, cmps, addr32, k).flags, if repe then 5 else 4) == StopsOf(r, cmps, addr32, repe)[k - 1]
  {
    CountLeft(r.ecx, k, addr32);
    hide DifferenceFlags, Touch, ByteAt, Advance, Part, Has, FlagsAfter;
    StepKept(r.flags, LeftOf(r, cmps, addr32), RightOf(r, addr32), k);
  }

  /** k is the first element that ends the instruction, or the count if none does. */
  predicate FirstEnd(left: seq<nat>, right: seq<nat>, repe: bool, k: nat)
    requires |left| == |right| && k <= |left|
  {
    (forall j :: 0 <= j < k ==> (left[j] == right[j]) == repe) && (k < |left| ==> (left[k] == right[k]) != repe)
  }

  lemma MovedIs(left: seq<nat>, right: seq<nat>, repe: bool, k: nat)
    requires |left| == |right| && k <= |left| && FirstEnd(left, right, repe, k)
    ensures Moved(Stops(left, right, repe)) == if k < |left| then k + 1 else k
  {
    var stops := Stops(left, right, repe);
    assert NoStop(stops, k);
    if k < |left| {
      MovedNext(stops, k);
    } else {
      AllMoved(stops, k);
    }
  }

  lemma IndexesAfter(r: Regs, cmps: bool, addr32: bool, k: nat)
    requires Good(r) && k <= Part(r.ecx, addr32)
    ensures var s := After(r, cmps, addr32, k);
      && s.edi == Advance(r.edi, k * Step(r.flags), addr32)
      && s.esi == (if cmps then Advance(r.esi, k * Step(r.flags), addr32) else r.esi)
  {
    hide Advance, Part, FlagsAfter, Touched, TouchedBoth, Within, BytesOf;
  }

  lemma StepIs(flags: bv32)
    ensures Step(flags) == if Has(flags, F_DF) then -1 else 1
  {
  }

  lemma BelowAfter(r: Regs, cmps: bool, addr32: bool, k: nat)
    requires Good(r) && 0 < k <= Part(r.ecx, addr32)
    ensures EvalCondition(After(r, cmps, addr32, k).flags, 2) == (LeftOf(r, cmps, addr32)[k - 1] < RightOf(r, addr32)[k - 1])
  {
    CompareDecides(r.flags, LeftOf(r, cmps, addr32)[k - 1], RightOf(r, addr32)[k - 1], Byte);
    hide DifferenceFlags, Touch, ByteAt, Advance, Part, Has, LeftOf, RightOf, EvalCondition;
  }

  /** What element j compares: AL or the byte at the source index, with the byte at the destination index. */
  lemma Compared(r: Regs, cmps: bool, addr32: bool, j: nat)
    requires Good(r) && j < Part(r.ecx, addr32)
    ensures var inc := if r.flags & 0x400 != 0 then -1 else 1;
      && RightOf(r, addr32)[j] == ByteAt(r.mem, Plus(r.es.base, Part(Advance(r.edi, j * inc, addr32), addr32)))
      && LeftOf(r, cmps, addr32)[j] ==
           if cmps then ByteAt(r.mem, Plus(r.src.base, Part(Advance(r.esi, j * inc, addr32), addr32))) else r.al
  {
    HasIs(r.flags);
    hide Advance, Part, ByteAt, Plus, Has;
  }

  /** A fault is pending after k elements iff one was before or one of their offsets is beyond its limit. */
  lemma RepeatFaults(r: Regs, cmps: bool, addr32: bool, k: nat)
    requires Good(r) && k <= Part(r.ecx, addr32)
    ensures var inc := if r.flags & 0x400 != 0 then -1 else 1;
      After(r, cmps, addr32, k).fault <==>
        || r.fault
        || (exists j {:trigger Advance(r.edi, j * inc, addr32)} :: 0 <= j < k && Part(Advance(r.edi, j * inc, addr32), addr32) > r.es.limit)
        || (cmps && exists j {:trigger Advance(r.esi, j * inc, addr32)} :: 0 <= j < k && Part(Advance(r.esi, j * inc, addr32), addr32) > r.src.limit)
  {
    HasIs(r.flags);
    hide Advance, Part, ByteAt, Has, FlagsAfter, Touched, TouchedBoth, BytesOf;
    WithinIs(Destination(r, addr32), k);
    WithinIs(Source(r, addr32), k);
  }

  lemma WithinIs(w: Walk, k: nat)
    ensures Within(w, k) <==> !exists j {:trigger Advance(w.start, j * w.inc, w.addr32)} ::
      0 <= j < k && Part(Advance(w.start, j * w.inc, w.addr32), w.addr32) > w.seg.limit
  {
    hide Advance, Part;
    if Within(w, k) {
      forall j {:trigger Advance(w.start, j * w.inc, w.addr32)} | 0 <= j < k
        ensures Part(Advance(w.start, j * w.inc, w.addr32), w.addr32) <= w.seg.limit
      {
        assert Offset(w, j) <= w.seg.limit;
      }
    }
  }

  /**
   Where REPE and REPNE stop. With k the first element that is unequal (REPE) or equal (REPNE),
   n - k - 1 is left of a count of n and the index registers are k + 1 elements on, in the
   direction of DF (bit 10); with no such element nothing is left of the count. The flags are those of
   the last comparison: ZF tells which it was, and CF whether it was below.
   */
  lemma RepeatStops(r: Regs, cmps: bool, addr32: bool, repe: bool, k: nat)
    requires Good(r) && k <= Part(r.ecx, addr32) && FirstEnd(LeftOf(r, cmps, addr32), RightOf(r, addr32), repe, k)
    ensures var n := Part(r.ecx, addr32); var s := After(r, cmps, addr32, Moved(StopsOf(r, cmps, addr32, repe)));
      var moved := if k < n then k + 1 else n; var inc := if r.flags & 0x400 != 0 then -1 else 1;
      && Part(s.ecx, addr32) == n - moved
      && s.edi == Advance(r.edi, moved * inc, addr32)
      && s.esi == (if cmps then Advance(r.esi, moved * inc, addr32) else r.esi)
      && (n > 0 ==> (s.flags & 0x040 != 0) == (repe == (k == n)))
      && (n > 0 ==> (s.flags & 0x001 != 0) == (LeftOf(r, cmps, addr32)[moved - 1] < RightOf(r, addr32)[moved - 1]))
      && (n == 0 ==> s == r)
  {
    hide Advance, Part, Has, EvalCondition, Moved, After, LeftOf, RightOf, Step, Good;
    var n := Part(r.ecx, addr32);
    var moved := if k < n then k + 1 else n;
    MovedIs(LeftOf(r, cmps, addr32), RightOf(r, addr32), repe, k);
    EndsWhen(r, cmps, addr32, repe, moved);
    AfterNone(r, cmps, addr32);
    IndexesAfter(r, cmps, addr32, moved);
    HasIs(r.flags);
    StepIs(r.flags);
    HasIs(After(r, cmps, addr32, moved).flags);
    Conditions(After(r, cmps, addr32, moved).flags);
    if n > 0 {
      BelowAfter(r, cmps, addr32, moved);
    }
  }

  // ---------- the code ----------

  class StringUnit {
    const alu: Alu
    var al: nat
    var ecx: U32
    var esi: U32
    var edi: U32
    var es: Segment
    var src: Segment
    var mem: FlatMemory.Memory
    var fault: bool

    ghost function View(): Regs
      reads this, alu
    {
      Regs(alu.flags, al, ecx, esi, edi, es, src, mem, fault)
    }

    ghost predicate Valid()
      reads this, alu
    {
      Good(View())
    }

    constructor (r: Regs)
      requires Good(r)
      ensures Valid() && fresh(alu) && View() == r
    {
      var a := new Alu(r.flags);
      alu := a;
      al, ecx, esi, edi := r.al, r.ecx, r.esi, r.edi;
      es, src, mem, fault := r.es, r.src, r.mem, r.fault;
    }

    /** fetch_data_byte_abs: the offset is checked against the limit, and the byte read all the same. */
    method FetchByte(seg: Segment, ofs: U32) returns (val: nat)
      requires Valid()
      modifies this`mem, this`fault
      ensures Valid() && Full(old(mem)) && mem == Touch(old(mem), Plus(seg.base, ofs))
      ensures val == ByteAt(old(mem), Plus(seg.base, ofs))
      ensures fault == (old(fault) || ofs > seg.limit)
    {
      hide FetchedValue, FetchedCell;
      if ofs > seg.limit {
        fault := true;
      }
      var (m, b) := Fetch(mem.(invalid := false), Plus(seg.base, ofs), PERM_R, ACC_R);
      mem := m;
      val := ByteValue(b);
    }

    /** x86emuOp_scas_byte without a REP prefix, and one round of it with one. */
    method ScasByte(addr32: bool)
      requires Valid()
      modifies this`edi, this`mem, this`fault, alu
      ensures Valid() && Good(old(View())) && View() == ScasOnce(old(View()), addr32)
    {
      hide Advance, Part, ByteAt, Touch, Has, DifferenceFlags;
      var inc := Step(alu.flags);
      var val := FetchByte(es, Part(edi, addr32));
      var _ := alu.Cmp(Byte, al, val);
      edi := Advance(edi, inc, addr32);
    }

    /** x86emuOp_cmps_byte, in the same way */
    method CmpsByte(addr32: bool)
      requires Valid()
      modifies this`esi, this`edi, this`mem, this`fault, alu
      ensures Valid() && Good(old(View())) && View() == CmpsOnce(old(View()), addr32)
    {
      hide Advance, Part, ByteAt, Touch, Has, DifferenceFlags;
      var inc := Step(alu.flags);
      var val1 := FetchByte(src, Part(esi, addr32));
      var val2 := FetchByte(es, Part(edi, addr32));
      var _ := alu.Cmp(Byte, val1, val2);
      esi := Advance(esi, inc, addr32);
      edi := Advance(edi, inc, addr32);
    }

    /** x86emuOp_scas_byte with a REP prefix */
    method RepScasByte(addr32: bool, repe: bool)
      requires Valid()
      modifies this`ecx, this`edi, this`mem, this`fault, alu
      ensures Valid() && Good(old(View()))
      ensures View() == After(old(View()), false, addr32, Moved(StopsOf(old(View()), false, addr32, repe)))
    {
      hide Advance, Part, ScasOnce, Has, EvalCondition, Moved, After, StopsOf, Good;
      ghost var r := View();
      ghost var stops := StopsOf(r, false, addr32, repe);
      ghost var k, stopped := 0, false;
      AfterNone(r, false, addr32);
      while Part(ecx, addr32) != 0
        invariant Valid() && k <= |stops| && NoStop(stops, k) && !stopped && View() == After(r, false, addr32, k)
        decreases |stops| - k
      {
        EndsWhen(r, false, addr32, repe, k);
        OneMore(r, false, addr32, k);
        EndsWhen(r, false, addr32, repe, k + 1);
        ScasByte(addr32);
        ecx := Advance(ecx, -1, addr32);
        k := k + 1;
        if EvalCondition(alu.flags, if repe then 5 else 4) {
          MovedNext(stops, k - 1);
          stopped := true;
          break;
        }
      }
      if !stopped {
        EndsWhen(r, false, addr32, repe, k);
        AllMoved(stops, k);
      }
    }

    /** x86emuOp_cmps_byte with a REP prefix */
    method RepCmpsByte(addr32: bool, repe: bool)
      requires Valid()
      modifies this`ecx, this`esi, this`edi, this`mem, this`fault, alu
      ensures Valid() && Good(old(View()))
      ensures View() == After(old(View()), true, addr32, Moved(StopsOf(old(View()), true, addr32, repe)))
    {
      hide Advance, Part, CmpsOnce, Has, EvalCondition, Moved, After, StopsOf, Good;
      ghost var r := View();
      ghost var stops := StopsOf(r, true, addr32, repe);
      ghost var k, stopped := 0, false;
      AfterNone(r, true, addr32);
      while Part(ecx, addr32) != 0
        invariant Valid() && k <= |stops| && NoStop(stops, k) && !stopped && View() == After(r, true, addr32, k)
        decreases |stops| - k
      {
        EndsWhen(r, true, addr32, repe, k);
        OneMore(r, true, addr32, k);
        EndsWhen(r, true, addr32, repe, k + 1);
        CmpsByte(addr32);
        ecx := Advance(ecx, -1, addr32);
        k := k + 1;
        if EvalCondition(alu.flags, if repe then 5 else 4) {
          MovedNext(stops, k - 1);
          stopped := true;
          break;
        }
      }
      if !stopped {
        EndsWhen(r, true, addr32, repe, k);
        AllMoved(stops, k);
      }
    }
  }
}

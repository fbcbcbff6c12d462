/**
 mem.c: a page directory of page tables of pages, each made when it is first needed. A page's
 buffer holds 4096 attribute bytes and then 4096 data bytes. Every method does to the ghost
 value `flat` what the flat memory does.
 */
module EmuMemory {
  import opened FlatMemory
  import opened Packed

  const ENTRIES := 1024

  /** mem2_page_t; attr is the buffer. Without one all attributes are defAttr and all data is 0. */
  datatype Entry = Entry(attr: array?<bv8>, defAttr: bv8)

  ghost predicate PageOk(e: Entry, p: nat, buffers: map<array<bv8>, nat>, cells: seq<Cell>)
    requires |cells| == PAGE
    reads e.attr
  {
    if e.attr == null then forall o :: 0 <= o < PAGE ==> cells[o] == Cell(e.defAttr, 0)
    else
      && e.attr.Length == 2 * PAGE && e.attr in buffers && buffers[e.attr] == p
      && forall o :: 0 <= o < PAGE ==> cells[o] == Cell(e.attr[o], e.attr[PAGE + o])
  }

  /** The directory: table i is known to be table i, so no two are the same. */
  ghost predicate DirOk(pdir: array?<array?<Entry>>, tables: map<array<Entry>, nat>)
    reads pdir
  {
    pdir != null ==>
      && pdir.Length == ENTRIES
      && forall i :: 0 <= i < ENTRIES ==> pdir[i] != null ==>
           pdir[i].Length == ENTRIES && pdir[i] in tables && tables[pdir[i]] == i
  }

  /** A buffer is longer than a table, so it is none. */
  ghost predicate Sized(tables: map<array<Entry>, nat>, buffers: map<array<bv8>, nat>) {
    (forall t :: t in tables ==> t.Length == ENTRIES) && (forall b :: b in buffers ==> b.Length == 2 * PAGE)
  }

  /** The entry of page p, or what a new table would hold. */
  ghost function EntryAt(pdir: array?<array?<Entry>>, tables: map<array<Entry>, nat>, defAttr: bv8, p: nat): Entry
    requires DirOk(pdir, tables) && p < PAGES
    reads pdir, tables.Keys
  {
    if pdir == null || pdir[p / ENTRIES] == null then Entry(null, defAttr)
    else pdir[p / ENTRIES][p % ENTRIES]
  }

  /** A page is unchanged when its buffer is made, and when another page's is. */
  lemma Materialised(e: Entry, buffer: array<bv8>, p: nat, buffers: map<array<bv8>, nat>, cells: seq<Cell>)
    requires |cells| == PAGE && PageOk(e, p, buffers, cells) && e.attr == null && buffer.Length == 2 * PAGE
    requires forall o :: 0 <= o < PAGE ==> buffer[o] == e.defAttr
    requires forall o :: PAGE <= o < 2 * PAGE ==> buffer[o] == 0
    ensures PageOk(e.(attr := buffer), p, buffers[buffer := p], cells)
  {
  }

  lemma MoreBuffers(e: Entry, q: nat, buffer: array<bv8>, p: nat, buffers: map<array<bv8>, nat>, cells: seq<Cell>)
    requires |cells| == PAGE && PageOk(e, q, buffers, cells) && buffer !in buffers
    ensures PageOk(e, q, buffers[buffer := p], cells)
  {
  }

  lemma EntryLength(e: Entry, p: nat, buffers: map<array<bv8>, nat>, cells: seq<Cell>)
    requires |cells| == PAGE && PageOk(e, p, buffers, cells) && e.attr != null
    ensures e.attr.Length == 2 * PAGE && e.attr in buffers && buffers[e.attr] == p
  {
  }

  lemma PaintedDefault(e: Entry, p: nat, perm: bv8, buffers: map<array<bv8>, nat>, cells: seq<Cell>, painted: seq<Cell>)
    requires |cells| == PAGE == |painted| && PageOk(e, p, buffers, cells) && e.attr == null
    requires forall o :: 0 <= o < PAGE ==> painted[o] == cells[o].(attr := perm)
    ensures PageOk(e.(defAttr := perm), p, buffers, painted)
  {
  }

  method SetAttributes(buffer: array<bv8>, attr: bv8)
    requires buffer.Length == 2 * PAGE
    modifies buffer
    ensures forall o :: 0 <= o < PAGE ==> buffer[o] == attr
    ensures forall o :: PAGE <= o < 2 * PAGE ==> buffer[o] == old(buffer[o])
  {
    for o := 0 to PAGE
      invariant forall j :: 0 <= j < o ==> buffer[j] == attr
      invariant forall j :: PAGE <= j < 2 * PAGE ==> buffer[j] == old(buffer[j])
    {
      buffer[o] := attr;
    }
  }

  /** memset of the attributes of a page that has been made. */
  method PaintBuffer(e: Entry, ghost p: nat, perm: bv8, ghost buffers: map<array<bv8>, nat>, ghost cells: seq<Cell>, ghost painted: seq<Cell>)
    requires |cells| == PAGE == |painted| && PageOk(e, p, buffers, cells) && e.attr != null
    requires forall o :: 0 <= o < PAGE ==> painted[o] == cells[o].(attr := perm)
    modifies e.attr
    ensures PageOk(e.(defAttr := perm), p, buffers, painted)
  {
    SetAttributes(e.attr, perm);
  }

  lemma OnePainted(first: seq<bv8>, before: seq<bv8>, after: seq<bv8>, lo: nat, p: nat, perm: bv8)
    requires DefaultsPainted(first, before, lo, PAGE * p, perm) && p < PAGES && after == before[p := perm] && lo <= PAGE * p
    ensures DefaultsPainted(first, after, lo, PAGE * p + PAGE, perm)
  {
  }

  // ---------- the entries of all pages ----------

  ghost predicate RowOk(e: Entry, p: nat, buffers: map<array<bv8>, nat>, cells: seq<Cell>)
    reads buffers.Keys
  {
    |cells| == PAGE && (e.attr == null || e.attr in buffers) && PageOk(e, p, buffers, cells)
  }

  /** Entries from page `base` on stand for the pages `cells`. */
  ghost predicate RowsOk(rows: seq<Entry>, base: nat, buffers: map<array<bv8>, nat>, cells: seq<seq<Cell>>)
    reads buffers.Keys
  {
    |rows| <= |cells| && forall k {:trigger rows[k]} :: 0 <= k < |rows| ==> RowOk(rows[k], base + k, buffers, cells[k])
  }

  /** The default attribute of every page, and which pages have a buffer. */
  ghost predicate Marks(es: seq<Entry>, defaults: seq<bv8>, made: set<nat>) {
    |defaults| == |es| && forall p :: 0 <= p < |es| ==> es[p].defAttr == defaults[p] && (es[p].attr != null <==> p in made)
  }

  lemma RowsMade(es: seq<Entry>, p: nat, buffer: array<bv8>, buffers: map<array<bv8>, nat>, pages: seq<seq<Cell>>)
    requires RowsOk(es, 0, buffers, pages) && p < |es| && es[p].attr == null && buffer !in buffers && buffer.Length == 2 * PAGE
    requires forall o :: 0 <= o < PAGE ==> buffer[o] == es[p].defAttr
    requires forall o :: PAGE <= o < 2 * PAGE ==> buffer[o] == 0
    ensures RowsOk(es[p := es[p].(attr := buffer)], 0, buffers[buffer := p], pages)
  {
    hide PageOk;
    forall q | 0 <= q < |es|
      ensures RowOk(es[p := es[p].(attr := buffer)][q], q, buffers[buffer := p], pages[q])
    {
      assert RowOk(es[q], 0 + q, buffers, pages[q]);
      if q == p {
        Materialised(es[p], buffer, p, buffers, pages[p]);
      } else {
        MoreBuffers(es[q], q, buffer, p, buffers, pages[q]);
      }
    }
  }

  /** The body of the page loop of x86emu_set_perm. */
  method PaintRow(e: Entry, perm: bv8, ghost es: seq<Entry>, ghost p: nat,
                  ghost buffers: map<array<bv8>, nat>, ghost pages: seq<seq<Cell>>, ghost painted: seq<Cell>)
    requires RowsOk(es, 0, buffers, pages) && p < |es| == |pages| && e == es[p] && |painted| == |pages[p]|
    requires forall o :: 0 <= o < |painted| ==> painted[o] == pages[p][o].(attr := perm)
    modifies if e.attr == null then {} else {e.attr}
    ensures RowsOk(es[p := e.(defAttr := perm)], 0, buffers, pages[p := painted])
  {
    assert RowOk(e, 0 + p, buffers, pages[p]);
    if e.attr != null {
      PaintBuffer(e, p, perm, buffers, pages[p], painted);
    } else {
      PaintedDefault(e, p, perm, buffers, pages[p], painted);
    }
    forall q | 0 <= q < |es| && q != p
      ensures RowOk(es[q], 0 + q, buffers, pages[q])
    {
      assert old(RowOk(es[q], 0 + q, buffers, pages[q]));
    }
  }

  method StoreByte(o: nat, buffer: array<bv8>, data: bool, v: bv8,
                   ghost e: Entry, ghost p: nat, ghost buffers: map<array<bv8>, nat>, ghost cells: seq<Cell>)
    requires o < PAGE == |cells| && PageOk(e, p, buffers, cells) && e.attr == buffer
    modifies buffer
    ensures PageOk(e, p, buffers, cells[o := if data then cells[o].(data := v) else cells[o].(attr := v)])
  {
    if data {
      buffer[PAGE + o] := v;
    } else {
      buffer[o] := v;
    }
  }

  lemma ClearParts(c: Cell)
    ensures Clear(c) == Cell(c.attr & (PERM_R | PERM_W | PERM_X | PERM_VALID), c.data)
  {
  }

  /** The loop over the attribute bytes of a page. */
  method ClearBuffer(e: Entry, ghost p: nat, ghost buffers: map<array<bv8>, nat>, ghost cells: seq<Cell>)
    requires |cells| == PAGE && PageOk(e, p, buffers, cells) && e.attr != null
    modifies e.attr
    ensures PageOk(e, p, buffers, Cleared(cells))
  {
    var attr: array<bv8> := e.attr;
    hide Clear;
    assert attr.Length == 2 * PAGE;
    forall j | 0 <= j < PAGE
      ensures attr[j] == cells[j].attr
    {
      assert cells[j] == Cell(attr[j], attr[PAGE + j]);
    }
    for o := 0 to PAGE
      invariant forall j {:trigger attr[j]} :: 0 <= j < o ==> attr[j] == Clear(cells[j]).attr
      invariant forall j {:trigger attr[j]} :: o <= j < PAGE ==> attr[j] == cells[j].attr
      invariant forall j :: PAGE <= j < 2 * PAGE ==> attr[j] == old(attr[j])
    {
      ClearParts(cells[o]);
      attr[o] := attr[o] & (PERM_R | PERM_W | PERM_X | PERM_VALID);
    }
    forall o | 0 <= o < PAGE
      ensures Cleared(cells)[o] == Cell(attr[o], attr[PAGE + o])
    {
      ClearParts(cells[o]);
    }
  }

  method StoreRow(o: nat, buffer: array<bv8>, data: bool, v: bv8,
                  ghost es: seq<Entry>, ghost p: nat, ghost buffers: map<array<bv8>, nat>, ghost pages: seq<seq<Cell>>)
    requires RowsOk(es, 0, buffers, pages) && p < |es| == |pages| && es[p].attr == buffer && o < PAGE == |pages[p]|
    modifies buffer
    ensures var c := pages[p][o];
      RowsOk(es, 0, buffers, pages[p := pages[p][o := if data then c.(data := v) else c.(attr := v)]])
  {
    assert RowOk(es[p], 0 + p, buffers, pages[p]);
    StoreByte(o, buffer, data, v, es[p], p, buffers, pages[p]);
    forall q | 0 <= q < |es| && q != p
      ensures RowOk(es[q], 0 + q, buffers, pages[q])
    {
      assert old(RowOk(es[q], 0 + q, buffers, pages[q]));
    }
  }

  method ClearRow(e: Entry, ghost es: seq<Entry>, ghost p: nat, ghost buffers: map<array<bv8>, nat>, ghost pages: seq<seq<Cell>>)
    requires RowsOk(es, 0, buffers, pages) && p < |es| == |pages| && e == es[p] && e.attr != null
    modifies e.attr
    ensures RowsOk(es, 0, buffers, pages[p := Cleared(pages[p])])
  {
    assert RowOk(e, 0 + p, buffers, pages[p]);
    ClearBuffer(e, p, buffers, pages[p]);
    forall q | 0 <= q < |es| && q != p
      ensures RowOk(es[q], 0 + q, buffers, pages[q])
    {
      assert old(RowOk(es[q], 0 + q, buffers, pages[q]));
    }
  }

  // ---------- emu_mem_clone ----------

  /** Slot k of the copied directory: empty as the original's, or a table of its own. */
  ghost predicate SlotOk(copy: array?<Entry>, original: array?<Entry>, k: nat,
                         tables: map<array<Entry>, nat>, made: map<array<bv8>, nat>, pages: seq<seq<Cell>>)
    requires k < ENTRIES && |pages| == PAGES
    reads copy, made.Keys
  {
    (original == null <==> copy == null) && (copy != null ==>
      && copy.Length == ENTRIES && copy in tables && tables[copy] == k
      && RowsOk(copy[..], k * ENTRIES, made, pages[k * ENTRIES..(k + 1) * ENTRIES]))
  }

  /** A page stays as it is when more buffers become known. */
  lemma RowIn(e: Entry, p: nat, some: map<array<bv8>, nat>, all: map<array<bv8>, nat>, cells: seq<Cell>)
    requires RowOk(e, p, some, cells)
    requires forall b :: b in some ==> b in all && all[b] == some[b]
    ensures RowOk(e, p, all, cells)
  {
  }

  lemma RowsIn(rows: seq<Entry>, base: nat, some: map<array<bv8>, nat>, all: map<array<bv8>, nat>, cells: seq<seq<Cell>>)
    requires RowsOk(rows, base, some, cells)
    requires forall b :: b in some ==> b in all && all[b] == some[b]
    ensures RowsOk(rows, base, all, cells)
  {
    hide RowOk;
    forall k | 0 <= k < |rows|
      ensures RowOk(rows[k], base + k, all, cells[k])
    {
      RowIn(rows[k], base + k, some, all, cells[k]);
    }
  }

  lemma MoreRows(rows: seq<Entry>, base: nat, made: map<array<bv8>, nat>, cells: seq<seq<Cell>>, e: Entry, grown: map<array<bv8>, nat>)
    requires RowsOk(rows, base, made, cells) && |rows| < |cells|
    requires RowOk(e, base + |rows|, grown, cells[|rows|])
    requires forall b :: b in made ==> b in grown && grown[b] == made[b]
    ensures RowsOk(rows + [e], base, grown, cells)
  {
    RowsIn(rows, base, made, grown, cells);
    hide RowOk;
  }

  lemma NoRows(base: nat, cells: seq<seq<Cell>>)
    ensures RowsOk([], base, map[], cells)
  {
  }

  lemma RowIs(rows: seq<Entry>, base: nat, buffers: map<array<bv8>, nat>, cells: seq<seq<Cell>>, j: nat)
    requires RowsOk(rows, base, buffers, cells) && j < |rows|
    ensures j < |cells| && RowOk(rows[j], base + j, buffers, cells[j])
  {
  }

  /** mem_dup of a page's buffer */
  method Duplicate(buffer: array<bv8>) returns (dup: array<bv8>)
    requires buffer.Length == 2 * PAGE
    ensures fresh(dup) && dup.Length == 2 * PAGE && dup[..] == buffer[..]
  {
    dup := new bv8[2 * PAGE](_ => 0);
    for o := 0 to 2 * PAGE
      invariant dup[..o] == buffer[..o]
    {
      dup[o] := buffer[o];
    }
  }

  lemma CopiedPage(e: Entry, p: nat, buffers: map<array<bv8>, nat>, cells: seq<Cell>, dup: array<bv8>, made: map<array<bv8>, nat>)
    requires |cells| == PAGE && PageOk(e, p, buffers, cells) && e.attr != null
    requires dup.Length == 2 * PAGE && dup[..] == e.attr[..] && dup in made && made[dup] == p
    ensures PageOk(e.(attr := dup), p, made, cells)
  {
    forall i | 0 <= i < 2 * PAGE
      ensures dup[i] == e.attr[i]
    {
      assert dup[..][i] == e.attr[..][i];
    }
  }

  lemma UnmadePage(e: Entry, p: nat, buffers: map<array<bv8>, nat>, made: map<array<bv8>, nat>, cells: seq<Cell>)
    requires |cells| == PAGE && PageOk(e, p, buffers, cells) && e.attr == null
    ensures PageOk(e, p, made, cells)
  {
  }

  /** A copy of a page. */
  method CloneEntry(e: Entry, ghost p: nat, ghost buffers: map<array<bv8>, nat>, ghost cells: seq<Cell>, ghost made: map<array<bv8>, nat>)
    returns (copy: Entry, ghost grown: map<array<bv8>, nat>)
    requires RowOk(e, p, buffers, cells)
    ensures RowOk(copy, p, grown, cells) && copy.defAttr == e.defAttr
    ensures grown == made || (copy.attr != null && fresh(copy.attr) && copy.attr !in made && copy.attr.Length == 2 * PAGE && grown == made[copy.attr := p])
  {
    hide PageOk;
    copy, grown := e, made;
    if e.attr != null {
      EntryLength(e, p, buffers, cells);
      var dup := Duplicate(e.attr);
      assert dup !in made;
      grown := made[dup := p];
      CopiedPage(e, p, buffers, cells, dup, grown);
      copy := e.(attr := dup);
    } else {
      UnmadePage(e, p, buffers, made, cells);
    }
  }

  /** mem_dup of a table, with the buffers of its pages. */
  method CloneTable(table: array<Entry>, ghost base: nat, ghost buffers: map<array<bv8>, nat>, ghost cells: seq<seq<Cell>>)
    returns (copy: array<Entry>, ghost made: map<array<bv8>, nat>)
    requires table.Length == ENTRIES == |cells| && RowsOk(table[..], base, buffers, cells)
    ensures fresh(copy) && fresh(made.Keys) && copy.Length == ENTRIES
    ensures RowsOk(copy[..], base, made, cells)
    ensures forall b :: b in made ==> base <= made[b] < base + ENTRIES && b.Length == 2 * PAGE
  {
    hide PageOk, RowsOk;
    copy := new Entry[ENTRIES](_ => Entry(null, 0));
    made := map[];
    NoRows(base, cells);
    assert copy[..0] == [];
    for j := 0 to ENTRIES
      invariant fresh(copy) && fresh(made.Keys) && (copy as object) !in made.Keys
      invariant RowsOk(table[..], base, buffers, cells) && RowsOk(copy[..j], base, made, cells)
      invariant forall b :: b in made ==> base <= made[b] < base + ENTRIES && b.Length == 2 * PAGE
    {
      RowIs(table[..], base, buffers, cells, j);
      var e: Entry;
      ghost var known := made;
      e, made := CloneEntry(table[j], base + j, buffers, cells[j], made);
      MoreRows(copy[..j], base, known, cells, e, made);
      ghost var rows := copy[..j] + [e];
      assert RowsOk(rows, base, made, cells);
      copy[j] := e;
      assert RowsOk(rows, base, made, cells);
      assert copy[..j + 1] == rows;
    }
    assert copy[..ENTRIES] == copy[..];
  }

  lemma SlotKept(copy: array?<Entry>, original: array?<Entry>, k: nat, tables: map<array<Entry>, nat>, made: map<array<bv8>, nat>,
                 pages: seq<seq<Cell>>, table: array<Entry>, i: nat, more: map<array<bv8>, nat>)
    requires k < ENTRIES && |pages| == PAGES && SlotOk(copy, original, k, tables, made, pages)
    requires table !in tables && made.Keys !! more.Keys
    ensures SlotOk(copy, original, k, tables[table := i], made + more, pages)
  {
    hide RowsOk;
    if copy != null {
      RowsIn(copy[..], k * ENTRIES, made, made + more, pages[k * ENTRIES..(k + 1) * ENTRIES]);
    }
  }

  lemma NewSlot(table: array<Entry>, original: array<Entry>, i: nat, tables: map<array<Entry>, nat>,
                made: map<array<bv8>, nat>, more: map<array<bv8>, nat>, pages: seq<seq<Cell>>)
    requires i < ENTRIES && |pages| == PAGES && table.Length == ENTRIES && made.Keys !! more.Keys
    requires table in tables && tables[table] == i
    requires RowsOk(table[..], i * ENTRIES, more, pages[i * ENTRIES..(i + 1) * ENTRIES])
    ensures SlotOk(table, original, i, tables, made + more, pages)
  {
    hide RowsOk;
    RowsIn(table[..], i * ENTRIES, more, made + more, pages[i * ENTRIES..(i + 1) * ENTRIES]);
  }

  lemma NoSlot(i: nat, tables: map<array<Entry>, nat>, made: map<array<bv8>, nat>, pages: seq<seq<Cell>>)
    requires i < ENTRIES && |pages| == PAGES
    ensures SlotOk(null, null, i, tables, made, pages)
  {
  }

  /** The loop over the directory. */
  method CloneDir(dir: array<array?<Entry>>, ghost buffers: map<array<bv8>, nat>, ghost pages: seq<seq<Cell>>)
    returns (copy: array<array?<Entry>>, ghost tables: map<array<Entry>, nat>, ghost made: map<array<bv8>, nat>)
    requires dir.Length == ENTRIES && |pages| == PAGES
    requires forall k {:trigger dir[k]} :: 0 <= k < ENTRIES && dir[k] != null ==>
      dir[k].Length == ENTRIES && RowsOk(dir[k][..], k * ENTRIES, buffers, pages[k * ENTRIES..(k + 1) * ENTRIES])
    ensures fresh(copy) && fresh(tables.Keys) && fresh(made.Keys) && copy.Length == ENTRIES && Sized(tables, made)
    ensures forall k {:trigger copy[k]} :: 0 <= k < ENTRIES ==> SlotOk(copy[k], dir[k], k, tables, made, pages)
  {
    hide SlotOk, RowsOk;
    copy := new array?<Entry>[ENTRIES](_ => null);
    tables, made := map[], map[];
    for i := 0 to ENTRIES
      invariant fresh(copy) && fresh(tables.Keys) && fresh(made.Keys) && Sized(tables, made)
      invariant (copy as object) !in made.Keys && (copy as object) !in tables.Keys
      invariant forall k {:trigger copy[k]} :: i <= k < ENTRIES ==> copy[k] == null
      invariant forall k {:trigger copy[k]} :: 0 <= k < i ==> copy[k] != null ==> copy[k] in tables
      invariant forall k {:trigger copy[k]} :: 0 <= k < i ==> SlotOk(copy[k], dir[k], k, tables, made, pages)
    {
      ghost var before := copy[..];
      if dir[i] != null {
        var table, more := CloneTable(dir[i], i * ENTRIES, buffers, pages[i * ENTRIES..(i + 1) * ENTRIES]);
        NewSlot(table, dir[i], i, tables[table := i], made, more, pages);
        forall k {:trigger copy[k]} | 0 <= k < i
          ensures SlotOk(copy[k], dir[k], k, tables[table := i], made + more, pages)
        {
          SlotKept(copy[k], dir[k], k, tables, made, pages, table, i, more);
        }
        copy[i] := table;
        tables, made := tables[table := i], made + more;
      } else {
        NoSlot(i, tables, made, pages);
      }
      forall k {:trigger copy[k]} | 0 <= k < i + 1
        ensures SlotOk(copy[k], dir[k], k, tables, made, pages)
      {
        assert k < i ==> copy[k] == before[k];
      }
    }
  }

  // ---------- accesses, on the flat memory ----------

  datatype Access = Reading | Writing | Executing | Unknown

  /** What a wide read returns, as a number. */
  function Reads(m: Memory, a: Addr, n: nat, need: bv8, mark: bv8): (Memory, bv32)
    requires Full(m)
  {
    var (r, v) := FetchAll(m, a, n, need, mark);
    (r, Value(v))
  }

  function ReadOn(m: Memory, a: Addr, val: bv32, bits: nat): (Memory, bv32)
    requires Full(m)
  {
    if bits == 0 then var (r, b) := Fetch(m, a, PERM_R, ACC_R); (r, b as bv32)
    else if bits == 1 then Reads(m, a, 2, PERM_R, ACC_R)
    else if bits == 2 then Reads(m, a, 4, PERM_R, ACC_R)
    else if bits == 3 then (m, At(m, a).data as bv32)
    else (m, val)
  }

  function WriteOn(m: Memory, a: Addr, val: bv32, bits: nat): Memory
    requires Full(m)
  {
    if bits == 0 then Write(m, a, First(val))
    else if bits == 1 then WriteAll(m, a, Bytes(val, 2))
    else if bits == 2 then WriteAll(m, a, Bytes(val, 4))
    else if bits == 3 then WriteAnyway(m, a, First(val))
    else m
  }

  function ExecOn(m: Memory, a: Addr, val: bv32, bits: nat): (Memory, bv32)
    requires Full(m)
  {
    if bits == 0 then var (r, b) := Fetch(m, a, PERM_X, ACC_X); (r, b as bv32)
    else if bits == 1 then Reads(m, a, 2, PERM_X, ACC_X)
    else if bits == 2 then Reads(m, a, 4, PERM_X, ACC_X)
    else (m, val)
  }

  /** vm_memio on the flat memory. */
  function MemIoOn(m: Memory, a: Addr, val: bv32, access: Access, bits: nat): (Memory, bv32)
    requires Full(m)
  {
    var m := m.(invalid := false);
    match access
    case Reading => ReadOn(m, a, val, bits)
    case Writing => (WriteOn(m, a, val, bits), val)
    case Executing => ExecOn(m, a, val, bits)
    case Unknown => (m, val)
  }

  lemma FetchTwo(m: Memory, a: Addr, need: bv8, mark: bv8)
    requires Full(m)
    ensures var (m1, b0) := Fetch(m, a, need, mark); var (m2, b1) := Fetch(m1, Plus(a, 1), need, mark);
      FetchAll(m, a, 2, need, mark) == (m2, [b0, b1])
  {
    var (m1, b0) := Fetch(m, a, need, mark);
    var (m2, b1) := Fetch(m1, Plus(a, 1), need, mark);
    assert FetchAll(m2, Plus(Plus(a, 1), 1), 0, need, mark) == (m2, []);
    assert FetchAll(m1, Plus(a, 1), 1, need, mark) == (m2, [b1] + []);
    assert [b0] + ([b1] + []) == [b0, b1];
  }

  lemma FetchFour(m: Memory, a: Addr, need: bv8, mark: bv8)
    requires Full(m)
    ensures var (m1, b0) := Fetch(m, a, need, mark); var (m2, b1) := Fetch(m1, Plus(a, 1), need, mark);
      var (m3, b2) := Fetch(m2, Plus(a, 2), need, mark); var (m4, b3) := Fetch(m3, Plus(a, 3), need, mark);
      FetchAll(m, a, 4, need, mark) == (m4, [b0, b1, b2, b3])
  {
    hide Fetch, Plus;
    var (m1, b0) := Fetch(m, a, need, mark);
    var (m2, b1) := Fetch(m1, Plus(a, 1), need, mark);
    PlusPlus(a, 1, 1);
    PlusPlus(a, 2, 1);
    FetchTwo(m2, Plus(a, 2), need, mark);
    var (m4, v) := FetchAll(m2, Plus(a, 2), 2, need, mark);
    assert FetchAll(m1, Plus(a, 1), 3, need, mark) == (m4, [b1] + v);
    assert FetchAll(m, a, 4, need, mark) == (m4, [b0] + ([b1] + v));
    assert [b0] + ([b1] + v) == [b0, b1, v[0], v[1]];
  }

  lemma ReadsHalves(m: Memory, a: Addr, need: bv8, mark: bv8)
    requires Full(m)
    ensures Full(Reads(m, a, 2, need, mark).0)
    ensures var (m1, lo) := Reads(m, a, 2, need, mark); var (m2, hi) := Reads(m1, Plus(a, 2), 2, need, mark);
      Reads(m, a, 4, need, mark) == (m2, AddHigh(lo, hi))
  {
    hide Fetch, Plus, Value, FetchAll, Add16, Load16, AddHigh;
    FetchFour(m, a, need, mark);
    FetchTwo(m, a, need, mark);
    PlusPlus(a, 2, 1);
    var (m1, v) := FetchAll(m, a, 2, need, mark);
    FetchTwo(m1, Plus(a, 2), need, mark);
    var (m2, w) := FetchAll(m1, Plus(a, 2), 2, need, mark);
    var all := FetchAll(m, a, 4, need, mark).1;
    assert v == [v[0], v[1]] && w == [w[0], w[1]] && all == [v[0], v[1], w[0], w[1]];
    ValueHalves(v[0], v[1], w[0], w[1]);
    Value2(v[0], v[1]);
    Value2(w[0], w[1]);
  }

  /** r is m with v stored from a upwards. */
  ghost predicate StoredRun(m: Memory, a: Addr, data: bool, v: seq<bv8>, r: Memory)
    requires Full(m)
  {
    && Full(r) && r.invalid == m.invalid && a + |v| <= SIZE
    && (forall k {:trigger v[k]} :: 0 <= k < |v| ==>
          At(r, a + k) == if data then At(m, a + k).(data := v[k]) else At(m, a + k).(attr := v[k]))
    && (forall b: Addr :: !(a <= b < a + |v|) ==> At(r, b) == At(m, b))
  }

  lemma StoredPlus(m: Memory, a: Addr, v: seq<bv8>, r: Memory)
    requires Full(m) && StoredRun(m, a, true, v, r)
    ensures Full(r) && r.invalid == m.invalid
    ensures forall k {:trigger v[k]} :: 0 <= k < |v| ==> At(r, Plus(a, k)) == At(m, Plus(a, k)).(data := v[k])
    ensures forall b: Addr :: !Among(a, |v|, b) ==> At(r, b) == At(m, b)
  {
    hide At;
    forall k {:trigger v[k]} | 0 <= k < |v|
      ensures At(r, Plus(a, k)) == At(m, Plus(a, k)).(data := v[k])
    {
      assert Plus(a, k) == a + k;
    }
  }

  function Stamped(c: Cell, x: bv8): (r: Cell)
    ensures r.data == c.data
  {
    c.(attr := c.attr | x)
  }

  lemma StampedIs(c: Cell, x: bv8)
    ensures Stamped(c, x) == c.(attr := c.attr | x)
  {
  }

  /** The four attribute bytes of Or32, one by one. */
  lemma FourStamps(m: Memory, a: Addr, x: bv8, v: seq<bv8>, attrs: seq<bv8>)
    requires Full(m) && |v| == 4 == |attrs| && (forall k :: 0 <= k < 4 ==> v[k] == With(attrs[k], x))
    requires forall k {:trigger Plus(a, k)} :: 0 <= k < 4 ==> Plus(a, k) == a + k && At(m, Plus(a, k)).attr == attrs[k]
    ensures forall k {:trigger v[k]} :: 0 <= k < 4 ==> Plus(a, k) == a + k && At(m, a + k).(attr := v[k]) == Stamped(At(m, a + k), x)
  {
    hide At, Plus, Stamped;
    forall k {:trigger v[k]} | 0 <= k < 4
      ensures Plus(a, k) == a + k && At(m, a + k).(attr := v[k]) == Stamped(At(m, a + k), x)
    {
      assert At(m, Plus(a, k)).attr == attrs[k];
      StampedIs(At(m, a + k), x);
    }
  }

  /** r is m with the bits x added to the attributes of n bytes. */
  ghost predicate MarkedRun(m: Memory, a: Addr, n: nat, x: bv8, r: Memory)
    requires Full(m)
  {
    && Full(r) && r.invalid == m.invalid
    && forall b: Addr :: At(r, b) == if Among(a, n, b) then Stamped(At(m, b), x) else At(m, b)
  }

  lemma MarkedFour(m: Memory, a: Addr, x: bv8, v: seq<bv8>, r: Memory)
    requires Full(m) && |v| == 4 && StoredRun(m, a, false, v, r)
    requires forall k {:trigger v[k]} :: 0 <= k < 4 ==> At(m, a + k).(attr := v[k]) == Stamped(At(m, a + k), x)
    ensures MarkedRun(m, a, 4, x, r)
  {
    hide At, Stamped;
    forall b: Addr
      ensures At(r, b) == if Among(a, 4, b) then Stamped(At(m, b), x) else At(m, b)
    {
      if a <= b < a + 4 {
        var k := b - a;
        var byte := v[k];
        assert At(r, a + k) == At(m, a + k).(attr := byte);
      }
    }
  }

  lemma WriteFour(m: Memory, a: Addr, v: bv32)
    requires Full(m)
    ensures WriteAll(m, a, Bytes(v, 4)) ==
      Write(Write(Write(Write(m, a, First(v)), Plus(a, 1), Second(v)), Plus(a, 2), Third(v)), Plus(a, 3), Fourth(v))
  {
    hide Write, Plus, First, Second, Third, Fourth;
    PlusPlus(a, 1, 1);
    PlusPlus(a, 2, 1);
    var m1 := Write(m, a, First(v));
    var m2 := Write(m1, Plus(a, 1), Second(v));
    var m3 := Write(m2, Plus(a, 2), Third(v));
    var m4 := Write(m3, Plus(a, 3), Fourth(v));
    assert Bytes(v, 4) == [First(v), Second(v), Third(v), Fourth(v)];
    assert Bytes(v, 4)[1..] == [Second(v), Third(v), Fourth(v)];
    assert Bytes(v, 4)[1..][1..] == [Third(v), Fourth(v)] && Bytes(v, 4)[1..][1..][1..] == [Fourth(v)];
    assert [Fourth(v)][1..] == [];
    assert WriteAll(m3, Plus(a, 3), [Fourth(v)]) == WriteAll(m4, Plus(Plus(a, 3), 1), []) == m4;
    assert WriteAll(m2, Plus(a, 2), [Third(v), Fourth(v)]) == m4;
    assert WriteAll(m1, Plus(a, 1), [Second(v), Third(v), Fourth(v)]) == m4;
  }

  lemma OkCell(c: Cell, need: bv8, mark: bv8)
    requires FetchOk(c, need)
    ensures FetchedCell(c, need, mark) == Stamped(c, mark) && FetchedValue(c, need) == c.data
  {
  }

  /** The fast path is right when every byte is readable and valid. */
  lemma FastFetch(m: Memory, a: Addr, n: nat, need: bv8, mark: bv8, r: Memory)
    requires Full(m) && n <= SIZE && MarkedRun(m, a, n, mark, r)
    requires forall b: Addr :: Among(a, n, b) ==> FetchOk(At(m, b), need)
    ensures FetchAll(m, a, n, need, mark).0 == r
    ensures forall k {:trigger Plus(a, k)} :: 0 <= k < n ==> FetchAll(m, a, n, need, mark).1[k] == At(m, Plus(a, k)).data
  {
    hide At, FetchAll, FetchOk, FetchedCell, FetchedValue, Stamped;
    FetchAllExact(m, a, n, need, mark);
    forall k {:trigger Plus(a, k)} | 0 <= k < n
      ensures FetchOk(At(m, Plus(a, k)), need) && FetchedValue(At(m, Plus(a, k)), need) == At(m, Plus(a, k)).data
    {
      assert Among(a, n, Plus(a, k));
      OkCell(At(m, Plus(a, k)), need, mark);
    }
    hide Plus, Among;
    forall b: Addr
      ensures At(r, b) == At(FetchAll(m, a, n, need, mark).0, b)
    {
      if Among(a, n, b) {
        OkCell(At(m, b), need, mark);
      }
    }
    SameMemory(r, FetchAll(m, a, n, need, mark).0);
  }

  /** The test of the fast paths on one byte. */
  predicate Readable(c: Cell) {
    HasAll(c.attr, PERM_R | PERM_VALID)
  }

  lemma ReadableOk(c: Cell)
    requires Readable(c)
    ensures FetchOk(c, PERM_R)
  {
  }

  lemma FastRead32(m: Memory, a: Addr, r: Memory, v: bv32)
    requires Full(m) && MarkedRun(m, a, 4, ACC_R, r)
    requires forall k {:trigger Plus(a, k)} :: 0 <= k < 4 ==> Readable(At(m, Plus(a, k)))
    requires v == Pack32(At(m, Plus(a, 0)).data, At(m, Plus(a, 1)).data, At(m, Plus(a, 2)).data, At(m, Plus(a, 3)).data)
    ensures (r, v) == Reads(m, a, 4, PERM_R, ACC_R)
  {
    hide At, FetchOk, FetchAll, Pack32, Value, MarkedRun, Readable;
    forall b: Addr | Among(a, 4, b)
      ensures FetchOk(At(m, b), PERM_R)
    {
      assert Plus(a, (b - a) % SIZE) == b;
      ReadableOk(At(m, b));
    }
    hide Plus, Among;
    FastFetch(m, a, 4, PERM_R, ACC_R, r);
    var d := FetchAll(m, a, 4, PERM_R, ACC_R).1;
    assert d[0] == At(m, Plus(a, 0)).data && d[1] == At(m, Plus(a, 1)).data;
    assert d[2] == At(m, Plus(a, 2)).data && d[3] == At(m, Plus(a, 3)).data;
    Value4(d[0], d[1], d[2], d[3]);
    assert d == [d[0], d[1], d[2], d[3]];
  }

  method Or32In(buffer: array<bv8>, o: nat, x: bv8) returns (v: seq<bv8>)
    requires o + 3 < buffer.Length
    ensures |v| == 4 && forall k :: 0 <= k < 4 ==> v[k] == With(buffer[o..o + 4][k], x)
  {
    hide With32, With;
    Mark32(buffer[o], buffer[o + 1], buffer[o + 2], buffer[o + 3], x);
    v := With32(buffer[o], buffer[o + 1], buffer[o + 2], buffer[o + 3], x);
  }

  ghost predicate AllHave(buffer: array<bv8>, o: nat, n: nat, x: bv8)
    requires o + n <= buffer.Length
    reads buffer
  {
    forall j {:trigger buffer[j]} :: o <= j < o + n ==> HasAll(buffer[j], x)
  }

  /** Four attribute bytes have all the bits x; not asked across the end of a page. */
  method Has32(buffer: array<bv8>, o: nat, x: bv8) returns (yes: bool)
    requires buffer.Length == 2 * PAGE && o < PAGE
    ensures yes <==> o + 3 < PAGE && AllHave(buffer, o, 4, x)
  {
    if o >= PAGE - 3 {
      return false;
    }
    Test32(buffer[o], buffer[o + 1], buffer[o + 2], buffer[o + 3], x);
    hide Pack32, Repeat32, HasAll;
    yes := Pack32(buffer[o], buffer[o + 1], buffer[o + 2], buffer[o + 3]) & Repeat32(x) == Repeat32(x);
  }

  lemma StoredNone(m: Memory, a: Addr, data: bool)
    requires Full(m)
    ensures StoredRun(m, a, data, [], m)
  {
  }

  lemma StoredOne(m: Memory, a: Addr, data: bool, v: seq<bv8>, mid: Memory, x: bv8, r: Memory)
    requires Full(m) && StoredRun(m, a, data, v, mid) && a + |v| < SIZE
    requires var b: Addr := a + |v|;
      r == Put(mid, b, if data then At(mid, b).(data := x) else At(mid, b).(attr := x))
    ensures StoredRun(m, a, data, v + [x], r)
  {
    hide At, Put;
  }

  predicate Writable(c: Cell) {
    HasAll(c.attr, PERM_W)
  }

  lemma WriteTwo(m: Memory, a: Addr, v: bv32)
    requires Full(m)
    ensures WriteAll(m, a, Bytes(v, 2)) == Write(Write(m, a, First(v)), Plus(a, 1), Second(v))
  {
    var m1 := Write(m, a, First(v));
    var m2 := Write(m1, Plus(a, 1), Second(v));
    assert Bytes(v, 2) == [First(v), Second(v)];
    assert [First(v), Second(v)][1..] == [Second(v)] && [Second(v)][1..] == [];
    assert WriteAll(m2, Plus(Plus(a, 1), 1), []) == m2;
    assert WriteAll(m1, Plus(a, 1), [Second(v)]) == m2;
  }

  lemma WritableCell(c: Cell, v: bv8)
    requires Writable(c)
    ensures May(c, PERM_W) && WrittenCell(c, v) == Cell(Stamped(c, PERM_VALID | ACC_W).attr, v)
  {
  }

  /** The fast path writes what the slow one writes when every byte may be written. */
  lemma FastWrite(m: Memory, a: Addr, v: seq<bv8>, marked: Memory, r: Memory)
    requires Full(m) && |v| <= SIZE && MarkedRun(m, a, |v|, PERM_VALID | ACC_W, marked)
    requires forall k {:trigger Plus(a, k)} :: 0 <= k < |v| ==> Writable(At(m, Plus(a, k)))
    requires Full(r) && r.invalid == marked.invalid
    requires forall k {:trigger v[k]} :: 0 <= k < |v| ==> At(r, Plus(a, k)) == At(marked, Plus(a, k)).(data := v[k])
    requires forall b: Addr :: !Among(a, |v|, b) ==> At(r, b) == At(marked, b)
    ensures r == WriteAll(m, a, v)
  {
    hide At, WriteAll, Writable, WrittenCell, Stamped, May;
    WriteAllExact(m, a, v);
    forall k {:trigger Plus(a, k)} | 0 <= k < |v|
      ensures May(At(m, Plus(a, k)), PERM_W)
    {
      WritableCell(At(m, Plus(a, k)), v[k]);
    }
    forall b: Addr
      ensures At(r, b) == At(WriteAll(m, a, v), b)
    {
      if Among(a, |v|, b) {
        var k := (b - a) % SIZE;
        assert Plus(a, k) == b;
        WritableCell(At(m, b), v[k]);
      }
    }
    SameMemory(r, WriteAll(m, a, v));
  }

  method Or16In(buffer: array<bv8>, o: nat, x: bv8) returns (lo: bv8, hi: bv8)
    requires o + 1 < buffer.Length
    ensures lo == buffer[o] | x && hi == buffer[o + 1] | x
  {
    var w := Pack16(buffer[o], buffer[o + 1]) | Repeat16(x);
    Mark16(buffer[o], buffer[o + 1], x);
    lo, hi := Low16(w), High16(w);
  }

  /** Both attribute bytes have all the bits x; not asked across the end of a page. */
  method Has16(buffer: array<bv8>, o: nat, x: bv8) returns (yes: bool)
    requires buffer.Length == 2 * PAGE && o < PAGE
    ensures yes <==> o + 1 < PAGE && HasAll(buffer[o], x) && HasAll(buffer[o + 1], x)
  {
    if o >= PAGE - 1 {
      return false;
    }
    Test16(buffer[o], buffer[o + 1], x);
    yes := Pack16(buffer[o], buffer[o + 1]) & Repeat16(x) == Repeat16(x);
  }

  lemma MarkedTwo(m: Memory, a: Addr, x: bv8, r: Memory)
    requires Full(m) && Full(r) && r.invalid == m.invalid && a + 1 < SIZE
    requires At(r, a) == Stamped(At(m, a), x) && At(r, a + 1) == Stamped(At(m, a + 1), x)
    requires forall b: Addr :: b != a && b != a + 1 ==> At(r, b) == At(m, b)
    ensures MarkedRun(m, a, 2, x, r)
  {
    hide At;
  }

  lemma RunData(m: Memory, a: Addr, n: nat, x: bv8, r: Memory)
    requires Full(m) && MarkedRun(m, a, n, x, r)
    ensures Full(r) && forall b: Addr :: At(r, b).data == At(m, b).data
  {
    hide At, Among, Stamped;
  }

  lemma FastRead16(m: Memory, a: Addr, r: Memory, v: bv32)
    requires Full(m) && a + 1 < SIZE && MarkedRun(m, a, 2, ACC_R, r)
    requires Readable(At(m, a)) && Readable(At(m, a + 1))
    requires v == Load16(At(m, a).data, At(m, a + 1).data)
    ensures (r, v) == Reads(m, a, 2, PERM_R, ACC_R)
  {
    hide At, FetchOk, FetchAll, Load16, Value, MarkedRun, Readable;
    ReadableOk(At(m, a));
    ReadableOk(At(m, a + 1));
    FastFetch(m, a, 2, PERM_R, ACC_R, r);
    assert Plus(a, 0) == a && Plus(a, 1) == a + 1;
    Value2(At(m, a).data, At(m, a + 1).data);
    assert FetchAll(m, a, 2, PERM_R, ACC_R).1 == [At(m, a).data, At(m, a + 1).data];
  }

  lemma AllowedWrite(m: Memory, a: Addr, v: bv8, r: Memory)
    requires Full(m) && r == WriteAnyway(m, a, v) && May(At(m, a), PERM_W)
    ensures r == Write(m, a, v)
  {
    hide At, Put;
    SameMemory(r, Write(m, a, v));
  }

  lemma DeniedWrite(m: Memory, a: Addr, v: bv8, r: Memory)
    requires Full(m) && !May(At(m, a), PERM_W)
    requires var c := At(m, a); r == Fail(Put(m, a, c.(attr := c.attr | ACC_INVALID)), true)
    ensures r == Write(m, a, v)
  {
    hide At, Put;
    SameMemory(r, Write(m, a, v));
  }

  /** Not valid, even after the mark. */
  predicate Unset(c: Cell, mark: bv8) {
    (c.attr | mark) & PERM_VALID == 0
  }

  function Touched(c: Cell, mark: bv8): Cell {
    c.(attr := if Unset(c, mark) then c.attr | mark | ACC_INVALID else c.attr | mark)
  }

  lemma AccessCell(c: Cell, need: bv8, mark: bv8)
    requires mark & PERM_VALID == 0
    ensures !May(c, need) ==> FetchedCell(c, need, mark) == c && !FetchOk(c, need) && FetchedValue(c, need) == 0xff
    ensures May(c, need) ==>
      && FetchedValue(c, need) == c.data && FetchedCell(c, need, mark) == Touched(c, mark)
      && FetchOk(c, need) == !Unset(c, mark)
  {
  }

  lemma AllowedFetch(m: Memory, a: Addr, need: bv8, mark: bv8, r: Memory)
    requires Full(m) && Full(r) && May(At(m, a), need) && mark & PERM_VALID == 0
    requires r.invalid == (m.invalid || Unset(At(m, a), mark)) && At(r, a) == Touched(At(m, a), mark)
    requires forall b: Addr :: b != a ==> At(r, b) == At(m, b)
    ensures Fetch(m, a, need, mark) == (r, At(m, a).data)
  {
    hide At, Touched, Unset, FetchedCell, FetchedValue, FetchOk, May;
    AccessCell(At(m, a), need, mark);
    FetchExact(m, a, need, mark);
    hide Fetch;
    SameMemory(r, Fetch(m, a, need, mark).0);
  }

  lemma DeniedFetch(m: Memory, a: Addr, need: bv8, mark: bv8)
    requires Full(m) && !May(At(m, a), need) && mark & PERM_VALID == 0
    ensures Fetch(m, a, need, mark) == (Fail(m, true), 0xff)
  {
    hide At, Touched, Unset, FetchedCell, FetchedValue, FetchOk, May;
    AccessCell(At(m, a), need, mark);
    FetchExact(m, a, need, mark);
    hide Fetch;
    SameMemory(Fail(m, true), Fetch(m, a, need, mark).0);
  }

  lemma PutPage(m: Memory, a: Addr, c: Cell)
    requires Full(m)
    ensures Put(m, a, c).pages == m.pages[a / PAGE := m.pages[a / PAGE][a % PAGE := c]]
  {
  }

  method NewTable(defAttr: bv8) returns (table: array<Entry>)
    ensures fresh(table) && table.Length == ENTRIES
    ensures forall j :: 0 <= j < ENTRIES ==> table[j] == Entry(null, defAttr)
  {
    table := new Entry[ENTRIES](_ => Entry(null, 0));
    for u := 0 to ENTRIES
      invariant forall j :: 0 <= j < ENTRIES ==> table[j] == Entry(null, if j < u then defAttr else 0)
    {
      table[u] := table[u].(defAttr := defAttr);
    }
  }

  /** calloc and memset of a page: attributes first, then data. */
  method NewBuffer(attr: bv8) returns (buffer: array<bv8>)
    ensures fresh(buffer) && buffer.Length == 2 * PAGE
    ensures forall o :: 0 <= o < PAGE ==> buffer[o] == attr
    ensures forall o :: PAGE <= o < 2 * PAGE ==> buffer[o] == 0
  {
    buffer := new bv8[2 * PAGE](_ => 0);
    SetAttributes(buffer, attr);
  }

  class EmuMemory {
    var pdir: array?<array?<Entry>>
    var invalid: bool
    var defAttr: bv8

    ghost var flat: Memory
    ghost var tables: map<array<Entry>, nat>
    ghost var buffers: map<array<bv8>, nat>
    // The default attribute of every page, and the pages that have a buffer.
    ghost var defaults: seq<bv8>
    ghost var made: set<nat>

    /** `defaults` and `made` say what the entries hold. */
    ghost predicate EntriesAre()
      requires DirOk(pdir, tables)
      reads this`pdir, this`tables, this`defAttr, this`defaults, this`made, pdir, tables.Keys
    {
      |defaults| == PAGES && forall p {:trigger EntryAt(pdir, tables, defAttr, p)} :: 0 <= p < PAGES ==>
        var e := EntryAt(pdir, tables, defAttr, p); e.defAttr == defaults[p] && (e.attr != null <==> p in made)
    }

    ghost predicate PagesOk()
      requires DirOk(pdir, tables) && Full(flat)
      reads this, pdir, tables.Keys, buffers.Keys
    {
      && (forall p :: 0 <= p < PAGES ==> var e := EntryAt(pdir, tables, defAttr, p);
            e.attr != null ==> e.attr in buffers && buffers[e.attr] == p)
      && (forall p :: 0 <= p < PAGES ==> PageOk(EntryAt(pdir, tables, defAttr, p), p, buffers, flat.pages[p]))
    }

    ghost predicate Valid()
      reads this, pdir, tables.Keys, buffers.Keys
      ensures Valid() ==> Full(flat) && |defaults| == PAGES
    {
      DirOk(pdir, tables) && Sized(tables, buffers) && Full(flat) && flat.invalid == invalid && PagesOk() && EntriesAre()
    }

    /** The memory object, its directory, its tables and its buffers. */
    ghost function Parts(): set<object>
      reads this`pdir, this`tables, this`buffers
    {
      {this} + (if pdir == null then {} else {pdir}) + (set t | t in tables.Keys :: t as object) + (set b | b in buffers.Keys :: b as object)
    }

    lemma InParts()
      ensures (this as object) in Parts() && (pdir != null ==> (pdir as object) in Parts())
      ensures forall t :: t in tables.Keys ==> (t as object) in Parts()
      ensures forall b :: b in buffers.Keys ==> (b as object) in Parts()
    {
    }

    /** Page p has its buffer. */
    ghost predicate Made(p: nat)
      requires p < PAGES && DirOk(pdir, tables)
      reads this`pdir, this`tables, this`defAttr, pdir, tables.Keys
    {
      EntryAt(pdir, tables, defAttr, p).attr != null
    }

    lemma InvalidIs()
      requires Valid()
      ensures flat.invalid == invalid
    {
    }

    /** emu_mem_new */
    constructor (perm: bv8)
      ensures Valid() && pdir == null && tables == map[] && buffers == map[] && defAttr == perm
      ensures defaults == seq(PAGES, _ => perm) && made == {}
      ensures !flat.invalid && forall a: Addr :: At(flat, a) == Cell(perm, 0)
    {
      pdir, invalid, defAttr := null, false, perm;
      flat := Memory(seq(PAGES, p => seq(PAGE, o => Cell(perm, 0))), false);
      tables, buffers := map[], map[];
      defaults, made := seq(PAGES, _ => perm), {};
    }

    method MakeDirectory()
      requires Valid()
      modifies this`pdir
      ensures Valid() && pdir != null && (if old(pdir) == null then fresh(pdir) else pdir == old(pdir))
    {
      if pdir == null {
        pdir := new array?<Entry>[ENTRIES](_ => null);
      }
    }

    method MakeTable(i: nat)
      requires Valid() && pdir != null && i < ENTRIES
      modifies this`tables, pdir
      ensures Valid() && pdir[i] != null && fresh(tables.Keys - old(tables.Keys))
    {
      if pdir[i] == null {
        var table := NewTable(defAttr);
        assert table !in tables;
        pdir[i] := table;
        tables := tables[table := i];
        assert DirOk(pdir, tables);
        assert forall p {:trigger EntryAt(pdir, tables, defAttr, p)} :: 0 <= p < PAGES ==>
          EntryAt(pdir, tables, defAttr, p) == old(EntryAt(pdir, tables, defAttr, p));
      }
    }

    /** es are the entries of the pages, in order. */
    ghost predicate Entered(es: seq<Entry>)
      requires DirOk(pdir, tables)
      reads this`pdir, this`tables, this`defAttr, pdir, tables.Keys
    {
      |es| == PAGES && forall q {:trigger EntryAt(pdir, tables, defAttr, q)} {:trigger es[q]} :: 0 <= q < PAGES ==>
        es[q] == EntryAt(pdir, tables, defAttr, q)
    }

    lemma Kinds()
      requires DirOk(pdir, tables) && Sized(tables, buffers)
      ensures forall b :: b in buffers.Keys ==> (b as object) != (pdir as object?)
      ensures forall b, t :: b in buffers.Keys && t in tables.Keys ==> (b as object) != (t as object)
    {
    }

    /** Valid, in terms of the entries in order, and back. */
    lemma Open() returns (es: seq<Entry>)
      requires Valid()
      ensures DirOk(pdir, tables) && Sized(tables, buffers) && Entered(es) && |es| == PAGES
      ensures RowsOk(es, 0, buffers, flat.pages) && Marks(es, defaults, made)
    {
      hide PageOk, EntryAt;
      es := seq(PAGES, q requires 0 <= q < PAGES && DirOk(pdir, tables) reads this, pdir, tables.Keys => EntryAt(pdir, tables, defAttr, q));
      forall q | 0 <= q < PAGES
        ensures RowOk(es[q], 0 + q, buffers, flat.pages[q])
      {
        assert es[q] == EntryAt(pdir, tables, defAttr, q);
      }
    }

    lemma Close(es: seq<Entry>)
      requires DirOk(pdir, tables) && Sized(tables, buffers) && Entered(es) && Full(flat) && flat.invalid == invalid
      requires RowsOk(es, 0, buffers, flat.pages) && Marks(es, defaults, made)
      ensures Valid()
    {
      forall q | 0 <= q < PAGES
        ensures var e := EntryAt(pdir, tables, defAttr, q);
          PageOk(e, q, buffers, flat.pages[q]) && (e.attr != null ==> e.attr in buffers && buffers[e.attr] == q)
      {
        assert RowOk(es[q], 0 + q, buffers, flat.pages[q]);
      }
    }

    lemma EntryIs(es: seq<Entry>, p: nat)
      requires DirOk(pdir, tables) && Entered(es) && p < PAGES && pdir != null && pdir[p / ENTRIES] != null
      ensures p < |es| && pdir.Length == ENTRIES == pdir[p / ENTRIES].Length && pdir[p / ENTRIES] in tables && pdir[p / ENTRIES][p % ENTRIES] == es[p]
    {
      assert es[p] == EntryAt(pdir, tables, defAttr, p);
    }

    lemma EntryKnown(es: seq<Entry>, p: nat)
      requires p < |es| == |flat.pages| && RowsOk(es, 0, buffers, flat.pages)
      ensures es[p].attr != null ==> es[p].attr in buffers
    {
      assert RowOk(es[p], 0 + p, buffers, flat.pages[p]);
    }

    method SetEntry(table: array<Entry>, p: nat, e: Entry, ghost es: seq<Entry>)
      requires p < PAGES && DirOk(pdir, tables) && pdir != null && pdir[p / ENTRIES] == table && Entered(es)
      modifies table
      ensures DirOk(pdir, tables) && Entered(es[p := e]) && p % ENTRIES < table.Length && table[p % ENTRIES] == e
    {
      table[p % ENTRIES] := e;
    }

    /** The buffer of page p, in a table that exists. */
    method MakeBuffer(p: nat)
      requires Valid() && p < PAGES && pdir != null && pdir[p / ENTRIES] != null
      modifies this`buffers, this`made, pdir[p / ENTRIES]
      ensures Valid() && pdir[p / ENTRIES][p % ENTRIES].attr != null && fresh(buffers.Keys - old(buffers.Keys))
      ensures made == old(made) + {p}
    {
      hide PagesOk, EntriesAre, RowsOk, DirOk, Entered;
      ghost var es := Open();
      EntryIs(es, p);
      Kinds();
      var table: array<Entry> := pdir[p / ENTRIES];
      var e := table[p % ENTRIES];
      if e.attr == null {
        var buffer := NewBuffer(e.defAttr);
        assert buffer !in buffers;
        SetEntry(table, p, e.(attr := buffer), es);
        RowsMade(es, p, buffer, buffers, flat.pages);
        buffers := buffers[buffer := p];
        made := made + {p};
        Close(es[p := e.(attr := buffer)]);
      }
    }

    /** vm_get_page: the table and index of the entry. Whatever it makes cannot be seen in `flat`. */
    method GetPage(addr: Addr, create: bool) returns (table: array<Entry>, index: nat)
      requires Valid()
      modifies this`pdir, this`tables, this`buffers, this`made, pdir, tables.Keys
      ensures Valid() && pdir != null && pdir[addr / PAGE / ENTRIES] == table
      ensures index == addr / PAGE % ENTRIES < table.Length
      ensures create ==> table[index].attr != null
      ensures made == if create then old(made) + {addr / PAGE} else old(made)
      ensures if old(pdir) == null then fresh(pdir) else pdir == old(pdir)
      ensures fresh(tables.Keys - old(tables.Keys)) && fresh(buffers.Keys - old(buffers.Keys))
    {
      var i := addr / (PAGE * ENTRIES);
      index := addr / PAGE % ENTRIES;
      assert addr / PAGE / ENTRIES == i;
      MakeDirectory();
      MakeTable(i);
      table := pdir[i];
      if create {
        MakeBuffer(addr / PAGE);
      }
    }

    /** Whatever was made since is new. */
    twostate predicate Grown(dir: array?<array?<Entry>>, ts: map<array<Entry>, nat>, bs: map<array<bv8>, nat>)
      reads this
    {
      && (if dir == null then pdir == null || fresh(pdir) else pdir == dir)
      && fresh(tables.Keys - ts.Keys) && fresh(buffers.Keys - bs.Keys)
      && old(made) <= made
    }

    /** buffer is the buffer of page p. */
    ghost predicate Backs(buffer: array<bv8>, p: nat)
      requires p < PAGES
      reads this`pdir, this`tables, this`defAttr, pdir, tables.Keys
    {
      DirOk(pdir, tables) && EntryAt(pdir, tables, defAttr, p).attr == buffer
    }

    lemma CellIs(addr: Addr, buffer: array<bv8>)
      requires Valid() && Backs(buffer, addr / PAGE)
      ensures buffer in buffers && buffers[buffer] == addr / PAGE && buffer.Length == 2 * PAGE
      ensures At(flat, addr) == Cell(buffer[addr % PAGE], buffer[PAGE + addr % PAGE])
    {
      assert PageOk(EntryAt(pdir, tables, defAttr, addr / PAGE), addr / PAGE, buffers, flat.pages[addr / PAGE]);
    }

    /** The buffer of the page of an address, made if need be. */
    method Page(addr: Addr) returns (buffer: array<bv8>)
      requires Valid()
      modifies this`pdir, this`tables, this`buffers, this`made, pdir, tables.Keys
      ensures Valid() && Backs(buffer, addr / PAGE) && buffer in buffers && made == old(made) + {addr / PAGE}
      ensures pdir != null && (if old(pdir) == null then fresh(pdir) else pdir == old(pdir))
      ensures fresh(tables.Keys - old(tables.Keys)) && fresh(buffers.Keys - old(buffers.Keys))
    {
      var table, index := GetPage(addr, true);
      buffer := table[index].attr;
      CellIs(addr, buffer);
    }

    lemma BackedBy(es: seq<Entry>, p: nat, buffer: array<bv8>)
      requires DirOk(pdir, tables) && Entered(es) && p < PAGES
      ensures p < |es| && (Backs(buffer, p) <==> es[p].attr == buffer)
    {
      assert es[p] == EntryAt(pdir, tables, defAttr, p);
    }

    method SetByte(addr: Addr, buffer: array<bv8>, data: bool, v: bv8)
      requires Valid() && Backs(buffer, addr / PAGE)
      modifies this`flat, buffer
      ensures Valid() && Backs(buffer, addr / PAGE)
      ensures Full(old(flat)) && flat ==
        Put(old(flat), addr, if data then At(old(flat), addr).(data := v) else At(old(flat), addr).(attr := v))
    {
      hide PagesOk, EntriesAre, RowsOk, DirOk, Entered, Put;
      ghost var es := Open();
      BackedBy(es, addr / PAGE, buffer);
      CellIs(addr, buffer);
      Kinds();
      ghost var c := if data then At(flat, addr).(data := v) else At(flat, addr).(attr := v);
      StoreRow(addr % PAGE, buffer, data, v, es, addr / PAGE, buffers, flat.pages);
      PutPage(flat, addr, c);
      flat := Put(flat, addr, c);
      BackedBy(es, addr / PAGE, buffer);
      Close(es);
    }

    method SetInvalid()
      requires Valid()
      modifies this`invalid, this`flat
      ensures Valid() && Full(old(flat)) && flat == Fail(old(flat), true)
    {
      invalid := true;
      flat := flat.(invalid := true);
    }

    method ClearInvalid()
      requires Valid()
      modifies this`invalid, this`flat
      ensures Valid() && Full(old(flat)) && flat == old(flat).(invalid := false)
    {
      invalid := false;
      flat := flat.(invalid := false);
    }

    /** vm_r_byte */
    method ReadByte(addr: Addr) returns (v: bv8)
      requires Valid()
      modifies this`pdir, this`invalid, this`flat, this`tables, this`buffers, this`made, pdir, tables.Keys, buffers.Keys
      ensures Valid() && Grown(old(pdir), old(tables), old(buffers))
      ensures Full(old(flat)) && (flat, v) == Fetch(old(flat), addr, PERM_R, ACC_R)
    {
      var buffer := Page(addr);
      v := Access(addr, buffer, PERM_R, ACC_R);
    }

    /** An allowed access: leaves the mark, and complains about a byte never written. */
    method Mark(addr: Addr, buffer: array<bv8>, mark: bv8) returns (v: bv8)
      requires Valid() && Backs(buffer, addr / PAGE)
      modifies this`flat, this`invalid, buffer
      ensures Valid() && Backs(buffer, addr / PAGE) && Full(old(flat))
      ensures flat.invalid == (old(flat).invalid || Unset(At(old(flat), addr), mark))
      ensures At(flat, addr) == Touched(At(old(flat), addr), mark) && v == At(old(flat), addr).data
      ensures forall b: Addr :: b != addr ==> At(flat, b) == At(old(flat), b)
    {
      hide Valid, Backs, At, Put;
      CellIs(addr, buffer);
      SetByte(addr, buffer, false, buffer[addr % PAGE] | mark);
      CellIs(addr, buffer);
      if buffer[addr % PAGE] & PERM_VALID == 0 {
        SetByte(addr, buffer, false, buffer[addr % PAGE] | ACC_INVALID);
        SetInvalid();
        CellIs(addr, buffer);
      }
      v := buffer[PAGE + addr % PAGE];
    }

    /** The common body of vm_r_byte and vm_x_byte. */
    method Access(addr: Addr, buffer: array<bv8>, need: bv8, mark: bv8) returns (v: bv8)
      requires Valid() && Backs(buffer, addr / PAGE) && mark & PERM_VALID == 0
      modifies this`flat, this`invalid, buffer
      ensures Valid() && Backs(buffer, addr / PAGE)
      ensures Full(old(flat)) && (flat, v) == Fetch(old(flat), addr, need, mark)
    {
      hide Valid, Backs, At, Put, Fetch, Touched, Unset;
      ghost var m := flat;
      CellIs(addr, buffer);
      var allowed := buffer[addr % PAGE] & need != 0;
      assert allowed == May(At(m, addr), need);
      hide May;
      if allowed {
        v := Mark(addr, buffer, mark);
        AllowedFetch(m, addr, need, mark, flat);
      } else {
        SetInvalid();
        v := 0xff;
        DeniedFetch(m, addr, need, mark);
      }
    }

    /** vm_x_byte */
    method ExecByte(addr: Addr) returns (v: bv8)
      requires Valid()
      modifies this`pdir, this`invalid, this`flat, this`tables, this`buffers, this`made, pdir, tables.Keys, buffers.Keys
      ensures Valid() && Grown(old(pdir), old(tables), old(buffers))
      ensures Full(old(flat)) && (flat, v) == Fetch(old(flat), addr, PERM_X, ACC_X)
    {
      var buffer := Page(addr);
      v := Access(addr, buffer, PERM_X, ACC_X);
    }

    /** vm_r_byte_noperm */
    method ReadByteAnyway(addr: Addr) returns (v: bv8)
      requires Valid()
      modifies this`pdir, this`tables, this`buffers, this`made, pdir, tables.Keys
      ensures Valid() && Grown(old(pdir), old(tables), old(buffers))
      ensures v == At(flat, addr).data
    {
      var buffer := Page(addr);
      CellIs(addr, buffer);
      v := buffer[PAGE + addr % PAGE];
    }

    /** vm_w_byte */
    method WriteByte(addr: Addr, v: bv8)
      requires Valid()
      modifies this`pdir, this`invalid, this`flat, this`tables, this`buffers, this`made, pdir, tables.Keys, buffers.Keys
      ensures Valid() && Grown(old(pdir), old(tables), old(buffers))
      ensures Full(old(flat)) && flat == Write(old(flat), addr, v)
    {
      var buffer := Page(addr);
      Change(addr, buffer, v);
    }

    method Change(addr: Addr, buffer: array<bv8>, v: bv8)
      requires Valid() && Backs(buffer, addr / PAGE)
      modifies this`flat, this`invalid, buffer
      ensures Valid() && Backs(buffer, addr / PAGE) && Full(old(flat)) && flat == Write(old(flat), addr, v)
    {
      hide Valid, Backs, At, Put, Write;
      ghost var m := flat;
      CellIs(addr, buffer);
      var allowed := buffer[addr % PAGE] & PERM_W != 0;
      assert allowed == May(At(m, addr), PERM_W);
      hide May;
      if allowed {
        Overwrite(addr, buffer, v);
        AllowedWrite(m, addr, v, flat);
      } else {
        SetByte(addr, buffer, false, buffer[addr % PAGE] | ACC_INVALID);
        SetInvalid();
        DeniedWrite(m, addr, v, flat);
      }
    }

    /** Stores a byte whatever its permissions are. */
    method Overwrite(addr: Addr, buffer: array<bv8>, v: bv8)
      requires Valid() && Backs(buffer, addr / PAGE)
      modifies this`flat, buffer
      ensures Valid() && Backs(buffer, addr / PAGE) && Full(old(flat)) && flat == WriteAnyway(old(flat), addr, v)
    {
      hide Valid, Backs, At, Put;
      ghost var m := flat;
      CellIs(addr, buffer);
      SetByte(addr, buffer, false, buffer[addr % PAGE] | PERM_VALID | ACC_W);
      SetByte(addr, buffer, true, v);
      SameMemory(flat, WriteAnyway(m, addr, v));
    }

    /** vm_w_byte_noperm */
    method WriteByteAnyway(addr: Addr, v: bv8)
      requires Valid()
      modifies this`pdir, this`invalid, this`flat, this`tables, this`buffers, this`made, pdir, tables.Keys, buffers.Keys
      ensures Valid() && Grown(old(pdir), old(tables), old(buffers))
      ensures Full(old(flat)) && flat == WriteAnyway(old(flat), addr, v)
    {
      var buffer := Page(addr);
      Overwrite(addr, buffer, v);
    }

    // ---------- words ----------

    /** *perm16 |= PERM16(x) */
    method Or16(addr: Addr, buffer: array<bv8>, x: bv8)
      requires Valid() && Backs(buffer, addr / PAGE) && addr % PAGE < PAGE - 1
      modifies this`flat, buffer
      ensures Valid() && Backs(buffer, addr / PAGE) && Full(old(flat)) && MarkedRun(old(flat), addr, 2, x, flat)
    {
      hide Valid, Backs, At, Put, Stamped;
      ghost var m := flat;
      CellIs(addr, buffer);
      NextCell(addr, buffer);
      var lo, hi := Or16In(buffer, addr % PAGE, x);
      StampedIs(At(m, addr), x);
      StampedIs(At(m, addr + 1), x);
      SetByte(addr, buffer, false, lo);
      SetByte(addr + 1, buffer, false, hi);
      MarkedTwo(m, addr, x, flat);
    }

    lemma NextCell(addr: Addr, buffer: array<bv8>)
      requires Valid() && Backs(buffer, addr / PAGE) && addr % PAGE < PAGE - 1
      ensures addr + 1 < SIZE && (addr + 1) / PAGE == addr / PAGE && (addr + 1) % PAGE == addr % PAGE + 1
      ensures buffer.Length == 2 * PAGE
      ensures At(flat, addr + 1) == Cell(buffer[addr % PAGE + 1], buffer[PAGE + addr % PAGE + 1])
    {
      CellIs(addr + 1, buffer);
    }

    /** vm_r_word */
    method ReadWord(addr: Addr) returns (v: bv32)
      requires Valid()
      modifies this`pdir, this`invalid, this`flat, this`tables, this`buffers, this`made, pdir, tables.Keys, buffers.Keys
      ensures Valid() && Grown(old(pdir), old(tables), old(buffers)) && Full(old(flat))
      ensures (flat, v) == Reads(old(flat), addr, 2, PERM_R, ACC_R)
    {
      hide Valid, Backs, At, FetchAll, Fetch, Value, May, FetchOk, HasAll, Add16, Load16;
      ghost var m := flat;
      var buffer := Page(addr);
      CellIs(addr, buffer);
      var fast := Has16(buffer, addr % PAGE, PERM_R | PERM_VALID);
      if !fast {
        v := ReadSlow16(addr);
      } else {
        NextCell(addr, buffer);
        v := ReadFast16(addr, buffer);
      }
    }

    method ReadSlow16(addr: Addr) returns (v: bv32)
      requires Valid()
      modifies this`pdir, this`invalid, this`flat, this`tables, this`buffers, this`made, pdir, tables.Keys, buffers.Keys
      ensures Valid() && Grown(old(pdir), old(tables), old(buffers)) && Full(old(flat))
      ensures (flat, v) == Reads(old(flat), addr, 2, PERM_R, ACC_R)
    {
      hide Valid, FetchAll, Fetch, Value, Add16, Load16;
      FetchTwo(flat, addr, PERM_R, ACC_R);
      var lo := ReadByte(addr);
      var hi := ReadByte(Plus(addr, 1));
      v := Add16(lo, hi);
      Value2(lo, hi);
    }

    method ReadFast16(addr: Addr, buffer: array<bv8>) returns (v: bv32)
      requires Valid() && Backs(buffer, addr / PAGE) && addr % PAGE < PAGE - 1
      requires Readable(At(flat, addr)) && Readable(At(flat, Plus(addr, 1)))
      modifies this`flat, buffer
      ensures Valid() && Full(old(flat)) && (flat, v) == Reads(old(flat), addr, 2, PERM_R, ACC_R)
    {
      hide Valid, Backs, At, FetchAll, Value, Load16, MarkedRun;
      ghost var m := flat;
      Or16(addr, buffer, ACC_R);
      CellIs(addr, buffer);
      NextCell(addr, buffer);
      RunData(m, addr, 2, ACC_R, flat);
      var o := addr % PAGE;
      v := Load16(buffer[PAGE + o], buffer[PAGE + o + 1]);
      FastRead16(m, addr, flat, v);
    }

    /** vm_w_word */
    method WriteWord(addr: Addr, v: bv32)
      requires Valid()
      modifies this`pdir, this`invalid, this`flat, this`tables, this`buffers, this`made, pdir, tables.Keys, buffers.Keys
      ensures Valid() && Grown(old(pdir), old(tables), old(buffers)) && Full(old(flat))
      ensures flat == WriteAll(old(flat), addr, Bytes(v, 2))
    {
      hide Valid, Backs, At, WriteAll, Write, May, HasAll, First, Second, Third, Fourth;
      var buffer := Page(addr);
      CellIs(addr, buffer);
      var fast := Has16(buffer, addr % PAGE, PERM_W);
      if !fast {
        WriteSlow16(addr, v);
      } else {
        NextCell(addr, buffer);
        WriteFast16(addr, buffer, v);
      }
    }

    method WriteSlow16(addr: Addr, v: bv32)
      requires Valid()
      modifies this`pdir, this`invalid, this`flat, this`tables, this`buffers, this`made, pdir, tables.Keys, buffers.Keys
      ensures Valid() && Grown(old(pdir), old(tables), old(buffers)) && Full(old(flat))
      ensures flat == WriteAll(old(flat), addr, Bytes(v, 2))
    {
      hide Valid, WriteAll, Write, First, Second, Third, Fourth;
      WriteTwo(flat, addr, v);
      WriteByte(addr, First(v));
      WriteByte(Plus(addr, 1), Second(v));
    }

    method WriteFast16(addr: Addr, buffer: array<bv8>, v: bv32)
      requires Valid() && Backs(buffer, addr / PAGE) && addr % PAGE < PAGE - 1
      requires Writable(At(flat, addr)) && Writable(At(flat, Plus(addr, 1)))
      modifies this`flat, buffer
      ensures Valid() && Full(old(flat)) && flat == WriteAll(old(flat), addr, Bytes(v, 2))
    {
      hide Valid, Backs, At, WriteAll, Put, MarkedRun, First, Second, Third, Fourth;
      ghost var m := flat;
      Or16(addr, buffer, PERM_VALID | ACC_W);
      NextCell(addr, buffer);
      ghost var marked := flat;
      SetByte(addr, buffer, true, First(v));
      SetByte(addr + 1, buffer, true, Second(v));
      FastWrite(m, addr, Bytes(v, 2), marked, flat);
    }

    // ---------- double words ----------

    lemma NextCells(addr: Addr, buffer: array<bv8>)
      requires Valid() && Backs(buffer, addr / PAGE) && addr % PAGE < PAGE - 3
      ensures addr + 3 < SIZE && buffer.Length == 2 * PAGE
      ensures forall k {:trigger Plus(addr, k)} :: 0 <= k < 4 ==>
        && Plus(addr, k) == addr + k && Plus(addr, k) / PAGE == addr / PAGE && Plus(addr, k) % PAGE == addr % PAGE + k
        && At(flat, Plus(addr, k)) == Cell(buffer[addr % PAGE + k], buffer[PAGE + addr % PAGE + k])
    {
      forall k {:trigger Plus(addr, k)} | 0 <= k < 4
        ensures Plus(addr, k) == addr + k
        ensures Plus(addr, k) / PAGE == addr / PAGE && Plus(addr, k) % PAGE == addr % PAGE + k
        ensures At(flat, Plus(addr, k)) == Cell(buffer[addr % PAGE + k], buffer[PAGE + addr % PAGE + k])
      {
        CellIs(addr + k, buffer);
      }
      CellIs(addr, buffer);
    }

    /** Stores n bytes, all in one page, as data or as attributes. */
    method SetRun(addr: Addr, buffer: array<bv8>, data: bool, v: seq<bv8>)
      requires Valid() && Backs(buffer, addr / PAGE) && addr % PAGE + |v| <= PAGE
      modifies this`flat, buffer
      ensures Valid() && Backs(buffer, addr / PAGE) && Full(old(flat))
      ensures StoredRun(old(flat), addr, data, v, flat)
    {
      hide Valid, Backs, At, Put, Plus;
      ghost var m := flat;
      StoredNone(m, addr, data);
      assert v[..0] == [];
      for k := 0 to |v|
        invariant Valid() && Backs(buffer, addr / PAGE) && StoredRun(m, addr, data, v[..k], flat)
      {
        assert (addr + k) / PAGE == addr / PAGE && addr + k < SIZE;
        ghost var before := flat;
        SetByte(addr + k, buffer, data, v[k]);
        StoredOne(m, addr, data, v[..k], before, v[k], flat);
        assert v[..k] + [v[k]] == v[..k + 1];
      }
      assert v[..|v|] == v;
    }

    /** *perm32 |= PERM32(x) */
    method Or32(addr: Addr, buffer: array<bv8>, x: bv8)
      requires Valid() && Backs(buffer, addr / PAGE) && addr % PAGE < PAGE - 3
      modifies this`flat, buffer
      ensures Valid() && Backs(buffer, addr / PAGE) && Full(old(flat)) && MarkedRun(old(flat), addr, 4, x, flat)
    {
      hide Valid, Backs, At, Plus, StoredRun, Stamped;
      ghost var m := flat;
      NextCells(addr, buffer);
      var v := Or32In(buffer, addr % PAGE, x);
      FourStamps(m, addr, x, v, buffer[addr % PAGE..addr % PAGE + 4]);
      SetRun(addr, buffer, false, v);
      MarkedFour(m, addr, x, v, flat);
    }

    /** vm_r_dword */
    method ReadDword(addr: Addr) returns (v: bv32)
      requires Valid()
      modifies this`pdir, this`invalid, this`flat, this`tables, this`buffers, this`made, pdir, tables.Keys, buffers.Keys
      ensures Valid() && Grown(old(pdir), old(tables), old(buffers)) && Full(old(flat))
      ensures (flat, v) == Reads(old(flat), addr, 4, PERM_R, ACC_R)
    {
      hide Valid, Backs, At, FetchAll, Fetch, Value, May, FetchOk, HasAll, Plus;
      var buffer := Page(addr);
      CellIs(addr, buffer);
      var fast := Has32(buffer, addr % PAGE, PERM_R | PERM_VALID);
      if !fast {
        v := ReadSlow32(addr);
      } else {
        NextCells(addr, buffer);
        v := ReadFast32(addr, buffer);
      }
    }

    method ReadPair(addr: Addr, next: Addr) returns (a: bv8, b: bv8)
      requires Valid()
      modifies this`pdir, this`invalid, this`flat, this`tables, this`buffers, this`made, pdir, tables.Keys, buffers.Keys
      ensures Valid() && Grown(old(pdir), old(tables), old(buffers)) && Full(old(flat))
      ensures var (m, x) := Fetch(old(flat), addr, PERM_R, ACC_R); Full(m) && (flat, b) == Fetch(m, next, PERM_R, ACC_R) && a == x
    {
      hide Valid, Fetch;
      a := ReadByte(addr);
      b := ReadByte(next);
    }

    method ReadSlow32(addr: Addr) returns (v: bv32)
      requires Valid()
      modifies this`pdir, this`invalid, this`flat, this`tables, this`buffers, this`made, pdir, tables.Keys, buffers.Keys
      ensures Valid() && Grown(old(pdir), old(tables), old(buffers)) && Full(old(flat))
      ensures (flat, v) == Reads(old(flat), addr, 4, PERM_R, ACC_R)
    {
      hide Valid, FetchAll, Fetch, Value, Add32, Plus;
      FetchFour(flat, addr, PERM_R, ACC_R);
      var a, b := ReadPair(addr, Plus(addr, 1));
      var c, d := ReadPair(Plus(addr, 2), Plus(addr, 3));
      v := Add32(a, b, c, d);
      Value4(a, b, c, d);
    }

    method ReadFast32(addr: Addr, buffer: array<bv8>) returns (v: bv32)
      requires Valid() && Backs(buffer, addr / PAGE) && addr % PAGE < PAGE - 3
      requires forall k {:trigger Plus(addr, k)} :: 0 <= k < 4 ==> Readable(At(flat, Plus(addr, k)))
      modifies this`flat, buffer
      ensures Valid() && Full(old(flat)) && (flat, v) == Reads(old(flat), addr, 4, PERM_R, ACC_R)
    {
      hide Valid, Backs, At, FetchAll, Value, Pack32, MarkedRun, Plus, Readable;
      ghost var m := flat;
      NextCells(addr, buffer);
      Or32(addr, buffer, ACC_R);
      NextCells(addr, buffer);
      RunData(m, addr, 4, ACC_R, flat);
      var o := PAGE + addr % PAGE;
      v := Pack32(buffer[o], buffer[o + 1], buffer[o + 2], buffer[o + 3]);
      assert buffer[o] == At(flat, Plus(addr, 0)).data && buffer[o + 1] == At(flat, Plus(addr, 1)).data;
      assert buffer[o + 2] == At(flat, Plus(addr, 2)).data && buffer[o + 3] == At(flat, Plus(addr, 3)).data;
      FastRead32(m, addr, flat, v);
    }

    /** vm_w_dword */
    method WriteDword(addr: Addr, v: bv32)
      requires Valid()
      modifies this`pdir, this`invalid, this`flat, this`tables, this`buffers, this`made, pdir, tables.Keys, buffers.Keys
      ensures Valid() && Grown(old(pdir), old(tables), old(buffers)) && Full(old(flat))
      ensures flat == WriteAll(old(flat), addr, Bytes(v, 4))
    {
      hide Valid, Backs, At, WriteAll, Write, May, HasAll, Bytes, Plus;
      var buffer := Page(addr);
      CellIs(addr, buffer);
      var fast := Has32(buffer, addr % PAGE, PERM_W);
      if !fast {
        WriteSlow32(addr, v);
      } else {
        NextCells(addr, buffer);
        WriteFast32(addr, buffer, v);
      }
    }

    method WriteSlow32(addr: Addr, v: bv32)
      requires Valid()
      modifies this`pdir, this`invalid, this`flat, this`tables, this`buffers, this`made, pdir, tables.Keys, buffers.Keys
      ensures Valid() && Grown(old(pdir), old(tables), old(buffers)) && Full(old(flat))
      ensures flat == WriteAll(old(flat), addr, Bytes(v, 4))
    {
      hide Valid, WriteAll, Write, First, Second, Third, Fourth, Plus;
      WriteFour(flat, addr, v);
      WriteByte(addr, First(v));
      WriteByte(Plus(addr, 1), Second(v));
      WriteByte(Plus(addr, 2), Third(v));
      WriteByte(Plus(addr, 3), Fourth(v));
    }

    method WriteFast32(addr: Addr, buffer: array<bv8>, v: bv32)
      requires Valid() && Backs(buffer, addr / PAGE) && addr % PAGE < PAGE - 3
      requires forall k {:trigger Plus(addr, k)} :: 0 <= k < 4 ==> Writable(At(flat, Plus(addr, k)))
      modifies this`flat, buffer
      ensures Valid() && Full(old(flat)) && flat == WriteAll(old(flat), addr, Bytes(v, 4))
    {
      hide Valid, Backs, At, WriteAll, MarkedRun, Bytes, Writable, StoredRun, Plus;
      ghost var m := flat;
      NextCells(addr, buffer);
      Or32(addr, buffer, PERM_VALID | ACC_W);
      ghost var marked := flat;
      SetRun(addr, buffer, true, Bytes(v, 4));
      StoredPlus(marked, addr, Bytes(v, 4), flat);
      FastWrite(m, addr, Bytes(v, 4), marked, flat);
    }

    /** vm_x_word. Which byte is fetched first makes no difference (FetchesCommute). */
    method ExecWord(addr: Addr) returns (v: bv32)
      requires Valid()
      modifies this`pdir, this`invalid, this`flat, this`tables, this`buffers, this`made, pdir, tables.Keys, buffers.Keys
      ensures Valid() && Grown(old(pdir), old(tables), old(buffers)) && Full(old(flat))
      ensures (flat, v) == Reads(old(flat), addr, 2, PERM_X, ACC_X)
    {
      hide Valid, FetchAll, Fetch, Value, Add16, Load16;
      FetchTwo(flat, addr, PERM_X, ACC_X);
      var lo := ExecByte(addr);
      var hi := ExecByte(Plus(addr, 1));
      v := Add16(lo, hi);
      Value2(lo, hi);
    }

    /** vm_x_dword */
    method ExecDword(addr: Addr) returns (v: bv32)
      requires Valid()
      modifies this`pdir, this`invalid, this`flat, this`tables, this`buffers, this`made, pdir, tables.Keys, buffers.Keys
      ensures Valid() && Grown(old(pdir), old(tables), old(buffers)) && Full(old(flat))
      ensures (flat, v) == Reads(old(flat), addr, 4, PERM_X, ACC_X)
    {
      hide Valid, Reads, Plus, AddHigh;
      ReadsHalves(flat, addr, PERM_X, ACC_X);
      var lo := ExecWord(addr);
      var hi := ExecWord(Plus(addr, 2));
      v := AddHigh(lo, hi);
    }

    // ---------- vm_memio ----------

    method MemIoRead(addr: Addr, val: bv32, bits: nat) returns (newVal: bv32)
      requires Valid()
      modifies this`pdir, this`invalid, this`flat, this`tables, this`buffers, this`made, pdir, tables.Keys, buffers.Keys
      ensures Valid() && Grown(old(pdir), old(tables), old(buffers)) && Full(old(flat))
      ensures (flat, newVal) == ReadOn(old(flat), addr, val, bits)
    {
      hide Valid, Reads, Fetch, At;
      newVal := val;
      if bits == 0 {
        var b := ReadByte(addr);
        newVal := b as bv32;
      } else if bits == 1 {
        newVal := ReadWord(addr);
      } else if bits == 2 {
        newVal := ReadDword(addr);
      } else if bits == 3 {
        var b := ReadByteAnyway(addr);
        newVal := b as bv32;
      }
    }

    method MemIoWrite(addr: Addr, val: bv32, bits: nat)
      requires Valid()
      modifies this`pdir, this`invalid, this`flat, this`tables, this`buffers, this`made, pdir, tables.Keys, buffers.Keys
      ensures Valid() && Grown(old(pdir), old(tables), old(buffers)) && Full(old(flat))
      ensures flat == WriteOn(old(flat), addr, val, bits)
    {
      hide Valid, WriteAll, Write, WriteAnyway, First, Bytes;
      if bits == 0 {
        WriteByte(addr, First(val));
      } else if bits == 1 {
        WriteWord(addr, val);
      } else if bits == 2 {
        WriteDword(addr, val);
      } else if bits == 3 {
        WriteByteAnyway(addr, First(val));
      }
    }

    method MemIoExec(addr: Addr, val: bv32, bits: nat) returns (newVal: bv32)
      requires Valid()
      modifies this`pdir, this`invalid, this`flat, this`tables, this`buffers, this`made, pdir, tables.Keys, buffers.Keys
      ensures Valid() && Grown(old(pdir), old(tables), old(buffers)) && Full(old(flat))
      ensures (flat, newVal) == ExecOn(old(flat), addr, val, bits)
    {
      hide Valid, Reads, Fetch;
      newVal := val;
      if bits == 0 {
        var b := ExecByte(addr);
        newVal := b as bv32;
      } else if bits == 1 {
        newVal := ExecWord(addr);
      } else if bits == 2 {
        newVal := ExecDword(addr);
      }
    }

    /** vm_memio, but for the port accesses. A type it does not know does nothing. */
    method MemIo(addr: Addr, val: bv32, access: Access, bits: nat) returns (newVal: bv32, error: bool)
      requires Valid()
      modifies this`pdir, this`invalid, this`flat, this`tables, this`buffers, this`made, pdir, tables.Keys, buffers.Keys
      ensures Valid() && Grown(old(pdir), old(tables), old(buffers)) && Full(old(flat))
      ensures (flat, newVal) == MemIoOn(old(flat), addr, val, access, bits) && error == flat.invalid
    {
      hide Valid, ReadOn, WriteOn, ExecOn;
      newVal := val;
      ClearInvalid();
      match access {
        case Reading => newVal := MemIoRead(addr, val, bits);
        case Writing => MemIoWrite(addr, val, bits);
        case Executing => newVal := MemIoExec(addr, val, bits);
        case Unknown =>
      }
      InvalidIs();
      error := invalid;
    }

    // ---------- x86emu_set_perm ----------

    /** The body of the page loop: the default, and the attributes if the page has been made. */
    method PaintWhole(start: Addr, perm: bv8)
      requires Valid() && start % PAGE == 0
      modifies this`pdir, this`invalid, this`flat, this`tables, this`buffers, this`made, this`defaults, pdir, tables.Keys, buffers.Keys
      ensures Valid() && Grown(old(pdir), old(tables), old(buffers)) && Full(old(flat))
      ensures flat == Paint(old(flat), start, start + PAGE, perm)
      ensures |old(defaults)| == PAGES && defaults == old(defaults)[start / PAGE := perm] && made == old(made)
    {
      var table, index := GetPage(start, false);
      PaintEntry(table, index, start / PAGE, perm);
    }

    method PaintEntry(table: array<Entry>, index: nat, p: nat, perm: bv8)
      requires Valid() && p < PAGES && index == p % ENTRIES && pdir != null && pdir[p / ENTRIES] == table
      modifies this`flat, this`defaults, table, buffers.Keys
      ensures Valid() && Full(old(flat)) && flat == Paint(old(flat), PAGE * p, PAGE * p + PAGE, perm)
      ensures |old(defaults)| == PAGES && defaults == old(defaults)[p := perm]
    {
      hide PagesOk, EntriesAre, RowsOk, DirOk, Entered, Paint;
      ghost var es := Open();
      EntryIs(es, p);
      var e := table[index];
      ghost var painted := Paint(flat, PAGE * p, PAGE * p + PAGE, perm);
      PaintPage(flat, p, perm);
      EntryKnown(es, p);
      Kinds();
      PaintRow(e, perm, es, p, buffers, flat.pages, painted.pages[p]);
      SetEntry(table, p, e.(defAttr := perm), es);
      assert painted.pages == flat.pages[p := painted.pages[p]];
      defaults := defaults[p := perm];
      flat := painted;
      Close(es[p := e.(defAttr := perm)]);
    }

    /** page->attr[idx] = perm, after the addresses from start up to cur have been painted. */
    method PaintByte(start: Addr, cur: Addr, buffer: array<bv8>, perm: bv8, ghost m: Memory)
      requires Valid() && start <= cur && cur / PAGE == start / PAGE && Backs(buffer, start / PAGE)
      requires Full(m) && flat == Paint(m, start, cur, perm)
      modifies this`flat, buffer
      ensures Valid() && Backs(buffer, start / PAGE) && flat == Paint(m, start, cur + 1, perm)
    {
      hide Valid, Backs, At, Put, Paint;
      SetByte(cur, buffer, false, perm);
      PaintOne(Paint(m, start, cur, perm), cur, perm);
      PaintJoin(m, start, cur, cur + 1, perm);
    }

    /** The loop over the bytes before the first page boundary. It returns the unsigned `start`. */
    method PaintHead(start: Addr, end: Addr, perm: bv8) returns (next: Addr)
      requires Valid() && start <= end && start % PAGE != 0
      modifies this`pdir, this`invalid, this`flat, this`tables, this`buffers, this`made, pdir, tables.Keys, buffers.Keys
      ensures Valid() && Grown(old(pdir), old(tables), old(buffers)) && Full(old(flat))
      ensures var stop := if end / PAGE == start / PAGE then end + 1 else (start / PAGE + 1) * PAGE;
        next == stop % SIZE && flat == Paint(old(flat), start, stop, perm)
      ensures made == old(made) + {start / PAGE}
    {
      hide Valid, Backs, Paint;
      ghost var m := flat;
      var idx := start % PAGE;
      var cur: nat := start;
      var buffer := Page(start);
      PaintNone(m, start, perm);
      while idx < PAGE && cur <= end
        invariant start <= cur <= end + 1 && idx <= PAGE && cur - start == idx - start % PAGE
        invariant Valid() && Backs(buffer, start / PAGE) && flat == Paint(m, start, cur, perm)
        invariant buffer in buffers && Grown(old(pdir), old(tables), old(buffers)) && made == old(made) + {start / PAGE}
      {
        PaintByte(start, cur, buffer, perm, m);
        idx := idx + 1;
        cur := cur + 1;
      }
      next := cur % SIZE;
    }

    /** The loop over the bytes after the last page boundary. */
    method PaintTail(start: Addr, end: Addr, perm: bv8)
      requires Valid() && start % PAGE == 0
      requires (start <= end && end - start < PAGE - 1) || (start == 0 && end == SIZE - 1)
      modifies this`pdir, this`invalid, this`flat, this`tables, this`buffers, this`made, pdir, tables.Keys, buffers.Keys
      ensures Valid() && Grown(old(pdir), old(tables), old(buffers)) && Full(old(flat))
      ensures flat == if start == 0 && end == SIZE - 1 then old(flat) else Paint(old(flat), start, end + 1, perm)
      ensures made == old(made) + {start / PAGE}
    {
      hide Valid, Backs, Paint;
      ghost var m := flat;
      var buffer := Page(start);
      PaintNone(m, start, perm);
      var count := (end - start + 1) % SIZE;
      var idx := 0;
      while idx < count
        invariant idx <= count && Valid() && Backs(buffer, start / PAGE) && flat == Paint(m, start, start + idx, perm)
        invariant buffer in buffers && Grown(old(pdir), old(tables), old(buffers)) && made == old(made) + {start / PAGE}
      {
        PaintByte(start, start + idx, buffer, perm, m);
        idx := idx + 1;
      }
    }

    /** The loop over whole pages. `stop` is set where the source returns. */
    method PaintPages(start: Addr, end: Addr, perm: bv8) returns (next: Addr, stop: bool, ghost reached: nat)
      requires Valid() && start <= end && start % PAGE == 0
      modifies this`pdir, this`invalid, this`flat, this`tables, this`buffers, this`made, this`defaults, pdir, tables.Keys, buffers.Keys
      ensures Valid() && Grown(old(pdir), old(tables), old(buffers)) && Full(old(flat))
      ensures stop <==> start == 0 && end >= PAGE - 1
      ensures stop ==> flat == Paint(old(flat), start, PAGE, perm)
      ensures !stop ==> next == reached % SIZE && reached % PAGE == 0
      ensures !stop ==> start <= reached <= end + 1 && end + 1 - reached < PAGE
      ensures !stop ==> flat == Paint(old(flat), start, reached, perm)
      ensures DefaultsPainted(old(defaults), defaults, start, if stop then PAGE else reached, perm) && made == old(made)
    {
      hide Valid, Paint;
      ghost var m := flat;
      stop := false;
      next, reached := start, start;
      PaintNone(m, start, perm);
      while end - next >= PAGE - 1
        invariant start <= next <= end && next % PAGE == 0 && (start == 0 ==> next == 0) && reached == next
        invariant Valid() && Grown(old(pdir), old(tables), old(buffers)) && flat == Paint(m, start, next, perm)
        invariant DefaultsPainted(old(defaults), defaults, start, next, perm) && made == old(made)
        decreases end - next
      {
        ghost var before := defaults;
        PaintWhole(next, perm);
        OnePainted(old(defaults), before, defaults, start, next / PAGE, perm);
        PaintJoin(m, start, next, next + PAGE, perm);
        if next == 0 {
          return next, true, PAGE;
        }
        if end - next == PAGE - 1 {
          reached := next + PAGE;
          next := (next + PAGE) % SIZE;
          return;
        }
        next := next + PAGE;
        reached := next;
      }
    }

    /** x86emu_set_perm from its page loop on. */
    method PaintAligned(start: Addr, end: Addr, perm: bv8)
      requires Valid() && start <= end && start % PAGE == 0
      modifies this`pdir, this`invalid, this`flat, this`tables, this`buffers, this`made, this`defaults, pdir, tables.Keys, buffers.Keys
      ensures Valid() && Grown(old(pdir), old(tables), old(buffers)) && Full(old(flat))
      ensures flat == Paint(old(flat), start, PaintedEnd(start, end), perm)
      ensures DefaultsPainted(old(defaults), defaults, start, PaintedEnd(start, end), perm)
      ensures forall p :: 0 <= p < PAGES && Whole(start, PaintedEnd(start, end), p) ==> (p in made <==> p in old(made))
    {
      hide Valid, Paint;
      ghost var m := flat;
      var from, stop, reached := PaintPages(start, end, perm);
      if stop || from > end {
        return;
      }
      PaintTail(from, end, perm);
      PaintJoin(m, start, reached, end + 1, perm);
    }

    /** x86emu_set_perm, which paints up to PaintedEnd. */
    method SetPerm(start: Addr, end: Addr, perm: bv8)
      requires Valid()
      modifies this`pdir, this`invalid, this`flat, this`tables, this`buffers, this`made, this`defaults, pdir, tables.Keys, buffers.Keys
      ensures Valid() && Grown(old(pdir), old(tables), old(buffers)) && Full(old(flat))
      ensures flat == Paint(old(flat), start, PaintedEnd(start, end), perm)
      ensures DefaultsPainted(old(defaults), defaults, start, PaintedEnd(start, end), perm)
      ensures forall p :: 0 <= p < PAGES && Whole(start, PaintedEnd(start, end), p) ==> (p in made <==> p in old(made))
    {
      hide Valid, Paint;
      ghost var m := flat;
      PaintNone(m, start, perm);
      if start > end {
        return;
      }
      var from := start;
      if start % PAGE != 0 {
        from := PaintHead(start, end, perm);
        if from == 0 || from > end {
          return;
        }
      }
      PaintAligned(from, end, perm);
      PaintJoin(m, start, from, PaintedEnd(from, end), perm);
    }

    /** emu_mem_clone: a memory of its own with the same contents. */
    method Clone() returns (c: EmuMemory)
      requires Valid()
      ensures fresh(c) && c.Valid() && c.flat == flat
      ensures fresh(c.tables.Keys) && fresh(c.buffers.Keys) && (c.pdir != null ==> fresh(c.pdir))
      ensures Apart(c, this)
    {
      c := new EmuMemory(defAttr);
      var dir: array?<array?<Entry>> := null;
      ghost var ts: map<array<Entry>, nat>, bs: map<array<bv8>, nat> := map[], map[];
      if pdir != null {
        forall k | 0 <= k < ENTRIES && pdir[k] != null
          ensures pdir[k].Length == ENTRIES && RowsOk(pdir[k][..], k * ENTRIES, buffers, flat.pages[k * ENTRIES..(k + 1) * ENTRIES])
        {
          TableRows(k);
        }
        dir, ts, bs := CloneDir(pdir, buffers, flat.pages);
      }
      c.Install(dir, ts, bs, this);
    }

    lemma TableRows(k: nat)
      requires Valid() && pdir != null && k < ENTRIES && pdir[k] != null
      ensures pdir[k].Length == ENTRIES && RowsOk(pdir[k][..], k * ENTRIES, buffers, flat.pages[k * ENTRIES..(k + 1) * ENTRIES])
    {
      hide PageOk;
      var rows, cells := pdir[k][..], flat.pages[k * ENTRIES..(k + 1) * ENTRIES];
      forall j | 0 <= j < ENTRIES
        ensures RowOk(rows[j], k * ENTRIES + j, buffers, cells[j])
      {
        var p := k * ENTRIES + j;
        assert p / ENTRIES == k && p % ENTRIES == j;
        assert EntryAt(pdir, tables, defAttr, p) == rows[j];
      }
    }

    ghost method Track()
      requires DirOk(pdir, tables)
      modifies this`defaults, this`made
      ensures EntriesAre()
    {
      defaults := [];
      for p := 0 to PAGES
        invariant |defaults| == p
        invariant forall q {:trigger EntryAt(pdir, tables, defAttr, q)} :: 0 <= q < p ==> defaults[q] == EntryAt(pdir, tables, defAttr, q).defAttr
      {
        defaults := defaults + [EntryAt(pdir, tables, defAttr, p).defAttr];
      }
      made := set p | 0 <= p < PAGES && EntryAt(pdir, tables, defAttr, p).attr != null;
    }

    /** Takes over copies of the parts of `from`. */
    method Install(dir: array?<array?<Entry>>, ghost ts: map<array<Entry>, nat>, ghost bs: map<array<bv8>, nat>, from: EmuMemory)
      requires from != this && from.Valid() && defAttr == from.defAttr
      requires dir == null <==> from.pdir == null
      requires Sized(ts, bs) && (dir != null ==> dir.Length == ENTRIES)
      requires dir != null ==>
        forall k {:trigger dir[k]} :: 0 <= k < ENTRIES ==> SlotOk(dir[k], from.pdir[k], k, ts, bs, from.flat.pages)
      modifies this
      ensures Valid() && flat == from.flat && pdir == dir && tables == ts && buffers == bs
    {
      pdir, tables, buffers, invalid, flat := dir, ts, bs, from.invalid, from.flat;
      hide PageOk, RowsOk;
      assert DirOk(pdir, tables);
      Track();
      hide EntriesAre;
      forall p | 0 <= p < PAGES
        ensures var e := EntryAt(pdir, tables, defAttr, p);
          (e.attr != null ==> e.attr in buffers && buffers[e.attr] == p) && PageOk(e, p, buffers, flat.pages[p])
      {
        Installed(p, from);
      }
    }

    lemma Installed(p: nat, from: EmuMemory)
      requires p < PAGES && from.Valid() && DirOk(pdir, tables) && defAttr == from.defAttr
      requires (pdir == null <==> from.pdir == null) && flat == from.flat
      requires pdir != null ==>
        forall k {:trigger pdir[k]} :: 0 <= k < ENTRIES ==> SlotOk(pdir[k], from.pdir[k], k, tables, buffers, flat.pages)
      ensures var e := EntryAt(pdir, tables, defAttr, p);
        (e.attr != null ==> e.attr in buffers && buffers[e.attr] == p) && PageOk(e, p, buffers, flat.pages[p])
    {
      hide PageOk;
      var k, j := p / ENTRIES, p % ENTRIES;
      var e := EntryAt(pdir, tables, defAttr, p);
      var cells := flat.pages[k * ENTRIES..(k + 1) * ENTRIES];
      assert cells[j] == flat.pages[p];
      if pdir == null || pdir[k] == null {
        UnmadePage(e, p, from.buffers, buffers, flat.pages[p]);
      } else {
        assert SlotOk(pdir[k], from.pdir[k], k, tables, buffers, flat.pages);
        RowIs(pdir[k][..], k * ENTRIES, buffers, cells, j);
        if e.attr != null {
          EntryLength(e, p, buffers, flat.pages[p]);
        }
      }
    }

    // ---------- x86emu_reset_access_stats ----------

    method ResetPage(p: nat)
      requires Valid() && p < PAGES && pdir != null && pdir[p / ENTRIES] != null
      modifies this`flat, buffers.Keys
      ensures Valid() && Full(old(flat)) && flat.invalid == old(flat).invalid
      ensures flat.pages == if Made(p) then old(flat).pages[p := Cleared(old(flat).pages[p])] else old(flat).pages
      ensures pdir[..] == old(pdir[..]) && forall q :: 0 <= q < PAGES ==> Made(q) == old(Made(q))
    {
      hide PagesOk, EntriesAre, RowsOk, DirOk, Entered;
      ghost var es := Open();
      EntryIs(es, p);
      MadeEntries(es);
      var e := pdir[p / ENTRIES][p % ENTRIES];
      EntryKnown(es, p);
      Kinds();
      if e.attr != null {
        ClearRow(e, es, p, buffers, flat.pages);
        flat := flat.(pages := flat.pages[p := Cleared(flat.pages[p])]);
        MadeEntries(es);
        Close(es);
      }
    }

    lemma MadeEntries(es: seq<Entry>)
      requires DirOk(pdir, tables) && Entered(es)
      ensures |es| == PAGES && forall p :: 0 <= p < PAGES ==> (Made(p) <==> es[p].attr != null)
    {
    }

    lemma NothingMade(i: nat)
      requires Valid() && i < ENTRIES && pdir != null && pdir[i] == null
      ensures forall p :: i * ENTRIES <= p < (i + 1) * ENTRIES ==> !Made(p)
    {
      hide PagesOk;
      forall p | i * ENTRIES <= p < (i + 1) * ENTRIES
        ensures !Made(p)
      {
        assert p / ENTRIES == i;
      }
    }

    /** The pages of one table. */
    method ResetTable(i: nat)
      requires Valid() && i < ENTRIES && pdir != null && pdir[i] != null
      modifies this`flat, buffers.Keys
      ensures Valid() && Full(old(flat)) && flat.invalid == old(flat).invalid
      ensures forall p :: 0 <= p < PAGES ==>
        flat.pages[p] == if p / ENTRIES == i && Made(p) then Cleared(old(flat).pages[p]) else old(flat).pages[p]
      ensures pdir[..] == old(pdir[..]) && forall q :: 0 <= q < PAGES ==> Made(q) == old(Made(q))
    {
      hide PagesOk, Made;
      ghost var m, dir := flat, pdir[..];
      for u := 0 to ENTRIES
        invariant Valid() && flat.invalid == m.invalid && pdir[..] == dir
        invariant forall q :: 0 <= q < PAGES ==> Made(q) == old(Made(q))
        invariant forall p :: 0 <= p < PAGES ==>
          flat.pages[p] == if i * ENTRIES <= p < i * ENTRIES + u && Made(p) then Cleared(m.pages[p]) else m.pages[p]
      {
        var p := i * ENTRIES + u;
        assert p / ENTRIES == i && pdir[i] == dir[i];
        ResetPage(p);
      }
    }

    lemma MadeIs(p: nat)
      requires Valid() && p < PAGES
      ensures Made(p) <==> p in made
    {
      assert EntryAt(pdir, tables, defAttr, p).attr == null || p in made;
    }

    lemma UnmadeCell(a: Addr)
      requires Valid() && a / PAGE !in made
      ensures At(flat, a) == Cell(defaults[a / PAGE], 0)
    {
      var e := EntryAt(pdir, tables, defAttr, a / PAGE);
      assert PageOk(e, a / PAGE, buffers, flat.pages[a / PAGE]);
    }

    /** Tidy memory: no byte of a page that has not been made carries an access mark. */
    lemma TidyIs()
      requires Valid()
      ensures Tidy(defaults, made) <==> forall a: Addr :: a / PAGE !in made ==> Unmarked(At(flat, a).attr)
    {
      hide Valid, At, Unmarked;
      forall a: Addr | a / PAGE !in made
        ensures At(flat, a).attr == defaults[a / PAGE]
      {
        UnmadeCell(a);
      }
      if !Tidy(defaults, made) {
        var p :| 0 <= p < PAGES && p !in made && !Unmarked(defaults[p]);
        var a: Addr := PAGE * p;
        assert a / PAGE == p;
      }
    }

    /** Keeps only the permissions and the valid bits, in the pages that have been made. */
    method ResetPages()
      requires Valid()
      modifies this`flat, buffers.Keys
      ensures Valid() && Full(old(flat)) && flat.invalid == old(flat).invalid
      ensures forall p :: 0 <= p < PAGES ==>
        flat.pages[p] == if Made(p) then Cleared(old(flat).pages[p]) else old(flat).pages[p]
      ensures forall p :: 0 <= p < PAGES ==> Made(p) == old(Made(p))
    {
      hide PagesOk, EntriesAre;
      ghost var m := flat;
      if pdir == null {
        return;
      }
      for i := 0 to ENTRIES
        invariant Valid() && flat.invalid == m.invalid && pdir[..] == old(pdir[..])
        invariant forall q :: 0 <= q < PAGES ==> Made(q) == old(Made(q))
        invariant forall p :: 0 <= p < PAGES ==>
          flat.pages[p] == if p < i * ENTRIES && Made(p) then Cleared(m.pages[p]) else m.pages[p]
      {
        if pdir[i] != null {
          ResetTable(i);
        } else {
          NothingMade(i);
        }
      }
    }

    /** x86emu_reset_access_stats: every byte loses its access marks exactly if the memory is tidy. */
    method ResetAccessStats()
      requires Valid()
      modifies this`flat, buffers.Keys
      ensures Valid() && Full(old(flat)) && flat.invalid == old(flat).invalid
      ensures forall p :: 0 <= p < PAGES ==>
        flat.pages[p] == if p in made then Cleared(old(flat).pages[p]) else old(flat).pages[p]
      ensures (forall a: Addr :: At(flat, a) == Clear(At(old(flat), a))) <==> Tidy(defaults, made)
    {
      hide PagesOk, EntriesAre, Made, At, Unmarked, Clear;
      ghost var m := flat;
      TidyIs();
      ResetPages();
      forall p | 0 <= p < PAGES
        ensures flat.pages[p] == if p in made then Cleared(m.pages[p]) else m.pages[p]
      {
        MadeIs(p);
      }
      ResetExact(m, flat, made);
    }
  }

  /** A use of the memory: an access through vm_memio, or a call of x86emu_set_perm. */
  datatype Use = Io(addr: Addr, val: bv32, access: Access, bits: nat) | Painting(start: Addr, end: Addr, perm: bv8)

  predicate Plain(use: Use) {
    use.Painting? ==> Unmarked(use.perm)
  }

  lemma FreshTidy(defaults: seq<bv8>, perm: bv8)
    requires defaults == seq(PAGES, _ => perm) && Unmarked(perm)
    ensures Tidy(defaults, {})
  {
  }

  /**
   Whatever is done with a memory whose attributes never had access marks to begin with, not by
   default and not through x86emu_set_perm, a reset leaves no access mark on any byte.
   */
  method UseAndReset(perm: bv8, uses: seq<Use>) returns (mem: EmuMemory)
    requires Unmarked(perm) && forall k :: 0 <= k < |uses| ==> Plain(uses[k])
    ensures fresh(mem) && mem.Valid() && forall a: Addr :: Unmarked(At(mem.flat, a).attr)
  {
    mem := new EmuMemory(perm);
    hide EmuMemory.Valid, Unmarked, At, Clear, MemIoOn, FlatMemory.Paint, PaintedEnd, Tidy, DefaultsPainted, Whole;
    FreshTidy(mem.defaults, perm);
    for k := 0 to |uses|
      invariant fresh(mem) && mem.Valid() && Tidy(mem.defaults, mem.made)
      invariant (mem.pdir != null ==> fresh(mem.pdir)) && fresh(mem.tables.Keys) && fresh(mem.buffers.Keys)
    {
      assert Plain(uses[k]);
      ghost var defaults, made := mem.defaults, mem.made;
      match uses[k] {
        case Io(addr, val, access, bits) =>
          var _, _ := mem.MemIo(addr, val, access, bits);
          TidyGrows(defaults, made, mem.made);
        case Painting(start, end, attr) =>
          mem.SetPerm(start, end, attr);
          TidyPainted(defaults, mem.defaults, start, PaintedEnd(start, end), attr, made, mem.made);
      }
    }
    ghost var m := mem.flat;
    mem.ResetAccessStats();
    forall a: Addr | true
      ensures Unmarked(At(mem.flat, a).attr)
    {
      ClearChanges(At(m, a));
    }
  }

  lemma MarkedAttribute()
    ensures !Unmarked(PERM_R | ACC_R)
  {
  }

  /** Otherwise one can stay: x86emu_set_perm puts it on a page nobody has touched, and the reset passes over it. */
  method MarkLeft() returns (mem: EmuMemory)
    ensures fresh(mem) && mem.Valid() && !Unmarked(At(mem.flat, 0x1000).attr)
  {
    mem := new EmuMemory(PERM_R);
    MarkedAttribute();
    hide EmuMemory.Valid, Unmarked, At, FlatMemory.Paint;
    mem.SetPerm(0x1000, 0x1fff, PERM_R | ACC_R);
    assert Whole(0x1000, 0x2000, 1);
    mem.ResetAccessStats();
    mem.UnmadeCell(0x1000);
  }

  /** A write of 1, 2 or 4 bytes; ours says whether it goes to the clone. */
  datatype LaterWrite = LaterWrite(ours: bool, addr: Addr, val: bv32, bits: nat)

  /** The writes to one of the two memories, on the flat memory it had. */
  function Written(m: Memory, writes: seq<LaterWrite>, ours: bool): (r: Memory)
    requires Full(m)
    ensures Full(r)
    decreases |writes|
  {
    if writes == [] then m
    else
      var before := Written(m, writes[..|writes| - 1], ours);
      var w := writes[|writes| - 1];
      if w.ours == ours then WriteOn(before, w.addr, w.val, w.bits) else before
  }

  lemma WrittenNext(m: Memory, writes: seq<LaterWrite>, k: nat, ours: bool)
    requires Full(m) && k < |writes|
    ensures var before := Written(m, writes[..k], ours); var w := writes[k];
      Written(m, writes[..k + 1], ours) == if w.ours == ours then WriteOn(before, w.addr, w.val, w.bits) else before
  {
    assert writes[..k + 1][..k] == writes[..k];
    hide WriteOn;
  }

  /** The two memories share nothing. */
  ghost predicate Apart(c: EmuMemory, mem: EmuMemory)
    reads c`pdir, c`tables, c`buffers, mem`pdir, mem`tables, mem`buffers
  {
    c.Parts() !! mem.Parts()
  }

  /** A write to one memory leaves another that shares nothing with it as it was, and sharing nothing. */
  method WriteBeside(mem: EmuMemory, other: EmuMemory, addr: Addr, val: bv32, bits: nat)
    requires mem.Valid() && other.Valid() && Apart(mem, other)
    modifies mem, mem.pdir, mem.tables.Keys, mem.buffers.Keys
    ensures mem.Valid() && Full(old(mem.flat)) && mem.flat == WriteOn(old(mem.flat), addr, val, bits)
    ensures if old(mem.pdir) == null then mem.pdir == null || fresh(mem.pdir) else mem.pdir == old(mem.pdir)
    ensures fresh(mem.tables.Keys - old(mem.tables.Keys)) && fresh(mem.buffers.Keys - old(mem.buffers.Keys))
    ensures other.Valid() && Apart(mem, other) && unchanged(other)
  {
    hide EmuMemory.Valid, WriteOn;
    mem.InParts();
    other.InParts();
    mem.MemIoWrite(addr, val, bits);
  }

  lemma ApartSame(c: EmuMemory, mem: EmuMemory)
    ensures Apart(c, mem) == Apart(mem, c)
  {
  }

  lemma NoneWritten(m: Memory, writes: seq<LaterWrite>)
    requires Full(m)
    ensures Written(m, writes[..0], true) == m && Written(m, writes[..0], false) == m
  {
  }

  /** A clone and its original go their own ways: of any later writes, each memory has its own and no other. */
  method CloneApart(mem: EmuMemory, writes: seq<LaterWrite>) returns (c: EmuMemory)
    requires mem.Valid()
    modifies mem, mem.pdir, mem.tables.Keys, mem.buffers.Keys
    ensures mem.Valid() && c.Valid() && Full(old(mem.flat))
    ensures c.flat == Written(old(mem.flat), writes, true) && mem.flat == Written(old(mem.flat), writes, false)
  {
    hide EmuMemory.Valid, WriteOn, Written, Apart;
    ghost var m := mem.flat;
    c := mem.Clone();
    NoneWritten(m, writes);
    for k := 0 to |writes|
      invariant c != mem && fresh(c) && mem.Valid() && c.Valid() && Apart(c, mem)
      invariant if old(mem.pdir) == null then mem.pdir == null || fresh(mem.pdir) else mem.pdir == old(mem.pdir)
      invariant fresh(mem.tables.Keys - old(mem.tables.Keys)) && fresh(mem.buffers.Keys - old(mem.buffers.Keys))
      invariant (c.pdir != null ==> fresh(c.pdir)) && fresh(c.tables.Keys) && fresh(c.buffers.Keys)
      invariant c.flat == Written(m, writes[..k], true) && mem.flat == Written(m, writes[..k], false)
    {
      WrittenNext(m, writes, k, true);
      WrittenNext(m, writes, k, false);
      var w := writes[k];
      if w.ours {
        WriteBeside(c, mem, w.addr, w.val, w.bits);
      } else {
        ApartSame(c, mem);
        WriteBeside(mem, c, w.addr, w.val, w.bits);
        ApartSame(c, mem);
      }
    }
    assert writes[..|writes|] == writes;
  }

  function Width(access: Access, bits: nat): nat {
    if access == Unknown || bits > 2 then 0 else if bits == 0 then 1 else if bits == 1 then 2 else 4
  }

  lemma SameOk(m: Memory, c: Memory, a: Addr, n: nat, need: bv8)
    requires Full(m) && Full(c) && forall b: Addr :: At(c, b) == At(m, b)
    ensures AllFetchOk(m, a, n, need) == AllFetchOk(c, a, n, need) && AllMay(m, a, n, need) == AllMay(c, a, n, need)
  {
    hide At, FetchOk, May;
  }

  lemma OneByte(m: Memory, a: Addr, need: bv8, mark: bv8, v: bv8)
    requires Full(m)
    ensures FetchAll(m, a, 1, need, mark).0 == Fetch(m, a, need, mark).0
    ensures WriteAll(m, a, [v]) == Write(m, a, v)
  {
    hide Fetch, Write, Plus;
    assert [v][1..] == [];
  }

  /**
   vm_memio reports an error exactly when some byte of the access lacks the permission, or,
   for a read or an instruction fetch, was never written.
   */
  lemma MemIoErrors(m: Memory, a: Addr, val: bv32, access: Access, bits: nat)
    requires Full(m)
    ensures var n := Width(access, bits); MemIoOn(m, a, val, access, bits).0.invalid <==>
      match access
      case Reading => !AllFetchOk(m, a, n, PERM_R)
      case Writing => !AllMay(m, a, n, PERM_W)
      case Executing => !AllFetchOk(m, a, n, PERM_X)
      case Unknown => false
  {
    var c := m.(invalid := false);
    var n := Width(access, bits);
    assert forall b: Addr :: At(c, b) == At(m, b);
    hide At, Fetch, FetchAll, Write, WriteAll, FetchOk, May, First, Bytes, Value;
    match access {
      case Reading =>
        FetchAllErrors(c, a, n, PERM_R, ACC_R);
        SameOk(m, c, a, n, PERM_R);
        OneByte(c, a, PERM_R, ACC_R, First(val));
      case Executing =>
        FetchAllErrors(c, a, n, PERM_X, ACC_X);
        SameOk(m, c, a, n, PERM_X);
        OneByte(c, a, PERM_X, ACC_X, First(val));
      case Writing =>
        var v := if bits == 0 then [First(val)] else Bytes(val, n);
        WriteAllErrors(c, a, v);
        SameOk(m, c, a, n, PERM_W);
        OneByte(c, a, PERM_W, ACC_W, First(val));
      case Unknown =>
    }
  }

  /** The low 8, 16 or 32 bits. */
  function Truncated(val: bv32, bits: nat): bv32 {
    if bits == 0 then First(val) as bv32
    else if bits == 1 then Load16(First(val), Second(val))
    else val
  }

  lemma OnlyByte(a: bv8)
    ensures Value([a]) == a as bv32
  {
    assert [a][1..] == [];
    assert Value([a]) == Prefix(a, 0);
  }

  lemma ValueTruncated(val: bv32, bits: nat)
    requires bits <= 2
    ensures Value(Bytes(val, Width(Writing, bits))) == Truncated(val, bits)
  {
    if bits == 0 {
      assert Bytes(val, 1) == [First(val)];
      OnlyByte(First(val));
    } else if bits == 1 {
      assert Bytes(val, 2) == [First(val), Second(val)];
      Value2(First(val), Second(val));
    } else {
      ValueOfBytes(val);
    }
  }

  lemma OneByteValue(m: Memory, a: Addr, need: bv8, mark: bv8)
    requires Full(m)
    ensures Fetch(m, a, need, mark).0 == FetchAll(m, a, 1, need, mark).0
    ensures Fetch(m, a, need, mark).1 as bv32 == Value(FetchAll(m, a, 1, need, mark).1)
  {
    hide Fetch, Value, Plus;
    OnlyByte(Fetch(m, a, need, mark).1);
    assert [Fetch(m, a, need, mark).1] + [] == [Fetch(m, a, need, mark).1];
  }

  lemma LowByte(val: bv32)
    ensures First(val) as bv32 == val & 0xff && val & 0xffff_ffff == val
  {
  }

  lemma LowWord(val: bv32)
    ensures Load16(First(val), Second(val)) == val & 0xffff
  {
  }

  lemma TruncatedIs(val: bv32, bits: nat)
    ensures bits == 0 ==> Truncated(val, bits) == val & 0xff
    ensures bits == 1 ==> Truncated(val, bits) == val & 0xffff
    ensures bits > 1 ==> Truncated(val, bits) == val
  {
    LowByte(val);
    LowWord(val);
    hide First, Second, Load16;
  }

  function LittleWord(a: bv8, b: bv8): bv32 {
    a as bv32 | (b as bv32 << 8)
  }

  function LittleDword(a: bv8, b: bv8, c: bv8, d: bv8): bv32 {
    a as bv32 | (b as bv32 << 8) | (c as bv32 << 16) | (d as bv32 << 24)
  }

  lemma LittleEndian(a: bv8, b: bv8, c: bv8, d: bv8)
    ensures Value([a]) == a as bv32 && Value([a, b]) == LittleWord(a, b) && Value([a, b, c, d]) == LittleDword(a, b, c, d)
  {
    OnlyByte(a);
    Value2(a, b);
    Value4(a, b, c, d);
    hide Value;
  }

  /** The byte at a + k as a read (need 1) or an execution (need 4) sees it. */
  function Seen(m: Memory, a: Addr, k: nat, need: bv8): bv8
    requires Full(m)
  {
    FetchedValue(At(m, Plus(a, k)), need)
  }

  /**
   What vm_memio returns for a read (bits 0 and 4 of the attribute) or an execution (bits 2 and 6) of 1, 2 or
   4 bytes: those bytes, the one at the lowest address least significant. It treats them as FetchMarks
   says, and no other byte.
   */
  lemma MemIoFetches(m: Memory, a: Addr, val: bv32, access: Access, bits: nat, need: bv8, mark: bv8)
    requires Full(m) && bits <= 2
    requires (access.Reading? && need == 0x01 && mark == 0x10) || (access.Executing? && need == 0x04 && mark == 0x40)
    ensures var n := if bits == 0 then 1 else if bits == 1 then 2 else 4;
      var r := MemIoOn(m, a, val, access, bits).0;
      Full(r) && forall b: Addr :: At(r, b) == if Among(a, n, b) then FetchedCell(At(m, b), need, mark) else At(m, b)
    ensures var v := MemIoOn(m, a, val, access, bits).1;
      && (bits == 0 ==> v == Seen(m, a, 0, need) as bv32)
      && (bits == 1 ==> v == LittleWord(Seen(m, a, 0, need), Seen(m, a, 1, need)))
      && (bits == 2 ==> v == LittleDword(Seen(m, a, 0, need), Seen(m, a, 1, need), Seen(m, a, 2, need), Seen(m, a, 3, need)))
  {
    var n := if bits == 0 then 1 else if bits == 1 then 2 else 4;
    var c := m.(invalid := false);
    forall b: Addr
      ensures At(c, b) == At(m, b)
    {
    }
    hide At, Fetch, FetchAll, FetchOk, FetchedCell, FetchedValue, Value, Plus, Among, LittleWord, LittleDword;
    FetchAllExact(c, a, n, need, mark);
    var v := FetchAll(c, a, n, need, mark).1;
    assert forall k :: 0 <= k < n ==> v[k] == Seen(m, a, k, need);
    OneByteValue(c, a, need, mark);
    Assembled(v);
  }

  lemma Assembled(v: seq<bv8>)
    ensures |v| == 1 ==> Value(v) == v[0] as bv32
    ensures |v| == 2 ==> Value(v) == LittleWord(v[0], v[1])
    ensures |v| == 4 ==> Value(v) == LittleDword(v[0], v[1], v[2], v[3])
  {
    hide Value, LittleWord, LittleDword;
    if |v| == 1 {
      assert v == [v[0]];
      LittleEndian(v[0], 0, 0, 0);
    } else if |v| == 2 {
      assert v == [v[0], v[1]];
      LittleEndian(v[0], v[1], 0, 0);
    } else if |v| == 4 {
      assert v == [v[0], v[1], v[2], v[3]];
      LittleEndian(v[0], v[1], v[2], v[3]);
    }
  }

  /** The bytes vm_memio writes, each as WriteMarks says, and no other; the value stays the caller's. */
  lemma MemIoWrites(m: Memory, a: Addr, val: bv32, bits: nat)
    requires Full(m) && bits <= 2
    ensures var n := if bits == 0 then 1 else if bits == 1 then 2 else 4;
      var (r, v) := MemIoOn(m, a, val, Writing, bits);
      && Full(r) && v == val
      && (forall k {:trigger Plus(a, k)} :: 0 <= k < n ==> At(r, Plus(a, k)) == WrittenCell(At(m, Plus(a, k)), Bytes(val, n)[k]))
      && (forall b: Addr :: !Among(a, n, b) ==> At(r, b) == At(m, b))
  {
    var n := if bits == 0 then 1 else if bits == 1 then 2 else 4;
    var c := m.(invalid := false);
    forall b: Addr
      ensures At(c, b) == At(m, b)
    {
    }
    assert Bytes(val, 1) == [First(val)];
    hide At, Write, WriteAll, WrittenCell, Plus, Among, First, Second, Third, Fourth, Bytes;
    var v := Bytes(val, n);
    WriteAllExact(c, a, v);
    OneByte(c, a, PERM_W, ACC_W, First(val));
    forall k {:trigger Plus(a, k)} | 0 <= k < n
      ensures At(MemIoOn(m, a, val, Writing, bits).0, Plus(a, k)) == WrittenCell(At(m, Plus(a, k)), v[k])
    {
      var byte := v[k];
    }
  }

  /**
   The type without permissions reads a byte and leaves no mark, and writes one wherever it is, valid (bit 3)
   and marked as written (bit 5). Any other type does nothing.
   */
  lemma MemIoAnyway(m: Memory, a: Addr, val: bv32, access: Access, bits: nat)
    requires Full(m) && bits > 2
    ensures var (r, v) := MemIoOn(m, a, val, access, bits);
      && Full(r) && !r.invalid
      && (forall b: Addr :: At(r, b) ==
            if bits == 3 && access.Writing? && b == a then Cell(At(m, a).attr | 0x28, (val & 0xff) as bv8) else At(m, b))
      && v == if bits == 3 && access.Reading? then At(m, a).data as bv32 else val
    ensures forall b: Addr :: var (r, v) := MemIoOn(m, a, val, Unknown, bits); At(r, b) == At(m, b) && v == val
  {
    var c := m.(invalid := false);
    forall b: Addr
      ensures At(c, b) == At(m, b)
    {
    }
    hide At;
  }

  /** vm_memio reads back what it wrote, without an error, where it may write and read. */
  lemma MemIoReadsBack(m: Memory, a: Addr, val: bv32, bits: nat, other: bv32)
    requires Full(m) && bits <= 2
    requires AllMay(m, a, Width(Writing, bits), PERM_W) && AllMay(m, a, Width(Writing, bits), PERM_R)
    ensures var w := MemIoOn(m, a, val, Writing, bits).0;
      !w.invalid && Full(w) && !MemIoOn(w, a, other, Reading, bits).0.invalid
      && MemIoOn(w, a, other, Reading, bits).1 == Truncated(val, bits)
    ensures bits == 0 ==> Truncated(val, bits) == val & 0xff
    ensures bits == 1 ==> Truncated(val, bits) == val & 0xffff
    ensures bits == 2 ==> Truncated(val, bits) == val
  {
    var c := m.(invalid := false);
    var n := Width(Writing, bits);
    assert forall b: Addr :: At(c, b) == At(m, b);
    ValueTruncated(val, bits);
    TruncatedIs(val, bits);
    var v := Bytes(val, n);
    hide At, Fetch, FetchAll, Write, WriteAll, FetchOk, May, First, Second, Value, Truncated, Load16;
    SameOk(m, c, a, n, PERM_W);
    SameOk(m, c, a, n, PERM_R);
    ReadsBack(c, a, v, PERM_R, ACC_R);
    var w := WriteAll(c, a, v);
    assert w.(invalid := false) == w;
    if bits == 0 {
      assert v == [First(val)];
      OneByte(c, a, PERM_R, ACC_R, First(val));
      OneByteValue(w, a, PERM_R, ACC_R);
    }
  }
}

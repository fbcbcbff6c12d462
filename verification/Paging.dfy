/**
 32-bit paging without PAE as the processor performs it: a page directory of 1024
 words, page tables of 1024 words, frames of 4096 bytes (Intel SDM volume 3A,
 section 4.3). Physical memory is 2^20 frames of 1024 words.

 The kernel reaches the tables through directory slot 1023, which points back at the
 directory. The lemmas here say what a load or store through that window touches.
 */
module Paging {
  const FRAMES := 0x100000
  const WORDS := 1024

  /** First page of vmm_page_mappings_1 (0xFFC00000); everything above is the window. */
  const WINDOW := 0xFFC00

  /** The page of vmm_page_mappings_2 (0xFFFFF000). */
  const DIRECTORY_PAGE := 0xFFFFF

  const SELF := 1023

  const PAGE_PRESENT := 0x001
  const PAGE_WRITE := 0x002
  const PAGE_GLOBAL := 0x100
  const PAGE_ALLOCATED := 0x200

  type Frame = f: nat | f < 0x100000
  type Page = p: nat | p < 0x100000
  type Word = w: nat | w < 0x1_0000_0000
  type Index = i: nat | i < 1024

  /** physicalAddress | flags, for a page-aligned address: the low 12 bits are free. */
  function Entry(f: Frame, flags: nat): (w: Word)
    requires flags < 0x1000
    ensures FrameOf(w) == f && w % 0x1000 == flags
  {
    f * 0x1000 + flags
  }

  function FrameOf(w: Word): Frame {
    w / 0x1000
  }

  predicate Present(w: Word) {
    w % 2 == 1
  }

  predicate Writable(w: Word) {
    w / 2 % 2 == 1
  }

  predicate Allocated(w: Word) {
    (w / 0x200) % 2 == 1
  }

  ghost predicate RamOk(ram: seq<seq<Word>>) {
    |ram| == FRAMES && forall f :: 0 <= f < FRAMES ==> |ram[f]| == WORDS
  }

  function Put(ram: seq<seq<Word>>, f: Frame, i: Index, w: Word): (r: seq<seq<Word>>)
    requires RamOk(ram)
    ensures RamOk(r)
  {
    var row: seq<Word> := ram[f][i := w];
    ram[f := row]
  }

  function Blank(): seq<Word> {
    seq(WORDS, _ => 0)
  }

  /** The entry the processor uses for page p, or 0 when p has no page table. */
  function Pte(ram: seq<seq<Word>>, dir: Frame, p: Page): Word
    requires RamOk(ram)
  {
    var pde := ram[dir][p / 1024];
    if Present(pde) then ram[FrameOf(pde)][p % 1024] else 0
  }

  predicate Mapped(ram: seq<seq<Word>>, dir: Frame, p: Page)
    requires RamOk(ram)
  {
    Present(Pte(ram, dir, p))
  }

  /** The hardware walk of page p, for mapped pages. */
  function Walk(ram: seq<seq<Word>>, dir: Frame, p: Page): Frame
    requires RamOk(ram)
  {
    FrameOf(Pte(ram, dir, p))
  }

  /** The processor may store to page p: its entry and that of its page table both allow it. */
  predicate MayWrite(ram: seq<seq<Word>>, dir: Frame, p: Page)
    requires RamOk(ram)
  {
    Mapped(ram, dir, p) && Writable(ram[dir][p / 1024]) && Writable(Pte(ram, dir, p))
  }

  ghost predicate SelfMapped(ram: seq<seq<Word>>, dir: Frame)
    requires RamOk(ram)
  {
    Present(ram[dir][SELF]) && FrameOf(ram[dir][SELF]) == dir
  }

  /** The page tables listed in directory row `row` are distinct frames, none of them the directory. */
  ghost predicate TablesApart(row: seq<Word>, dir: Frame)
    requires |row| == WORDS
  {
    && (forall i: Index :: i != SELF && Present(row[i]) ==> FrameOf(row[i]) != dir)
    && (forall i: Index, j: Index :: i < j && Present(row[i]) && Present(row[j])
          ==> FrameOf(row[i]) != FrameOf(row[j]))
  }

  /** Page that holds byte address a, and the word of that page a points at. */
  function PageOf(a: Word): Page {
    a / 0x1000
  }

  function WordOf(a: Word): Index {
    a % 0x1000 / 4
  }

  /** Byte address of vmm_page_mappings_1[p]. */
  function MappingAddress(p: Page): Word {
    0xFFC00000 + 4 * p
  }

  /** Byte address of vmm_page_mappings_2[i]. */
  function DirectoryAddress(i: Index): Word {
    0xFFFFF000 + 4 * i
  }

  /** The page of the window that shows the page table of p. */
  function WindowPage(p: Page): (w: Page)
    ensures w == PageOf(MappingAddress(p)) && WordOf(MappingAddress(p)) == p % 1024
  {
    WINDOW + p / 1024
  }

  /**
   Walking the address of vmm_page_mappings_1[p] ends at the very word the processor
   reads when it translates p, and is a fault exactly when p has no page table.
   The directory slots themselves show up as the entries of the window's last page.
   */
  lemma SelfMap(ram: seq<seq<Word>>, dir: Frame, p: Page)
    requires RamOk(ram) && SelfMapped(ram, dir)
    ensures var a := MappingAddress(p);
            && (Mapped(ram, dir, PageOf(a)) <==> Present(ram[dir][p / 1024]))
            && (Mapped(ram, dir, PageOf(a)) ==> ram[Walk(ram, dir, PageOf(a))][WordOf(a)] == Pte(ram, dir, p))
    ensures var a := DirectoryAddress(p / 1024);
            && Mapped(ram, dir, PageOf(a)) && Walk(ram, dir, PageOf(a)) == dir
            && WordOf(a) == p / 1024
            && Pte(ram, dir, WindowPage(p)) == ram[dir][p / 1024]
    ensures Writable(ram[dir][SELF]) ==>
              && MayWrite(ram, dir, PageOf(DirectoryAddress(p / 1024)))
              && (MayWrite(ram, dir, PageOf(MappingAddress(p))) <==> Present(ram[dir][p / 1024]) && Writable(ram[dir][p / 1024]))
  {
    assert WindowPage(p) / 1024 == SELF && WindowPage(p) % 1024 == p / 1024;
    assert DIRECTORY_PAGE / 1024 == SELF && DIRECTORY_PAGE % 1024 == SELF;
    assert PageOf(DirectoryAddress(p / 1024)) == DIRECTORY_PAGE;
  }

  /** A store through the window to the entry of page p changes that translation and no other. */
  lemma StoreEntry(ram: seq<seq<Word>>, dir: Frame, p: Page, w: Word)
    requires RamOk(ram) && SelfMapped(ram, dir) && TablesApart(ram[dir], dir)
    requires p < WINDOW && Present(ram[dir][p / 1024])
    ensures var after := Put(ram, Walk(ram, dir, WindowPage(p)), p % 1024, w);
            && SelfMapped(after, dir) && TablesApart(after[dir], dir)
            && after[dir] == ram[dir]
            && Pte(after, dir, p) == w
            && forall q: Page :: q != p ==> Pte(after, dir, q) == Pte(ram, dir, q)
  {
    SelfMap(ram, dir, p);
    var t := FrameOf(ram[dir][p / 1024]);
    var after := Put(ram, t, p % 1024, w);
    forall q: Page | q != p ensures Pte(after, dir, q) == Pte(ram, dir, q) {
      if q / 1024 == p / 1024 {
        assert q % 1024 != p % 1024;
      }
    }
  }

  lemma AddTable(row: seq<Word>, dir: Frame, i: Index, e: Word)
    requires |row| == WORDS && TablesApart(row, dir)
    requires i != SELF && Present(e) && FrameOf(e) != dir
    requires forall j: Index :: Present(row[j]) ==> FrameOf(row[j]) != FrameOf(e)
    ensures var after: seq<Word> := row[i := e]; TablesApart(after, dir)
  {
  }

  /**
   Installing a blank frame as the page table of slot i, where there was none, gives no
   page below the window a new translation: creating a page table is invisible.
   */
  lemma InstallTable(ram: seq<seq<Word>>, dir: Frame, i: Index, e: Word)
    requires RamOk(ram) && SelfMapped(ram, dir) && TablesApart(ram[dir], dir)
    requires i != SELF && !Present(ram[dir][i]) && Present(e) && FrameOf(e) != dir
    requires forall j: Index :: Present(ram[dir][j]) ==> FrameOf(ram[dir][j]) != FrameOf(e)
    ensures var after := Put(ram, dir, i, e)[FrameOf(e) := Blank()];
            && RamOk(after) && SelfMapped(after, dir) && TablesApart(after[dir], dir)
            && after[dir] == ram[dir][i := e]
            && forall q: Page :: q < WINDOW ==> Pte(after, dir, q) == Pte(ram, dir, q)
  {
    var after := Put(ram, dir, i, e)[FrameOf(e) := Blank()];
    AddTable(ram[dir], dir, i, e);
    forall q: Page | q < WINDOW ensures Pte(after, dir, q) == Pte(ram, dir, q) {
      if q / 1024 == i {
        assert after[FrameOf(e)] == Blank();
      } else {
        assert Present(ram[dir][q / 1024]) ==> FrameOf(ram[dir][q / 1024]) != FrameOf(e);
      }
    }
  }
}

/**
 The software TLB of qemu/cputlb.c.  Entries are single target pages; a guest
 page may be larger, and the TLB only remembers one region that covers all the
 large pages it has seen.  The claim is about stale translations: after a page
 is flushed, no entry that came from the guest page around the address, of
 whatever size, still translates anything.
 */
module SoftTlb {

  type word = bv64

  const NONE: word := 0xFFFF_FFFF_FFFF_FFFF

  /** The three comparison tags of one entry. */
  datatype Entry = Entry(read: word, write: word, code: word)

  const Empty := Entry(0xFFFF_FFFF_FFFF_FFFF, 0xFFFF_FFFF_FFFF_FFFF, 0xFFFF_FFFF_FFFF_FFFF)

  /** A guest page: any address in it and the mask of its size. */
  datatype Page = Page(vaddr: word, mask: word)

  predicate Contains(p: Page, x: word) {
    x & p.mask == p.vaddr & p.mask
  }

  /** `tag & (TARGET_PAGE_MASK | TLB_INVALID_MASK)` */
  function TagPage(tag: word): word {
    tag & 0xFFFF_FFFF_FFFF_F008
  }

  predicate Aligned(vaddr: word) {
    vaddr & 0xFFF == 0
  }

  function PageOf(x: word): word {
    x & 0xFFFF_FFFF_FFFF_F000
  }

  /** The comparison the fast path makes: page address and TLB_INVALID_MASK. */
  predicate TagHits(tag: word, x: word) {
    PageOf(x) == TagPage(tag)
  }

  predicate Translates(e: Entry, x: word) {
    TagHits(e.read, x) || TagHits(e.write, x) || TagHits(e.code, x)
  }

  function Meet(a: word, b: word): word {
    a & b
  }

  /** The region test of `tlb_flush_page`. */
  predicate InRegion(x: word, addr: word, mask: word) {
    x & mask == addr
  }

  predicate PageSize(size: word) {
    size >= 0x1000 && size & (size - 1) == 0
  }

  function MaskOf(size: word): word {
    !(size - 1)
  }

  /** The region mark for "no large page". */
  predicate NoRegion(addr: word) {
    addr == NONE
  }

  function Shl(m: word): word {
    m << 1
  }

  /** All bits of m are bits of n. */
  predicate Within(m: word, n: word) {
    m & n == m
  }

  /** The two addresses agree on the bits of the mask. */
  predicate Agree(a: word, b: word, mask: word) {
    (a ^ b) & mask == 0
  }

  /** All ones above some bit, zeros below. */
  predicate IsMask(m: word) {
    Within(Shl(m), m)
  }

  lemma MaskShift(mask: word, m: word)
    requires IsMask(mask) && Within(mask, m)
    ensures IsMask(Shl(mask)) && Within(Shl(mask), m)
  {
  }

  lemma MasksMeet(m: word, n: word)
    requires IsMask(m) && IsMask(n)
    ensures IsMask(Meet(m, n)) && Within(Meet(m, n), m) && Within(Meet(m, n), n)
  {
  }

  lemma SizeMask(size: word)
    requires PageSize(size)
    ensures IsMask(MaskOf(size))
  {
  }

  /** The words whose low k bits are zero are those within High(k). */
  ghost function High(k: nat): word {
    if k == 0 then 0xFFFF_FFFF_FFFF_FFFF else Shl(High(k - 1))
  }

  lemma HighShift(k: nat, m: word)
    requires Within(m, High(k))
    ensures Within(Shl(m), High(k + 1))
  {
  }

  lemma FourShifts(x: word)
    ensures Shl(Shl(Shl(Shl(x)))) == x << 4
  {
  }

  lemma HighFour(k: nat)
    ensures High(k + 4) == High(k) << 4
  {
    hide Shl;
    FourShifts(High(k));
    assert High(k + 1) == Shl(High(k));
    assert High(k + 2) == Shl(High(k + 1));
    assert High(k + 3) == Shl(High(k + 2));
    assert High(k + 4) == Shl(High(k + 3));
  }

  lemma HighSixteen(k: nat)
    ensures High(k + 16) == High(k) << 16
  {
    hide High;
    HighFour(k);
    HighFour(k + 4);
    HighFour(k + 8);
    HighFour(k + 12);
  }

  lemma HighEnd()
    ensures High(64) == 0
  {
    assert High(0) == 0xFFFF_FFFF_FFFF_FFFF;
    hide High;
    HighSixteen(0);
    HighSixteen(16);
    HighSixteen(32);
    HighSixteen(48);
  }

  /** A mask with its low k bits zero that still disagrees leaves room for another shift. */
  lemma RoomForShift(k: nat, a: word, b: word, mask: word)
    requires k <= 64 && Within(mask, High(k)) && !Agree(a, b, mask)
    ensures k < 64
  {
    hide High;
    HighEnd();
  }

  lemma AllWithin(m: word)
    ensures Within(m, m) && Within(m, High(0))
  {
  }

  /** The merging loop of `tlb_add_large_page`: at most 64 shifts until the new page agrees with the region. */
  method Merge(addr: word, vaddr: word, m: word) returns (mask: word)
    requires IsMask(m)
    ensures IsMask(mask) && Within(mask, m) && Agree(addr, vaddr, mask)
  {
    hide IsMask, High, Within, Agree, Shl;
    mask := m;
    ghost var k: nat := 0;
    AllWithin(m);
    while !Agree(addr, vaddr, mask)
      invariant IsMask(mask) && Within(mask, m)
      invariant k <= 64 && Within(mask, High(k))
      decreases 64 - k
    {
      RoomForShift(k, addr, vaddr, mask);
      HighShift(k, mask);
      MaskShift(mask, m);
      mask := Shl(mask);
      k := k + 1;
    }
  }

  // ---------- Regions and pages ----------

  /** The region covers the page: it is coarser and the page lies in it. */
  predicate Covers(addr: word, mask: word, p: Page) {
    Within(mask, p.mask) && p.vaddr & mask == addr
  }

  /** An address of a covered page matches the region test of `tlb_flush_page`. */
  lemma CoveredMatches(addr: word, mask: word, p: Page, x: word)
    requires Covers(addr, mask, p) && Contains(p, x)
    ensures InRegion(x, addr, mask)
  {
    MatchBits(addr, mask, p.vaddr, p.mask, x);
  }

  lemma MatchBits(addr: word, mask: word, vaddr: word, fine: word, x: word)
    requires mask & fine == mask && vaddr & mask == addr && x & fine == vaddr & fine
    ensures x & mask == addr
  {
  }

  /** Widening the region keeps the pages it covers. */
  lemma WiderCovers(addr: word, mask: word, wide: word, p: Page)
    requires Covers(addr, mask, p) && Within(wide, mask)
    ensures Covers(Meet(addr, wide), wide, p)
  {
    WithinTrans(wide, mask, p.mask);
    WideBits(p.vaddr, mask, wide);
    hide Within;
  }

  lemma WideBits(v: word, mask: word, wide: word)
    requires Within(wide, mask)
    ensures v & wide == Meet(v & mask, wide)
  {
  }

  lemma MergedCovers(addr: word, wide: word, p: Page)
    requires Within(wide, p.mask) && Agree(addr, p.vaddr, wide)
    ensures Covers(Meet(addr, wide), wide, p)
  {
  }

  lemma FirstCovers(p: Page)
    ensures Covers(Meet(p.vaddr, p.mask), p.mask, p)
  {
  }

  /** A page-sized or larger region never looks like the "no region" mark. */
  lemma NotNone(addr: word, mask: word)
    requires Within(mask, 0xFFFF_FFFF_FFFF_F000)
    ensures !NoRegion(Meet(addr, mask))
  {
  }

  lemma WithinTrans(a: word, b: word, c: word)
    requires Within(a, b) && Within(b, c)
    ensures Within(a, c)
  {
  }

  lemma LargeMask(size: word)
    requires PageSize(size)
    ensures Within(MaskOf(size), 0xFFFF_FFFF_FFFF_F000) && (size == 0x1000 ==> MaskOf(size) == 0xFFFF_FFFF_FFFF_F000)
  {
  }

  // ---------- Entries ----------

  /** TLB_INVALID_MASK set: the tag matches nothing. */
  predicate Dead(tag: word) {
    tag & 8 != 0
  }

  predicate TagOk(tag: word, vaddr: word) {
    Dead(tag) || TagPage(tag) == vaddr
  }

  predicate EntryOk(e: Entry, vaddr: word) {
    TagOk(e.read, vaddr) && TagOk(e.write, vaddr) && TagOk(e.code, vaddr)
  }

  lemma TranslatesOwnPage(e: Entry, vaddr: word, x: word)
    requires EntryOk(e, vaddr) && Translates(e, x)
    ensures PageOf(x) == vaddr
  {
    hide TagOk, TagHits;
    if TagHits(e.read, x) {
      TagOwnPage(e.read, vaddr, x);
    } else if TagHits(e.write, x) {
      TagOwnPage(e.write, vaddr, x);
    } else {
      TagOwnPage(e.code, vaddr, x);
    }
  }

  lemma TagOwnPage(tag: word, vaddr: word, x: word)
    requires TagOk(tag, vaddr) && TagHits(tag, x)
    ensures PageOf(x) == vaddr && TagPage(tag) == vaddr
  {
  }

  /** `tlb_flush_entry` */
  function FlushEntry(e: Entry, addr: word): Entry {
    if addr == TagPage(e.read) || addr == TagPage(e.write) || addr == TagPage(e.code)
    then Empty else e
  }

  lemma EmptyTranslatesNothing(x: word)
    ensures !Translates(Empty, x)
  {
  }

  lemma NothingTranslates()
    ensures forall x: word :: !Translates(Empty, x)
  {
    forall x: word ensures !Translates(Empty, x) {
      EmptyTranslatesNothing(x);
    }
  }

  /** After the flush of its own page, an entry translates nothing. */
  lemma FlushedIsGone(e: Entry, vaddr: word, x: word)
    requires EntryOk(e, vaddr)
    ensures !Translates(FlushEntry(e, vaddr), x)
  {
    hide TagOk, TagHits, TagPage;
    EmptyTranslatesNothing(x);
    if TagHits(e.read, x) {
      TagOwnPage(e.read, vaddr, x);
    } else if TagHits(e.write, x) {
      TagOwnPage(e.write, vaddr, x);
    } else if TagHits(e.code, x) {
      TagOwnPage(e.code, vaddr, x);
    }
  }

  /** What is known of the memory behind a page when its entry is set. */
  datatype Access = Access(read: bool, write: bool, exec: bool, io: bool, watched: bool, rom: bool, clean: bool)

  /** `tag | TLB_MMIO` */
  function Mmio(tag: word): word {
    tag | 0x20
  }

  /** `tag | TLB_NOTDIRTY` */
  function NotDirty(tag: word): word {
    tag | 0x10
  }

  /** The tag-setting part of `tlb_set_page`. */
  function NewEntry(vaddr: word, acc: Access): Entry {
    var code := if acc.io then Mmio(vaddr) else vaddr;
    var address := if acc.watched then Mmio(code) else code;
    Entry(if acc.read then address else NONE,
          if !acc.write then NONE else if acc.rom then Mmio(address) else if acc.clean then NotDirty(address)
              else address,
          if acc.exec then code else NONE)
  }

  lemma NewEntryOk(vaddr: word, acc: Access)
    requires Aligned(vaddr)
    ensures EntryOk(NewEntry(vaddr, acc), vaddr)
  {
    hide TagOk, Mmio, NotDirty;
    PlainTagOk(vaddr);
    FlagKept(vaddr, vaddr);
    FlagKept(Mmio(vaddr), vaddr);
    FlagKept(Mmio(Mmio(vaddr)), vaddr);
  }

  lemma PlainTagOk(vaddr: word)
    requires Aligned(vaddr)
    ensures TagOk(vaddr, vaddr) && TagOk(NONE, vaddr)
  {
  }

  /** The flag bits TLB_MMIO and TLB_NOTDIRTY leave the page address in the tag. */
  lemma FlagKept(tag: word, vaddr: word)
    requires TagOk(tag, vaddr)
    ensures TagOk(Mmio(tag), vaddr) && TagOk(NotDirty(tag), vaddr)
  {
  }

  lemma OwnPage(vaddr: word, mask: word, x: word)
    requires PageOf(x) == vaddr && Within(mask, 0xFFFF_FFFF_FFFF_F000)
    ensures Contains(Page(vaddr, mask), x)
  {
  }

  lemma SamePage(vaddr: word, addr: word)
    requires Contains(Page(vaddr, 0xFFFF_FFFF_FFFF_F000), addr) && Aligned(vaddr)
    ensures PageOf(addr) == vaddr
  {
  }

  function Slot(v: word): (r: nat)
    ensures r < 256
  {
    ((v >> 12) & 0xFF) as nat
  }

  /** The entry in slot i came from guest page p, and the region knows p if it is large. */
  ghost predicate Fits(e: Entry, p: Page, i: nat, large: set<Page>) {
    e != Empty ==>
      && EntryOk(e, p.vaddr) && Slot(p.vaddr) == i
      && Aligned(p.vaddr) && Within(p.mask, 0xFFFF_FFFF_FFFF_F000)
      && (p.mask == 0xFFFF_FFFF_FFFF_F000 || p in large)
  }

  lemma FitsMore(e: Entry, p: Page, i: nat, large: set<Page>, more: set<Page>)
    requires Fits(e, p, i, large) && large <= more
    ensures Fits(e, p, i, more)
  {
  }

  lemma NewFits(vaddr: word, size: word, acc: Access, large: set<Page>)
    requires Aligned(vaddr) && PageSize(size)
    requires size == 0x1000 || Page(vaddr, MaskOf(size)) in large
    ensures Fits(NewEntry(vaddr, acc), Page(vaddr, MaskOf(size)), Slot(vaddr), large)
  {
    hide EntryOk, Within, NewEntry, PageSize, MaskOf, Aligned;
    NewEntryOk(vaddr, acc);
    LargeMask(size);
  }

  lemma FlushedFits(e: Entry, p: Page, i: nat, large: set<Page>, addr: word)
    requires Fits(e, p, i, large)
    ensures Fits(FlushEntry(e, addr), p, i, large)
  {
    hide TagPage;
  }

  /** An entry left by the flush of one address is not from a guest page around it. */
  lemma StaleNowhere(e: Entry, p: Page, i: nat, large: set<Page>, flushAddr: word, flushMask: word, addr: word, x: word)
    requires Fits(e, p, i, large)
    requires forall q :: q in large ==> Covers(flushAddr, flushMask, q)
    requires !InRegion(addr, flushAddr, flushMask)
    requires Translates(if i == Slot(PageOf(addr)) then FlushEntry(e, PageOf(addr)) else e, x)
    ensures i == Slot(PageOf(addr)) ==> FlushEntry(e, PageOf(addr)) == e
    ensures Contains(p, x) && !Contains(p, addr)
  {
    hide Contains, Translates, EntryOk, PageOf, Within, Covers, IsMask, TagPage, InRegion, Aligned;
    EmptyTranslatesNothing(x);
    assert e != Empty;
    TranslatesOwnPage(e, p.vaddr, x);
    OwnPage(p.vaddr, p.mask, x);
    if Contains(p, addr) {
      if p in large {
        CoveredMatches(flushAddr, flushMask, p, addr);
      } else {
        SamePage(p.vaddr, addr);
        FlushedIsGone(e, p.vaddr, x);
      }
    }
  }

  class Tlb {
    const modes: nat
    var table: seq<seq<Entry>>
    var flushAddr: word
    var flushMask: word
    /** The guest page each entry came from, and the large pages seen since the last full flush. */
    ghost var origin: seq<seq<Page>>
    ghost var large: set<Page>

    ghost predicate Shape()
      reads this
    {
      && |table| == |origin| == modes
      && forall m :: 0 <= m < modes ==> |table[m]| == |origin[m]| == 256
    }

    ghost predicate Valid()
      reads this
    {
      && Shape()
      && (forall m, i :: 0 <= m < modes && 0 <= i < 256 ==> Fits(table[m][i], origin[m][i], i, large))
      && IsMask(flushMask) && Within(flushMask, 0xFFFF_FFFF_FFFF_F000)
      && (NoRegion(flushAddr) ==> large == {})
      && forall p :: p in large ==> Covers(flushAddr, flushMask, p)
    }

    constructor (n: nat)
      ensures Valid() && modes == n && large == {}
    {
      modes := n;
      table := seq(n, _ => seq(256, _ => Empty));
      origin := seq(n, _ => seq(256, _ => Page(0, 0)));
      flushAddr, flushMask, large := NONE, 0, {};
    }

    /** `tlb_flush` */
    method Flush()
      requires Shape()
      modifies this
      ensures Valid() && large == {}
      ensures forall m, i :: 0 <= m < modes && 0 <= i < 256 ==> table[m][i] == Empty
    {
      table := seq(modes, _ => seq(256, _ => Empty));
      origin := seq(modes, _ => seq(256, _ => Page(0, 0)));
      flushAddr, flushMask, large := NONE, 0, {};
    }

    /** Entries keep fitting when the region knows more pages. */
    lemma KeepFits(more: set<Page>)
      requires Valid() && large <= more
      ensures forall m, i :: 0 <= m < modes && 0 <= i < 256 ==> Fits(table[m][i], origin[m][i], i, more)
    {
      hide Fits;
      forall m, i | 0 <= m < modes && 0 <= i < 256 ensures Fits(table[m][i], origin[m][i], i, more) {
        FitsMore(table[m][i], origin[m][i], i, large, more);
      }
    }

    /** `tlb_add_large_page`: the region grows until it covers the new page too. */
    method AddLargePage(vaddr: word, size: word)
      requires Valid() && PageSize(size)
      modifies `flushAddr, `flushMask, `large
      ensures Valid() && large == old(large) + {Page(vaddr, MaskOf(size))}
    {
      hide Within, Covers, Agree, IsMask, Fits, Meet, NoRegion, PageSize, MaskOf;
      var mask := MaskOf(size);
      ghost var p := Page(vaddr, mask);
      SizeMask(size);
      LargeMask(size);
      if NoRegion(flushAddr) {
        FirstCovers(p);
        KeepFits(large + {p});
        NotNone(vaddr, mask);
        flushAddr := Meet(vaddr, mask);
        flushMask := mask;
        large := large + {p};
        return;
      }
      MasksMeet(mask, flushMask);
      var wide := Merge(flushAddr, vaddr, Meet(mask, flushMask));
      Widen(wide, p);
    }

    /** The region becomes the one of the coarser mask. */
    method Widen(wide: word, ghost p: Page)
      requires Valid() && IsMask(wide) && !NoRegion(flushAddr)
      requires Within(wide, Meet(p.mask, flushMask)) && Within(Meet(p.mask, flushMask), p.mask)
      requires Within(Meet(p.mask, flushMask), flushMask)
      requires Agree(flushAddr, p.vaddr, wide)
      modifies `flushAddr, `flushMask, `large
      ensures Valid() && large == old(large) + {p}
    {
      hide Within, Covers, Agree, IsMask, Fits, Meet, NoRegion, PageSize, MaskOf;
      WithinTrans(wide, Meet(p.mask, flushMask), p.mask);
      WithinTrans(wide, Meet(p.mask, flushMask), flushMask);
      WithinTrans(wide, flushMask, 0xFFFF_FFFF_FFFF_F000);
      NotNone(flushAddr, wide);
      forall q | q in large ensures Covers(Meet(flushAddr, wide), wide, q) {
        WiderCovers(flushAddr, flushMask, wide, q);
      }
      MergedCovers(flushAddr, wide, p);
      KeepFits(large + {p});
      flushAddr := Meet(flushAddr, wide);
      flushMask := wide;
      large := large + {p};
    }

    /** `tlb_set_page` */
    method SetPage(vaddr: word, m: nat, size: word, acc: Access)
      requires Valid() && m < modes && Aligned(vaddr)
      requires PageSize(size)
      modifies this
      ensures Valid()
      ensures table == old(table)[m := old(table)[m][Slot(vaddr) := NewEntry(vaddr, acc)]]
      ensures origin == old(origin)[m := old(origin)[m][Slot(vaddr) := Page(vaddr, MaskOf(size))]]
    {
      hide Fits, Covers, IsMask, Within, NewEntry, PageSize, MaskOf, Aligned, NoRegion, Slot;
      if size != 0x1000 {
        AddLargePage(vaddr, size);
      }
      NewFits(vaddr, size, acc, large);
      var index := Slot(vaddr);
      table := table[m := table[m][index := NewEntry(vaddr, acc)]];
      origin := origin[m := origin[m][index := Page(vaddr, MaskOf(size))]];
    }

    /**
     `tlb_flush_page`: whatever still translates an address came from a guest
     page, small or large, that does not contain the flushed address.
     */
    method FlushPage(addr: word)
      requires Valid()
      modifies this
      ensures Valid()
      ensures forall m, i, x: word :: 0 <= m < modes && 0 <= i < 256 && Translates(table[m][i], x) ==>
                && table[m][i] == old(table)[m][i] && origin[m][i] == old(origin)[m][i]
                && Contains(origin[m][i], x) && !Contains(origin[m][i], addr)
      ensures !InRegion(addr, old(flushAddr), old(flushMask)) ==> forall m :: 0 <= m < modes ==>
                var slot := Slot(PageOf(addr));
                table[m] == old(table)[m][slot := FlushEntry(old(table)[m][slot], PageOf(addr))]
    {
      hide InRegion, NoRegion, Fits, Translates, Contains, Covers, IsMask, Within, FlushEntry, PageOf;
      if InRegion(addr, flushAddr, flushMask) {
        Flush();
        NothingTranslates();
        return;
      }
      var page := PageOf(addr);
      var i := Slot(page);
      for m := 0 to modes
        invariant Valid() && flushAddr == old(flushAddr) && flushMask == old(flushMask) && origin == old(origin)
        invariant large == old(large)
        invariant forall n :: m <= n < modes ==> table[n] == old(table)[n]
        invariant forall n :: 0 <= n < m ==> table[n] == old(table)[n][i := FlushEntry(old(table)[n][i], page)]
      {
        FlushedFits(table[m][i], origin[m][i], i, large, page);
        table := table[m := table[m][i := FlushEntry(table[m][i], page)]];
      }
      forall m, j, x: word | 0 <= m < modes && 0 <= j < 256 && Translates(table[m][j], x)
        ensures table[m][j] == old(table)[m][j] && Contains(origin[m][j], x) && !Contains(origin[m][j], addr)
      {
        StaleNowhere(old(table)[m][j], origin[m][j], j, large, flushAddr, flushMask, addr, x);
      }
    }
  }
}

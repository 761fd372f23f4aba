/**
 Physical address dispatch of qemu/exec.c: `mem_add` cuts a memory section into
 page-aligned and sub-page pieces, enters them into the radix tree and the
 sub-page tables, and `address_space_lookup_region` finds them again, before
 and after the tree is compacted by `mem_commit`.

 The reference is the flat list of sections that were added.
 */
module Dispatch {
  import opened PhysTree

  datatype Region = IoUnassigned | IoNotDirty | IoRom | IoWatch | SubpageIo(table: nat) | Device(id: nat)

  /** A window of a memory region in the address space; sizes go up to 2^64. */
  datatype Section = Section(mr: Region, base: nat, off: nat, size: nat)

  /** The section number of every byte of one page. */
  datatype Subpage = Subpage(base: nat, sub: seq<nat>)

  /** What the dispatch structures mean: the pages of the tree, the sections, the sub-pages. */
  datatype View = View(pm: PageMap, sections: seq<Section>, tables: seq<Subpage>)

  function Dummy(mr: Region): Section {
    Section(mr, 0, 0, 0x1_0000_0000_0000_0000)
  }

  /** The range check of `phys_page_find`: a 2^64 section covers every address. */
  predicate Covers(s: Section, a: nat) {
    s.size >= 0x1_0000_0000_0000_0000 || s.base <= a <= s.base + s.size - 1
  }

  predicate InRange(s: Section, a: nat) {
    s.base <= a < s.base + s.size
  }

  /** What a listener may hand to `mem_add`. */
  predicate ValidSection(s: Section) {
    && s.mr.Device? && s.size > 0
    && s.base + s.size <= 0x1_0000_0000_0000_0000
    && s.off < 0x1_0000_0000_0000_0000
  }

  /** A part of a section: same region, and every address keeps its offset in the region. */
  predicate PieceOf(p: Section, s: Section) {
    && p.mr == s.mr
    && s.base <= p.base && p.base + p.size <= s.base + s.size
    && p.off == (s.off + (p.base - s.base)) % 0x1_0000_0000_0000_0000
  }

  /** The offset in the region that an address translates to. */
  function Xlat(s: Section, a: nat): int {
    (a - s.base + s.off) % 0x1_0000_0000_0000_0000
  }

  lemma PieceXlat(p: Section, s: Section, a: nat)
    requires PieceOf(p, s)
    ensures Xlat(p, a) == Xlat(s, a)
  {
  }

  /** The section number that answers for address a, with sub-page resolution. */
  function SecNo(v: View, a: nat): nat {
    var s := v.pm(a / 4096);
    if s < |v.sections| && v.sections[s].mr.SubpageIo? && v.sections[s].mr.table < |v.tables| &&
       |v.tables[v.sections[s].mr.table].sub| == 4096
    then v.tables[v.sections[s].mr.table].sub[a % 4096] else s
  }

  /** A section in the tree covers the pages it is mapped at, and is mapped wherever it covers. */
  ghost predicate Exclusive(v: View, s: nat)
    requires s < |v.sections|
  {
    forall a: nat :: a < 0x1_0000_0000_0000_0000 ==> (Covers(v.sections[s], a) <==> v.pm(a / 4096) == s)
  }

  ghost predicate TableOk(v: View, t: nat, page: nat) {
    && t < |v.tables| && v.tables[t].base == 4096 * page && |v.tables[t].sub| == 4096
    && forall j :: 0 <= j < 4096 ==> SubOk(v, v.tables[t].sub[j])
  }

  predicate SubOk(v: View, n: nat) {
    n == UNASSIGNED || (4 <= n < |v.sections| && v.sections[n].mr.Device?)
  }

  ghost predicate PageOk(v: View, page: nat) {
    var s := v.pm(page);
    s == UNASSIGNED ||
    (&& 4 <= s < |v.sections| && page < 0x10_0000_0000_0000
     && Exclusive(v, s)
     && (v.sections[s].mr.Device? || (v.sections[s].mr.SubpageIo? && TableOk(v, v.sections[s].mr.table, page))))
  }

  ghost predicate Sane(v: View) {
    && 4 <= |v.sections|
    && v.sections[..4] == [Dummy(IoUnassigned), Dummy(IoNotDirty), Dummy(IoRom), Dummy(IoWatch)]
    && forall page: nat :: PageOk(v, page)
  }

  /** A mapped page answers for at least one of its bytes: no sub-page is empty. */
  ghost predicate Filled(v: View) {
    forall page: nat :: v.pm(page) != UNASSIGNED ==> HasByte(v, page)
  }

  ghost predicate HasByte(v: View, page: nat) {
    exists a: nat :: a / 4096 == page && SecNo(v, a) != UNASSIGNED
  }

  /** The dispatch answers like the flat list. */
  ghost predicate AnswersLike(v: View, flat: seq<Section>) {
    forall a: nat :: a < 0x1_0000_0000_0000_0000 ==> Answer(v, flat, SecNo(v, a), a)
  }

  /** An address belongs to a piece of its section, or to the unassigned section if no section has it. */
  ghost predicate Answer(v: View, flat: seq<Section>, n: nat, a: nat) {
    if n == UNASSIGNED then
      forall k :: 0 <= k < |flat| ==> !InRange(flat[k], a)
    else
      && n < |v.sections|
      && exists k :: 0 <= k < |flat| && InRange(flat[k], a) && PieceOf(v.sections[n], flat[k]) &&
          InRange(v.sections[n], a)
  }

  /** The section overlaps nothing that is there. */
  ghost predicate Clear(flat: seq<Section>, s: Section) {
    forall k, a: nat :: 0 <= k < |flat| && InRange(flat[k], a) ==> !InRange(s, a)
  }

  ghost predicate NoOverlap(flat: seq<Section>) {
    forall k :: 0 <= k < |flat| ==> Clear(flat[..k], flat[k])
  }

  /** The only section of the list that has the address. */
  ghost predicate OnlyOne(flat: seq<Section>, k: nat, a: nat) {
    && k < |flat| && InRange(flat[k], a)
    && forall j :: 0 <= j < |flat| && j != k ==> !InRange(flat[j], a)
  }

  lemma NoOverlapMore(flat: seq<Section>, s: Section)
    requires NoOverlap(flat) && Clear(flat, s)
    ensures NoOverlap(flat + [s])
  {
    hide Clear;
    var flat' := flat + [s];
    forall k | 0 <= k < |flat'| ensures Clear(flat'[..k], flat'[k]) {
      assert k < |flat| ==> flat'[..k] == flat[..k];
      assert k == |flat| ==> flat'[..k] == flat;
    }
  }

  lemma Separate(flat: seq<Section>, j: nat, k: nat, a: nat)
    requires NoOverlap(flat) && j < k < |flat|
    ensures InRange(flat[j], a) ==> !InRange(flat[k], a)
  {
    assert Clear(flat[..k], flat[k]) && flat[..k][j] == flat[j];
  }

  lemma IsOnlyOne(flat: seq<Section>, k: nat, a: nat)
    requires NoOverlap(flat) && k < |flat| && InRange(flat[k], a)
    ensures OnlyOne(flat, k, a)
  {
    hide NoOverlap;
    forall j | 0 <= j < |flat| && j != k ensures !InRange(flat[j], a) {
      Separate(flat, if j < k then j else k, if j < k then k else j, a);
    }
  }

  /** Exactly the bytes of `now` have moved to section number n. */
  ghost predicate Took(v: View, v': View, now: Section, n: nat) {
    && v.sections <= v'.sections && |v.sections| <= n < |v'.sections| && v'.sections[n] == now
    && forall a: nat :: a < 0x1_0000_0000_0000_0000 ==> SecNo(v', a) == if InRange(now, a) then n else SecNo(v, a)
  }

  ghost predicate AllUnassigned(v: View, now: Section) {
    forall a: nat :: InRange(now, a) ==> SecNo(v, a) == UNASSIGNED
  }

  // ---------- The range check after the walk ----------

  /** The walk may end at a section that is not the page's; the range check finds out. */
  lemma RangeCheckDecides(v: View, s: nat, a: nat)
    requires Sane(v) && a < 0x1_0000_0000_0000_0000
    requires s == UNASSIGNED || Mapped(v.pm, s)
    requires v.pm(a / 4096) == UNASSIGNED || v.pm(a / 4096) == s
    ensures s < |v.sections|
    ensures v.pm(a / 4096) == if Covers(v.sections[s], a) then s else UNASSIGNED
  {
    if s == UNASSIGNED {
      assert v.sections[0] == v.sections[..4][0];
    } else {
      var y: nat :| v.pm(y) == s;
      assert PageOk(v, y);
    }
  }

  // ---------- Whole pages ----------

  lemma PagesFree(v: View, now: Section, page: nat)
    requires Filled(v) && AllUnassigned(v, now)
    requires now.base <= 4096 * page && 4096 * page + 4096 <= now.base + now.size
    ensures v.pm(page) == UNASSIGNED
  {
    assert v.pm(page) != UNASSIGNED ==> HasByte(v, page);
  }

  /** Pages assigned before keep their section when other pages get a new one. */
  lemma PageKept(v: View, v': View, page: nat, lo: nat, hi: nat)
    requires Sane(v) && Free(v.pm, lo, hi) && Assigned(v.pm, v'.pm, lo, hi, |v.sections|)
    requires v.sections < v'.sections && v.tables <= v'.tables
    requires v.pm(page) != UNASSIGNED
    ensures PageOk(v', page) && v'.pm(page) == v.pm(page)
  {
    assert PageOk(v, page);
    var s := v.pm(page);
    assert Exclusive(v', s);
    if v.sections[s].mr.SubpageIo? {
      var t := v.sections[s].mr.table;
      forall j | 0 <= j < 4096 ensures SubOk(v', v'.tables[t].sub[j]) {
        assert SubOk(v, v.tables[t].sub[j]);
      }
    }
  }

  lemma SectionIsNew(v: View, page: nat)
    requires Sane(v)
    ensures v.pm(page) != |v.sections|
  {
    assert PageOk(v, page);
  }

  /** Free pages given to a new section that covers exactly them: the dispatch stays sane. */
  lemma NewSectionSane(v: View, v': View, now: Section, lo: nat, hi: nat)
    requires Sane(v) && Free(v.pm, lo, hi) && Assigned(v.pm, v'.pm, lo, hi, |v.sections|)
    requires v'.sections == v.sections + [now] && v.tables <= v'.tables
    requires lo < hi <= 0x10_0000_0000_0000 && now.base == 4096 * lo && now.size == 4096 * (hi - lo)
    requires now.mr.Device? || (now.mr.SubpageIo? && hi == lo + 1 && TableOk(v', now.mr.table, lo))
    ensures Sane(v')
  {
    forall page: nat ensures v.pm(page) != |v.sections| {
      SectionIsNew(v, page);
    }
    assert Exclusive(v', |v.sections|);
    forall page: nat ensures PageOk(v', page) {
      if v.pm(page) != UNASSIGNED {
        PageKept(v, v', page, lo, hi);
      }
    }
    assert v'.sections[..4] == v.sections[..4];
  }

  lemma SecNoKept(v: View, v': View, a: nat)
    requires Sane(v) && v.sections <= v'.sections && v.tables <= v'.tables
    requires v'.pm(a / 4096) == v.pm(a / 4096)
    ensures SecNo(v', a) == SecNo(v, a)
  {
    assert PageOk(v, a / 4096);
  }

  /** Pages mapped before, and pages that got a byte of `now`, are not empty. */
  lemma StillFilled(v: View, v': View, now: Section, n: nat)
    requires Sane(v) && Filled(v) && Took(v, v', now, n) && n != UNASSIGNED
    requires forall page: nat :: v'.pm(page) != UNASSIGNED ==>
               && page < 0x10_0000_0000_0000
               && (v.pm(page) != UNASSIGNED || exists a: nat :: a / 4096 == page && InRange(now, a))
    ensures Filled(v')
  {
    forall page: nat | v'.pm(page) != UNASSIGNED ensures HasByte(v', page) {
      var a: nat;
      if v.pm(page) != UNASSIGNED {
        assert HasByte(v, page);
        a :| a / 4096 == page && SecNo(v, a) != UNASSIGNED;
      } else {
        a :| a / 4096 == page && InRange(now, a);
      }
      assert SecNo(v', a) != UNASSIGNED;
    }
  }

  /** `register_multipage` moves exactly the bytes of its pages. */
  lemma MultipageTook(v: View, v': View, now: Section)
    requires Sane(v) && Filled(v) && AllUnassigned(v, now)
    requires ValidSection(now) && now.base % 4096 == 0 && now.size % 4096 == 0
    requires v'.sections == v.sections + [now] && v'.tables == v.tables
    requires Assigned(v.pm, v'.pm, now.base / 4096, now.base / 4096 + now.size / 4096, |v.sections|)
    ensures Sane(v') && Filled(v') && Took(v, v', now, |v.sections|)
  {
    var lo, hi := now.base / 4096, now.base / 4096 + now.size / 4096;
    assert now.base == 4096 * lo && now.base + now.size == 4096 * hi;
    forall page: nat | lo <= page < hi ensures v.pm(page) == UNASSIGNED {
      PagesFree(v, now, page);
    }
    NewSectionSane(v, v', now, lo, hi);
    forall a: nat | a < 0x1_0000_0000_0000_0000
      ensures SecNo(v', a) == if InRange(now, a) then |v.sections| else SecNo(v, a)
    {
      if !InRange(now, a) {
        SecNoKept(v, v', a);
      }
    }
    forall page: nat | v'.pm(page) != UNASSIGNED && v.pm(page) == UNASSIGNED
      ensures exists a: nat :: a / 4096 == page && InRange(now, a)
    {
      assert 4096 * page / 4096 == page && InRange(now, 4096 * page);
    }
    forall page: nat | v'.pm(page) != UNASSIGNED ensures page < 0x10_0000_0000_0000 {
      assert PageOk(v', page);
    }
    StillFilled(v, v', now, |v.sections|);
  }

  // ---------- Sub-pages ----------

  function FillSub(sub: seq<nat>, lo: nat, hi: nat, n: nat): (r: seq<nat>)
    ensures |r| == |sub|
    ensures forall i :: 0 <= i < |sub| ==> r[i] == if lo <= i < hi then n else sub[i]
  {
    seq(|sub|, i requires 0 <= i < |sub| => if lo <= i < hi then n else sub[i])
  }

  function EmptySub(): (r: seq<nat>)
    ensures |r| == 4096 && forall i :: 0 <= i < 4096 ==> r[i] == UNASSIGNED
  {
    seq(4096, i => UNASSIGNED)
  }

  /** A fresh sub-page for a free page changes no answer. */
  lemma FreshSubpage(v: View, v': View, page: nat)
    requires Sane(v) && page < 0x10_0000_0000_0000 && v.pm(page) == UNASSIGNED
    requires v'.tables == v.tables + [Subpage(4096 * page, EmptySub())]
    requires v'.sections == v.sections + [Section(SubpageIo(|v.tables|), 4096 * page, 0, 4096)]
    requires Assigned(v.pm, v'.pm, page, page + 1, |v.sections|)
    ensures Sane(v')
    ensures forall a: nat :: SecNo(v', a) == SecNo(v, a)
  {
    assert TableOk(v', |v.tables|, page);
    NewSectionSane(v, v', v'.sections[|v.sections|], page, page + 1);
    forall a: nat ensures SecNo(v', a) == SecNo(v, a) {
      if a / 4096 != page {
        SecNoKept(v, v', a);
      }
    }
  }

  /** Registering a byte range in the sub-page of its page touches no other page. */
  lemma RegisteredPage(v: View, v': View, now: Section, page: nat, t: nat, lo: nat, hi: nat, other: nat)
    requires Sane(v) && now.mr.Device?
    requires 4 <= v.pm(page) < |v.sections| && v.sections[v.pm(page)].mr == SubpageIo(t)
    requires v'.pm == v.pm && v'.sections == v.sections + [now]
    requires t < |v.tables|
    requires v'.tables == v.tables[t := Subpage(v.tables[t].base, FillSub(v.tables[t].sub, lo, hi, |v.sections|))]
    ensures PageOk(v', other)
  {
    assert PageOk(v, page) && PageOk(v, other);
    var s := v.pm(other);
    if s != UNASSIGNED {
      assert Exclusive(v', s);
      if v.sections[s].mr.SubpageIo? {
        var u := v.sections[s].mr.table;
        forall j | 0 <= j < 4096 ensures SubOk(v', v'.tables[u].sub[j]) {
          assert SubOk(v, v.tables[u].sub[j]);
        }
      }
    }
  }

  lemma SubpageSecNo(v: View, v': View, now: Section, page: nat, t: nat, a: nat)
    requires Sane(v)
    requires 4 <= v.pm(page) < |v.sections| && v.sections[v.pm(page)].mr == SubpageIo(t)
    requires now.base / 4096 == page && now.size > 0 && now.base % 4096 + now.size <= 4096
    requires v'.pm == v.pm && v'.sections == v.sections + [now]
    requires t < |v.tables|
    requires v'.tables == v.tables[t := Subpage(v.tables[t].base,
                 FillSub(v.tables[t].sub, now.base % 4096, now.base % 4096 + now.size, |v.sections|))]
    ensures SecNo(v', a) == if InRange(now, a) then |v.sections| else SecNo(v, a)
  {
    assert PageOk(v, page) && PageOk(v, a / 4096);
  }

  /** `register_subpage` moves exactly the bytes of the section. */
  lemma SubpageTook(v: View, v': View, now: Section, page: nat, t: nat)
    requires Sane(v) && now.mr.Device?
    requires 4 <= v.pm(page) < |v.sections| && v.sections[v.pm(page)].mr == SubpageIo(t)
    requires now.base / 4096 == page && now.size > 0 && now.base % 4096 + now.size <= 4096
    requires v'.pm == v.pm && v'.sections == v.sections + [now]
    requires t < |v.tables|
    requires v'.tables == v.tables[t := Subpage(v.tables[t].base,
                 FillSub(v.tables[t].sub, now.base % 4096, now.base % 4096 + now.size, |v.sections|))]
    ensures Sane(v') && Took(v, v', now, |v.sections|)
  {
    forall other: nat ensures PageOk(v', other) {
      RegisteredPage(v, v', now, page, t, now.base % 4096, now.base % 4096 + now.size, other);
    }
    assert v'.sections[..4] == v.sections[..4];
    forall a: nat ensures SecNo(v', a) == if InRange(now, a) then |v.sections| else SecNo(v, a) {
      SubpageSecNo(v, v', now, page, t, a);
    }
  }

  // ---------- Pieces of one section ----------

  /** The bytes of s below `cur` have moved to pieces of s; all other bytes answer as before. */
  ghost predicate Progress(v0: View, v: View, s: Section, cur: nat) {
    && v0.sections <= v.sections
    && forall a: nat :: a < 0x1_0000_0000_0000_0000 ==>
         if s.base <= a < cur then PieceAt(v, s, a) else SecNo(v, a) == SecNo(v0, a)
  }

  ghost predicate PieceAt(v: View, s: Section, a: nat) {
    && UNASSIGNED < SecNo(v, a) < |v.sections|
    && PieceOf(v.sections[SecNo(v, a)], s) && InRange(v.sections[SecNo(v, a)], a)
  }

  lemma ProgressStart(v: View, s: Section)
    ensures Progress(v, v, s, s.base)
  {
  }

  lemma ProgressStep(v0: View, v: View, v': View, s: Section, now: Section, n: nat)
    requires Progress(v0, v, s, now.base) && Took(v, v', now, n)
    requires ValidSection(s) && PieceOf(now, s) && n != UNASSIGNED
    ensures Progress(v0, v', s, now.base + now.size)
  {
    forall a: nat | a < 0x1_0000_0000_0000_0000
      ensures if s.base <= a < now.base + now.size then PieceAt(v', s, a) else SecNo(v', a) == SecNo(v0, a)
    {
      if s.base <= a < now.base {
        assert PieceAt(v, s, a);
      }
    }
  }

  /** When all of s has moved, the dispatch answers like the longer list. */
  lemma ProgressDone(v0: View, v: View, s: Section, flat: seq<Section>)
    requires AnswersLike(v0, flat) && Progress(v0, v, s, s.base + s.size) && ValidSection(s)
    ensures AnswersLike(v, flat + [s])
  {
    var flat' := flat + [s];
    forall a: nat | a < 0x1_0000_0000_0000_0000 ensures Answer(v, flat', SecNo(v, a), a) {
      assert Answer(v0, flat, SecNo(v0, a), a);
      if InRange(s, a) {
        assert PieceAt(v, s, a) && flat'[|flat|] == s;
      } else if SecNo(v0, a) != UNASSIGNED {
        var n := SecNo(v0, a);
        var k :| 0 <= k < |flat| && InRange(flat[k], a) && PieceOf(v0.sections[n], flat[k]) &&
            InRange(v0.sections[n], a);
        assert flat'[k] == flat[k] && v.sections[n] == v0.sections[n];
      }
    }
  }

  /** Sections that do not overlap what is there find their bytes unassigned. */
  lemma DisjointUnassigned(v: View, flat: seq<Section>, s: Section)
    requires AnswersLike(v, flat) && ValidSection(s) && Clear(flat, s)
    ensures AllUnassigned(v, s)
  {
    forall a: nat | InRange(s, a) ensures SecNo(v, a) == UNASSIGNED {
      assert Answer(v, flat, SecNo(v, a), a);
    }
  }

  lemma RestUnassigned(v0: View, v: View, s: Section, now: Section)
    requires AllUnassigned(v0, s) && Progress(v0, v, s, now.base)
    requires ValidSection(s) && s.base <= now.base && now.base + now.size <= s.base + s.size
    ensures AllUnassigned(v, now)
  {
    forall a: nat | InRange(now, a) ensures SecNo(v, a) == UNASSIGNED {
      assert InRange(s, a);
    }
  }

  /** The distance to the next page boundary, with the 64-bit wrap of the original. */
  function ToPageEnd(addr: nat): (left: int)
    requires addr < 0x1_0000_0000_0000_0000
    ensures addr % 4096 != 0 ==> left == 4096 - addr % 4096
  {
    var up := (addr + 4095) % 0x1_0000_0000_0000_0000;
    (up - up % 4096 - addr) % 0x1_0000_0000_0000_0000
  }

  /** What is left of a section after its first d bytes, in 64-bit arithmetic. */
  function Rest(s: Section, d: nat): Section
    requires d <= s.size
  {
    Section(s.mr, (s.base + d) % 0x1_0000_0000_0000_0000, (s.off + d) % 0x1_0000_0000_0000_0000, s.size - d)
  }

  lemma WrapTwice(x: nat, y: nat)
    ensures (x % 0x1_0000_0000_0000_0000 + y) % 0x1_0000_0000_0000_0000 == (x + y) % 0x1_0000_0000_0000_0000
  {
  }

  lemma RestOf(p: Section, s: Section, d: nat)
    requires ValidSection(s) && PieceOf(p, s) && d < p.size
    ensures PieceOf(Rest(p, d), s) && Rest(p, d).base == p.base + d && Rest(p, d).size == p.size - d
  {
    WrapTwice(s.off + (p.base - s.base), d);
  }

  lemma PieceOfSelf(s: Section)
    requires ValidSection(s)
    ensures PieceOf(s, s)
  {
  }

  lemma PrefixOf(p: Section, s: Section, d: nat)
    requires PieceOf(p, s) && d <= p.size
    ensures PieceOf(p.(size := d), s) && p.base + p.size <= s.base + s.size
  {
  }

  predicate OnPage(addr: nat) {
    addr % 4096 == 0
  }

  /** As many bytes as whole pages have. */
  function Whole(size: nat): (r: nat)
    ensures r <= size < r + 4096
  {
    size - size % 4096
  }

  /** The pieces follow one another from the start of s up to cur. */
  predicate Tiling(pieces: seq<Section>, s: Section, cur: nat) {
    if pieces == [] then cur == s.base
    else
      var last := pieces[|pieces| - 1];
      && PieceOf(last, s) && last.size > 0 && last.base + last.size == cur
      && Tiling(pieces[..|pieces| - 1], s, last.base)
  }

  lemma TilingNone(s: Section)
    ensures Tiling([], s, s.base)
  {
  }

  lemma TilingAppend(pieces: seq<Section>, s: Section, p: Section)
    requires Tiling(pieces, s, p.base) && PieceOf(p, s) && p.size > 0
    ensures Tiling(pieces + [p], s, p.base + p.size)
  {
    assert (pieces + [p])[..|pieces|] == pieces;
  }

  class AddressSpaceDispatch {
    const tree: PhysPageMap
    var sections: seq<Section>
    var tables: seq<Subpage>
    ghost var flat: seq<Section>

    ghost function V(): View
      reads this, tree
    {
      View(tree.pm, sections, tables)
    }

    /** Bounds that keep the two assertions of `phys_map_node_alloc` and the one of `phys_section_add`. */
    ghost predicate Small()
      reads this, tree
    {
      4 <= |sections| <= 4096 && |tree.tree.nodes| <= 11 * (|sections| - 4)
    }

    /** Between the pieces of a `mem_add`. */
    ghost predicate Building()
      reads this, tree
    {
      && Sane(V()) && Filled(V()) && Small()
      && TreeOk(tree.tree, tree.sh, tree.pm) && AllOccupied(tree.sh, tree.pm)
    }

    /** Under construction: sections may be added. */
    ghost predicate Open()
      reads this, tree
    {
      Building() && AnswersLike(V(), flat) && NoOverlap(flat)
    }

    /** Good for lookups, compacted or not. */
    ghost predicate Valid()
      reads this, tree
    {
      Sane(V()) && AnswersLike(V(), flat) && NoOverlap(flat) && LooseTree(tree.tree, tree.sh, tree.pm)
    }

    /** `mem_begin` */
    constructor ()
      ensures Open() && flat == [] && fresh(tree)
    {
      tree := new PhysPageMap();
      sections := [Dummy(IoUnassigned), Dummy(IoNotDirty), Dummy(IoRom), Dummy(IoWatch)];
      tables := [];
      flat := [];
    }

    lemma OpenIsValid()
      requires Open()
      ensures Valid()
    {
      ExactIsLoose(tree.tree, tree.sh, tree.pm);
    }

    method SectionAdd(s: Section) returns (n: nat)
      requires |sections| < 4096
      modifies `sections
      ensures n == |old(sections)| && sections == old(sections) + [s]
    {
      n := |sections|;
      sections := sections + [s];
    }

    /** `phys_page_find` */
    method PageFind(addr: nat) returns (n: nat)
      requires Sane(V()) && LooseTree(tree.tree, tree.sh, tree.pm) && addr < 0x1_0000_0000_0000_0000
      ensures n < |sections| && n == tree.pm(addr / 4096)
    {
      var s := tree.Walk(addr / 4096);
      RangeCheckDecides(V(), s, addr);
      n := if Covers(sections[s], addr) then s else UNASSIGNED;
    }

    /** `address_space_lookup_region` */
    method LookupRegion(addr: nat, resolveSubpage: bool) returns (n: nat)
      requires Valid() && addr < 0x1_0000_0000_0000_0000
      ensures n < |sections|
      ensures resolveSubpage && n == UNASSIGNED ==> forall k :: 0 <= k < |flat| ==> !InRange(flat[k], addr)
      ensures resolveSubpage && n != UNASSIGNED ==>
                exists k: nat :: OnlyOne(flat, k, addr) && sections[n].mr == flat[k].mr &&
                    Xlat(sections[n], addr) == Xlat(flat[k], addr)
      ensures resolveSubpage ==> n == SecNo(V(), addr)
      ensures !resolveSubpage ==> n == tree.pm(addr / 4096)
    {
      hide NoOverlap, OnlyOne;
      n := PageFind(addr);
      assert PageOk(V(), addr / 4096);
      if resolveSubpage && sections[n].mr.SubpageIo? {
        n := tables[sections[n].mr.table].sub[addr % 4096];
      }
      if resolveSubpage {
        assert n == SecNo(V(), addr);
        assert Answer(V(), flat, n, addr);
        if n != UNASSIGNED {
          ghost var k :| 0 <= k < |flat| && InRange(flat[k], addr) && PieceOf(sections[n], flat[k]) &&
              InRange(sections[n], addr);
          PieceXlat(sections[n], flat[k], addr);
          IsOnlyOne(flat, k, addr);
        }
      }
    }

    /** `subpage_register` */
    method SubpageRegister(t: nat, start: nat, end: nat, section: nat) returns (ret: int)
      requires t < |tables| && |tables[t].sub| == 4096
      modifies `tables
      ensures ret == if start >= 4096 || end >= 4096 then -1 else 0
      ensures tables == if ret < 0 then old(tables)
                        else old(tables)[t := Subpage(old(tables)[t].base,
                            FillSub(old(tables)[t].sub, start, end + 1, section))]
    {
      if start >= 4096 || end >= 4096 {
        return -1;
      }
      ghost var sub0 := tables[t].sub;
      var idx := start;
      while idx <= end
        invariant start <= idx && (idx <= end + 1 || idx == start)
        invariant |tables| == |old(tables)| && |tables[t].sub| == 4096
        invariant tables == old(tables)[t := Subpage(old(tables)[t].base, tables[t].sub)]
        invariant forall i :: 0 <= i < 4096 ==> tables[t].sub[i] == if start <= i < idx then section else sub0[i]
      {
        tables := tables[t := Subpage(tables[t].base, tables[t].sub[idx := section])];
        idx := idx + 1;
      }
      assert tables[t].sub == FillSub(sub0, start, end + 1, section);
      ret := 0;
    }

    /** The sub-page of a page, created if the page has none. */
    method SubpageOf(page: nat) returns (t: nat)
      requires Building() && page < 0x10_0000_0000_0000 && |sections| < 4096
      requires tree.pm(page) == UNASSIGNED || (tree.pm(page) < |sections| && sections[tree.pm(page)].mr.SubpageIo?)
      modifies this`sections, this`tables, tree
      ensures Sane(V()) && Small() && |sections| <= |old(sections)| + 1
      ensures TreeOk(tree.tree, tree.sh, tree.pm) && AllOccupied(tree.sh, tree.pm)
      ensures old(sections) <= sections && forall a: nat :: SecNo(V(), a) == SecNo(old(V()), a)
      ensures 4 <= tree.pm(page) < |sections| && sections[tree.pm(page)].mr == SubpageIo(t)
      ensures forall p: nat :: p != page ==> tree.pm(p) == old(tree.pm)(p)
    {
      ExactIsLoose(tree.tree, tree.sh, tree.pm);
      var existing := PageFind(4096 * page);
      ghost var v := V();
      assert PageOk(v, page);
      if !sections[existing].mr.SubpageIo? {
        t := |tables|;
        tables := tables + [Subpage(4096 * page, EmptySub())];
        var n := SectionAdd(Section(SubpageIo(t), 4096 * page, 0, 4096));
        tree.Set(page, 1, n);
        FreshSubpage(v, V(), page);
      } else {
        t := sections[existing].mr.table;
      }
    }

    /** `register_subpage`: the section lies within one page. */
    method RegisterSubpage(now: Section)
      requires Building() && AllUnassigned(V(), now) && |sections| + 2 <= 4096
      requires ValidSection(now) && now.base % 4096 + now.size <= 4096
      modifies this`sections, this`tables, tree
      ensures Building() && Took(old(V()), V(), now, |sections| - 1)
      ensures |sections| <= |old(sections)| + 2
    {
      ghost var v := V();
      var page := now.base / 4096;
      NoDeviceHere(v, now);
      var t := SubpageOf(page);
      ghost var v1 := V();
      assert PageOk(v1, page);
      var start := now.base % 4096;
      var end := start + now.size - 1;
      var n := SectionAdd(now);
      var ret := SubpageRegister(t, start, end, n);
      SubpageTook(v1, V(), now, page, t);
      assert forall a: nat :: SecNo(v1, a) == SecNo(v, a);
      assert Took(v, V(), now, n);
      forall p: nat | tree.pm(p) != UNASSIGNED
        ensures p < 0x10_0000_0000_0000 && (v.pm(p) != UNASSIGNED || exists a: nat :: a / 4096 == p && InRange(now, a))
      {
        assert PageOk(V(), p);
        if p == page {
          assert now.base / 4096 == p && InRange(now, now.base);
        }
      }
      StillFilled(v, V(), now, n);
    }

    /** `register_multipage`: whole pages. */
    method RegisterMultipage(now: Section)
      requires Building() && AllUnassigned(V(), now) && |sections| + 1 <= 4096
      requires ValidSection(now) && now.base % 4096 == 0 && now.size % 4096 == 0
      modifies this`sections, this`tables, tree
      ensures Building() && Took(old(V()), V(), now, |sections| - 1)
      ensures |sections| <= |old(sections)| + 1
    {
      ghost var v := V();
      var lo, num := now.base / 4096, now.size / 4096;
      forall page: nat | lo <= page < lo + num ensures v.pm(page) == UNASSIGNED {
        PagesFree(v, now, page);
      }
      var n := SectionAdd(now);
      tree.Set(lo, num, n);
      MultipageTook(v, V(), now);
    }

    /** Register one piece of a section, next after the bytes already placed. */
    method Place(now: Section, ghost section: Section, ghost v0: View)
      requires Building() && ValidSection(section) && AllUnassigned(v0, section) && Progress(v0, V(), section, now.base)
      requires PieceOf(now, section) && now.size > 0
      requires if now.size < 4096 then now.base % 4096 + now.size <= 4096
          else now.base % 4096 == 0 && now.size % 4096 == 0
      requires |sections| + (if now.size < 4096 then 2 else 1) <= 4096
      modifies this`sections, this`tables, tree
      ensures Building() && Progress(v0, V(), section, now.base + now.size)
      ensures |sections| <= |old(sections)| + if now.size < 4096 then 2 else 1
    {
      ghost var v := V();
      RestUnassigned(v0, v, section, now);
      if now.size < 4096 {
        RegisterSubpage(now);
      } else {
        RegisterMultipage(now);
      }
      ProgressStep(v0, v, V(), section, now, |sections| - 1);
    }

    /** The head of a section that starts inside a page. */
    method PlaceHead(section: Section, ghost v0: View) returns (now: Section)
      requires Building() && ValidSection(section) && AllUnassigned(v0, section) && V() == v0
      requires |sections| + 2 <= 4096
      modifies this`sections, this`tables, tree
      ensures Building() && PieceOf(now, section) && now.base == section.base && now.size <= section.size
      ensures now.size == 0 <==> section.base % 4096 == 0
      ensures now.size != section.size ==> OnPage(now.base + now.size)
      ensures Progress(v0, V(), section, now.base + now.size)
      ensures |sections| <= |old(sections)| + 2
    {
      ProgressStart(v0, section);
      now := section;
      if now.base % 4096 != 0 {
        var left := ToPageEnd(now.base);
        now := now.(size := if left < now.size then left else now.size);
        Place(now, section, v0);
      } else {
        now := now.(size := 0);
      }
    }

    /** One turn of the loop of `mem_add`: whole pages while there are any, else the tail. */
    method PlaceNext(remain0: Section, done: nat, ghost section: Section, ghost v0: View)
      returns (remain: Section, now: Section)
      requires Building() && ValidSection(section) && AllUnassigned(v0, section)
      requires PieceOf(remain0, section) && done < remain0.size && Progress(v0, V(), section, remain0.base + done)
      requires OnPage(remain0.base + done)
      requires |sections| + (if remain0.size - done < 4096 then 2 else 1) <= 4096
      modifies this`sections, this`tables, tree
      ensures Building() && PieceOf(remain, section) && PieceOf(now, section)
      ensures remain.base == now.base == remain0.base + done && remain.size == remain0.size - done
      ensures now.size == if remain.size < 4096 then remain.size else Whole(remain.size)
      ensures now.size != remain.size ==> OnPage(now.base + now.size)
      ensures Progress(v0, V(), section, now.base + now.size)
      ensures |sections| <= |old(sections)| + if remain.size < 4096 then 2 else 1
    {
      RestOf(remain0, section, done);
      remain := Rest(remain0, done);
      now := remain;
      if remain.size < 4096 {
        Place(now, section, v0);
      } else if remain.base % 4096 != 0 {
        assert false;
      } else {
        now := now.(size := Whole(now.size));
        PrefixOf(remain, section, now.size);
        Place(now, section, v0);
      }
    }

    /**
     `mem_add`: a head up to the page boundary, whole pages, and a tail.  The
     middle branch of the original, for a remainder that is not page-aligned, is
     never taken.
     */
    method MemAdd(section: Section) returns (ghost pieces: seq<Section>)
      requires Open() && ValidSection(section) && |sections| + 5 <= 4096 && Clear(flat, section)
      modifies this, tree
      ensures Open() && flat == old(flat) + [section]
      ensures |pieces| <= 3 && Tiling(pieces, section, section.base + section.size)
      ensures |sections| <= |old(sections)| + 5
    {
      hide Sane, Filled, TreeOk, AllOccupied, Progress, AllUnassigned, AnswersLike, PieceOf, SecNo, Tiling, NoOverlap;
      hide Clear, InRange, ValidSection, OnPage, Whole;
      ghost var v0 := V();
      NoOverlapMore(flat, section);
      DisjointUnassigned(v0, flat, section);
      PieceOfSelf(section);
      var remain := section;
      var now := PlaceHead(section, v0);
      pieces := [];
      TilingNone(section);
      if now.size > 0 {
        TilingAppend(pieces, section, now);
        pieces := pieces + [now];
      }
      ghost var paged := false;
      while remain.size != now.size
        invariant Building() && Progress(v0, V(), section, now.base + now.size) && flat == old(flat)
        invariant PieceOf(remain, section) && remain.base + remain.size == section.base + section.size
        invariant now.base == remain.base && now.size <= remain.size
        invariant remain.size != now.size ==> OnPage(now.base + now.size)
        invariant remain.size != now.size && paged ==> remain.size - now.size < 4096
        invariant Tiling(pieces, section, now.base + now.size)
        invariant |pieces| <= (if paged then 2 else 1) + if remain.size == now.size then 1 else 0
        invariant |sections| <= |old(sections)| + (if paged then 3 else 2) + if remain.size == now.size then 2 else 0
        decreases remain.size - now.size
      {
        remain, now := PlaceNext(remain, now.size, section, v0);
        paged := paged || remain.size >= 4096;
        TilingAppend(pieces, section, now);
        pieces := pieces + [now];
      }
      ProgressDone(v0, V(), section, flat);
      flat := flat + [section];
    }

    /** `mem_commit`: compaction changes no answer. */
    method MemCommit()
      requires Open()
      modifies tree
      ensures Valid() && V() == old(V()) && Nested(tree.tree, tree.sh) && AllTight(tree.tree, tree.sh, Root)
    {
      hide Nested, AllTight;
      OpenIsValid();
      ExactIsNested(tree.tree, tree.sh, tree.pm);
      NestedIs(tree.tree, tree.sh);
      tree.CompactAll();
      NestedIs(tree.tree, tree.sh);
    }
  }

  /** The page of an unassigned byte range is free or a sub-page: the assertion of `register_subpage`. */
  lemma NoDeviceHere(v: View, now: Section)
    requires Sane(v) && AllUnassigned(v, now) && ValidSection(now)
    ensures var s := v.pm(now.base / 4096); s == UNASSIGNED || (s < |v.sections| && v.sections[s].mr.SubpageIo?)
  {
    assert PageOk(v, now.base / 4096) && InRange(now, now.base);
  }
}

/**
 The ELF core file that `dump-guest-memory` writes (qemu/dump.c): where guest memory
 starts in the file, and what the program headers say about it.
 */
module ElfDump {
  import opened Align
  import opened Basics

  /** Guest physical memory from `start` up to `end`, and the host's bytes of it. */
  datatype GuestBlock = GuestBlock(start: nat, end: nat, host: seq<byte>)

  datatype Filter = NoFilter | Window(begin: nat, length: nat)

  /** A mapping to describe by a PT_LOAD header. */
  datatype Mapping = Mapping(phys: nat, virt: nat, length: nat)

  ghost predicate BlockOk(b: GuestBlock) {
    b.start < b.end && |b.host| == b.end - b.start
  }

  ghost predicate GuestOk(blocks: seq<GuestBlock>) {
    blocks != [] && forall i :: 0 <= i < |blocks| ==> BlockOk(blocks[i])
  }

  // ---------- What is dumped ----------

  predicate OutOfRange(b: GuestBlock, f: Filter) {
    f.Window? && (b.start >= f.begin + f.length || b.end <= f.begin)
  }

  function Lo(b: GuestBlock, f: Filter): nat {
    if f.Window? && f.begin > b.start then f.begin else b.start
  }

  function Hi(b: GuestBlock, f: Filter): nat {
    if f.Window? && f.begin + f.length < b.end then f.begin + f.length else b.end
  }

  /** The bytes of a block inside the filter. */
  function Part(b: GuestBlock, f: Filter): (s: seq<byte>)
    requires BlockOk(b)
    ensures OutOfRange(b, f) ==> s == []
    ensures !OutOfRange(b, f) ==> |s| == Hi(b, f) - Lo(b, f)
  {
    if OutOfRange(b, f) then [] else b.host[Lo(b, f) - b.start..Hi(b, f) - b.start]
  }

  lemma SizeInside(b: GuestBlock, f: Filter, from: nat, size: int)
    requires BlockOk(b) && !OutOfRange(b, f) && from == Lo(b, f) - b.start
    requires size == b.end - b.start - (if f.Window? then from else 0)
                     - (if f.Window? && f.begin + f.length < b.end then b.end - (f.begin + f.length) else 0)
    ensures 0 <= size == Hi(b, f) - Lo(b, f) && from + size <= b.end - b.start
  {
  }

  /** How much of a block `dump_iterate` writes from `from` on: its part inside the filter. */
  lemma SizeIs(b: GuestBlock, f: Filter, from: nat, size: int)
    requires BlockOk(b) && !OutOfRange(b, f) && from == Lo(b, f) - b.start
    requires size == b.end - b.start - (if f.Window? then from else 0)
                     - (if f.Window? && f.begin + f.length < b.end then b.end - (f.begin + f.length) else 0)
    ensures 0 <= size && from + size <= |b.host| && b.host[from..from + size] == Part(b, f)
  {
    hide Lo, Hi, OutOfRange;
    SizeInside(b, f, from, size);
  }

  /** The memory part of the file. */
  function Image(blocks: seq<GuestBlock>, f: Filter): seq<byte>
    requires forall i :: 0 <= i < |blocks| ==> BlockOk(blocks[i])
  {
    if blocks == [] then [] else Image(blocks[..|blocks| - 1], f) + Part(blocks[|blocks| - 1], f)
  }

  /** Block i of the list stands in the image after the blocks before it. */
  lemma {:induction false} ImageAt(blocks: seq<GuestBlock>, f: Filter, i: nat)
    requires i < |blocks| && forall j :: 0 <= j < |blocks| ==> BlockOk(blocks[j])
    ensures var at := |Image(blocks[..i], f)|;
            at + |Part(blocks[i], f)| <= |Image(blocks, f)| &&
            Image(blocks, f)[at..at + |Part(blocks[i], f)|] == Part(blocks[i], f)
    decreases |blocks|
  {
    hide Part;
    var init := blocks[..|blocks| - 1];
    if i < |blocks| - 1 {
      ImageAt(init, f, i);
      assert init[..i] == blocks[..i];
    }
  }

  lemma ImageNext(blocks: seq<GuestBlock>, f: Filter, i: nat)
    requires i < |blocks| && forall j :: 0 <= j < |blocks| ==> BlockOk(blocks[j])
    ensures Image(blocks[..i + 1], f) == Image(blocks[..i], f) + Part(blocks[i], f)
  {
    assert blocks[..i + 1][..i] == blocks[..i];
  }

  lemma ImageNone(blocks: seq<GuestBlock>, f: Filter)
    requires forall j :: 0 <= j < |blocks| ==> BlockOk(blocks[j])
    ensures Image(blocks[..0], f) == []
  {
  }

  /** Is the byte at this guest physical address in the dump? */
  ghost predicate DumpedIn(b: GuestBlock, f: Filter, phys: nat) {
    !OutOfRange(b, f) && Lo(b, f) <= phys < Hi(b, f)
  }

  ghost predicate Dumped(blocks: seq<GuestBlock>, f: Filter, phys: nat) {
    exists i :: 0 <= i < |blocks| && DumpedIn(blocks[i], f, phys)
  }

  const NOWHERE: nat := 0xFFFF_FFFF_FFFF_FFFF

  /** From `offset` on, `filesz` bytes of the file are those at `phys`, up to the end of the mapping or of the block. */
  ghost predicate LocatedIn(blocks: seq<GuestBlock>, f: Filter, memoryOffset: nat, phys: nat, length: nat, offset: nat,
                            filesz: nat, i: nat)
    requires forall j :: 0 <= j < |blocks| ==> BlockOk(blocks[j])
  {
    && i < |blocks| && DumpedIn(blocks[i], f, phys)
    && offset == memoryOffset + |Image(blocks[..i], f)| + (phys - Lo(blocks[i], f))
    && filesz == if phys + length <= Hi(blocks[i], f) then length else Hi(blocks[i], f) - phys
  }

  ghost predicate Located(blocks: seq<GuestBlock>, f: Filter, memoryOffset: nat, phys: nat, length: nat, offset: nat,
                          filesz: nat)
    requires forall j :: 0 <= j < |blocks| ==> BlockOk(blocks[j])
  {
    if Dumped(blocks, f, phys)
    then exists i :: 0 <= i < |blocks| && LocatedIn(blocks, f, memoryOffset, phys, length, offset, filesz, i)
    else offset == NOWHERE && filesz == 0
  }

  /** So a reader of the file gets guest memory. */
  lemma LocatedBytes(blocks: seq<GuestBlock>, f: Filter, prefix: seq<byte>, phys: nat, length: nat, offset: nat,
                     filesz: nat, i: nat)
    requires forall j :: 0 <= j < |blocks| ==> BlockOk(blocks[j])
    requires LocatedIn(blocks, f, |prefix|, phys, length, offset, filesz, i)
    ensures var file := prefix + Image(blocks, f);
            offset + filesz <= |file| && phys - blocks[i].start + filesz <= |blocks[i].host| &&
            file[offset..offset + filesz] == blocks[i].host[phys - blocks[i].start..phys - blocks[i].start + filesz]
  {
    hide Image, Part;
    ImageAt(blocks, f, i);
    var b := blocks[i];
    PartSlice(b, f, phys, filesz);
    SliceChain(prefix, Image(blocks, f), |Image(blocks[..i], f)|, Part(b, f), phys - Lo(b, f), filesz);
  }

  lemma PartSlice(b: GuestBlock, f: Filter, phys: nat, n: nat)
    requires BlockOk(b) && DumpedIn(b, f, phys) && phys + n <= Hi(b, f)
    ensures phys - Lo(b, f) + n <= |Part(b, f)| && phys - b.start + n <= |b.host|
    ensures Part(b, f)[phys - Lo(b, f)..phys - Lo(b, f) + n] == b.host[phys - b.start..phys - b.start + n]
  {
    SubSlice(b.host, Lo(b, f) - b.start, Hi(b, f) - b.start, phys - Lo(b, f), n);
  }

  lemma SubSlice(s: seq<byte>, lo: nat, hi: nat, k: nat, n: nat)
    requires lo <= hi <= |s| && k + n <= hi - lo
    ensures s[lo..hi][k..k + n] == s[lo + k..lo + k + n]
  {
    var a, b := s[lo..hi][k..k + n], s[lo + k..lo + k + n];
    assert forall j :: 0 <= j < n ==> a[j] == b[j];
    assert a == b;
  }

  lemma SliceChain(prefix: seq<byte>, image: seq<byte>, at: nat, part: seq<byte>, k: nat, n: nat)
    requires at + |part| <= |image| && image[at..at + |part|] == part && k + n <= |part|
    ensures (prefix + image)[|prefix| + at + k..|prefix| + at + k + n] == part[k..k + n]
  {
    SubSlice(image, at, at + |part|, k, n);
    var a, b := (prefix + image)[|prefix| + at + k..|prefix| + at + k + n], image[at + k..at + k + n];
    assert forall j :: 0 <= j < n ==> a[j] == b[j];
    assert a == b;
  }

  // ---------- Headers ----------

  /** The class (64 or 32 bits) and byte order of the file. */
  datatype Elf = Elf(wide: bool, little: bool)

  function Le(x: nat, n: nat): (s: seq<byte>)
    ensures |s| == n
  {
    if n == 0 then [] else [x % 256] + Le(x / 256, n - 1)
  }

  function UnLe(s: seq<byte>): nat {
    if s == [] then 0 else (s[0] as int) + 256 * UnLe(s[1..])
  }

  /** The low n bytes of a number. */
  function Num(e: Elf, x: nat, n: nat): (s: seq<byte>)
    ensures |s| == n
  {
    if e.little then Le(x, n) else Be(x, n)
  }

  function UnNum(e: Elf, s: seq<byte>): nat {
    if e.little then UnLe(s) else UnBe(s)
  }

  lemma ModSplit(x: nat, m: nat)
    requires m > 0
    ensures x % (256 * m) == 256 * ((x / 256) % m) + x % 256
  {
    var q, r := (x / 256) / m, (x / 256) % m;
    assert x / 256 == q * m + r;
    assert x == q * (256 * m) + (256 * r + x % 256);
    DivUnique(x, 256 * m, q, 256 * r + x % 256);
  }

  lemma {:induction false} NumReads(e: Elf, x: nat, n: nat)
    ensures UnNum(e, Num(e, x, n)) == x % Pow256(n)
  {
    if n > 0 {
      NumReads(e, x / 256, n - 1);
      ModSplit(x, Pow256(n - 1));
      assert e.little ==> Le(x, n)[1..] == Le(x / 256, n - 1);
      assert !e.little ==> Be(x, n)[..n - 1] == Be(x / 256, n - 1);
    }
  }

  datatype Phdr = Phdr(ptype: nat, offset: nat, vaddr: nat, paddr: nat, filesz: nat, memsz: nat)

  const PT_LOAD: nat := 1
  const PT_NOTE: nat := 4

  function EhdrSize(e: Elf): nat { if e.wide then 64 else 52 }
  function PhdrSize(e: Elf): nat { if e.wide then 56 else 32 }
  function ShdrSize(e: Elf): nat { if e.wide then 64 else 40 }

  /** The length of n program headers. */
  function TableSize(e: Elf, n: nat): nat { if e.wide then 56 * n else 32 * n }

  /** Where the section header stands, behind n program headers. */
  function SectionAt(e: Elf, n: nat): nat { EhdrSize(e) + TableSize(e, n) }

  function PhdrBytes(e: Elf, p: Phdr): (s: seq<byte>)
    ensures |s| == PhdrSize(e)
  {
    if e.wide
    then Num(e, p.ptype, 4) + Num(e, 0, 4) + Num(e, p.offset, 8) + Num(e, p.vaddr, 8) + Num(e, p.paddr, 8)
         + Num(e, p.filesz, 8) + Num(e, p.memsz, 8) + Num(e, 0, 8)
    else Num(e, p.ptype, 4) + Num(e, p.offset, 4) + Num(e, p.vaddr, 4) + Num(e, p.paddr, 4)
         + Num(e, p.filesz, 4) + Num(e, p.memsz, 4) + Num(e, 0, 4) + Num(e, 0, 4)
  }

  /** How a reader takes a program header. */
  function ReadPhdr(e: Elf, s: seq<byte>): Phdr
    requires |s| == PhdrSize(e)
  {
    if e.wide
    then Phdr(UnNum(e, s[0..4]), UnNum(e, s[8..16]), UnNum(e, s[16..24]), UnNum(e, s[24..32]), UnNum(e, s[32..40]),
        UnNum(e, s[40..48]))
    else Phdr(UnNum(e, s[0..4]), UnNum(e, s[4..8]), UnNum(e, s[8..12]), UnNum(e, s[12..16]), UnNum(e, s[16..20]),
        UnNum(e, s[20..24]))
  }

  function Kept(e: Elf, x: nat): nat {
    if e.wide then x % 0x1_0000_0000_0000_0000 else x % 0x1_0000_0000
  }

  /** A reader sees the header that was meant, if its numbers fit the class. */
  lemma PhdrRoundTrip(e: Elf, p: Phdr)
    requires p.ptype < 0x1_0000_0000
    ensures ReadPhdr(e, PhdrBytes(e, p)) ==
            Phdr(p.ptype, Kept(e, p.offset), Kept(e, p.vaddr), Kept(e, p.paddr), Kept(e, p.filesz), Kept(e, p.memsz))
  {
    hide Num, UnNum, Pow256;
    var n := if e.wide then 8 else 4;
    NumReads(e, p.ptype, 4);
    NumReads(e, p.offset, n);
    NumReads(e, p.vaddr, n);
    NumReads(e, p.paddr, n);
    NumReads(e, p.filesz, n);
    NumReads(e, p.memsz, n);
    Pow256Values();
    var s := PhdrBytes(e, p);
    if e.wide {
      assert s[0..4] == Num(e, p.ptype, 4) && s[8..16] == Num(e, p.offset, 8) && s[16..24] == Num(e, p.vaddr, 8);
      assert s[24..32] == Num(e, p.paddr, 8) && s[32..40] == Num(e, p.filesz, 8) && s[40..48] == Num(e, p.memsz, 8);
    } else {
      assert s[0..4] == Num(e, p.ptype, 4) && s[4..8] == Num(e, p.offset, 4) && s[8..12] == Num(e, p.vaddr, 4);
      assert s[12..16] == Num(e, p.paddr, 4) && s[16..20] == Num(e, p.filesz, 4) && s[20..24] == Num(e, p.memsz, 4);
    }
  }

  /** The file header; the section part is zero unless there is a section. */
  function EhdrBytes(e: Elf, machine: nat, phdrNum: nat, haveSection: bool, shInfo: nat): (s: seq<byte>)
    ensures |s| == EhdrSize(e)
  {
    var word := if e.wide then 8 else 4;
    [0x7F, 0x45, 0x4C, 0x46, if e.wide then 2 else 1, if e.little then 1 else 2, 1] + Num(e, 0, 9)
    + Num(e, 4, 2) + Num(e, machine, 2) + Num(e, 1, 4) + Num(e, 0, word) + Num(e, EhdrSize(e), word)
    + Num(e, if haveSection then EhdrSize(e) + TableSize(e, shInfo) else 0, word) + Num(e, 0, 4)
    + Num(e, EhdrSize(e), 2) + Num(e, PhdrSize(e), 2) + Num(e, phdrNum, 2)
    + Num(e, if haveSection then ShdrSize(e) else 0, 2) + Num(e, if haveSection then 1 else 0, 2) + Num(e, 0, 2)
  }

  // What a reader takes from the file header `h`.

  function ReadElf(h: seq<byte>): Elf
    requires |h| >= 6
  {
    Elf(h[4] == 2, h[5] == 1)
  }

  function ReadPhOff(e: Elf, h: seq<byte>): nat
    requires |h| == EhdrSize(e)
  {
    UnNum(e, if e.wide then h[32..40] else h[28..32])
  }

  function ReadShOff(e: Elf, h: seq<byte>): nat
    requires |h| == EhdrSize(e)
  {
    UnNum(e, if e.wide then h[40..48] else h[32..36])
  }

  function ReadPhEntSize(e: Elf, h: seq<byte>): nat
    requires |h| == EhdrSize(e)
  {
    UnNum(e, if e.wide then h[54..56] else h[42..44])
  }

  function ReadPhNum(e: Elf, h: seq<byte>): nat
    requires |h| == EhdrSize(e)
  {
    UnNum(e, if e.wide then h[56..58] else h[44..46])
  }

  /** `sh_info` of a section header. */
  function SectionInfo(e: Elf, s: seq<byte>): nat
    requires |s| == ShdrSize(e)
  {
    UnNum(e, if e.wide then s[44..48] else s[28..32])
  }

  /** The number of program headers, as a reader learns it: PN_XNUM sends it to the section header. */
  function PhdrCount(e: Elf, file: seq<byte>): nat
    requires |file| >= EhdrSize(e)
  {
    var h := file[..EhdrSize(e)];
    if ReadPhNum(e, h) != 0xFFFF then ReadPhNum(e, h)
    else
      var at := ReadShOff(e, h);
      if at + ShdrSize(e) > |file| then 0 else SectionInfo(e, file[at..at + ShdrSize(e)])
  }

  /** The file header tells class, byte order, and where program headers and section header are. */
  lemma EhdrReads(e: Elf, machine: nat, phdrNum: nat, haveSection: bool, shInfo: nat)
    requires phdrNum < 0x1_0000
    ensures var h := EhdrBytes(e, machine, phdrNum, haveSection, shInfo);
            && ReadElf(h) == e && ReadPhOff(e, h) == EhdrSize(e) && ReadPhEntSize(e, h) == PhdrSize(e)
            && ReadPhNum(e, h) == phdrNum && (haveSection ==> ReadShOff(e, h) == Kept(e, SectionAt(e, shInfo)))
  {
    hide Num, UnNum, Pow256;
    var s := EhdrBytes(e, machine, phdrNum, haveSection, shInfo);
    var sh := if haveSection then SectionAt(e, shInfo) else 0;
    Pow256Values();
    NumReads(e, EhdrSize(e), if e.wide then 8 else 4);
    NumReads(e, sh, if e.wide then 8 else 4);
    NumReads(e, PhdrSize(e), 2);
    NumReads(e, phdrNum, 2);
    if e.wide {
      assert s[32..40] == Num(e, EhdrSize(e), 8) && s[40..48] == Num(e, sh, 8);
      assert s[54..56] == Num(e, PhdrSize(e), 2) && s[56..58] == Num(e, phdrNum, 2);
    } else {
      assert s[28..32] == Num(e, EhdrSize(e), 4) && s[32..36] == Num(e, sh, 4);
      assert s[42..44] == Num(e, PhdrSize(e), 2) && s[44..46] == Num(e, phdrNum, 2);
    }
  }

  /**
   When a reader learns the right number of program headers: always while e_phnum
   can hold it, and beyond that only if the bytes at the place where the reader
   looks for `sh_info` happen to hold it.
   */
  lemma CountReads(e: Elf, file: seq<byte>, machine: nat, phdrNum: nat, haveSection: bool, shInfo: nat)
    requires SectionAt(e, shInfo) + ShdrSize(e) <= |file| || !haveSection
    requires EhdrSize(e) <= |file| && file[..EhdrSize(e)] == EhdrBytes(e, machine, phdrNum, haveSection, shInfo)
    requires if haveSection then phdrNum == 0xFFFF && shInfo < 0x1_0000_0000 else phdrNum < 0xFFFF
    ensures !haveSection ==> PhdrCount(e, file) == phdrNum
    ensures haveSection ==>
              var at := Kept(e, SectionAt(e, shInfo));
              && (at == SectionAt(e, shInfo) <==> e.wide || SectionAt(e, shInfo) < 0x1_0000_0000)
              && at + ShdrSize(e) <= |file| && PhdrCount(e, file) == SectionInfo(e, file[at..at + ShdrSize(e)])
  {
    hide EhdrBytes, UnNum, SectionInfo;
    EhdrReads(e, machine, phdrNum, haveSection, shInfo);
  }

  /** All program headers, one after the other. */
  function PhdrsBytes(e: Elf, ps: seq<Phdr>): (s: seq<byte>)
    ensures |s| == TableSize(e, |ps|)
  {
    if ps == [] then [] else PhdrsBytes(e, ps[..|ps| - 1]) + PhdrBytes(e, ps[|ps| - 1])
  }

  lemma {:induction false} PhdrAt(e: Elf, ps: seq<Phdr>, i: nat)
    requires i < |ps|
    ensures TableSize(e, i) + PhdrSize(e) <= |PhdrsBytes(e, ps)|
    ensures PhdrsBytes(e, ps)[TableSize(e, i)..TableSize(e, i) + PhdrSize(e)] == PhdrBytes(e, ps[i])
    decreases |ps|
  {
    hide PhdrBytes;
    if i < |ps| - 1 {
      PhdrAt(e, ps[..|ps| - 1], i);
    }
  }

  /** A PT_LOAD header describes its mapping and where its bytes are. */
  ghost predicate LoadOk(blocks: seq<GuestBlock>, f: Filter, memoryOffset: nat, m: Mapping, p: Phdr)
    requires forall j :: 0 <= j < |blocks| ==> BlockOk(blocks[j])
  {
    && p.ptype == PT_LOAD && p.paddr == m.phys && p.vaddr == m.virt && p.memsz == m.length && p.filesz <= p.memsz
    && Located(blocks, f, memoryOffset, m.phys, m.length, p.offset, p.filesz)
  }

  lemma NotLocated(blocks: seq<GuestBlock>, f: Filter, memoryOffset: nat, phys: nat, length: nat)
    requires GuestOk(blocks) && forall i :: 0 <= i < |blocks| ==> !DumpedIn(blocks[i], f, phys)
    ensures Located(blocks, f, memoryOffset, phys, length, NOWHERE, 0)
  {
  }

  lemma IsLocated(blocks: seq<GuestBlock>, f: Filter, memoryOffset: nat, phys: nat, length: nat, offset: nat,
                  filesz: nat, i: nat)
    requires GuestOk(blocks) && i < |blocks| && DumpedIn(blocks[i], f, phys)
    requires offset == memoryOffset + |Image(blocks[..i], f)| + (phys - Lo(blocks[i], f))
    requires filesz == if phys + length <= Hi(blocks[i], f) then length else Hi(blocks[i], f) - phys
    ensures Located(blocks, f, memoryOffset, phys, length, offset, filesz)
  {
    hide Image;
    assert LocatedIn(blocks, f, memoryOffset, phys, length, offset, filesz, i);
  }

  lemma IsLoad(blocks: seq<GuestBlock>, f: Filter, memoryOffset: nat, m: Mapping, p: Phdr)
    requires GuestOk(blocks) && Located(blocks, f, memoryOffset, m.phys, m.length, p.offset, p.filesz)
    requires p == Phdr(PT_LOAD, p.offset, m.virt, m.phys, p.filesz, m.length) && p.filesz <= m.length
    ensures LoadOk(blocks, f, memoryOffset, m, p)
  {
    hide Located;
  }

  lemma PhdrsMore(e: Elf, ps: seq<Phdr>, p: Phdr)
    ensures PhdrsBytes(e, ps + [p]) == PhdrsBytes(e, ps) + PhdrBytes(e, p)
  {
    hide PhdrBytes;
    assert (ps + [p])[..|ps|] == ps;
  }

  /**
   With n program headers in a section header's place that holds `stack`: the bytes
   a reader looks at hold n.  In a 32-bit file whose table is longer than 32 bits
   can say, the reader looks at another place.
   */
  predicate CountThere(e: Elf, file: seq<byte>, stack: seq<byte>, n: nat)
    requires |stack| == ShdrSize(e)
  {
    if e.wide || SectionAt(e, n) < 0x1_0000_0000 then SectionInfo(e, stack) == n
    else
      var at := SectionAt(e, n) % 0x1_0000_0000;
      at + ShdrSize(e) <= |file| && SectionInfo(e, file[at..at + ShdrSize(e)]) == n
  }

  // ---------- Writing the file ----------

  class DumpState {
    const blocks: seq<GuestBlock>
    const filter: Filter
    const maps: seq<Mapping>
    const elf: Elf
    const machine: nat
    const notes: seq<byte>  // what the CPUs write as notes
    const stack: seq<byte>  // what is written in place of the section header
    var file: seq<byte>
    var start: nat
    var nextBlock: nat
    var phdrNum: nat
    var haveSection: bool
    var shInfo: nat
    var memoryOffset: nat

    constructor (blocks: seq<GuestBlock>, filter: Filter, maps: seq<Mapping>, elf: Elf, machine: nat, notes: seq<byte>,
                 stack: seq<byte>)
      requires GuestOk(blocks) && |stack| == ShdrSize(elf)
      ensures this.blocks == blocks && this.filter == filter && this.maps == maps && this.elf == elf
      ensures this.machine == machine
      ensures this.notes == notes && this.stack == stack && file == []
    {
      this.blocks, this.filter, this.maps, this.elf, this.machine := blocks, filter, maps, elf, machine;
      this.notes, this.stack, file := notes, stack, [];
      start, nextBlock, phdrNum, haveSection, shInfo, memoryOffset := 0, 0, 0, false, 0, 0;
    }

    /** The next block to write and where in it, all before it being out of range. */
    ghost predicate At(i: nat, from: nat) {
      && i < |blocks| && (forall j :: 0 <= j < |blocks| ==> BlockOk(blocks[j]))
      && !OutOfRange(blocks[i], filter) && from == Lo(blocks[i], filter) - blocks[i].start
    }

    /** `get_start_block`: -1 when every block is out of range. */
    method GetStartBlock() returns (r: int)
      requires GuestOk(blocks)
      modifies `start, `nextBlock
      ensures r == -1 <==> forall i :: 0 <= i < |blocks| ==> OutOfRange(blocks[i], filter)
      ensures r != -1 ==> r == start && At(nextBlock, start) && Image(blocks[..nextBlock], filter) == []
    {
      if filter.NoFilter? {
        nextBlock, start := 0, 0;
        assert blocks[..0] == [];
        return 0;
      }
      for i := 0 to |blocks|
        invariant forall j :: 0 <= j < i ==> OutOfRange(blocks[j], filter)
        invariant Image(blocks[..i], filter) == []
      {
        ImageNext(blocks, filter, i);
        if OutOfRange(blocks[i], filter) {
          continue;
        }
        nextBlock := i;
        start := if filter.begin > blocks[i].start then filter.begin - blocks[i].start else 0;
        return start;
      }
      return -1;
    }

    /** `dump_init`: how many headers there are and where memory starts. */
    method Init() returns (ok: bool)
      requires GuestOk(blocks)
      modifies `start, `nextBlock, `phdrNum, `haveSection, `shInfo, `memoryOffset
      ensures ok <==> !forall i :: 0 <= i < |blocks| ==> OutOfRange(blocks[i], filter)
      ensures ok ==> At(nextBlock, start) && Image(blocks[..nextBlock], filter) == []
      ensures ok ==> LayoutOk()
    {
      var r := GetStartBlock();
      if r == -1 {
        return false;
      }
      phdrNum := 1;
      haveSection := |maps| >= 0xFFFF - 2;
      if !haveSection {
        phdrNum := phdrNum + |maps|;
      } else {
        phdrNum := 0xFFFF;
        shInfo := 1;
        if |maps| <= 0xFFFF_FFFF - 1 {
          shInfo := shInfo + |maps|;
        } else {
          shInfo := 0xFFFF_FFFF;
        }
      }
      if haveSection {
        memoryOffset := EhdrSize(elf) + TableSize(elf, shInfo) + ShdrSize(elf) + |notes|;
      } else {
        memoryOffset := EhdrSize(elf) + TableSize(elf, phdrNum) + |notes|;
      }
      return true;
    }

    /** The number of program headers, PT_NOTE included. */
    function Headers(): nat
      reads this
    {
      if haveSection then shInfo else phdrNum
    }

    /** One header per mapping, as far as 32 bits count; e_phnum counts them itself or says that a section does. */
    ghost predicate LayoutOk()
      reads this
    {
      && Headers() == 1 + (if |maps| < 0xFFFF_FFFF then |maps| else 0xFFFF_FFFE)
      && (haveSection <==> |maps| >= 0xFFFD) && phdrNum == (if haveSection then 0xFFFF else Headers())
      && memoryOffset == EhdrSize(elf) + TableSize(elf, Headers()) + (if haveSection then ShdrSize(elf) else 0) +
          |notes|
    }

    /** `write_memory`: a page at a time. */
    method WriteMemory(b: GuestBlock, from: nat, size: nat)
      requires from + size <= |b.host|
      modifies `file
      ensures file == old(file) + b.host[from..from + size]
    {
      var i := 0;
      while i < size / 4096
        invariant 0 <= i <= size / 4096
        invariant file == old(file) + b.host[from..from + i * 4096]
      {
        file := file + b.host[from + i * 4096..from + i * 4096 + 4096];
        i := i + 1;
      }
      if size % 4096 != 0 {
        file := file + b.host[from + i * 4096..from + i * 4096 + size % 4096];
      }
    }

    /** `get_offset_range` */
    method GetOffsetRange(phys: nat, length: nat) returns (offset: nat, filesz: nat)
      requires GuestOk(blocks)
      ensures Located(blocks, filter, memoryOffset, phys, length, offset, filesz) && filesz <= length
    {
      hide Image, Part, Located, LocatedIn, Dumped;
      offset, filesz := NOWHERE, 0;
      if filter.Window? && (phys < filter.begin || phys >= filter.begin + filter.length) {
        NotLocated(blocks, filter, memoryOffset, phys, length);
        return;
      }
      var at := memoryOffset;
      ImageNone(blocks, filter);
      for i := 0 to |blocks|
        invariant at == memoryOffset + |Image(blocks[..i], filter)| && offset == NOWHERE && filesz == 0
        invariant forall j :: 0 <= j < i ==> !DumpedIn(blocks[j], filter, phys)
      {
        ImageNext(blocks, filter, i);
        var b := blocks[i];
        if OutOfRange(b, filter) {
          continue;
        }
        var from := if filter.NoFilter? || filter.begin <= b.start then b.start else filter.begin;
        var size := b.end - from;
        if filter.Window? && filter.begin + filter.length < b.end {
          size := size - (b.end - (filter.begin + filter.length));
        }
        if phys >= from && phys < from + size {
          offset := phys - from + at;
          filesz := if phys + length <= from + size then length else size - (phys - from);
          IsLocated(blocks, filter, memoryOffset, phys, length, offset, filesz, i);
          return;
        }
        at := at + size;
      }
      NotLocated(blocks, filter, memoryOffset, phys, length);
    }

    /** `write_elf_loads`: one PT_LOAD header for each mapping, until the count of headers is reached. */
    method WriteElfLoads() returns (ghost loads: seq<Phdr>)
      requires GuestOk(blocks) && LayoutOk()
      modifies `file
      ensures file == old(file) + PhdrsBytes(elf, loads) && |loads| + 1 == Headers() && |loads| <= |maps|
      ensures forall i :: 0 <= i < |loads| ==> LoadOk(blocks, filter, memoryOffset, maps[i], loads[i])
    {
      hide LoadOk, PhdrBytes, PhdrsBytes, Image;
      loads := [];
      var phdrIndex := 1;
      var maxIndex := if haveSection then shInfo else phdrNum;
      for i := 0 to |maps|
        invariant phdrIndex == 1 + i && |loads| == i && (i > 0 ==> phdrIndex < maxIndex)
        invariant file == old(file) + PhdrsBytes(elf, loads)
        invariant forall j :: 0 <= j < i ==> LoadOk(blocks, filter, memoryOffset, maps[j], loads[j])
      {
        var m := maps[i];
        var offset, filesz := GetOffsetRange(m.phys, m.length);
        var p := Phdr(PT_LOAD, offset, m.virt, m.phys, filesz, m.length);
        IsLoad(blocks, filter, memoryOffset, m, p);
        PhdrsMore(elf, loads, p);
        loads := loads + [p];
        file := file + PhdrBytes(elf, p);
        phdrIndex := phdrIndex + 1;
        if phdrIndex >= maxIndex {
          return;
        }
      }
    }

    /** `dump_begin`: everything before memory; a note header, then the PT_LOAD headers. */
    method DumpBegin() returns (ghost headers: seq<Phdr>)
      requires GuestOk(blocks) && LayoutOk() && |stack| == ShdrSize(elf) && file == []
      modifies `file
      ensures |file| == memoryOffset && |headers| == Headers()
      ensures file == EhdrBytes(elf, machine, phdrNum, haveSection, shInfo) + PhdrsBytes(elf, headers) +
          (if haveSection then stack else []) + notes
      ensures headers[0] == Phdr(PT_NOTE, memoryOffset - |notes|, 0, 0, |notes|, |notes|)
      ensures |headers| <= |maps| + 1
      ensures forall i :: 1 <= i < |headers| ==> LoadOk(blocks, filter, memoryOffset, maps[i - 1], headers[i])
    {
      hide LoadOk, PhdrBytes, EhdrBytes, PhdrsBytes, Image;
      file := file + EhdrBytes(elf, machine, phdrNum, haveSection, shInfo);
      ghost var start := file;
      var note := Phdr(PT_NOTE, memoryOffset - |notes|, 0, 0, |notes|, |notes|);
      file := file + PhdrBytes(elf, note);
      ghost var loads := WriteElfLoads();
      headers := [note] + loads;
      PhdrsFirst(elf, note, loads);
      assert file == start + PhdrsBytes(elf, headers);
      if haveSection {
        file := file + stack;
      }
      file := file + notes;
    }

    /** `get_next_block`: 1 when there is no more block. */
    method GetNextBlock(block: nat) returns (r: int)
      requires GuestOk(blocks) && block < |blocks|
      modifies `start, `nextBlock
      ensures r == 0 ==>
                && block < nextBlock && At(nextBlock, start)
                && Image(blocks[..nextBlock], filter) == Image(blocks[..block + 1], filter)
      ensures r == 0 || r == 1
      ensures r == 1 ==> Image(blocks, filter) == Image(blocks[..block + 1], filter)
    {
      hide Image, Part;
      var i := block;
      while true
        invariant block <= i < |blocks|
        invariant Image(blocks[..i + 1], filter) == Image(blocks[..block + 1], filter)
        decreases |blocks| - i
      {
        i := i + 1;
        if i == |blocks| {
          assert blocks[..|blocks|] == blocks;
          return 1;
        }
        start := 0;
        nextBlock := i;
        ImageNext(blocks, filter, i);
        if filter.Window? {
          if blocks[i].start >= filter.begin + filter.length || blocks[i].end <= filter.begin {
            continue;
          }
          if filter.begin > blocks[i].start {
            start := filter.begin - blocks[i].start;
          }
        }
        return 0;
      }
    }

    /** `dump_iterate`: all memory inside the filter, in the order of the blocks. */
    method DumpIterate()
      requires GuestOk(blocks) && At(nextBlock, start) && Image(blocks[..nextBlock], filter) == []
      modifies `start, `nextBlock, `file
      ensures file == old(file) + Image(blocks, filter)
    {
      hide Image, Part, Lo, Hi, OutOfRange;
      while true
        invariant At(nextBlock, start) && file == old(file) + Image(blocks[..nextBlock], filter)
        decreases |blocks| - nextBlock
      {
        var block := nextBlock;
        var b := blocks[block];
        var size := b.end - b.start;
        if filter.Window? {
          size := size - start;
          if filter.begin + filter.length < b.end {
            size := size - (b.end - (filter.begin + filter.length));
          }
        }
        SizeIs(b, filter, start, size);
        WriteMemory(b, start, size);
        ImageNext(blocks, filter, block);
        var r := GetNextBlock(block);
        if r == 1 {
          return;
        }
      }
    }

    /** `create_vmcore`, after a `dump_init` that went well. */
    method CreateVmcore() returns (ghost headers: seq<Phdr>)
      requires GuestOk(blocks) && LayoutOk() && |stack| == ShdrSize(elf) && file == []
      requires At(nextBlock, start) && Image(blocks[..nextBlock], filter) == []
      modifies `start, `nextBlock, `file
      ensures memoryOffset <= |file| && file[memoryOffset..] == Image(blocks, filter)
      ensures |headers| == Headers() && HeadersIn(elf, file, headers)
      ensures headers[0].ptype == PT_NOTE && headers[0].offset + headers[0].filesz == memoryOffset
      ensures file[headers[0].offset..headers[0].offset + headers[0].filesz] == notes
      ensures forall i :: 1 <= i < |headers| ==>
                i <= |maps| && LoadOk(blocks, filter, memoryOffset, maps[i - 1], headers[i])
      ensures file[..EhdrSize(elf)] == EhdrBytes(elf, machine, phdrNum, haveSection, shInfo)
      ensures ReadElf(file) == elf && ReadPhOff(elf, file[..EhdrSize(elf)]) == EhdrSize(elf)
      ensures ReadPhEntSize(elf, file[..EhdrSize(elf)]) == PhdrSize(elf)
      ensures haveSection ==> file[SectionAt(elf, shInfo)..SectionAt(elf, shInfo) + ShdrSize(elf)] == stack
      ensures PhdrCount(elf, file) == |headers| <==> |maps| < 0xFFFD || CountThere(elf, file, stack, |headers|)
    {
      hide Image, PhdrsBytes, EhdrBytes, LoadOk, HeadersIn, At;
      headers := DumpBegin();
      DumpIterate();
      var ehdr := EhdrBytes(elf, machine, phdrNum, haveSection, shInfo);
      var section := if haveSection then stack else [];
      Pieces(elf, ehdr, headers, section, notes, Image(blocks, filter));
      CountReads(elf, file, machine, phdrNum, haveSection, shInfo);
      EhdrReads(elf, machine, phdrNum, haveSection, shInfo);
      assert file[..EhdrSize(elf)][4] == file[4] && file[..EhdrSize(elf)][5] == file[5];
    }
  }

  lemma {:induction false} PhdrsFirst(e: Elf, p: Phdr, ps: seq<Phdr>)
    ensures PhdrsBytes(e, [p] + ps) == PhdrBytes(e, p) + PhdrsBytes(e, ps)
  {
    hide PhdrBytes;
    var all := [p] + ps;
    if ps == [] {
      assert all[..0] == [];
      assert PhdrsBytes(e, all[..0]) == [];
    } else {
      PhdrsFirst(e, p, ps[..|ps| - 1]);
      assert all[..|all| - 1] == [p] + ps[..|ps| - 1];
    }
  }

  /** The program header table stands right after the file header. */
  ghost predicate HeadersIn(e: Elf, file: seq<byte>, headers: seq<Phdr>) {
    && EhdrSize(e) + TableSize(e, |headers|) <= |file|
    && file[EhdrSize(e)..EhdrSize(e) + TableSize(e, |headers|)] == PhdrsBytes(e, headers)
  }

  lemma Pieces(e: Elf, ehdr: seq<byte>, headers: seq<Phdr>, section: seq<byte>, notes: seq<byte>, image: seq<byte>)
    requires |ehdr| == EhdrSize(e)
    ensures var prefix := ehdr + PhdrsBytes(e, headers) + section + notes;
            var file := prefix + image;
            && file[|prefix|..] == image && file[|prefix| - |notes|..|prefix|] == notes && HeadersIn(e, file, headers)
            && file[..EhdrSize(e)] == ehdr
            && file[SectionAt(e, |headers|)..SectionAt(e, |headers|) + |section|] == section
  {
    hide PhdrsBytes;
    var prefix := ehdr + PhdrsBytes(e, headers) + section + notes;
    var file := prefix + image;
    assert file[|prefix|..] == image;
    assert file[|prefix| - |notes|..|prefix|] == notes;
    assert file[..EhdrSize(e)] == ehdr;
    assert file[SectionAt(e, |headers|)..SectionAt(e, |headers|) + |section|] == section;
    assert file[EhdrSize(e)..EhdrSize(e) + TableSize(e, |headers|)] == PhdrsBytes(e, headers);
  }

  /** What a reader takes for header number i. */
  function HeaderAt(e: Elf, file: seq<byte>, i: nat): Phdr
    requires EhdrSize(e) + TableSize(e, i + 1) <= |file|
  {
    var at := EhdrSize(e) + TableSize(e, i);
    assert at + PhdrSize(e) == EhdrSize(e) + TableSize(e, i + 1);
    ReadPhdr(e, file[at..at + PhdrSize(e)])
  }

  lemma HeaderReads(e: Elf, file: seq<byte>, headers: seq<Phdr>, i: nat)
    requires HeadersIn(e, file, headers) && i < |headers| && headers[i].ptype < 0x1_0000_0000
    ensures EhdrSize(e) + TableSize(e, i + 1) <= |file|
    ensures HeaderAt(e, file, i) ==
            Phdr(headers[i].ptype, Kept(e, headers[i].offset), Kept(e, headers[i].vaddr), Kept(e, headers[i].paddr),
                Kept(e, headers[i].filesz), Kept(e, headers[i].memsz))
  {
    hide PhdrsBytes, PhdrBytes, ReadPhdr, Kept;
    PhdrAt(e, headers, i);
    PhdrRoundTrip(e, headers[i]);
    SubSlice(file, EhdrSize(e), EhdrSize(e) + TableSize(e, |headers|), TableSize(e, i), PhdrSize(e));
  }

  /**
   A reader of the file who follows a PT_LOAD header finds guest memory: in a 64-bit
   file always, in a 32-bit file the header says where the bytes are exactly when the
   offset fits 32 bits, and how many exactly when their number does.
   */
  lemma LoadReads(e: Elf, file: seq<byte>, headers: seq<Phdr>, blocks: seq<GuestBlock>, f: Filter, memoryOffset: nat,
                  m: Mapping, i: nat)
    requires GuestOk(blocks) && HeadersIn(e, file, headers) && i < |headers|
    requires LoadOk(blocks, f, memoryOffset, m, headers[i])
    requires memoryOffset <= |file| < 0x1_0000_0000_0000_0000 && file[memoryOffset..] == Image(blocks, f)
    requires Dumped(blocks, f, m.phys)
    ensures EhdrSize(e) + TableSize(e, i + 1) <= |file|
    ensures var p := HeaderAt(e, file, i);
            && (p.offset == headers[i].offset <==> e.wide || headers[i].offset < 0x1_0000_0000)
            && (p.filesz == headers[i].filesz <==> e.wide || headers[i].filesz < 0x1_0000_0000)
            && (p.offset == headers[i].offset && p.filesz == headers[i].filesz ==>
                p.offset + p.filesz <= |file| && GuestBytes(blocks, f, m.phys, file[p.offset..p.offset + p.filesz]))
  {
    hide PhdrsBytes, Image, HeaderAt, HeadersIn, Kept, LocatedIn;
    HeaderReads(e, file, headers, i);
    var h := headers[i];
    var k: nat :| k < |blocks| && LocatedIn(blocks, f, memoryOffset, m.phys, m.length, h.offset, h.filesz, k);
    LocatedGuest(blocks, f, file, memoryOffset, m.phys, m.length, h.offset, h.filesz, k);
    KeptIff(e, h.offset);
    KeptIff(e, h.filesz);
  }

  lemma KeptIff(e: Elf, x: nat)
    requires x < 0x1_0000_0000_0000_0000
    ensures Kept(e, x) == x <==> e.wide || x < 0x1_0000_0000
  {
  }

  lemma LocatedGuest(blocks: seq<GuestBlock>, f: Filter, file: seq<byte>, memoryOffset: nat, phys: nat, length: nat,
                     offset: nat, filesz: nat, i: nat)
    requires GuestOk(blocks) && memoryOffset <= |file| && file[memoryOffset..] == Image(blocks, f)
    requires LocatedIn(blocks, f, memoryOffset, phys, length, offset, filesz, i)
    ensures offset + filesz <= |file| && GuestBytes(blocks, f, phys, file[offset..offset + filesz])
  {
    hide Image;
    LocatedBytes(blocks, f, file[..memoryOffset], phys, length, offset, filesz, i);
    assert file == file[..memoryOffset] + file[memoryOffset..];
    assert BytesIn(blocks[i], f, phys, file[offset..offset + filesz]);
  }

  /** These are the bytes of guest memory from a physical address on. */
  ghost predicate GuestBytes(blocks: seq<GuestBlock>, f: Filter, phys: nat, s: seq<byte>) {
    exists i :: 0 <= i < |blocks| && BytesIn(blocks[i], f, phys, s)
  }

  ghost predicate BytesIn(b: GuestBlock, f: Filter, phys: nat, s: seq<byte>) {
    && DumpedIn(b, f, phys) && BlockOk(b) && phys + |s| <= Hi(b, f)
    && s == b.host[phys - b.start..phys - b.start + |s|]
  }

  lemma ZerosRead(e: Elf, s: seq<byte>)
    requires forall i :: 0 <= i < |s| ==> s[i] == 0
    ensures UnNum(e, s) == 0
    decreases |s|
  {
    if s != [] {
      ZerosRead(e, if e.little then s[1..] else s[..|s| - 1]);
    }
  }

  /** A page with a gap of a page before the next, so that mappings are not joined. */
  function PageMapping(i: nat): Mapping {
    Mapping(8192 * i, 0x8000_0000_0000 + 8192 * i, 4096)
  }

  /**
   A dump that does not describe itself: 0xFFFD mappings of a page each, and in place
   of the section header a pointer and, where a reader looks for `sh_info`, zeroes.
   */
  method Miscounted() returns (dump: DumpState)
    ensures |dump.maps| == 0xFFFD && forall i :: 0 <= i < 0xFFFD ==> dump.maps[i] == PageMapping(i)
    ensures dump.Headers() == 0xFFFE && dump.elf.wide && |dump.file| >= 64
    ensures |dump.stack| == 64 && dump.stack[0] != 0
    ensures exists headers :: |headers| == dump.Headers() && HeadersIn(dump.elf, dump.file, headers)
    ensures PhdrCount(dump.elf, dump.file) == 0
  {
    hide EhdrBytes, PhdrsBytes, HeadersIn, Image, LoadOk, UnNum;
    var e := Elf(true, true);
    var stack := seq<byte>(64, i => if i < 6 then 0x7F else 0);
    var maps := seq(0xFFFD, i requires 0 <= i => PageMapping(i));
    var size := 8192 * 0xFFFD;
    var host := seq<byte>(size, i => 0);
    dump := new DumpState([GuestBlock(0, size, host)], NoFilter, maps, e, 62, [], stack);
    assert !OutOfRange(dump.blocks[0], NoFilter);
    var ok := dump.Init();
    ghost var headers := dump.CreateVmcore();
    ZerosRead(e, stack[44..48]);
    CountReads(e, dump.file, 62, dump.phdrNum, true, dump.shInfo);
  }
}

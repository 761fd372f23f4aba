/**
 A kdump-compressed file as a whole (qemu/dump.c): a reader finds the descriptor of a
 page frame by counting the bits before its own in the bitmap.
 */
module KdumpFile {
  import opened Basics
  import opened Vmcore
  import opened GuestPages
  import opened KdumpBitmap
  import opened KdumpPages
  import ElfDump

  // ---------- What a reader does ----------

  /** The number of bits set before bit n. */
  function BitsBefore(disk: Disk<byte>, at: nat, n: nat): nat {
    if n == 0 then 0 else BitsBefore(disk, at, n - 1) + if DiskBit(disk, at, n - 1) then 1 else 0
  }

  /** The page that descriptor number i stands for. */
  function PageOf(e: ElfDump.Elf, c: Codec, disk: Disk<byte>, offsetPage: nat, i: nat): seq<byte> {
    var d := ReadDesc(e, Slice(disk, offsetPage + 24 * i, 24));
    Decoded(c, d.flags, Slice(disk, d.offset, d.size))
  }

  // ---------- Counting pages ----------

  /** Frames of the block before frame n. */
  function Before(b: Block, n: nat): nat
    requires b.start < b.end
  {
    if n <= b.start then 0 else if n < b.end then n - b.start else b.end - b.start
  }

  /** Frames of the first k blocks before frame n. */
  function Passed(blocks: seq<Block>, k: nat, n: nat): nat
    requires Sorted(blocks) && k <= |blocks|
  {
    if k == 0 then 0 else Passed(blocks, k - 1, n) + Before(blocks[k - 1], n)
  }

  ghost predicate InFirst(blocks: seq<Block>, k: nat, n: nat)
    requires k <= |blocks|
  {
    exists i :: 0 <= i < k && Holds(blocks[i], n)
  }

  lemma {:induction false} PassedNext(blocks: seq<Block>, k: nat, n: nat)
    requires Sorted(blocks) && k <= |blocks|
    ensures Passed(blocks, k, n + 1) == Passed(blocks, k, n) + if InFirst(blocks, k, n) then 1 else 0
  {
    if k > 0 {
      PassedNext(blocks, k - 1, n);
      assert Before(blocks[k - 1], n + 1) == Before(blocks[k - 1], n) + if Holds(blocks[k - 1], n) then 1 else 0;
      if Holds(blocks[k - 1], n) {
        assert forall i :: 0 <= i < k - 1 ==> !Holds(blocks[i], n);
      }
    }
  }

  lemma {:induction false} PassedIn(blocks: seq<Block>, i: nat, k: nat, n: nat)
    requires Sorted(blocks) && i < |blocks| && k <= |blocks| && Holds(blocks[i], n)
    ensures Passed(blocks, k, n) == if k <= i then Pages(blocks, k) else Pages(blocks, i) + (n - blocks[i].start)
  {
    if k > 0 {
      PassedIn(blocks, i, k - 1, n);
      assert k - 1 < i ==> blocks[k - 1].end <= blocks[i].start;
      assert k - 1 > i ==> blocks[i].end <= blocks[k - 1].start;
    }
  }

  lemma {:induction false} CountIs(disk: Disk<byte>, at: nat, blocks: seq<Block>, n: nat)
    requires Sorted(blocks)
    requires forall m: nat {:trigger DiskBit(disk, at, m)} :: m < n ==> (DiskBit(disk, at, m) <==> InBlocks(blocks, m))
    ensures BitsBefore(disk, at, n) == Passed(blocks, |blocks|, n)
  {
    hide DiskBit, Sorted;
    if n == 0 {
      NonePassed(blocks, |blocks|);
    } else {
      CountIs(disk, at, blocks, n - 1);
      PassedNext(blocks, |blocks|, n - 1);
      assert InFirst(blocks, |blocks|, n - 1) <==> InBlocks(blocks, n - 1);
    }
  }

  lemma {:induction false} NonePassed(blocks: seq<Block>, k: nat)
    requires Sorted(blocks) && k <= |blocks|
    ensures Passed(blocks, k, 0) == 0
  {
    if k > 0 {
      NonePassed(blocks, k - 1);
    }
  }

  /** The bits before the bit of a page number the page. */
  lemma RankIs(disk: Disk<byte>, at: nat, blocks: seq<Block>, n: nat)
    requires Sorted(blocks)
    requires forall m: nat {:trigger DiskBit(disk, at, m)} :: m < n ==> (DiskBit(disk, at, m) <==> InBlocks(blocks, m))
    requires InBlocks(blocks, n)
    ensures IsPage(blocks, BitsBefore(disk, at, n), n) && BitsBefore(disk, at, n) < Pages(blocks, |blocks|)
  {
    hide DiskBit;
    CountIs(disk, at, blocks, n);
    var i :| 0 <= i < |blocks| && Holds(blocks[i], n);
    PassedIn(blocks, i, |blocks|, n);
    PagesGrow(blocks, i + 1, |blocks|);
  }

  lemma PageWithin(blocks: seq<Block>, i: nat, n: nat)
    requires Sorted(blocks) && i < |blocks| && Holds(blocks[i], n)
    ensures Pages(blocks, i) + (n - blocks[i].start) < Pages(blocks, i + 1)
  {
  }

  lemma PageIsOne(blocks: seq<Block>, j: nat, m: nat, n: nat)
    requires Sorted(blocks) && IsPage(blocks, j, m) && IsPage(blocks, j, n)
    ensures m == n
  {
    hide Pages;
    var i :| 0 <= i < |blocks| && Holds(blocks[i], m) && j == Pages(blocks, i) + (m - blocks[i].start);
    var k :| 0 <= k < |blocks| && Holds(blocks[k], n) && j == Pages(blocks, k) + (n - blocks[k].start);
    PageWithin(blocks, i, m);
    PageWithin(blocks, k, n);
    if i < k {
      PagesGrow(blocks, i + 1, k);
    } else if k < i {
      PagesGrow(blocks, k + 1, i);
    }
  }

  // ---------- The file ----------

  /** Both bitmaps have the frames of guest memory, and counting leads to the page of every one of them. */
  ghost predicate Dumped(e: ElfDump.Elf, c: Codec, disk: Disk<byte>, at: nat, len: nat, offsetPage: nat,
                         blocks: seq<Block>, memory: nat -> seq<byte>) {
    forall n: nat {:trigger DiskBit(disk, at, n)} :: n < 8 * len ==>
      && (DiskBit(disk, at, n) <==> InBlocks(blocks, n)) && (DiskBit(disk, at + len, n) <==> InBlocks(blocks, n))
      && (DiskBit(disk, at, n) ==> PageOf(e, c, disk, offsetPage, BitsBefore(disk, at, n)) == memory(n))
  }

  ghost predicate BitsAre(disk: Disk<byte>, at: nat, len: nat, blocks: seq<Block>) {
    forall n: nat {:trigger DiskBit(disk, at, n)} :: n < 8 * len ==>
      (DiskBit(disk, at, n) <==> InBlocks(blocks, n)) && (DiskBit(disk, at + len, n) <==> InBlocks(blocks, n))
  }

  /** Writing elsewhere leaves the bitmaps alone. */
  lemma BitsKept(disk: Disk<byte>, disk': Disk<byte>, at: nat, len: nat, lo: nat, hi: nat, blocks: seq<Block>)
    requires BitsAre(disk, at, len, blocks) && OutsideKept(disk, disk', lo, hi) && at + 2 * len <= lo
    ensures BitsAre(disk', at, len, blocks)
  {
    hide Test, InBlocks;
    forall n: nat {:trigger DiskBit(disk', at, n)} | n < 8 * len
      ensures (DiskBit(disk', at, n) <==> InBlocks(blocks, n)) && (DiskBit(disk', at + len, n) <==> InBlocks(blocks, n))
    {
      assert n / 8 < len && disk'(at + n / 8) == disk(at + n / 8) && disk'(at + len + n / 8) == disk(at + len + n / 8);
      assert DiskBit(disk, at, n) <==> InBlocks(blocks, n);
    }
  }

  lemma PageNumber(disk: Disk<byte>, at: nat, len: nat, blocks: seq<Block>, pfns: seq<nat>, n: nat)
    requires Sorted(blocks) && BitsAre(disk, at, len, blocks) && |pfns| == Pages(blocks, |blocks|)
    requires Ordered(blocks, pfns)
    requires n < 8 * len && DiskBit(disk, at, n)
    ensures BitsBefore(disk, at, n) < |pfns| && pfns[BitsBefore(disk, at, n)] == n
  {
    hide DiskBit, Sorted, InBlocks, Pages, IsPage, BitsBefore;
    RankIs(disk, at, blocks, n);
    PageIsOne(blocks, BitsBefore(disk, at, n), pfns[BitsBefore(disk, at, n)], n);
  }

  lemma CountReads(e: ElfDump.Elf, c: Codec, disk: Disk<byte>, at: nat, len: nat, offsetPage: nat, blocks: seq<Block>,
                   memory: nat -> seq<byte>, ds: seq<Desc>, pfns: seq<nat>, all: seq<byte>, n: nat)
    requires Sorted(blocks) && BitsAre(disk, at, len, blocks) && |ds| == |pfns| == Pages(blocks, |blocks|)
    requires Ordered(blocks, pfns)
    requires OnFile(disk, offsetPage, DescsBytes(e, ds)) && OnFile(disk, offsetPage + 24 * |ds|, all)
    requires PagesDescribed(c, ds, pfns, memory, all, offsetPage + 24 * |ds|)
    requires offsetPage + 24 * |ds| + |all| < 0x1_0000_0000_0000_0000
    ensures n < 8 * len && DiskBit(disk, at, n) ==> PageOf(e, c, disk, offsetPage, BitsBefore(disk, at, n)) == memory(n)
  {
    hide DiskBit, Sorted, OnFile, PagesDescribed, BitsAre, ReadDesc, Decoded, Pages, Ordered, BitsBefore, DescsBytes;
    hide Slice;
    if n < 8 * len && DiskBit(disk, at, n) {
      PageNumber(disk, at, len, blocks, pfns, n);
      PageReads(e, c, disk, offsetPage, ds, pfns, memory, all, BitsBefore(disk, at, n));
    }
  }

  /** `offset_page`: behind the header blocks and both bitmaps. */
  function OffsetPage(headerBlocks: nat, len: nat): nat {
    (headerBlocks + (len + 4095) / 4096 * 2) * 4096
  }

  lemma OffsetPageIs(headerBlocks: nat, maxMapnr: nat)
    ensures OffsetPage(headerBlocks, LenDumpBitmap(maxMapnr)) == headerBlocks * 4096 + 2 * LenDumpBitmap(maxMapnr)
  {
    var k := ((maxMapnr + 7) / 8 + 4095) / 4096;
    assert (k * 4096 + 4095) / 4096 == k;
  }

  /** `create_kdump_vmcore`, from `write_dump_bitmap` on: the header blocks are not touched. */
  method CreateKdumpVmcore(file: File, headerBlocks: nat, blocks: seq<Block>, pages: PageWriter)
    returns (ghost end: nat)
    requires Sorted(blocks) && pages.blocks == blocks && CodecOk(pages.codec)
    requires forall pfn {:trigger pages.memory(pfn)} :: |pages.memory(pfn)| == 4096
    modifies file
    ensures var at, len := headerBlocks * 4096, LenDumpBitmap(blocks[|blocks| - 1].end);
            && at + 2 * len <= end && OutsideKept(old(file.disk), file.disk, at, end)
            && (end < 0x1_0000_0000_0000_0000 ==>
                  Dumped(pages.e, pages.codec, file.disk, at, len, OffsetPage(headerBlocks, len), blocks, pages.memory))
  {
    hide DiskBit, OnFile, PagesDescribed, Ordered, InBlocks, DescsBytes, PageOf, BitsBefore, OffsetPage, LenDumpBitmap;
    hide OutsideKept, Dumped, Pages, CodecOk, BitsAre;
    var at := headerBlocks * 4096;
    var bitmap := new BitmapWriter(blocks, at, file);
    var len := bitmap.len;
    OffsetPageIs(headerBlocks, blocks[|blocks| - 1].end);
    bitmap.WriteDumpBitmap();
    BitsSet(file.disk, at, len, blocks);
    ghost var disk := file.disk;
    var offsetPage := OffsetPage(headerBlocks, len);
    ghost var ds, pfns, all := pages.WriteDumpPages(file, offsetPage, bitmap.numDumpable);
    end := offsetPage + 24 * |ds| + |all|;
    BitsKept(disk, file.disk, at, len, offsetPage, end, blocks);
    KeptWider(old(file.disk), disk, at, at + 2 * len, at, end);
    KeptWider(disk, file.disk, offsetPage, end, at, end);
    KeptTwice(old(file.disk), disk, file.disk, at, end);
    if end < 0x1_0000_0000_0000_0000 {
      forall n: nat {
        CountReads(pages.e, pages.codec, file.disk, at, len, offsetPage, blocks, pages.memory, ds, pfns, all, n);
      }
      AllDumped(pages.e, pages.codec, file.disk, at, len, offsetPage, blocks, pages.memory);
    }
  }

  lemma AllDumped(e: ElfDump.Elf, c: Codec, disk: Disk<byte>, at: nat, len: nat, offsetPage: nat, blocks: seq<Block>,
                  memory: nat -> seq<byte>)
    requires BitsAre(disk, at, len, blocks)
    requires forall n: nat {:trigger DiskBit(disk, at, n)} :: n < 8 * len && DiskBit(disk, at, n) ==>
               PageOf(e, c, disk, offsetPage, BitsBefore(disk, at, n)) == memory(n)
    ensures Dumped(e, c, disk, at, len, offsetPage, blocks, memory)
  {
    hide DiskBit, InBlocks, PageOf, BitsBefore;
  }

  lemma BitsSet(disk: Disk<byte>, at: nat, len: nat, blocks: seq<Block>)
    requires forall n :: 0 <= n < 8 * len ==>
               (DiskBit(disk, at, n) <==> InBlocks(blocks, n)) && (DiskBit(disk, at + len, n) <==> InBlocks(blocks, n))
    ensures BitsAre(disk, at, len, blocks)
  {
    hide DiskBit, InBlocks;
  }
}

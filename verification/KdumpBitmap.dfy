/**
 The two page bitmaps of a kdump-compressed file (qemu/dump.c): bits are set in a
 buffer of 4096 bytes that is written out, to both copies, when the search moves past it.
 */
module KdumpBitmap {
  import opened Basics
  import opened GuestPages
  import opened Vmcore
  import opened Words

  // ---------- Bits ----------

  function Mask(i: nat): bv8 {
    if i == 0 then 0x01 else if i == 1 then 0x02 else if i == 2 then 0x04 else if i == 3 then 0x08
    else if i == 4 then 0x10 else if i == 5 then 0x20 else if i == 6 then 0x40 else 0x80
  }

  predicate Test(x: byte, i: nat) {
    Bits(x) & Mask(i) != 0
  }

  function Changed(x: bv8, i: nat, value: bool): bv8 {
    if value then x | Mask(i) else x & !Mask(i)
  }

  function Put(x: byte, i: nat, value: bool): byte {
    Byte(Changed(Bits(x), i, value))
  }

  lemma MaskApart(i: nat, j: nat)
    requires i < 8 && j < 8
    ensures i != j ==> Mask(i) & Mask(j) == 0
    ensures Mask(i) != 0
  {
  }

  lemma PutOne(x: bv8, m: bv8, k: bv8)
    ensures m != 0 ==> (x | m) & m != 0 && (x & !m) & m == 0
    ensures m & k == 0 ==> (x | m) & k == x & k && (x & !m) & k == x & k
  {
  }

  lemma PutTests(x: byte, i: nat, value: bool, j: nat)
    requires i < 8 && j < 8
    ensures Test(Put(x, i, value), j) == if i == j then value else Test(x, j)
  {
    hide Mask, Bits, Byte;
    MaskApart(i, j);
    PutOne(Bits(x), Mask(i), Mask(j));
    BitsOfByte(Changed(Bits(x), i, value));
  }

  lemma NoBits(i: nat)
    ensures !Test(0, i)
  {
    hide Mask;
  }

  // ---------- The file ----------

  /** Bit n of the bitmap that starts at byte `at`. */
  predicate DiskBit(disk: Disk<byte>, at: nat, n: nat) {
    Test(disk(at + n / 8), n % 8)
  }

  predicate BufBit(buf: seq<byte>, n: nat)
    requires |buf| == 4096 && n < 32768
  {
    Test(buf[n / 8], n % 8)
  }

  lemma WrittenBits(disk: Disk<byte>, at: nat, len: nat, k: nat, data: seq<byte>, n: nat)
    requires |data| == 4096 && 4096 * (k + 1) <= len && n < 8 * len
    ensures var copy1 := Written(disk, at + 4096 * k, data);
            var copy2 := Written(copy1, at + len + 4096 * k, data);
            if 32768 * k <= n < 32768 * (k + 1)
            then && DiskBit(copy2, at, n) == BufBit(data, n - 32768 * k)
                 && DiskBit(copy2, at + len, n) == BufBit(data, n - 32768 * k)
            else && DiskBit(copy2, at, n) == DiskBit(disk, at, n)
                 && DiskBit(copy2, at + len, n) == DiskBit(disk, at + len, n)
  {
    hide Test;
    assert n / 8 < len;
    if 32768 * k <= n < 32768 * (k + 1) {
      assert 4096 * k <= n / 8 < 4096 * (k + 1);
      assert (n - 32768 * k) / 8 == n / 8 - 4096 * k;
      assert (n - 32768 * k) % 8 == n % 8;
    } else {
      assert n / 8 < 4096 * k || 4096 * (k + 1) <= n / 8;
    }
  }

  /** Both copies agree with `bits` on the buffers before number `cur`. */
  ghost predicate OnDisk(disk: Disk<byte>, at: nat, len: nat, cur: nat, bits: set<nat>) {
    forall n {:trigger n in bits} :: 0 <= n < 32768 * cur ==>
        (DiskBit(disk, at, n) <==> n in bits) && (DiskBit(disk, at + len, n) <==> n in bits)
  }

  /** The buffer agrees with `bits` on number `cur`. */
  ghost predicate InBuffer(buf: seq<byte>, cur: nat, bits: set<nat>)
    requires |buf| == 4096
  {
    forall n {:trigger n in bits} :: 32768 * cur <= n < 32768 * (cur + 1) ==>
        (BufBit(buf, n - 32768 * cur) <==> n in bits)
  }

  ghost predicate NoneBeyond(cur: nat, bits: set<nat>) {
    forall n {:trigger n in bits} :: n in bits ==> n < 32768 * (cur + 1)
  }

  /** The bits set so far are those of `bits`: on disk up to buffer number `cur`, which is in memory. */
  ghost predicate Synced(disk: Disk<byte>, at: nat, len: nat, buf: seq<byte>, cur: nat, bits: set<nat>) {
    && |buf| == 4096 && 4096 * cur <= len
    && OnDisk(disk, at, len, cur, bits) && InBuffer(buf, cur, bits) && NoneBeyond(cur, bits)
  }

  lemma Flushed(disk: Disk<byte>, at: nat, len: nat, buf: seq<byte>, cur: nat, bits: set<nat>, zeros: seq<byte>)
    requires Synced(disk, at, len, buf, cur, bits) && 4096 * (cur + 1) <= len
    requires |zeros| == 4096 && forall i :: 0 <= i < 4096 ==> zeros[i] == 0
    ensures Synced(Written(Written(disk, at + 4096 * cur, buf), at + len + 4096 * cur, buf),
                   at, len, zeros, cur + 1, bits)
  {
    var disk' := Written(Written(disk, at + 4096 * cur, buf), at + len + 4096 * cur, buf);
    forall n {:trigger n in bits} | 0 <= n < 32768 * (cur + 1)
      ensures (DiskBit(disk', at, n) <==> n in bits) && (DiskBit(disk', at + len, n) <==> n in bits)
    {
      WrittenBits(disk, at, len, cur, buf, n);
    }
    hide Written, DiskBit, Test;
    forall n | 0 <= n < 32768 ensures !BufBit(zeros, n) {
      NoBits(n % 8);
    }
  }

  lemma OneBit(buf: seq<byte>, r: nat, value: bool, m: nat)
    requires |buf| == 4096 && r < 32768 && m < 32768
    ensures BufBit(buf[r / 8 := Put(buf[r / 8], r % 8, value)], m) == if m == r then value else BufBit(buf, m)
  {
    hide Test, Put;
    PutTests(buf[r / 8], r % 8, value, m % 8);
    assert m == 8 * (m / 8) + m % 8 && r == 8 * (r / 8) + r % 8;
  }

  lemma BitInBuffer(buf: seq<byte>, cur: nat, bits: set<nat>, pfn: nat, value: bool, bits': set<nat>)
    requires |buf| == 4096 && InBuffer(buf, cur, bits) && 32768 * cur <= pfn < 32768 * (cur + 1)
    requires bits' == if value then bits + {pfn} else bits - {pfn}
    ensures var r := pfn % 32768; InBuffer(buf[r / 8 := Put(buf[r / 8], r % 8, value)], cur, bits')
  {
    hide BufBit, Put;
    var r := pfn % 32768;
    assert r == pfn - 32768 * cur;
    forall n {:trigger n in bits'} | 32768 * cur <= n < 32768 * (cur + 1)
      ensures BufBit(buf[r / 8 := Put(buf[r / 8], r % 8, value)], n - 32768 * cur) <==> n in bits'
    {
      OneBit(buf, r, value, n - 32768 * cur);
      assert n in bits <==> BufBit(buf, n - 32768 * cur);
    }
  }

  lemma OthersOnDisk(disk: Disk<byte>, at: nat, len: nat, cur: nat, bits: set<nat>, pfn: nat, bits': set<nat>)
    requires OnDisk(disk, at, len, cur, bits) && 32768 * cur <= pfn && bits' - {pfn} == bits - {pfn}
    ensures OnDisk(disk, at, len, cur, bits')
  {
    hide DiskBit;
    forall n {:trigger n in bits'} | 0 <= n < 32768 * cur
      ensures (DiskBit(disk, at, n) <==> n in bits') && (DiskBit(disk, at + len, n) <==> n in bits')
    {
      assert n in bits' - {pfn} <==> n in bits - {pfn};
    }
  }

  lemma BitPut(disk: Disk<byte>, at: nat, len: nat, buf: seq<byte>, cur: nat, bits: set<nat>, pfn: nat, value: bool)
    requires Synced(disk, at, len, buf, cur, bits) && 32768 * cur <= pfn < 32768 * (cur + 1)
    ensures var r := pfn % 32768;
            Synced(disk, at, len, buf[r / 8 := Put(buf[r / 8], r % 8, value)], cur,
                   if value then bits + {pfn} else bits - {pfn})
  {
    hide OnDisk, InBuffer, Put;
    var bits' := if value then bits + {pfn} else bits - {pfn};
    BitInBuffer(buf, cur, bits, pfn, value, bits');
    assert bits' - {pfn} == bits - {pfn};
    OthersOnDisk(disk, at, len, cur, bits, pfn, bits');
  }

  /** `len_dump_bitmap`: one bit a page, in whole blocks of the file. */
  function LenDumpBitmap(maxMapnr: nat): nat {
    ((maxMapnr + 7) / 8 + 4095) / 4096 * 4096
  }

  /** It holds the buffers up to the one of the last page, and no more. */
  lemma LenHolds(last: nat)
    ensures LenDumpBitmap(last + 1) == 4096 * (last / 32768 + 1)
  {
    assert (last + 8) / 8 == last / 8 + 1;
    assert (last / 8 + 1 + 4095) / 4096 == (last / 8) / 4096 + 1;
  }

  // ---------- Writing the bitmaps ----------

  class BitmapWriter {
    const blocks: seq<Block>
    const at: nat   // offset_dump_bitmap
    const len: nat  // len_dump_bitmap
    const file: File
    var numDumpable: nat

    constructor (blocks: seq<Block>, at: nat, file: File)
      requires Sorted(blocks)
      ensures this.blocks == blocks && this.at == at && this.file == file
      ensures len == LenDumpBitmap(blocks[|blocks| - 1].end)
    {
      this.blocks, this.at, this.file, numDumpable := blocks, at, file, 0;
      len := LenDumpBitmap(blocks[|blocks| - 1].end);
    }

    /** `set_dump_bitmap` */
    method SetDumpBitmap(last: nat, pfn: nat, value: bool, buf: array<byte>, ghost bits: set<nat>)
      requires last <= pfn && buf.Length == 4096 && Synced(file.disk, at, len, buf[..], last / 32768, bits)
      requires 4096 * (pfn / 32768) <= len
      modifies file, buf
      ensures Synced(file.disk, at, len, buf[..], pfn / 32768, if value then bits + {pfn} else bits - {pfn})
      ensures OutsideKept(old(file.disk), file.disk, at, at + 2 * len)
    {
      hide Synced, Put, Written;
      var oldOffset := 4096 * (last / 32768);
      var newOffset := 4096 * (pfn / 32768);
      ghost var cur := last / 32768;
      while oldOffset < newOffset
        invariant oldOffset == 4096 * cur && cur <= pfn / 32768
        invariant Synced(file.disk, at, len, buf[..], cur, bits)
        invariant OutsideKept(old(file.disk), file.disk, at, at + 2 * len)
      {
        ghost var was := buf[..];
        ghost var disk0 := file.disk;
        WrittenInside(old(file.disk), file.disk, at, at + 2 * len, at + oldOffset, buf[..]);
        file.WriteBuffer(at + oldOffset, buf[..]);
        WrittenInside(old(file.disk), file.disk, at, at + 2 * len, at + len + oldOffset, buf[..]);
        file.WriteBuffer(at + len + oldOffset, buf[..]);
        forall i | 0 <= i < buf.Length {
          buf[i] := 0;
        }
        Flushed(disk0, at, len, was, cur, bits, buf[..]);
        oldOffset := oldOffset + 4096;
        cur := cur + 1;
      }
      BitPut(file.disk, at, len, buf[..], cur, bits, pfn, value);
      var r := pfn % 32768;
      ghost var was := buf[..];
      buf[r / 8] := Put(buf[r / 8], r % 8, value);
      assert buf[..] == was[r / 8 := Put(was[r / 8], r % 8, value)];
    }

    /** `write_dump_bitmap`: in both copies the bit of a frame is set exactly when a block holds the frame. */
    method WriteDumpBitmap()
      requires Sorted(blocks) && len == LenDumpBitmap(blocks[|blocks| - 1].end)
      modifies file, `numDumpable
      ensures numDumpable == Pages(blocks, |blocks|) && OutsideKept(old(file.disk), file.disk, at, at + 2 * len)
      ensures forall n :: 0 <= n < 8 * len ==>
                && (DiskBit(file.disk, at, n) <==> InBlocks(blocks, n))
                && (DiskBit(file.disk, at + len, n) <==> InBlocks(blocks, n))
    {
      hide Synced, Pages, Marked, InBlocks, DiskBit, After, Sorted, OutsideKept, LenDumpBitmap;
      KeptNone(file.disk, at, at + 2 * len);
      var buf := new byte[4096](i => 0);
      numDumpable := 0;
      var last: nat := 0;
      ghost var bits: set<nat> := {};
      StartsSynced(file.disk, at, len, buf[..]);
      AfterNone(blocks);
      var it := GetNextPage(blocks, Start, 0);
      MarkNone(blocks, it);
      while it.At?
        invariant !it.Start? && After(blocks, it, if it.End? then numDumpable else numDumpable + 1)
        invariant Synced(file.disk, at, len, buf[..], last / 32768, bits) && (it.At? ==> last <= it.pfn)
        invariant OutsideKept(old(file.disk), file.disk, at, at + 2 * len)
        invariant Marked(blocks, it, bits) && (it.End? ==> last + 1 == blocks[|blocks| - 1].end)
        decreases if it.At? then 1 + blocks[|blocks| - 1].end - it.pfn else 0
      {
        PageBelow(blocks, it, numDumpable + 1, len);
        ghost var disk := file.disk;
        SetDumpBitmap(last, it.pfn, true, buf, bits);
        KeptTwice(old(file.disk), disk, file.disk, at, at + 2 * len);
        last := it.pfn;
        numDumpable := numDumpable + 1;
        ghost var was := it;
        it := GetNextPage(blocks, it, numDumpable);
        MarkNext(blocks, was, it, bits);
        bits := bits + {last};
      }
      AfterAll(blocks, it, numDumpable);
      LenHolds(last);
      ghost var disk := file.disk;
      SetDumpBitmap(last, last + 32768, false, buf, bits);
      KeptTwice(old(file.disk), disk, file.disk, at, at + 2 * len);
      AllSynced(file.disk, at, len, buf[..], last, bits, blocks, it);
    }
  }

  /** Every frame before the next page has its bit, if a block holds it. */
  ghost predicate Marked(blocks: seq<Block>, it: Iter, bits: set<nat>) {
    forall n: nat {:trigger n in bits} :: if it.At? && n >= it.pfn then n !in bits
        else (n in bits <==> InBlocks(blocks, n))
  }

  lemma StartsSynced(disk: Disk<byte>, at: nat, len: nat, buf: seq<byte>)
    requires |buf| == 4096 && forall i :: 0 <= i < 4096 ==> buf[i] == 0
    ensures Synced(disk, at, len, buf, 0, {})
  {
    forall n | 0 <= n < 32768 ensures !BufBit(buf, n) {
      NoBits(n % 8);
    }
  }

  lemma MarkNone(blocks: seq<Block>, it: Iter)
    requires it.At? && forall p :: 0 <= p < it.pfn ==> !InBlocks(blocks, p)
    ensures Marked(blocks, it, {})
  {
    hide InBlocks;
  }

  lemma MarkNext(blocks: seq<Block>, it: Iter, it': Iter, bits: set<nat>)
    requires Sorted(blocks) && Marked(blocks, it, bits) && it.At? && it.block < |blocks|
    requires Holds(blocks[it.block], it.pfn) && !it'.Start?
    requires it'.At? ==> it.pfn < it'.pfn && forall p :: it.pfn < p < it'.pfn ==> !InBlocks(blocks, p)
    requires it'.End? ==> it.pfn + 1 == blocks[|blocks| - 1].end
    ensures Marked(blocks, it', bits + {it.pfn})
  {
    assert InBlocks(blocks, it.pfn);
    var bits' := bits + {it.pfn};
    forall n: nat {:trigger n in bits'}
      ensures if it'.At? && n >= it'.pfn then n !in bits' else (n in bits' <==> InBlocks(blocks, n))
    {
      assert n in bits' <==> n in bits || n == it.pfn;
      if it'.End? && n > it.pfn {
        BeyondLast(blocks, n);
      }
    }
  }

  lemma BeyondLast(blocks: seq<Block>, n: nat)
    requires Sorted(blocks) && n >= blocks[|blocks| - 1].end
    ensures !InBlocks(blocks, n)
  {
    forall i | 0 <= i < |blocks| ensures !Holds(blocks[i], n) {
      assert i < |blocks| - 1 ==> blocks[i].end <= blocks[|blocks| - 1].start;
    }
  }

  lemma PageBelow(blocks: seq<Block>, it: Iter, n: nat, len: nat)
    requires Sorted(blocks) && it.At? && After(blocks, it, n) && len == LenDumpBitmap(blocks[|blocks| - 1].end)
    ensures it.block < |blocks| && Holds(blocks[it.block], it.pfn) && it.pfn < blocks[|blocks| - 1].end
    ensures 4096 * (it.pfn / 32768) <= len
  {
    hide Pages;
    var top := blocks[|blocks| - 1].end;
    assert it.block < |blocks| - 1 ==> blocks[it.block].end <= blocks[|blocks| - 1].start;
    LenHolds(top - 1);
  }

  /** After the last flush the disk has it all. */
  lemma AllSynced(disk: Disk<byte>, at: nat, len: nat, buf: seq<byte>, last: nat, bits: set<nat>, blocks: seq<Block>,
                  it: Iter)
    requires Synced(disk, at, len, buf, (last + 32768) / 32768, bits - {last + 32768})
    requires len == 4096 * (last / 32768 + 1)
    requires Marked(blocks, it, bits) && it.End? && Sorted(blocks) && last + 1 == blocks[|blocks| - 1].end
    ensures forall n :: 0 <= n < 8 * len ==>
              (DiskBit(disk, at, n) <==> InBlocks(blocks, n)) && (DiskBit(disk, at + len, n) <==> InBlocks(blocks, n))
  {
    hide InBlocks, DiskBit, InBuffer, NoneBeyond;
    var bits' := bits - {last + 32768};
    BeyondLast(blocks, last + 32768);
    assert last + 32768 !in bits;
    assert bits' == bits;
    forall n | 0 <= n < 8 * len
      ensures (DiskBit(disk, at, n) <==> InBlocks(blocks, n)) && (DiskBit(disk, at + len, n) <==> InBlocks(blocks, n))
    {
      assert n in bits' <==> InBlocks(blocks, n);
    }
  }
}

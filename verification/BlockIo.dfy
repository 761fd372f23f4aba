/**
 The byte-granular read and write paths of qemu/block.c on top of a driver that
 only moves whole sectors: padding of reads, reading zeroes after the end of a
 growable image, and the read-modify-write cycle of unaligned writes.  One
 request at a time; the interleaving of requests is in module Tracked.
 */
module BlockIo {
  import opened Align
  import opened Basics

  const EIO: int := 5
  const EACCES: int := 13
  const ENOMEDIUM: int := 123
  const INT_MAX: nat := 0x7FFF_FFFF

  /** What the guest sees of an image: zeroes after its end. */
  function ByteAt(disk: seq<byte>, a: nat): byte {
    if a < |disk| then disk[a] else 0
  }

  function Max(a: int, b: int): int {
    if a < b then b else a
  }

  function Min(a: int, b: int): int {
    if a < b then a else b
  }

  /** One byte of a driver read: after the last sector it is whatever the driver has there. */
  function DriverByte(disk: seq<byte>, a: nat, beyond: nat -> byte): byte {
    if a < RoundUp(|disk|, 512) then ByteAt(disk, a) else beyond(a)
  }

  function DriverBytes(disk: seq<byte>, a: nat, n: nat, beyond: nat -> byte): (buf: seq<byte>)
    ensures |buf| == n
    ensures forall i :: 0 <= i < n ==> buf[i] == DriverByte(disk, a + i, beyond)
  {
    if n == 0 then [] else DriverBytes(disk, a, n - 1, beyond) + [DriverByte(disk, a + n - 1, beyond)]
  }

  /** The whole sectors [sector, sector + n) of an image. */
  function DriverRead(disk: seq<byte>, sector: nat, n: nat, beyond: nat -> byte): seq<byte> {
    DriverBytes(disk, 512 * sector, 512 * n, beyond)
  }

  /** Writing past the end extends the image, with zeroes up to the sector. */
  function DriverWrite(disk: seq<byte>, sector: nat, buf: seq<byte>): seq<byte> {
    seq(Max(|disk|, 512 * sector + |buf|), a requires 0 <= a =>
      if 512 * sector <= a < 512 * sector + |buf| then buf[a - 512 * sector] else ByteAt(disk, a))
  }

  /** `qemu_iovec_memset`: fill from `from` on, never past the end of the vector. */
  function Memset(buf: seq<byte>, from: nat, n: nat): seq<byte> {
    seq(|buf|, i requires 0 <= i < |buf| => if from <= i < from + n then 0 else buf[i])
  }

  /** What a read sees at an address: zeroes after the end, or what the driver has there. */
  function View(disk: seq<byte>, zeroes: bool, beyond: nat -> byte, a: nat): byte {
    if zeroes then ByteAt(disk, a) else DriverByte(disk, a, beyond)
  }

  /** The buffer read from `offset` has what there is to see. */
  ghost predicate Shows(disk: seq<byte>, zeroes: bool, beyond: nat -> byte, offset: nat, buf: seq<byte>) {
    forall i :: 0 <= i < |buf| ==> buf[i] == View(disk, zeroes, beyond, offset + i)
  }

  lemma SectorsOf(offset: nat, bytes: nat, align: nat)
    requires align > 0 && align % 512 == 0 && offset % align == 0 && bytes % 512 == 0
    ensures 512 * (offset / 512) == offset && 512 * (bytes / 512) == bytes
  {
    SectorAligned(offset, align);
  }

  lemma TotalSectors(len: nat)
    ensures 512 * ((len + 511) / 512) == RoundUp(len, 512)
  {
  }

  lemma PlainRead(disk: seq<byte>, sector: nat, n: nat, beyond: nat -> byte)
    ensures |DriverRead(disk, sector, n, beyond)| == 512 * n
    ensures Shows(disk, false, beyond, 512 * sector, DriverRead(disk, sector, n, beyond))
  {
  }

  /** Sectors read as far as there are any, and zeroes from the end of the image on. */
  lemma ZeroTail(disk: seq<byte>, sector: nat, nb: nat, total: nat, beyond: nat -> byte, local: seq<byte>,
                 rest: seq<byte>, buf: seq<byte>)
    requires 512 * total == RoundUp(|disk|, 512) && |local| + |rest| == 512 * nb
    requires Shows(disk, false, beyond, 512 * sector, local)
    requires |local| < 512 * nb ==> 512 * (total - sector) <= |local|
    requires var from := Max(0, total - sector);
             buf == if total < sector + nb then Memset(local + rest, from * 512, (sector + nb - from) * 512)
                 else local + rest
    ensures |buf| == 512 * nb && Shows(disk, true, beyond, 512 * sector, buf)
  {
    hide RoundUp;
    forall i | 0 <= i < |buf| ensures buf[i] == ByteAt(disk, 512 * sector + i) {
      if 512 * sector + i < 512 * total {
        assert i < |local| && local[i] == View(disk, false, beyond, 512 * sector + i);
        assert buf[i] == local[i];
      }
    }
  }

  class Image {
    var disk: seq<byte>
    const align: nat
    const growable: bool
    const zeroBeyondEof: bool
    const readOnly: bool
    const inserted: bool

    constructor (disk: seq<byte>, align: nat, growable: bool, zeroBeyondEof: bool, readOnly: bool, inserted: bool)
      requires align >= 512 && align % 512 == 0 && (!growable ==> |disk| % align == 0)
      ensures Valid() && this.disk == disk && this.align == align && this.growable == growable
      ensures this.zeroBeyondEof == zeroBeyondEof && this.readOnly == readOnly && this.inserted == inserted
    {
      this.disk, this.align, this.growable := disk, align, growable;
      this.zeroBeyondEof, this.readOnly, this.inserted := zeroBeyondEof, readOnly, inserted;
    }

    /** The image reads as zeroes after its end. */
    predicate Zeroes() {
      zeroBeyondEof && growable
    }

    ghost predicate Valid()
      reads this
    {
      align >= 512 && align % 512 == 0 && (!growable ==> |disk| % align == 0)
    }

    /** A medium that holds the request, or may grow. */
    predicate Accepted(offset: int, size: nat)
      reads this
    {
      size <= INT_MAX && inserted && (growable || (0 <= offset && offset + size <= |disk|))
    }

    /** `bdrv_check_byte_request` */
    method CheckByteRequest(offset: int, size: nat) returns (ret: int)
      ensures ret == 0 <==> Accepted(offset, size)
      ensures ret <= 0
    {
      if size > INT_MAX {
        return -EIO;
      }
      if !inserted {
        return -ENOMEDIUM;
      }
      if growable {
        return 0;
      }
      var len := |disk|;
      if offset < 0 {
        return -EIO;
      }
      if offset > len || len - offset < size {
        return -EIO;
      }
      return 0;
    }

    /**
     `bdrv_aligned_preadv`, forwarding to the driver.  An image that is growable
     and marked so reads as zeroes after its end, whatever the driver returns there.
     */
    method AlignedPreadv(offset: nat, bytes: nat, beyond: nat -> byte) returns (buf: seq<byte>)
      requires Valid() && offset % align == 0 && bytes % 512 == 0
      requires growable || offset + bytes <= |disk|
      ensures |buf| == bytes && Shows(disk, Zeroes(), beyond, offset, buf)
    {
      hide Shows, DriverRead, Memset;
      SectorsOf(offset, bytes, align);
      var sectorNum, nbSectors := offset / 512, bytes / 512;
      if !(zeroBeyondEof && growable) {
        PlainRead(disk, sectorNum, nbSectors, beyond);
        return DriverRead(disk, sectorNum, nbSectors, beyond);
      }
      var len := |disk|;
      TotalSectors(len);
      var totalSectors := (len + 511) / 512;
      var maxNbSectors := RoundUp(Max(0, totalSectors - sectorNum), align / 512);
      var local: seq<byte> := [];
      PlainRead(disk, sectorNum, 0, beyond);
      NoBytes(disk, beyond, 512 * sectorNum);
      if maxNbSectors > 0 {
        var localSectors := Min(maxNbSectors, nbSectors);
        PlainRead(disk, sectorNum, localSectors, beyond);
        local := DriverRead(disk, sectorNum, localSectors, beyond);
      }
      var rest := seq<byte>(bytes - |local|, i requires 0 <= i => beyond(i));
      buf := local + rest;
      if totalSectors < sectorNum + nbSectors {
        var from := Max(0, totalSectors - sectorNum);
        buf := Memset(buf, from * 512, (sectorNum + nbSectors - from) * 512);
      }
      ZeroTail(disk, sectorNum, nbSectors, totalSectors, beyond, local, rest, buf);
    }

    /** `bdrv_aligned_pwritev` without write-zero detection: one driver write. */
    method AlignedPwritev(offset: nat, buf: seq<byte>)
      requires Valid() && offset % align == 0 && |buf| % 512 == 0
      requires growable || offset + |buf| <= |disk|
      modifies this
      ensures Valid() && |disk| == Max(|old(disk)|, offset + |buf|)
      ensures forall a: nat ::
                ByteAt(disk, a) == if offset <= a < offset + |buf| then buf[a - offset] else ByteAt(old(disk), a)
    {
      SectorAligned(offset, align);
      disk := DriverWrite(disk, offset / 512, buf);
    }

    /** `bdrv_co_do_preadv`: an unaligned read is padded on both sides. */
    method CoDoPreadv(offset0: int, size: nat, beyond: nat -> byte) returns (ret: int, qiov: seq<byte>)
      requires Valid() && (growable ==> offset0 >= 0)
      ensures ret == 0 <==> Accepted(offset0, size)
      ensures ret == 0 ==> offset0 >= 0 && |qiov| == size && Shows(disk, Zeroes(), beyond, offset0, qiov)
    {
      hide RoundUp;
      qiov := [];
      if !inserted {
        return -ENOMEDIUM, [];
      }
      ret := CheckByteRequest(offset0, size);
      if ret != 0 {
        return -EIO, [];
      }
      PadFacts(offset0, size, align);
      var offset: nat, bytes := offset0, size;
      if offset % align != 0 {
        bytes := bytes + offset % align;
        offset := offset - offset % align;
      }
      if (offset + bytes) % align != 0 {
        bytes := RoundUp(bytes, align);
      }
      if !growable {
        EndFits(offset0 + size, |disk|, align);
      }
      SectorAligned(bytes, align);
      var buf := AlignedPreadv(offset, bytes, beyond);
      PartShows(disk, Zeroes(), beyond, offset, buf, offset0 - offset, size);
      qiov := buf[offset0 - offset..offset0 - offset + size];
    }

    /**
     `bdrv_co_do_pwritev`: the first and last block are read, and what was read
     around the request is written back.  Exactly the requested bytes change, unless
     something else than zeroes is read back from behind the last sector.
     */
    method CoDoPwritev(offset0: int, qiov: seq<byte>, beyond: nat -> byte) returns (ret: int)
      requires Valid() && (growable ==> offset0 >= 0)
      modifies this
      ensures Valid()
      ensures ret == 0 <==> !readOnly && old(Accepted(offset0, |qiov|))
      ensures ret != 0 ==> disk == old(disk)
      ensures ret == 0 ==> offset0 >= 0 && Padded(old(disk), disk, Zeroes(), beyond, offset0, qiov, align)
      ensures ret == 0 ==> (Overwritten(old(disk), disk, offset0, qiov) <==>
                            Zeroes() || PaddingIsZero(old(disk), beyond, offset0, |qiov|, align))
      ensures ret == 0 && (growable ==> zeroBeyondEof) ==> Overwritten(old(disk), disk, offset0, qiov)
    {
      hide Carries, RoundUp, Down, Padded, Overwritten, PaddingIsZero;
      if !inserted {
        return -ENOMEDIUM;
      }
      if readOnly {
        return -EACCES;
      }
      ret := CheckByteRequest(offset0, |qiov|);
      if ret != 0 {
        return -EIO;
      }
      PadFacts(offset0, |qiov|, align);
      if !growable {
        EndFits(offset0 + |qiov|, |disk|, align);
        PaddingInside(disk, beyond, offset0, |qiov|, align);
      }
      var offset: nat, local := offset0, qiov;
      CarriesItself(disk, Zeroes(), beyond, offset0, qiov);
      if offset % align != 0 {
        offset, local := PadHead(offset, qiov, beyond);
      }
      if (offset + |local|) % align != 0 {
        local := PadTail(offset0, qiov, offset, local, beyond);
      }
      SectorAligned(|local|, align);
      AlignedPwritev(offset, local);
      CarriedOver(old(disk), disk, Zeroes(), beyond, offset0, qiov, offset, local, align);
      OverwrittenIff(old(disk), disk, Zeroes(), beyond, offset0, qiov, align);
    }

    /** Read the first block and put what precedes the request in front of it. */
    method PadHead(offset: nat, qiov: seq<byte>, beyond: nat -> byte) returns (offset': nat, local: seq<byte>)
      requires Valid() && offset % align != 0
      requires growable || RoundUp(offset + |qiov|, align) <= |disk|
      ensures offset' == Down(offset, align) && |local| == |qiov| + offset % align
      ensures Carries(disk, Zeroes(), beyond, offset, qiov, offset', local)
    {
      hide RoundUp;
      DownAligned(offset, align);
      HeadFits(offset, |qiov|, align);
      var headBuf := AlignedPreadv(Down(offset, align), align, beyond);
      local := headBuf[..offset % align] + qiov;
      offset' := Down(offset, align);
    }

    /** Read the last block and put what follows the request behind it. */
    method PadTail(offset0: nat, ghost qiov: seq<byte>, offset: nat, local: seq<byte>, beyond: nat -> byte)
      returns (local': seq<byte>)
      requires Valid() && offset % align == 0 && (offset + |local|) % align != 0
      requires growable || RoundUp(offset + |local|, align) <= |disk|
      requires Carries(disk, Zeroes(), beyond, offset0, qiov, offset, local)
      requires offset + |local| == offset0 + |qiov|
      ensures |local'| == RoundUp(|local|, align) && |local'| % align == 0
      ensures Carries(disk, Zeroes(), beyond, offset0, qiov, offset, local')
    {
      hide RoundUp;
      PadFacts(offset, |local|, align);
      var tailBuf := AlignedPreadv(Down(offset + |local|, align), align, beyond);
      var tailBytes := (offset + |local|) % align;
      local' := local + tailBuf[tailBytes..];
    }
  }

  lemma NoBytes(disk: seq<byte>, beyond: nat -> byte, offset: nat)
    ensures Shows(disk, false, beyond, offset, [])
  {
  }

  lemma PartShows(disk: seq<byte>, zeroes: bool, beyond: nat -> byte, offset: nat, buf: seq<byte>, k: nat, n: nat)
    requires Shows(disk, zeroes, beyond, offset, buf) && k + n <= |buf|
    ensures Shows(disk, zeroes, beyond, offset + k, buf[k..k + n])
  {
    hide View;
    var part := buf[k..k + n];
    forall i | 0 <= i < |part| ensures part[i] == View(disk, zeroes, beyond, offset + k + i) {
      assert buf[k + i] == View(disk, zeroes, beyond, offset + (k + i));
    }
  }

  /** Exactly the requested bytes have changed. */
  ghost predicate Overwritten(disk: seq<byte>, disk': seq<byte>, offset: nat, data: seq<byte>) {
    forall a: nat :: ByteAt(disk', a) == if offset <= a < offset + |data| then data[a - offset] else ByteAt(disk, a)
  }

  /** In the blocks of the request what was seen around it has been written back; nothing else has changed. */
  ghost predicate Padded(disk: seq<byte>, disk': seq<byte>, zeroes: bool, beyond: nat -> byte, offset: nat,
                         data: seq<byte>, align: nat)
    requires align > 0
  {
    && |disk'| == Max(|disk|, RoundUp(offset + |data|, align))
    && forall a: nat :: ByteAt(disk', a) ==
         if offset <= a < offset + |data| then data[a - offset]
         else if Down(offset, align) <= a < RoundUp(offset + |data|, align) then View(disk, zeroes, beyond, a)
         else ByteAt(disk, a)
  }

  /** The driver has zeroes behind the last sector, as far as blocks of the request go there around it. */
  ghost predicate PaddingIsZero(disk: seq<byte>, beyond: nat -> byte, offset: nat, size: nat, align: nat)
    requires align > 0
  {
    forall a: nat :: Down(offset, align) <= a < RoundUp(offset + size, align) && !(offset <= a < offset + size) ==>
      RoundUp(|disk|, 512) <= a ==> beyond(a) == 0
  }

  lemma PaddingInside(disk: seq<byte>, beyond: nat -> byte, offset: nat, size: nat, align: nat)
    requires align > 0 && RoundUp(offset + size, align) <= |disk|
    ensures PaddingIsZero(disk, beyond, offset, size, align)
  {
    hide RoundUp, Down;
  }

  /** What is written back is no change if and only if it is zeroes behind the last sector. */
  lemma OverwrittenIff(disk: seq<byte>, disk': seq<byte>, zeroes: bool, beyond: nat -> byte, offset: nat,
                       data: seq<byte>, align: nat)
    requires align > 0 && Padded(disk, disk', zeroes, beyond, offset, data, align)
    ensures Overwritten(disk, disk', offset, data) <==>
            zeroes || PaddingIsZero(disk, beyond, offset, |data|, align)
  {
    hide RoundUp, Down;
    var lo, hi := Down(offset, align), RoundUp(offset + |data|, align);
    if Overwritten(disk, disk', offset, data) && !zeroes {
      forall a: nat | lo <= a < hi && !(offset <= a < offset + |data|) && RoundUp(|disk|, 512) <= a
        ensures beyond(a) == 0
      {
        assert ByteAt(disk', a) == ByteAt(disk, a) == 0 && ByteAt(disk', a) == View(disk, zeroes, beyond, a);
      }
    }
  }

  /** The buffer at `at` holds the request's bytes where it has them, and around them what was seen there. */
  ghost predicate Carries(disk: seq<byte>, zeroes: bool, beyond: nat -> byte, offset: nat, data: seq<byte>, at: nat,
                          buf: seq<byte>) {
    && at <= offset && offset + |data| <= at + |buf|
    && (forall i :: 0 <= i < |data| ==> buf[offset - at + i] == data[i])
    && forall i :: 0 <= i < |buf| && !(offset <= at + i < offset + |data|) ==>
         buf[i] == View(disk, zeroes, beyond, at + i)
  }

  lemma CarriesItself(disk: seq<byte>, zeroes: bool, beyond: nat -> byte, offset: nat, data: seq<byte>)
    ensures Carries(disk, zeroes, beyond, offset, data, offset, data)
  {
  }

  lemma CarriedOver(disk: seq<byte>, disk': seq<byte>, zeroes: bool, beyond: nat -> byte, offset: nat, data: seq<byte>,
                    at: nat, buf: seq<byte>, align: nat)
    requires align > 0 && Carries(disk, zeroes, beyond, offset, data, at, buf)
    requires at == Down(offset, align) && at + |buf| == RoundUp(offset + |data|, align)
    requires |disk'| == Max(|disk|, at + |buf|)
    requires forall a: nat :: ByteAt(disk', a) == if at <= a < at + |buf| then buf[a - at] else ByteAt(disk, a)
    ensures Padded(disk, disk', zeroes, beyond, offset, data, align)
  {
    hide RoundUp, Down, View;
    forall a: nat | at <= a < at + |buf|
      ensures ByteAt(disk', a) ==
              if offset <= a < offset + |data| then data[a - offset] else View(disk, zeroes, beyond, a)
    {
      if offset <= a < offset + |data| {
        assert buf[offset - at + (a - offset)] == data[a - offset];
      } else {
        assert buf[a - at] == View(disk, zeroes, beyond, at + (a - at));
      }
    }
  }

  /**
   A write past the end of an image that grows and does not read as zeroes there:
   the bytes behind the request come from the driver.
   */
  method WritesBack() returns (image: Image)
    ensures image.growable && !image.zeroBeyondEof && image.align == 512 && |image.disk| == 512
    ensures image.disk[0] == 7 && image.disk[1] == 1 && !Overwritten([], image.disk, 0, [7])
  {
    hide Padded, Overwritten, PaddingIsZero;
    image := new Image([], 512, true, false, false, true);
    var beyond := (a: nat) => 1;
    var ret := image.CoDoPwritev(0, [7], beyond);
    BackWritten(image.disk, beyond);
  }

  lemma SmallRounds()
    ensures RoundUp(0, 512) == 0 && RoundUp(1, 512) == 512 && Down(0, 512) == 0
  {
  }

  lemma BackWritten(disk: seq<byte>, beyond: nat -> byte)
    requires Padded([], disk, false, beyond, 0, [7], 512) && beyond(1) == 1
    ensures |disk| == 512 && disk[0] == 7 && disk[1] == 1 && !Overwritten([], disk, 0, [7])
  {
    hide RoundUp, Down;
    SmallRounds();
    assert ByteAt(disk, 0) == 7 && ByteAt(disk, 1) == View([], false, beyond, 1);
  }

  lemma HeadFits(off: nat, size: nat, a: nat)
    requires a > 0 && off % a != 0
    ensures Down(off, a) + a <= RoundUp(off + size, a)
  {
    RoundUpIs(off, a);
    RoundUpAligned(off + size, a);
    RoundUpAligned(off, a);
    if RoundUp(off + size, a) < RoundUp(off, a) {
      AlignedClose(RoundUp(off + size, a), RoundUp(off, a), a);
    }
  }

  lemma SectorAligned(x: nat, a: nat)
    requires a > 0 && a % 512 == 0 && x % a == 0
    ensures x % 512 == 0
  {
    assert x == (x / a) * a && a == (a / 512) * 512;
    assert x == ((x / a) * (a / 512)) * 512;
  }

  /** The padded range of a request: from the block of its first byte to the end of the block of its last. */
  lemma PadFacts(off: nat, size: nat, a: nat)
    requires a > 0
    ensures Down(off, a) % a == 0 && RoundUp(off + size, a) % a == 0 && Down(off + size, a) % a == 0
    ensures off + size == Down(off, a) + (size + off % a)
    ensures Down(off, a) + RoundUp(size + off % a, a) == RoundUp(off + size, a)
    ensures (size + off % a) % a == (off + size) % a && RoundUp(size + off % a, a) % a == 0
    ensures (off + size) % a != 0 ==> RoundUp(off + size, a) == Down(off + size, a) + a
    ensures (off + size) % a == 0 ==> RoundUp(off + size, a) == off + size
  {
    DownAligned(off, a);
    DownAligned(off + size, a);
    RoundUpAligned(off + size, a);
    RoundUpAligned(size + off % a, a);
    AddAligned(Down(off, a), a, size + off % a);
    RoundUpShift(Down(off, a), a, size + off % a);
    RoundUpIs(off + size, a);
  }

  /** Rounding up stays within an image whose length is a multiple of the alignment. */
  lemma EndFits(x: nat, len: nat, a: nat)
    requires a > 0 && len % a == 0 && x <= len
    ensures RoundUp(x, a) <= len
  {
    RoundUpAligned(x, a);
    if RoundUp(x, a) > len {
      AlignedClose(len, RoundUp(x, a), a);
    }
  }
}

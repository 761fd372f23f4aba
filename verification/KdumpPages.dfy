/**
 The pages of a kdump-compressed file (qemu/dump.c): a descriptor for every page,
 and the stored bytes of the pages, both through write caches.
 */
module KdumpPages {
  import opened Basics
  import opened ElfDump
  import opened Vmcore
  import GuestPages

  /** `PageDescriptor` without its `page_flags`, which are always 0. */
  datatype Desc = Desc(offset: nat, size: nat, flags: nat)

  function DescBytes(e: Elf, d: Desc): (s: seq<byte>)
    ensures |s| == 24
  {
    Num(e, d.offset, 8) + Num(e, d.size, 4) + Num(e, d.flags, 4) + Num(e, 0, 8)
  }

  function ReadDesc(e: Elf, s: seq<byte>): Desc
    requires |s| == 24
  {
    Desc(UnNum(e, s[0..8]), UnNum(e, s[8..12]), UnNum(e, s[12..16]))
  }

  lemma DescRoundTrip(e: Elf, d: Desc)
    requires d.offset < 0x1_0000_0000_0000_0000 && d.size < 0x1_0000_0000 && d.flags < 0x1_0000_0000
    ensures ReadDesc(e, DescBytes(e, d)) == d
  {
    hide Num, UnNum, Pow256;
    NumReads(e, d.offset, 8);
    NumReads(e, d.size, 4);
    NumReads(e, d.flags, 4);
    Pow256Values();
    var s := DescBytes(e, d);
    assert s[0..8] == Num(e, d.offset, 8) && s[8..12] == Num(e, d.size, 4) && s[12..16] == Num(e, d.flags, 4);
  }

  function DescsBytes(e: Elf, ds: seq<Desc>): (s: seq<byte>)
    ensures |s| == 24 * |ds|
  {
    if ds == [] then [] else DescsBytes(e, ds[..|ds| - 1]) + DescBytes(e, ds[|ds| - 1])
  }

  lemma {:induction false} DescAt(e: Elf, ds: seq<Desc>, i: nat)
    requires i < |ds|
    ensures DescsBytes(e, ds)[24 * i..24 * i + 24] == DescBytes(e, ds[i])
    decreases |ds|
  {
    hide DescBytes;
    if i < |ds| - 1 {
      DescAt(e, ds[..|ds| - 1], i);
    }
  }

  // ---------- Write caches ----------

  /** What has been given to the cache is in the file from `origin` on, and then in the buffer. */
  ghost predicate Cached(disk: Disk<byte>, origin: nat, offset: nat, buf: seq<byte>, all: seq<byte>) {
    && |buf| <= |all| && offset == origin + |all| - |buf| && |buf| <= 16384
    && all[|all| - |buf|..] == buf && OnFile(disk, origin, all[..|all| - |buf|])
  }

  lemma CachedKept(disk: Disk<byte>, disk': Disk<byte>, lo: nat, hi: nat, origin: nat, offset: nat, buf: seq<byte>,
                   all: seq<byte>)
    requires Cached(disk, origin, offset, buf, all) && OutsideKept(disk, disk', lo, hi)
    requires origin + |all| <= lo || hi <= origin
    ensures Cached(disk', origin, offset, buf, all)
  {
    KeptOnFile(disk, disk', lo, hi, origin, all[..|all| - |buf|]);
  }

  lemma CachedFlush(disk: Disk<byte>, origin: nat, offset: nat, buf: seq<byte>, all: seq<byte>)
    requires Cached(disk, origin, offset, buf, all)
    ensures Cached(Written(disk, offset, buf), origin, offset + |buf|, [], all)
    ensures OutsideKept(disk, Written(disk, offset, buf), origin, origin + |all|)
  {
    var done := all[..|all| - |buf|];
    WrittenAppends(disk, origin, done, buf);
    assert done + buf == all && all[..|all|] == all;
  }

  lemma CachedMore(disk: Disk<byte>, origin: nat, offset: nat, buf: seq<byte>, all: seq<byte>, data: seq<byte>)
    requires Cached(disk, origin, offset, buf, all) && |buf| + |data| <= 16384
    ensures Cached(disk, origin, offset, buf + data, all + data)
  {
    assert (all + data)[..|all| - |buf|] == all[..|all| - |buf|];
    assert (all + data)[|all| - |buf|..] == buf + data;
  }

  class DataCache {
    const file: File
    const origin: nat
    var offset: nat
    var buf: seq<byte>
    ghost var all: seq<byte>

    ghost predicate Valid()
      reads this, file
    {
      Cached(file.disk, origin, offset, buf, all)
    }

    /** `prepare_data_cache` */
    constructor (file: File, origin: nat)
      ensures this.file == file && this.origin == origin && all == [] && Valid()
    {
      this.file, this.origin, offset, buf, all := file, origin, origin, [], [];
    }

    /** `write_cache`: the file changes only where earlier data belongs. */
    method WriteCache(data: seq<byte>, sync: bool)
      requires Valid() && |data| <= 16384
      modifies this, file
      ensures Valid() && all == old(all) + (if sync then [] else data) && (sync ==> buf == [])
      ensures OutsideKept(old(file.disk), file.disk, origin, origin + |old(all)|)
    {
      hide Cached, Written;
      if (!sync && |buf| + |data| > 16384) || (sync && |buf| > 0) {
        CachedFlush(file.disk, origin, offset, buf, all);
        file.WriteBuffer(offset, buf);
        offset := offset + |buf|;
        buf := [];
      }
      if !sync {
        CachedMore(file.disk, origin, offset, buf, all, data);
        buf := buf + data;
        all := all + data;
      }
    }
  }

  // ---------- Pages ----------

  /** A compression format: what it makes of a page, if anything, expands to the page. */
  datatype Codec = Codec(flag: nat, compress: seq<byte> -> Option<seq<byte>>, expand: seq<byte> -> seq<byte>)

  ghost predicate CodecOk(c: Codec) {
    && 0 < c.flag < 0x1_0000_0000
    && forall page {:trigger c.compress(page)} :: c.compress(page).Some? ==> c.expand(c.compress(page).value) == page
  }

  function Decoded(c: Codec, flags: nat, stored: seq<byte>): seq<byte> {
    if flags == 0 then stored else c.expand(stored)
  }

  /** The descriptor delimits bytes of the page data that decode to the page. */
  ghost predicate Describes(c: Codec, d: Desc, all: seq<byte>, origin: nat, page: seq<byte>) {
    && origin <= d.offset && d.offset - origin + d.size <= |all| && d.size <= 4096 && d.flags < 0x1_0000_0000
    && Decoded(c, d.flags, all[d.offset - origin..d.offset - origin + d.size]) == page
  }

  lemma DescribesMore(c: Codec, d: Desc, all: seq<byte>, origin: nat, page: seq<byte>, data: seq<byte>)
    requires Describes(c, d, all, origin, page)
    ensures Describes(c, d, all + data, origin, page)
  {
    var k := d.offset - origin;
    assert (all + data)[k..k + d.size] == all[k..k + d.size];
  }

  lemma DescribesLast(c: Codec, all: seq<byte>, origin: nat, data: seq<byte>, flags: nat)
    requires |data| <= 4096 && flags < 0x1_0000_0000
    ensures Describes(c, Desc(origin + |all|, |data|, flags), all + data, origin, Decoded(c, flags, data))
  {
    assert (all + data)[|all|..|all| + |data|] == data;
  }

  /** The i-th descriptor is that of the i-th page. */
  ghost predicate PagesDescribed(c: Codec, ds: seq<Desc>, pfns: seq<nat>, memory: nat -> seq<byte>, all: seq<byte>,
                                 origin: nat) {
    && |ds| == |pfns| && forall i :: 0 <= i < |ds| ==> Describes(c, ds[i], all, origin, memory(pfns[i]))
  }

  lemma DescribedMore(c: Codec, ds: seq<Desc>, pfns: seq<nat>, memory: nat -> seq<byte>, all: seq<byte>, origin: nat,
                      data: seq<byte>, d: Desc, pfn: nat)
    requires PagesDescribed(c, ds, pfns, memory, all, origin) && Describes(c, d, all + data, origin, memory(pfn))
    ensures PagesDescribed(c, ds + [d], pfns + [pfn], memory, all + data, origin)
  {
    hide Describes;
    forall i | 0 <= i < |ds| ensures Describes(c, ds[i], all + data, origin, memory(pfns[i])) {
      DescribesMore(c, ds[i], all, origin, memory(pfns[i]), data);
    }
  }

  ghost predicate Ordered(blocks: seq<GuestPages.Block>, pfns: seq<nat>)
    requires GuestPages.Sorted(blocks)
  {
    forall i :: 0 <= i < |pfns| ==> GuestPages.IsPage(blocks, i, pfns[i])
  }

  lemma OrderedMore(blocks: seq<GuestPages.Block>, pfns: seq<nat>, it: GuestPages.Iter)
    requires GuestPages.Sorted(blocks) && Ordered(blocks, pfns) && it.At? && GuestPages.After(blocks, it, |pfns| + 1)
    ensures Ordered(blocks, pfns + [it.pfn]) && |pfns| < GuestPages.Pages(blocks, |blocks|)
  {
    hide GuestPages.Pages, GuestPages.Sorted;
    PageCounted(blocks, it, |pfns| + 1);
    assert GuestPages.IsPage(blocks, |pfns|, it.pfn);
  }

  lemma PageCounted(blocks: seq<GuestPages.Block>, it: GuestPages.Iter, n: nat)
    requires GuestPages.Sorted(blocks) && it.At? && GuestPages.After(blocks, it, n)
    ensures n <= GuestPages.Pages(blocks, |blocks|)
  {
    PagesGrow(blocks, it.block + 1, |blocks|);
  }

  lemma {:induction false} PagesGrow(blocks: seq<GuestPages.Block>, i: nat, j: nat)
    requires GuestPages.Sorted(blocks) && i <= j <= |blocks|
    ensures GuestPages.Pages(blocks, i) <= GuestPages.Pages(blocks, j)
    decreases j
  {
    if i < j {
      PagesGrow(blocks, i, j - 1);
    }
  }

  lemma DescribedNone(c: Codec, memory: nat -> seq<byte>, all: seq<byte>, origin: nat, blocks: seq<GuestPages.Block>)
    requires GuestPages.Sorted(blocks)
    ensures PagesDescribed(c, [], [], memory, all, origin) && Ordered(blocks, [])
  {
  }

  lemma DescsNone(e: Elf)
    ensures DescsBytes(e, []) == []
  {
  }

  lemma DescsMore(e: Elf, ds: seq<Desc>, d: Desc)
    ensures DescsBytes(e, ds + [d]) == DescsBytes(e, ds) + DescBytes(e, d)
  {
    hide DescBytes;
    assert (ds + [d])[..|ds|] == ds;
  }

  lemma CachedAll(disk: Disk<byte>, origin: nat, offset: nat, all: seq<byte>)
    requires Cached(disk, origin, offset, [], all)
    ensures OnFile(disk, origin, all)
  {
    assert all[..|all|] == all;
  }

  class PageWriter {
    const blocks: seq<GuestPages.Block>
    const memory: nat -> seq<byte>
    const e: Elf
    const codec: Codec

    constructor (blocks: seq<GuestPages.Block>, memory: nat -> seq<byte>, e: Elf, codec: Codec)
      ensures this.blocks == blocks && this.memory == memory && this.e == e && this.codec == codec
    {
      this.blocks, this.memory, this.e, this.codec := blocks, memory, e, codec;
    }

    /** Compress the page if that makes it smaller, and write it; the flags say which. */
    method WritePage(data: DataCache, page: seq<byte>) returns (sizeOut: nat, flags: nat, ghost stored: seq<byte>)
      requires data.Valid() && |page| == 4096 && CodecOk(codec)
      modifies data, data.file
      ensures data.Valid() && data.all == old(data.all) + stored && sizeOut == |stored|
      ensures Describes(codec, Desc(data.origin + |old(data.all)|, sizeOut, flags), data.all, data.origin, page)
      ensures OutsideKept(old(data.file.disk), data.file.disk, data.origin, data.origin + |old(data.all)|)
    {
      hide Describes, Cached, OutsideKept;
      var out := codec.compress(page);
      if out.Some? && |out.value| < 4096 {
        DescribesLast(codec, data.all, data.origin, out.value, codec.flag);
        data.WriteCache(out.value, false);
        return |out.value|, codec.flag, out.value;
      }
      DescribesLast(codec, data.all, data.origin, page, 0);
      data.WriteCache(page, false);
      return 4096, 0, page;
    }

    /** One page: its bytes, unless it is zero, and its descriptor. */
    method DumpPage(desc: DataCache, data: DataCache, offsetData: nat, zero: Desc, page: seq<byte>)
      returns (offsetData': nat, d: Desc, ghost stored: seq<byte>)
      requires desc.Valid() && data.Valid() && desc != data && desc.file == data.file && |page| == 4096
      requires CodecOk(codec)
      requires desc.origin + |desc.all| <= data.origin && offsetData == data.origin + |data.all|
      requires Describes(codec, zero, data.all, data.origin, Filled(0))
      modifies desc, data, desc.file
      ensures desc.Valid() && data.Valid() && desc.all == old(desc.all) + DescBytes(e, d)
      ensures data.all == old(data.all) + stored
      ensures offsetData' == data.origin + |data.all| && Describes(codec, d, data.all, data.origin, page)
      ensures OutsideKept(old(desc.file.disk), desc.file.disk, desc.origin, data.origin + |data.all|)
    {
      hide Describes, Cached, OutsideKept, Filled, DescBytes;
      ghost var disk0 := desc.file.disk;
      if page == Filled(0) {
        d, stored, offsetData' := zero, [], offsetData;
        assert data.all + stored == data.all;
        KeptNone(disk0, desc.origin, data.origin + |data.all|);
      } else {
        var sizeOut, flags;
        sizeOut, flags, stored := WritePage(data, page);
        d := Desc(offsetData, sizeOut, flags);
        offsetData' := offsetData + sizeOut;
        CachedKept(disk0, desc.file.disk, data.origin, data.origin + |old(data.all)|, desc.origin, desc.offset,
                   desc.buf, desc.all);
        KeptWider(disk0, desc.file.disk, data.origin, data.origin + |old(data.all)|, desc.origin,
                  data.origin + |data.all|);
      }
      ghost var disk1 := desc.file.disk;
      desc.WriteCache(DescBytes(e, d), false);
      CachedKept(disk1, desc.file.disk, desc.origin, desc.origin + |old(desc.all)|, data.origin, data.offset, data.buf,
                 data.all);
      KeptWider(disk1, desc.file.disk, desc.origin, desc.origin + |old(desc.all)|, desc.origin,
                data.origin + |data.all|);
      KeptTwice(disk0, disk1, desc.file.disk, desc.origin, data.origin + |data.all|);
    }

    /**
     `write_dump_pages`: descriptors from `offsetPage` on, page data right after the
     last descriptor, and both on disk when done.
     */
    method WriteDumpPages(file: File, offsetPage: nat, numDumpable: nat)
      returns (ghost ds: seq<Desc>, ghost pfns: seq<nat>, ghost all: seq<byte>)
      requires GuestPages.Sorted(blocks) && numDumpable == GuestPages.Pages(blocks, |blocks|) && CodecOk(codec)
      requires forall pfn {:trigger memory(pfn)} :: |memory(pfn)| == 4096
      modifies file
      ensures |ds| == |pfns| == numDumpable && Ordered(blocks, pfns)
      ensures OnFile(file.disk, offsetPage, DescsBytes(e, ds)) && OnFile(file.disk, offsetPage + 24 * numDumpable, all)
      ensures PagesDescribed(codec, ds, pfns, memory, all, offsetPage + 24 * numDumpable)
      ensures OutsideKept(old(file.disk), file.disk, offsetPage, offsetPage + 24 * numDumpable + |all|)
    {
      hide Describes, Cached, OutsideKept, Filled, DescBytes, PagesDescribed, Ordered, OnFile, GuestPages.After;
      hide GuestPages.Pages, GuestPages.Sorted, GuestPages.InBlocks, DescsBytes, CodecOk;
      var offsetData := offsetPage + 24 * numDumpable;
      ghost var origin := offsetData;
      var desc := new DataCache(file, offsetPage);
      var data := new DataCache(file, offsetData);
      var zero := Desc(offsetData, 4096, 0);
      DescribesLast(codec, [], origin, Filled(0), 0);
      data.WriteCache(Filled(0), false);
      CachedKept(old(file.disk), file.disk, origin, origin, offsetPage, desc.offset, desc.buf, desc.all);
      KeptWider(old(file.disk), file.disk, origin, origin, offsetPage, origin + |data.all|);
      offsetData := offsetData + 4096;
      ds, pfns := [], [];
      DescribedNone(codec, memory, data.all, origin, blocks);
      DescsNone(e);
      GuestPages.AfterNone(blocks);
      var it := GuestPages.GetNextPage(blocks, GuestPages.Start, 0);
      while it.At?
        invariant desc.Valid() && data.Valid() && desc.file == data.file == file && desc.origin == offsetPage
        invariant data.origin == origin && fresh(desc) && fresh(data) && desc != data
        invariant desc.all == DescsBytes(e, ds) && offsetData == origin + |data.all|
        invariant Describes(codec, zero, data.all, origin, Filled(0))
        invariant PagesDescribed(codec, ds, pfns, memory, data.all, origin) && Ordered(blocks, pfns)
        invariant !it.Start? && GuestPages.After(blocks, it, if it.End? then |pfns| else |pfns| + 1)
        invariant |ds| == |pfns| <= numDumpable
        invariant OutsideKept(old(file.disk), file.disk, offsetPage, origin + |data.all|)
        decreases if it.At? then 1 + numDumpable - |pfns| else 0
      {
        OrderedMore(blocks, pfns, it);
        ghost var disk0, all0 := file.disk, data.all;
        ghost var stored;
        var d;
        offsetData, d, stored := DumpPage(desc, data, offsetData, zero, memory(it.pfn));
        DescribedMore(codec, ds, pfns, memory, all0, origin, stored, d, it.pfn);
        DescribesMore(codec, zero, all0, origin, Filled(0), stored);
        KeptGrows(old(file.disk), disk0, file.disk, offsetPage, origin + |all0|, origin + |data.all|);
        DescsMore(e, ds, d);
        ds, pfns := ds + [d], pfns + [it.pfn];
        it := GuestPages.GetNextPage(blocks, it, |pfns|);
      }
      GuestPages.AfterAll(blocks, it, |pfns|);
      all := data.all;
      ghost var disk1 := file.disk;
      Sync(desc, data);
      KeptTwice(old(file.disk), disk1, file.disk, offsetPage, origin + |all|);
    }
  }

  /** Both caches are written out. */
  method Sync(desc: DataCache, data: DataCache)
    requires desc.Valid() && data.Valid() && desc != data && desc.file == data.file
    requires desc.origin + |desc.all| <= data.origin
    modifies desc, data, desc.file
    ensures OnFile(desc.file.disk, desc.origin, old(desc.all)) && OnFile(desc.file.disk, data.origin, old(data.all))
    ensures OutsideKept(old(desc.file.disk), desc.file.disk, desc.origin, data.origin + |old(data.all)|)
  {
    hide Cached, OutsideKept, OnFile;
    ghost var lo, mid, hi := desc.origin, data.origin, data.origin + |data.all|;
    ghost var disk0 := desc.file.disk;
    desc.WriteCache([], true);
    ghost var disk1 := desc.file.disk;
    CachedKept(disk0, disk1, lo, lo + |desc.all|, mid, data.offset, data.buf, data.all);
    data.WriteCache([], true);
    CachedKept(disk1, data.file.disk, mid, hi, lo, desc.offset, desc.buf, desc.all);
    CachedAll(data.file.disk, lo, desc.offset, desc.all);
    CachedAll(data.file.disk, mid, data.offset, data.all);
    KeptWider(disk0, disk1, lo, lo + |desc.all|, lo, hi);
    KeptWider(disk1, data.file.disk, mid, hi, lo, hi);
    KeptTwice(disk0, disk1, data.file.disk, lo, hi);
    assert old(desc.all) + [] == old(desc.all) && old(data.all) + [] == old(data.all);
  }

  /** A reader who follows the i-th descriptor of the file gets the i-th page of guest memory. */
  lemma PageReads(e: Elf, c: Codec, disk: Disk<byte>, offsetPage: nat, ds: seq<Desc>, pfns: seq<nat>,
                  memory: nat -> seq<byte>, all: seq<byte>, i: nat)
    requires OnFile(disk, offsetPage, DescsBytes(e, ds)) && OnFile(disk, offsetPage + 24 * |ds|, all)
    requires PagesDescribed(c, ds, pfns, memory, all, offsetPage + 24 * |ds|) && i < |ds|
    requires offsetPage + 24 * |ds| + |all| < 0x1_0000_0000_0000_0000
    ensures var d := ReadDesc(e, Slice(disk, offsetPage + 24 * i, 24));
            Decoded(c, d.flags, Slice(disk, d.offset, d.size)) == memory(pfns[i])
  {
    hide DescsBytes, DescBytes, ReadDesc, OnFile, Decoded;
    var d, origin := ds[i], offsetPage + 24 * |ds|;
    assert Describes(c, d, all, origin, memory(pfns[i]));
    DescAt(e, ds, i);
    SliceReads(disk, offsetPage, DescsBytes(e, ds), 24 * i, 24);
    DescRoundTrip(e, d);
    SliceReads(disk, origin, all, d.offset - origin, d.size);
  }
}

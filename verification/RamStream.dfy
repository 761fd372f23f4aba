/**
 The byte stream of live RAM migration (qemu/arch_init.c): how `ram_save_page`
 writes a page, with the block name left out while pages come from the same
 block, and how `ram_load` reads it back.
 */
module RamStream {
  import opened Basics
  import opened Xbzrle

  // ---------- The stream ----------

  /** A RAM block: its name and its length in bytes. */
  datatype Block = Block(name: seq<byte>, length: nat)

  /** Names fit in `char[256]`, are C strings and differ. */
  ghost predicate BlocksOk(blocks: seq<Block>) {
    && (forall i :: 0 <= i < |blocks| ==>
        |blocks[i].name| < 256 && 0 !in blocks[i].name && blocks[i].length < 0x1_0000_0000_0000_0000)
    && (forall i, j :: 0 <= i < j < |blocks| ==> blocks[i].name != blocks[j].name)
  }

  /** What `ram_save_page` may send for a page: page number `page` of block number `block`. */
  datatype Item =
    | Zero(block: nat, page: nat)
    | Full(block: nat, page: nat, data: seq<byte>)
    | Delta(block: nat, page: nat, enc: seq<byte>)

  predicate ItemOk(blocks: seq<Block>, it: Item) {
    && it.block < |blocks| && it.page < 0x10_0000_0000_0000
    && (it.Full? ==> |it.data| == 4096)
    && (it.Delta? ==> |it.enc| <= 4096)
  }

  function Flag(it: Item): nat {
    match it
    case Zero(_, _) => 0x02     // RAM_SAVE_FLAG_COMPRESS
    case Full(_, _, _) => 0x08  // RAM_SAVE_FLAG_PAGE
    case Delta(_, _, _) => 0x40 // RAM_SAVE_FLAG_XBZRLE
  }

  /** `save_block_hdr`: offset, flags, and the name unless RAM_SAVE_FLAG_CONTINUE is set. */
  function Header(blocks: seq<Block>, it: Item, cont: bool): seq<byte>
    requires BlocksOk(blocks) && ItemOk(blocks, it)
  {
    Be(it.page * 4096 + (if cont then 0x20 else 0) + Flag(it), 8) +
    if cont then [] else [|blocks[it.block].name|] + blocks[it.block].name
  }

  function Payload(it: Item): seq<byte> {
    match it
    case Zero(_, _) => [0]
    case Full(_, _, data) => data
    case Delta(_, _, enc) => [1] + Be(|enc|, 2) + enc
  }

  /** The bytes of some pages; `last` is `last_sent_block`. */
  function Bytes(blocks: seq<Block>, items: seq<Item>, last: Option<nat>): seq<byte>
    requires BlocksOk(blocks) && forall i :: 0 <= i < |items| ==> ItemOk(blocks, items[i])
    decreases |items|
  {
    if items == [] then []
    else
      var it := items[0];
      Header(blocks, it, last == Some(it.block)) + Payload(it) + Bytes(blocks, items[1..], Some(it.block))
  }

  // ---------- Loading ----------

  type Ram = map<(nat, nat), seq<byte>>

  /** The remembered block of `host_from_stream_offset`, and guest memory. */
  datatype Loader = Loader(block: Option<nat>, ram: Ram)

  datatype Loaded = Done(rest: seq<byte>, st: Loader) | More(rest: seq<byte>, st: Loader) | Bad

  /** Guest memory starts as zeroes. */
  function PageAt(ram: Ram, block: nat, page: nat): seq<byte> {
    if (block, page) in ram then ram[(block, page)] else Filled(0)
  }

  /** A C string ends at its first zero byte. */
  function CString(s: seq<byte>): (r: seq<byte>)
    ensures 0 !in s ==> r == s
  {
    if s == [] || s[0] == 0 then [] else [s[0]] + CString(s[1..])
  }

  function FindBlock(blocks: seq<Block>, name: seq<byte>): (r: Option<nat>)
    ensures r.Some? ==> r.value < |blocks| && blocks[r.value].name == name
    ensures r.None? ==> forall i :: 0 <= i < |blocks| ==> blocks[i].name != name
  {
    FindFrom(blocks, 0, name)
  }

  function FindFrom(blocks: seq<Block>, i: nat, name: seq<byte>): (r: Option<nat>)
    requires i <= |blocks|
    ensures r.Some? ==> i <= r.value < |blocks| && blocks[r.value].name == name
    ensures r.None? ==> forall j :: i <= j < |blocks| ==> blocks[j].name != name
    decreases |blocks| - i
  {
    if i == |blocks| then None
    else if blocks[i].name == name then Some(i)
    else FindFrom(blocks, i + 1, name)
  }

  predicate Bit(flags: nat, bit: nat)
    requires bit > 0
  {
    (flags / bit) % 2 == 1
  }

  datatype Host = Host(block: nat, rest: seq<byte>) | NoHost(remembered: Option<nat>)

  /** `host_from_stream_offset`: the remembered block, or the one named next. */
  function HostOf(blocks: seq<Block>, s: seq<byte>, cont: bool, block: Option<nat>): (r: Host)
    ensures r.Host? ==> |r.rest| <= |s|
  {
    if cont then
      if block.None? then NoHost(None) else Host(block.value, s)
    else if |s| < 1 || |s| < 1 + (s[0] as int) then NoHost(block)
    else
      var n := s[0] as int;
      var found := FindBlock(blocks, CString(s[1..1 + n]));
      if found.None? then NoHost(None) else Host(found.value, s[1 + n..])
  }

  /** `load_xbzrle` */
  function LoadDelta(s: seq<byte>, page: seq<byte>): (r: Option<(seq<byte>, seq<byte>)>)
    ensures r.Some? ==> |r.value.1| < |s|
  {
    if |s| < 3 || s[0] != 1 then None
    else
      var n := UnBe(s[1..3]);
      if n > 4096 || |s| < 3 + n then None
      else
        var d := Decode(s[3..3 + n], true, page, 0);
        if d.None? then None else Some((d.value.0, s[3 + n..]))
  }

  /** One entry of the block list: name, length, and what follows. */
  function SizeEntry(s: seq<byte>): (r: Option<(seq<byte>, nat, seq<byte>)>)
    ensures r.Some? ==> |r.value.2| < |s|
  {
    if |s| < 1 || |s| < 9 + (s[0] as int) then None
    else
      var n := s[0] as int;
      Some((CString(s[1..1 + n]), UnBe(s[1 + n..9 + n]), s[9 + n..]))
  }

  /**
   The list of blocks that `ram_save_setup` sends, and where reading goes on behind it.
   An entry that is not known here, or not with this length, ends the loop, but its
   error does not outlive it: the result of the record is that of the file alone.
   */
  function LoadSizes(blocks: seq<Block>, s: seq<byte>, total: nat): (r: Option<seq<byte>>)
    ensures r.Some? ==> |r.value| <= |s|
    decreases |s|
  {
    if total == 0 then Some(s)
    else
      var e := SizeEntry(s);
      if e.None? then None
      else
        var found := FindBlock(blocks, e.value.0);
        if found.None? || blocks[found.value].length != e.value.1 then Some(e.value.2)
        else LoadSizes(blocks, e.value.2, (total - e.value.1) % 0x1_0000_0000_0000_0000)
  }

  function Put(st: Loader, block: nat, page: nat, data: seq<byte>): Loader {
    Loader(Some(block), st.ram[(block, page) := data])
  }

  /** One turn of the loop of `ram_load`. */
  function LoadOne(blocks: seq<Block>, s: seq<byte>, st: Loader): (r: Loaded)
    ensures r.More? ==> |r.rest| < |s|
  {
    if |s| < 8 then Bad
    else
      var addr, s1 := UnBe(s[..8]), s[8..];
      var flags, page := addr % 4096, addr / 4096;
      if Bit(flags, 0x04) then
        var r := LoadSizes(blocks, s1, addr - flags);
        if r.None? then Bad else More(r.value, st)
      else if Bit(flags, 0x02) then
        var h := HostOf(blocks, s1, Bit(flags, 0x20), st.block);
        if h.NoHost? || |h.rest| < 1 then Bad
        else More(h.rest[1..], Put(st, h.block, page, Filled(h.rest[0])))
      else if Bit(flags, 0x08) then
        var h := HostOf(blocks, s1, Bit(flags, 0x20), st.block);
        if h.NoHost? || |h.rest| < 4096 then Bad
        else More(h.rest[4096..], Put(st, h.block, page, h.rest[..4096]))
      else if Bit(flags, 0x40) then
        var h := HostOf(blocks, s1, Bit(flags, 0x20), st.block);
        if h.NoHost? then Bad
        else
          var d := LoadDelta(h.rest, PageAt(st.ram, h.block, page));
          if d.None? then Bad else More(d.value.1, Put(st, h.block, page, d.value.0))
      else if Bit(flags, 0x10) && !Bit(flags, 0x80) then Done(s1, st)
      else Bad
  }

  /** `ram_load` */
  function Load(blocks: seq<Block>, s: seq<byte>, st: Loader): (r: Loaded)
    ensures !r.More?
    decreases |s|
  {
    var one := LoadOne(blocks, s, st);
    if one.More? then Load(blocks, one.rest, one.st) else one
  }

  // ---------- Round trip ----------

  /** What a page does to the destination: block, offset and contents. */
  function Apply(it: Item, st: Loader): Option<Loader> {
    match it
    case Zero(b, p) => Some(Put(st, b, p, Filled(0)))
    case Full(b, p, data) => Some(Put(st, b, p, data))
    case Delta(b, p, enc) =>
      var d := Decode(enc, true, PageAt(st.ram, b, p), 0);
      if d.None? then None else Some(Put(st, b, p, d.value.0))
  }

  function ApplyAll(items: seq<Item>, st: Loader): Option<Loader>
    decreases |items|
  {
    if items == [] then Some(st)
    else
      var r := Apply(items[0], st);
      if r.None? then None else ApplyAll(items[1..], r.value)
  }

  /** The first eight bytes give back offset and flags. */
  lemma HeaderNumber(blocks: seq<Block>, it: Item, cont: bool, rest: seq<byte>)
    requires BlocksOk(blocks) && ItemOk(blocks, it)
    ensures var s := Header(blocks, it, cont) + rest;
            var addr := UnBe(s[..8]);
            && addr / 4096 == it.page && addr % 4096 == (if cont then 0x20 else 0) + Flag(it)
            && s[8..] == (if cont then [] else [|blocks[it.block].name|] + blocks[it.block].name) + rest
  {
    hide Be, UnBe, Pow256, BlocksOk;
    var addr := it.page * 4096 + (if cont then 0x20 else 0) + Flag(it);
    Pow256Values();
    BeRoundTrip(addr, 8);
    var name := if cont then [] else [|blocks[it.block].name|] + blocks[it.block].name;
    var s := Header(blocks, it, cont) + rest;
    assert s == Be(addr, 8) + (name + rest);
    assert s[..8] == Be(addr, 8);
  }

  /** The name, or its absence, leads to the item's block. */
  lemma NameFinds(blocks: seq<Block>, it: Item, cont: bool, rest: seq<byte>, block: Option<nat>)
    requires BlocksOk(blocks) && ItemOk(blocks, it) && (cont ==> block == Some(it.block))
    ensures var name := if cont then [] else [|blocks[it.block].name|] + blocks[it.block].name;
            HostOf(blocks, name + rest, cont, block) == Host(it.block, rest)
  {
    if cont {
      assert [] + rest == rest;
    } else {
      var name := blocks[it.block].name;
      var s := [|name|] + name + rest;
      assert s[1..1 + |name|] == name && s[1 + |name|..] == rest;
      var found := FindBlock(blocks, name);
      assert found.Some?;
    }
  }

  lemma FlagBits(cont: bool)
    ensures var c := if cont then 0x20 else 0;
            && (Bit(c + 0x02, 0x20) <==> cont) && !Bit(c + 0x02, 0x04) && Bit(c + 0x02, 0x02)
            && (Bit(c + 0x08, 0x20) <==> cont) && !Bit(c + 0x08, 0x04) && !Bit(c + 0x08, 0x02) && Bit(c + 0x08, 0x08)
            && (Bit(c + 0x40, 0x20) <==> cont) && !Bit(c + 0x40, 0x04) && !Bit(c + 0x40, 0x02)
            && !Bit(c + 0x40, 0x08) && Bit(c + 0x40, 0x40)
  {
  }

  lemma DeltaLoads(enc: seq<byte>, page: seq<byte>, rest: seq<byte>)
    requires |enc| <= 4096 && Decode(enc, true, page, 0).Some?
    ensures LoadDelta([1] + Be(|enc|, 2) + enc + rest, page) == Some((Decode(enc, true, page, 0).value.0, rest))
  {
    hide Decode, Be;
    var s := [1] + Be(|enc|, 2) + enc + rest;
    Pow256Values();
    BeRoundTrip(|enc|, 2);
    assert s[1..3] == Be(|enc|, 2);
    assert s[3..3 + |enc|] == enc && s[3 + |enc|..] == rest;
  }

  /** One page is read back as what was sent, whether or not its block name was left out. */
  lemma ItemLoads(blocks: seq<Block>, it: Item, cont: bool, rest: seq<byte>, st: Loader)
    requires BlocksOk(blocks) && ItemOk(blocks, it) && (cont ==> st.block == Some(it.block))
    requires Apply(it, st).Some?
    ensures LoadOne(blocks, Header(blocks, it, cont) + Payload(it) + rest, st) == More(rest, Apply(it, st).value)
  {
    hide Be, UnBe, Bit, Header, HostOf, Decode, LoadDelta;
    var s, body := Header(blocks, it, cont) + Payload(it) + rest, Payload(it) + rest;
    assert s == Header(blocks, it, cont) + body;
    HeaderNumber(blocks, it, cont, body);
    HeaderLength(blocks, it, cont);
    NameFinds(blocks, it, cont, body, st.block);
    FlagBits(cont);
    match it {
      case Zero(b, p) =>
        assert body[0] == 0 && body[1..] == rest;
      case Full(b, p, data) =>
        assert body[..4096] == data && body[4096..] == rest;
      case Delta(b, p, enc) =>
        DeltaLoads(enc, PageAt(st.ram, b, p), rest);
    }
  }

  lemma HeaderLength(blocks: seq<Block>, it: Item, cont: bool)
    requires BlocksOk(blocks) && ItemOk(blocks, it)
    ensures |Header(blocks, it, cont)| >= 8
  {
  }

  /** RAM_SAVE_FLAG_EOS ends the load. */
  lemma EosLoads(blocks: seq<Block>, rest: seq<byte>, st: Loader)
    ensures Load(blocks, Be(0x10, 8) + rest, st) == Done(rest, st)
  {
    hide Be, UnBe, Load, LoadOne;
    Pow256Values();
    BeRoundTrip(0x10, 8);
    EndLoads(blocks, Be(0x10, 8), rest, st);
  }

  lemma EndLoads(blocks: seq<Block>, number: seq<byte>, rest: seq<byte>, st: Loader)
    requires |number| == 8 && UnBe(number) == 0x10
    ensures Load(blocks, number + rest, st) == Done(rest, st)
  {
    hide UnBe, HostOf, LoadDelta, LoadSizes;
    var s := number + rest;
    assert s[..8] == number && s[8..] == rest;
    assert LoadOne(blocks, s, st) == Done(rest, st);
  }

  /**
   Stream round trip: the loader does to its memory exactly what the saved pages
   say, and afterwards remembers the sender's `last_sent_block`.
   */
  lemma {:induction false} StreamRoundTrip(blocks: seq<Block>, items: seq<Item>, last: Option<nat>, rest: seq<byte>,
                                           st: Loader)
    requires BlocksOk(blocks) && forall i :: 0 <= i < |items| ==> ItemOk(blocks, items[i])
    requires st.block == last && ApplyAll(items, st).Some?
    ensures Load(blocks, Bytes(blocks, items, last) + (Be(0x10, 8) + rest), st) == Done(rest, ApplyAll(items, st).value)
    ensures ApplyAll(items, st).value.block == if items == [] then last else Some(items[|items| - 1].block)
    decreases |items|
  {
    hide Be, LoadOne, Header, Payload, Decode;
    var eos := Be(0x10, 8) + rest;
    if items == [] {
      assert Bytes(blocks, items, last) + eos == eos;
      EosLoads(blocks, rest, st);
    } else {
      var it := items[0];
      var cont := last == Some(it.block);
      var tail := Bytes(blocks, items[1..], Some(it.block));
      assert Bytes(blocks, items, last) + eos == Header(blocks, it, cont) + Payload(it) + (tail + eos);
      ItemLoads(blocks, it, cont, tail + eos, st);
      var st1 := Apply(it, st).value;
      StreamRoundTrip(blocks, items[1..], Some(it.block), rest, st1);
      assert |items| > 1 ==> items[1..][|items| - 2] == items[|items| - 1];
    }
  }

  // ---------- The setup section ----------

  function Total(blocks: seq<Block>): nat {
    if blocks == [] then 0 else blocks[0].length + Total(blocks[1..])
  }

  function SizeBytes(block: Block): seq<byte>
    requires |block.name| < 256
  {
    [|block.name|] + block.name + Be(block.length, 8)
  }

  /** The block list as `ram_save_setup` writes it. */
  function SizesBytes(blocks: seq<Block>): seq<byte>
    requires forall i :: 0 <= i < |blocks| ==> |blocks[i].name| < 256
  {
    if blocks == [] then [] else SizeBytes(blocks[0]) + SizesBytes(blocks[1..])
  }

  lemma SizeLoads(block: Block, rest: seq<byte>)
    requires |block.name| < 256 && 0 !in block.name && block.length < 0x1_0000_0000_0000_0000
    ensures SizeEntry(SizeBytes(block) + rest) == Some((block.name, block.length, rest))
  {
    var name, n := block.name, |block.name|;
    Pow256Values();
    BeRoundTrip(block.length, 8);
    hide Be, UnBe;
    var s := SizeBytes(block) + rest;
    assert s[1..1 + n] == name && s[1 + n..9 + n] == Be(block.length, 8) && s[9 + n..] == rest;
  }

  /** The destination has a block of this name and length. */
  lemma KnownIff(dst: seq<Block>, b: Block)
    requires BlocksOk(dst)
    ensures var found := FindBlock(dst, b.name); b in dst <==> found.Some? && dst[found.value].length == b.length
  {
    var found := FindBlock(dst, b.name);
    if b in dst {
      var k :| 0 <= k < |dst| && dst[k] == b;
      assert found.Some? && dst[found.value].name == dst[k].name;
    } else if found.Some? {
      assert dst[found.value] in dst;
    }
  }

  /** One entry of the list is read: checked off the total if it is known, and the last one read if not. */
  lemma SizeStep(dst: seq<Block>, b: Block, more: seq<byte>, total: nat)
    requires BlocksOk(dst) && |b.name| < 256 && 0 !in b.name && 0 < b.length <= total < 0x1_0000_0000_0000_0000
    ensures LoadSizes(dst, SizeBytes(b) + more, total) ==
            if b in dst then LoadSizes(dst, more, total - b.length) else Some(more)
  {
    hide SizeBytes, SizeEntry, FindBlock, BlocksOk;
    KnownIff(dst, b);
    SizeLoads(b, more);
  }

  lemma SizesEnd(blocks: seq<Block>, rest: seq<byte>)
    ensures SizesBytes([]) + rest == rest && LoadSizes(blocks, SizesBytes([]) + rest, Total([])) == Some(rest)
  {
    assert SizesBytes([]) + rest == rest;
  }

  lemma SizesCut(blocks: seq<Block>, k: nat, rest: seq<byte>)
    requires k < |blocks| && forall i :: 0 <= i < |blocks| ==> |blocks[i].name| < 256
    ensures Total(blocks[k..]) == blocks[k].length + Total(blocks[k + 1..])
    ensures SizesBytes(blocks[k..]) + rest == SizeBytes(blocks[k]) + (SizesBytes(blocks[k + 1..]) + rest)
    ensures |SizesBytes(blocks[k..])| > 0
  {
    assert blocks[k..][1..] == blocks[k + 1..] && blocks[k..][0] == blocks[k];
  }

  /** All blocks from number k on but the last are known. */
  predicate AllButLastKnown(dst: seq<Block>, src: seq<Block>, k: nat) {
    forall i :: k <= i < |src| - 1 ==> src[i] in dst
  }

  /** The list is read to its last byte if and only if all its blocks but the last are known. */
  lemma {:induction false} SizesLoad(dst: seq<Block>, src: seq<Block>, k: nat, rest: seq<byte>)
    requires BlocksOk(dst) && BlocksOk(src) && k <= |src| && Total(src[k..]) < 0x1_0000_0000_0000_0000
    requires forall i :: 0 <= i < |src| ==> src[i].length > 0
    ensures LoadSizes(dst, SizesBytes(src[k..]) + rest, Total(src[k..])) == Some(rest) <==> AllButLastKnown(dst, src, k)
    decreases |src| - k
  {
    hide SizeBytes, SizesBytes, LoadSizes, Total;
    if k == |src| {
      assert src[k..] == [];
      SizesEnd(dst, rest);
    } else {
      var more := SizesBytes(src[k + 1..]) + rest;
      SizesCut(src, k, rest);
      SizeStep(dst, src[k], more, Total(src[k..]));
      SizesLoad(dst, src, k + 1, rest);
      if k + 1 == |src| {
        assert src[k + 1..] == [];
        SizesEnd(dst, rest);
      } else {
        SizesCut(src, k + 1, rest);
      }
    }
  }

  /** The first section, as `ram_save_setup` writes it: the size of RAM, the block list, the end marker. */
  function SetupSection(blocks: seq<Block>): seq<byte>
    requires forall i :: 0 <= i < |blocks| ==> |blocks[i].name| < 256
  {
    Be(Total(blocks) + 0x04, 8) + SizesBytes(blocks) + Be(0x10, 8)
  }

  /** What both sides need to know of the blocks: whole pages, and 64 bits for all of them. */
  ghost predicate SizesOk(blocks: seq<Block>) {
    && BlocksOk(blocks) && Total(blocks) < 0x1_0000_0000_0000_0000
    && forall i :: 0 <= i < |blocks| ==> blocks[i].length > 0 && blocks[i].length % 4096 == 0
  }

  lemma {:induction false} TotalInPages(blocks: seq<Block>)
    requires forall i :: 0 <= i < |blocks| ==> blocks[i].length % 4096 == 0
    ensures Total(blocks) % 4096 == 0
  {
    if blocks != [] {
      TotalInPages(blocks[1..]);
    }
  }

  lemma SizeRecordLoads(dst: seq<Block>, number: seq<byte>, list: seq<byte>, st: Loader)
    requires |number| == 8 && UnBe(number) % 4096 == 0x04
    ensures var r := LoadSizes(dst, list, UnBe(number) - 0x04);
            LoadOne(dst, number + list, st) == if r.None? then Bad else More(r.value, st)
  {
    hide UnBe, LoadSizes, HostOf, LoadDelta;
    var s := number + list;
    assert s[..8] == number && s[8..] == list;
  }

  /**
   The record that `ram_save_setup` sends is read to its end if and only if the
   destination has every block of the source but perhaps the last.
   */
  lemma SetupRecordLoads(dst: seq<Block>, src: seq<Block>, rest: seq<byte>, st: Loader)
    requires BlocksOk(dst) && SizesOk(src)
    ensures LoadOne(dst, Be(Total(src) + 0x04, 8) + (SizesBytes(src) + rest), st) == More(rest, st) <==>
            AllButLastKnown(dst, src, 0)
  {
    hide Be, UnBe, LoadOne, LoadSizes, SizesBytes, Pow256;
    Pow256Values();
    TotalInPages(src);
    BeRoundTrip(Total(src) + 0x04, 8);
    assert src[0..] == src;
    SizesLoad(dst, src, 0, rest);
    SizeRecordLoads(dst, Be(Total(src) + 0x04, 8), SizesBytes(src) + rest, st);
  }

  /** `ram_load` accepts the first section on such a machine, and changes nothing. */
  lemma SetupLoads(dst: seq<Block>, src: seq<Block>, rest: seq<byte>, st: Loader)
    requires BlocksOk(dst) && SizesOk(src) && AllButLastKnown(dst, src, 0)
    ensures Load(dst, SetupSection(src) + rest, st) == Done(rest, st)
  {
    hide Be, UnBe, LoadOne, LoadSizes, SizesBytes, Pow256;
    var number, list, end := Be(Total(src) + 0x04, 8), SizesBytes(src), Be(0x10, 8);
    SetupRecordLoads(dst, src, end + rest, st);
    assert SetupSection(src) + rest == number + (list + (end + rest));
    EosLoads(dst, rest, st);
  }

  /** A destination whose only block is half as long ends the load well. */
  lemma MismatchLoads(rest: seq<byte>, st: Loader)
    ensures var src, dst := [Block([1], 8192)], [Block([1], 4096)];
            SizesOk(src) && SizesOk(dst) && src[0] !in dst && Load(dst, SetupSection(src) + rest, st) == Done(rest, st)
  {
    hide Load, SetupSection;
    var src, dst := [Block([1], 8192)], [Block([1], 4096)];
    assert src[1..] == [] && Total(src) == 8192 && dst[1..] == [] && Total(dst) == 4096;
    SetupLoads(dst, src, rest, st);
  }

  /** `ram_load` called for n sections one after the other. */
  function LoadSections(blocks: seq<Block>, s: seq<byte>, n: nat, st: Loader): Loaded
    decreases n
  {
    if n == 0 then Done(s, st)
    else
      var r := Load(blocks, s, st);
      if r.Done? then LoadSections(blocks, r.rest, n - 1, r.st) else Bad
  }

  /** One more section. */
  lemma {:induction false} SectionsMore(blocks: seq<Block>, s: seq<byte>, n: nat, st: Loader, mid: seq<byte>,
                                        st1: Loader, rest: seq<byte>, st2: Loader)
    requires LoadSections(blocks, s, n, st) == Done(mid, st1) && Load(blocks, mid, st1) == Done(rest, st2)
    ensures LoadSections(blocks, s, n + 1, st) == Done(rest, st2)
    decreases n
  {
    hide Load;
    if n == 0 {
      assert LoadSections(blocks, rest, 0, st2) == Done(rest, st2);
    } else {
      var r := Load(blocks, s, st);
      SectionsMore(blocks, r.rest, n - 1, r.st, mid, st1, rest, st2);
    }
  }

  /** The destination side. */
  class Destination {
    var block: Option<nat>
    var ram: Ram

    constructor ()
      ensures block == None && ram == map[]
    {
      block, ram := None, map[];
    }

    /** `ram_load`: records until the end marker or the first bad one. */
    method RamLoad(blocks: seq<Block>, f: seq<byte>) returns (ret: int, rest: seq<byte>)
      modifies this
      ensures var r := Load(blocks, f, Loader(old(block), old(ram)));
              if ret < 0 then r.Bad? else r == Done(rest, Loader(block, ram))
    {
      rest := f;
      while true
        invariant Load(blocks, f, Loader(old(block), old(ram))) == Load(blocks, rest, Loader(block, ram))
        decreases |rest|
      {
        var one := LoadOne(blocks, rest, Loader(block, ram));
        if one.Bad? {
          return -22, rest;
        }
        block, ram := one.st.block, one.st.ram;
        rest := one.rest;
        if one.Done? {
          return 0, rest;
        }
      }
    }
  }
}

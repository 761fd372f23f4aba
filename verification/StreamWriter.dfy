/**
 The migration stream as it is written (qemu/arch_init.c): pages one by one, sections
 closed by an end marker, and what a destination that loads the sections has then.
 */
module StreamWriter {
  import opened Basics
  import opened RamStream

  ghost predicate DstOk(ram: Ram) {
    forall b, o {:trigger PageAt(ram, b, o)} :: |PageAt(ram, b, o)| == 4096
  }

  ghost predicate OthersKept(ram: Ram, ram': Ram, b: nat, o: nat) {
    forall c: nat, p: nat {:trigger PageAt(ram', c, p)} :: (c != b || p != o) ==>
        PageAt(ram', c, p) == PageAt(ram, c, p)
  }

  const Nothing := Loader(None, map[])

  /** The items sent so far, and the destination after loading them. */
  ghost predicate SentOk(blocks: seq<Block>, sent: seq<Item>, dst: Loader) {
    && BlocksOk(blocks) && (forall i :: 0 <= i < |sent| ==> ItemOk(blocks, sent[i]))
    && ApplyAll(sent, Nothing) == Some(dst) && DstOk(dst.ram)
  }

  lemma NothingSent(blocks: seq<Block>)
    requires BlocksOk(blocks)
    ensures SentOk(blocks, [], Nothing)
  {
  }

  lemma {:induction false} ApplyAllSplit(items: seq<Item>, more: seq<Item>, st: Loader)
    requires ApplyAll(items, st).Some?
    ensures ApplyAll(items + more, st) == ApplyAll(more, ApplyAll(items, st).value)
  {
    if items == [] {
      assert items + more == more;
    } else {
      assert (items + more)[1..] == items[1..] + more;
      ApplyAllSplit(items[1..], more, Apply(items[0], st).value);
    }
  }

  lemma SendOk(blocks: seq<Block>, sent: seq<Item>, dst: Loader, it: Item)
    requires SentOk(blocks, sent, dst) && ItemOk(blocks, it) && Apply(it, dst).Some?
    requires |PageAt(Apply(it, dst).value.ram, it.block, it.page)| == 4096
    ensures SentOk(blocks, sent + [it], Apply(it, dst).value)
    ensures OthersKept(dst.ram, Apply(it, dst).value.ram, it.block, it.page)
  {
    ApplyAllSplit(sent, [it], Nothing);
    assert ApplyAll([it], dst) == Apply(it, dst);
    ApplyOthers(it, dst);
    hide Apply, ApplyAll, PageAt;
    var dst' := Apply(it, dst).value;
    forall b: nat, o: nat ensures |PageAt(dst'.ram, b, o)| == 4096 {
      assert b != it.block || o != it.page ==> PageAt(dst'.ram, b, o) == PageAt(dst.ram, b, o);
    }
  }

  lemma ApplyOthers(it: Item, dst: Loader)
    requires Apply(it, dst).Some?
    ensures OthersKept(dst.ram, Apply(it, dst).value.ram, it.block, it.page)
    ensures Apply(it, dst).value.block == Some(it.block)
  {
  }

  function LastOf(items: seq<Item>, last: Option<nat>): Option<nat> {
    if items == [] then last else Some(items[|items| - 1].block)
  }

  lemma {:induction false} BytesMore(blocks: seq<Block>, items: seq<Item>, it: Item, last: Option<nat>)
    requires BlocksOk(blocks) && (forall i :: 0 <= i < |items| ==> ItemOk(blocks, items[i])) && ItemOk(blocks, it)
    ensures Bytes(blocks, items + [it], last) ==
            Bytes(blocks, items, last) + (Header(blocks, it, LastOf(items, last) == Some(it.block)) + Payload(it))
    decreases |items|
  {
    hide Header, Payload, BlocksOk, ItemOk;
    if items == [] {
      assert items + [it] == [it];
      assert Bytes(blocks, [it][1..], Some(it.block)) == [];
    } else {
      assert (items + [it])[1..] == items[1..] + [it];
      BytesMore(blocks, items[1..], it, Some(items[0].block));
    }
  }

  /** One section of the stream takes the destination from where the last left it to where the sender says it is. */
  lemma SectionLoads(blocks: seq<Block>, sent: seq<Item>, dst: Loader, sent': seq<Item>, dst': Loader, rest: seq<byte>)
    requires SentOk(blocks, sent, dst) && SentOk(blocks, sent', dst') && sent <= sent'
    ensures Load(blocks, Bytes(blocks, sent'[|sent|..], dst.block) + (Be(0x10, 8) + rest), dst) == Done(rest, dst')
    ensures dst'.block == LastOf(sent'[|sent|..], dst.block)
  {
    hide Load, Bytes, Be, ItemOk, Apply, DstOk;
    var items := sent'[|sent|..];
    assert sent + items == sent';
    ApplyAllSplit(sent, items, Nothing);
    StreamRoundTrip(blocks, items, dst.block, rest, dst);
  }

  /** A destination that loads n sections of these bytes has this memory, and has read them all. */
  ghost predicate Loads(blocks: seq<Block>, f: seq<byte>, n: nat, dst: Loader) {
    forall rest: seq<byte> {:trigger f + rest} :: LoadSections(blocks, f + rest, n, Nothing) == Done(rest, dst)
  }

  lemma SetupIsLoaded(blocks: seq<Block>)
    requires SizesOk(blocks)
    ensures Loads(blocks, SetupSection(blocks), 1, Nothing)
  {
    hide Load, SetupSection;
    forall rest: seq<byte> {:trigger SetupSection(blocks) + rest}
      ensures LoadSections(blocks, SetupSection(blocks) + rest, 1, Nothing) == Done(rest, Nothing)
    {
      var s := SetupSection(blocks) + rest;
      SetupLoads(blocks, blocks, rest, Nothing);
      assert LoadSections(blocks, s, 0, Nothing) == Done(s, Nothing);
      SectionsMore(blocks, s, 0, Nothing, s, Nothing, rest, Nothing);
    }
  }

  lemma SectionIsLoaded(blocks: seq<Block>, f: seq<byte>, n: nat, sent: seq<Item>, dst: Loader, sent': seq<Item>,
                        dst': Loader)
    requires Loads(blocks, f, n, dst) && SentOk(blocks, sent, dst) && SentOk(blocks, sent', dst') && sent <= sent'
    ensures Loads(blocks, f + Bytes(blocks, sent'[|sent|..], dst.block) + Be(0x10, 8), n + 1, dst')
  {
    hide Load, LoadSections, Bytes, Be, SentOk;
    SentParts(blocks, sent', dst');
    var pages, end := Bytes(blocks, sent'[|sent|..], dst.block), Be(0x10, 8);
    var f' := f + pages + end;
    forall rest: seq<byte> {:trigger f' + rest}
      ensures LoadSections(blocks, f' + rest, n + 1, Nothing) == Done(rest, dst')
    {
      var mid := pages + (end + rest);
      assert f' + rest == f + mid;
      SectionLoads(blocks, sent, dst, sent', dst', rest);
      SectionsMore(blocks, f' + rest, n, Nothing, mid, dst, rest, dst');
    }
  }

  class Writer {
    const blocks: seq<Block>
    var f: seq<byte>
    ghost var sent: seq<Item>
    ghost var dst: Loader
    // what the sections closed so far hold
    ghost var sections: nat
    ghost var closed: seq<byte>
    ghost var sent0: seq<Item>
    ghost var dst0: Loader

    ghost predicate Valid()
      reads this
    {
      && SentOk(blocks, sent, dst) && SentOk(blocks, sent0, dst0) && sent0 <= sent
      && Loads(blocks, closed, sections, dst0) && f == closed + Bytes(blocks, sent[|sent0|..], dst0.block)
      && dst.block == LastOf(sent[|sent0|..], dst0.block)
    }

    /** The first section: the size of RAM and the list of blocks. */
    constructor (blocks: seq<Block>)
      requires SizesOk(blocks)
      ensures Valid() && this.blocks == blocks && sent == [] && dst == Nothing && sections == 1
      ensures Loads(blocks, f, 1, Nothing)
    {
      this.blocks := blocks;
      f := SetupSection(blocks);
      sent, dst, sections, closed, sent0, dst0 := [], Nothing, 1, SetupSection(blocks), [], Nothing;
      new;
      hide SetupSection, Loads, SizesOk;
      NothingSent(blocks);
      SetupIsLoaded(blocks);
    }

    /** A page record; `cont` leaves the block name out, when the last page was of the same block. */
    method Send(it: Item, cont: bool) returns (bytes: nat)
      requires Valid() && ItemOk(blocks, it) && Apply(it, dst).Some? && cont == (dst.block == Some(it.block))
      requires |PageAt(Apply(it, dst).value.ram, it.block, it.page)| == 4096
      modifies `f, `sent, `dst
      ensures Valid() && sent == old(sent) + [it] && Some(dst) == Apply(it, old(dst)) && dst.block == Some(it.block)
      ensures bytes == |f| - |old(f)| > 0
      ensures OthersKept(old(dst).ram, dst.ram, it.block, it.page)
    {
      hide Loads, SentOk, Bytes, Apply, OthersKept, PageAt, Be, ItemOk, Header, Payload;
      SentParts(blocks, sent, dst);
      SendOk(blocks, sent, dst, it);
      ApplyOthers(it, dst);
      BytesMore(blocks, sent[|sent0|..], it, dst0.block);
      RecordLength(blocks, it, cont);
      assert (sent + [it])[|sent0|..] == sent[|sent0|..] + [it];
      bytes := 8;
      if !cont {
        bytes := bytes + 1 + |blocks[it.block].name|;
      }
      match it {
        case Zero(_, _) => bytes := bytes + 1;
        case Full(_, _, _) => bytes := bytes + 4096;
        case Delta(_, _, enc) => bytes := bytes + |enc| + 1 + 2;
      }
      f := f + (Header(blocks, it, cont) + Payload(it));
      sent := sent + [it];
      dst := Apply(it, dst).value;
    }

    /** RAM_SAVE_FLAG_EOS: what has been sent is now what a destination has loaded. */
    method EndSection()
      requires Valid()
      modifies this
      ensures Valid() && sent == old(sent) && dst == old(dst) && sections == old(sections) + 1 && f == closed
      ensures dst0 == dst
      ensures Loads(blocks, f, sections, dst) && |f| == |old(f)| + 8
    {
      hide Loads, SentOk, Bytes, Be;
      SentParts(blocks, sent, dst);
      SectionIsLoaded(blocks, closed, sections, sent0, dst0, sent, dst);
      f := f + Be(0x10, 8);
      closed, sent0, dst0, sections := f, sent, dst, sections + 1;
      assert sent[|sent0|..] == [];
      NoBytes(blocks, dst0.block);
    }
  }

  lemma SentParts(blocks: seq<Block>, sent: seq<Item>, dst: Loader)
    requires SentOk(blocks, sent, dst)
    ensures BlocksOk(blocks) && forall i :: 0 <= i < |sent| ==> ItemOk(blocks, sent[i])
  {
  }

  lemma RecordLength(blocks: seq<Block>, it: Item, cont: bool)
    requires BlocksOk(blocks) && ItemOk(blocks, it)
    ensures it.block < |blocks|
    ensures |Header(blocks, it, cont)| == 8 + if cont then 0 else 1 + |blocks[it.block].name|
    ensures |Payload(it)| ==
            match it { case Zero(_, _) => 1 case Full(_, _, _) => 4096 case Delta(_, _, enc) => |enc| + 1 + 2 }
  {
  }

  lemma NoBytes(blocks: seq<Block>, last: Option<nat>)
    requires BlocksOk(blocks)
    ensures Bytes(blocks, [], last) == []
  {
  }
}

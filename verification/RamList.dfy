/**
 The RAM block list of qemu/exec.c: best-fit placement of a new block, the list
 ordered by length, removal, and the lookup that tries the most recently used
 block first.  Offsets are 64-bit; RAM_ADDR_MAX is the largest of them.
 */
module RamList {
  import opened Basics

  datatype Block = Block(offset: nat, length: nat, id: nat)

  const RAM_ADDR_MAX: nat := 0xFFFF_FFFF_FFFF_FFFF

  function End(b: Block): nat {
    b.offset + b.length
  }

  predicate Inside(b: Block, addr: nat) {
    b.offset <= addr < End(b)
  }

  /** `addr - block->offset < block->length` in unsigned arithmetic. */
  predicate Hits(b: Block, addr: nat) {
    (addr - b.offset) % 0x1_0000_0000_0000_0000 < b.length
  }

  lemma HitsInside(b: Block, addr: nat)
    requires End(b) <= RAM_ADDR_MAX && addr <= RAM_ADDR_MAX
    ensures Hits(b, addr) <==> Inside(b, addr)
  {
  }

  predicate Apart(b: Block, c: Block) {
    End(b) <= c.offset || End(c) <= b.offset
  }

  /** Blocks do not overlap, fit in the address range and are sorted from biggest to smallest. */
  ghost predicate ListOk(blocks: seq<Block>) {
    && (forall i :: 0 <= i < |blocks| ==> blocks[i].length > 0 && End(blocks[i]) <= RAM_ADDR_MAX)
    && (forall i, j :: 0 <= i < j < |blocks| ==> Apart(blocks[i], blocks[j]))
    && (forall i, j :: 0 <= i < j < |blocks| ==> blocks[i].length >= blocks[j].length)
  }

  /** The first block start at or after `end`, or RAM_ADDR_MAX. */
  function NextStart(blocks: seq<Block>, end: nat): (next: nat)
    requires end <= RAM_ADDR_MAX
    ensures end <= next <= RAM_ADDR_MAX
    ensures forall j :: 0 <= j < |blocks| && blocks[j].offset >= end ==> next <= blocks[j].offset
  {
    if blocks == [] then RAM_ADDR_MAX
    else
      var n, b := NextStart(blocks[..|blocks| - 1], end), blocks[|blocks| - 1];
      if b.offset >= end && b.offset < n then b.offset else n
  }

  lemma {:induction false} NextIsStart(blocks: seq<Block>, end: nat)
    requires end <= RAM_ADDR_MAX
    ensures NextStart(blocks, end) == RAM_ADDR_MAX || exists j ::
        0 <= j < |blocks| && blocks[j].offset == NextStart(blocks, end)
  {
    if blocks != [] {
      var n := |blocks| - 1;
      NextIsStart(blocks[..n], end);
      assert blocks[n].offset == NextStart(blocks, end) || NextStart(blocks, end) == NextStart(blocks[..n], end);
    }
  }

  /** The size of the gap that begins where a block ends. */
  function Gap(blocks: seq<Block>, b: Block): nat
    requires End(b) <= RAM_ADDR_MAX
  {
    NextStart(blocks, End(b)) - End(b)
  }

  /** None of the first n blocks ends at a gap of at least `size` but less than `g`. */
  ghost predicate NoBetter(blocks: seq<Block>, size: nat, n: nat, g: nat)
    requires ListOk(blocks) && n <= |blocks|
  {
    forall j :: 0 <= j < n && size <= Gap(blocks, blocks[j]) ==> g <= Gap(blocks, blocks[j])
  }

  /** Block i ends at a sufficient gap, and no block ends at a smaller sufficient one. */
  ghost predicate BestFit(blocks: seq<Block>, size: nat, i: nat)
    requires ListOk(blocks) && i < |blocks|
  {
    size <= Gap(blocks, blocks[i]) && NoBetter(blocks, size, |blocks|, Gap(blocks, blocks[i]))
  }

  /** The inner loop of `find_ram_offset`. */
  method FindNext(blocks: seq<Block>, end: nat) returns (next: nat)
    requires end <= RAM_ADDR_MAX
    ensures next == NextStart(blocks, end)
  {
    next := RAM_ADDR_MAX;
    for k := 0 to |blocks|
      invariant next == NextStart(blocks[..k], end)
    {
      assert blocks[..k + 1][..k] == blocks[..k];
      if blocks[k].offset >= end {
        next := if next < blocks[k].offset then next else blocks[k].offset;
      }
    }
    assert blocks[..|blocks|] == blocks;
  }

  lemma NoneBetter(blocks: seq<Block>, size: nat, g: nat)
    requires ListOk(blocks)
    ensures NoBetter(blocks, size, 0, g)
  {
  }

  lemma BetterNext(blocks: seq<Block>, size: nat, n: nat, g: nat)
    requires ListOk(blocks) && n < |blocks| && NoBetter(blocks, size, n, g)
    ensures var h := Gap(blocks, blocks[n]); NoBetter(blocks, size, n + 1, if size <= h < g then h else g)
  {
    hide NextStart, ListOk;
  }

  lemma NoneFits(blocks: seq<Block>, size: nat)
    requires ListOk(blocks) && NoBetter(blocks, size, |blocks|, RAM_ADDR_MAX) && size > 0
    ensures forall j :: 0 <= j < |blocks| ==> Gap(blocks, blocks[j]) < size
  {
  }

  /** `find_ram_offset`; None is its abort. */
  method FindRamOffset(blocks: seq<Block>, size: nat) returns (r: Option<nat>)
    requires ListOk(blocks) && 0 < size <= RAM_ADDR_MAX
    ensures blocks == [] ==> r == Some(0)
    ensures r.Some? && blocks != [] ==>
              exists i :: 0 <= i < |blocks| && r.value == End(blocks[i]) && BestFit(blocks, size, i)
    ensures r.None? ==> forall j :: 0 <= j < |blocks| ==> Gap(blocks, blocks[j]) < size
  {
    hide NoBetter, Apart;
    if blocks == [] {
      return Some(0);
    }
    var offset: nat, mingap: nat := RAM_ADDR_MAX, RAM_ADDR_MAX;
    ghost var best := 0;
    NoneBetter(blocks, size, mingap);
    for i := 0 to |blocks|
      invariant mingap <= RAM_ADDR_MAX && NoBetter(blocks, size, i, mingap)
      invariant if offset == RAM_ADDR_MAX then mingap == RAM_ADDR_MAX
                else && 0 <= best < i && offset == End(blocks[best])
                     && mingap == Gap(blocks, blocks[best]) && size <= mingap
    {
      var end := End(blocks[i]);
      var next := FindNext(blocks, end);
      BetterNext(blocks, size, i, mingap);
      if next - end >= size && next - end < mingap {
        offset, mingap := end, next - end;
        best := i;
      }
    }
    if offset == RAM_ADDR_MAX {
      NoneFits(blocks, size);
      return None;
    }
    assert BestFit(blocks, size, best);
    return Some(offset);
  }

  /** A block at the offset overlaps nothing and fits. */
  ghost predicate FreeAt(blocks: seq<Block>, offset: nat, size: nat) {
    && offset + size <= RAM_ADDR_MAX
    && forall j :: 0 <= j < |blocks| ==> Apart(blocks[j], Block(offset, size, 0))
  }

  /** A gap is all the room there is at the end of a block: what is free there is what fits in the gap. */
  lemma GapIsRoom(blocks: seq<Block>, i: nat, size: nat)
    requires ListOk(blocks) && i < |blocks| && size > 0
    ensures FreeAt(blocks, End(blocks[i]), size) <==> size <= Gap(blocks, blocks[i])
  {
    var end := End(blocks[i]);
    NextIsStart(blocks, end);
    if size <= Gap(blocks, blocks[i]) {
      forall j | 0 <= j < |blocks| ensures Apart(blocks[j], Block(end, size, 0)) {
        Disjoint(blocks, i, j);
      }
    } else if NextStart(blocks, end) != RAM_ADDR_MAX {
      var j :| 0 <= j < |blocks| && blocks[j].offset == NextStart(blocks, end);
      assert !Apart(blocks[j], Block(end, size, 0));
    }
  }

  /** The first block that holds the address, as the full search finds it. */
  function Search(blocks: seq<Block>, addr: nat): (r: Option<Block>)
    ensures r.Some? ==> r.value in blocks && Hits(r.value, addr)
    ensures r.None? ==> forall b :: b in blocks ==> !Hits(b, addr)
  {
    if blocks == [] then None
    else if Hits(blocks[0], addr) then Some(blocks[0])
    else Search(blocks[1..], addr)
  }

  /** At most one block holds an address, so any block that does is the one the search finds. */
  lemma SearchUnique(blocks: seq<Block>, addr: nat, b: Block)
    requires ListOk(blocks) && addr <= RAM_ADDR_MAX && b in blocks && Hits(b, addr)
    ensures Search(blocks, addr) == Some(b)
  {
    var c := Search(blocks, addr).value;
    HitsInside(b, addr);
    HitsInside(c, addr);
    var i :| 0 <= i < |blocks| && blocks[i] == b;
    var j :| 0 <= j < |blocks| && blocks[j] == c;
    Disjoint(blocks, i, j);
  }

  lemma Disjoint(blocks: seq<Block>, i: nat, j: nat)
    requires ListOk(blocks) && i < |blocks| && j < |blocks|
    ensures i != j ==> Apart(blocks[i], blocks[j])
  {
    assert i < j ==> Apart(blocks[i], blocks[j]);
    assert j < i ==> Apart(blocks[j], blocks[i]);
  }

  /** Insertion before the first smaller block. */
  lemma InsertOk(blocks: seq<Block>, b: Block, k: nat)
    requires ListOk(blocks) && k <= |blocks| && b.length > 0 && FreeAt(blocks, b.offset, b.length)
    requires forall j :: 0 <= j < k ==> blocks[j].length >= b.length
    requires k < |blocks| ==> blocks[k].length < b.length
    ensures ListOk(blocks[..k] + [b] + blocks[k..])
  {
    var r := blocks[..k] + [b] + blocks[k..];
    forall j | 0 <= j < |blocks| ensures Apart(blocks[j], b) {
      assert Apart(blocks[j], Block(b.offset, b.length, 0));
    }
    forall i, j | 0 <= i < j < |r| ensures Apart(r[i], r[j]) && r[i].length >= r[j].length {
      if i < k && j > k {
        assert Apart(blocks[i], blocks[j - 1]);
      } else if i == k {
        assert Apart(blocks[j - 1], b);
        assert k < j - 1 ==> blocks[k].length >= blocks[j - 1].length;
      } else if i > k {
        assert Apart(blocks[i - 1], blocks[j - 1]);
      }
    }
  }

  class RamBlocks {
    var blocks: seq<Block>
    var mru: Option<Block>
    var version: nat

    ghost predicate Valid()
      reads this
    {
      ListOk(blocks) && (mru.Some? ==> mru.value in blocks)
    }

    constructor ()
      ensures Valid() && blocks == []
    {
      blocks, mru, version := [], None, 0;
    }

    /** `ram_block_add`; None is the abort of `find_ram_offset`. */
    method Add(length: nat, id: nat) returns (r: Option<nat>)
      requires Valid() && 0 < length <= RAM_ADDR_MAX
      modifies this
      ensures Valid()
      ensures r.Some? ==> exists k ::
          0 <= k <= |old(blocks)| && blocks == old(blocks)[..k] + [Block(r.value, length, id)] + old(blocks)[k..]
      ensures r.Some? && old(blocks) != [] ==>
                exists i :: 0 <= i < |old(blocks)| && r.value == End(old(blocks)[i]) && BestFit(old(blocks), length, i)
      ensures r.None? ==> blocks == old(blocks) && forall j :: 0 <= j < |blocks| ==> Gap(blocks, blocks[j]) < length
    {
      r := FindRamOffset(blocks, length);
      if r.None? {
        return;
      }
      if blocks != [] {
        ghost var i :| 0 <= i < |blocks| && r.value == End(blocks[i]) && BestFit(blocks, length, i);
        GapIsRoom(blocks, i, length);
      }
      Insert(Block(r.value, length, id));
    }

    /** The new block goes before the first that is shorter. */
    method Insert(b: Block)
      requires Valid() && b.length > 0 && FreeAt(blocks, b.offset, b.length)
      modifies this
      ensures Valid()
      ensures exists k :: 0 <= k <= |old(blocks)| && blocks == old(blocks)[..k] + [b] + old(blocks)[k..]
    {
      var k := 0;
      while k < |blocks| && blocks[k].length >= b.length
        invariant 0 <= k <= |blocks| && forall j :: 0 <= j < k ==> blocks[j].length >= b.length
      {
        k := k + 1;
      }
      InsertOk(blocks, b, k);
      blocks := blocks[..k] + [b] + blocks[k..];
      mru := None;
      version := version + 1;
    }

    /** `qemu_ram_free` */
    method Free(addr: nat)
      requires Valid()
      modifies this
      ensures Valid()
      ensures (forall i :: 0 <= i < |old(blocks)| ==> old(blocks)[i].offset != addr) ==> blocks == old(blocks)
      ensures forall i :: 0 <= i < |old(blocks)| && old(blocks)[i].offset == addr ==>
                blocks == old(blocks)[..i] + old(blocks)[i + 1..]
    {
      var i := 0;
      while i < |blocks| && blocks[i].offset != addr
        invariant i <= |blocks| && forall j :: 0 <= j < i ==> blocks[j].offset != addr
      {
        i := i + 1;
      }
      if i < |blocks| {
        RemoveOk(blocks, i);
        blocks := blocks[..i] + blocks[i + 1..];
        mru := None;
        version := version + 1;
      }
    }

    /** `qemu_get_ram_block`: the fast path agrees with the full search; None is the abort. */
    method Get(addr: nat) returns (r: Option<Block>)
      requires Valid() && addr <= RAM_ADDR_MAX
      modifies `mru
      ensures Valid() && r == Search(blocks, addr)
      ensures r.Some? <==> exists b :: b in blocks && Inside(b, addr)
    {
      forall b | b in blocks ensures Hits(b, addr) <==> Inside(b, addr) {
        HitsInside(b, addr);
      }
      if mru.Some? && Hits(mru.value, addr) {
        SearchUnique(blocks, addr, mru.value);
        return mru;
      }
      var i := 0;
      while i < |blocks| && !Hits(blocks[i], addr)
        invariant i <= |blocks| && Search(blocks, addr) == Search(blocks[i..], addr)
      {
        i := i + 1;
      }
      if i == |blocks| {
        return None;
      }
      r := Some(blocks[i]);
      mru := r;
    }
  }

  lemma RemoveOk(blocks: seq<Block>, i: nat)
    requires ListOk(blocks) && i < |blocks|
    ensures ListOk(blocks[..i] + blocks[i + 1..])
    ensures forall j :: 0 <= j < |blocks| && j != i ==> blocks[j].offset != blocks[i].offset
  {
    forall j | 0 <= j < |blocks| && j != i ensures blocks[j].offset != blocks[i].offset {
      Disjoint(blocks, i, j);
    }
    var r := blocks[..i] + blocks[i + 1..];
    forall a, b | 0 <= a < b < |r| ensures Apart(r[a], r[b]) && r[a].length >= r[b].length {
      var a', b' := if a < i then a else a + 1, if b < i then b else b + 1;
      assert Apart(blocks[a'], blocks[b']);
    }
  }
}

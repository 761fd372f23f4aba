/**
 Guest memory page by page (qemu/dump.c): `get_next_page` visits every page frame of
 every block once, in order.
 */
module GuestPages {

  /** A block of guest memory in page frames, from `start` up to `end`. */
  datatype Block = Block(start: nat, end: nat)

  /** Blocks hold pages and come in ascending order. */
  ghost predicate Sorted(blocks: seq<Block>) {
    && blocks != [] && (forall i :: 0 <= i < |blocks| ==> blocks[i].start < blocks[i].end)
    && forall i, j :: 0 <= i < j < |blocks| ==> blocks[i].end <= blocks[j].start
  }

  predicate Holds(b: Block, pfn: nat) {
    b.start <= pfn < b.end
  }

  ghost predicate InBlocks(blocks: seq<Block>, pfn: nat) {
    exists i :: 0 <= i < |blocks| && Holds(blocks[i], pfn)
  }

  /** Pages of the first i blocks. */
  function Pages(blocks: seq<Block>, i: nat): nat
    requires i <= |blocks| && forall j :: 0 <= j < |blocks| ==> blocks[j].start < blocks[j].end
  {
    if i == 0 then 0 else Pages(blocks, i - 1) + (blocks[i - 1].end - blocks[i - 1].start)
  }

  /** Where the iteration stands after n pages; before the first there is no block. */
  datatype Iter = Start | At(block: nat, pfn: nat) | End

  ghost predicate After(blocks: seq<Block>, it: Iter, n: nat)
    requires Sorted(blocks)
  {
    match it
    case Start => n == 0
    case At(i, pfn) => i < |blocks| && Holds(blocks[i], pfn) && n == Pages(blocks, i) + (pfn - blocks[i].start) + 1
    case End => n == Pages(blocks, |blocks|)
  }

  /** The n-th page of the list. */
  ghost predicate IsPage(blocks: seq<Block>, n: nat, pfn: nat)
    requires Sorted(blocks)
  {
    exists i :: 0 <= i < |blocks| && Holds(blocks[i], pfn) && n == Pages(blocks, i) + (pfn - blocks[i].start)
  }

  /** No block holds a frame before the first, or between two that follow one another. */
  lemma NoneBetween(blocks: seq<Block>, i: nat, p: nat)
    requires Sorted(blocks) && i < |blocks|
    ensures i == 0 && p < blocks[0].start ==> !InBlocks(blocks, p)
    ensures i > 0 && blocks[i - 1].end <= p < blocks[i].start ==> !InBlocks(blocks, p)
  {
    forall k | 0 <= k < |blocks| && p < blocks[i].start && (i > 0 ==> blocks[i - 1].end <= p)
      ensures !Holds(blocks[k], p)
    {
      assert k < i - 1 ==> blocks[k].end <= blocks[i - 1].start;
      assert k > i ==> blocks[i].end <= blocks[k].start;
    }
  }

  /** `get_next_page` */
  method GetNextPage(blocks: seq<Block>, it: Iter, ghost n: nat) returns (it': Iter)
    requires Sorted(blocks) && !it.End? && After(blocks, it, n)
    ensures After(blocks, it', if it'.End? then n else n + 1) && !it'.Start?
    ensures it'.At? ==> (if it.Start? then forall p :: 0 <= p < it'.pfn ==> !InBlocks(blocks, p)
                         else it.pfn < it'.pfn && forall p :: it.pfn < p < it'.pfn ==> !InBlocks(blocks, p))
    ensures it'.End? ==> it.At? && it.pfn + 1 == blocks[|blocks| - 1].end
  {
    hide InBlocks;
    if it.Start? {
      it' := At(0, blocks[0].start);
      forall p: nat | p < it'.pfn ensures !InBlocks(blocks, p) {
        NoneBetween(blocks, 0, p);
      }
      return;
    }
    var pfn := it.pfn + 1;
    var block := it.block;
    if !(pfn >= blocks[block].start && pfn + 1 <= blocks[block].end) {
      block := block + 1;
      if block == |blocks| {
        return End;
      }
      pfn := blocks[block].start;
      forall p: nat | it.pfn < p < pfn ensures !InBlocks(blocks, p) {
        NoneBetween(blocks, block, p);
      }
    }
    it' := At(block, pfn);
  }

  lemma AfterNone(blocks: seq<Block>)
    requires Sorted(blocks)
    ensures blocks != [] && After(blocks, Start, 0)
  {
  }

  lemma AfterAll(blocks: seq<Block>, it: Iter, n: nat)
    requires Sorted(blocks) && After(blocks, it, n) && it.End?
    ensures n == Pages(blocks, |blocks|)
  {
  }
}

/**
 The dirty bitmap of live RAM migration (qemu/arch_init.c): moving bits from the
 dirty log into the migration bitmap, word by word or page by page, and the count
 of dirty pages.  A bitmap is the set of its bits; a word is 64 of them.
 */
module DirtyBitmap {

  /** A RAM block in page numbers. */
  datatype Region = Region(base: nat, pages: nat)

  predicate Within(lo: nat, x: nat, hi: nat) {
    lo <= x < hi
  }

  function Range(lo: nat, hi: nat): set<nat> {
    set x | lo <= x < hi && Within(lo, x, hi)
  }

  /** The pages of one word. */
  function Word(k: nat): set<nat> {
    Range(64 * k, 64 * k + 64)
  }

  function PagesOf(layout: seq<Region>): set<nat> {
    if layout == [] then {}
    else Range(layout[0].base, layout[0].base + layout[0].pages) + PagesOf(layout[1..])
  }

  function Total(layout: seq<Region>): nat {
    if layout == [] then 0 else layout[0].pages + Total(layout[1..])
  }

  predicate Apart(r: Region, q: Region) {
    r.base + r.pages <= q.base || q.base + q.pages <= r.base
  }

  ghost predicate LayoutOk(layout: seq<Region>) {
    && (forall i :: 0 <= i < |layout| ==> layout[i].pages > 0)
    && forall i, j :: 0 <= i < j < |layout| ==> Apart(layout[i], layout[j])
  }

  lemma {:induction false} InPages(layout: seq<Region>, x: nat)
    ensures x in PagesOf(layout) <==>
              exists i :: 0 <= i < |layout| && layout[i].base <= x < layout[i].base + layout[i].pages
  {
    if layout != [] {
      InPages(layout[1..], x);
      assert forall i :: 0 <= i < |layout| - 1 ==> layout[1..][i] == layout[i + 1];
      if i :| 0 <= i < |layout| && layout[i].base <= x < layout[i].base + layout[i].pages {
        assert i == 0 || layout[1..][i - 1] == layout[i];
      }
    }
  }

  lemma {:induction false} RangeSize(lo: nat, hi: nat)
    requires lo <= hi
    ensures |Range(lo, hi)| == hi - lo
    decreases hi - lo
  {
    if lo < hi {
      RangeSize(lo, hi - 1);
      assert Range(lo, hi) == Range(lo, hi - 1) + {hi - 1};
    }
  }

  lemma RestApart(layout: seq<Region>, x: nat)
    requires LayoutOk(layout) && layout != [] && x in PagesOf(layout[1..])
    ensures !(layout[0].base <= x < layout[0].base + layout[0].pages)
  {
    InPages(layout[1..], x);
    var i :| 0 <= i < |layout| - 1 && layout[1..][i].base <= x < layout[1..][i].base + layout[1..][i].pages;
    assert Apart(layout[0], layout[i + 1]);
  }

  lemma RestDisjoint(layout: seq<Region>)
    requires LayoutOk(layout) && layout != []
    ensures Range(layout[0].base, layout[0].base + layout[0].pages) !! PagesOf(layout[1..])
  {
    forall x | x in PagesOf(layout[1..]) ensures x !in Range(layout[0].base, layout[0].base + layout[0].pages) {
      RestApart(layout, x);
    }
  }

  /** Blocks do not share pages, so the sum of their sizes is the number of their pages. */
  lemma {:induction false} TotalCounts(layout: seq<Region>)
    requires LayoutOk(layout)
    ensures |PagesOf(layout)| == Total(layout)
  {
    if layout != [] {
      hide Range, Apart;
      TotalCounts(layout[1..]);
      var r := layout[0];
      RangeSize(r.base, r.base + r.pages);
      RestDisjoint(layout);
    }
  }

  /** `migration_dirty_pages` is the number of dirty pages of blocks. */
  ghost predicate CountOk(layout: seq<Region>, bitmap: set<nat>, count: int) {
    count == |bitmap * PagesOf(layout)|
  }

  /** Log bits of gaps between blocks, left by blocks that are gone, are bits of the bitmap already. */
  ghost predicate GapsOk(layout: seq<Region>, bitmap: set<nat>, log: set<nat>) {
    log - PagesOf(layout) <= bitmap
  }

  /** Some log bits have moved to the bitmap, counted once each. */
  ghost predicate Moved(bitmap: set<nat>, log: set<nat>, count: int, bitmap': set<nat>, log': set<nat>, count': int) {
    && log' <= log
    && bitmap' == bitmap + (log - log')
    && count' == count + |(log - log') - bitmap|
  }

  ghost predicate Emptied(log: set<nat>, r: Region) {
    forall x :: x in log ==> !(r.base <= x < r.base + r.pages)
  }

  lemma EmptiedStays(l: set<nat>, l': set<nat>, r: Region)
    requires Emptied(l, r) && l' <= l
    ensures Emptied(l', r)
  {
  }

  lemma EmptiedNone(l: set<nat>, base: nat)
    ensures Emptied(l, Region(base, 0))
  {
  }

  lemma EmptiedNext(l: set<nat>, base: nat, a: nat, w: set<nat>)
    requires Emptied(l, Region(base, a)) && w == {base + a}
    ensures Emptied(l - w, Region(base, a + 1))
  {
  }

  lemma EmptiedWord(l: set<nat>, word: nat, k: nat)
    requires Emptied(l, Region(64 * word, 64 * k))
    ensures Emptied(l - l * Word(word + k), Region(64 * word, 64 * (k + 1)))
  {
    var l' := l - l * Word(word + k);
    forall x | x in l'
      ensures !(64 * word <= x < 64 * word + 64 * (k + 1))
    {
      assert !Within(64 * (word + k), x, 64 * (word + k) + 64);
    }
  }

  lemma EmptiedLess(l: set<nat>, base: nat, pages: nat, fewer: nat)
    requires Emptied(l, Region(base, pages)) && fewer <= pages
    ensures Emptied(l, Region(base, fewer))
  {
  }

  lemma OneMore(bitmap: set<nat>, nr: nat)
    ensures |{nr} - bitmap| == if nr in bitmap then 0 else 1
  {
    assert {nr} - bitmap == if nr in bitmap then {} else {nr};
  }

  lemma MovedNone(bitmap: set<nat>, log: set<nat>, count: int)
    ensures Moved(bitmap, log, count, bitmap, log, count)
  {
    assert log - log == {};
  }

  lemma MovedTwice(b0: set<nat>, l0: set<nat>, c0: int, b1: set<nat>, l1: set<nat>, c1: int,
                   b2: set<nat>, l2: set<nat>, c2: int)
    requires Moved(b0, l0, c0, b1, l1, c1) && Moved(b1, l1, c1, b2, l2, c2)
    ensures Moved(b0, l0, c0, b2, l2, c2) && l2 <= l1
  {
    assert (l0 - l2) - b0 == ((l0 - l1) - b0) + ((l1 - l2) - b1);
    assert ((l0 - l1) - b0) !! ((l1 - l2) - b1);
  }

  lemma MovedMore(b0: set<nat>, l0: set<nat>, c0: int, b1: set<nat>, l1: set<nat>, c1: int, w: set<nat>)
    requires Moved(b0, l0, c0, b1, l1, c1) && w <= l1
    ensures Moved(b0, l0, c0, b1 + w, l1 - w, c1 + |w - b1|)
  {
    assert l0 - (l1 - w) == (l0 - l1) + w;
    assert (l0 - (l1 - w)) - b0 == ((l0 - l1) - b0) + (w - b1);
  }

  class Dirty {
    var bitmap: set<nat>
    var log: set<nat>
    var count: int

    /** Before migration starts there is only the log. */
    constructor (log: set<nat>)
      ensures this.log == log && bitmap == {} && count == 0
    {
      this.log, bitmap, count := log, {}, 0;
    }

    /** Page by page: `migration_bitmap_set_dirty` for every page of the range that is in the log. */
    method SyncPages(base: nat, pages: nat)
      modifies this
      ensures Moved(old(bitmap), old(log), old(count), bitmap, log, count)
      ensures Emptied(log, Region(base, pages))
    {
      hide *;
      MovedNone(bitmap, log, count);
      EmptiedNone(log, base);
      for a := 0 to pages
        invariant Moved(old(bitmap), old(log), old(count), bitmap, log, count)
        invariant Emptied(log, Region(base, a))
      {
        var nr := base + a;
        EmptiedNext(log, base, a, {nr});
        if nr in log {
          MovedMore(old(bitmap), old(log), old(count), bitmap, log, count, {nr});
          OneMore(bitmap, nr);
          log := log - {nr};
          if nr !in bitmap {
            count := count + 1;
          }
          bitmap := bitmap + {nr};
        } else {
          assert log - {nr} == log;
        }
      }
    }

    /** Word by word: the last word may reach beyond the block. */
    method SyncWords(word: nat, pages: nat)
      modifies this
      ensures Moved(old(bitmap), old(log), old(count), bitmap, log, count)
      ensures Emptied(log, Region(64 * word, pages))
    {
      hide *;
      MovedNone(bitmap, log, count);
      EmptiedNone(log, 64 * word);
      var nr := (pages + 63) / 64;
      for k := 0 to nr
        invariant Moved(old(bitmap), old(log), old(count), bitmap, log, count)
        invariant Emptied(log, Region(64 * word, 64 * k))
      {
        var src := log * Word(word + k);
        EmptiedWord(log, word, k);
        if src != {} {
          MovedMore(old(bitmap), old(log), old(count), bitmap, log, count, src);
          var newDirty := src - bitmap;
          bitmap := bitmap + src;
          count := count + |newDirty|;
          log := log - src;
        } else {
          assert log - src == log;
        }
      }
      EmptiedLess(log, 64 * word, 64 * nr, pages);
    }

    /** `migration_bitmap_sync_range` */
    method SyncRange(base: nat, pages: nat)
      modifies this
      ensures Moved(old(bitmap), old(log), old(count), bitmap, log, count)
      ensures Emptied(log, Region(base, pages))
    {
      var word := base / 64;
      if word * 64 == base {
        SyncWords(word, pages);
      } else {
        SyncPages(base, pages);
      }
    }

    /**
     A full sync: whichever way each block is walked, every logged page of a block
     is dirty afterwards, nothing else changes, and the count stays exact.
     */
    method Sync(layout: seq<Region>)
      requires GapsOk(layout, bitmap, log) && CountOk(layout, bitmap, count)
      modifies this
      ensures bitmap == old(bitmap) + old(log) * PagesOf(layout)
      ensures log * PagesOf(layout) == {} && log <= old(log)
      ensures GapsOk(layout, bitmap, log) && CountOk(layout, bitmap, count)
    {
      hide *;
      MovedNone(bitmap, log, count);
      for i := 0 to |layout|
        invariant Moved(old(bitmap), old(log), old(count), bitmap, log, count)
        invariant forall j :: 0 <= j < i ==> Emptied(log, layout[j])
      {
        ghost var b1, l1, c1 := bitmap, log, count;
        SyncRange(layout[i].base, layout[i].pages);
        MovedTwice(old(bitmap), old(log), old(count), b1, l1, c1, bitmap, log, count);
        forall j | 0 <= j < i ensures Emptied(log, layout[j]) {
          EmptiedStays(l1, log, layout[j]);
        }
      }
      SyncDone(layout, old(bitmap), old(log), old(count), bitmap, log, count);
    }

    /** `ram_save_setup`: everything is dirty, gaps included; only pages of blocks are counted. */
    method Setup(layout: seq<Region>, last: nat)
      requires LayoutOk(layout) && forall i :: 0 <= i < |layout| ==> layout[i].base + layout[i].pages <= last
      requires log <= Range(0, last)
      modifies this
      ensures PagesOf(layout) <= bitmap && GapsOk(layout, bitmap, log) && CountOk(layout, bitmap, count)
      ensures log * PagesOf(layout) == {}
    {
      bitmap := Range(0, last);
      count := 0;
      for i := 0 to |layout|
        invariant count == Total(layout[..i]) && bitmap == Range(0, last)
        invariant log == old(log)
      {
        TotalAppend(layout[..i], layout[i]);
        assert layout[..i + 1] == layout[..i] + [layout[i]];
        count := count + layout[i].pages;
      }
      assert layout[..|layout|] == layout;
      TotalCounts(layout);
      InSpace(layout, last);
      assert bitmap * PagesOf(layout) == PagesOf(layout);
      Sync(layout);
    }
  }

  lemma InSpace(layout: seq<Region>, last: nat)
    requires forall i :: 0 <= i < |layout| ==> layout[i].base + layout[i].pages <= last
    ensures PagesOf(layout) <= Range(0, last)
  {
    forall x | x in PagesOf(layout) ensures x in Range(0, last) {
      InPages(layout, x);
      assert 0 <= x < last && Within(0, x, last);
    }
  }

  lemma {:induction false} TotalAppend(layout: seq<Region>, r: Region)
    ensures Total(layout + [r]) == Total(layout) + r.pages
  {
    if layout == [] {
      assert layout + [r] == [r];
    } else {
      assert (layout + [r])[1..] == layout[1..] + [r];
      TotalAppend(layout[1..], r);
    }
  }

  lemma SyncDone(layout: seq<Region>, b0: set<nat>, l0: set<nat>, c0: int, b: set<nat>, l: set<nat>, c: int)
    requires GapsOk(layout, b0, l0) && CountOk(layout, b0, c0) && Moved(b0, l0, c0, b, l, c)
    requires forall j :: 0 <= j < |layout| ==> Emptied(l, layout[j])
    ensures b == b0 + l0 * PagesOf(layout) && l * PagesOf(layout) == {} && l <= l0
    ensures GapsOk(layout, b, l) && CountOk(layout, b, c)
  {
    var p := PagesOf(layout);
    forall x | x in l ensures x !in p {
      InPages(layout, x);
    }
    assert b == b0 + l0 * p;
    assert b * p == b0 * p + ((l0 - l) - b0);
  }
}

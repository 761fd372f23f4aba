/**
 The search for dirty pages of live RAM migration (qemu/arch_init.c): from the last
 position through all blocks, around to the first, and back to where it began.
 */
module PageSearch {
  import opened Basics
  import opened DirtyBitmap

  // ---------- Pages ----------

  /** Page `o` of block `b`. */
  ghost predicate IsPage(layout: seq<Region>, b: nat, o: nat) {
    b < |layout| && o < layout[b].pages
  }

  function Nr(layout: seq<Region>, b: nat, o: nat): nat
    requires b < |layout|
  {
    layout[b].base + o
  }

  lemma NrUnique(layout: seq<Region>, b: nat, o: nat, c: nat, p: nat)
    requires LayoutOk(layout) && IsPage(layout, b, o) && IsPage(layout, c, p)
    ensures Nr(layout, b, o) == Nr(layout, c, p) <==> b == c && o == p
  {
    assert b < c ==> Apart(layout[b], layout[c]);
    assert c < b ==> Apart(layout[c], layout[b]);
  }

  lemma NrIsPage(layout: seq<Region>, b: nat, o: nat)
    requires IsPage(layout, b, o)
    ensures Nr(layout, b, o) in PagesOf(layout)
  {
    InPages(layout, Nr(layout, b, o));
  }

  lemma PageOfNr(layout: seq<Region>, x: nat) returns (b: nat, o: nat)
    requires x in PagesOf(layout)
    ensures IsPage(layout, b, o) && Nr(layout, b, o) == x
  {
    InPages(layout, x);
    b :| b < |layout| && layout[b].base <= x < layout[b].base + layout[b].pages;
    o := x - layout[b].base;
  }

  /** Pages in the order of the search. */
  predicate Before(b: nat, o: nat, c: nat, p: nat) {
    b < c || (b == c && o < p)
  }

  // ---------- Where a search begins ----------

  /** `ram_bulk_stage`, `last_seen_block`, `last_offset` */
  datatype Pos = Pos(bulk: bool, seen: Option<nat>, offset: nat)

  /** The block the search begins with. */
  function First(p: Pos): nat {
    if p.seen.Some? then p.seen.value else 0
  }

  /** The bulk stage does not look at the page it begins with, but at the next. */
  predicate Skips(p: Pos) {
    p.bulk && p.offset > 0
  }

  /** Every page after the position is dirty. */
  ghost predicate Ahead(layout: seq<Region>, bitmap: set<nat>, p: Pos) {
    forall c, q {:trigger IsPage(layout, c, q)} :: IsPage(layout, c, q) ==>
      (p.seen.None? || Before(p.seen.value, p.offset, c, q)) ==> Nr(layout, c, q) in bitmap
  }

  ghost predicate PosOk(layout: seq<Region>, bitmap: set<nat>, p: Pos) {
    && (p.seen.None? ==> p.bulk && p.offset == 0)
    && (p.seen.Some? ==> p.seen.value < |layout| && p.offset <= layout[p.seen.value].pages)
    && (p.bulk ==> Ahead(layout, bitmap, p) && (p.seen.Some? ==> p.offset < layout[p.seen.value].pages))
  }

  /** The bulk stage ends its first round with the page it sent last as the only dirty one. */
  ghost predicate Loses(layout: seq<Region>, bitmap: set<nat>, p: Pos) {
    && Skips(p) && p.seen.Some? && IsPage(layout, p.seen.value, p.offset)
    && bitmap * PagesOf(layout) == {Nr(layout, p.seen.value, p.offset)}
  }

  /** The page number of the position. */
  function At(layout: seq<Region>, p: Pos): nat
    requires First(p) < |layout|
  {
    Nr(layout, First(p), p.offset)
  }

  /** There are pages after the position. */
  ghost predicate HasNext(layout: seq<Region>, p: Pos) {
    p.seen.None? ||
    (p.seen.value < |layout| && (p.seen.value + 1 < |layout| || p.offset + 1 < layout[p.seen.value].pages))
  }

  lemma LosesBulk(layout: seq<Region>, bitmap: set<nat>, p: Pos)
    ensures Loses(layout, bitmap, p) ==> p.bulk && p.seen.Some? && IsPage(layout, p.seen.value, p.offset)
  {
  }

  lemma NothingToLose(layout: seq<Region>, bitmap: set<nat>, p: Pos)
    requires bitmap * PagesOf(layout) == {}
    ensures !Loses(layout, bitmap, p)
  {
    if First(p) < |layout| {
      assert At(layout, p) !in bitmap * PagesOf(layout);
    }
  }

  /** Right after its own page has been sent, a position does not lose it. */
  lemma LosesFresh(layout: seq<Region>, bitmap: set<nat>, p: Pos)
    requires p.bulk ==> p.seen.Some? && p.seen.value < |layout| && At(layout, p) !in bitmap
    ensures !Loses(layout, bitmap, p)
  {
    if p.bulk {
      assert At(layout, p) !in bitmap * PagesOf(layout);
    }
  }

  lemma NextAhead(layout: seq<Region>, bitmap: set<nat>, p: Pos, b: nat, o: nat)
    requires p.bulk ==> Ahead(layout, bitmap, p)
    ensures p.bulk && p.seen == Some(b) && o >= p.offset && IsPage(layout, b, o + 1) ==> Nr(layout, b, o + 1) in bitmap
    ensures p.bulk && p.seen.None? && IsPage(layout, 0, 0) ==> Nr(layout, 0, 0) in bitmap
    ensures p.bulk && p.seen.Some? && p.seen.value < b && IsPage(layout, b, 0) ==> Nr(layout, b, 0) in bitmap
  {
    assert IsPage(layout, b, o + 1) ==> IsPage(layout, b, o + 1);
  }

  lemma AheadMoves(layout: seq<Region>, bitmap: set<nat>, p: Pos, b: nat, o: nat)
    requires LayoutOk(layout) && IsPage(layout, b, o) && p.bulk && Ahead(layout, bitmap, p)
    requires p.seen.Some? ==> !Before(b, o, p.seen.value, p.offset)
    ensures Ahead(layout, bitmap - {Nr(layout, b, o)}, Pos(true, Some(b), o))
  {
    var bitmap' := bitmap - {Nr(layout, b, o)};
    forall c, q {:trigger IsPage(layout, c, q)} | IsPage(layout, c, q) && Before(b, o, c, q)
      ensures Nr(layout, c, q) in bitmap'
    {
      NrUnique(layout, b, o, c, q);
    }
  }

  lemma AheadMore(layout: seq<Region>, bitmap: set<nat>, bitmap': set<nat>, p: Pos)
    requires PosOk(layout, bitmap, p) && bitmap <= bitmap'
    ensures PosOk(layout, bitmap', p)
  {
  }

  // ---------- What a search has seen ----------

  /** The loop is at page `o` of block `b`, before or after it wrapped around. */
  datatype Cursor = Cursor(b: nat, o: nat, wrapped: bool)

  /** Is page q of block c still to come, in a search that began at `p`? */
  predicate ToCome(p: Pos, at: Cursor, c: nat, q: nat) {
    if at.wrapped then !Before(c, q, at.b, at.o) && Before(c, q, First(p), p.offset)
    else !Before(c, q, at.b, at.o) || Before(c, q, First(p), p.offset)
  }

  predicate Skipped(p: Pos, c: nat, q: nat) {
    Skips(p) && c == First(p) && q == p.offset
  }

  /** Every dirty page is still to come, but for the one the bulk stage steps over. */
  ghost predicate Scanned(layout: seq<Region>, bitmap: set<nat>, p: Pos, at: Cursor) {
    forall c, q {:trigger IsPage(layout, c, q)} :: IsPage(layout, c, q) && Nr(layout, c, q) in bitmap ==>
      ToCome(p, at, c, q) || Skipped(p, c, q)
  }

  /** No dirty page of the block from the cursor up to `next`, but for the one stepped over. */
  ghost predicate CleanTo(layout: seq<Region>, bitmap: set<nat>, p: Pos, at: Cursor, next: nat)
    requires at.b < |layout|
  {
    forall q {:trigger Nr(layout, at.b, q)} ::
      at.o <= q < next && q < layout[at.b].pages && Nr(layout, at.b, q) in bitmap ==> Skipped(p, at.b, q)
  }

  /** The next dirty page of the block from the cursor on, or in the bulk stage simply the next one. */
  ghost predicate Found(layout: seq<Region>, bitmap: set<nat>, bulk: bool, b: nat, start: nat, next: nat)
    requires b < |layout|
  {
    && (next < layout[b].pages ==> Nr(layout, b, next) in bitmap)
    && if bulk && start > 0 then next == start + 1
       else && start <= next <= layout[b].pages
            && forall o {:trigger Nr(layout, b, o)} :: start <= o < next ==> Nr(layout, b, o) !in bitmap
  }

  lemma ScanFound(layout: seq<Region>, bitmap: set<nat>, p: Pos, at: Cursor, next: nat)
    requires LayoutOk(layout) && IsPage(layout, at.b, next) && at.o <= next
    requires Scanned(layout, bitmap, p, at) && CleanTo(layout, bitmap, p, at, next)
    ensures Scanned(layout, bitmap - {Nr(layout, at.b, next)}, p, at.(o := next))
  {
    var bitmap' := bitmap - {Nr(layout, at.b, next)};
    forall c, q {:trigger IsPage(layout, c, q)} | IsPage(layout, c, q) && Nr(layout, c, q) in bitmap'
      ensures ToCome(p, at.(o := next), c, q) || Skipped(p, c, q)
    {
      NrUnique(layout, at.b, next, c, q);
      assert c == at.b ==> Nr(layout, at.b, q) in bitmap;
    }
  }

  /** The block is done: on to the next, or round to the first. */
  lemma ScanNext(layout: seq<Region>, bitmap: set<nat>, p: Pos, at: Cursor, next: nat)
    requires at.b < |layout| && layout[at.b].pages <= next
    requires Scanned(layout, bitmap, p, at) && CleanTo(layout, bitmap, p, at, next)
    ensures Scanned(layout, bitmap, p, Cursor(at.b + 1, 0, at.wrapped))
    ensures !at.wrapped && at.b + 1 == |layout| ==> Scanned(layout, bitmap, p, Cursor(0, 0, true))
  {
    forall c, q {:trigger IsPage(layout, c, q)} | IsPage(layout, c, q) && Nr(layout, c, q) in bitmap
      ensures ToCome(p, Cursor(at.b + 1, 0, at.wrapped), c, q) || Skipped(p, c, q)
      ensures !at.wrapped && at.b + 1 == |layout| ==> ToCome(p, Cursor(0, 0, true), c, q) || Skipped(p, c, q)
    {
      assert c == at.b ==> Nr(layout, at.b, q) in bitmap;
    }
  }

  /** Back where the search began, no page is dirty but the one stepped over. */
  lemma ScanEnd(layout: seq<Region>, bitmap: set<nat>, p: Pos, o: nat, next: nat)
    requires LayoutOk(layout) && p.seen.Some? && p.seen.value < |layout| && o <= p.offset <= next
    requires Scanned(layout, bitmap, p, Cursor(p.seen.value, o, true))
    requires Found(layout, bitmap, false, p.seen.value, o, next)
    ensures next < layout[p.seen.value].pages ==>
              Skips(p) && next == p.offset && bitmap * PagesOf(layout) == {Nr(layout, p.seen.value, next)}
    ensures next >= layout[p.seen.value].pages ==> bitmap * PagesOf(layout) == {}
  {
    var b := p.seen.value;
    forall x | x in bitmap && x in PagesOf(layout)
      ensures Skips(p) && IsPage(layout, b, p.offset) && x == Nr(layout, b, p.offset)
    {
      var c, q := PageOfNr(layout, x);
      assert ToCome(p, Cursor(b, o, true), c, q) || Skipped(p, c, q);
      assert c == b ==> Nr(layout, b, q) in bitmap;
    }
    if next < layout[b].pages {
      NrIsPage(layout, b, next);
    }
    if bitmap * PagesOf(layout) != {} {
      var x :| x in bitmap * PagesOf(layout);
      assert bitmap * PagesOf(layout) == {Nr(layout, b, p.offset)};
    }
  }

  lemma FoundClean(layout: seq<Region>, bitmap: set<nat>, p: Pos, bulk: bool, at: Cursor, next: nat)
    requires at.b < |layout| && Found(layout, bitmap, bulk, at.b, at.o, next)
    requires bulk && at.o > 0 ==> Skipped(p, at.b, at.o)
    ensures CleanTo(layout, bitmap, p, at, next)
  {
  }

  // ---------- A search, turn by turn ----------

  /** What a search that began at `p` with `bm0` has come to; `bulk` is the stage now. */
  ghost predicate Searching(layout: seq<Region>, bm0: set<nat>, p: Pos, bitmap: set<nat>, bulk: bool, at: Cursor) {
    && at.b < |layout| && at.o <= layout[at.b].pages
    && (p.seen.Some? ==> p.seen.value < |layout| && p.offset <= layout[p.seen.value].pages)
    && Scanned(layout, bitmap, p, at)
    && (if at.wrapped then !bulk && at.b <= First(p) && (at.b == First(p) ==> at.o <= p.offset) && p.seen.Some?
        else bulk == p.bulk && !Before(at.b, at.o, First(p), p.offset))
    && (!at.wrapped && bulk ==> if at.b == First(p) then at.o == p.offset else at.o == 0)
    && (p.seen.None? ==> !at.wrapped && at.b == 0 && at.o == 0 && p.bulk)
    && (p.bulk ==> bitmap == bm0 && Ahead(layout, bm0, p) && (HasNext(layout, p) ==> !at.wrapped))
  }

  lemma SearchStarts(layout: seq<Region>, bm0: set<nat>, p: Pos)
    requires layout != [] && PosOk(layout, bm0, p)
    ensures Searching(layout, bm0, p, bm0, p.bulk, Cursor(First(p), p.offset, false))
  {
    hide Ahead;
  }

  lemma SearchAt(layout: seq<Region>, bm0: set<nat>, p: Pos, bitmap: set<nat>, bulk: bool, at: Cursor)
    requires Searching(layout, bm0, p, bitmap, bulk, at)
    ensures at.b < |layout| && at.o <= layout[at.b].pages && (p.bulk ==> bitmap == bm0)
    ensures bulk ==> p.bulk && !at.wrapped
    ensures bulk && at.o > 0 && at.o + 1 < layout[at.b].pages ==> Nr(layout, at.b, at.o + 1) in bitmap
  {
    hide Scanned;
    NextAhead(layout, bm0, p, at.b, at.o);
  }

  /** The search is over when it is back where it began. */
  predicate Back(p: Pos, at: Cursor, next: nat) {
    at.wrapped && p.seen == Some(at.b) && next >= p.offset
  }

  lemma SearchNext(layout: seq<Region>, bm0: set<nat>, p: Pos, bitmap: set<nat>, bulk: bool, at: Cursor, next: nat)
    requires LayoutOk(layout) && Searching(layout, bm0, p, bitmap, bulk, at)
    requires Found(layout, bitmap, bulk, at.b, at.o, next) && next >= layout[at.b].pages && !Back(p, at, next)
    ensures if at.b + 1 == |layout| then !at.wrapped && Searching(layout, bm0, p, bitmap, false, Cursor(0, 0, true))
            else Searching(layout, bm0, p, bitmap, bulk, Cursor(at.b + 1, 0, at.wrapped))
  {
    hide Scanned, Ahead, CleanTo;
    NextAhead(layout, bm0, p, at.b, at.o);
    FoundClean(layout, bitmap, p, bulk, at, next);
    ScanNext(layout, bitmap, p, at, next);
  }

  lemma SearchFound(layout: seq<Region>, bm0: set<nat>, p: Pos, bitmap: set<nat>, bulk: bool, at: Cursor, next: nat)
    requires LayoutOk(layout) && Searching(layout, bm0, p, bitmap, bulk, at)
    requires Found(layout, bitmap, bulk, at.b, at.o, next) && next < layout[at.b].pages && !Back(p, at, next)
    ensures !Loses(layout, bm0, p) && Nr(layout, at.b, next) in bitmap
    ensures !p.bulk ==> Searching(layout, bm0, p, bitmap - {Nr(layout, at.b, next)}, bulk, at.(o := next))
    ensures bulk && p.seen.Some? ==> !Before(at.b, next, p.seen.value, p.offset)
    ensures (p.bulk && HasNext(layout, p) ==> bulk) && (p.seen.None? ==> at.b == 0 && next == 0)
  {
    hide Scanned, Ahead, Loses, CleanTo, LayoutOk;
    NextAhead(layout, bm0, p, at.b, at.o);
    LosesNot(layout, bm0, p, at.b, next);
    FoundClean(layout, bitmap, p, bulk, at, next);
    ScanFound(layout, bitmap, p, at, next);
  }

  /** The page found is not the last one sent, unless the search is back where it began. */
  lemma LosesNot(layout: seq<Region>, bitmap: set<nat>, p: Pos, b: nat, o: nat)
    requires LayoutOk(layout) && IsPage(layout, b, o) && (p.bulk ==> Nr(layout, b, o) in bitmap)
    requires p.seen == Some(b) ==> o != p.offset || !Skips(p)
    ensures !Loses(layout, bitmap, p)
  {
    if Loses(layout, bitmap, p) {
      NrIsPage(layout, b, o);
      assert Nr(layout, b, o) in bitmap * PagesOf(layout);
      NrUnique(layout, b, o, p.seen.value, p.offset);
      assert false;
    }
  }

  /**
   Back where it began, the search clears a bit if and only if the situation of
   Loses held, and it is the bit of the position.
   */
  lemma SearchEnds(layout: seq<Region>, bm0: set<nat>, p: Pos, bitmap: set<nat>, bulk: bool, at: Cursor, next: nat)
    requires LayoutOk(layout) && Searching(layout, bm0, p, bitmap, bulk, at)
    requires Found(layout, bitmap, bulk, at.b, at.o, next) && Back(p, at, next)
    ensures !bulk && next <= layout[at.b].pages && !(p.bulk && HasNext(layout, p))
    ensures Loses(layout, bm0, p) <==> next < layout[at.b].pages
    ensures next < layout[at.b].pages ==> next == p.offset
    ensures var bitmap' := if next < layout[at.b].pages then bitmap - {Nr(layout, at.b, next)} else bitmap;
            bitmap' * PagesOf(layout) == {}
  {
    hide Scanned, Ahead, LayoutOk, PagesOf;
    ScanEnd(layout, bitmap, p, at.o, next);
    var pages := PagesOf(layout);
    if next < layout[at.b].pages {
      assert (bitmap - {Nr(layout, at.b, next)}) * pages == bitmap * pages - {Nr(layout, at.b, next)};
    } else {
      NothingToLose(layout, bitmap, p);
    }
  }

  lemma OneLess(layout: seq<Region>, bitmap: set<nat>, count: int, b: nat, o: nat)
    requires IsPage(layout, b, o) && Nr(layout, b, o) in bitmap && CountOk(layout, bitmap, count)
    ensures CountOk(layout, bitmap - {Nr(layout, b, o)}, count - 1) && count > 0
  {
    NrIsPage(layout, b, o);
    var nr := Nr(layout, b, o);
    assert bitmap * PagesOf(layout) == (bitmap - {nr}) * PagesOf(layout) + {nr};
  }

  lemma CountNat(layout: seq<Region>, bitmap: set<nat>, count: int)
    requires CountOk(layout, bitmap, count)
    ensures count >= 0
  {
  }

  lemma GapsLess(layout: seq<Region>, bitmap: set<nat>, log: set<nat>, log': set<nat>, pages: set<nat>, b: nat, o: nat)
    requires GapsOk(layout, bitmap, log) && log' <= log + pages && pages == PagesOf(layout) && b < |layout|
    ensures IsPage(layout, b, o) ==> GapsOk(layout, bitmap - {Nr(layout, b, o)}, log')
  {
    if IsPage(layout, b, o) {
      NrIsPage(layout, b, o);
    }
  }
}

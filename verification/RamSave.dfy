/**
 The sending side of live RAM migration (qemu/arch_init.c, qemu/page_cache.c): the
 XBZRLE page cache, saving the pages the search finds, and why the destination ends
 with the guest's memory, while the guest runs on all but the last stage.
 */
module RamSave {
  import opened Basics
  import opened Xbzrle
  import opened RamStream
  import opened DirtyBitmap
  import opened PageSearch
  import opened StreamWriter

  type Memory = map<nat, seq<byte>>

  // ---------- The page cache ----------

  datatype Slot = Empty | Cached(addr: nat, data: seq<byte>)

  /** `get_cached_data` when `cache_is_cached`. */
  function Lookup(cache: seq<Slot>, nr: nat): Option<seq<byte>>
    requires |cache| > 0
  {
    var s := cache[nr % |cache|];
    if s.Cached? && s.addr == nr then Some(s.data) else None
  }

  /** `cache_insert`: an empty slot needs memory. */
  function Insert(cache: seq<Slot>, nr: nat, data: seq<byte>, memory: bool): (r: seq<Slot>)
    requires |cache| > 0
    ensures |r| == |cache|
  {
    var pos := nr % |cache|;
    if cache[pos].Empty? && !memory then cache else cache[pos := Cached(nr, data)]
  }

  /** The page is in the cache as given, or not at all; others may be evicted but do not change. */
  ghost predicate CacheStep(cache: seq<Slot>, cache': seq<Slot>, nr: nat, data: seq<byte>) {
    && |cache| > 0 && |cache'| == |cache|
    && (Lookup(cache', nr).Some? ==> Lookup(cache', nr).value == data)
    && forall a {:trigger Lookup(cache', a)} ::
         a != nr && Lookup(cache', a).Some? ==> Lookup(cache', a) == Lookup(cache, a)
  }

  ghost predicate NothingCached(cache: seq<Slot>) {
    forall i :: 0 <= i < |cache| ==> cache[i].Empty?
  }

  lemma InsertStep(cache: seq<Slot>, nr: nat, data: seq<byte>, memory: bool)
    requires |cache| > 0
    ensures CacheStep(cache, Insert(cache, nr, data, memory), nr, data)
    ensures memory || cache[nr % |cache|].Cached? ==> Lookup(Insert(cache, nr, data, memory), nr) == Some(data)
    ensures Lookup(Insert(cache, nr, data, memory), nr).None? ==> Insert(cache, nr, data, memory) == cache
  {
  }

  // ---------- The guest ----------

  /** The guest runs for a while: what it writes is logged. */
  predicate GuestMay(mem: Memory, log: set<nat>, mem': Memory, log': set<nat>) {
    && mem'.Keys == mem.Keys && log <= log' <= log + mem.Keys
    && forall x :: x in mem ==> |mem'[x]| == |mem[x]| && (mem'[x] == mem[x] || x in log')
  }

  /** The guest runs, unless it has been stopped. */
  ghost predicate GuestRan(stopped: bool, mem: Memory, log: set<nat>, mem': Memory, log': set<nat>) {
    GuestMay(mem, log, mem', log') && (stopped ==> mem' == mem && log' == log)
  }

  lemma GuestNone(stopped: bool, mem: Memory, log: set<nat>)
    ensures GuestRan(stopped, mem, log, mem, log)
  {
  }

  lemma RanTwice(stopped: bool, m0: Memory, l0: set<nat>, m1: Memory, l1: set<nat>, m2: Memory, l2: set<nat>)
    requires GuestRan(stopped, m0, l0, m1, l1) && GuestRan(stopped, m1, l1, m2, l2)
    ensures GuestRan(stopped, m0, l0, m2, l2)
  {
  }

  lemma RanStopped(stopped: bool, mem: Memory, log: set<nat>, mem': Memory, log': set<nat>)
    requires GuestRan(stopped, mem, log, mem', log') && stopped
    ensures mem' == mem && log' == log
  {
  }

  lemma GuestHere(mem: Memory, log: set<nat>, mem': Memory, log': set<nat>, nr: nat)
    requires GuestMay(mem, log, mem', log') && nr in mem
    ensures nr in mem' && |mem'[nr]| == |mem[nr]|
  {
  }

  lemma GuestLog(mem: Memory, log: set<nat>, mem': Memory, log': set<nat>)
    requires GuestMay(mem, log, mem', log')
    ensures log' <= log + mem.Keys
  {
  }

  /** What was read is in memory, or the page is logged. */
  ghost predicate Read(mem: Memory, log: set<nat>, nr: nat, data: seq<byte>) {
    nr in mem && |data| == 4096 && (mem[nr] == data || nr in log)
  }

  lemma ReadIs(mem: Memory, log: set<nat>, nr: nat, data: seq<byte>)
    requires Read(mem, log, nr, data)
    ensures |data| == 4096
  {
  }

  // ---------- Invariants ----------

  ghost predicate SameShape(layout: seq<Region>, blocks: seq<Block>) {
    && |blocks| == |layout| && SizesOk(blocks) && LayoutOk(layout)
    && forall b :: 0 <= b < |layout| ==> blocks[b].length == 4096 * layout[b].pages
  }

  ghost predicate MemOk(layout: seq<Region>, mem: Memory) {
    && mem.Keys == PagesOf(layout)
    && forall b, o {:trigger IsPage(layout, b, o)} :: IsPage(layout, b, o) ==>
         Nr(layout, b, o) in mem && |mem[Nr(layout, b, o)]| == 4096
  }

  lemma PageHere(layout: seq<Region>, mem: Memory, b: nat, o: nat)
    requires MemOk(layout, mem) && IsPage(layout, b, o)
    ensures Nr(layout, b, o) in mem && |mem[Nr(layout, b, o)]| == 4096
  {
  }

  lemma GuestMemOk(layout: seq<Region>, mem: Memory, log: set<nat>, mem': Memory, log': set<nat>)
    requires MemOk(layout, mem) && GuestMay(mem, log, mem', log')
    ensures MemOk(layout, mem')
  {
  }

  /** The page is pending, or the destination has it. */
  ghost predicate Settled(layout: seq<Region>, pending: set<nat>, mem: Memory, ram: Ram, b: nat, o: nat)
    requires IsPage(layout, b, o)
  {
    var nr := Nr(layout, b, o);
    nr in pending || (nr in mem && mem[nr] == PageAt(ram, b, o))
  }

  /** Every page of guest memory is pending or right at the destination. */
  ghost predicate AllSettled(layout: seq<Region>, pending: set<nat>, mem: Memory, ram: Ram) {
    forall b, o {:trigger IsPage(layout, b, o)} :: IsPage(layout, b, o) ==> Settled(layout, pending, mem, ram, b, o)
  }

  /** What the cache holds is what the destination holds; in the last stage only for pages still to send. */
  ghost predicate Coherent(layout: seq<Region>, cache: seq<Slot>, ram: Ram, last: bool, bitmap: set<nat>) {
    && |cache| > 0
    && forall b, o {:trigger IsPage(layout, b, o)} ::
         IsPage(layout, b, o) && (last ==> Nr(layout, b, o) in bitmap) ==>
         var c := Lookup(cache, Nr(layout, b, o)); c.Some? ==> c.value == PageAt(ram, b, o)
  }

  /** What migration is about; `lost` are the pages whose bits were cleared without sending them. */
  datatype Snap = Snap(mem: Memory, log: set<nat>, lost: set<nat>, bitmap: set<nat>, cache: seq<Slot>, dst: Loader)

  ghost predicate Core(layout: seq<Region>, blocks: seq<Block>, last: bool, s: Snap) {
    && SameShape(layout, blocks) && layout != [] && MemOk(layout, s.mem)
    && Coherent(layout, s.cache, s.dst.ram, last, s.bitmap) && GapsOk(layout, s.bitmap, s.log) &&
        s.lost <= PagesOf(layout)
  }

  /** Every page is dirty, or logged, or lost, or right at the destination. */
  ghost predicate Good(layout: seq<Region>, blocks: seq<Block>, last: bool, s: Snap) {
    Core(layout, blocks, last, s) && AllSettled(layout, s.bitmap + s.log + s.lost, s.mem, s.dst.ram)
  }

  lemma GoodIs(layout: seq<Region>, blocks: seq<Block>, last: bool, s: Snap)
    requires Good(layout, blocks, last, s)
    ensures SameShape(layout, blocks) && LayoutOk(layout) && layout != [] && s.mem.Keys == PagesOf(layout)
    ensures MemOk(layout, s.mem) && |s.cache| > 0 && s.lost <= PagesOf(layout)
    ensures GapsOk(layout, s.bitmap, s.log)
  {
    hide PagesOf, AllSettled, GapsOk;
  }

  lemma GoodCached(layout: seq<Region>, blocks: seq<Block>, last: bool, s: Snap, b: nat, o: nat)
    requires Good(layout, blocks, last, s) && IsPage(layout, b, o) && Nr(layout, b, o) in s.bitmap
    ensures |s.cache| > 0
    ensures var c := Lookup(s.cache, Nr(layout, b, o)); c.Some? ==> c.value == PageAt(s.dst.ram, b, o)
  {
    hide PagesOf, AllSettled, GapsOk, SameShape, MemOk;
  }

  lemma NotCached(cache: seq<Slot>, nr: nat)
    requires |cache| > 0 && NothingCached(cache)
    ensures Lookup(cache, nr).None?
  {
  }

  lemma StartsGood(layout: seq<Region>, blocks: seq<Block>, s: Snap)
    requires SameShape(layout, blocks) && layout != [] && MemOk(layout, s.mem) && GapsOk(layout, s.bitmap, s.log)
    requires |s.cache| > 0 && NothingCached(s.cache) && PagesOf(layout) <= s.bitmap && s.lost == {}
    ensures Good(layout, blocks, false, s) && PosOk(layout, s.bitmap, Pos(true, None, 0))
  {
    hide SameShape, MemOk, GapsOk;
    forall b, o {:trigger IsPage(layout, b, o)} | IsPage(layout, b, o) ensures Nr(layout, b, o) in s.bitmap {
      NrIsPage(layout, b, o);
    }
  }

  lemma LastStage(layout: seq<Region>, blocks: seq<Block>, s: Snap)
    requires Good(layout, blocks, false, s)
    ensures Good(layout, blocks, true, s)
  {
    hide MemOk, SameShape, GapsOk, AllSettled, PagesOf;
  }

  /** Sending a page: everything else stays settled, and the page is settled by what was read. */
  lemma SaveSettles(layout: seq<Region>, s: Snap, s': Snap, b: nat, o: nat)
    requires LayoutOk(layout) && IsPage(layout, b, o) && MemOk(layout, s.mem)
    requires AllSettled(layout, s.bitmap + s.log + s.lost, s.mem, s.dst.ram)
    requires GuestMay(s.mem, s.log, s'.mem, s'.log) && OthersKept(s.dst.ram, s'.dst.ram, b, o)
    requires Settled(layout, s'.log, s'.mem, s'.dst.ram, b, o)
    requires s'.bitmap == s.bitmap - {Nr(layout, b, o)} && s'.lost == s.lost - {Nr(layout, b, o)}
    ensures AllSettled(layout, s'.bitmap + s'.log + s'.lost, s'.mem, s'.dst.ram)
  {
    hide PageAt;
    var pending, pending' := s.bitmap + s.log + s.lost, s'.bitmap + s'.log + s'.lost;
    forall c, p {:trigger IsPage(layout, c, p)} | IsPage(layout, c, p)
      ensures Settled(layout, pending', s'.mem, s'.dst.ram, c, p)
    {
      NrUnique(layout, b, o, c, p);
      assert Settled(layout, pending, s.mem, s.dst.ram, c, p);
      assert (c != b || p != o) ==> PageAt(s'.dst.ram, c, p) == PageAt(s.dst.ram, c, p);
    }
  }

  lemma SaveCoheres(layout: seq<Region>, s: Snap, s': Snap, last: bool, b: nat, o: nat, data: seq<byte>)
    requires LayoutOk(layout) && IsPage(layout, b, o) && Coherent(layout, s.cache, s.dst.ram, last, s.bitmap)
    requires CacheStep(s.cache, s'.cache, Nr(layout, b, o), data) && OthersKept(s.dst.ram, s'.dst.ram, b, o)
    requires !last ==> data == PageAt(s'.dst.ram, b, o)
    requires s'.bitmap == s.bitmap - {Nr(layout, b, o)}
    ensures Coherent(layout, s'.cache, s'.dst.ram, last, s'.bitmap)
  {
    hide PageAt;
    forall c, p {:trigger IsPage(layout, c, p)} | IsPage(layout, c, p) && (last ==> Nr(layout, c, p) in s'.bitmap)
      ensures var d := Lookup(s'.cache, Nr(layout, c, p)); d.Some? ==> d.value == PageAt(s'.dst.ram, c, p)
    {
      NrUnique(layout, b, o, c, p);
      assert (c != b || p != o) ==> PageAt(s'.dst.ram, c, p) == PageAt(s.dst.ram, c, p);
    }
  }

  /** A page that has been saved: it was read, the destination has what was read, and so has the cache. */
  ghost predicate Saved(layout: seq<Region>, last: bool, s: Snap, s': Snap, b: nat, o: nat)
    requires b < |layout|
  {
    && GuestMay(s.mem, s.log, s'.mem, s'.log) && OthersKept(s.dst.ram, s'.dst.ram, b, o)
    && Read(s'.mem, s'.log, Nr(layout, b, o), PageAt(s'.dst.ram, b, o))
    && s'.bitmap == s.bitmap - {Nr(layout, b, o)} && s'.lost == s.lost - {Nr(layout, b, o)}
    && exists data {:trigger CacheStep(s.cache, s'.cache, Nr(layout, b, o), data)} ::
         CacheStep(s.cache, s'.cache, Nr(layout, b, o), data) && (!last ==> data == PageAt(s'.dst.ram, b, o))
  }

  lemma SavedGood(layout: seq<Region>, blocks: seq<Block>, last: bool, s: Snap, s': Snap, b: nat, o: nat)
    requires Good(layout, blocks, last, s) && IsPage(layout, b, o) && Saved(layout, last, s, s', b, o)
    ensures Good(layout, blocks, last, s')
  {
    hide GuestMay, OthersKept, CacheStep, PageAt, AllSettled, Coherent, GapsOk, PagesOf, MemOk, SameShape, LayoutOk;
    GoodIs(layout, blocks, last, s);
    GuestMemOk(layout, s.mem, s.log, s'.mem, s'.log);
    GuestLog(s.mem, s.log, s'.mem, s'.log);
    GapsLess(layout, s.bitmap, s.log, s'.log, s.mem.Keys, b, o);
    assert Settled(layout, s'.log, s'.mem, s'.dst.ram, b, o);
    SaveSettles(layout, s, s', b, o);
    var data :| CacheStep(s.cache, s'.cache, Nr(layout, b, o), data) && (!last ==> data == PageAt(s'.dst.ram, b, o));
    SaveCoheres(layout, s, s', last, b, o, data);
  }

  // ---------- What a search does ----------

  /** At the destination only these pages may have changed. */
  ghost predicate Untouched(layout: seq<Region>, but: set<nat>, ram: Ram, ram': Ram) {
    forall b, o {:trigger IsPage(layout, b, o)} :: IsPage(layout, b, o) && Nr(layout, b, o) !in but ==>
      PageAt(ram', b, o) == PageAt(ram, b, o)
  }

  /** The pages taken out of the bitmap, and no others, were sent or found unchanged: they are not lost any more. */
  ghost predicate Progress(layout: seq<Region>, s: Snap, s': Snap) {
    && s'.bitmap <= s.bitmap && s'.lost == s.lost - (s.bitmap - s'.bitmap)
    && Untouched(layout, s.bitmap - s'.bitmap, s.dst.ram, s'.dst.ram)
  }

  lemma ProgressNone(layout: seq<Region>, s: Snap)
    ensures Progress(layout, s, s)
  {
  }

  lemma ProgressTwice(layout: seq<Region>, s: Snap, s': Snap, s'': Snap)
    requires Progress(layout, s, s') && Progress(layout, s', s'')
    ensures Progress(layout, s, s'')
  {
    hide PageAt;
    assert s.bitmap - s''.bitmap == (s.bitmap - s'.bitmap) + (s'.bitmap - s''.bitmap);
  }

  lemma SavedProgress(layout: seq<Region>, last: bool, s: Snap, s': Snap, b: nat, o: nat)
    requires LayoutOk(layout) && IsPage(layout, b, o) && Nr(layout, b, o) in s.bitmap
    requires Saved(layout, last, s, s', b, o)
    ensures Progress(layout, s, s')
  {
    hide GuestMay, PageAt, CacheStep;
    assert s.bitmap - s'.bitmap == {Nr(layout, b, o)};
    forall c, p {:trigger IsPage(layout, c, p)} | IsPage(layout, c, p) && Nr(layout, c, p) !in s.bitmap - s'.bitmap
      ensures PageAt(s'.dst.ram, c, p) == PageAt(s.dst.ram, c, p)
    {
      NrUnique(layout, b, o, c, p);
    }
  }

  /**
   A search makes progress, but for the case of Loses: then it clears the bit of its
   position, the only one set, and does nothing else.
   */
  ghost predicate Outcome(layout: seq<Region>, s: Snap, p: Pos, s': Snap) {
    if Loses(layout, s.bitmap, p)
    then s' == s.(bitmap := s.bitmap - {At(layout, p)}, lost := s.lost + {At(layout, p)})
    else Progress(layout, s, s')
  }

  lemma LostGood(layout: seq<Region>, blocks: seq<Block>, last: bool, s: Snap, b: nat, o: nat)
    requires Good(layout, blocks, last, s) && IsPage(layout, b, o) && Nr(layout, b, o) in s.bitmap
    ensures Good(layout, blocks, last, s.(bitmap := s.bitmap - {Nr(layout, b, o)}, lost := s.lost + {Nr(layout, b, o)}))
  {
    hide AllSettled, PagesOf, MemOk, SameShape, LayoutOk;
    var nr := Nr(layout, b, o);
    var s' := s.(bitmap := s.bitmap - {nr}, lost := s.lost + {nr});
    NrIsPage(layout, b, o);
    assert s'.bitmap + s'.log + s'.lost == s.bitmap + s.log + s.lost;
  }

  /**
   The search of `ram_find_and_save_block` has ended at page o of block b: with bytes
   sent for it, or with no dirty page left.
   */
  ghost predicate Ended(layout: seq<Region>, s: Snap, p: Pos, s': Snap, p': Pos, bytes: int) {
    && p'.seen.Some? && p'.seen.value < |layout| && p'.offset <= layout[p'.seen.value].pages && bytes >= 0
    && (if bytes > 0 then p'.offset < layout[p'.seen.value].pages && s'.dst.block == p'.seen
        else s'.bitmap * PagesOf(layout) == {} && !p'.bulk)
    && (p'.bulk ==> Steps(layout, s.bitmap, p, s'.bitmap, p')) && (p.bulk && HasNext(layout, p) ==> p'.bulk)
    && (p.seen.None? ==> p'.seen == Some(0) && p'.offset == 0)
    && Outcome(layout, s, p, s') && (Loses(layout, s.bitmap, p) ==> bytes == 0)
  }

  /** The bulk stage takes a page that is not behind it out of the bitmap. */
  ghost predicate Steps(layout: seq<Region>, bm: set<nat>, p: Pos, bm': set<nat>, p': Pos) {
    && p.bulk && p'.seen.Some? && p'.seen.value < |layout| && At(layout, p') in bm && bm' == bm - {At(layout, p')}
    && (p.seen.Some? ==> !Before(p'.seen.value, p'.offset, p.seen.value, p.offset))
  }

  lemma EndedIs(layout: seq<Region>, s: Snap, p: Pos, s': Snap, p': Pos, bytes: int)
    requires Ended(layout, s, p, s', p', bytes) && LayoutOk(layout) && PosOk(layout, s.bitmap, p)
    ensures bytes >= 0 && PosOk(layout, s'.bitmap, p') && p'.seen.Some? && p'.seen.value < |layout|
    ensures if bytes > 0 then s'.dst.block == p'.seen && IsPage(layout, p'.seen.value, p'.offset)
            else s'.bitmap * PagesOf(layout) == {} && !p'.bulk
    ensures p'.bulk ==> p.bulk && At(layout, p') in s.bitmap && s'.bitmap == s.bitmap - {At(layout, p')}
    ensures (p.bulk && HasNext(layout, p) ==> p'.bulk) && (p.seen.None? ==> p'.seen == Some(0) && p'.offset == 0)
    ensures Outcome(layout, s, p, s') && (Loses(layout, s.bitmap, p) ==> bytes == 0)
  {
    hide Outcome, Ahead, PagesOf, HasNext, LayoutOk, Loses;
    if p'.bulk {
      AheadMoves(layout, s.bitmap, p, p'.seen.value, p'.offset);
    }
  }

  lemma EndsFound(layout: seq<Region>, s: Snap, p: Pos, s': Snap, p': Pos, bytes: int)
    requires bytes > 0 && p'.seen.Some? && IsPage(layout, p'.seen.value, p'.offset) && s'.dst.block == p'.seen
    requires !Loses(layout, s.bitmap, p) && Progress(layout, s, s')
    requires p'.bulk ==> Steps(layout, s.bitmap, p, s'.bitmap, p')
    requires (p.bulk && HasNext(layout, p) ==> p'.bulk) && (p.seen.None? ==> p'.seen == Some(0) && p'.offset == 0)
    ensures Ended(layout, s, p, s', p', bytes)
  {
    hide Progress, PagesOf, HasNext, Loses, Steps;
  }

  /** The search is back where it began and found nothing but perhaps the page stepped over. */
  lemma EndsBack(layout: seq<Region>, blocks: seq<Block>, last: bool, s0: Snap, p: Pos, s: Snap, bulk: bool, at: Cursor,
                 next: nat)
    requires Good(layout, blocks, last, s) && Searching(layout, s0.bitmap, p, s.bitmap, bulk, at)
    requires Progress(layout, s0, s)
    requires Found(layout, s.bitmap, bulk, at.b, at.o, next) && Back(p, at, next) && (p.bulk ==> s == s0)
    ensures next <= layout[at.b].pages && !bulk
    ensures var s' := if next < layout[at.b].pages
                      then s.(bitmap := s.bitmap - {Nr(layout, at.b, next)}, lost := s.lost + {Nr(layout, at.b, next)})
                          else s;
            Good(layout, blocks, last, s') && Ended(layout, s0, p, s', Pos(bulk, Some(at.b), next), 0)
  {
    hide Good, Progress, Searching, Found, PagesOf, HasNext, LayoutOk;
    GoodIs(layout, blocks, last, s);
    SearchEnds(layout, s0.bitmap, p, s.bitmap, bulk, at, next);
    BackAt(layout, s0.bitmap, p, s.bitmap, bulk, at, next);
    LosesBulk(layout, s0.bitmap, p);
    if next < layout[at.b].pages {
      LostGood(layout, blocks, last, s, at.b, next);
    }
  }

  lemma BackAt(layout: seq<Region>, bm0: set<nat>, p: Pos, bitmap: set<nat>, bulk: bool, at: Cursor, next: nat)
    requires Searching(layout, bm0, p, bitmap, bulk, at) && Found(layout, bitmap, bulk, at.b, at.o, next)
    requires Back(p, at, next)
    ensures at.b < |layout| && p.seen == Some(at.b) && (next < layout[at.b].pages ==> Nr(layout, at.b, next) in bitmap)
  {
    hide Scanned, Ahead;
  }

  // ---------- Sending one page ----------

  lemma DstPage(w: Writer, b: nat, o: nat)
    requires w.Valid()
    ensures |PageAt(w.dst.ram, b, o)| == 4096
  {
    hide Loads, Bytes, PageAt;
  }

  lemma OthersSame(ram: Ram, b: nat, o: nat)
    ensures OthersKept(ram, ram, b, o)
  {
  }

  lemma CacheSame(cache: seq<Slot>, nr: nat, data: seq<byte>)
    requires |cache| > 0 && (Lookup(cache, nr).Some? ==> Lookup(cache, nr).value == data)
    ensures CacheStep(cache, cache, nr, data)
  {
  }

  lemma ItemFits(layout: seq<Region>, blocks: seq<Block>, b: nat, o: nat)
    requires SameShape(layout, blocks) && IsPage(layout, b, o)
    ensures b < |blocks| && o < 0x10_0000_0000_0000
  {
    assert blocks[b].length == 4096 * layout[b].pages;
  }

  lemma DeltaApplies(layout: seq<Region>, blocks: seq<Block>, b: nat, o: nat, enc: seq<byte>, dst: Loader,
                     data: seq<byte>)
    requires SameShape(layout, blocks) && IsPage(layout, b, o) && |enc| <= 4096
    requires exists d :: Decode(enc, true, PageAt(dst.ram, b, o), 0) == Some((data, d))
    ensures ItemOk(blocks, Delta(b, o, enc)) && Apply(Delta(b, o, enc), dst) == Some(Put(dst, b, o, data))
    ensures PageAt(Put(dst, b, o, data).ram, b, o) == data
  {
    hide Decode;
    ItemFits(layout, blocks, b, o);
  }

  lemma WholeApplies(layout: seq<Region>, blocks: seq<Block>, b: nat, o: nat, dst: Loader, data: seq<byte>)
    requires SameShape(layout, blocks) && IsPage(layout, b, o) && |data| == 4096
    ensures ItemOk(blocks, Full(b, o, data)) && Apply(Full(b, o, data), dst) == Some(Put(dst, b, o, data))
    ensures ItemOk(blocks, Zero(b, o)) && Apply(Zero(b, o), dst) == Some(Put(dst, b, o, Filled(0)))
    ensures PageAt(Put(dst, b, o, data).ram, b, o) == data && PageAt(Put(dst, b, o, Filled(0)).ram, b, o) == Filled(0)
  {
    ItemFits(layout, blocks, b, o);
  }

  /** The stream so far. */
  datatype Stream = Stream(f: seq<byte>, sent: seq<Item>, dst: Loader)

  /** With any bytes at all, exactly one more item went out, and it is for this page. */
  ghost predicate Wrote(w: Stream, w': Stream, b: nat, o: nat, bytes: int) {
    && bytes == |w'.f| - |w.f| >= 0 && OthersKept(w.dst.ram, w'.dst.ram, b, o)
    && if bytes == 0 then w' == w
       else |w'.sent| == |w.sent| + 1 && w'.sent[..|w.sent|] == w.sent && w'.dst.block == Some(b)
            && w'.sent[|w.sent|].block == b && w'.sent[|w.sent|].page == o
  }

  lemma WroteItem(w: Stream, w': Stream, it: Item, bytes: int)
    requires bytes == |w'.f| - |w.f| > 0 && w'.sent == w.sent + [it] && w'.dst.block == Some(it.block)
    requires OthersKept(w.dst.ram, w'.dst.ram, it.block, it.page)
    ensures Wrote(w, w', it.block, it.page, bytes)
  {
    hide OthersKept;
  }

  lemma WroteNothing(w: Stream, b: nat, o: nat)
    ensures Wrote(w, w, b, o, 0)
  {
    OthersSame(w.dst.ram, b, o);
  }

  lemma WroteIs(w: Stream, w': Stream, b: nat, o: nat, bytes: int)
    requires Wrote(w, w', b, o, bytes)
    ensures bytes >= 0 && (bytes == 0 ==> w' == w) && OthersKept(w.dst.ram, w'.dst.ram, b, o)
    ensures bytes > 0 ==> w'.dst.block == Some(b) && |w'.sent| == |w.sent| + 1
    ensures bytes == |w'.f| - |w.f|
  {
    hide OthersKept;
  }

  class Source {
    const layout: seq<Region>
    const blocks: seq<Block>
    const xbzrle: bool
    const idle: bool // the guest does not run while pages are saved
    const dirty: Dirty
    const out: Writer
    var mem: Memory
    var lastSeen: Option<nat>
    var lastSent: Option<nat>
    var lastOffset: nat
    var bulk: bool
    var cache: seq<Slot>
    ghost var lost: set<nat>

    ghost function S(): Snap
      reads this, dirty, out
    {
      Snap(mem, dirty.log, lost, dirty.bitmap, cache, out.dst)
    }

    ghost function P(): Pos
      reads this
    {
      Pos(bulk, lastSeen, lastOffset)
    }

    ghost function W(): Stream
      reads out
    {
      Stream(out.f, out.sent, out.dst)
    }

    /** The stream is ready for a page record. */
    ghost predicate Ready()
      reads this, out
    {
      out.Valid() && out.blocks == blocks && out.dst.block == lastSent && SameShape(layout, blocks)
    }

    ghost predicate Valid(last: bool)
      reads this, dirty, out
    {
      && Ready() && Good(layout, blocks, last, S()) && PosOk(layout, dirty.bitmap, P())
      && CountOk(layout, dirty.bitmap, dirty.count) && (bulk || !xbzrle ==> NothingCached(cache))
    }

    /** `ram_save_setup`: everything is dirty, nothing is sent or cached. */
    constructor (layout: seq<Region>, blocks: seq<Block>, xbzrle: bool, idle: bool, mem: Memory, slots: nat,
                 log: set<nat>, last: nat)
      requires SameShape(layout, blocks) && layout != [] && MemOk(layout, mem) && slots > 0
      requires log <= Range(0, last) && forall i :: 0 <= i < |layout| ==> layout[i].base + layout[i].pages <= last
      ensures fresh(dirty) && fresh(out) && Valid(false)
      ensures this.layout == layout && this.blocks == blocks && this.xbzrle == xbzrle && this.idle == idle
      ensures this.mem == mem
      ensures PagesOf(layout) <= dirty.bitmap && dirty.log * PagesOf(layout) == {} && lost == {}
      ensures bulk && lastSeen == None && P() == Pos(true, None, 0) && lastSent == None && |cache| == slots
      ensures NothingCached(cache)
      ensures out.sent == [] && out.dst == Nothing && out.sections == 1 && Loads(blocks, out.f, 1, Nothing)
    {
      hide CountOk, GapsOk, MemOk, PagesOf, SameShape, LayoutOk, BlocksOk, Range, Good, PosOk, Writer.Valid, Loads;
      this.layout, this.blocks, this.xbzrle, this.idle, this.mem := layout, blocks, xbzrle, idle, mem;
      ShapeIs(layout, blocks);
      dirty := new Dirty(log);
      out := new Writer(blocks);
      lastSeen, lastSent, lastOffset, bulk := None, None, 0, true;
      cache := seq(slots, i => Empty);
      lost := {};
      new;
      this.dirty.Setup(layout, last);
      StartsGood(layout, blocks, S());
    }

    /** The guest runs, unless it has been stopped for the last stage. */
    method GuestRuns(last: bool)
      modifies `mem, dirty`log
      ensures GuestRan(last || idle, old(mem), old(dirty.log), mem, dirty.log)
    {
      GuestNone(last || idle, mem, dirty.log);
      if !last && !idle {
        var mem', log' :| GuestMay(mem, dirty.log, mem', log');
        mem := mem';
        dirty.log := log';
      }
    }

    /** Reading a page while the guest runs: if it was not read in one piece, it is logged. */
    method ReadPage(nr: nat, last: bool) returns (data: seq<byte>)
      requires nr in mem && |mem[nr]| == 4096
      modifies `mem, dirty`log
      ensures GuestRan(last || idle, old(mem), old(dirty.log), mem, dirty.log) && Read(mem, dirty.log, nr, data)
    {
      GuestRuns(last);
      data := mem[nr];
      if !last && !idle && nr in dirty.log {
        data :| |data| == 4096;
      }
    }

    /**
     `save_xbzrle_page`, page in the cache: 0 when unchanged, the bytes of a delta, or
     -1 and the data to send whole.
     */
    method SaveDelta(b: nat, o: nat, last: bool, prev: seq<byte>) returns (bytes: int, data: seq<byte>)
      requires IsPage(layout, b, o) && Ready() && MemOk(layout, mem)
      requires |cache| > 0 && Lookup(cache, Nr(layout, b, o)) == Some(prev) && prev == PageAt(out.dst.ram, b, o)
      modifies `mem, dirty`log, `cache, out`f, out`sent, out`dst
      ensures GuestRan(last || idle, old(mem), old(dirty.log), mem, dirty.log)
      ensures Read(mem, dirty.log, Nr(layout, b, o), data)
      ensures CacheStep(old(cache), cache, Nr(layout, b, o), if last then prev else data)
      ensures out.Valid() && bytes >= -1 && (bytes == -1 ==> W() == old(W()))
      ensures bytes >= 0 ==> PageAt(out.dst.ram, b, o) == data && Wrote(old(W()), W(), b, o, bytes)
    {
      hide GuestRan, MemOk, SameShape, OthersKept, CacheStep, Wrote, Decode, PageAt, Read, Apply, ItemOk, Writer.Valid;
      var nr := Nr(layout, b, o);
      PageHere(layout, mem, b, o);
      DstPage(out, b, o);
      data := ReadPage(nr, last);
      ReadIs(mem, dirty.log, nr, data);
      CacheSame(cache, nr, prev);
      var ret, enc := EncodeBuffer(prev, data, 4096);
      if ret == 0 {
        WroteNothing(W(), b, o);
        return 0, data;
      }
      InsertStep(cache, nr, data, true);
      if ret == -1 {
        if !last {
          data := ReadAgain(nr, last, old(mem), old(dirty.log));
          InsertStep(cache, nr, data, true);
          cache := Insert(cache, nr, data, true);
        }
        return -1, data;
      }
      if !last {
        cache := Insert(cache, nr, data, true);
      }
      var it := Delta(b, o, enc);
      DeltaApplies(layout, blocks, b, o, enc, out.dst, data);
      ghost var w := W();
      bytes := out.Send(it, lastSent == Some(b));
      WroteItem(w, W(), it, bytes);
    }

    /** The page is read once more, from where the guest may have written it meanwhile. */
    method ReadAgain(nr: nat, last: bool, ghost m0: Memory, ghost l0: set<nat>) returns (data: seq<byte>)
      requires GuestRan(last || idle, m0, l0, mem, dirty.log) && nr in m0 && |m0[nr]| == 4096
      modifies `mem, dirty`log
      ensures GuestRan(last || idle, m0, l0, mem, dirty.log) && Read(mem, dirty.log, nr, data) && |data| == 4096
    {
      hide GuestMay;
      ghost var m1, l1 := mem, dirty.log;
      GuestHere(m0, l0, m1, l1, nr);
      data := ReadPage(nr, last);
      RanTwice(last || idle, m0, l0, m1, l1, mem, dirty.log);
    }

    /** `save_xbzrle_page` */
    method SaveXbzrle(b: nat, o: nat, last: bool) returns (bytes: int, data: seq<byte>)
      requires IsPage(layout, b, o) && Ready() && MemOk(layout, mem) && |cache| > 0
      requires Lookup(cache, Nr(layout, b, o)).Some? ==>
                Lookup(cache, Nr(layout, b, o)).value == PageAt(out.dst.ram, b, o)
      modifies `mem, dirty`log, `cache, out`f, out`sent, out`dst
      ensures GuestRan(last || idle, old(mem), old(dirty.log), mem, dirty.log)
      ensures Read(mem, dirty.log, Nr(layout, b, o), data)
      ensures CacheStep(old(cache), cache, Nr(layout, b, o), if last then PageAt(old(out.dst).ram, b, o) else data)
      ensures out.Valid() && bytes >= -1 && (bytes == -1 ==> W() == old(W()))
      ensures bytes >= 0 ==> Lookup(old(cache), Nr(layout, b, o)).Some?
      ensures bytes >= 0 ==> PageAt(out.dst.ram, b, o) == data && Wrote(old(W()), W(), b, o, bytes)
    {
      hide GuestRan, MemOk, SameShape, OthersKept, CacheStep, Wrote, Decode, PageAt, Read, Writer.Valid;
      var nr := Nr(layout, b, o);
      var prev := Lookup(cache, nr);
      if prev.Some? {
        bytes, data := SaveDelta(b, o, last, prev.value);
        return;
      }
      PageHere(layout, mem, b, o);
      data := ReadPage(nr, last);
      if last {
        CacheSame(cache, nr, PageAt(out.dst.ram, b, o));
      } else {
        var memory: bool := *;
        InsertStep(cache, nr, data, memory);
        cache := Insert(cache, nr, data, memory);
        if Lookup(cache, nr).None? {
          data := ReadAgain(nr, last, old(mem), old(dirty.log));
          CacheSame(old(cache), nr, data);
        }
      }
      bytes := -1;
    }

    method SaveZero(b: nat, o: nat) returns (bytes: int)
      requires IsPage(layout, b, o) && Ready() && |cache| > 0
      requires bulk || !xbzrle ==> Lookup(cache, Nr(layout, b, o)).None?
      modifies `cache, out`f, out`sent, out`dst
      ensures CacheStep(old(cache), cache, Nr(layout, b, o), Filled(0)) && (bulk || !xbzrle ==> cache == old(cache))
      ensures out.Valid() && PageAt(out.dst.ram, b, o) == Filled(0) && bytes > 0 && Wrote(old(W()), W(), b, o, bytes)
    {
      hide SameShape, OthersKept, CacheStep, Wrote, PageAt, Apply, ItemOk, Writer.Valid;
      var nr := Nr(layout, b, o);
      WholeApplies(layout, blocks, b, o, out.dst, Filled(0));
      bytes := out.Send(Zero(b, o), lastSent == Some(b));
      WroteItem(old(W()), W(), Zero(b, o), bytes);
      if bulk || !xbzrle {
        CacheSame(cache, nr, Filled(0));
      } else {
        var memory: bool := *;
        InsertStep(cache, nr, Filled(0), memory);
        cache := Insert(cache, nr, Filled(0), memory);
      }
    }

    method SaveWhole(b: nat, o: nat, data: seq<byte>) returns (bytes: int)
      requires IsPage(layout, b, o) && Ready() && |data| == 4096
      modifies out`f, out`sent, out`dst
      ensures out.Valid() && PageAt(out.dst.ram, b, o) == data && bytes > 0 && Wrote(old(W()), W(), b, o, bytes)
    {
      hide SameShape, OthersKept, Wrote, PageAt, Apply, ItemOk, Writer.Valid;
      WholeApplies(layout, blocks, b, o, out.dst, data);
      bytes := out.Send(Full(b, o, data), lastSent == Some(b));
      WroteItem(old(W()), W(), Full(b, o, data), bytes);
    }

    /** `ram_save_page` */
    method SavePage(b: nat, o: nat, last: bool) returns (bytes: int, ghost copy: seq<byte>)
      requires IsPage(layout, b, o) && Ready() && MemOk(layout, mem) && |cache| > 0
      requires Lookup(cache, Nr(layout, b, o)).Some? ==>
                Lookup(cache, Nr(layout, b, o)).value == PageAt(out.dst.ram, b, o)
      requires bulk || !xbzrle ==> Lookup(cache, Nr(layout, b, o)).None?
      modifies `mem, dirty`log, `cache, out`f, out`sent, out`dst
      ensures GuestRan(last || idle, old(mem), old(dirty.log), mem, dirty.log)
      ensures out.Valid() && Wrote(old(W()), W(), b, o, bytes)
      ensures Read(mem, dirty.log, Nr(layout, b, o), PageAt(out.dst.ram, b, o))
      ensures CacheStep(old(cache), cache, Nr(layout, b, o), copy) && (!last ==> copy == PageAt(out.dst.ram, b, o))
      ensures Lookup(old(cache), Nr(layout, b, o)).None? ==> bytes > 0
      ensures bulk || !xbzrle ==> cache == old(cache)
    {
      hide GuestMay, MemOk, SameShape, OthersKept, CacheStep, Wrote, Decode, PageAt, Read, Filled, Writer.Valid;
      var nr := Nr(layout, b, o);
      PageHere(layout, mem, b, o);
      var data := ReadPage(nr, last);
      ReadIs(mem, dirty.log, nr, data);
      if data == Filled(0) {
        bytes := SaveZero(b, o);
        copy := data;
        return;
      }
      ghost var m1, l1 := mem, dirty.log;
      GuestMemOk(layout, old(mem), old(dirty.log), mem, dirty.log);
      if !bulk && xbzrle {
        bytes, data := SaveXbzrle(b, o, last);
        RanTwice(last || idle, old(mem), old(dirty.log), m1, l1, mem, dirty.log);
      } else {
        bytes := -1;
        data := ReadAgain(nr, last, old(mem), old(dirty.log));
        CacheSame(cache, nr, data);
      }
      copy := if last && !bulk && xbzrle then PageAt(old(out.dst).ram, b, o) else data;
      if bytes == -1 {
        ReadIs(mem, dirty.log, nr, data);
        bytes := SaveWhole(b, o, data);
      }
    }

    /** Saving a page that has just been taken out of the bitmap. */
    method SaveFound(b: nat, o: nat, last: bool, ghost s: Snap) returns (bytes: int)
      requires IsPage(layout, b, o) && Ready() && Good(layout, blocks, last, s) && Nr(layout, b, o) in s.bitmap
      requires S() == s.(bitmap := s.bitmap - {Nr(layout, b, o)})
      requires bulk || !xbzrle ==> NothingCached(cache)
      modifies `mem, dirty`log, `cache, `lost, out`f, out`sent, out`dst
      ensures out.Valid() && Good(layout, blocks, last, S()) && Progress(layout, s, S())
      ensures dirty.bitmap == old(dirty.bitmap)
      ensures bulk || !xbzrle ==> NothingCached(cache)
      ensures GuestRan(last || idle, old(mem), old(dirty.log), mem, dirty.log)
      ensures NothingCached(old(cache)) ==> bytes > 0
      ensures Wrote(old(W()), W(), b, o, bytes)
    {
      hide GuestMay, MemOk, OthersKept, CacheStep, PageAt, Good, PagesOf, SameShape, LayoutOk, NothingCached, Lookup;
      hide Progress, Wrote, Read, Writer.Valid;
      GoodIs(layout, blocks, last, s);
      GoodCached(layout, blocks, last, s, b, o);
      if NothingCached(cache) {
        NotCached(cache, Nr(layout, b, o));
      }
      ghost var copy;
      bytes, copy := SavePage(b, o, last);
      WroteIs(old(W()), W(), b, o, bytes);
      lost := lost - {Nr(layout, b, o)};
      assert CacheStep(s.cache, cache, Nr(layout, b, o), copy);
      SavedGood(layout, blocks, last, s, S(), b, o);
      SavedProgress(layout, last, s, S(), b, o);
    }

    /** `migration_bitmap_find_and_reset_dirty` */
    method FindAndReset(b: nat, start: nat) returns (next: nat)
      requires b < |layout| && start <= layout[b].pages && CountOk(layout, dirty.bitmap, dirty.count)
      requires bulk && start > 0 && start + 1 < layout[b].pages ==> Nr(layout, b, start + 1) in dirty.bitmap
      modifies dirty`bitmap, dirty`count
      ensures CountOk(layout, dirty.bitmap, dirty.count)
      ensures Found(layout, old(dirty.bitmap), bulk, b, start, next)
      ensures dirty.bitmap == if next < layout[b].pages then old(dirty.bitmap) - {Nr(layout, b, next)}
          else old(dirty.bitmap)
      ensures 0 <= dirty.count == if next < layout[b].pages then old(dirty.count) - 1 else old(dirty.count)
    {
      CountNat(layout, dirty.bitmap, dirty.count);
      hide CountOk;
      next := start + 1;
      if !(bulk && start > 0) {
        next := start;
        while next < layout[b].pages && Nr(layout, b, next) !in dirty.bitmap
          invariant start <= next <= layout[b].pages
          invariant forall o {:trigger Nr(layout, b, o)} :: start <= o < next ==> Nr(layout, b, o) !in dirty.bitmap
        {
          next := next + 1;
        }
      }
      if next < layout[b].pages {
        OneLess(layout, dirty.bitmap, dirty.count, b, next);
        dirty.bitmap := dirty.bitmap - {Nr(layout, b, next)};
        dirty.count := dirty.count - 1;
      }
    }

    /** A search that began with `s0` is at work. */
    ghost predicate AtWork(last: bool, s0: Snap, p: Pos, at: Cursor)
      reads this, dirty, out
    {
      && Ready() && Good(layout, blocks, last, S()) && Searching(layout, s0.bitmap, p, dirty.bitmap, bulk, at)
      && Progress(layout, s0, S()) && (p.bulk ==> S() == s0) && p.seen == lastSeen && p.offset == lastOffset
      && (p.bulk || !xbzrle ==> NothingCached(cache))
    }

    /** One turn of the loop of `ram_find_and_save_block`. */
    method Turn(last: bool, ghost s0: Snap, ghost p: Pos, at: Cursor) returns (done: bool, bytes: int, at': Cursor)
      requires AtWork(last, s0, p, at) && CountOk(layout, dirty.bitmap, dirty.count)
      modifies `mem, `bulk, `cache, `lost, out`f, out`sent, out`dst, dirty
      ensures out.Valid() && Good(layout, blocks, last, S()) && (bulk || !xbzrle ==> NothingCached(cache))
      ensures CountOk(layout, dirty.bitmap, dirty.count) && 0 <= dirty.count <= old(dirty.count)
      ensures bytes > 0 ==> dirty.count < old(dirty.count)
      ensures GuestRan(last || idle, old(mem), old(dirty.log), mem, dirty.log)
      ensures Wrote(old(W()), W(), at'.b, at'.o, bytes)
      ensures done ==> Ended(layout, s0, p, S(), Pos(bulk, Some(at'.b), at'.o), bytes)
      ensures !done ==> bytes == 0 && AtWork(last, s0, p, at')
      ensures !done ==> || dirty.count < old(dirty.count) || (at'.wrapped && !at.wrapped)
                        || (at'.wrapped == at.wrapped && at.b < at'.b < |layout|)
    {
      hide Good, NothingCached, CountOk, GuestRan, Wrote, Searching, Found, Ended, Progress, Loses, PagesOf, LayoutOk;
      hide SameShape, HasNext, Writer.Valid;
      ghost var s := S();
      GoodIs(layout, blocks, last, s);
      SearchAt(layout, s0.bitmap, p, s.bitmap, bulk, at);
      GuestNone(last || idle, mem, dirty.log);
      done, bytes := false, 0;
      var next := FindAndReset(at.b, at.o);
      at' := at.(o := next);
      WroteNothing(W(), at.b, next);
      if at.wrapped && lastSeen == Some(at.b) && next >= lastOffset {
        EndsBack(layout, blocks, last, s0, p, s, bulk, at, next);
        if next < layout[at.b].pages {
          lost := lost + {Nr(layout, at.b, next)};
        }
        done := true;
      } else if next >= layout[at.b].pages {
        SearchNext(layout, s0.bitmap, p, s.bitmap, bulk, at, next);
        at' := Cursor(at.b + 1, 0, at.wrapped);
        if at'.b == |layout| {
          at', bulk := Cursor(0, 0, true), false;
        }
        WroteNothing(W(), at'.b, at'.o);
      } else {
        SearchFound(layout, s0.bitmap, p, s.bitmap, bulk, at, next);
        bytes := SaveFound(at.b, next, last, s);
        ProgressTwice(layout, s0, s, S());
        WroteIs(old(W()), W(), at.b, next, bytes);
        if bytes > 0 {
          EndsFound(layout, s0, p, S(), Pos(bulk, Some(at.b), next), bytes);
          done := true;
        }
      }
    }

    lemma ValidIs(last: bool)
      requires Valid(last)
      ensures Ready() && Good(layout, blocks, last, S()) && PosOk(layout, dirty.bitmap, P())
      ensures LayoutOk(layout) && layout != [] && mem.Keys == PagesOf(layout) && lost <= PagesOf(layout)
      ensures CountOk(layout, dirty.bitmap, dirty.count) && dirty.count >= 0
      ensures bulk || !xbzrle ==> NothingCached(cache)
    {
      hide Good, NothingCached, PosOk, Writer.Valid, PagesOf;
      GoodIs(layout, blocks, last, S());
      CountNat(layout, dirty.bitmap, dirty.count);
    }

    lemma WorkStarts(last: bool)
      requires Valid(last)
      ensures AtWork(last, S(), P(), Cursor(First(P()), lastOffset, false))
      ensures CountOk(layout, dirty.bitmap, dirty.count) && dirty.count >= 0
      ensures bulk || !xbzrle ==> NothingCached(cache)
      ensures out.Valid() && Good(layout, blocks, last, S())
    {
      hide Good, NothingCached, PosOk, Writer.Valid, PagesOf, Searching, Progress, CountOk, SameShape;
      ValidIs(last);
      SearchStarts(layout, dirty.bitmap, P());
      ProgressNone(layout, S());
    }

    /** The search of `ram_find_and_save_block`: the page it stops at, and what was sent for it. */
    method Search(last: bool) returns (bytes: int, at: Cursor)
      requires Valid(last)
      modifies `mem, `bulk, `cache, `lost, out`f, out`sent, out`dst, dirty
      ensures out.Valid() && Good(layout, blocks, last, S()) && (bulk || !xbzrle ==> NothingCached(cache))
      ensures CountOk(layout, dirty.bitmap, dirty.count) && (bytes > 0 ==> dirty.count < old(dirty.count))
      ensures GuestRan(last || idle, old(mem), old(dirty.log), mem, dirty.log)
      ensures Wrote(old(W()), W(), at.b, at.o, bytes)
      ensures Ended(layout, old(S()), old(P()), S(), Pos(bulk, Some(at.b), at.o), bytes)
    {
      hide Source.Valid, Source.AtWork, Good, NothingCached, CountOk, GuestRan, Wrote, Ended, Writer.Valid, Before;
      WorkStarts(last);
      GuestNone(last || idle, mem, dirty.log);
      at := Cursor(if lastSeen.Some? then lastSeen.value else 0, lastOffset, false);
      FirstIs(P());
      WroteNothing(W(), at.b, at.o);
      bytes := 0;
      ghost var s0, p, w := S(), P(), W();
      var done := false;
      while !done
        invariant out.Valid() && Good(layout, blocks, last, S()) && (bulk || !xbzrle ==> NothingCached(cache))
        invariant CountOk(layout, dirty.bitmap, dirty.count) && 0 <= dirty.count <= old(dirty.count)
        invariant bytes > 0 ==> dirty.count < old(dirty.count)
        invariant GuestRan(last || idle, old(mem), old(dirty.log), mem, dirty.log)
        invariant Wrote(w, W(), at.b, at.o, bytes)
        invariant done ==> Ended(layout, s0, p, S(), Pos(bulk, Some(at.b), at.o), bytes)
        invariant !done ==> bytes == 0 && AtWork(last, s0, p, at)
        decreases !done, dirty.count, !at.wrapped, |layout| - at.b
      {
        ghost var m, log := mem, dirty.log;
        WroteIs(w, W(), at.b, at.o, bytes);
        done, bytes, at := Turn(last, s0, p, at);
        RanTwice(last || idle, old(mem), old(dirty.log), m, log, mem, dirty.log);
      }
    }

    /** `ram_find_and_save_block` */
    method FindAndSave(last: bool) returns (bytes: int)
      requires Valid(last)
      modifies this, dirty, out`f, out`sent, out`dst
      ensures Valid(last) && GuestRan(last || idle, old(mem), old(dirty.log), mem, dirty.log)
      // 0 means no dirty pages, and otherwise one page went out in that many bytes of stream
      ensures lastSeen.Some? && Wrote(old(W()), W(), lastSeen.value, lastOffset, bytes)
      ensures bytes == 0 ==> dirty.bitmap * PagesOf(layout) == {} && !bulk && lastSent == old(lastSent)
      ensures bytes > 0 ==> dirty.count < old(dirty.count) && lastSent == lastSeen
      // one page is lost exactly in the case of Loses, and it is the only one in the bitmap
      ensures Outcome(layout, old(S()), old(P()), S()) && (Loses(layout, old(dirty.bitmap), old(P())) ==> bytes == 0)
      // while pages lie ahead, the bulk stage sends one of them, or the first page of the block once more
      ensures old(bulk) && HasNext(layout, old(P())) ==> bulk && bytes > 0
      ensures bulk ==> && old(bulk) && First(P()) < |layout| && IsPage(layout, First(P()), lastOffset)
                       && At(layout, P()) in old(dirty.bitmap) && dirty.bitmap == old(dirty.bitmap) - {At(layout, P())}
      ensures old(lastSeen).None? ==> lastSeen == Some(0) && lastOffset == 0
    {
      hide Good, NothingCached, CountOk, GuestRan, PosOk, Wrote, Ended, Outcome, Loses, PagesOf, LayoutOk, SameShape;
      hide HasNext, Writer.Valid;
      ValidIs(last);
      var at;
      bytes, at := Search(last);
      EndedIs(layout, old(S()), old(P()), S(), Pos(bulk, Some(at.b), at.o), bytes);
      WroteIs(old(W()), W(), at.b, at.o, bytes);
      if bytes > 0 {
        lastSent := Some(at.b);
      }
      lastSeen := Some(at.b);
      lastOffset := at.o;
    }

    /** The guest writes a page while nothing is being saved. */
    method GuestWrite(b: nat, o: nat, data: seq<byte>)
      requires Valid(false) && IsPage(layout, b, o) && |data| == 4096
      modifies `mem, dirty`log
      ensures Valid(false)
      ensures mem == old(mem)[Nr(layout, b, o) := data] && dirty.log == old(dirty.log) + {Nr(layout, b, o)}
      ensures P() == old(P()) && W() == old(W())
    {
      hide Good, NothingCached, CountOk, PosOk, Writer.Valid, SameShape, Nr;
      WriteKeeps(layout, blocks, S(), b, o, data);
      mem := mem[Nr(layout, b, o) := data];
      dirty.log := dirty.log + {Nr(layout, b, o)};
    }

    /** `migration_bitmap_sync` */
    method Sync()
      requires Valid(false)
      modifies dirty
      ensures Valid(false)
      ensures dirty.bitmap == old(dirty.bitmap) + old(dirty.log) * PagesOf(layout) && dirty.log * PagesOf(layout) == {}
    {
      hide Good, NothingCached, CountOk, PosOk, Writer.Valid, SameShape, GapsOk, PagesOf;
      GoodIs(layout, blocks, false, S());
      dirty.Sync(layout);
      SyncKeeps(layout, blocks, old(S()), S());
      AheadMore(layout, old(dirty.bitmap), dirty.bitmap, P());
    }

    /** `ram_save_iterate`: `rounds` is what the rate limit allows; the end marker is not counted. */
    method Iterate(rounds: nat) returns (total: nat)
      requires Valid(false)
      modifies this, dirty, out
      ensures Valid(false) && GuestRan(idle, old(mem), old(dirty.log), mem, dirty.log)
      ensures rounds > 0 || !Loses(layout, old(dirty.bitmap), old(P())) ==> Outcome(layout, old(S()), old(P()), S())
      ensures rounds == 0 ==> S() == old(S()) && P() == old(P())
      ensures total + 8 == |out.f| - |old(out.f)|
      ensures out.sections == old(out.sections) + 1 && Loads(blocks, out.f, out.sections, out.dst)
    {
      hide Source.Valid, GuestRan, Wrote, Outcome, Loses, Loads, PagesOf, HasNext, IsPage;
      total := 0;
      GuestNone(idle, mem, dirty.log);
      ghost var s0, p0, lose := S(), P(), Loses(layout, dirty.bitmap, P());
      OutcomeNone(layout, s0, p0);
      var i := 0;
      while i < rounds
        invariant Valid(false) && GuestRan(idle, old(mem), old(dirty.log), mem, dirty.log)
        invariant i <= rounds && (i == 0 ==> S() == s0 && P() == p0)
        invariant i > 0 ==> !lose && !Loses(layout, dirty.bitmap, P())
        invariant !lose ==> Outcome(layout, s0, p0, S())
        invariant total == |out.f| - |old(out.f)| && out.sections == old(out.sections)
      {
        ghost var s, p, w := S(), P(), W();
        var bytes := FindAndSave(false);
        RanTwice(idle, old(mem), old(dirty.log), s.mem, s.log, mem, dirty.log);
        WroteIs(w, W(), lastSeen.value, lastOffset, bytes);
        OutcomeTwice(layout, s0, p0, s, p, S());
        if bytes == 0 {
          break;
        }
        FreshIs(layout, s.bitmap, dirty.bitmap, P());
        total := total + bytes;
        i := i + 1;
      }
      CloseSection(false);
    }

    lemma ValidAtLast()
      requires Valid(false)
      ensures Valid(true)
    {
      hide Good, NothingCached, PosOk, Writer.Valid, CountOk, SameShape;
      LastStage(layout, blocks, S());
    }

    /** RAM_SAVE_FLAG_EOS */
    method CloseSection(last: bool)
      requires Valid(last)
      modifies out
      ensures Valid(last) && S() == old(S()) && out.sent == old(out.sent) && |out.f| == |old(out.f)| + 8
      ensures out.sections == old(out.sections) + 1 && Loads(blocks, out.f, out.sections, out.dst)
    {
      hide Good, NothingCached, CountOk, PosOk, Writer.Valid, SameShape, Loads;
      out.EndSection();
    }

    /**
     `ram_save_complete`: the guest is stopped.  The lost pages are then those of before
     that were not dirty any more, and the page of Loses; the destination has the guest's
     memory if and only if it had those pages right.  This is the memory that a
     destination has when it loads the stream, section by section.
     */
    method Complete()
      requires Valid(false)
      modifies this, dirty, out
      ensures Valid(true) && mem == old(mem) && dirty.bitmap * PagesOf(layout) == {}
      ensures lost == LostAtEnd(layout, old(dirty.bitmap) + old(dirty.log) * PagesOf(layout), old(P()), old(lost))
      ensures Loses(layout, old(dirty.bitmap) + old(dirty.log) * PagesOf(layout), old(P())) ==>
                out.sent == old(out.sent) && out.dst == old(out.dst)
      ensures Transferred(layout, mem, out.dst.ram) <==> HasRight(layout, lost, mem, old(out.dst).ram)
      ensures out.sections == old(out.sections) + 1 && Loads(blocks, out.f, out.sections, out.dst)
    {
      hide Source.Valid, Good, GuestRan, Wrote, Outcome, Loses, Loads, PagesOf, HasNext, IsPage, LayoutOk, Transferred;
      hide HasRight, LostAtEnd, NothingCached, PosOk, CountOk, Writer.Valid, SameShape;
      Sync();
      ValidIs(false);
      ValidAtLast();
      ghost var s0, p0, w0 := S(), P(), W();
      ghost var lose := Loses(layout, dirty.bitmap, p0);
      OutcomeNone(layout, s0, p0);
      while true
        invariant Valid(true) && mem == old(mem) && dirty.log == s0.log && out.sections == old(out.sections)
        invariant lose ==> S() == s0 && P() == p0 && W() == w0
        invariant !lose ==> Outcome(layout, s0, p0, S()) && !Loses(layout, dirty.bitmap, P())
        decreases dirty.count
      {
        ValidIs(true);
        ghost var s, p, w := S(), P(), W();
        var bytes := FindAndSave(true);
        RanStopped(true, s.mem, s.log, mem, dirty.log);
        WroteIs(w, W(), lastSeen.value, lastOffset, bytes);
        OutcomeTwice(layout, s0, p0, s, p, S());
        if bytes == 0 {
          break;
        }
        FreshIs(layout, s.bitmap, dirty.bitmap, P());
      }
      CloseSection(true);
      ValidIs(true);
      AtEnd(layout, blocks, s0, p0, S());
    }
  }

  // ---------- Completing ----------

  /** The destination has the guest's memory. */
  ghost predicate Transferred(layout: seq<Region>, mem: Memory, ram: Ram) {
    HasRight(layout, PagesOf(layout), mem, ram)
  }

  /** The destination has these pages of the guest's memory. */
  ghost predicate HasRight(layout: seq<Region>, pages: set<nat>, mem: Memory, ram: Ram) {
    forall b, o {:trigger IsPage(layout, b, o)} :: IsPage(layout, b, o) && Nr(layout, b, o) in pages ==>
      Nr(layout, b, o) in mem && mem[Nr(layout, b, o)] == PageAt(ram, b, o)
  }

  /** Completing with these dirty pages resends them, or loses one more. */
  ghost function LostAtEnd(layout: seq<Region>, bitmap: set<nat>, p: Pos, lost: set<nat>): set<nat> {
    if Loses(layout, bitmap, p) then lost + {At(layout, p)} else lost - bitmap
  }

  lemma ShapeIs(layout: seq<Region>, blocks: seq<Block>)
    requires SameShape(layout, blocks)
    ensures LayoutOk(layout) && SizesOk(blocks)
  {
  }

  lemma FirstIs(p: Pos)
    ensures First(p) == if p.seen.Some? then p.seen.value else 0
  {
  }

  lemma OutcomeNone(layout: seq<Region>, s: Snap, p: Pos)
    ensures !Loses(layout, s.bitmap, p) ==> Outcome(layout, s, p, s)
  {
    hide Loses;
    ProgressNone(layout, s);
  }

  /** A search that loses a page is the first, or follows no other. */
  lemma OutcomeTwice(layout: seq<Region>, s0: Snap, p0: Pos, s: Snap, p: Pos, s': Snap)
    requires Outcome(layout, s, p, s')
    requires if Loses(layout, s0.bitmap, p0) then s == s0 && p == p0
             else Outcome(layout, s0, p0, s) && !Loses(layout, s.bitmap, p)
    ensures Outcome(layout, s0, p0, s')
  {
    hide Loses, Progress;
    if !Loses(layout, s0.bitmap, p0) {
      ProgressTwice(layout, s0, s, s');
    }
  }

  lemma FreshIs(layout: seq<Region>, bitmap: set<nat>, bitmap': set<nat>, p: Pos)
    requires p.bulk ==> First(p) < |layout| && p.seen.Some? && bitmap' == bitmap - {At(layout, p)}
    ensures !Loses(layout, bitmap', p)
  {
    LosesFresh(layout, bitmap', p);
  }

  lemma WriteKeeps(layout: seq<Region>, blocks: seq<Block>, s: Snap, b: nat, o: nat, data: seq<byte>)
    requires Good(layout, blocks, false, s) && IsPage(layout, b, o) && |data| == 4096
    ensures Good(layout, blocks, false, s.(mem := s.mem[Nr(layout, b, o) := data], log := s.log + {Nr(layout, b, o)}))
  {
    hide Coherent, SameShape, PageAt;
    var s' := s.(mem := s.mem[Nr(layout, b, o) := data], log := s.log + {Nr(layout, b, o)});
    NrIsPage(layout, b, o);
    assert s'.mem.Keys == s.mem.Keys;
    var pending, pending' := s.bitmap + s.log + s.lost, s'.bitmap + s'.log + s'.lost;
    forall c, p {:trigger IsPage(layout, c, p)} | IsPage(layout, c, p)
      ensures Settled(layout, pending', s'.mem, s.dst.ram, c, p)
    {
      assert Settled(layout, pending, s.mem, s.dst.ram, c, p);
    }
  }

  lemma SyncKeeps(layout: seq<Region>, blocks: seq<Block>, s: Snap, s': Snap)
    requires Good(layout, blocks, false, s) && s' == s.(bitmap := s'.bitmap, log := s'.log)
    requires s'.bitmap == s.bitmap + s.log * PagesOf(layout) && GapsOk(layout, s'.bitmap, s'.log)
    ensures Good(layout, blocks, false, s')
  {
    hide SameShape, MemOk, PageAt, PagesOf, GapsOk;
    var pending, pending' := s.bitmap + s.log + s.lost, s'.bitmap + s'.log + s'.lost;
    forall c, p {:trigger IsPage(layout, c, p)} | IsPage(layout, c, p)
      ensures Settled(layout, pending', s.mem, s.dst.ram, c, p)
    {
      assert Settled(layout, pending, s.mem, s.dst.ram, c, p);
      NrIsPage(layout, c, p);
    }
  }

  /** With no page dirty or logged, whether memory was transferred is a question about lost pages. */
  lemma NoneDirty(layout: seq<Region>, blocks: seq<Block>, s: Snap)
    requires Good(layout, blocks, true, s) && s.bitmap * PagesOf(layout) == {} && s.log * PagesOf(layout) == {}
    ensures Transferred(layout, s.mem, s.dst.ram) <==> HasRight(layout, s.lost, s.mem, s.dst.ram)
  {
    hide SameShape, MemOk, GapsOk, Coherent, PageAt, PagesOf;
    var pages := PagesOf(layout);
    forall b, o {:trigger IsPage(layout, b, o)} | IsPage(layout, b, o)
      ensures Nr(layout, b, o) in pages && (Settled(layout, s.lost, s.mem, s.dst.ram, b, o))
    {
      NrIsPage(layout, b, o);
      assert Settled(layout, s.bitmap + s.log + s.lost, s.mem, s.dst.ram, b, o);
      assert Nr(layout, b, o) !in s.bitmap * pages && Nr(layout, b, o) !in s.log * pages;
    }
  }

  /** The lost pages are as they were at the destination. */
  lemma AtEnd(layout: seq<Region>, blocks: seq<Block>, s: Snap, p: Pos, s': Snap)
    requires Outcome(layout, s, p, s') && s.lost <= PagesOf(layout) && Good(layout, blocks, true, s')
    requires s'.bitmap * PagesOf(layout) == {} && s'.log * PagesOf(layout) == {}
    ensures s'.lost == LostAtEnd(layout, s.bitmap, p, s.lost)
    ensures Transferred(layout, s'.mem, s'.dst.ram) <==> HasRight(layout, s'.lost, s'.mem, s.dst.ram)
  {
    hide Good, PageAt, PagesOf, Loses, Transferred;
    NoneDirty(layout, blocks, s');
    if !Loses(layout, s.bitmap, p) {
      assert forall x :: x in s.lost ==> x !in s'.bitmap * PagesOf(layout);
      assert s'.lost == s.lost - s.bitmap;
      assert HasRight(layout, s'.lost, s'.mem, s.dst.ram) <==> HasRight(layout, s'.lost, s'.mem, s'.dst.ram);
    }
  }

  // ---------- A lost page ----------

  lemma TwoPages(layout: seq<Region>, blocks: seq<Block>, mem: Memory)
    requires layout == [Region(0, 2)] && blocks == [Block([], 8192)] && mem == map[0 := Filled(0), 1 := Filled(0)]
    ensures SameShape(layout, blocks) && MemOk(layout, mem) && PagesOf(layout) == {0, 1} && {} <= Range(0, 2)
  {
    forall x ensures x in PagesOf(layout) <==> x == 0 || x == 1 {
      InPages(layout, x);
    }
    assert PagesOf(layout) == {0, 1};
    assert blocks[1..] == [] && RamStream.Total(blocks) == 8192;
  }

  lemma SecondSettled(src: Source)
    requires src.Valid(false) && src.layout == [Region(0, 2)] && src.lost == {}
    requires src.dirty.bitmap * {0, 1} == {} && src.dirty.log * {0, 1} == {}
    ensures 1 in src.mem && src.mem[1] == PageAt(src.out.dst.ram, 0, 1)
  {
    hide Source.Ready, SameShape, MemOk, GapsOk, Coherent, PageAt, PagesOf, PosOk, CountOk, NothingCached;
    var pending := src.dirty.bitmap + src.dirty.log + src.lost;
    assert IsPage(src.layout, 0, 1) && 1 !in src.dirty.log * {0, 1} && 1 !in src.dirty.bitmap * {0, 1};
    assert Settled(src.layout, pending, src.mem, src.out.dst.ram, 0, 1);
  }

  lemma SecondIs(layout: seq<Region>, p: Pos, bitmap: set<nat>, bitmap': set<nat>)
    requires layout == [Region(0, 2)] && p.bulk && p.seen.Some? && First(p) < |layout|
    requires IsPage(layout, First(p), p.offset)
    requires At(layout, p) in bitmap - {At(layout, Pos(true, Some(0), 0))}
    requires bitmap' == bitmap - {At(layout, Pos(true, Some(0), 0))} - {At(layout, p)}
    ensures p == Pos(true, Some(0), 1) && bitmap' * {0, 1} == {}
  {
  }

  lemma SecondDiffers(layout: seq<Region>, mem: Memory, ram: Ram)
    requires layout == [Region(0, 2)] && PageAt(ram, 0, 1) == Filled(0)
    ensures var mem' := mem[Nr(layout, 0, 1) := Filled(1)];
            1 in mem' && mem'[1] != PageAt(ram, 0, 1) && !HasRight(layout, {1}, mem', ram)
  {
    assert IsPage(layout, 0, 1) && Nr(layout, 0, 1) == 1;
    assert Filled(0)[0] != Filled(1)[0];
  }

  lemma LosesSecond(layout: seq<Region>, bitmap: set<nat>, log: set<nat>)
    requires layout == [Region(0, 2)] && PagesOf(layout) == {0, 1} && bitmap * {0, 1} == {} && log * {0, 1} == {}
    ensures Loses(layout, bitmap + (log + {Nr(layout, 0, 1)}) * PagesOf(layout), Pos(true, Some(0), 1))
  {
    hide PagesOf;
    assert 0 !in log * {0, 1} && 1 !in log * {0, 1};
    assert 0 !in bitmap * {0, 1} && 1 !in bitmap * {0, 1};
    assert (bitmap + (log + {1}) * PagesOf(layout)) * PagesOf(layout) == {1};
  }

  lemma OneAfterOther(layout: seq<Region>)
    requires layout == [Region(0, 2)]
    ensures IsPage(layout, 0, 1) && |Filled(1)| == 4096
    ensures HasNext(layout, Pos(true, None, 0)) && HasNext(layout, Pos(true, Some(0), 0))
  {
  }

  lemma LostIs(layout: seq<Region>, lost: set<nat>, bitmap: set<nat>)
    requires layout == [Region(0, 2)] && Loses(layout, bitmap, Pos(true, Some(0), 1))
    requires lost == LostAtEnd(layout, bitmap, Pos(true, Some(0), 1), {})
    ensures lost == {1}
  {
  }

  lemma OutcomeIs(layout: seq<Region>, s: Snap, p: Pos, s': Snap)
    requires Outcome(layout, s, p, s') && s.lost == {}
    ensures !Loses(layout, s.bitmap, p) ==> s'.lost == {}
  {
    hide Loses, Untouched;
  }

  /** A page goes out in the bulk stage of a guest that does not run. */
  method SendNext(src: Source) returns (bytes: int)
    requires src.Valid(false) && src.idle && src.bulk && HasNext(src.layout, src.P()) && src.lost == {}
    requires !Loses(src.layout, src.dirty.bitmap, src.P())
    modifies src, src.dirty, src.out`f, src.out`sent, src.out`dst
    ensures src.Valid(false) && src.mem == old(src.mem) && src.dirty.log == old(src.dirty.log) && src.lost == {}
    ensures bytes > 0 && |src.out.sent| == |old(src.out.sent)| + 1 && !Loses(src.layout, src.dirty.bitmap, src.P())
    ensures src.bulk && src.lastSeen.Some? && First(src.P()) < |src.layout|
    ensures IsPage(src.layout, First(src.P()), src.lastOffset)
    ensures At(src.layout, src.P()) in old(src.dirty.bitmap)
    ensures src.P() == Pos(true, src.lastSeen, src.lastOffset)
    ensures old(src.lastSeen).None? ==> src.lastSeen == Some(0) && src.lastOffset == 0
    ensures src.dirty.bitmap == old(src.dirty.bitmap) - {At(src.layout, src.P())}
  {
    hide Source.Valid, PagesOf, Loses, GuestRan, Wrote, Outcome, HasNext;
    ghost var s, p, w := src.S(), src.P(), src.W();
    bytes := src.FindAndSave(false);
    RanStopped(true, s.mem, s.log, src.mem, src.dirty.log);
    WroteIs(w, src.W(), src.lastSeen.value, src.lastOffset, bytes);
    OutcomeIs(src.layout, s, p, src.S());
    FreshIs(src.layout, s.bitmap, src.dirty.bitmap, src.P());
  }

  /** A block of two pages of zeroes has been sent. */
  method TwoSent() returns (src: Source)
    ensures fresh(src) && fresh(src.dirty) && fresh(src.out) && src.Valid(false)
    ensures src.layout == [Region(0, 2)] && PagesOf(src.layout) == {0, 1} && src.P() == Pos(true, Some(0), 1)
    ensures src.dirty.bitmap * {0, 1} == {} && src.dirty.log * {0, 1} == {} && src.lost == {}
    ensures |src.out.sent| == 2 && src.out.sections == 1 && PageAt(src.out.dst.ram, 0, 1) == Filled(0)
  {
    hide *;
    var layout, blocks := [Region(0, 2)], [Block([], 8192)];
    var mem: Memory := map[0 := Filled(0), 1 := Filled(0)];
    TwoPages(layout, blocks, mem);
    OneAfterOther(layout);
    src := new Source(layout, blocks, false, true, mem, 1, {}, 2);
    ghost var bitmap := src.dirty.bitmap;
    LosesBulk(layout, bitmap, src.P());
    var bytes := SendNext(src);
    bytes := SendNext(src);
    SecondIs(layout, src.P(), bitmap, src.dirty.bitmap);
    SecondSettled(src);
  }

  /**
   A page is lost: a block of two pages is sent, the guest then writes the second page
   again, and completing the migration in the bulk stage clears its bit without sending
   it.  The migration has ended as any other, and the destination loads the stream.
   */
  method LostPage() returns (src: Source)
    ensures src.Valid(true) && src.layout == [Region(0, 2)] && src.dirty.bitmap * PagesOf(src.layout) == {}
    ensures |src.out.sent| == 2 && Loads(src.blocks, src.out.f, 2, src.out.dst)
    ensures src.lost == {1} && 1 in src.mem && src.mem[1] != PageAt(src.out.dst.ram, 0, 1)
    ensures !Transferred(src.layout, src.mem, src.out.dst.ram)
  {
    hide *;
    src := TwoSent();
    ghost var bitmap, log := src.dirty.bitmap, src.dirty.log;
    OneAfterOther(src.layout);
    LosesSecond(src.layout, bitmap, log);
    SecondDiffers(src.layout, src.mem, src.out.dst.ram);
    src.GuestWrite(0, 1, Filled(1));
    ghost var synced := bitmap + src.dirty.log * PagesOf(src.layout);
    src.Complete();
    LostIs(src.layout, src.lost, synced);
  }
}

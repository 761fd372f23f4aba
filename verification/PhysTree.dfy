/**
 The radix tree of qemu/exec.c that maps guest physical pages to section
 numbers: node allocation, range insertion, in-place compaction and lookup.

 The node arrays are the concrete state.  What they mean is a ghost page map
 `pm: page -> section`.  A ghost directory names every node by the block of
 pages it stands for, which makes "this entry is right" a condition on one
 entry at a time.
 */
module PhysTree {

  const NODE_NIL: nat := 0x3FF_FFFF
  const UNASSIGNED: nat := 0

  /** `skip` levels down to the next node, 0 for a leaf; `ptr` is a node or a section. */
  datatype Entry = Entry(skip: nat, ptr: nat)

  const NilEntry := Entry(1, NODE_NIL)

  type Node = seq<Entry>

  /** The block of pages a node stands for: all pages x with Up(level + 1, x) == block. */
  datatype Label = Label(level: nat, block: nat)

  datatype Shape = Shape(labels: seq<Label>, dir: map<Label, nat>)

  datatype Tree = Tree(root: Entry, nodes: seq<Node>)

  /** A pointer to an entry: the root, or a slot of a node. */
  datatype Ref = Root | Slot(node: nat, slot: nat)

  type PageMap = nat -> nat

  /** Pages under one entry at a level: 512^level. */
  function Step(level: nat): (s: nat)
    requires level <= 6
    ensures s > 0
  {
    if level == 0 then 1
    else if level == 1 then 0x200
    else if level == 2 then 0x4_0000
    else if level == 3 then 0x800_0000
    else if level == 4 then 0x10_0000_0000
    else if level == 5 then 0x2000_0000_0000
    else 0x40_0000_0000_0000
  }

  /** The number of the level-`level` entry that page x falls under. */
  function Up(level: nat, x: nat): nat
    requires level <= 6
  {
    if level == 0 then x else Up(level - 1, x) / 512
  }

  lemma {:induction false} UpIsShift(level: nat, x: nat)
    requires level <= 6
    ensures Up(level, x) == x / Step(level)
  {
    if level > 0 {
      UpIsShift(level - 1, x);
      if level == 1 {} else if level == 2 {} else if level == 3 {}
      else if level == 4 {} else if level == 5 {} else {}
    }
  }

  /** Page x is the first page of a level-`level` block. */
  predicate Aligned(level: nat, x: nat)
    requires level <= 6
  {
    level == 0 || (Aligned(level - 1, x) && Up(level - 1, x) % 512 == 0)
  }

  lemma {:induction false} AlignedIsMultiple(level: nat, x: nat)
    requires level <= 6
    ensures Up(level, x) * Step(level) <= x
    ensures Aligned(level, x) <==> x == Up(level, x) * Step(level)
  {
    if level > 0 {
      AlignedIsMultiple(level - 1, x);
      if level == 1 {} else if level == 2 {} else if level == 3 {}
      else if level == 4 {} else if level == 5 {} else {}
    }
  }

  /** `(x & (step - 1)) == 0`. */
  lemma AlignedIsMask(level: nat, x: nat)
    requires level <= 6
    ensures Aligned(level, x) <==> x % Step(level) == 0
    ensures level == 0 ==> Aligned(level, x) && Step(level) == 1
  {
    AlignedIsMultiple(level, x);
    UpIsShift(level, x);
  }

  /** An aligned run of 512^level pages is exactly one entry's block. */
  lemma UpRange(level: nat, lo: nat, x: nat)
    requires level <= 6
    requires Aligned(level, lo)
    ensures Up(level, x) == Up(level, lo) <==> lo <= x < lo + Step(level)
  {
    AlignedIsMask(level, lo);
    UpIsShift(level, lo);
    UpIsShift(level, x);
    if level == 0 {} else if level == 1 {} else if level == 2 {}
    else if level == 3 {} else if level == 4 {} else if level == 5 {} else {}
  }

  function At(t: Tree, r: Ref): Entry
    requires r.Slot? ==> r.node < |t.nodes| && r.slot < |t.nodes[r.node]|
  {
    if r.Root? then t.root else t.nodes[r.node][r.slot]
  }

  function Put(t: Tree, r: Ref, e: Entry): Tree
    requires r.Slot? ==> r.node < |t.nodes| && r.slot < |t.nodes[r.node]|
  {
    if r.Root? then t.(root := e)
    else t.(nodes := t.nodes[r.node := t.nodes[r.node][r.slot := e]])
  }

  function RefLevel(sh: Shape, r: Ref): nat
    requires r.Slot? ==> r.node < |sh.labels|
  {
    if r.Root? then 6 else sh.labels[r.node].level
  }

  /** The number of the entry among all entries of its level. */
  function RefNumber(sh: Shape, r: Ref): nat
    requires r.Slot? ==> r.node < |sh.labels|
  {
    if r.Root? then 0 else 512 * sh.labels[r.node].block + r.slot
  }

  predicate RefOk(t: Tree, r: Ref) {
    r.Slot? ==> r.node < |t.nodes| && r.slot < 512 && |t.nodes[r.node]| == 512
  }

  /** The block one level up. */
  function Parent(k: Label): Label {
    Label(k.level + 1, k.block / 512)
  }

  /** Labels and directory are inverse, and the directory is closed upwards. */
  ghost predicate ShapeOk(sh: Shape) {
    && |sh.labels| < NODE_NIL
    && (forall n :: 0 <= n < |sh.labels| ==>
          && sh.labels[n].level < 6
          && sh.labels[n] in sh.dir && sh.dir[sh.labels[n]] == n)
    && (forall k :: k in sh.dir ==>
          && sh.dir[k] < |sh.labels| && sh.labels[sh.dir[k]] == k
          && (k.level == 5 ==> k.block == 0))
    && (forall k {:trigger Parent(k)} :: k in sh.dir && k.level < 5 ==> Parent(k) in sh.dir)
  }

  /**
   What an uncompacted entry must say about its block: point to the node of the
   block if there is one; otherwise be a leaf that all pages agree with, or nil
   with no page assigned.
   */
  ghost predicate EntryOk(sh: Shape, pm: PageMap, level: nat, number: nat, e: Entry)
    requires level <= 6
  {
    if level > 0 && Label(level - 1, number) in sh.dir then
      e == Entry(1, sh.dir[Label(level - 1, number)])
    else if e.skip == 0 then
      && (level > 0 ==> e.ptr != UNASSIGNED) && e.ptr != NODE_NIL
      && forall x: nat :: Up(level, x) == number ==> pm(x) == e.ptr
    else
      && level > 0 && e == NilEntry
      && forall x: nat :: Up(level, x) == number ==> pm(x) == UNASSIGNED
  }

  /** The entry at r says what the page map says of its block. */
  ghost predicate SaysRight(t: Tree, sh: Shape, pm: PageMap, r: Ref) {
    && RefOk(t, r)
    && (r.Slot? ==> r.node < |sh.labels| && sh.labels[r.node].level < 6)
    && EntryOk(sh, pm, RefLevel(sh, r), RefNumber(sh, r), At(t, r))
  }

  ghost predicate TreeOk(t: Tree, sh: Shape, pm: PageMap) {
    && ShapeOk(sh)
    && |t.nodes| == |sh.labels|
    && (forall n :: 0 <= n < |t.nodes| ==> |t.nodes[n]| == 512)
    && t.root.skip != 0
    && forall r: Ref :: RefOk(t, r) ==> SaysRight(t, sh, pm, r)
  }

  /** Some page of the block is assigned. */
  ghost predicate Occupied(pm: PageMap, k: Label)
    requires k.level < 6
  {
    exists x: nat :: Up(k.level + 1, x) == k.block && pm(x) != UNASSIGNED
  }

  /**
   Every node has an assigned page, except nodes at `level` and above around
   page `x`: those are being filled.
   */
  ghost predicate OccupiedExcept(sh: Shape, pm: PageMap, level: nat, x: nat) {
    forall k :: k in sh.dir && k.level < 6 ==>
      Occupied(pm, k) || (k.level >= level && Up(k.level + 1, x) == k.block)
  }

  /** The nodes around page x from level lo up are all in the directory. */
  lemma {:induction false} DirUp(sh: Shape, lo: nat, hi: nat, x: nat)
    requires ShapeOk(sh) && lo <= hi < 6
    requires Label(lo, Up(lo + 1, x)) in sh.dir
    ensures Label(hi, Up(hi + 1, x)) in sh.dir
    decreases hi - lo
  {
    if lo < hi {
      assert Parent(Label(lo, Up(lo + 1, x))) in sh.dir;
      DirUp(sh, lo + 1, hi, x);
    }
  }

  function SetPages(pm: PageMap, lo: nat, n: nat, leaf: nat): PageMap {
    (x: nat) => if lo <= x < lo + n then leaf else pm(x)
  }

  ghost predicate Free(pm: PageMap, lo: nat, hi: nat) {
    forall x: nat :: lo <= x < hi ==> pm(x) == UNASSIGNED
  }

  /** Exactly the pages from lo up to hi have become the leaf's. */
  ghost predicate Assigned(pm: PageMap, pm': PageMap, lo: nat, hi: nat, leaf: nat) {
    forall x: nat :: pm'(x) == if lo <= x < hi then leaf else pm(x)
  }

  lemma AssignedAppend(pm0: PageMap, pm1: PageMap, pm2: PageMap, lo: nat, mid: nat, hi: nat, leaf: nat)
    requires Assigned(pm0, pm1, lo, mid, leaf) && Assigned(pm1, pm2, mid, hi, leaf) && lo <= mid <= hi
    ensures Assigned(pm0, pm2, lo, hi, leaf)
  {
  }

  lemma FreeRest(pm0: PageMap, pm1: PageMap, lo: nat, mid: nat, hi: nat, leaf: nat)
    requires Assigned(pm0, pm1, lo, mid, leaf) && Free(pm0, lo, hi) && lo <= mid <= hi
    ensures Free(pm1, mid, hi)
  {
  }

  /** The shape after node number |labels| is given block `block` at `level`. */
  function Grow(sh: Shape, level: nat, block: nat): Shape {
    Shape(sh.labels + [Label(level, block)], sh.dir[Label(level, block) := |sh.labels|])
  }

  /** A fresh node: nil slots, or unassigned leaves at the bottom level. */
  function FreshNode(level: nat): (n: Node)
    ensures |n| == 512
    ensures forall i :: 0 <= i < 512 ==> n[i] == if level == 0 then Entry(0, UNASSIGNED) else NilEntry
  {
    seq(512, i => if level == 0 then Entry(0, UNASSIGNED) else NilEntry)
  }

  lemma GrowShapeOk(sh: Shape, level: nat, block: nat)
    requires ShapeOk(sh) && level < 6 && |sh.labels| + 1 < NODE_NIL
    requires Label(level, block) !in sh.dir
    requires level == 5 ==> block == 0
    requires level < 5 ==> Parent(Label(level, block)) in sh.dir
    ensures ShapeOk(Grow(sh, level, block))
  {
    var g := Grow(sh, level, block);
    forall k | k in g.dir
      ensures g.dir[k] < |g.labels| && g.labels[g.dir[k]] == k
    {}
  }

  /** The tree with a fresh node hung under entry r. */
  function Hang(t: Tree, r: Ref, level: nat): Tree
    requires RefOk(t, r)
  {
    var t' := Put(t, r, Entry(1, |t.nodes|));
    t'.(nodes := t'.nodes + [FreshNode(level)])
  }

  /** The slots of a fresh node under a nil entry say what the page map says. */
  lemma FreshSlotOk(sh: Shape, pm: PageMap, level: nat, block: nat, i: nat)
    requires ShapeOk(sh) && level < 6 && i < 512
    requires EntryOk(sh, pm, level + 1, block, NilEntry)
    requires Label(level, block) !in sh.dir
    ensures EntryOk(Grow(sh, level, block), pm, level, 512 * block + i, FreshNode(level)[i])
  {
    var number := 512 * block + i;
    assert level > 0 ==> Parent(Label(level - 1, number)) == Label(level, block);
    forall x: nat | Up(level, x) == number ensures pm(x) == UNASSIGNED {
    }
  }

  /** Hanging a node under one entry does not touch what another entry says. */
  lemma HangKept(t: Tree, sh: Shape, pm: PageMap, r: Ref, o: Ref)
    requires TreeOk(t, sh, pm) && RefOk(t, r) && RefOk(t, o)
    requires At(t, r) == NilEntry && RefLevel(sh, r) > 0
    ensures EntryOk(Grow(sh, RefLevel(sh, r) - 1, RefNumber(sh, r)), pm, RefLevel(sh, o), RefNumber(sh, o),
                    if o == r then Entry(1, |t.nodes|) else At(t, o))
  {
    assert SaysRight(t, sh, pm, o);
    RefUnique(t, sh, r, o);
  }

  /** Level and number determine the entry. */
  lemma RefUnique(t: Tree, sh: Shape, r: Ref, o: Ref)
    requires ShapeOk(sh) && |t.nodes| == |sh.labels| && RefOk(t, r) && RefOk(t, o)
    ensures RefLevel(sh, o) == RefLevel(sh, r) && RefNumber(sh, o) == RefNumber(sh, r) ==> r == o
  {
    if r.Slot? && o.Slot? && RefLevel(sh, o) == RefLevel(sh, r) && RefNumber(sh, o) == RefNumber(sh, r) {
      assert sh.labels[o.node] == sh.labels[r.node];
    }
  }

  /** What is where in the tree with the fresh node. */
  lemma HangAt(t: Tree, sh: Shape, r: Ref, level: nat, block: nat, o: Ref)
    requires |t.nodes| == |sh.labels| && RefOk(t, r) && RefOk(Hang(t, r, level), o)
    ensures var g, h := Grow(sh, level, block), Hang(t, r, level);
            if o.Slot? && o.node == |t.nodes| then
              At(h, o) == FreshNode(level)[o.slot] && RefLevel(g, o) == level && RefNumber(g, o) == 512 * block + o.slot
            else
              && RefOk(t, o) && At(h, o) == (if o == r then Entry(1, |t.nodes|) else At(t, o))
              && RefLevel(g, o) == RefLevel(sh, o) && RefNumber(g, o) == RefNumber(sh, o)
  {
  }

  lemma HangEntry(t: Tree, sh: Shape, pm: PageMap, r: Ref, o: Ref)
    requires TreeOk(t, sh, pm) && RefOk(t, r)
    requires At(t, r) == NilEntry && RefLevel(sh, r) > 0
    requires RefOk(Hang(t, r, RefLevel(sh, r) - 1), o)
    ensures SaysRight(Hang(t, r, RefLevel(sh, r) - 1), Grow(sh, RefLevel(sh, r) - 1, RefNumber(sh, r)), pm, o)
  {
    var level, block := RefLevel(sh, r) - 1, RefNumber(sh, r);
    HangAt(t, sh, r, level, block, o);
    if o.Slot? && o.node == |t.nodes| {
      assert SaysRight(t, sh, pm, r);
      FreshSlotOk(sh, pm, level, block, o.slot);
    } else {
      HangKept(t, sh, pm, r, o);
    }
  }

  /** An entry that is not a leaf is nil or leads to the node of its block. */
  lemma EntryTarget(t: Tree, sh: Shape, pm: PageMap, r: Ref)
    requires TreeOk(t, sh, pm) && RefOk(t, r) && At(t, r).skip != 0
    ensures |t.nodes| == |sh.labels| && RefLevel(sh, r) > 0
    ensures At(t, r).ptr == NODE_NIL ==> At(t, r) == NilEntry
    ensures At(t, r).ptr != NODE_NIL ==>
              At(t, r).ptr < |sh.labels| && sh.labels[At(t, r).ptr] == Label(RefLevel(sh, r) - 1, RefNumber(sh, r))
  {
    assert SaysRight(t, sh, pm, r);
  }

  lemma HangShape(t: Tree, sh: Shape, pm: PageMap, r: Ref)
    requires TreeOk(t, sh, pm) && RefOk(t, r)
    requires At(t, r) == NilEntry && RefLevel(sh, r) > 0
    requires |sh.labels| + 1 < NODE_NIL
    ensures ShapeOk(Grow(sh, RefLevel(sh, r) - 1, RefNumber(sh, r)))
  {
    var level, block := RefLevel(sh, r) - 1, RefNumber(sh, r);
    assert SaysRight(t, sh, pm, r);
    assert r.Slot? ==> Parent(Label(level, block)) == sh.labels[r.node];
    GrowShapeOk(sh, level, block);
  }

  /** Hanging a fresh node under a nil entry keeps the tree right and the page map as it was. */
  lemma HangNode(t: Tree, sh: Shape, pm: PageMap, r: Ref)
    requires TreeOk(t, sh, pm) && RefOk(t, r)
    requires At(t, r) == NilEntry && RefLevel(sh, r) > 0
    requires |sh.labels| + 1 < NODE_NIL
    ensures TreeOk(Hang(t, r, RefLevel(sh, r) - 1), Grow(sh, RefLevel(sh, r) - 1, RefNumber(sh, r)), pm)
  {
    hide SaysRight, ShapeOk, FreshNode, Up;
    var level, block := RefLevel(sh, r) - 1, RefNumber(sh, r);
    var g, h := Grow(sh, level, block), Hang(t, r, level);
    HangShape(t, sh, pm, r);
    forall o: Ref | RefOk(h, o) ensures SaysRight(h, g, pm, o) {
      HangEntry(t, sh, pm, r, o);
    }
  }

  /** The entry can be overwritten by a leaf: its block is free, aligned and has no node below. */
  ghost predicate CanTake(t: Tree, sh: Shape, pm: PageMap, r: Ref, lo: nat) {
    && TreeOk(t, sh, pm) && RefOk(t, r) && r.Slot?
    && Aligned(RefLevel(sh, r), lo) && Up(RefLevel(sh, r), lo) == RefNumber(sh, r)
    && Free(pm, lo, lo + Step(RefLevel(sh, r)))
    && OccupiedExcept(sh, pm, RefLevel(sh, r), lo)
  }

  lemma NoNodeBelow(t: Tree, sh: Shape, pm: PageMap, r: Ref, lo: nat)
    requires CanTake(t, sh, pm, r, lo)
    ensures RefLevel(sh, r) > 0 ==> Label(RefLevel(sh, r) - 1, RefNumber(sh, r)) !in sh.dir
  {
    var level, number := RefLevel(sh, r), RefNumber(sh, r);
    if level > 0 && Label(level - 1, number) in sh.dir {
      assert Occupied(pm, Label(level - 1, number));
      var x: nat :| Up(level, x) == number && pm(x) != UNASSIGNED;
      UpRange(level, lo, x);
    }
  }

  lemma TakenEntry(t: Tree, sh: Shape, pm: PageMap, r: Ref, lo: nat, leaf: nat, o: Ref)
    requires CanTake(t, sh, pm, r, lo) && UNASSIGNED < leaf < NODE_NIL && RefOk(t, o)
    ensures SaysRight(Put(t, r, Entry(0, leaf)), sh, SetPages(pm, lo, Step(RefLevel(sh, r)), leaf), o)
  {
    assert SaysRight(t, sh, pm, o);
    assert At(Put(t, r, Entry(0, leaf)), o) == if o == r then Entry(0, leaf) else At(t, o);
    var level, number := RefLevel(sh, r), RefNumber(sh, r);
    NoNodeBelow(t, sh, pm, r, lo);
    if o == r {
      forall x: nat ensures Up(level, x) == number <==> lo <= x < lo + Step(level) {
        UpRange(level, lo, x);
      }
    } else {
      assert sh.labels[r.node] == Label(level, number / 512);
      assert o.Slot? ==> sh.labels[o.node] == Label(RefLevel(sh, o), RefNumber(sh, o) / 512);
      RefUnique(t, sh, r, o);
      OtherEntryKept(sh, pm, level, lo, leaf, RefLevel(sh, o), RefNumber(sh, o), At(t, o));
    }
  }

  /**
   Overwriting an entry by a leaf for its whole, so far unassigned, block keeps
   the tree right for the page map with that block assigned.
   */
  lemma SetLeaf(t: Tree, sh: Shape, pm: PageMap, r: Ref, lo: nat, leaf: nat)
    requires CanTake(t, sh, pm, r, lo) && UNASSIGNED < leaf < NODE_NIL
    ensures TreeOk(Put(t, r, Entry(0, leaf)), sh, SetPages(pm, lo, Step(RefLevel(sh, r)), leaf))
    ensures AllOccupied(sh, SetPages(pm, lo, Step(RefLevel(sh, r)), leaf))
    ensures Assigned(pm, SetPages(pm, lo, Step(RefLevel(sh, r)), leaf), lo, lo + Step(RefLevel(sh, r)), leaf)
  {
    var pm', t' := SetPages(pm, lo, Step(RefLevel(sh, r)), leaf), Put(t, r, Entry(0, leaf));
    OccupiedAfter(sh, pm, pm', RefLevel(sh, r), lo);
    hide SaysRight;
    forall o: Ref | RefOk(t', o) ensures SaysRight(t', sh, pm', o) {
      TakenEntry(t, sh, pm, r, lo, leaf, o);
    }
  }

  /** Above the bottom, the entry over a free page is not a leaf. */
  lemma FreeIsNoLeaf(t: Tree, sh: Shape, pm: PageMap, r: Ref, index: nat)
    requires TreeOk(t, sh, pm) && RefOk(t, r) && RefLevel(sh, r) > 0
    requires Up(RefLevel(sh, r), index) == RefNumber(sh, r) && pm(index) == UNASSIGNED
    ensures At(t, r).skip != 0
  {
    assert SaysRight(t, sh, pm, r);
  }

  /**
   An entry other than the one assigned keeps its meaning: above, it points to a
   node; at the same level, its pages are others; below, there is none.
   */
  lemma OtherEntryKept(sh: Shape, pm: PageMap, level: nat, lo: nat, leaf: nat, l: nat, number: nat, e: Entry)
    requires ShapeOk(sh) && level < 6 && l <= 6
    requires EntryOk(sh, pm, l, number, e)
    requires Aligned(level, lo)
    requires Label(level, Up(level, lo) / 512) in sh.dir
    requires level > 0 ==> Label(level - 1, Up(level, lo)) !in sh.dir
    requires l < 6 ==> Label(l, number / 512) in sh.dir
    requires l == level ==> number != Up(level, lo)
    ensures EntryOk(sh, SetPages(pm, lo, Step(level), leaf), l, number, e)
  {
    forall x: nat | Up(l, x) == number && lo <= x < lo + Step(level)
      ensures l > 0 && Label(l - 1, number) in sh.dir
    {
      UpRange(level, lo, x);
      if l > level {
        DirUp(sh, level, l - 1, x);
      } else if l < level {
        DirUp(sh, l, level - 1, x);
      }
    }
  }

  ghost predicate AllOccupied(sh: Shape, pm: PageMap) {
    OccupiedExcept(sh, pm, 6, 0)
  }

  /** Once page x is assigned, no node is empty any more. */
  lemma OccupiedAfter(sh: Shape, pm: PageMap, pm': PageMap, level: nat, x: nat)
    requires OccupiedExcept(sh, pm, level, x) && pm'(x) != UNASSIGNED
    requires forall y: nat :: pm(y) != UNASSIGNED ==> pm'(y) != UNASSIGNED
    ensures AllOccupied(sh, pm')
  {
    forall k | k in sh.dir && k.level < 6 ensures Occupied(pm', k) {
      if Occupied(pm, k) {
        var y: nat :| Up(k.level + 1, y) == k.block && pm(y) != UNASSIGNED;
        assert pm'(y) != UNASSIGNED;
      }
    }
  }

  lemma NoneExcepted(sh: Shape, pm: PageMap, level: nat, x: nat)
    requires AllOccupied(sh, pm)
    ensures OccupiedExcept(sh, pm, level, x)
  {
  }

  lemma UpAdd(level: nat, x: nat)
    requires level < 6 && Aligned(level, x)
    ensures Aligned(level, x + Step(level)) && Up(level, x + Step(level)) == Up(level, x) + 1
  {
    hide Up, Aligned;
    AlignedIsMask(level, x);
    AlignedIsMask(level, x + Step(level));
    UpIsShift(level, x);
    UpIsShift(level, x + Step(level));
    if level == 0 {} else if level == 1 {} else if level == 2 {}
    else if level == 3 {} else if level == 4 {} else {}
  }

  /**
   How many nodes one insertion at a level may allocate: one per level along an
   edge of the range, two edges unless the range starts or ends with the node.
   */
  function NodesNeeded(level: nat, index: nat, nb: nat): nat
    requires level < 6
  {
    if Aligned(level + 1, index) || Up(level + 1, index + nb) > Up(level + 1, index) then level + 1 else 2 * level + 1
  }

  /** Nodes allocated by one turn of the loop: none for a whole block. */
  function SlotNodes(level: nat, index: nat, nb: nat): nat
    requires level < 6
  {
    if Aligned(level, index) && nb >= Step(level) then 0
    else if level == 0 then 0 else NodesNeeded(level - 1, index, nb)
  }

  /** Nodes still to be allocated after the first turn, when the range ends inside the node. */
  function TailNodes(level: nat, index: nat, nb: nat): nat
    requires level < 6
  {
    if Up(level + 1, index + nb) > Up(level + 1, index) then 0 else level
  }

  lemma UpSplit(level: nat, x: nat)
    requires level < 6
    ensures Up(level, x) == 512 * Up(level + 1, x) + Up(level, x) % 512
  {
    assert Up(level + 1, x) == Up(level, x) / 512;
  }

  /** The slot of a page within its node; slot 512 is the first page of the next node. */
  lemma BlockSlot(level: nat, x: nat, number: nat, slot: nat)
    requires level < 6 && Up(level, x) == 512 * number + slot && slot <= 512
    ensures slot < 512 ==> Up(level + 1, x) == number
    ensures slot == 512 ==> Up(level + 1, x) == number + 1 && (Aligned(level, x) ==> Aligned(level + 1, x))
  {
    assert Up(level + 1, x) == Up(level, x) / 512;
    assert Aligned(level + 1, x) <==> Aligned(level, x) && Up(level, x) % 512 == 0;
  }

  lemma {:induction false} UpMono(level: nat, x: nat, y: nat)
    requires level <= 6 && x <= y
    ensures Up(level, x) <= Up(level, y)
  {
    if level > 0 {
      UpMono(level - 1, x, y);
    }
  }

  /** After the first turn, the node, that turn and what may follow stay within the bound. */
  lemma FirstTurn(level: nat, index: nat, nb: nat, index': nat, nb': nat)
    requires level < 6 && nb > 0 && index' + nb' == index + nb
    requires nb' > 0 ==> Up(level, index') == Up(level, index) + 1
    ensures 1 + SlotNodes(level, index, nb) + (if nb' > 0 then TailNodes(level, index, nb) else 0)
            <= NodesNeeded(level, index, nb)
  {
    NodeCount(level, index, nb);
    UpMono(level, index', index' + nb');
  }

  /** After a later turn, what may follow still fits. */
  lemma LaterTurn(level: nat, index: nat, nb: nat, i0: nat, n0: nat, i1: nat, n1: nat)
    requires level < 6 && n0 > 0 && i0 + n0 == index + nb && i1 + n1 == index + nb
    requires Aligned(level, i0) && Up(level + 1, i0) == Up(level + 1, index)
    requires n1 > 0 ==> Up(level, i1) == Up(level, i0) + 1
    ensures SlotNodes(level, i0, n0) +
        (if n1 > 0 then TailNodes(level, index, nb) else 0) <= TailNodes(level, index, nb)
  {
    NodeCountTail(level, index, nb, i0, n0);
    UpMono(level, i1, i1 + n1);
  }

  /** The first turn, with the node itself and what may follow, stays within the bound. */
  lemma NodeCount(level: nat, index: nat, nb: nat)
    requires level < 6 && nb > 0
    ensures 1 + SlotNodes(level, index, nb) <= NodesNeeded(level, index, nb)
    ensures Up(level, index + nb) > Up(level, index) ==>
              1 + SlotNodes(level, index, nb) + TailNodes(level, index, nb) <= NodesNeeded(level, index, nb)
  {
    if Aligned(level, index) {
      UpRange(level, index, index + nb);
    }
  }

  /** A later turn allocates nodes only where the range ends. */
  lemma NodeCountTail(level: nat, index: nat, nb: nat, index': nat, nb': nat)
    requires level < 6 && nb' > 0 && index' + nb' == index + nb
    requires Aligned(level, index') && Up(level + 1, index') == Up(level + 1, index)
    ensures SlotNodes(level, index', nb') <= TailNodes(level, index, nb)
    ensures Up(level, index' + nb') > Up(level, index') ==> SlotNodes(level, index', nb') == 0
  {
    UpRange(level, index', index' + nb');
    UpMono(level, index', index' + nb');
  }

  // ---------- Compacted trees ----------

  ghost predicate Mapped(pm: PageMap, s: nat) {
    exists y: nat :: pm(y) == s
  }

  /**
   What survives compaction: skipped address bits are not compared any more, so
   an entry may answer for pages that are not assigned at all, but an assigned
   page of its block is still found below it.
   */
  ghost predicate LooseOk(sh: Shape, pm: PageMap, level: nat, number: nat, e: Entry)
    requires level <= 6
  {
    if e.skip == 0 then
      && (e.ptr == UNASSIGNED || Mapped(pm, e.ptr)) && e.ptr != NODE_NIL
      && forall x: nat :: Up(level, x) == number ==> pm(x) == UNASSIGNED || pm(x) == e.ptr
    else if e.ptr == NODE_NIL then
      && e.skip == 1 && level > 0
      && forall x: nat :: Up(level, x) == number ==> pm(x) == UNASSIGNED
    else
      && e.skip <= level && e.ptr < |sh.labels| && sh.labels[e.ptr].level == level - e.skip
      && forall x: nat :: Up(level, x) == number && Up(level - e.skip + 1, x) != sh.labels[e.ptr].block ==>
          pm(x) == UNASSIGNED
  }

  ghost predicate LooseAt(t: Tree, sh: Shape, pm: PageMap, r: Ref) {
    && RefOk(t, r)
    && (r.Slot? ==> r.node < |sh.labels| && sh.labels[r.node].level < 6)
    && LooseOk(sh, pm, RefLevel(sh, r), RefNumber(sh, r), At(t, r))
  }

  ghost predicate LooseTree(t: Tree, sh: Shape, pm: PageMap) {
    && |t.nodes| == |sh.labels| < NODE_NIL
    && (forall n :: 0 <= n < |t.nodes| ==> |t.nodes[n]| == 512)
    && forall r: Ref :: RefOk(t, r) ==> LooseAt(t, sh, pm, r)
  }

  lemma BlockNotEmpty(level: nat, number: nat) returns (y: nat)
    requires level <= 6
    ensures Up(level, y) == number
  {
    y := number * Step(level);
    UpIsShift(level, y);
    if level == 0 {} else if level == 1 {} else if level == 2 {}
    else if level == 3 {} else if level == 4 {} else if level == 5 {} else {}
  }

  /** Every tree built by insertion is in particular a loose one. */
  lemma ExactIsLoose(t: Tree, sh: Shape, pm: PageMap)
    requires TreeOk(t, sh, pm)
    ensures LooseTree(t, sh, pm)
  {
    forall r: Ref | RefOk(t, r) ensures LooseAt(t, sh, pm, r) {
      assert SaysRight(t, sh, pm, r);
      var y := BlockNotEmpty(RefLevel(sh, r), RefNumber(sh, r));
      assert pm(y) == pm(y);
    }
  }

  /** The node below entry r has one slot that is not nil: the slot's target can replace the node. */
  function Spliced(e: Entry, child: Entry): Entry {
    if child.skip == 0 then Entry(0, child.ptr) else Entry(e.skip + child.skip, child.ptr)
  }

  lemma SpliceLoose(t: Tree, sh: Shape, pm: PageMap, r: Ref, v: nat)
    requires LooseTree(t, sh, pm) && RefOk(t, r) && v < 512
    requires At(t, r).skip != 0 && At(t, r).ptr != NODE_NIL && At(t, r).ptr < |t.nodes|
    requires t.nodes[At(t, r).ptr][v].ptr != NODE_NIL
    requires forall i :: 0 <= i < 512 && i != v ==> t.nodes[At(t, r).ptr][i].ptr == NODE_NIL
    ensures LooseOk(sh, pm, RefLevel(sh, r), RefNumber(sh, r), Spliced(At(t, r), t.nodes[At(t, r).ptr][v]))
  {
    var e := At(t, r);
    var n := e.ptr;
    var child := t.nodes[n][v];
    assert LooseAt(t, sh, pm, r) && LooseAt(t, sh, pm, Slot(n, v));
    var low := sh.labels[n].level;
    forall x: nat | Up(RefLevel(sh, r), x) == RefNumber(sh, r) && Up(low, x) != 512 * sh.labels[n].block + v
      ensures pm(x) == UNASSIGNED
    {
      UpSplit(low, x);
      var i := Up(low, x) % 512;
      assert LooseAt(t, sh, pm, Slot(n, i));
    }
  }

  /** Slot v is the only one of the node that is not nil. */
  ghost predicate OnlyChild(n: Node, v: nat) {
    v < |n| && n[v].ptr != NODE_NIL && forall j :: 0 <= j < |n| && j != v ==> n[j].ptr == NODE_NIL
  }

  /** There is nothing left to skip below the entry, or the skip would not fit. */
  ghost predicate Tight(t: Tree, r: Ref)
    requires RefOk(t, r)
  {
    var e := At(t, r);
    e.skip != 0 && e.ptr < |t.nodes| ==> forall v: nat :: OnlyChild(t.nodes[e.ptr], v) ==>
        e.skip + t.nodes[e.ptr][v].skip >= 8
  }

  lemma OneChild(n: Node, v: nat)
    requires v < |n| && n[v].ptr != NODE_NIL
    ensures forall w: nat :: OnlyChild(n, w) ==> w == v
  {
  }

  /** An entry that takes the place of a tight child is tight. */
  lemma SplicedTight(t: Tree, sh: Shape, pm: PageMap, r: Ref, v: nat)
    requires LooseTree(t, sh, pm) && RefOk(t, r) && v < 512
    requires At(t, r).skip != 0 && At(t, r).ptr != NODE_NIL && At(t, r).ptr < |t.nodes|
    requires t.nodes[At(t, r).ptr][v].ptr != NODE_NIL && Tight(t, Slot(At(t, r).ptr, v))
    ensures var t' := Put(t, r, Spliced(At(t, r), t.nodes[At(t, r).ptr][v])); RefOk(t', r) && Tight(t', r)
  {
    hide Up;
    var n := At(t, r).ptr;
    assert LooseAt(t, sh, pm, r) && LooseAt(t, sh, pm, Slot(n, v));
  }

  lemma WriteLoose(t: Tree, sh: Shape, pm: PageMap, r: Ref, e: Entry)
    requires LooseTree(t, sh, pm) && RefOk(t, r)
    requires LooseOk(sh, pm, RefLevel(sh, r), RefNumber(sh, r), e)
    ensures LooseTree(Put(t, r, e), sh, pm)
  {
    forall o: Ref | RefOk(Put(t, r, e), o) ensures LooseAt(Put(t, r, e), sh, pm, o) {
      assert LooseAt(t, sh, pm, o);
    }
  }

  // ---------- Compaction reaches every entry ----------

  /** An entry points to the node of a block inside its own. */
  ghost predicate NestedAt(t: Tree, sh: Shape, r: Ref)
    requires RefOk(t, r) && |t.nodes| == |sh.labels|
  {
    var e := At(t, r);
    e.skip != 0 && e.ptr < |t.nodes| ==>
      && e.skip <= RefLevel(sh, r) <= 6 && sh.labels[e.ptr].level == RefLevel(sh, r) - e.skip
      && Up(e.skip - 1, sh.labels[e.ptr].block) == RefNumber(sh, r)
  }

  ghost predicate Nested(t: Tree, sh: Shape) {
    && |t.nodes| == |sh.labels| < NODE_NIL
    && (forall n :: 0 <= n < |t.nodes| ==> |t.nodes[n]| == 512 && sh.labels[n].level < 6)
    && forall r: Ref {:trigger RefOk(t, r)} :: RefOk(t, r) ==> NestedAt(t, sh, r)
  }

  lemma ExactIsNested(t: Tree, sh: Shape, pm: PageMap)
    requires TreeOk(t, sh, pm)
    ensures Nested(t, sh)
  {
    forall r: Ref {:trigger RefOk(t, r)} | RefOk(t, r) ensures NestedAt(t, sh, r) {
      assert SaysRight(t, sh, pm, r);
    }
  }

  /** The entry and every entry that can be reached from it are tight. */
  ghost predicate AllTight(t: Tree, sh: Shape, r: Ref)
    requires |t.nodes| == |sh.labels| && (forall n :: 0 <= n < |t.nodes| ==> |t.nodes[n]| == 512) && RefOk(t, r)
    decreases RefLevel(sh, r)
  {
    var e := At(t, r);
    && Tight(t, r)
    && (e.skip != 0 && e.ptr < |t.nodes| && sh.labels[e.ptr].level < RefLevel(sh, r) ==>
          forall v: nat {:trigger Slot(e.ptr, v)} :: v < 512 ==> AllTight(t, sh, Slot(e.ptr, v)))
  }

  /** Entry o stands for a part of the block of entry r. */
  ghost predicate Under(sh: Shape, r: Ref, o: Ref) {
    && (r.Slot? ==> r.node < |sh.labels|) && (o.Slot? ==> o.node < |sh.labels|)
    && RefLevel(sh, o) <= RefLevel(sh, r) <= 6
    && Up(RefLevel(sh, r) - RefLevel(sh, o), RefNumber(sh, o)) == RefNumber(sh, r)
  }

  /** Entry o stands for a part of the block of node p. */
  ghost predicate UnderNode(sh: Shape, p: nat, o: Ref) {
    && p < |sh.labels| && (o.Slot? ==> o.node < |sh.labels|)
    && RefLevel(sh, o) <= sh.labels[p].level < 6
    && Up(sh.labels[p].level + 1 - RefLevel(sh, o), RefNumber(sh, o)) == sh.labels[p].block
  }

  lemma {:induction false} UpUp(a: nat, b: nat, x: nat)
    requires a + b <= 6
    ensures Up(a + b, x) == Up(a, Up(b, x))
  {
    if a > 0 {
      UpUp(a - 1, b, x);
    }
  }

  lemma {:induction false} UpSlot(k: nat, block: nat, v: nat)
    requires k < 6 && v < 512
    ensures Up(k + 1, 512 * block + v) == Up(k, block)
  {
    UpUp(k, 1, 512 * block + v);
    assert Up(1, 512 * block + v) == Up(0, 512 * block + v) / 512;
  }

  lemma UnderTrans(sh: Shape, r: Ref, q: Ref, o: Ref)
    requires Under(sh, r, q) && Under(sh, q, o)
    ensures Under(sh, r, o)
  {
    UpUp(RefLevel(sh, r) - RefLevel(sh, q), RefLevel(sh, q) - RefLevel(sh, o), RefNumber(sh, o));
    hide Up;
  }

  lemma UnderSlot(sh: Shape, p: nat, i: nat, o: Ref)
    requires Under(sh, Slot(p, i), o) && i < 512 && sh.labels[p].level < 6
    ensures UnderNode(sh, p, o)
  {
    var l := sh.labels[p].level - RefLevel(sh, o);
    UpUp(1, l, RefNumber(sh, o));
    UpSlot(0, sh.labels[p].block, i);
    hide Up;
  }

  /** What lies under the node an entry points to lies under the entry. */
  lemma UnderEntry(t: Tree, sh: Shape, r: Ref, o: Ref)
    requires Nested(t, sh) && RefOk(t, r) && At(t, r).skip != 0 && At(t, r).ptr < |t.nodes|
    requires UnderNode(sh, At(t, r).ptr, o)
    ensures Under(sh, r, o)
  {
    var e := At(t, r);
    assert NestedAt(t, sh, r);
    UpUp(e.skip - 1, sh.labels[e.ptr].level + 1 - RefLevel(sh, o), RefNumber(sh, o));
    hide Up;
  }

  lemma ChildUnder(t: Tree, sh: Shape, r: Ref, v: nat)
    requires Nested(t, sh) && RefOk(t, r) && At(t, r).skip != 0 && At(t, r).ptr < |t.nodes| && v < 512
    ensures Under(sh, r, Slot(At(t, r).ptr, v)) && sh.labels[At(t, r).ptr].level < RefLevel(sh, r)
  {
    var n := At(t, r).ptr;
    assert NestedAt(t, sh, r);
    UpSlot(0, sh.labels[n].block, v);
    UnderEntry(t, sh, r, Slot(n, v));
    hide Up;
  }

  lemma SelfUnder(sh: Shape, r: Ref)
    requires (r.Slot? ==> r.node < |sh.labels|) && RefLevel(sh, r) <= 6
    ensures Under(sh, r, r)
  {
  }

  ghost predicate SameUnder(t: Tree, t': Tree, sh: Shape, r: Ref) {
    && |t'.nodes| == |t.nodes| && (forall n :: 0 <= n < |t.nodes| ==> |t'.nodes[n]| == 512)
    && forall o: Ref {:trigger Under(sh, r, o)} :: RefOk(t, o) && RefOk(t', o) && Under(sh, r, o) ==>
        At(t', o) == At(t, o)
  }

  /** Entries outside the block of the node are as they were. */
  ghost predicate SameOutside(t: Tree, t': Tree, sh: Shape, p: nat) {
    && |t'.nodes| == |t.nodes| && (forall n :: 0 <= n < |t.nodes| ==> |t'.nodes[n]| == 512)
    && forall o: Ref {:trigger UnderNode(sh, p, o)} :: RefOk(t, o) && RefOk(t', o) && !UnderNode(sh, p, o) ==>
        At(t', o) == At(t, o)
  }

  /** Entries outside the block of the entry are as they were. */
  ghost predicate SameBeside(t: Tree, t': Tree, sh: Shape, r: Ref) {
    && |t'.nodes| == |t.nodes| && (forall n :: 0 <= n < |t.nodes| ==> |t'.nodes[n]| == 512)
    && forall o: Ref {:trigger Under(sh, r, o)} :: RefOk(t, o) && RefOk(t', o) && !Under(sh, r, o) ==>
        At(t', o) == At(t, o)
  }

  lemma SameNode(t: Tree, t': Tree, sh: Shape, r: Ref)
    requires Nested(t, sh) && RefOk(t, r) && RefOk(t', r) && SameUnder(t, t', sh, r)
    ensures At(t', r) == At(t, r)
    ensures At(t, r).skip != 0 && At(t, r).ptr < |t.nodes| ==> t'.nodes[At(t, r).ptr] == t.nodes[At(t, r).ptr]
  {
    SelfUnder(sh, r);
    var e := At(t, r);
    if e.skip != 0 && e.ptr < |t.nodes| {
      forall v: nat | v < 512 ensures t'.nodes[e.ptr][v] == t.nodes[e.ptr][v] {
        ChildUnder(t, sh, r, v);
        assert At(t', Slot(e.ptr, v)) == At(t, Slot(e.ptr, v));
      }
    }
  }

  lemma {:induction false} TightKept(t: Tree, t': Tree, sh: Shape, r: Ref)
    requires Nested(t, sh) && RefOk(t, r) && RefOk(t', r) && SameUnder(t, t', sh, r) && AllTight(t, sh, r)
    ensures AllTight(t', sh, r)
    decreases RefLevel(sh, r)
  {
    hide SameUnder, Under, Nested;
    NestedIs(t, sh);
    SameIs(t, t', sh, r);
    SameNode(t, t', sh, r);
    var e := At(t, r);
    if e.skip != 0 && e.ptr < |t.nodes| && sh.labels[e.ptr].level < RefLevel(sh, r) {
      forall v: nat {:trigger Slot(e.ptr, v)} | v < 512 ensures AllTight(t', sh, Slot(e.ptr, v)) {
        SameBelow(t, t', sh, r, v);
        TightKept(t, t', sh, Slot(e.ptr, v));
      }
    }
  }

  lemma NestedIs(t: Tree, sh: Shape)
    requires Nested(t, sh)
    ensures |t.nodes| == |sh.labels| < NODE_NIL
    ensures forall n :: 0 <= n < |t.nodes| ==> |t.nodes[n]| == 512 && sh.labels[n].level < 6
  {
  }

  lemma SameIs(t: Tree, t': Tree, sh: Shape, r: Ref)
    requires SameUnder(t, t', sh, r)
    ensures |t'.nodes| == |t.nodes| && (forall n :: 0 <= n < |t.nodes| ==> |t'.nodes[n]| == 512)
  {
  }

  lemma SameBelow(t: Tree, t': Tree, sh: Shape, r: Ref, v: nat)
    requires Nested(t, sh) && RefOk(t, r) && SameUnder(t, t', sh, r) && v < 512
    requires At(t, r).skip != 0 && At(t, r).ptr < |t.nodes|
    ensures SameUnder(t, t', sh, Slot(At(t, r).ptr, v))
  {
    var q := Slot(At(t, r).ptr, v);
    ChildUnder(t, sh, r, v);
    forall o: Ref {:trigger Under(sh, q, o)} | RefOk(t, o) && RefOk(t', o) && Under(sh, q, o)
        ensures At(t', o) == At(t, o) {
      UnderTrans(sh, r, q, o);
    }
  }

  /** Compacting one slot of a node leaves what is under the others alone. */
  lemma BesideSlot(t: Tree, t': Tree, sh: Shape, p: nat, i: nat, j: nat)
    requires Nested(t, sh) && p < |t.nodes| && i < 512 && j < 512 && i != j && SameBeside(t, t', sh, Slot(p, i))
    ensures SameUnder(t, t', sh, Slot(p, j))
  {
    forall o: Ref {:trigger Under(sh, Slot(p, j), o)} | RefOk(t, o) && RefOk(t', o) && Under(sh, Slot(p, j), o)
      ensures At(t', o) == At(t, o)
    {
      assert !Under(sh, Slot(p, i), o);
    }
  }

  lemma OutsideSlot(t0: Tree, t: Tree, t': Tree, sh: Shape, p: nat, i: nat)
    requires Nested(t, sh) && p < |t.nodes| && i < 512 && SameOutside(t0, t, sh, p) && SameBeside(t, t', sh, Slot(p, i))
    ensures SameOutside(t0, t', sh, p)
  {
    forall o: Ref {:trigger UnderNode(sh, p, o)} | RefOk(t0, o) && RefOk(t', o) && !UnderNode(sh, p, o)
      ensures At(t', o) == At(t0, o)
    {
      if Under(sh, Slot(p, i), o) {
        UnderSlot(sh, p, i, o);
        assert false;
      }
    }
  }

  lemma OutsideEntry(t: Tree, t': Tree, sh: Shape, r: Ref)
    requires Nested(t, sh) && RefOk(t, r) && At(t, r).skip != 0 && At(t, r).ptr < |t.nodes|
    requires SameOutside(t, t', sh, At(t, r).ptr)
    ensures SameBeside(t, t', sh, r)
  {
    var p := At(t, r).ptr;
    forall o: Ref {:trigger Under(sh, r, o)} | RefOk(t, o) && RefOk(t', o) && !Under(sh, r, o)
        ensures At(t', o) == At(t, o) {
      if UnderNode(sh, p, o) {
        UnderEntry(t, sh, r, o);
        assert false;
      }
    }
  }

  lemma SplicedNested(t: Tree, sh: Shape, r: Ref, v: nat)
    requires Nested(t, sh) && RefOk(t, r) && v < 512 && At(t, r).skip != 0 && At(t, r).ptr < |t.nodes|
    ensures Nested(Put(t, r, Spliced(At(t, r), t.nodes[At(t, r).ptr][v])), sh)
  {
    hide Up;
    var e := At(t, r);
    var child := t.nodes[e.ptr][v];
    var t' := Put(t, r, Spliced(e, child));
    assert RefOk(t, Slot(e.ptr, v));
    assert NestedAt(t, sh, r) && NestedAt(t, sh, Slot(e.ptr, v));
    if child.skip != 0 && child.ptr < |t.nodes| {
      UpUp(e.skip, child.skip - 1, sh.labels[child.ptr].block);
      UpSlot(e.skip - 1, sh.labels[e.ptr].block, v);
    }
    forall o: Ref {:trigger RefOk(t', o)} | RefOk(t', o) ensures NestedAt(t', sh, o) {
      assert RefOk(t, o) && (o != r ==> At(t', o) == At(t, o));
    }
  }

  /** Writing an entry changes nothing under an entry of a lower level, and nothing outside its block. */
  lemma PutBeside(t: Tree, sh: Shape, r: Ref, e: Entry)
    requires Nested(t, sh) && RefOk(t, r)
    ensures SameBeside(t, Put(t, r, e), sh, r)
    ensures forall q: Ref :: RefOk(t, q) && RefLevel(sh, q) < RefLevel(sh, r) ==> SameUnder(t, Put(t, r, e), sh, q)
  {
    SelfUnder(sh, r);
  }

  lemma BesideTwice(t0: Tree, t: Tree, t': Tree, sh: Shape, r: Ref)
    requires Nested(t0, sh) && Nested(t, sh) && SameBeside(t0, t, sh, r) && SameBeside(t, t', sh, r)
    ensures SameBeside(t0, t', sh, r)
  {
  }

  lemma SplicedAllTight(t: Tree, sh: Shape, r: Ref, v: nat)
    requires Nested(t, sh) && RefOk(t, r) && v < 512 && At(t, r).skip != 0 && At(t, r).ptr < |t.nodes|
    requires AllTight(t, sh, Slot(At(t, r).ptr, v))
    requires var t' := Put(t, r, Spliced(At(t, r), t.nodes[At(t, r).ptr][v])); RefOk(t', r) && Tight(t', r)
    ensures AllTight(Put(t, r, Spliced(At(t, r), t.nodes[At(t, r).ptr][v])), sh, r)
  {
    hide Up, SameBeside, SameUnder, Tight;
    var e := At(t, r);
    var child := t.nodes[e.ptr][v];
    var t' := Put(t, r, Spliced(e, child));
    assert RefOk(t, Slot(e.ptr, v));
    assert NestedAt(t, sh, r) && NestedAt(t, sh, Slot(e.ptr, v));
    PutBeside(t, sh, r, Spliced(e, child));
    if child.skip != 0 && child.ptr < |t.nodes| {
      forall w: nat {:trigger Slot(child.ptr, w)} | w < 512 ensures AllTight(t', sh, Slot(child.ptr, w)) {
        TightKept(t, t', sh, Slot(child.ptr, w));
      }
    }
  }

  /** Nothing to splice: the entry is tight when its children are. */
  lemma KeptAllTight(t: Tree, sh: Shape, r: Ref)
    requires Nested(t, sh) && RefOk(t, r) && Tight(t, r)
    requires At(t, r).skip != 0 && At(t, r).ptr < |t.nodes| ==> ChildrenTight(t, sh, At(t, r).ptr, 512)
    ensures AllTight(t, sh, r)
  {
  }

  ghost predicate ChildrenTight(t: Tree, sh: Shape, p: nat, n: nat)
    requires |t.nodes| == |sh.labels| && (forall n :: 0 <= n < |t.nodes| ==> |t.nodes[n]| == 512) && p < |t.nodes|
  {
    forall v: nat {:trigger Slot(p, v)} :: v < n && v < 512 ==> AllTight(t, sh, Slot(p, v))
  }

  lemma ChildTight(t: Tree, sh: Shape, p: nat, v: nat)
    requires Nested(t, sh) && p < |t.nodes| && v < 512 && ChildrenTight(t, sh, p, 512)
    ensures AllTight(t, sh, Slot(p, v)) && Tight(t, Slot(p, v))
  {
  }

  /** One more slot has been compacted. */
  lemma ChildrenNext(t: Tree, t': Tree, sh: Shape, p: nat, i: nat)
    requires Nested(t, sh) && Nested(t', sh) && p < |t.nodes| && i < 512 && ChildrenTight(t, sh, p, i)
    requires SameBeside(t, t', sh, Slot(p, i)) && AllTight(t', sh, Slot(p, i))
    ensures ChildrenTight(t', sh, p, i + 1)
  {
    hide SameBeside, SameUnder, AllTight;
    forall v: nat {:trigger Slot(p, v)} | v < i + 1 ensures AllTight(t', sh, Slot(p, v)) {
      if v < i {
        BesideSlot(t, t', sh, p, i, v);
        TightKept(t, t', sh, Slot(p, v));
      }
    }
  }

  lemma NothingBeside(t: Tree, sh: Shape, p: nat, r: Ref)
    requires Nested(t, sh)
    ensures SameOutside(t, t, sh, p) && SameBeside(t, t, sh, r)
  {
  }

  lemma NoneCompacted(t: Tree, sh: Shape, p: nat)
    requires Nested(t, sh) && p < |t.nodes|
    ensures ChildrenTight(t, sh, p, 0) && SameOutside(t, t, sh, p)
  {
  }

  lemma EndTight(t: Tree, sh: Shape, r: Ref)
    requires Nested(t, sh) && RefOk(t, r) && (At(t, r).skip == 0 || At(t, r).ptr >= |t.nodes|)
    ensures AllTight(t, sh, r)
  {
  }

  // ---------- Lookup ----------

  lemma WalkStarts(t: Tree, sh: Shape, pm: PageMap, index: nat)
    requires LooseTree(t, sh, pm) && index < Step(6)
    ensures LooseOk(sh, pm, 6, 0, t.root) && Up(6, index) == 0
  {
    hide Up, LooseOk;
    UpIsShift(6, index);
    assert RefOk(t, Root);
    assert LooseAt(t, sh, pm, Root);
  }

  /** Under the entry, the slot of the page answers for the page if the entry did. */
  lemma WalkStep(t: Tree, sh: Shape, pm: PageMap, i: nat, number: nat, e: Entry, index: nat)
    requires LooseTree(t, sh, pm) && i <= 6 && LooseOk(sh, pm, i, number, e) && 0 < e.skip <= i
    requires Up(i, index) == number || pm(index) == UNASSIGNED
    ensures e.ptr == NODE_NIL ==> pm(index) == UNASSIGNED
    ensures e.ptr != NODE_NIL ==>
              var slot := index / Step(i - e.skip) % 512;
              && e.ptr < |t.nodes| == |sh.labels| && |t.nodes[e.ptr]| == 512
              && LooseOk(sh, pm, i - e.skip, 512 * sh.labels[e.ptr].block + slot, t.nodes[e.ptr][slot])
              && (Up(i - e.skip, index) == 512 * sh.labels[e.ptr].block + slot || pm(index) == UNASSIGNED)
  {
    hide Up, Step;
    if e.ptr != NODE_NIL {
      UpIsShift(i - e.skip, index);
      UpSplit(i - e.skip, index);
      var slot := index / Step(i - e.skip) % 512;
      assert RefOk(t, Slot(e.ptr, slot));
      assert LooseAt(t, sh, pm, Slot(e.ptr, slot));
    }
  }

  lemma WalkEnds(sh: Shape, pm: PageMap, i: nat, number: nat, e: Entry, index: nat)
    requires i <= 6 && LooseOk(sh, pm, i, number, e) && (e.skip == 0 || i < e.skip)
    requires Up(i, index) == number || pm(index) == UNASSIGNED
    ensures e.ptr == UNASSIGNED || Mapped(pm, e.ptr)
    ensures pm(index) == UNASSIGNED || pm(index) == e.ptr
  {
    hide Up;
  }

  class PhysPageMap {
    var tree: Tree
    var nodesAlloc: nat
    ghost var sh: Shape
    ghost var pm: PageMap

    /** The tree of `mem_begin`: nothing mapped. */
    constructor ()
      ensures TreeOk(tree, sh, pm) && AllOccupied(sh, pm) && tree.nodes == []
      ensures forall x: nat :: pm(x) == UNASSIGNED
    {
      tree, nodesAlloc := Tree(NilEntry, []), 0;
      sh, pm := Shape([], map[]), (x: nat) => UNASSIGNED;
    }

    method Reserve(n: nat)
      modifies `nodesAlloc
      ensures |tree.nodes| + n <= nodesAlloc
    {
      if |tree.nodes| + n > nodesAlloc {
        nodesAlloc := if nodesAlloc * 2 > 16 then nodesAlloc * 2 else 16;
        nodesAlloc := if nodesAlloc > |tree.nodes| + n then nodesAlloc else |tree.nodes| + n;
      }
    }

    /** The two preconditions are the two assertions of the original. */
    method NodeAlloc() returns (ret: nat)
      requires |tree.nodes| != NODE_NIL
      requires |tree.nodes| < nodesAlloc
      modifies `tree
      ensures ret == |old(tree).nodes| && tree == old(tree).(nodes := old(tree).nodes + [FreshNode(1)])
    {
      ret := |tree.nodes|;
      var p: Node := [];
      for i := 0 to 512
        invariant |p| == i && forall j :: 0 <= j < i ==> p[j] == NilEntry
      {
        p := p + [NilEntry];
      }
      assert p == FreshNode(1);
      tree := tree.(nodes := tree.nodes + [p]);
    }

    method Write(r: Ref, e: Entry)
      requires RefOk(tree, r)
      modifies `tree
      ensures tree == Put(old(tree), r, e)
    {
      if r.Root? {
        tree := tree.(root := e);
      } else {
        tree := tree.(nodes := tree.nodes[r.node := tree.nodes[r.node][r.slot := e]]);
      }
    }

    /** A bottom-level node starts with every page unassigned. */
    method ClearLeaves(p: nat)
      requires p < |tree.nodes| && |tree.nodes[p]| == 512
      modifies `tree
      ensures tree == old(tree).(nodes := old(tree).nodes[p := FreshNode(0)])
    {
      var q := tree.nodes[p];
      for i := 0 to 512
        invariant |q| == 512
        invariant forall j :: 0 <= j < i ==> q[j] == Entry(0, UNASSIGNED)
      {
        q := q[i := Entry(0, UNASSIGNED)];
      }
      assert q == FreshNode(0);
      tree := tree.(nodes := tree.nodes[p := q]);
    }

    method AllocUnder(lp: Ref, level: nat) returns (p: nat)
      requires RefOk(tree, lp)
      requires |tree.nodes| < nodesAlloc && |tree.nodes| < NODE_NIL
      modifies `tree
      ensures p == |old(tree).nodes| && tree == Hang(old(tree), lp, level)
    {
      p := NodeAlloc();
      if level == 0 {
        ClearLeaves(p);
      }
      Write(lp, Entry(1, p));
      assert tree.nodes == Hang(old(tree), lp, level).nodes;
    }

    /** The node below an entry, allocated if the entry is nil. */
    method NodeBelow(lp: Ref, level: nat) returns (p: nat)
      requires TreeOk(tree, sh, pm) && RefOk(tree, lp) && RefLevel(sh, lp) == level + 1
      requires At(tree, lp).skip != 0
      requires |tree.nodes| + 1 <= nodesAlloc && |tree.nodes| + 1 < NODE_NIL
      modifies `tree, `sh
      ensures TreeOk(tree, sh, pm)
      ensures old(sh.labels) <= sh.labels && |tree.nodes| <= old(|tree.nodes|) + 1
      ensures p < |sh.labels| && sh.labels[p] == Label(level, RefNumber(old(sh), lp))
      ensures sh == old(sh) || sh == Grow(old(sh), level, RefNumber(old(sh), lp))
    {
      hide TreeOk, ShapeOk, Up, FreshNode;
      EntryTarget(tree, sh, pm, lp);
      var e := At(tree, lp);
      if e.skip != 0 && e.ptr == NODE_NIL {
        HangNode(tree, sh, pm, lp);
        p := AllocUnder(lp, level);
        sh := Grow(sh, level, RefNumber(sh, lp));
      } else {
        p := e.ptr;
      }
    }

    /** One turn of the loop of `phys_page_set_level`: take a whole block, or descend. */
    method SetSlot(p: nat, slot: nat, index: nat, nb: nat, leaf: nat, level: nat) returns (index': nat, nb': nat)
      requires level < 6 && nb > 0 && UNASSIGNED < leaf < NODE_NIL
      requires TreeOk(tree, sh, pm) && p < |sh.labels| && slot < 512
      requires sh.labels[p].level == level && Up(level, index) == 512 * sh.labels[p].block + slot
      requires Free(pm, index, index + nb)
      requires OccupiedExcept(sh, pm, level, index)
      requires |tree.nodes| + SlotNodes(level, index, nb) <= nodesAlloc
      requires |tree.nodes| + SlotNodes(level, index, nb) < NODE_NIL
      modifies `tree, `sh, `pm
      ensures TreeOk(tree, sh, pm) && AllOccupied(sh, pm)
      ensures old(sh.labels) <= sh.labels
      ensures |tree.nodes| <= old(|tree.nodes|) + SlotNodes(level, index, nb)
      ensures index < index' && index' + nb' == index + nb
      ensures nb' > 0 ==> Aligned(level, index') && Up(level, index') == Up(level, index) + 1
      ensures Assigned(old(pm), pm, index, index', leaf)
      decreases level, 0
    {
      hide OccupiedExcept, AllOccupied, Up, Aligned, Step, ShapeOk, SetPages, Assigned;
      var step := Step(level);
      AlignedIsMask(level, index);
      ghost var r := Slot(p, slot);
      if index % step == 0 && nb >= step {
        assert Free(pm, index, index + step);
        SetLeaf(tree, sh, pm, r, index, leaf);
        Write(Slot(p, slot), Entry(0, leaf));
        pm := SetPages(pm, index, step, leaf);
        UpAdd(level, index);
        index', nb' := index + step, nb - step;
      } else {
        FreeIsNoLeaf(tree, sh, pm, r, index);
        index', nb' := SetLevel(Slot(p, slot), index, nb, leaf, level - 1);
      }
    }

    /**
     `phys_page_set_level`: assign as much of [index, index + nb) as lies under
     the entry.  The pages must be free, which is what disjoint sections give.
     */
    method SetLevel(lp: Ref, index: nat, nb: nat, leaf: nat, level: nat) returns (index': nat, nb': nat)
      requires level < 6 && nb > 0 && UNASSIGNED < leaf < NODE_NIL
      requires TreeOk(tree, sh, pm) && RefOk(tree, lp) && RefLevel(sh, lp) == level + 1
      requires Up(level + 1, index) == RefNumber(sh, lp)
      requires At(tree, lp).skip != 0
      requires Free(pm, index, index + nb)
      requires OccupiedExcept(sh, pm, level + 1, index)
      requires |tree.nodes| + NodesNeeded(level, index, nb) <= nodesAlloc
      requires |tree.nodes| + NodesNeeded(level, index, nb) < NODE_NIL
      modifies `tree, `sh, `pm
      ensures TreeOk(tree, sh, pm) && AllOccupied(sh, pm)
      ensures old(sh.labels) <= sh.labels
      ensures |tree.nodes| <= old(|tree.nodes|) + NodesNeeded(level, index, nb)
      ensures index < index' && index' + nb' == index + nb
      ensures nb' > 0 ==> Aligned(level + 1, index') && Up(level + 1, index') == Up(level + 1, index) + 1
      ensures Assigned(old(pm), pm, index, index', leaf)
      decreases level, 1
    {
      hide TreeOk, AllOccupied, SlotNodes, NodesNeeded, TailNodes, Free, Assigned, Aligned, Up, Step;
      ghost var n0 := |tree.nodes|;
      NodeCount(level, index, nb);
      var p := NodeBelow(lp, level);
      assert OccupiedExcept(sh, pm, level, index);
      UpIsShift(level, index);
      UpSplit(level, index);
      var slot := (index / Step(level)) % 512;
      index', nb' := SetSlot(p, slot, index, nb, leaf, level);
      FirstTurn(level, index, nb, index', nb');
      slot := slot + 1;
      while nb' > 0 && slot < 512
        invariant TreeOk(tree, sh, pm) && AllOccupied(sh, pm)
        invariant old(sh.labels) <= sh.labels && p < |sh.labels| && sh.labels[p] == Label(level, Up(level + 1, index))
        invariant slot <= 512
        invariant index < index' && index' + nb' == index + nb
        invariant nb' > 0 ==> Aligned(level, index') && Up(level, index') == 512 * Up(level + 1, index) + slot
        invariant Assigned(old(pm), pm, index, index', leaf)
        invariant |tree.nodes| + (if nb' > 0 then TailNodes(level, index, nb) else 0) <= n0 +
            NodesNeeded(level, index, nb)
        decreases 512 - slot
      {
        ghost var i0, n, pm0 := index', nb', pm;
        BlockSlot(level, i0, Up(level + 1, index), slot);
        NodeCountTail(level, index, nb, i0, n);
        FreeRest(old(pm), pm, index, i0, index + nb, leaf);
        NoneExcepted(sh, pm, level, i0);
        index', nb' := SetSlot(p, slot, index', nb', leaf, level);
        AssignedAppend(old(pm), pm0, pm, index, i0, index', leaf);
        LaterTurn(level, index, nb, i0, n, index', nb');
        slot := slot + 1;
      }
      if nb' > 0 {
        BlockSlot(level, index', Up(level + 1, index), slot);
      }
    }

    /** `phys_page_set`: the range becomes the leaf's, every other page keeps its section. */
    method Set(index: nat, nb: nat, leaf: nat)
      requires TreeOk(tree, sh, pm) && AllOccupied(sh, pm)
      requires nb > 0 && UNASSIGNED < leaf < NODE_NIL && index + nb <= Step(6)
      requires Free(pm, index, index + nb)
      requires |tree.nodes| + 18 < NODE_NIL
      modifies this
      ensures TreeOk(tree, sh, pm) && AllOccupied(sh, pm)
      ensures Assigned(old(pm), pm, index, index + nb, leaf)
      ensures |tree.nodes| <= old(|tree.nodes|) + 11
    {
      Reserve(3 * 6);
      UpIsShift(6, index);
      var index', nb' := SetLevel(Root, index, nb, leaf, 5);
      UpIsShift(6, index');
    }

    /**
     `phys_page_compact`: in place, children first.  Entries at or above the
     entry's own level are left alone, except the entry itself, and so are entries
     outside its block.
     */
    method Compact(lp: Ref)
      requires LooseTree(tree, sh, pm) && Nested(tree, sh) && RefOk(tree, lp) && At(tree, lp).skip != 0
      modifies `tree
      ensures LooseTree(tree, sh, pm) && Nested(tree, sh) && |tree.nodes| == |old(tree).nodes|
      ensures At(tree, lp).ptr == NODE_NIL <==> At(old(tree), lp).ptr == NODE_NIL
      ensures AllTight(tree, sh, lp) && SameBeside(old(tree), tree, sh, lp)
      ensures forall r: Ref :: RefOk(tree, r) && r != lp && RefLevel(sh, r) >= RefLevel(sh, lp) ==>
                At(tree, r) == At(old(tree), r)
      decreases RefLevel(sh, lp), 1
    {
      hide Nested, AllTight, SameBeside, SameOutside, ChildrenTight, Up, Under, UnderNode;
      NestedIs(tree, sh);
      NothingBeside(tree, sh, 0, lp);
      var e := At(tree, lp);
      if e.ptr == NODE_NIL {
        EndTight(tree, sh, lp);
        return;
      }
      assert LooseAt(tree, sh, pm, lp);
      var valid, validPtr := CompactChildren(e.ptr);
      NestedIs(tree, sh);
      assert At(tree, lp) == e;
      OutsideEntry(old(tree), tree, sh, lp);
      // an only child can take the place of its node, if the levels skipped then fit three bits
      if valid == 1 && e.skip + tree.nodes[e.ptr][validPtr].skip < 8 {
        ChildTight(tree, sh, e.ptr, validPtr);
        SpliceLoose(tree, sh, pm, lp, validPtr);
        SplicedTight(tree, sh, pm, lp, validPtr);
        SplicedNested(tree, sh, lp, validPtr);
        SplicedAllTight(tree, sh, lp, validPtr);
        ghost var t := tree;
        Write(lp, Spliced(e, tree.nodes[e.ptr][validPtr]));
        WriteLoose(t, sh, pm, lp, Spliced(e, t.nodes[e.ptr][validPtr]));
        PutBeside(t, sh, lp, Spliced(e, t.nodes[e.ptr][validPtr]));
        BesideTwice(old(tree), t, tree, sh, lp);
      } else {
        if valid == 1 {
          OneChild(tree.nodes[e.ptr], validPtr);
        }
        KeptAllTight(tree, sh, lp);
      }
    }

    /** The scan of `phys_page_compact` over one node. */
    method CompactChildren(p: nat) returns (valid: nat, validPtr: nat)
      requires LooseTree(tree, sh, pm) && Nested(tree, sh) && p < |tree.nodes|
      modifies `tree
      ensures LooseTree(tree, sh, pm) && Nested(tree, sh) && |tree.nodes| == |old(tree).nodes|
      ensures forall r: Ref :: RefOk(tree, r) && RefLevel(sh, r) > sh.labels[p].level ==>
                At(tree, r) == At(old(tree), r)
      ensures valid == 1 ==> validPtr < 512 && tree.nodes[p][validPtr].ptr != NODE_NIL
      ensures valid == 1 ==> forall j :: 0 <= j < 512 && j != validPtr ==> tree.nodes[p][j].ptr == NODE_NIL
      ensures ChildrenTight(tree, sh, p, 512) && SameOutside(old(tree), tree, sh, p)
      ensures valid != 1 ==> forall v: nat :: !OnlyChild(tree.nodes[p], v)
      decreases sh.labels[p].level, 2
    {
      hide LooseAt, Tight, Nested, AllTight, SameBeside, SameOutside, ChildrenTight, Up, Under, UnderNode;
      ghost var other := 0;
      NoneCompacted(tree, sh, p);
      valid, validPtr := 0, 512;
      for i := 0 to 512
        invariant LooseTree(tree, sh, pm) && Nested(tree, sh) && |tree.nodes| == |old(tree).nodes|
        invariant forall r: Ref :: RefOk(tree, r) && RefLevel(sh, r) > sh.labels[p].level ==>
                  At(tree, r) == At(old(tree), r)
        invariant valid == 0 ==> forall j :: 0 <= j < i ==> tree.nodes[p][j].ptr == NODE_NIL
        invariant valid == 1 ==> forall j :: 0 <= j < i && j != validPtr ==> tree.nodes[p][j].ptr == NODE_NIL
        invariant ChildrenTight(tree, sh, p, i) && SameOutside(old(tree), tree, sh, p)
        invariant valid >= 1 ==> validPtr < i && tree.nodes[p][validPtr].ptr != NODE_NIL
        invariant valid >= 2 ==> 0 <= other < validPtr && tree.nodes[p][other].ptr != NODE_NIL
      {
        ghost var t := tree;
        NothingBeside(tree, sh, p, Slot(p, i));
        if tree.nodes[p][i].ptr != NODE_NIL {
          other := validPtr;
          validPtr := i;
          valid := valid + 1;
          if tree.nodes[p][i].skip != 0 {
            Compact(Slot(p, i));
            forall j | 0 <= j < 512 && j != i ensures tree.nodes[p][j] == t.nodes[p][j] {
              assert At(tree, Slot(p, j)) == At(t, Slot(p, j));
            }
          } else {
            EndTight(tree, sh, Slot(p, i));
          }
        } else {
          EndTight(tree, sh, Slot(p, i));
        }
        ChildrenNext(t, tree, sh, p, i);
        OutsideSlot(old(tree), t, tree, sh, p, i);
      }
    }

    method CompactAll()
      requires LooseTree(tree, sh, pm) && Nested(tree, sh)
      modifies `tree
      ensures LooseTree(tree, sh, pm) && Nested(tree, sh) && AllTight(tree, sh, Root)
    {
      hide Nested, AllTight, SameBeside;
      NestedIs(tree, sh);
      if tree.root.skip != 0 {
        Compact(Root);
      } else {
        EndTight(tree, sh, Root);
      }
    }

    /**
     The walk of `phys_page_find`: the section it ends at is the page's section
     whenever the page has one.
     */
    method Walk(index: nat) returns (s: nat)
      requires LooseTree(tree, sh, pm) && index < Step(6)
      ensures s == UNASSIGNED || Mapped(pm, s)
      ensures pm(index) == UNASSIGNED || pm(index) == s
    {
      hide LooseTree, LooseOk, Up, Step;
      var lp, i: int := tree.root, 6;
      ghost var number: nat := 0;
      WalkStarts(tree, sh, pm, index);
      while lp.skip != 0 && i - lp.skip >= 0
        invariant 0 <= i <= 6 && LooseOk(sh, pm, i, number, lp)
        invariant Up(i, index) == number || pm(index) == UNASSIGNED
        decreases i
      {
        WalkStep(tree, sh, pm, i, number, lp, index);
        i := i - lp.skip;
        if lp.ptr == NODE_NIL {
          return UNASSIGNED;
        }
        var slot := (index / Step(i)) % 512;
        number := 512 * sh.labels[lp.ptr].block + slot;
        lp := tree.nodes[lp.ptr][slot];
      }
      WalkEnds(sh, pm, i, number, lp, index);
      return lp.ptr;
    }
  }
}

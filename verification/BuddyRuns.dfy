/** Whole runs of the page allocator on the trees: kalloc takes pages from some free leaf
    that is large enough, and kfree gives a block back with the size it was asked for. */
module BuddyRuns {
  import opened BuddyTree
  import opened BuddyOps

  /** Level of a maximal block, 128K. */
  const TOP: nat := 5

  /** A live allocation: `count` pages from page `page` of the maximal block `root`. */
  datatype Block = Block(root: nat, page: nat, count: nat) {
    predicate Holds(r: nat, p: nat) {
      r == root && page <= p < page + count
    }
  }

  datatype Heap = Heap(trees: seq<Tree>, live: seq<Block>)

  datatype Op = KAlloc(root: nat, slot: nat, count: nat) | KFree(index: nat)

  predicate WellFormed(trees: seq<Tree>) {
    forall r :: 0 <= r < |trees| ==> Fits(trees[r], TOP)
  }

  predicate Init(h: Heap) {
    h.live == [] && forall r :: 0 <= r < |h.trees| ==> h.trees[r] == Leaf(true)
  }

  /** One call of kalloc or kfree.  kalloc may pick any free leaf of at least `count` pages. */
  predicate Step(h: Heap, op: Op, h': Heap)
    requires WellFormed(h.trees)
  {
    match op
    case KAlloc(r, x, n) =>
      && r < |h.trees| && NodeAt(h.trees[r], TOP, x)
      && var s := At(h.trees[r], TOP, x);
      && s.sub == Leaf(true) && 1 <= n <= Pages(s.level)
      && h' == Heap(h.trees[r := Take(h.trees[r], TOP, x, n)], h.live + [Block(r, s.page, n)])
    case KFree(i) =>
      && i < |h.live|
      && var b := h.live[i];
      && b.root < |h.trees| && NodeStarts(h.trees[b.root], TOP, b.page)
      && h' == Heap(h.trees[b.root := Free(h.trees[b.root], TOP, b.page, b.count)],
                    h.live[..i] + h.live[i + 1..])
  }

  // ---------------------------------------------------------------------------------
  // Alignment: why kfree's search cannot stop at too small a node
  // ---------------------------------------------------------------------------------

  /** The smallest level whose blocks have n pages. */
  function LevelFor(n: nat): (j: nat)
    requires 1 <= n
    ensures n <= Pages(j) && (j > 0 ==> Pages(j - 1) < n)
  {
    if n == 1 then 0 else 1 + LevelFor((n + 1) / 2)
  }

  /** Blocks of level j start at page a of a block of level k. */
  predicate Aligned(j: nat, k: nat, a: nat) {
    j <= k && (a == 0 || (j < k && if a < Pages(k - 1) then Aligned(j, k - 1, a)
                                   else Aligned(j, k - 1, a - Pages(k - 1))))
  }

  lemma {:induction false} NodeAligned(t: Tree, k: nat, x: nat, j: nat)
    requires Fits(t, k) && NodeAt(t, k, x) && j <= At(t, k, x).level
    ensures Aligned(j, k, At(t, k, x).page)
    decreases k
  {
    if x == 0 {
    } else if x < Pages(k) {
      NodeAligned(t.left, k - 1, x - 1, j);
    } else {
      NodeAligned(t.right, k - 1, x - Pages(k), j);
    }
  }

  lemma {:induction false} AlignedTop(t: Tree, k: nat, a: nat, j: nat)
    requires Fits(t, k) && NodeStarts(t, k, a) && Aligned(j, k, a)
    ensures j <= At(t, k, TopSlot(t, k, a)).level
    decreases k
  {
    if a == 0 {
    } else if a < Pages(k - 1) {
      AlignedTop(t.left, k - 1, a, j);
    } else {
      AlignedTop(t.right, k - 1, a - Pages(k - 1), j);
    }
  }

  lemma {:induction false} LeafStartsHere(t: Tree, k: nat, p: nat)
    requires Fits(t, k) && p < Pages(k)
    ensures NodeStarts(t, k, LeafOf(t, k, p).start)
    decreases k
  {
    LeafHoldsPage(t, k, p);
    if t.Node? {
      if p < Pages(k - 1) {
        LeafStartsHere(t.left, k - 1, p);
      } else {
        LeafStartsHere(t.right, k - 1, p - Pages(k - 1));
      }
    }
  }

  lemma {:induction false} LeafOfItsStart(t: Tree, k: nat, p: nat)
    requires Fits(t, k) && p < Pages(k)
    ensures LeafOf(t, k, p).start < Pages(k)
    ensures LeafOf(t, k, LeafOf(t, k, p).start) == LeafOf(t, k, p)
    decreases k
  {
    LeafHoldsPage(t, k, p);
    if t.Node? {
      if p < Pages(k - 1) {
        LeafOfItsStart(t.left, k - 1, p);
      } else {
        LeafOfItsStart(t.right, k - 1, p - Pages(k - 1));
      }
    }
  }

  // ---------------------------------------------------------------------------------
  // The invariant
  // ---------------------------------------------------------------------------------

  /** Page p of the tree is taken, and its leaf lies inside the block. */
  predicate Tiles(t: Tree, b: Block, p: nat)
    requires Fits(t, TOP) && p < Pages(TOP)
  {
    var e := LeafOf(t, TOP, p);
    !e.free && b.page <= e.start && e.end <= b.page + b.count
  }

  /** The block lies in one maximal block, starts where blocks of its size may start, and
      is tiled exactly by allocated leaves. */
  ghost predicate Placed(trees: seq<Tree>, b: Block)
    requires WellFormed(trees)
  {
    && b.root < |trees| && 1 <= b.count && b.page + b.count <= Pages(TOP)
    && Aligned(LevelFor(b.count), TOP, b.page)
    && forall p: nat :: b.page <= p < b.page + b.count ==> Tiles(trees[b.root], b, p)
  }

  ghost predicate Apart(b: Block, c: Block) {
    forall r: nat, p: nat :: !(b.Holds(r, p) && c.Holds(r, p))
  }

  ghost predicate Held(live: seq<Block>, r: nat, p: nat) {
    exists i :: 0 <= i < |live| && live[i].Holds(r, p)
  }

  ghost predicate Inv(h: Heap) {
    && WellFormed(h.trees)
    && (forall r :: 0 <= r < |h.trees| ==> Coalesced(h.trees[r]))
    && (forall i :: 0 <= i < |h.live| ==> Placed(h.trees, h.live[i]))
    && (forall i, j :: 0 <= i < j < |h.live| ==> Apart(h.live[i], h.live[j]))
    && (forall r: nat, p: nat :: r < |h.trees| && p < Pages(TOP) ==>
          (PageFree(h.trees[r], TOP, p) <==> !Held(h.live, r, p)))
  }

  /** kfree always finds its node, and the node is large enough for the block. */
  lemma BlockFound(h: Heap, i: nat)
    requires Inv(h) && i < |h.live|
    ensures var b := h.live[i]; var t := h.trees[b.root];
            NodeStarts(t, TOP, b.page) && b.count <= Pages(At(t, TOP, TopSlot(t, TOP, b.page)).level)
  {
    var b := h.live[i];
    var t := h.trees[b.root];
    assert Placed(h.trees, b) && Tiles(t, b, b.page);
    LeafHoldsPage(t, TOP, b.page);
    LeafStartsHere(t, TOP, b.page);
    AlignedTop(t, TOP, b.page, LevelFor(b.count));
    PagesMonotone(LevelFor(b.count), At(t, TOP, TopSlot(t, TOP, b.page)).level);
  }

  /** Freeing a live block frees its own pages only, and no other taken page's leaf changes. */
  lemma BlockFreed(h: Heap, i: nat, p: nat)
    requires Inv(h) && i < |h.live| && p < Pages(TOP)
    ensures var b := h.live[i]; var t := h.trees[b.root];
            && NodeStarts(t, TOP, b.page)
            && var t' := Free(t, TOP, b.page, b.count);
            && (PageFree(t', TOP, p) <==> PageFree(t, TOP, p) || b.Holds(b.root, p))
            && (!PageFree(t', TOP, p) ==> LeafOf(t', TOP, p) == LeafOf(t, TOP, p))
  {
    var b := h.live[i];
    var t := h.trees[b.root];
    BlockFound(h, i);
    FreePages(t, TOP, b.page, b.count, p);
    LeafHoldsPage(t, TOP, p);
    assert Placed(h.trees, b);
    var q := LeafOf(t, TOP, p).start;
    if b.Holds(b.root, p) {
      assert Tiles(t, b, p);
    } else if b.Holds(b.root, q) {
      LeafOfItsStart(t, TOP, p);
      assert Tiles(t, b, q);
    }
  }

  lemma StepKeepsInv(h: Heap, op: Op, h': Heap)
    requires Inv(h) && Step(h, op, h')
    ensures Inv(h')
  {
    match op
    case KAlloc(r, x, n) => AllocKeepsInv(h, r, x, n, h');
    case KFree(i) => ReleaseKeepsInv(h, i, h');
  }

  lemma AllocKeepsInv(h: Heap, r: nat, x: nat, n: nat, h': Heap)
    requires Inv(h) && Step(h, KAlloc(r, x, n), h')
    ensures Inv(h')
  {
    var t := h.trees[r];
    var s := At(t, TOP, x);
    var b := Block(r, s.page, n);
    var t' := Take(t, TOP, x, n);
    ReplaceCoalesced(t, TOP, x, Carve(s.level, n));
    assert WellFormed(h'.trees);
    forall p: nat | p < Pages(TOP)
      ensures PageFree(t', TOP, p) <==> PageFree(t, TOP, p) && !b.Holds(r, p)
      ensures b.Holds(r, p) ==> PageFree(t, TOP, p) && Tiles(t', b, p)
      ensures !PageFree(t, TOP, p) ==> LeafOf(t', TOP, p) == LeafOf(t, TOP, p)
    {
      TakePages(t, TOP, x, n, p);
    }
    LevelBelow(n, s.level);
    NodeAligned(t, TOP, x, LevelFor(n));
    assert Placed(h'.trees, b);
    forall i | 0 <= i < |h.live|
      ensures Placed(h'.trees, h.live[i]) && Apart(h.live[i], b)
    {
      PlacedStays(h.trees, h'.trees, h.live[i]);
      ApartFromFree(h, i, b);
    }
    forall q: nat, p: nat | q < |h.trees| && p < Pages(TOP)
      ensures PageFree(h'.trees[q], TOP, p) <==> !Held(h'.live, q, p)
    {
      HeldAppend(h.live, b, q, p);
      assert PageFree(h.trees[q], TOP, p) <==> !Held(h.live, q, p);
    }
  }

  lemma LevelBelow(n: nat, j: nat)
    requires 1 <= n <= Pages(j)
    ensures LevelFor(n) <= j
  {
    if LevelFor(n) > j {
      PagesMonotone(j, LevelFor(n) - 1);
    }
  }

  // A placed block stays placed when the leaves of its pages do not change.
  lemma PlacedStays(trees: seq<Tree>, trees': seq<Tree>, b: Block)
    requires WellFormed(trees) && WellFormed(trees') && |trees| == |trees'| && Placed(trees, b)
    requires forall p: nat :: b.page <= p < b.page + b.count && Tiles(trees[b.root], b, p) ==>
               LeafOf(trees'[b.root], TOP, p) == LeafOf(trees[b.root], TOP, p)
    ensures Placed(trees', b)
  {
    forall p: nat | b.page <= p < b.page + b.count
      ensures Tiles(trees'[b.root], b, p)
    {
      assert Tiles(trees[b.root], b, p);
    }
  }

  lemma ApartFromFree(h: Heap, i: nat, b: Block)
    requires Inv(h) && i < |h.live| && b.root < |h.trees| && b.page + b.count <= Pages(TOP)
    requires forall p: nat :: b.page <= p < b.page + b.count ==> PageFree(h.trees[b.root], TOP, p)
    ensures Apart(h.live[i], b)
  {
    var c := h.live[i];
    assert Placed(h.trees, c);
    forall r: nat, p: nat | c.Holds(r, p)
      ensures !b.Holds(r, p)
    {
      assert Tiles(h.trees[c.root], c, p);
      assert !PageFree(h.trees[r], TOP, p);
    }
  }

  lemma HeldAppend(live: seq<Block>, b: Block, r: nat, p: nat)
    ensures Held(live + [b], r, p) <==> Held(live, r, p) || b.Holds(r, p)
  {
    var all := live + [b];
    if Held(live, r, p) {
      var i :| 0 <= i < |live| && live[i].Holds(r, p);
      assert all[i].Holds(r, p);
    }
    assert all[|live|] == b;
  }

  lemma ReleaseKeepsInv(h: Heap, i: nat, h': Heap)
    requires Inv(h) && Step(h, KFree(i), h')
    ensures Inv(h')
  {
    var b := h.live[i];
    var t := h.trees[b.root];
    var t' := Free(t, TOP, b.page, b.count);
    assert WellFormed(h'.trees);
    forall p: nat | p < Pages(TOP)
      ensures PageFree(t', TOP, p) <==> PageFree(t, TOP, p) || b.Holds(b.root, p)
      ensures !PageFree(t', TOP, p) ==> LeafOf(t', TOP, p) == LeafOf(t, TOP, p)
    {
      BlockFreed(h, i, p);
    }
    forall j | 0 <= j < |h.live| && j != i
      ensures Placed(h'.trees, h.live[j])
    {
      var c := h.live[j];
      assert Apart(b, c) || Apart(c, b);
      forall p: nat | c.page <= p < c.page + c.count && Tiles(h.trees[c.root], c, p)
        ensures LeafOf(h'.trees[c.root], TOP, p) == LeafOf(h.trees[c.root], TOP, p)
      {
        assert c.Holds(c.root, p);
      }
      PlacedStays(h.trees, h'.trees, c);
    }
    forall q: nat, p: nat | q < |h.trees| && p < Pages(TOP)
      ensures PageFree(h'.trees[q], TOP, p) <==> !Held(h'.live, q, p)
    {
      HeldRemove(h.live, i, q, p);
      assert PageFree(h.trees[q], TOP, p) <==> !Held(h.live, q, p);
    }
  }

  lemma HeldRemove(live: seq<Block>, i: nat, r: nat, p: nat)
    requires i < |live| && forall j, k :: 0 <= j < k < |live| ==> Apart(live[j], live[k])
    ensures Held(live[..i] + live[i + 1..], r, p) <==> Held(live, r, p) && !live[i].Holds(r, p)
  {
    var rest := live[..i] + live[i + 1..];
    if Held(live, r, p) && !live[i].Holds(r, p) {
      var j :| 0 <= j < |live| && live[j].Holds(r, p);
      assert rest[if j < i then j else j - 1] == live[j];
    }
    if Held(rest, r, p) {
      var j :| 0 <= j < |rest| && rest[j].Holds(r, p);
      if j < i {
        assert rest[j] == live[j] && Apart(live[j], live[i]);
      } else {
        assert rest[j] == live[j + 1] && Apart(live[i], live[j + 1]);
      }
    }
  }

  // ---------------------------------------------------------------------------------
  // Runs
  // ---------------------------------------------------------------------------------

  /** hs are the heaps passed through by the calls ops, from a fresh heap. */
  ghost predicate IsRun(hs: seq<Heap>, ops: seq<Op>) {
    && |hs| == |ops| + 1 && Init(hs[0])
    && forall i :: 0 <= i < |ops| ==> WellFormed(hs[i].trees) && Step(hs[i], ops[i], hs[i + 1])
  }

  /** In every state of every run the live blocks are apart, each is tiled exactly by
      allocated leaves, and a page is free exactly when no live block holds it. */
  lemma {:induction false} EveryRunKeepsInv(hs: seq<Heap>, ops: seq<Op>)
    requires IsRun(hs, ops)
    ensures forall i :: 0 <= i < |hs| ==> Inv(hs[i])
    decreases |ops|
  {
    if ops == [] {
      InitInv(hs[0]);
    } else {
      var m := |ops| - 1;
      assert forall i :: 0 <= i < m ==> ops[..m][i] == ops[i];
      EveryRunKeepsInv(hs[..m + 1], ops[..m]);
      assert hs[..m + 1][m] == hs[m];
      StepKeepsInv(hs[m], ops[m], hs[m + 1]);
      forall i | 0 <= i < |hs|
        ensures Inv(hs[i])
      {
        if i <= m {
          assert hs[..m + 1][i] == hs[i];
        }
      }
    }
  }

  lemma InitInv(h: Heap)
    requires Init(h)
    ensures Inv(h)
  {
  }

  /** When everything was given back, the heap is as it was at the start: no run of calls
      leaks a page or leaves a block split. */
  lemma EmptyHeapIsFresh(h: Heap)
    requires Inv(h) && h.live == []
    ensures Init(h)
  {
    forall r | 0 <= r < |h.trees|
      ensures h.trees[r] == Leaf(true)
    {
      AllFreeIsOneLeaf(h.trees[r], TOP);
    }
  }

  // ---------------------------------------------------------------------------------
  // Conservation of pages
  // ---------------------------------------------------------------------------------

  ghost function AllPages(trees: seq<Tree>): set<(nat, nat)> {
    set r: nat, p: nat | r < |trees| && p < Pages(TOP) :: (r, p)
  }

  ghost function TakenPages(trees: seq<Tree>): set<(nat, nat)>
    requires WellFormed(trees)
  {
    set r: nat, p: nat | r < |trees| && p < Pages(TOP) && !PageFree(trees[r], TOP, p) :: (r, p)
  }

  ghost function FreePageSet(trees: seq<Tree>): set<(nat, nat)>
    requires WellFormed(trees)
  {
    set r: nat, p: nat | r < |trees| && p < Pages(TOP) && PageFree(trees[r], TOP, p) :: (r, p)
  }

  function Total(live: seq<Block>): nat {
    if live == [] then 0 else live[0].count + Total(live[1..])
  }

  ghost function BlockPages(b: Block): set<(nat, nat)> {
    set p: nat | b.page <= p < b.page + b.count :: (b.root, p)
  }

  lemma {:induction false} BlockPagesCount(b: Block)
    ensures |BlockPages(b)| == b.count
    decreases b.count
  {
    if b.count == 0 {
      assert BlockPages(b) == {};
    } else {
      var c := b.(count := b.count - 1);
      var last := (b.root, b.page + b.count - 1);
      BlockPagesCount(c);
      assert BlockPages(b) == BlockPages(c) + {last};
    }
  }

  ghost function LivePages(live: seq<Block>): set<(nat, nat)> {
    if live == [] then {} else BlockPages(live[0]) + LivePages(live[1..])
  }

  lemma {:induction false} LivePagesHeld(live: seq<Block>, r: nat, p: nat)
    ensures (r, p) in LivePages(live) <==> Held(live, r, p)
    decreases |live|
  {
    if live != [] {
      LivePagesHeld(live[1..], r, p);
      assert (r, p) in BlockPages(live[0]) <==> live[0].Holds(r, p);
      if Held(live[1..], r, p) {
        var i :| 0 <= i < |live[1..]| && live[1..][i].Holds(r, p);
        assert live[i + 1].Holds(r, p);
      }
      if Held(live, r, p) && !live[0].Holds(r, p) {
        var i :| 0 <= i < |live| && live[i].Holds(r, p);
        assert live[1..][i - 1].Holds(r, p);
      }
    }
  }

  lemma {:induction false} LivePagesCount(live: seq<Block>)
    requires forall i, j :: 0 <= i < j < |live| ==> Apart(live[i], live[j])
    ensures |LivePages(live)| == Total(live)
    decreases |live|
  {
    if live != [] {
      LivePagesCount(live[1..]);
      BlockPagesCount(live[0]);
      forall r: nat, p: nat | (r, p) in LivePages(live[1..])
        ensures (r, p) !in BlockPages(live[0])
      {
        LivePagesHeld(live[1..], r, p);
        var i :| 0 <= i < |live[1..]| && live[1..][i].Holds(r, p);
        assert Apart(live[0], live[i + 1]);
      }
      assert BlockPages(live[0]) !! LivePages(live[1..]);
    }
  }

  /** The pages taken are as many as the live blocks ask for, and all others are free. */
  lemma PagesConserved(h: Heap)
    requires Inv(h)
    ensures |TakenPages(h.trees)| == Total(h.live)
    ensures |FreePageSet(h.trees)| == |h.trees| * Pages(TOP) - Total(h.live)
  {
    forall x: (nat, nat)
      ensures x in TakenPages(h.trees) <==> x in LivePages(h.live)
    {
      var (r, p) := x;
      LivePagesHeld(h.live, r, p);
      if Held(h.live, r, p) {
        var i :| 0 <= i < |h.live| && h.live[i].Holds(r, p);
        assert Placed(h.trees, h.live[i]) && Tiles(h.trees[r], h.live[i], p);
      }
    }
    assert TakenPages(h.trees) == LivePages(h.live);
    LivePagesCount(h.live);
    AllPagesCount(h.trees);
    assert TakenPages(h.trees) + FreePageSet(h.trees) == AllPages(h.trees);
    assert TakenPages(h.trees) !! FreePageSet(h.trees);
  }

  lemma {:induction false} AllPagesCount(trees: seq<Tree>)
    ensures |AllPages(trees)| == |trees| * Pages(TOP)
    decreases |trees|
  {
    if trees == [] {
      assert AllPages(trees) == {};
    } else {
      var m := |trees| - 1;
      var last := Block(m, 0, Pages(TOP));
      AllPagesCount(trees[..m]);
      BlockPagesCount(last);
      assert AllPages(trees) == AllPages(trees[..m]) + BlockPages(last);
      assert AllPages(trees[..m]) !! BlockPages(last);
    }
  }
}

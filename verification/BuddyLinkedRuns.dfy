/** Runs of kalloc and kfree on trees and free lists together: what the condition for
    agreement means for the live allocations, and the runs in which it always holds. */
module BuddyLinkedRuns {
  import opened BuddyTree
  import opened BuddyOps
  import opened BuddyRuns
  import opened BuddyMemory
  import opened BuddyLists
  import opened BuddyAgreement
  import opened BuddyHeap
  import opened BuddyFree
  import opened BuddyReturn

  // ---------------------------------------------------------------------------------
  // The condition in terms of the live allocations
  // ---------------------------------------------------------------------------------

  /** Another allocation than the i-th holds the page. */
  ghost predicate HeldByOther(live: seq<Block>, i: nat, r: nat, p: nat) {
    exists j :: 0 <= j < |live| && j != i && live[j].Holds(r, p)
  }

  /** After the i-th allocation was given back, a page is free exactly if no other holds it. */
  lemma FreedPages(h: Heap, i: nat, p: nat)
    requires Inv(h) && i < |h.live| && p < Pages(TOP)
    ensures var b := h.live[i]; var t := h.trees[b.root];
            && NodeStarts(t, TOP, b.page)
            && (PageFree(Free(t, TOP, b.page, b.count), TOP, p) <==> !HeldByOther(h.live, i, b.root, p))
  {
    var b := h.live[i];
    BlockFreed(h, i, p);
    assert PageFree(h.trees[b.root], TOP, p) <==> !Held(h.live, b.root, p);
    if HeldByOther(h.live, i, b.root, p) {
      var j :| 0 <= j < |h.live| && j != i && h.live[j].Holds(b.root, p);
      assert Apart(h.live[i], h.live[j]) || Apart(h.live[j], h.live[i]);
    }
  }

  /** The search from a live allocation finds a block, and its page is taken. */
  lemma LiveFound(h: Heap, i: nat)
    requires Inv(h) && i < |h.live|
    ensures var b := h.live[i];
            && b.root < |h.trees| && Fits(h.trees[b.root], TOP) && Coalesced(h.trees[b.root])
            && NodeStarts(h.trees[b.root], TOP, b.page) && PageTaken(h.trees[b.root], b.page)
  {
    var b := h.live[i];
    BlockFound(h, i);
    assert Placed(h.trees, b) && Tiles(h.trees[b.root], b, b.page);
  }

  // Joining changes no page of the block found.
  lemma MergedInBlock(t: Tree, a: nat, n: nat, p: nat)
    requires Fits(t, TOP) && NodeStarts(t, TOP, a) && p < Pages(At(t, TOP, TopSlot(t, TOP, a)).level)
    ensures var top := At(t, TOP, TopSlot(t, TOP, a));
            && a + p < Pages(TOP)
            && (PageFree(Free(t, TOP, a, n), TOP, a + p) <==> PageFree(Merge(top.sub, top.level, n), top.level, p))
  {
    hide Merge;
    hide TopSlot;
    hide NodeStarts;
    hide Replace;
    hide Coalesce;
    var x := TopSlot(t, TOP, a);
    CoalescePages(Release(t, TOP, a, n), TOP, a + p);
    ReplaceInside(t, TOP, x, Merge(At(t, TOP, x).sub, At(t, TOP, x).level, n), p);
  }

  lemma MergedPages(h: Heap, i: nat, p: nat)
    requires Inv(h) && i < |h.live|
    requires NodeStarts(h.trees[h.live[i].root], TOP, h.live[i].page)
    requires p < Pages(At(h.trees[h.live[i].root], TOP, TopSlot(h.trees[h.live[i].root], TOP, h.live[i].page)).level)
    ensures var b := h.live[i]; var t := h.trees[b.root]; var top := At(t, TOP, TopSlot(t, TOP, b.page));
            PageFree(Merge(top.sub, top.level, b.count), top.level, p) <==> !HeldByOther(h.live, i, b.root, b.page + p)
  {
    hide HeldByOther;
    hide PageFree;
    hide Merge;
    hide Free;
    hide TopSlot;
    LiveFound(h, i);
    MergedInBlock(h.trees[h.live[i].root], h.live[i].page, h.live[i].count, p);
    FreedPages(h, i, h.live[i].page + p);
  }

  lemma AllFreeIff(t: Tree, k: nat)
    requires Fits(t, k) && Coalesced(t)
    ensures t == Leaf(true) <==> forall p: nat :: p < Pages(k) ==> PageFree(t, k, p)
  {
    if forall p: nat :: p < Pages(k) ==> PageFree(t, k, p) {
      AllFreeIsOneLeaf(t, k);
    }
  }

  /** kfree of a live allocation frees the whole block it finds exactly if that block holds
      no other allocation. */
  lemma FreesWholeIff(h: Heap, i: nat)
    requires Inv(h) && i < |h.live|
    ensures var b := h.live[i]; var t := h.trees[b.root];
            && NodeStarts(t, TOP, b.page)
            && var top := At(t, TOP, TopSlot(t, TOP, b.page));
            (FreesWhole(t, b.page, b.count) <==>
             forall p: nat :: b.page <= p < b.page + Pages(top.level) ==> !HeldByOther(h.live, i, b.root, p))
  {
    hide HeldByOther;
    hide Inv;
    hide PageFree;
    hide Merge;
    hide TopSlot;
    LiveFound(h, i);
    var b := h.live[i];
    var t := h.trees[b.root];
    var x := TopSlot(t, TOP, b.page);
    var top := At(t, TOP, x);
    var u := Merge(top.sub, top.level, b.count);
    SubCoalesced(t, TOP, x);
    MergeCoalesced(top.sub, top.level, b.count);
    AllFreeIff(u, top.level);
    forall p: nat | p < Pages(top.level)
      ensures PageFree(u, top.level, p) <==> !HeldByOther(h.live, i, b.root, b.page + p)
    {
      MergedPages(h, i, p);
    }
    forall p: nat | b.page <= p < b.page + Pages(top.level)
      ensures PageFree(u, top.level, p - b.page) <==> !HeldByOther(h.live, i, b.root, p)
    {
      assert b.page + (p - b.page) == p;
    }
  }

  /** The maximal block is free afterwards exactly if it held no other allocation. */
  lemma FreesAllIff(h: Heap, i: nat)
    requires Inv(h) && i < |h.live|
    ensures var b := h.live[i]; var t := h.trees[b.root];
            && NodeStarts(t, TOP, b.page)
            && (Free(t, TOP, b.page, b.count) == Leaf(true) <==>
                forall p: nat :: p < Pages(TOP) ==> !HeldByOther(h.live, i, b.root, p))
  {
    LiveFound(h, i);
    var b := h.live[i];
    var t' := Free(h.trees[b.root], TOP, b.page, b.count);
    forall p: nat | p < Pages(TOP)
      ensures PageFree(t', TOP, p) <==> !HeldByOther(h.live, i, b.root, p)
    {
      FreedPages(h, i, p);
    }
    AllFreeIff(t', TOP);
  }

  /** The other half of the block that the node in slot x is half of. */
  function Buddy(t: Tree, k: nat, x: nat): (u: Tree)
    requires Fits(t, k) && NodeAt(t, k, x) && x > 0
    decreases k
  {
    if x == 1 && k > 0 then t.right
    else if x < Pages(k) then Buddy(t.left, k - 1, x - 1)
    else if x == Pages(k) then t.left
    else Buddy(t.right, k - 1, x - Pages(k))
  }

  lemma {:induction false} MergedSlotStays(t: Tree, k: nat, x: nat)
    requires Fits(t, k) && NodeAt(t, k, x) && x > 0
    ensures MergedSlot(t, k, x) == x <==> Buddy(t, k, x) != Leaf(true)
    decreases k
  {
    if 1 < x < Pages(k) {
      MergedSlotStays(t.left, k - 1, x - 1);
    } else if x > Pages(k) {
      MergedSlotStays(t.right, k - 1, x - Pages(k));
    }
  }

  lemma {:induction false} BuddyStays(t: Tree, k: nat, x: nat, u: Tree)
    requires Fits(t, k) && NodeAt(t, k, x) && x > 0 && Fits(u, At(t, k, x).level)
    ensures NodeAt(Replace(t, k, x, u), k, x) && Buddy(Replace(t, k, x, u), k, x) == Buddy(t, k, x)
    decreases k
  {
    ReplaceAt(t, k, x, u);
    if 1 < x < Pages(k) {
      BuddyStays(t.left, k - 1, x - 1, u);
    } else if x > Pages(k) {
      BuddyStays(t.right, k - 1, x - Pages(k), u);
    }
  }

  lemma WholeIsLeafFree(t: Tree, a: nat, n: nat)
    requires Fits(t, TOP) && NodeStarts(t, TOP, a) && FreesWhole(t, a, n)
    ensures var x := TopSlot(t, TOP, a); NodeAt(AsLeaf(t, a), TOP, x) && FreedTree(AsLeaf(t, a), TOP, x) == Free(t, TOP, a, n)
  {
    var m := Lists(seq(Slots(TOP), _ => UNLINKED), seq(TOP + 1, _ => NULL));
    FreeLinksWhole(m, 0, t, a, n);
  }

  // A block freed as a whole stays a node of its own exactly if its buddy is not free.
  lemma StaysNodeIff(t: Tree, a: nat, n: nat)
    requires Fits(t, TOP) && NodeStarts(t, TOP, a) && Coalesced(t) && FreesWhole(t, a, n)
    ensures var x := TopSlot(t, TOP, a);
            NodeAt(Free(t, TOP, a, n), TOP, x) <==> x == 0 || Buddy(t, TOP, x) != Leaf(true)
  {
    var x, t0 := TopSlot(t, TOP, a), AsLeaf(t, a);
    AsLeafFacts(t, a);
    WholeIsLeafFree(t, a, n);
    OneNewLeaf(t0, TOP, x, 0, 0);
    if x > 0 {
      MergedSlotStays(t0, TOP, x);
      BuddyStays(t, TOP, x, Leaf(false));
    }
  }

  /** From agreeing lists, kfree of a live allocation leads to agreeing lists if and only if
      the block found at its address holds no other allocation, and the buddy of that block
      is not free, unless the whole 128K hold no other allocation. */
  lemma LiveFreeAgreesIff(m: Lists, h: Heap, i: nat)
    requires Inv(h) && i < |h.live| && Agree(m, h.trees)
    ensures var b := h.live[i]; var t := h.trees[b.root];
            && NodeStarts(t, TOP, b.page)
            && SLOTS * b.root + Slots(TOP) <= |m.links| && |m.heads| == TOP + 1
            && var x := TopSlot(t, TOP, b.page);
            (Agree(FreeLinks(m, SLOTS * b.root, t, b.page, b.count),
                   h.trees[b.root := Free(t, TOP, b.page, b.count)]) <==>
             && (forall p: nat :: b.page <= p < b.page + Pages(At(t, TOP, x).level) ==>
                   !HeldByOther(h.live, i, b.root, p))
             && (|| x == 0 || Buddy(t, TOP, x) != Leaf(true)
                 || (forall p: nat :: p < Pages(TOP) ==> !HeldByOther(h.live, i, b.root, p))))
  {
    hide Inv;
    hide Agree;
    hide FreeLinks;
    hide FreesWhole;
    hide Free;
    hide HeldByOther;
    hide Buddy;
    hide PageTaken;
    var b := h.live[i];
    LiveFound(h, i);
    InvTrees(h);
    FreeAgreesIff(m, h.trees, b.root, b.page, b.count);
    FreesWholeIff(h, i);
    FreesAllIff(h, i);
    if FreesWhole(h.trees[b.root], b.page, b.count) {
      StaysNodeIff(h.trees[b.root], b.page, b.count);
    }
  }

  lemma InvTrees(h: Heap)
    requires Inv(h)
    ensures WellFormed(h.trees)
  {
  }

  // ---------------------------------------------------------------------------------
  // Giving back what was just taken
  // ---------------------------------------------------------------------------------

  /** Slot x is the slot of a right half, or of the whole block. */
  predicate RightSlot(k: nat, x: nat) {
    x == 0 || (k > 0 && if x < Pages(k) then x > 1 && RightSlot(k - 1, x - 1) else RightSlot(k - 1, x - Pages(k)))
  }

  // The search for the address of the node in slot x, from the half it is in.
  lemma SearchHalves(t: Tree, k: nat, x: nat)
    requires Fits(t, k) && NodeAt(t, k, x) && x > 0
    ensures t.Node? && k > 0 && NodeStarts(t, k, At(t, k, x).page)
    ensures x < Pages(k) ==>
              var a := At(t, k, x).page;
              && NodeAt(t.left, k - 1, x - 1) && At(t.left, k - 1, x - 1) == At(t, k, x)
              && a < Pages(k - 1) && NodeStarts(t.left, k - 1, a)
              && TopSlot(t, k, a) == if a == 0 then 0 else 1 + TopSlot(t.left, k - 1, a)
    ensures x >= Pages(k) ==>
              var a := At(t, k, x).page;
              && NodeAt(t.right, k - 1, x - Pages(k)) && a >= Pages(k - 1)
              && At(t.right, k - 1, x - Pages(k)) == At(t, k, x).(page := a - Pages(k - 1))
              && NodeStarts(t.right, k - 1, a - Pages(k - 1))
              && TopSlot(t, k, a) == Pages(k) + TopSlot(t.right, k - 1, a - Pages(k - 1))
  {
    hide NodeAt;
    hide At;
    hide TopSlot;
    hide NodeStarts;
    SlotHalves(t, k, x);
    TakenNodeStarts(t, k, x);
    TopStep(t, k, At(t, k, x).page);
    if x < Pages(k) {
      TakenNodeStarts(t.left, k - 1, x - 1);
      BlockInside(t.left, k - 1, x - 1);
    }
  }

  lemma BlockInside(t: Tree, k: nat, x: nat)
    requires Fits(t, k) && NodeAt(t, k, x)
    ensures At(t, k, x).page < Pages(k)
  {
  }

  // The search for the start of a tree ends at once.
  lemma SearchAtStart(t: Tree, k: nat)
    requires Fits(t, k)
    ensures NodeStarts(t, k, 0) && TopSlot(t, k, 0) == 0 && NodeAt(t, k, 0) && At(t, k, 0) == Spot(k, 0, t)
  {
  }

  /** The search for a node's address ends at the node exactly if it is a right half or the
      whole block: a left half shares its address with the block it is half of. */
  lemma {:induction false} TopIffRight(t: Tree, k: nat, x: nat)
    requires Fits(t, k) && NodeAt(t, k, x)
    ensures NodeStarts(t, k, At(t, k, x).page)
    ensures TopSlot(t, k, At(t, k, x).page) == x <==> RightSlot(k, x)
    decreases k
  {
    hide NodeAt;
    hide At;
    hide TopSlot;
    hide NodeStarts;
    SearchAtStart(t, k);
    if x > 0 {
      SearchHalves(t, k, x);
      if x < Pages(k) {
        SearchAtStart(t.left, k - 1);
        TopIffRight(t.left, k - 1, x - 1);
      } else {
        TopIffRight(t.right, k - 1, x - Pages(k));
      }
    }
  }

  // The search does not depend on what is below the node it ends at.
  lemma {:induction false} TopSlotStays(t: Tree, k: nat, x: nat, u: Tree)
    requires Fits(t, k) && NodeAt(t, k, x) && Fits(u, At(t, k, x).level)
    ensures var a := At(t, k, x).page;
            && NodeStarts(t, k, a) && NodeStarts(Replace(t, k, x, u), k, a)
            && TopSlot(Replace(t, k, x, u), k, a) == TopSlot(t, k, a)
    decreases k
  {
    hide NodeAt;
    hide At;
    hide TopSlot;
    hide NodeStarts;
    hide Replace;
    var v := Replace(t, k, x, u);
    ReplaceAt(t, k, x, u);
    SearchAtStart(t, k);
    SearchAtStart(v, k);
    if x > 0 {
      ReplaceHalves(t, k, x, u);
      SearchHalves(t, k, x);
      SearchHalves(v, k, x);
      if x < Pages(k) {
        TopSlotStays(t.left, k - 1, x - 1, u);
      } else {
        TopSlotStays(t.right, k - 1, x - Pages(k), u);
      }
    }
  }

  // If the search ends above the node, it ends at a split block.
  lemma {:induction false} TopIsSplit(t: Tree, k: nat, x: nat)
    requires Fits(t, k) && NodeAt(t, k, x) && NodeStarts(t, k, At(t, k, x).page)
    requires TopSlot(t, k, At(t, k, x).page) != x
    ensures At(t, k, TopSlot(t, k, At(t, k, x).page)).sub.Node?
    decreases k
  {
    hide NodeAt;
    hide At;
    hide TopSlot;
    hide NodeStarts;
    SearchAtStart(t, k);
    if x > 0 {
      SearchHalves(t, k, x);
      var y := TopSlot(t, k, At(t, k, x).page);
      if y > 0 {
        SlotHalves(t, k, y);
      }
      if x < Pages(k) {
        if y > 0 {
          TopIsSplit(t.left, k - 1, x - 1);
        }
      } else {
        TopIsSplit(t.right, k - 1, x - Pages(k));
      }
    }
  }

  /** kfree(kalloc(n), n) leads back to agreeing lists exactly if the free leaf that kalloc
      took was a right half or a maximal block. */
  lemma GiveBackIff(t: Tree, x: nat, n: nat)
    requires Fits(t, TOP) && Coalesced(t) && FreeNode(t, x) && 1 <= n <= Pages(At(t, TOP, x).level)
    ensures var v, a := Take(t, TOP, x, n), At(t, TOP, x).page;
            && NodeStarts(v, TOP, a) && Free(v, TOP, a, n) == t
            && (FreesCleanly(v, a, n) <==> RightSlot(TOP, x))
  {
    hide Free;
    hide RightSlot;
    hide Coalesced;
    hide NodeStarts;
    var k, a := At(t, TOP, x).level, At(t, TOP, x).page;
    var v := Take(t, TOP, x, n);
    FreeUndoesTake(t, TOP, x, n);
    TopIffRight(t, TOP, x);
    TopSlotStays(t, TOP, x, Carve(k, n));
    if TopSlot(t, TOP, a) == x {
      ReplaceAt(t, TOP, x, Carve(k, n));
      MergeUndoesCarve(k, n);
    } else {
      TopIsSplit(t, TOP, x);
      GiveBackSplit(t, v, a, n);
    }
  }

  // A block that is split again afterwards was not freed as a whole.
  lemma GiveBackSplit(t: Tree, v: Tree, a: nat, n: nat)
    requires Fits(t, TOP) && Fits(v, TOP) && NodeStarts(v, TOP, a) && Free(v, TOP, a, n) == t
    requires NodeAt(t, TOP, TopSlot(v, TOP, a)) && At(t, TOP, TopSlot(v, TOP, a)).sub.Node?
    ensures !FreesWhole(v, a, n)
  {
    if FreesWhole(v, a, n) {
      var x := TopSlot(v, TOP, a);
      ReplaceAt(v, TOP, x, Leaf(true));
      LeafKept(Release(v, TOP, a, n), TOP, x);
    }
  }

  // ---------------------------------------------------------------------------------
  // Free leaves stay right halves
  // ---------------------------------------------------------------------------------

  /** Every free leaf is a right half or the whole tree. */
  ghost predicate RightOnly(t: Tree, k: nat)
    requires Fits(t, k)
  {
    forall j: nat, x: nat :: FreeAt(t, k, j, x) ==> RightSlot(k, x)
  }

  lemma {:induction false} CarveRight(k: nat, n: nat, j: nat, x: nat)
    requires 1 <= n <= Pages(k) && FreeAt(Carve(k, n), k, j, x)
    ensures x > 0 && RightSlot(k, x)
    decreases k
  {
    hide FreeAt;
    if n == Pages(k) {
      LeafFreeAt(false, k, j, x);
    } else if n > Pages(k - 1) {
      NodeFreeAt(Carve(k, n), k, j, x);
      if x < Pages(k) {
        LeafFreeAt(false, k - 1, j, x - 1);
      } else {
        CarveRight(k - 1, n - Pages(k - 1), j, x - Pages(k));
      }
    } else {
      NodeFreeAt(Carve(k, n), k, j, x);
      if x < Pages(k) {
        CarveRight(k - 1, n, j, x - 1);
      } else {
        LeafFreeAt(true, k - 1, j, x - Pages(k));
      }
    }
  }

  lemma {:induction false} RightInside(t: Tree, k: nat, x: nat, z: nat)
    requires Fits(t, k) && NodeAt(t, k, x) && z > 0 && z < Slots(At(t, k, x).level) && RightSlot(At(t, k, x).level, z)
    ensures RightSlot(k, x + z)
    decreases k
  {
    if x == 0 {
    } else if x < Pages(k) {
      SlotsInside(t.left, k - 1, x - 1);
      RightInside(t.left, k - 1, x - 1, z);
    } else {
      RightInside(t.right, k - 1, x - Pages(k), z);
    }
  }

  /** kalloc gives back right halves only. */
  lemma TakeRight(t: Tree, x: nat, n: nat)
    requires Fits(t, TOP) && NodeAt(t, TOP, x) && 1 <= n <= Pages(At(t, TOP, x).level) && RightOnly(t, TOP)
    ensures RightOnly(Take(t, TOP, x, n), TOP)
  {
    hide FreeAt;
    hide RightSlot;
    hide Carve;
    hide Replace;
    var k := At(t, TOP, x).level;
    forall j: nat, y: nat | FreeAt(Take(t, TOP, x, n), TOP, j, y)
      ensures RightSlot(TOP, y)
    {
      ReplaceFreeAt(t, TOP, x, Carve(k, n), j, y);
      if Within(x, k, y) {
        CarveRight(k, n, j, y - x);
        RightInside(t, TOP, x, y - x);
      }
    }
  }

  // The one new free leaf, when the freed leaf stays a node or the whole tree is free.
  lemma NewLeafAt(t: Tree, x: nat, j: nat, y: nat)
    requires Fits(t, TOP) && Coalesced(t) && NodeAt(t, TOP, x) && At(t, TOP, x).sub == Leaf(false)
    requires Fits(FreedTree(t, TOP, x), TOP)
    requires NodeAt(FreedTree(t, TOP, x), TOP, x) || FreedTree(t, TOP, x) == Leaf(true)
    ensures FreeAt(FreedTree(t, TOP, x), TOP, j, y) ==> y == x || y == 0 || FreeAt(t, TOP, j, y)
  {
    hide FreeAt;
    hide FreedTree;
    hide NodeAt;
    hide At;
    hide MergedSlot;
    OneNewLeaf(t, TOP, x, j, y);
  }

  // Free leaves of the tree with an allocated leaf in place of the block found.
  lemma AsLeafFreeAt(t: Tree, a: nat, j: nat, y: nat)
    requires Fits(t, TOP) && NodeStarts(t, TOP, a) && FreeAt(AsLeaf(t, a), TOP, j, y)
    ensures FreeAt(t, TOP, j, y)
  {
    hide FreeAt;
    hide Replace;
    hide TopSlot;
    hide At;
    hide NodeAt;
    var x := TopSlot(t, TOP, a);
    ReplaceFreeAt(t, TOP, x, Leaf(false), j, y);
    if Within(x, At(t, TOP, x).level, y) {
      LeafFreeAt(false, At(t, TOP, x).level, j, y - x);
    }
  }

  /** A kfree that keeps the lists in agreement makes a right half or a maximal block free. */
  lemma FreeRight(t: Tree, a: nat, n: nat)
    requires Fits(t, TOP) && NodeStarts(t, TOP, a) && Coalesced(t) && FreesCleanly(t, a, n) && RightOnly(t, TOP)
    ensures RightOnly(Free(t, TOP, a, n), TOP)
  {
    hide FreeAt;
    hide RightSlot;
    hide Coalesced;
    hide AsLeaf;
    hide TopSlot;
    hide At;
    hide NodeAt;
    hide FreesWhole;
    hide FreedTree;
    hide Free;
    var x, t0, t' := TopSlot(t, TOP, a), AsLeaf(t, a), Free(t, TOP, a, n);
    AsLeafFacts(t, a);
    SlotZeroRight();
    WholeIsLeafFree(t, a, n);
    TopIffRight(t, TOP, x);
    forall j: nat, y: nat | FreeAt(t', TOP, j, y)
      ensures RightSlot(TOP, y)
    {
      NewLeafAt(t0, x, j, y);
      if FreeAt(t0, TOP, j, y) {
        AsLeafFreeAt(t, a, j, y);
      }
    }
  }

  lemma SlotZeroRight()
    ensures RightSlot(TOP, 0)
  {
  }

  // ---------------------------------------------------------------------------------
  // Runs
  // ---------------------------------------------------------------------------------

  /** Trees, live allocations and links. */
  datatype LinkedHeap = LinkedHeap(heap: Heap, links: Lists)

  /** One call, on trees and links.  kalloc takes the first node of a list, or any free
      maximal block. */
  ghost predicate LinkedStep(s: LinkedHeap, op: Op, s': LinkedHeap)
    requires WellFormed(s.heap.trees)
  {
    && Step(s.heap, op, s'.heap)
    && match op
       case KAlloc(r, x, n) =>
         && MayTake(s.links, s.heap.trees, r, x)
         && SLOTS * r + x + Slots(At(s.heap.trees[r], TOP, x).level) <= |s.links.links|
         && At(s.heap.trees[r], TOP, x).level <= TOP
         && s'.links == AllocLinks(s.links, SLOTS * r + x, At(s.heap.trees[r], TOP, x).level, n)
       case KFree(i) =>
         var b := s.heap.live[i];
         && SLOTS * b.root + Slots(TOP) <= |s.links.links| && |s.links.heads| == TOP + 1
         && s'.links == FreeLinks(s.links, SLOTS * b.root, s.heap.trees[b.root], b.page, b.count)
  }

  /** The state is as good as memory_init left it: lists and trees agree, live blocks are in
      order, and every free leaf is a right half or a maximal block. */
  ghost predicate LinkedInv(s: LinkedHeap) {
    && Inv(s.heap) && WellFormed(s.heap.trees) && Agree(s.links, s.heap.trees)
    && forall r :: 0 <= r < |s.heap.trees| ==> RightOnly(s.heap.trees[r], TOP)
  }

  /** Every kfree frees the whole block it finds, without joining it below the largest size. */
  predicate CleanStep(s: LinkedHeap, op: Op)
    requires WellFormed(s.heap.trees)
  {
    op.KFree? ==>
      && op.index < |s.heap.live|
      && var b := s.heap.live[op.index];
      && b.root < |s.heap.trees| && NodeStarts(s.heap.trees[b.root], TOP, b.page)
      && FreesCleanly(s.heap.trees[b.root], b.page, b.count)
  }

  /** A call keeps agreement exactly if it is a kalloc or a clean kfree. */
  lemma LinkedStepIff(s: LinkedHeap, op: Op, s': LinkedHeap)
    requires LinkedInv(s) && LinkedStep(s, op, s')
    ensures LinkedInv(s') <==> CleanStep(s, op)
    ensures WellFormed(s'.heap.trees) && (Agree(s'.links, s'.heap.trees) <==> CleanStep(s, op))
  {
    hide LinkedInv;
    match op
    case KAlloc(r, x, n) => AllocLinked(s, r, x, n, s');
    case KFree(i) => FreeLinked(s, i, s');
  }

  lemma AllocLinked(s: LinkedHeap, r: nat, x: nat, n: nat, s': LinkedHeap)
    requires LinkedInv(s) && LinkedStep(s, KAlloc(r, x, n), s')
    ensures LinkedInv(s') && WellFormed(s'.heap.trees) && Agree(s'.links, s'.heap.trees)
  {
    hide Inv;
    hide AllocLinks;
    hide RightOnly;
    hide Take;
    var trees, k := s.heap.trees, At(s.heap.trees[r], TOP, x).level;
    StepKeepsInv(s.heap, KAlloc(r, x, n), s'.heap);
    InvTrees(s'.heap);
    var lists :| ListsSound(s.links, lists, trees) && ListsComplete(lists, trees);
    hide ListsSound;
    if k < TOP {
      BlockComplete(lists, trees, r);
      assert FreeAt(trees[r], TOP, k, x);
    }
    hide ListsComplete;
    hide MayTake;
    var lists' := AllocLinksSound(s.links, lists, trees, r, x, n);
    TakeRight(trees[r], x, n);
  }

  lemma FreeLinked(s: LinkedHeap, i: nat, s': LinkedHeap)
    requires LinkedInv(s) && LinkedStep(s, KFree(i), s')
    ensures LinkedInv(s') <==> CleanStep(s, KFree(i))
    ensures WellFormed(s'.heap.trees) && (Agree(s'.links, s'.heap.trees) <==> CleanStep(s, KFree(i)))
  {
    hide Inv;
    hide Agree;
    hide FreeLinks;
    hide RightOnly;
    hide FreesCleanly;
    hide Free;
    var b, trees := s.heap.live[i], s.heap.trees;
    StepKeepsInv(s.heap, KFree(i), s'.heap);
    InvTrees(s'.heap);
    LiveFound(s.heap, i);
    FreeAgreesIff(s.links, trees, b.root, b.page, b.count);
    if FreesCleanly(trees[b.root], b.page, b.count) {
      FreeRight(trees[b.root], b.page, b.count);
    }
  }

  /** The heap and the links of memory_init. */
  ghost predicate LinkedInit(s: LinkedHeap) {
    && Init(s.heap) && RootsLinked(s.links, |s.heap.trees|)
    && forall j :: 0 <= j < TOP ==> s.links.heads[j] == NULL
  }

  ghost predicate IsLinkedRun(ss: seq<LinkedHeap>, ops: seq<Op>) {
    && |ss| == |ops| + 1 && LinkedInit(ss[0])
    && forall i :: 0 <= i < |ops| ==> WellFormed(ss[i].heap.trees) && LinkedStep(ss[i], ops[i], ss[i + 1])
  }

  lemma InitLinked(s: LinkedHeap)
    requires LinkedInit(s)
    ensures LinkedInv(s)
  {
    InitInv(s.heap);
    TopSizes();
    var trees, lists := s.heap.trees, seq(TOP, _ => []);
    forall r | 0 <= r < |trees|
      ensures Sound(s.links, lists, SLOTS * r, TOP, trees[r]) && Complete(lists, SLOTS * r, TOP, trees[r])
      ensures RightOnly(trees[r], TOP)
    {
      SoundLeaf(s.links, lists, SLOTS * r, TOP, true);
    }
    assert ListsSound(s.links, lists, trees) && ListsComplete(lists, trees);
  }

  lemma InvAgrees(s: LinkedHeap)
    requires LinkedInv(s)
    ensures WellFormed(s.heap.trees) && Agree(s.links, s.heap.trees)
  {
  }

  /** In every run from memory_init whose calls but the last are kalloc or clean kfree, lists
      and trees agree in every state before the last call, and after it exactly if it is no
      kfree that is not clean. */
  lemma {:induction false} CleanRunAgrees(ss: seq<LinkedHeap>, ops: seq<Op>)
    requires IsLinkedRun(ss, ops)
    requires forall i :: 0 <= i < |ops| - 1 ==> WellFormed(ss[i].heap.trees) && CleanStep(ss[i], ops[i])
    ensures forall i :: 0 <= i < |ops| ==> LinkedInv(ss[i])
    ensures forall i :: 0 <= i < |ops| ==> WellFormed(ss[i].heap.trees) && Agree(ss[i].links, ss[i].heap.trees)
    ensures var e := ss[|ops|];
            && WellFormed(e.heap.trees)
            && (Agree(e.links, e.heap.trees) <==> ops == [] || CleanStep(ss[|ops| - 1], ops[|ops| - 1]))
            && (LinkedInv(e) <==> Agree(e.links, e.heap.trees))
    decreases |ops|
  {
    hide LinkedStep;
    hide CleanStep;
    hide LinkedInv;
    hide LinkedInit;
    hide Agree;
    InitLinked(ss[0]);
    InvAgrees(ss[0]);
    if ops != [] {
      var m := |ops| - 1;
      assert forall i :: 0 <= i < m ==> ops[..m][i] == ops[i];
      CleanRunAgrees(ss[..m + 1], ops[..m]);
      forall i | 0 <= i < |ops|
        ensures LinkedInv(ss[i]) && WellFormed(ss[i].heap.trees) && Agree(ss[i].links, ss[i].heap.trees)
      {
        assert ss[..m + 1][i] == ss[i];
        InvAgrees(ss[i]);
      }
      LinkedStepIff(ss[m], ops[m], ss[m + 1]);
    }
  }

  /** In such a state, what kalloc hands out can be given back at once: that kfree is clean,
      for every size, and restores the trees. */
  lemma GiveBackIsClean(s: LinkedHeap, r: nat, x: nat, n: nat, s': LinkedHeap)
    requires LinkedInv(s) && LinkedStep(s, KAlloc(r, x, n), s')
    ensures WellFormed(s'.heap.trees) && CleanStep(s', KFree(|s.heap.live|))
    ensures var b := s'.heap.live[|s.heap.live|];
            s'.heap.trees[r := Free(s'.heap.trees[r], TOP, b.page, b.count)] == s.heap.trees
  {
    hide AllocLinks;
    hide MayTake;
    hide RightSlot;
    hide FreesCleanly;
    hide Free;
    hide Take;
    hide Agree;
    var t := s.heap.trees[r];
    assert FreeAt(t, TOP, At(t, TOP, x).level, x);
    GiveBackIff(t, x, n);
  }
}

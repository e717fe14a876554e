/** kalloc's split, and the tree part of kfree, with what each does to the pages. */
module BuddyOps {
  import opened BuddyTree

  // ---------------------------------------------------------------------------------
  // Allocating: the split loop keeps the first n pages of a block, gives back the rest
  // ---------------------------------------------------------------------------------

  function Carve(k: nat, n: nat): (t: Tree)
    requires 1 <= n <= Pages(k)
    ensures Fits(t, k) && Coalesced(t) && t != Leaf(true)
    decreases k
  {
    if n == Pages(k) then Leaf(false)
    else if n > Pages(k - 1) then Node(Leaf(false), Carve(k - 1, n - Pages(k - 1)))
    else Node(Carve(k - 1, n), Leaf(true))
  }

  /** Exactly the first n pages are taken, and no leaf straddles the border. */
  lemma {:induction false} CarvePages(k: nat, n: nat, p: nat)
    requires 1 <= n <= Pages(k) && p < Pages(k)
    ensures PageFree(Carve(k, n), k, p) <==> n <= p
    ensures p < n ==> LeafOf(Carve(k, n), k, p).end <= n
    decreases k
  {
    if n == Pages(k) {
    } else if n > Pages(k - 1) {
      if p >= Pages(k - 1) {
        CarvePages(k - 1, n - Pages(k - 1), p - Pages(k - 1));
      } else {
        assert LeafOf(Leaf(false), k - 1, p) == Extent(0, Pages(k - 1), false);
      }
    } else if p < Pages(k - 1) {
      CarvePages(k - 1, n, p);
    } else {
      assert LeafOf(Leaf(true), k - 1, p - Pages(k - 1)) == Extent(0, Pages(k - 1), true);
    }
  }

  /** The leaf of a page inside a block is the leaf found in the block's own subtree. */
  lemma {:induction false} LeavesInside(t: Tree, k: nat, x: nat, p: nat)
    requires Fits(t, k) && NodeAt(t, k, x) && p < Pages(At(t, k, x).level)
    ensures var s := At(t, k, x);
            LeafOf(t, k, s.page + p) == LeafOf(s.sub, s.level, p).Shifted(s.page)
    decreases k
  {
    if x == 0 {
    } else if x < Pages(k) {
      LeavesInside(t.left, k - 1, x - 1, p);
    } else {
      LeavesInside(t.right, k - 1, x - Pages(k), p);
    }
  }

  /** Replacing a subtree leaves the leaves of all pages outside its block alone. */
  lemma {:induction false} ReplaceOutside(t: Tree, k: nat, x: nat, u: Tree, p: nat)
    requires Fits(t, k) && NodeAt(t, k, x) && Fits(u, At(t, k, x).level) && p < Pages(k)
    requires !(At(t, k, x).page <= p < At(t, k, x).page + Pages(At(t, k, x).level))
    ensures LeafOf(Replace(t, k, x, u), k, p) == LeafOf(t, k, p)
    decreases k
  {
    if x == 0 {
    } else if x < Pages(k) {
      if p < Pages(k - 1) {
        ReplaceOutside(t.left, k - 1, x - 1, u, p);
      }
    } else {
      if p >= Pages(k - 1) {
        ReplaceOutside(t.right, k - 1, x - Pages(k), u, p - Pages(k - 1));
      }
    }
  }

  lemma ReplaceInside(t: Tree, k: nat, x: nat, u: Tree, p: nat)
    requires Fits(t, k) && NodeAt(t, k, x) && Fits(u, At(t, k, x).level)
    requires p < Pages(At(t, k, x).level)
    ensures var s := At(t, k, x);
            LeafOf(Replace(t, k, x, u), k, s.page + p) == LeafOf(u, s.level, p).Shifted(s.page)
  {
    ReplaceAt(t, k, x, u);
    LeavesInside(Replace(t, k, x, u), k, x, p);
  }

  /** The tree after n pages were taken from the free leaf in slot x. */
  function Take(t: Tree, k: nat, x: nat, n: nat): (v: Tree)
    requires Fits(t, k) && NodeAt(t, k, x) && 1 <= n <= Pages(At(t, k, x).level)
    ensures Fits(v, k)
  {
    Replace(t, k, x, Carve(At(t, k, x).level, n))
  }

  /** Taking n pages turns precisely the n pages handed out from free to allocated, tiles
      them with leaves of their own, and leaves the leaves of all other taken pages alone. */
  lemma TakePages(t: Tree, k: nat, x: nat, n: nat, p: nat)
    requires Fits(t, k) && NodeAt(t, k, x) && At(t, k, x).sub == Leaf(true)
    requires 1 <= n <= Pages(At(t, k, x).level) && p < Pages(k)
    ensures var a, v := At(t, k, x).page, Take(t, k, x, n);
            && (PageFree(v, k, p) <==> PageFree(t, k, p) && !(a <= p < a + n))
            && (a <= p < a + n ==>
                  PageFree(t, k, p) && a <= LeafOf(v, k, p).start && LeafOf(v, k, p).end <= a + n)
            && (!PageFree(t, k, p) ==> LeafOf(v, k, p) == LeafOf(t, k, p))
  {
    var a, j := At(t, k, x).page, At(t, k, x).level;
    if a <= p < a + Pages(j) {
      ReplaceInside(t, k, x, Carve(j, n), p - a);
      LeavesInside(t, k, x, p - a);
      CarvePages(j, n, p - a);
    } else {
      ReplaceOutside(t, k, x, Carve(j, n), p);
    }
  }

  lemma {:induction false} ReplaceCoalesced(t: Tree, k: nat, x: nat, u: Tree)
    requires Fits(t, k) && NodeAt(t, k, x) && Fits(u, At(t, k, x).level)
    requires Coalesced(t) && Coalesced(u) && u != Leaf(true)
    ensures Coalesced(Replace(t, k, x, u)) && Replace(t, k, x, u) != Leaf(true)
    decreases k
  {
    if x == 0 {
    } else if x < Pages(k) {
      ReplaceCoalesced(t.left, k - 1, x - 1, u);
    } else {
      ReplaceCoalesced(t.right, k - 1, x - Pages(k), u);
    }
  }

  // ---------------------------------------------------------------------------------
  // Freeing
  // ---------------------------------------------------------------------------------

  /** Two free halves become one free block. */
  function Join(l: Tree, r: Tree): Tree {
    if l == Leaf(true) && r == Leaf(true) then Leaf(true) else Node(l, r)
  }

  /** merge_bnode: free the leaves that start in the first `limit` pages. */
  function Merge(t: Tree, k: nat, limit: nat): (v: Tree)
    requires Fits(t, k)
    ensures Fits(v, k)
  {
    match t
    case Leaf(_) => Leaf(true)
    case Node(l, r) =>
      Join(Merge(l, k - 1, limit),
           if limit > Pages(k - 1) then Merge(r, k - 1, limit - Pages(k - 1)) else r)
  }

  /** merge_bnode_nolimit: join free halves bottom up in the whole tree. */
  function Coalesce(t: Tree): (v: Tree)
    ensures Coalesced(v)
  {
    match t
    case Leaf(_) => t
    case Node(l, r) => Join(Coalesce(l), Coalesce(r))
  }

  lemma CoalesceFits(t: Tree, k: nat)
    requires Fits(t, k)
    ensures Fits(Coalesce(t), k)
  {
  }

  /** Some node's block starts at page a. */
  predicate NodeStarts(t: Tree, k: nat, a: nat)
    requires Fits(t, k)
  {
    a == 0 || (t.Node? && if a < Pages(k - 1) then NodeStarts(t.left, k - 1, a)
                          else NodeStarts(t.right, k - 1, a - Pages(k - 1)))
  }

  /** Slot of the topmost node whose block starts at page a: kfree's root search. */
  function TopSlot(t: Tree, k: nat, a: nat): (x: nat)
    requires Fits(t, k) && NodeStarts(t, k, a)
    ensures NodeAt(t, k, x) && At(t, k, x).page == a && x < Slots(k)
  {
    if a == 0 then 0
    else if a < Pages(k - 1) then 1 + TopSlot(t.left, k - 1, a)
    else Pages(k) + TopSlot(t.right, k - 1, a - Pages(k - 1))
  }

  // One turn of the root search.
  lemma TopStep(t: Tree, k: nat, a: nat)
    requires Fits(t, k) && NodeStarts(t, k, a)
    ensures a == 0 ==> TopSlot(t, k, a) == 0
    ensures a > 0 ==>
              && t.Node? && k > 0 && Fits(t.left, k - 1) && Fits(t.right, k - 1)
              && (a < Pages(k - 1) ==> NodeStarts(t.left, k - 1, a) && TopSlot(t, k, a) == 1 + TopSlot(t.left, k - 1, a))
              && (a >= Pages(k - 1) ==>
                    && NodeStarts(t.right, k - 1, a - Pages(k - 1))
                    && TopSlot(t, k, a) == Pages(k) + TopSlot(t.right, k - 1, a - Pages(k - 1)))
  {
  }

  /** No node that starts at the page is larger than the one found. */
  lemma {:induction false} TopSlotIsTopmost(t: Tree, k: nat, a: nat, x: nat)
    requires Fits(t, k) && NodeStarts(t, k, a)
    requires NodeAt(t, k, x) && At(t, k, x).page == a
    ensures At(t, k, x).level <= At(t, k, TopSlot(t, k, a)).level
    decreases k
  {
    hide TopSlot;
    hide NodeStarts;
    hide At;
    hide NodeAt;
    RootSlot(t, k, t);
    TopStep(t, k, a);
    if a > 0 {
      SlotHalves(t, k, x);
      SlotHalves(t, k, TopSlot(t, k, a));
      if a < Pages(k - 1) {
        TopSlotIsTopmost(t.left, k - 1, a, x - 1);
      } else {
        TopSlotIsTopmost(t.right, k - 1, a - Pages(k - 1), x - Pages(k));
      }
    }
  }

  /** The tree part of kfree(a, n) up to the final coalescing. */
  function Release(t: Tree, k: nat, a: nat, n: nat): (v: Tree)
    requires Fits(t, k) && NodeStarts(t, k, a)
    ensures Fits(v, k)
  {
    var x := TopSlot(t, k, a);
    Replace(t, k, x, Merge(At(t, k, x).sub, At(t, k, x).level, n))
  }

  /** The tree part of kfree(a, n). */
  function Free(t: Tree, k: nat, a: nat, n: nat): (v: Tree)
    requires Fits(t, k) && NodeStarts(t, k, a)
    ensures Fits(v, k) && Coalesced(v)
  {
    CoalesceFits(Release(t, k, a, n), k);
    Coalesce(Release(t, k, a, n))
  }

  // The leaf of a page, seen from the half it is in.
  lemma LeafHalves(l: Tree, r: Tree, k: nat, p: nat)
    requires k > 0 && Fits(l, k - 1) && Fits(r, k - 1) && p < Pages(k)
    ensures p < Pages(k - 1) ==> LeafOf(Node(l, r), k, p) == LeafOf(l, k - 1, p)
    ensures p >= Pages(k - 1) ==>
              LeafOf(Node(l, r), k, p) == LeafOf(r, k - 1, p - Pages(k - 1)).Shifted(Pages(k - 1))
  {
  }

  // Joining two free halves changes no page's state and no taken page's leaf.
  lemma JoinPages(l: Tree, r: Tree, k: nat, p: nat)
    requires k > 0 && Fits(l, k - 1) && Fits(r, k - 1) && p < Pages(k)
    ensures PageFree(Join(l, r), k, p) == PageFree(Node(l, r), k, p)
    ensures !PageFree(Join(l, r), k, p) ==> LeafOf(Join(l, r), k, p) == LeafOf(Node(l, r), k, p)
  {
    LeafHalves(l, r, k, p);
  }

  lemma {:induction false} MergePages(t: Tree, k: nat, limit: nat, p: nat)
    requires Fits(t, k) && 1 <= limit && p < Pages(k)
    ensures PageFree(Merge(t, k, limit), k, p) <==> PageFree(t, k, p) || LeafOf(t, k, p).start < limit
    ensures !PageFree(Merge(t, k, limit), k, p) ==> LeafOf(Merge(t, k, limit), k, p) == LeafOf(t, k, p)
    decreases k
  {
    if t.Node? {
      var half := Pages(k - 1);
      var l, r := Merge(t.left, k - 1, limit), if limit > half then Merge(t.right, k - 1, limit - half) else t.right;
      assert Merge(t, k, limit) == Join(l, r);
      hide Merge;
      hide LeafOf;
      hide Join;
      JoinPages(l, r, k, p);
      LeafHalves(l, r, k, p);
      LeafHalves(t.left, t.right, k, p);
      if p < half {
        MergePages(t.left, k - 1, limit, p);
      } else if limit > half {
        MergePages(t.right, k - 1, limit - half, p - half);
      }
    }
  }

  /** Joining free halves changes no page's state and no taken page's leaf. */
  lemma {:induction false} CoalescePages(t: Tree, k: nat, p: nat)
    requires Fits(t, k) && p < Pages(k)
    ensures Fits(Coalesce(t), k)
    ensures PageFree(Coalesce(t), k, p) == PageFree(t, k, p)
    ensures !PageFree(t, k, p) ==> LeafOf(Coalesce(t), k, p) == LeafOf(t, k, p)
    decreases k
  {
    CoalesceFits(t, k);
    if t.Node? {
      var l, r := Coalesce(t.left), Coalesce(t.right);
      assert Coalesce(t) == Join(l, r);
      CoalesceFits(t.left, k - 1);
      CoalesceFits(t.right, k - 1);
      hide Coalesce;
      hide LeafOf;
      hide Join;
      JoinPages(l, r, k, p);
      LeafHalves(l, r, k, p);
      LeafHalves(t.left, t.right, k, p);
      if p < Pages(k - 1) {
        CoalescePages(t.left, k - 1, p);
      } else {
        CoalescePages(t.right, k - 1, p - Pages(k - 1));
      }
    }
  }

  /** kfree(a, n) frees exactly the leaves that start among the first n pages of the block
      found at a; every page it leaves taken keeps its leaf. */
  lemma FreePages(t: Tree, k: nat, a: nat, n: nat, p: nat)
    requires Fits(t, k) && NodeStarts(t, k, a) && 1 <= n && p < Pages(k)
    requires n <= Pages(At(t, k, TopSlot(t, k, a)).level)
    ensures PageFree(Free(t, k, a, n), k, p) <==>
            PageFree(t, k, p) || a <= LeafOf(t, k, p).start < a + n
    ensures !PageFree(Free(t, k, a, n), k, p) ==> LeafOf(Free(t, k, a, n), k, p) == LeafOf(t, k, p)
  {
    hide TopSlot;
    hide NodeStarts;
    hide At;
    hide NodeAt;
    hide Replace;
    hide Merge;
    hide Coalesce;
    hide LeafOf;
    var x := TopSlot(t, k, a);
    var j, s := At(t, k, x).level, At(t, k, x).sub;
    CoalescePages(Release(t, k, a, n), k, p);
    if a <= p < a + Pages(j) {
      ReplaceInside(t, k, x, Merge(s, j, n), p - a);
      LeavesInside(t, k, x, p - a);
      MergePages(s, j, n, p - a);
    } else {
      ReplaceOutside(t, k, x, Merge(s, j, n), p);
      LeavesOutside(t, k, x, p);
    }
  }

  // A leaf that holds a page outside a block starts outside it.
  lemma {:induction false} LeavesOutside(t: Tree, k: nat, x: nat, p: nat)
    requires Fits(t, k) && NodeAt(t, k, x) && p < Pages(k)
    requires !(At(t, k, x).page <= p < At(t, k, x).page + Pages(At(t, k, x).level))
    ensures !(At(t, k, x).page <= LeafOf(t, k, p).start < At(t, k, x).page + Pages(At(t, k, x).level))
    decreases k
  {
    LeafHoldsPage(t, k, p);
    if x == 0 {
    } else if x < Pages(k) {
      if p < Pages(k - 1) {
        LeavesOutside(t.left, k - 1, x - 1, p);
      }
    } else if p >= Pages(k - 1) {
      LeavesOutside(t.right, k - 1, x - Pages(k), p - Pages(k - 1));
    }
  }

  // ---------------------------------------------------------------------------------
  // kfree undoes kalloc
  // ---------------------------------------------------------------------------------

  lemma {:induction false} CoalescedIsFixed(t: Tree)
    requires Coalesced(t)
    ensures Coalesce(t) == t
  {
    if t.Node? {
      CoalescedIsFixed(t.left);
      CoalescedIsFixed(t.right);
    }
  }

  lemma {:induction false} MergeUndoesCarve(k: nat, n: nat)
    requires 1 <= n <= Pages(k)
    ensures Merge(Carve(k, n), k, n) == Leaf(true)
    decreases k
  {
    if n == Pages(k) {
    } else if n > Pages(k - 1) {
      MergeUndoesCarve(k - 1, n - Pages(k - 1));
    } else {
      MergeUndoesCarve(k - 1, n);
    }
  }

  lemma {:induction false} TakenNodeStarts(t: Tree, k: nat, x: nat)
    requires Fits(t, k) && NodeAt(t, k, x)
    ensures NodeStarts(t, k, At(t, k, x).page)
    decreases k
  {
    if x == 0 {
    } else if x < Pages(k) {
      TakenNodeStarts(t.left, k - 1, x - 1);
    } else {
      TakenNodeStarts(t.right, k - 1, x - Pages(k));
    }
  }

  // Merging from an ancestor that starts at the same page works as well: the ancestor's
  // other leaves start past the first n pages.
  lemma {:induction false} MergeUndoesTakeAtStart(t: Tree, k: nat, x: nat, n: nat)
    requires Fits(t, k) && NodeAt(t, k, x) && At(t, k, x).sub == Leaf(true)
    requires 1 <= n <= Pages(At(t, k, x).level) && At(t, k, x).page == 0
    ensures Coalesce(Merge(Take(t, k, x, n), k, n)) == Coalesce(t)
    decreases k
  {
    if x == 0 {
      MergeUndoesCarve(k, n);
    } else {
      assert x < Pages(k) && Pages(At(t, k, x).level) <= Pages(k - 1);
      MergeUndoesTakeAtStart(t.left, k - 1, x - 1, n);
    }
  }

  // Away from the start of the tree, the search and the merge stay in one half.
  lemma ReleaseInHalf(t: Tree, k: nat, a: nat, n: nat)
    requires Fits(t, k) && NodeStarts(t, k, a) && a != 0
    ensures Release(t, k, a, n) ==
            if a < Pages(k - 1) then Node(Release(t.left, k - 1, a, n), t.right)
            else Node(t.left, Release(t.right, k - 1, a - Pages(k - 1), n))
  {
    if a < Pages(k - 1) {
      var y := TopSlot(t.left, k - 1, a);
      assert TopSlot(t, k, a) == 1 + y && 1 + y < Pages(k);
      assert At(t, k, 1 + y) == At(t.left, k - 1, y);
    } else {
      var y := TopSlot(t.right, k - 1, a - Pages(k - 1));
      assert TopSlot(t, k, a) == Pages(k) + y;
      assert At(t, k, Pages(k) + y).level == At(t.right, k - 1, y).level;
    }
  }

  lemma ReleaseAtStart(t: Tree, k: nat, n: nat)
    requires Fits(t, k)
    ensures Release(t, k, 0, n) == Merge(t, k, n)
  {
  }

  lemma {:induction false} ReleaseUndoesTake(t: Tree, k: nat, x: nat, n: nat)
    requires Fits(t, k) && NodeAt(t, k, x) && At(t, k, x).sub == Leaf(true)
    requires 1 <= n <= Pages(At(t, k, x).level)
    ensures NodeStarts(Take(t, k, x, n), k, At(t, k, x).page)
    ensures Coalesce(Release(Take(t, k, x, n), k, At(t, k, x).page, n)) == Coalesce(t)
    decreases k
  {
    hide Release;
    var a, v := At(t, k, x).page, Take(t, k, x, n);
    ReplaceAt(t, k, x, Carve(At(t, k, x).level, n));
    TakenNodeStarts(v, k, x);
    if a == 0 {
      ReleaseAtStart(v, k, n);
      MergeUndoesTakeAtStart(t, k, x, n);
    } else {
      ReleaseInHalf(v, k, a, n);
      if x < Pages(k) {
        assert v == Node(Take(t.left, k - 1, x - 1, n), t.right);
        ReleaseUndoesTake(t.left, k - 1, x - 1, n);
      } else {
        assert v == Node(t.left, Take(t.right, k - 1, x - Pages(k), n));
        ReleaseUndoesTake(t.right, k - 1, x - Pages(k), n);
      }
    }
  }

  /** Giving back what was taken restores the block's tree: shape and statuses, for every
      size and for addresses shared by several ancestors. */
  lemma FreeUndoesTake(t: Tree, k: nat, x: nat, n: nat)
    requires Fits(t, k) && Coalesced(t)
    requires NodeAt(t, k, x) && At(t, k, x).sub == Leaf(true)
    requires 1 <= n <= Pages(At(t, k, x).level)
    ensures NodeStarts(Take(t, k, x, n), k, At(t, k, x).page)
    ensures Free(Take(t, k, x, n), k, At(t, k, x).page, n) == t
  {
    ReleaseUndoesTake(t, k, x, n);
    CoalescedIsFixed(t);
  }
}

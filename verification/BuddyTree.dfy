/** The buddy trees of the page allocator, and the tree part of allocating and freeing.

    A maximal block of Pages(5) = 32 pages is a binary tree: a leaf is a block that is
    free or allocated as a whole, a node is a block split into two halves.  A tree at
    level k covers Pages(k) pages.  Pages are numbered from the start of the tree. */
module BuddyTree {

  /** Number of pages of a block at level k: the `type` field of its header. */
  function Pages(k: nat): (s: nat)
    ensures 1 <= s
  {
    if k == 0 then 1 else 2 * Pages(k - 1)
  }

  lemma PagesMonotone(j: nat, k: nat)
    requires j <= k
    ensures Pages(j) <= Pages(k)
  {
  }

  datatype Tree = Leaf(free: bool) | Node(left: Tree, right: Tree)

  /** The tree can be laid out in a block of level k: no leaf is smaller than a page. */
  predicate Fits(t: Tree, k: nat) {
    t.Node? ==> k > 0 && Fits(t.left, k - 1) && Fits(t.right, k - 1)
  }

  // ---------------------------------------------------------------------------------
  // What a tree says about its pages
  // ---------------------------------------------------------------------------------

  /** A leaf as an interval of pages, from `start` up to but not including `end`. */
  datatype Extent = Extent(start: nat, end: nat, free: bool) {
    function Shifted(d: nat): Extent {
      Extent(start + d, end + d, free)
    }
  }

  /** The leaf that holds page p. */
  function LeafOf(t: Tree, k: nat, p: nat): (e: Extent)
    requires Fits(t, k) && p < Pages(k)
  {
    match t
    case Leaf(f) => Extent(0, Pages(k), f)
    case Node(l, r) =>
      if p < Pages(k - 1) then LeafOf(l, k - 1, p)
      else LeafOf(r, k - 1, p - Pages(k - 1)).Shifted(Pages(k - 1))
  }

  lemma {:induction false} LeafHoldsPage(t: Tree, k: nat, p: nat)
    requires Fits(t, k) && p < Pages(k)
    ensures LeafOf(t, k, p).start <= p < LeafOf(t, k, p).end <= Pages(k)
    decreases k
  {
    if t.Node? {
      if p < Pages(k - 1) {
        LeafHoldsPage(t.left, k - 1, p);
      } else {
        LeafHoldsPage(t.right, k - 1, p - Pages(k - 1));
      }
    }
  }

  predicate PageFree(t: Tree, k: nat, p: nat)
    requires Fits(t, k) && p < Pages(k)
  {
    LeafOf(t, k, p).free
  }

  /** No node has two free halves. */
  predicate Coalesced(t: Tree) {
    t.Node? ==> t != Node(Leaf(true), Leaf(true)) && Coalesced(t.left) && Coalesced(t.right)
  }

  lemma {:induction false} AllFreeIsOneLeaf(t: Tree, k: nat)
    requires Fits(t, k) && Coalesced(t)
    requires forall p: nat :: p < Pages(k) ==> PageFree(t, k, p)
    ensures t == Leaf(true)
  {
    if t.Leaf? {
      assert PageFree(t, k, 0);
    } else {
      forall p: nat {:trigger PageFree(t.left, k - 1, p)} | p < Pages(k - 1)
        ensures PageFree(t.left, k - 1, p)
      {
        assert PageFree(t, k, p);
      }
      AllFreeIsOneLeaf(t.left, k - 1);
      forall p: nat {:trigger PageFree(t.right, k - 1, p)} | p < Pages(k - 1)
        ensures PageFree(t.right, k - 1, p)
      {
        assert PageFree(t, k, Pages(k - 1) + p);
      }
      AllFreeIsOneLeaf(t.right, k - 1);
    }
  }

  // ---------------------------------------------------------------------------------
  // Header slots: preorder positions, counted from the slot of the tree's root
  // ---------------------------------------------------------------------------------

  /** Number of header slots a block of level k owns. */
  function Slots(k: nat): (n: nat)
  {
    2 * Pages(k) - 1
  }

  /** Some node of the tree sits in slot x. */
  predicate NodeAt(t: Tree, k: nat, x: nat)
    requires Fits(t, k)
  {
    x == 0 || (t.Node? && if x < Pages(k) then NodeAt(t.left, k - 1, x - 1)
                          else NodeAt(t.right, k - 1, x - Pages(k)))
  }

  /** A node of a tree: the level and first page of its block, and the subtree below it. */
  datatype Spot = Spot(level: nat, page: nat, sub: Tree)

  /** The node in slot x. */
  function At(t: Tree, k: nat, x: nat): (s: Spot)
    requires Fits(t, k) && NodeAt(t, k, x)
    ensures s.level <= k && Fits(s.sub, s.level) && s.page + Pages(s.level) <= Pages(k)
  {
    if x == 0 then Spot(k, 0, t)
    else if x < Pages(k) then At(t.left, k - 1, x - 1)
    else var s := At(t.right, k - 1, x - Pages(k)); s.(page := Pages(k - 1) + s.page)
  }

  /** A free leaf of level j sits in slot x. */
  predicate FreeAt(t: Tree, k: nat, j: nat, x: nat)
    requires Fits(t, k)
  {
    NodeAt(t, k, x) && At(t, k, x).level == j && At(t, k, x).sub == Leaf(true)
  }

  function Replace(t: Tree, k: nat, x: nat, u: Tree): (v: Tree)
    requires Fits(t, k) && NodeAt(t, k, x) && Fits(u, At(t, k, x).level)
    ensures Fits(v, k)
  {
    if x == 0 then u
    else if x < Pages(k) then t.(left := Replace(t.left, k - 1, x - 1, u))
    else t.(right := Replace(t.right, k - 1, x - Pages(k), u))
  }


  // The slot of the block itself.
  lemma RootSlot(t: Tree, k: nat, u: Tree)
    requires Fits(t, k) && Fits(u, k)
    ensures NodeAt(t, k, 0) && At(t, k, 0) == Spot(k, 0, t) && Replace(t, k, 0, u) == u
  {
  }

  // A slot below a split node, seen from the half it is in.
  lemma SlotHalves(t: Tree, k: nat, x: nat)
    requires Fits(t, k) && NodeAt(t, k, x) && x > 0
    ensures t.Node? && k > 0
    ensures x < Pages(k) ==> NodeAt(t.left, k - 1, x - 1) && At(t, k, x) == At(t.left, k - 1, x - 1)
    ensures x >= Pages(k) ==>
              && NodeAt(t.right, k - 1, x - Pages(k))
              && var s := At(t.right, k - 1, x - Pages(k)); At(t, k, x) == s.(page := Pages(k - 1) + s.page)
  {
  }

  lemma NodeHalves(t: Tree, k: nat, x: nat)
    requires Fits(t, k) && t.Node? && x > 0
    ensures x < Pages(k) ==> (NodeAt(t, k, x) <==> NodeAt(t.left, k - 1, x - 1))
    ensures x < Pages(k) && NodeAt(t, k, x) ==> At(t, k, x).sub == At(t.left, k - 1, x - 1).sub
    ensures x >= Pages(k) ==> (NodeAt(t, k, x) <==> NodeAt(t.right, k - 1, x - Pages(k)))
    ensures x >= Pages(k) && NodeAt(t, k, x) ==> At(t, k, x).sub == At(t.right, k - 1, x - Pages(k)).sub
  {
  }

  lemma ReplaceHalves(t: Tree, k: nat, x: nat, u: Tree)
    requires Fits(t, k) && NodeAt(t, k, x) && Fits(u, At(t, k, x).level) && x > 0
    ensures t.Node? && k > 0 && Fits(t.left, k - 1) && Fits(t.right, k - 1) && Pages(k) == 2 * Pages(k - 1)
    ensures x < Pages(k) ==> NodeAt(t.left, k - 1, x - 1) && At(t, k, x) == At(t.left, k - 1, x - 1)
                             && Replace(t, k, x, u) == Node(Replace(t.left, k - 1, x - 1, u), t.right)
    ensures x >= Pages(k) ==> NodeAt(t.right, k - 1, x - Pages(k))
                              && At(t, k, x).level == At(t.right, k - 1, x - Pages(k)).level
                              && Replace(t, k, x, u) == Node(t.left, Replace(t.right, k - 1, x - Pages(k), u))
  {
  }

  lemma {:induction false} ReplaceAt(t: Tree, k: nat, x: nat, u: Tree)
    requires Fits(t, k) && NodeAt(t, k, x) && Fits(u, At(t, k, x).level)
    ensures NodeAt(Replace(t, k, x, u), k, x)
    ensures At(Replace(t, k, x, u), k, x) == At(t, k, x).(sub := u)
    decreases k
  {
    if x == 0 {
    } else if x < Pages(k) {
      ReplaceAt(t.left, k - 1, x - 1, u);
    } else {
      ReplaceAt(t.right, k - 1, x - Pages(k), u);
    }
  }

  /** The slot reached from a block's own slot by going left (false) or right (true)
      along the path: the left child is the next slot, the right child is Pages(k) slots on. */
  function SlotOf(k: nat, path: seq<bool>): (x: nat)
    requires |path| <= k
    ensures x < Slots(k)
  {
    if path == [] then 0
    else if path[0] then Pages(k) + SlotOf(k - 1, path[1..])
    else 1 + SlotOf(k - 1, path[1..])
  }

  /** Nodes reached along different paths never share a header slot. */
  lemma {:induction false} SlotsNeverCollide(k: nat, p: seq<bool>, q: seq<bool>)
    requires |p| <= k && |q| <= k && SlotOf(k, p) == SlotOf(k, q)
    ensures p == q
    decreases k
  {
    if p != [] && q != [] {
      SlotsNeverCollide(k - 1, p[1..], q[1..]);
      assert p == [p[0]] + p[1..];
    }
  }

  /** Every slot of a block is the slot of exactly one path: 63 slots suffice for 32 pages,
      and none is wasted. */
  lemma {:induction false} EverySlotHasAPath(k: nat, x: nat) returns (path: seq<bool>)
    requires x < Slots(k)
    ensures |path| <= k && SlotOf(k, path) == x
    decreases k
  {
    if x == 0 {
      path := [];
    } else if x < Pages(k) {
      var rest := EverySlotHasAPath(k - 1, x - 1);
      path := [false] + rest;
    } else {
      var rest := EverySlotHasAPath(k - 1, x - Pages(k));
      path := [true] + rest;
    }
  }

  /** A node's slots lie inside the slots of the tree it belongs to. */
  lemma {:induction false} SlotsInside(t: Tree, k: nat, x: nat)
    requires Fits(t, k) && NodeAt(t, k, x)
    ensures x + Slots(At(t, k, x).level) <= Slots(k)
    decreases k
  {
    if x == 0 {
    } else if x < Pages(k) {
      SlotsInside(t.left, k - 1, x - 1);
    } else {
      SlotsInside(t.right, k - 1, x - Pages(k));
    }
  }
}

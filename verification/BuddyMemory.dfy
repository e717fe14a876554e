/** The header array of the page allocator and the tree it holds.

    The source keeps a node's block (type, status, address, leaves) and its list links in
    one record; here they are kept in two arrays with the same indices, BuddyNode in this
    module and Link in BuddyLists. */
module BuddyMemory {
  import opened BuddyTree
  import opened BuddyOps

  const NULL: int := -1

  datatype Status = ALLOCATED | UNALLOCATED | NONODE

  /** One header slot.  `kind` is the block size in pages, `page` the block's first page. */
  datatype BuddyNode = BuddyNode(kind: nat, status: Status, page: nat, leafLeft: int, leafRight: int)

  /** Slot s holds the root of the tree t of a block of level k at page a. */
  predicate Cell(n: BuddyNode, s: nat, k: nat, a: nat, t: Tree) {
    n == if t.Leaf? then BuddyNode(Pages(k), if t.free then UNALLOCATED else ALLOCATED, a, NULL, NULL)
         else BuddyNode(Pages(k), ALLOCATED, a, s + 1, s + Pages(k))
  }

  /** Slot s and the slots after it hold the tree t of a block of level k at page a. */
  predicate Rep(h: seq<BuddyNode>, s: nat, k: nat, a: nat, t: Tree)
    decreases k
  {
    && s + Slots(k) <= |h| && Cell(h[s], s, k, a, t)
    && (t.Node? ==>
          && k > 0
          && Rep(h, s + 1, k - 1, a, t.left)
          && Rep(h, s + Pages(k), k - 1, a + Pages(k - 1), t.right))
  }

  /** Only slots from lo up to hi differ. */
  predicate SameOutside(h: seq<BuddyNode>, h': seq<BuddyNode>, lo: int, hi: int) {
    |h'| == |h| && forall y :: 0 <= y < |h| && !(lo <= y < hi) ==> h'[y] == h[y]
  }

  lemma {:induction false} RepFits(h: seq<BuddyNode>, s: nat, k: nat, a: nat, t: Tree)
    requires Rep(h, s, k, a, t)
    ensures Fits(t, k)
    decreases k
  {
    if t.Node? {
      RepFits(h, s + 1, k - 1, a, t.left);
      RepFits(h, s + Pages(k), k - 1, a + Pages(k - 1), t.right);
    }
  }

  lemma {:induction false} RepFrame(h: seq<BuddyNode>, h': seq<BuddyNode>, s: nat, k: nat, a: nat, t: Tree)
    requires Rep(h, s, k, a, t) && |h'| == |h|
    requires forall y :: s <= y < s + Slots(k) ==> h'[y] == h[y]
    ensures Rep(h', s, k, a, t)
    decreases k
  {
    if t.Node? {
      RepFrame(h, h', s + 1, k - 1, a, t.left);
      RepFrame(h, h', s + Pages(k), k - 1, a + Pages(k - 1), t.right);
    }
  }

  // The node in slot s, and its halves.
  lemma RepParts(h: seq<BuddyNode>, s: nat, k: nat, a: nat, t: Tree)
    requires Rep(h, s, k, a, t)
    ensures s < s + Slots(k) <= |h| && Cell(h[s], s, k, a, t)
    ensures t.Node? ==> k > 0 && Pages(k) == 2 * Pages(k - 1)
                        && Rep(h, s + 1, k - 1, a, t.left) && Rep(h, s + Pages(k), k - 1, a + Pages(k - 1), t.right)
  {
  }

  lemma RepNode(h: seq<BuddyNode>, s: nat, k: nat, a: nat, left: Tree, right: Tree)
    requires 0 < k && s + Slots(k) <= |h| && h[s] == BuddyNode(Pages(k), ALLOCATED, a, s + 1, s + Pages(k))
    requires Rep(h, s + 1, k - 1, a, left) && Rep(h, s + Pages(k), k - 1, a + Pages(k - 1), right)
    ensures Rep(h, s, k, a, Node(left, right))
  {
  }

  lemma {:induction false} RepAt(h: seq<BuddyNode>, s: nat, k: nat, a: nat, t: Tree, x: nat)
    requires Rep(h, s, k, a, t) && Fits(t, k) && NodeAt(t, k, x)
    ensures Rep(h, s + x, At(t, k, x).level, a + At(t, k, x).page, At(t, k, x).sub)
    decreases k
  {
    hide Rep;
    hide At;
    hide NodeAt;
    if x == 0 {
      RootSlot(t, k, t);
    } else {
      SlotHalves(t, k, x);
      RepParts(h, s, k, a, t);
      if x < Pages(k) {
        RepAt(h, s + 1, k - 1, a, t.left, x - 1);
        assert (s + 1) + (x - 1) == s + x;
      } else {
        RepAt(h, s + Pages(k), k - 1, a + Pages(k - 1), t.right, x - Pages(k));
        assert (s + Pages(k)) + (x - Pages(k)) == s + x;
      }
    }
  }

  lemma OutsideAt(h: seq<BuddyNode>, h': seq<BuddyNode>, lo: int, hi: int, y: nat)
    requires SameOutside(h, h', lo, hi) && y < |h| && !(lo <= y < hi)
    ensures |h'| == |h| && h'[y] == h[y]
  {
  }

  lemma RepOutside(h: seq<BuddyNode>, h': seq<BuddyNode>, s: nat, k: nat, a: nat, t: Tree, lo: int, hi: int)
    requires Rep(h, s, k, a, t) && SameOutside(h, h', lo, hi) && (s + Slots(k) <= lo || hi <= s)
    ensures Rep(h', s, k, a, t)
  {
    hide Rep;
    RepParts(h, s, k, a, t);
    RepFrame(h, h', s, k, a, t);
  }

  lemma OutsideWider(h: seq<BuddyNode>, h': seq<BuddyNode>, lo: int, hi: int, lo': int, hi': int)
    requires SameOutside(h, h', lo, hi) && lo' <= lo && hi <= hi'
    ensures SameOutside(h, h', lo', hi')
  {
  }

  lemma OutsideTwice(h: seq<BuddyNode>, h1: seq<BuddyNode>, h2: seq<BuddyNode>, lo: int, hi: int)
    requires SameOutside(h, h1, lo, hi) && SameOutside(h1, h2, lo, hi)
    ensures SameOutside(h, h2, lo, hi)
  {
  }

  /** Writing another tree into the slots of a subtree writes the replaced tree. */
  lemma {:induction false} RepReplace(h: seq<BuddyNode>, h': seq<BuddyNode>,
                                      s: nat, k: nat, a: nat, t: Tree, x: nat, u: Tree)
    requires Rep(h, s, k, a, t) && Fits(t, k) && NodeAt(t, k, x) && Fits(u, At(t, k, x).level)
    requires SameOutside(h, h', s + x, s + x + Slots(At(t, k, x).level))
    requires Rep(h', s + x, At(t, k, x).level, a + At(t, k, x).page, u)
    ensures Rep(h', s, k, a, Replace(t, k, x, u))
    decreases k
  {
    hide Rep;
    hide SameOutside;
    hide At;
    hide NodeAt;
    hide Replace;
    if x == 0 {
      RootSlot(t, k, t);
      RootSlot(t, k, u);
    } else {
      SlotHalves(t, k, x);
      ReplaceHalves(t, k, x, u);
      RepParts(h, s, k, a, t);
      var j := At(t, k, x).level;
      OutsideAt(h, h', s + x, s + x + Slots(j), s);
      var l, r := s + 1, s + Pages(k);
      if x < Pages(k) {
        assert l + (x - 1) == s + x;
        SlotsInside(t.left, k - 1, x - 1);
        RepOutside(h, h', r, k - 1, a + Pages(k - 1), t.right, s + x, s + x + Slots(j));
        RepReplace(h, h', l, k - 1, a, t.left, x - 1, u);
        RepNode(h', s, k, a, Replace(t.left, k - 1, x - 1, u), t.right);
      } else {
        assert r + (x - Pages(k)) == s + x;
        RepOutside(h, h', l, k - 1, a, t.left, s + x, s + x + Slots(j));
        RepReplace(h, h', r, k - 1, a + Pages(k - 1), t.right, x - Pages(k), u);
        RepNode(h', s, k, a, t.left, Replace(t.right, k - 1, x - Pages(k), u));
      }
    }
  }

  // ---------------------------------------------------------------------------------
  // kalloc's split loop
  // ---------------------------------------------------------------------------------

  /** One turn of the loop: node s, of kind 2 * half, gets an allocated left child and a
      right child with the given status. */
  function SplitNode(h: seq<BuddyNode>, s: nat, half: nat, right: Status): (h': seq<BuddyNode>)
    requires 1 <= half && s + 2 * half < |h|
    ensures |h'| == |h|
  {
    h[s := h[s].(leafLeft := s + 1, leafRight := s + 2 * half)]
     [s + 1 := BuddyNode(half, ALLOCATED, h[s].page, NULL, NULL)]
     [s + 2 * half := BuddyNode(half, right, h[s].page + half, NULL, NULL)]
  }

  /** The header after the loop ran on the allocated leaf in slot s, of level k. */
  function SplitHeader(h: seq<BuddyNode>, s: nat, k: nat, n: nat): (h': seq<BuddyNode>)
    requires 1 <= n <= Pages(k) && s + Slots(k) <= |h|
    decreases k
  {
    if n == Pages(k) then h
    else
      var half := Pages(k - 1);
      if n > half then SplitHeader(SplitNode(h, s, half, ALLOCATED), s + Pages(k), k - 1, n - half)
      else SplitHeader(SplitNode(h, s, half, UNALLOCATED), s + 1, k - 1, n)
  }

  lemma SplitNodeRep(h: seq<BuddyNode>, s: nat, k: nat, a: nat, free: bool)
    requires Rep(h, s, k, a, Leaf(false)) && k > 0
    ensures var h' := SplitNode(h, s, Pages(k - 1), if free then UNALLOCATED else ALLOCATED);
            && Rep(h', s, k, a, Node(Leaf(false), Leaf(free)))
            && SameOutside(h, h', s, s + Slots(k))
  {
  }

  /** The loop turns an allocated leaf into the carved tree and stays inside its slots. */
  lemma {:induction false} SplitRep(h: seq<BuddyNode>, s: nat, k: nat, a: nat, n: nat)
    requires Rep(h, s, k, a, Leaf(false)) && 1 <= n <= Pages(k)
    ensures Rep(SplitHeader(h, s, k, n), s, k, a, Carve(k, n))
    ensures SameOutside(h, SplitHeader(h, s, k, n), s, s + Slots(k))
    decreases k
  {
    hide Rep;
    hide SameOutside;
    hide SplitNode;
    hide SplitHeader;
    hide Carve;
    RepParts(h, s, k, a, Leaf(false));
    SplitStops(h, s, k, n);
    if n != Pages(k) {
      SplitGoesOn(h, s, k, a, n);
      var half := Pages(k - 1);
      var l, r := s + 1, s + Pages(k);
      var h' := SplitHeader(h, s, k, n);
      SplitNodeRep(h, s, k, a, n <= half);
      if n > half {
        var h1 := SplitNode(h, s, half, ALLOCATED);
        RepParts(h1, s, k, a, Node(Leaf(false), Leaf(false)));
        SplitRep(h1, r, k - 1, a + half, n - half);
        RepOutside(h1, h', l, k - 1, a, Leaf(false), r, r + Slots(k - 1));
        OutsideAt(h1, h', r, r + Slots(k - 1), s);
        RepNode(h', s, k, a, Leaf(false), Carve(k - 1, n - half));
        OutsideWider(h1, h', r, r + Slots(k - 1), s, s + Slots(k));
        OutsideTwice(h, h1, h', s, s + Slots(k));
      } else {
        var h1 := SplitNode(h, s, half, UNALLOCATED);
        RepParts(h1, s, k, a, Node(Leaf(false), Leaf(true)));
        SplitRep(h1, l, k - 1, a, n);
        RepOutside(h1, h', r, k - 1, a + half, Leaf(true), l, l + Slots(k - 1));
        OutsideAt(h1, h', l, l + Slots(k - 1), s);
        RepNode(h', s, k, a, Carve(k - 1, n), Leaf(true));
        OutsideWider(h1, h', l, l + Slots(k - 1), s, s + Slots(k));
        OutsideTwice(h, h1, h', s, s + Slots(k));
      }
    }
  }

  // What the loop does next, and the tree it is carving.
  lemma SplitGoesOn(h: seq<BuddyNode>, s: nat, k: nat, a: nat, n: nat)
    requires 1 <= n < Pages(k) && s + Slots(k) <= |h|
    ensures k > 0 && Pages(k) == 2 * Pages(k - 1)
    ensures var half := Pages(k - 1);
            && (n > half ==>
                  && SplitHeader(h, s, k, n) == SplitHeader(SplitNode(h, s, half, ALLOCATED), s + Pages(k), k - 1, n - half)
                  && Carve(k, n) == Node(Leaf(false), Carve(k - 1, n - half)))
            && (n <= half ==>
                  && SplitHeader(h, s, k, n) == SplitHeader(SplitNode(h, s, half, UNALLOCATED), s + 1, k - 1, n)
                  && Carve(k, n) == Node(Carve(k - 1, n), Leaf(true)))
  {
  }

  lemma SplitStops(h: seq<BuddyNode>, s: nat, k: nat, n: nat)
    requires 1 <= n <= Pages(k) && s + Slots(k) <= |h|
    ensures n == Pages(k) ==> SplitHeader(h, s, k, n) == h && Carve(k, n) == Leaf(false)
    ensures SameOutside(h, h, s, s + Slots(k))
  {
  }
}

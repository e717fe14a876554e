/** The whole heap: maximal blocks side by side, and what one kalloc does to header, lists
    and trees together. */
module BuddyHeap {
  import opened BuddyTree
  import opened BuddyOps
  import opened BuddyRuns
  import opened BuddyMemory
  import opened BuddyLists
  import opened BuddyAgreement

  /** Header slots and pages of a maximal block. */
  const SLOTS: nat := 63
  const PAGES: nat := 32

  lemma TopSizes()
    ensures Pages(TOP) == PAGES && Slots(TOP) == SLOTS
  {
    assert Pages(1) == 2 && Pages(2) == 4 && Pages(3) == 8 && Pages(4) == 16;
  }

  /** The i-th maximal block has its slots from SLOTS * i and its pages from base + PAGES * i. */
  ghost predicate HeaderHolds(h: seq<BuddyNode>, trees: seq<Tree>, base: nat) {
    |h| == SLOTS * |trees| &&
    forall i :: 0 <= i < |trees| ==> Rep(h, SLOTS * i, TOP, base + PAGES * i, trees[i])
  }

  /** The list of maximal blocks: all of them, in order, whatever their status. */
  function RootLink(i: nat, n: nat): Link {
    Link(if i + 1 < n then SLOTS * (i + 1) else NULL, if i > 0 then SLOTS * (i - 1) else NULL)
  }

  ghost predicate RootsLinked(m: Lists, n: nat) {
    && |m.heads| == TOP + 1 && m.heads[TOP] == 0 && |m.links| == SLOTS * n
    && forall i :: 0 <= i < n ==> m.links[SLOTS * i] == RootLink(i, n)
  }

  /** Every list below the largest level is an acyclic doubly linked list of free leaves of
      its level; every node off the lists has null links. */
  ghost predicate ListsSound(m: Lists, lists: seq<seq<nat>>, trees: seq<Tree>)
    requires WellFormed(trees)
  {
    && AllLists(m, lists) && RootsLinked(m, |trees|)
    && forall i :: 0 <= i < |trees| ==> Sound(m, lists, SLOTS * i, TOP, trees[i])
  }

  /** Every free leaf below the largest level is on the list of its level. */
  ghost predicate ListsComplete(lists: seq<seq<nat>>, trees: seq<Tree>)
    requires WellFormed(trees)
  {
    forall i :: 0 <= i < |trees| ==> Complete(lists, SLOTS * i, TOP, trees[i])
  }

  // ---------------------------------------------------------------------------------
  // Changes inside one maximal block
  // ---------------------------------------------------------------------------------

  lemma BlockHeaderReplaced(h: seq<BuddyNode>, h': seq<BuddyNode>, trees: seq<Tree>, base: nat, r: nat, t: Tree)
    requires HeaderHolds(h, trees, base) && r < |trees|
    requires SameOutside(h, h', SLOTS * r, SLOTS * r + SLOTS)
    requires Rep(h', SLOTS * r, TOP, base + PAGES * r, t)
    ensures HeaderHolds(h', trees[r := t], base)
  {
    TopSizes();
    hide Rep;
    hide Pages;
    forall i | 0 <= i < |trees|
      ensures Rep(h', SLOTS * i, TOP, base + PAGES * i, trees[r := t][i])
    {
      if i != r {
        RepFrame(h, h', SLOTS * i, TOP, base + PAGES * i, trees[i]);
      }
    }
  }

  lemma BlockListsReplaced(m: Lists, lists: seq<seq<nat>>, m': Lists, lists': seq<seq<nat>>,
                      trees: seq<Tree>, r: nat, t: Tree)
    requires WellFormed(trees) && ListsSound(m, lists, trees) && r < |trees| && Fits(t, TOP)
    requires AllLists(m', lists') && ChangesWithin(m, lists, m', lists', SLOTS * r, TOP)
    requires Sound(m', lists', SLOTS * r, TOP, t) && m'.heads[TOP] == m.heads[TOP]
    requires m'.links[SLOTS * r] == m.links[SLOTS * r]
    ensures ListsSound(m', lists', trees[r := t])
  {
    TopSizes();
    forall i | 0 <= i < |trees|
      ensures Sound(m', lists', SLOTS * i, TOP, trees[r := t][i])
      ensures m'.links[SLOTS * i] == RootLink(i, |trees|)
    {
      if i != r {
        SoundElsewhere(m, lists, m', lists', SLOTS * r, TOP, SLOTS * i, TOP, trees[i]);
        RootUnlisted(m, lists, trees, i);
        assert !Within(SLOTS * r, TOP, SLOTS * i);
      }
    }
  }

  lemma RootUnlisted(m: Lists, lists: seq<seq<nat>>, trees: seq<Tree>, i: nat)
    requires WellFormed(trees) && ListsSound(m, lists, trees) && i < |trees|
    ensures !Listed(lists, SLOTS * i)
  {
    var s := SLOTS * i;
    assert Within(s, TOP, s) && Sound(m, lists, s, TOP, trees[i]);
    forall j: nat | On(lists, j, s)
      ensures j == TOP && j < |lists|
    {
      assert FreeAt(trees[i], TOP, j, s - s);
    }
  }

  lemma BlockCompleteReplaced(m: Lists, lists: seq<seq<nat>>, m': Lists, lists': seq<seq<nat>>,
                         trees: seq<Tree>, r: nat, t: Tree)
    requires WellFormed(trees) && ListsComplete(lists, trees) && r < |trees| && Fits(t, TOP)
    requires ChangesWithin(m, lists, m', lists', SLOTS * r, TOP)
    requires Complete(lists', SLOTS * r, TOP, t)
    ensures ListsComplete(lists', trees[r := t])
  {
    TopSizes();
    forall i | 0 <= i < |trees| && i != r
      ensures Complete(lists', SLOTS * i, TOP, trees[i])
    {
      forall j: nat, x: nat | j < TOP && FreeAt(trees[i], TOP, j, x)
        ensures On(lists', j, SLOTS * i + x)
      {
        FreeAtInside(trees[i], TOP, j, x);
        assert !Within(SLOTS * r, TOP, SLOTS * i + x);
      }
    }
  }

  // ---------------------------------------------------------------------------------
  // kalloc on header and lists
  // ---------------------------------------------------------------------------------

  /** The links after kalloc took n pages from the free leaf in slot s, of level k. */
  function AllocLinks(m: Lists, s: nat, k: nat, n: nat): (m': Lists)
    requires 1 <= n <= Pages(k) && s + Slots(k) <= |m.links| && k <= TOP && |m.heads| == TOP + 1
    ensures m.SameShape(m')
  {
    SplitLinks(if k != TOP then Pop(m, k, s) else m, s, k, n)
  }

  /** The header after kalloc took n pages from the free leaf in slot s, of level k. */
  function AllocHeader(h: seq<BuddyNode>, s: nat, k: nat, n: nat): seq<BuddyNode>
    requires 1 <= n <= Pages(k) && s + Slots(k) <= |h|
  {
    SplitHeader(h[s := h[s].(status := ALLOCATED)], s, k, n)
  }

  lemma MarkAllocated(h: seq<BuddyNode>, s: nat, k: nat, a: nat)
    requires Rep(h, s, k, a, Leaf(true))
    ensures var h' := h[s := h[s].(status := ALLOCATED)];
            Rep(h', s, k, a, Leaf(false)) && SameOutside(h, h', s, s + Slots(k))
  {
  }

  lemma AllocRep(h: seq<BuddyNode>, s0: nat, a: nat, t: Tree, x: nat, n: nat)
    requires Rep(h, s0, TOP, a, t) && Fits(t, TOP) && NodeAt(t, TOP, x) && At(t, TOP, x).sub == Leaf(true)
    requires 1 <= n <= Pages(At(t, TOP, x).level)
    requires s0 + x + Slots(At(t, TOP, x).level) <= s0 + Slots(TOP) <= |h|
    ensures var h' := AllocHeader(h, s0 + x, At(t, TOP, x).level, n);
            Rep(h', s0, TOP, a, Take(t, TOP, x, n)) && SameOutside(h, h', s0, s0 + Slots(TOP))
  {
    hide Rep;
    hide SameOutside;
    hide At;
    hide NodeAt;
    hide Replace;
    hide Carve;
    hide SplitHeader;
    var spot, s := At(t, TOP, x), s0 + x;
    RepAt(h, s0, TOP, a, t, x);
    MarkAllocated(h, s, spot.level, a + spot.page);
    var h1 := h[s := h[s].(status := ALLOCATED)];
    SplitRep(h1, s, spot.level, a + spot.page, n);
    var h2 := SplitHeader(h1, s, spot.level, n);
    OutsideTwice(h, h1, h2, s, s + Slots(spot.level));
    OutsideWider(h, h2, s, s + Slots(spot.level), s0, s0 + Slots(TOP));
    RepReplace(h, h2, s0, TOP, a, t, x, Carve(spot.level, n));
  }

  /** The header then holds the tree with the pages taken. */
  lemma AllocHeaderHolds(h: seq<BuddyNode>, trees: seq<Tree>, base: nat, r: nat, x: nat, n: nat)
    requires HeaderHolds(h, trees, base) && WellFormed(trees) && r < |trees|
    requires NodeAt(trees[r], TOP, x) && At(trees[r], TOP, x).sub == Leaf(true)
    requires 1 <= n <= Pages(At(trees[r], TOP, x).level)
    ensures SLOTS * r + x + Slots(At(trees[r], TOP, x).level) <= |h|
    ensures HeaderHolds(AllocHeader(h, SLOTS * r + x, At(trees[r], TOP, x).level, n),
                        trees[r := Take(trees[r], TOP, x, n)], base)
  {
    TopSizes();
    var t, k := trees[r], At(trees[r], TOP, x).level;
    SlotsInside(t, TOP, x);
    SlotsInHeap(|trees|, r, x, k);
    AllocRep(h, SLOTS * r, base + PAGES * r, t, x, n);
    hide AllocHeader;
    BlockHeaderReplaced(h, AllocHeader(h, SLOTS * r + x, k, n), trees, base, r, Take(t, TOP, x, n));
  }

  /** kalloc takes the first node of a list, or any maximal block. */
  ghost predicate MayTake(m: Lists, trees: seq<Tree>, r: nat, x: nat)
    requires WellFormed(trees)
  {
    && r < |trees| && NodeAt(trees[r], TOP, x) && At(trees[r], TOP, x).sub == Leaf(true)
    && |m.heads| == TOP + 1 && |m.links| == SLOTS * |trees|
    && var k := At(trees[r], TOP, x).level;
    k < TOP ==> m.heads[k] == SLOTS * r + x
  }

  /** kalloc keeps the lists sound, and complete if they were. */
  lemma AllocLinksSound(m: Lists, lists: seq<seq<nat>>, trees: seq<Tree>, r: nat, x: nat, n: nat)
    returns (lists': seq<seq<nat>>)
    requires WellFormed(trees) && ListsSound(m, lists, trees) && MayTake(m, trees, r, x)
    requires 1 <= n <= Pages(At(trees[r], TOP, x).level)
    requires At(trees[r], TOP, x).level < TOP ==> On(lists, At(trees[r], TOP, x).level, SLOTS * r + x)
    ensures SLOTS * r + x + Slots(At(trees[r], TOP, x).level) <= |m.links|
    ensures var m' := AllocLinks(m, SLOTS * r + x, At(trees[r], TOP, x).level, n);
            var trees' := trees[r := Take(trees[r], TOP, x, n)];
            && ListsSound(m', lists', trees')
            && (ListsComplete(lists, trees) ==> ListsComplete(lists', trees'))
  {
    var t, s0 := trees[r], SLOTS * r;
    var k, s := At(t, TOP, x).level, s0 + x;
    SlotsInside(t, TOP, x);
    SlotsInHeap(|trees|, r, x, k);
    assert s0 <= s && s + Slots(k) <= s0 + Slots(TOP);
    SoundAt(m, lists, s0, TOP, t, x);
    var m1, lists1 := TakeFromList(m, lists, trees, r, x);
    hide Pop;
    hide Sound;
    hide AllLists;
    hide ChangesWithin;
    lists' := SplitSound(m1, lists1, s, k, n);
    var m' := SplitLinks(m1, s, k, n);
    ChangesTwice(m, lists, m1, lists1, m', lists', s, k, s, k, s, k);
    ReplaceSound(m, lists, m', lists', s0, TOP, t, x, Carve(k, n), k);
    ChangesTwice(m, lists, m', lists', m', lists', s0, TOP, s, k, s, k);
    RootLinkStays(m, lists, m', lists', trees, r, x, k);
    BlockListsReplaced(m, lists, m', lists', trees, r, Take(t, TOP, x, n));
    if ListsComplete(lists, trees) {
      ReplaceComplete(m, lists, m', lists', s0, TOP, t, x, Carve(k, n));
      BlockCompleteReplaced(m, lists, m', lists', trees, r, Take(t, TOP, x, n));
    }
  }

  // The links of a maximal block's own node stay, as kalloc and the joins leave them alone.
  lemma RootLinkStays(m: Lists, lists: seq<seq<nat>>, m': Lists, lists': seq<seq<nat>>,
                      trees: seq<Tree>, r: nat, x: nat, k: nat)
    requires WellFormed(trees) && ListsSound(m, lists, trees) && r < |trees|
    requires ChangesWithin(m, lists, m', lists', SLOTS * r + x, k)
    requires x == 0 ==> m'.links[SLOTS * r] == m.links[SLOTS * r]
    ensures m'.links[SLOTS * r] == m.links[SLOTS * r] && m'.heads[TOP] == m.heads[TOP]
  {
    RootUnlisted(m, lists, trees, r);
    if x > 0 {
      assert !Within(SLOTS * r + x, k, SLOTS * r);
    }
  }

  lemma SlotsInHeap(n: nat, r: nat, x: nat, k: nat)
    requires r < n && x + Slots(k) <= Slots(TOP)
    ensures SLOTS * r + x + Slots(k) <= SLOTS * n
  {
    TopSizes();
  }

  // The chosen leaf is off its list, and nothing in its slots is listed.
  lemma TakeFromList(m: Lists, lists: seq<seq<nat>>, trees: seq<Tree>, r: nat, x: nat)
    returns (m1: Lists, lists1: seq<seq<nat>>)
    requires WellFormed(trees) && ListsSound(m, lists, trees) && MayTake(m, trees, r, x)
    requires At(trees[r], TOP, x).level < TOP ==> On(lists, At(trees[r], TOP, x).level, SLOTS * r + x)
    requires SLOTS * r + x < |m.links|
    requires Sound(m, lists, SLOTS * r + x, At(trees[r], TOP, x).level, Leaf(true))
    ensures var k, s := At(trees[r], TOP, x).level, SLOTS * r + x;
            && m1 == (if k != TOP then Pop(m, k, s) else m)
            && AllLists(m1, lists1) && NoneListed(lists1, s, k) && (k < TOP ==> m1.links[s] == UNLINKED)
            && ChangesWithin(m, lists, m1, lists1, s, k) && (k == TOP ==> m1 == m)
  {
    var k, s := At(trees[r], TOP, x).level, SLOTS * r + x;
    if k < TOP {
      assert lists[k][0] == s;
      PopFromList(m, k, lists[k]);
      lists1 := UnlinkAll(m, lists, k, s);
      m1 := Pop(m, k, s);
    } else {
      assert x == 0;
      RootUnlisted(m, lists, trees, r);
      m1, lists1 := m, lists;
    }
    LeafTaken(m, lists, m1, lists1, s, k);
  }

  // Once the leaf is off its list, nothing in its slots is listed.
  lemma LeafTaken(m: Lists, lists: seq<seq<nat>>, m1: Lists, lists1: seq<seq<nat>>, s: nat, k: nat)
    requires Sound(m, lists, s, k, Leaf(true))
    requires OthersStay(m, lists, m1, lists1, s) && !Listed(lists1, s)
    ensures NoneListed(lists1, s, k) && ChangesWithin(m, lists, m1, lists1, s, k)
  {
    forall j: nat, y | Within(s, k, y) && On(lists, j, y)
      ensures y == s
    {
      LeafFreeAt(true, k, j, y - s);
    }
    assert Within(s, k, s);
  }
}

/** The list part of kfree: it stays inside the header whatever the lists look like, and it
    keeps the lists sound when the block found is a single leaf. */
module BuddyFree {
  import opened BuddyTree
  import opened BuddyOps
  import opened BuddyRuns
  import opened BuddyMemory
  import opened BuddyLists
  import opened BuddyAgreement
  import opened BuddyHeap

  // ---------------------------------------------------------------------------------
  // Links and heads only ever point to nodes below the maximal blocks
  // ---------------------------------------------------------------------------------

  /** Links of the nodes in `known`, and the heads below the largest level, are null or
      point into `known`. */
  ghost predicate Anchored(m: Lists, known: set<nat>) {
    && |m.heads| == TOP + 1
    && (forall j :: 0 <= j < TOP ==> m.heads[j] == NULL || m.heads[j] in known)
    && (forall y :: y in known ==>
          && y < |m.links|
          && (m.links[y].next == NULL || m.links[y].next in known)
          && (m.links[y].prev == NULL || m.links[y].prev in known))
  }

  /** Only links of nodes in `known` and heads below the largest level differ. */
  ghost predicate TouchesOnly(m: Lists, m': Lists, known: set<nat>) {
    && SameTop(m, m')
    && forall y: nat :: y < |m.links| && y !in known ==> m'.links[y] == m.links[y]
  }

  lemma UnlinkAnchored(m: Lists, known: set<nat>, j: nat, x: nat)
    requires Anchored(m, known) && x in known && j < TOP
    ensures Anchored(Unlink(m, j, x), known) && TouchesOnly(m, Unlink(m, j, x), known)
  {
  }

  lemma PushAnchored(m: Lists, known: set<nat>, j: nat, x: nat)
    requires Anchored(m, known) && x in known && j < TOP
    ensures Anchored(Push(m, j, x), known) && TouchesOnly(m, Push(m, j, x), known)
  {
  }

  /** Every node of the tree below its root is in `known`. */
  ghost predicate Known(known: set<nat>, s: nat, k: nat, t: Tree)
    requires Fits(t, k)
  {
    forall x: nat :: NodeAt(t, k, x) && x > 0 ==> s + x in known
  }

  lemma KnownHalves(known: set<nat>, s: nat, k: nat, t: Tree)
    requires Fits(t, k) && t.Node? && Known(known, s, k, t)
    ensures Known(known, s + 1, k - 1, t.left) && Known(known, s + Pages(k), k - 1, t.right)
    ensures s + 1 in known && s + Pages(k) in known
  {
    assert NodeAt(t, k, 1) && NodeAt(t, k, Pages(k));
    forall x: nat {:trigger NodeAt(t.left, k - 1, x)} | NodeAt(t.left, k - 1, x) && x > 0
      ensures s + 1 + x in known
    {
      SlotsInside(t.left, k - 1, x);
      assert NodeAt(t, k, 1 + x) && s + (1 + x) == s + 1 + x;
    }
    forall x: nat {:trigger NodeAt(t.right, k - 1, x)} | NodeAt(t.right, k - 1, x) && x > 0
      ensures s + Pages(k) + x in known
    {
      assert NodeAt(t, k, Pages(k) + x) && s + (Pages(k) + x) == s + Pages(k) + x;
    }
  }

  lemma {:induction false} KnownAt(known: set<nat>, s: nat, k: nat, t: Tree, x: nat)
    requires Fits(t, k) && NodeAt(t, k, x) && Known(known, s, k, t)
    ensures Known(known, s + x, At(t, k, x).level, At(t, k, x).sub)
    decreases k
  {
    hide Known;
    if x == 0 {
    } else if x < Pages(k) {
      KnownHalves(known, s, k, t);
      KnownAt(known, s + 1, k - 1, t.left, x - 1);
    } else {
      KnownHalves(known, s, k, t);
      KnownAt(known, s + Pages(k), k - 1, t.right, x - Pages(k));
    }
  }

  lemma TouchesTwice(m: Lists, m1: Lists, m2: Lists, known: set<nat>)
    requires TouchesOnly(m, m1, known) && TouchesOnly(m1, m2, known)
    ensures TouchesOnly(m, m2, known)
  {
  }

  lemma MergeStepAnchored(m: Lists, known: set<nat>, s: nat, k: nat, left: bool, right: bool)
    requires 0 < k <= TOP && s + Slots(k) <= |m.links| && Anchored(m, known)
    requires s + 1 in known && s + Pages(k) in known
    ensures Anchored(MergeStep(m, s, k, left, right), known)
    ensures TouchesOnly(m, MergeStep(m, s, k, left, right), known)
  {
    hide Anchored;
    hide Unlink;
    hide Push;
    hide TouchesOnly;
    var l, r := s + 1, s + Pages(k);
    UnlinkAnchored(m, known, k - 1, l);
    PushAnchored(m, known, k - 1, l);
    Untouched(m, known);
    var m1 := if left && right then Unlink(m, k - 1, l) else Repush(m, k - 1, l, left);
    UnlinkAnchored(m1, known, k - 1, r);
    PushAnchored(m1, known, k - 1, r);
    Untouched(m1, known);
    TouchesTwice(m, m1, MergeStep(m, s, k, left, right), known);
  }

  lemma Untouched(m: Lists, known: set<nat>)
    ensures TouchesOnly(m, m, known)
  {
  }

  /** Whatever the lists look like, merge_bnode's list code stays among the known nodes. */
  lemma {:induction false} MergeAnchored(m: Lists, known: set<nat>, s: nat, k: nat, t: Tree, limit: nat)
    requires Fits(t, k) && k <= TOP && s + Slots(k) <= |m.links| && |m.heads| == TOP + 1
    requires Anchored(m, known) && Known(known, s, k, t)
    ensures Anchored(MergeLinks(m, s, k, t, limit), known)
    ensures TouchesOnly(m, MergeLinks(m, s, k, t, limit), known)
    decreases k
  {
    hide Anchored;
    hide TouchesOnly;
    hide MergeStep;
    hide Merge;
    Untouched(m, known);
    if t.Node? {
      var l, r, half := s + 1, s + Pages(k), Pages(k - 1);
      KnownHalves(known, s, k, t);
      MergeAnchored(m, known, l, k - 1, t.left, limit);
      var m1 := MergeLinks(m, l, k - 1, t.left, limit);
      var m2 := if limit > half then MergeLinks(m1, r, k - 1, t.right, limit - half) else m1;
      Untouched(m1, known);
      if limit > half {
        MergeAnchored(m1, known, r, k - 1, t.right, limit - half);
      }
      TouchesTwice(m, m1, m2, known);
      MergeStepAnchored(m2, known, s, k, Merge(t.left, k - 1, limit) == Leaf(true),
        (if limit > half then Merge(t.right, k - 1, limit - half) else t.right) == Leaf(true));
      TouchesTwice(m, m2, MergeLinks(m, s, k, t, limit), known);
    }
  }

  /** The same for merge_bnode_nolimit. */
  lemma {:induction false} CoalesceAnchored(m: Lists, known: set<nat>, s: nat, k: nat, t: Tree)
    requires Fits(t, k) && k <= TOP && s + Slots(k) <= |m.links| && |m.heads| == TOP + 1
    requires Anchored(m, known) && Known(known, s, k, t)
    ensures Anchored(CoalesceLinks(m, s, k, t), known)
    ensures TouchesOnly(m, CoalesceLinks(m, s, k, t), known)
    decreases k
  {
    hide Anchored;
    hide TouchesOnly;
    hide CoalesceLinks;
    hide Coalesce;
    hide MergeStep;
    hide Known;
    Untouched(m, known);
    CoalesceParts(m, s, k, t);
    if t.Node? {
      var l, r := s + 1, s + Pages(k);
      KnownHalves(known, s, k, t);
      CoalesceAnchored(m, known, l, k - 1, t.left);
      var m1 := CoalesceLinks(m, l, k - 1, t.left);
      CoalesceAnchored(m1, known, r, k - 1, t.right);
      var m2 := CoalesceLinks(m1, r, k - 1, t.right);
      TouchesTwice(m, m1, m2, known);
      MergeStepAnchored(m2, known, s, k, true, true);
      TouchesTwice(m, m2, MergeStep(m2, s, k, true, true), known);
    }
  }

  lemma {:induction false} MergeNodes(t: Tree, k: nat, limit: nat, y: nat)
    requires Fits(t, k)
    ensures NodeAt(Merge(t, k, limit), k, y) ==> NodeAt(t, k, y)
    decreases k
  {
    if t.Node? {
      if 0 < y < Pages(k) {
        MergeNodes(t.left, k - 1, limit, y - 1);
      } else if y > 0 && limit > Pages(k - 1) {
        MergeNodes(t.right, k - 1, limit - Pages(k - 1), y - Pages(k));
      }
    }
  }

  lemma {:induction false} ReplaceNodes(t: Tree, k: nat, x: nat, u: Tree, y: nat)
    requires Fits(t, k) && NodeAt(t, k, x) && Fits(u, At(t, k, x).level)
    requires y >= x && NodeAt(u, At(t, k, x).level, y - x) ==> NodeAt(At(t, k, x).sub, At(t, k, x).level, y - x)
    ensures NodeAt(Replace(t, k, x, u), k, y) ==> NodeAt(t, k, y)
    decreases k
  {
    if x == 0 {
    } else if x < Pages(k) {
      SlotsInside(t.left, k - 1, x - 1);
      if 0 < y < Pages(k) {
        ReplaceNodes(t.left, k - 1, x - 1, u, y - 1);
      }
    } else if y >= Pages(k) {
      ReplaceNodes(t.right, k - 1, x - Pages(k), u, y - Pages(k));
    }
  }

  lemma ReleaseKnown(known: set<nat>, s: nat, t: Tree, a: nat, n: nat)
    requires Fits(t, TOP) && NodeStarts(t, TOP, a) && Known(known, s, TOP, t)
    ensures Known(known, s, TOP, Release(t, TOP, a, n))
  {
    var x := TopSlot(t, TOP, a);
    var top := At(t, TOP, x);
    forall y: nat | NodeAt(Release(t, TOP, a, n), TOP, y) && y > 0
      ensures s + y in known
    {
      if y >= x {
        MergeNodes(top.sub, top.level, n, y - x);
      }
      ReplaceNodes(t, TOP, x, Merge(top.sub, top.level, n), y);
    }
  }

  // ---------------------------------------------------------------------------------
  // Freeing a single leaf
  // ---------------------------------------------------------------------------------

  /** Slot of the free block that the leaf in slot x becomes part of when it is freed. */
  function MergedSlot(t: Tree, k: nat, x: nat): (z: nat)
    requires Fits(t, k) && NodeAt(t, k, x)
    ensures z <= x
    decreases k
  {
    if x == 0 then 0
    else if x < Pages(k) then
      var z := MergedSlot(t.left, k - 1, x - 1);
      if z == 0 && t.right == Leaf(true) then 0 else 1 + z
    else
      var z := MergedSlot(t.right, k - 1, x - Pages(k));
      if z == 0 && t.left == Leaf(true) then 0 else Pages(k) + z
  }

  function FreedTree(t: Tree, k: nat, x: nat): (t': Tree)
    requires Fits(t, k) && NodeAt(t, k, x)
  {
    Coalesce(Replace(t, k, x, Leaf(true)))
  }

  lemma {:induction false} FreedFits(t: Tree, k: nat, x: nat)
    requires Fits(t, k) && NodeAt(t, k, x)
    ensures Fits(FreedTree(t, k, x), k)
  {
    CoalesceFits(Replace(t, k, x, Leaf(true)), k);
  }

  /** What is said of freeing the leaf in slot x: it makes one new free leaf, which is the
      leaf itself unless its sibling is free. */
  predicate OneNew(t: Tree, k: nat, x: nat, t': Tree, z: nat, j: nat, y: nat)
    requires Fits(t, k) && NodeAt(t, k, x) && Fits(t', k)
  {
    && NodeAt(t', k, z) && At(t', k, z).sub == Leaf(true)
    && NodeAt(t, k, z) && At(t, k, z).sub != Leaf(true)
    && (z == x <==> NodeAt(t', k, x))
    && (z == 0 <==> t' == Leaf(true))
    && (FreeAt(t', k, j, y) && y != z ==> FreeAt(t, k, j, y))
  }

  lemma {:induction false} OneNewLeaf(t: Tree, k: nat, x: nat, j: nat, y: nat)
    requires Fits(t, k) && Coalesced(t) && NodeAt(t, k, x) && At(t, k, x).sub == Leaf(false)
    ensures Fits(FreedTree(t, k, x), k)
    ensures OneNew(t, k, x, FreedTree(t, k, x), MergedSlot(t, k, x), j, y)
    decreases k
  {
    hide OneNew;
    hide Coalesce;
    hide Replace;
    hide FreedTree;
    FreedFits(t, k, x);
    if x == 0 {
      OneNewHere(t, k, j, y);
    } else {
      FreedHalves(t, k, x);
      if x < Pages(k) {
        var left := FreedTree(t.left, k - 1, x - 1);
        OneNewLeaf(t.left, k - 1, x - 1, j, if y > 0 then y - 1 else 0);
        OneNewLeft(t, k, x, left, MergedSlot(t.left, k - 1, x - 1), j, y);
      } else {
        var right := FreedTree(t.right, k - 1, x - Pages(k));
        OneNewLeaf(t.right, k - 1, x - Pages(k), j, if y >= Pages(k) then y - Pages(k) else 0);
        OneNewRight(t, k, x, right, MergedSlot(t.right, k - 1, x - Pages(k)), j, y);
      }
    }
  }

  lemma FreedHalves(t: Tree, k: nat, x: nat)
    requires Fits(t, k) && Coalesced(t) && NodeAt(t, k, x) && x > 0
    ensures x < Pages(k) ==> FreedTree(t, k, x) == Join(FreedTree(t.left, k - 1, x - 1), t.right)
    ensures x >= Pages(k) ==> FreedTree(t, k, x) == Join(t.left, FreedTree(t.right, k - 1, x - Pages(k)))
  {
    CoalescedIsFixed(t.left);
    CoalescedIsFixed(t.right);
  }

  lemma LeafNodeAt(k: nat, x: nat)
    ensures NodeAt(Leaf(true), k, x) <==> x == 0
  {
  }

  lemma OneNewHere(t: Tree, k: nat, j: nat, y: nat)
    requires Fits(t, k) && t == Leaf(false)
    ensures Fits(FreedTree(t, k, 0), k) && OneNew(t, k, 0, FreedTree(t, k, 0), MergedSlot(t, k, 0), j, y)
  {
  }

  lemma OneNewLeft(t: Tree, k: nat, x: nat, left: Tree, z: nat, j: nat, y: nat)
    requires Fits(t, k) && NodeAt(t, k, x) && 0 < x < Pages(k) && Fits(left, k - 1) && z < x
    requires OneNew(t.left, k - 1, x - 1, left, z, j, if y > 0 then y - 1 else 0)
    ensures Fits(Join(left, t.right), k)
    ensures OneNew(t, k, x, Join(left, t.right), if z == 0 && t.right == Leaf(true) then 0 else 1 + z, j, y)
  {
    hide FreeAt;
    hide At;
    hide NodeAt;
    SlotHalves(t, k, x);
    var t' := Join(left, t.right);
    RootSlot(t, k, t);
    RootSlot(t', k, t');
    NodeHalves(t, k, x);
    NodeHalves(t, k, 1 + z);
    NodeFreeAt(t, k, j, y);
    if t'.Leaf? {
      LeafFreeAt(true, k, j, y);
      LeafNodeAt(k, x);
    } else {
      NodeHalves(t', k, x);
      NodeHalves(t', k, 1 + z);
      NodeFreeAt(t', k, j, y);
    }
  }

  lemma OneNewRight(t: Tree, k: nat, x: nat, right: Tree, z: nat, j: nat, y: nat)
    requires Fits(t, k) && NodeAt(t, k, x) && Pages(k) <= x && Fits(right, k - 1)
    requires OneNew(t.right, k - 1, x - Pages(k), right, z, j, if y >= Pages(k) then y - Pages(k) else 0)
    ensures Fits(Join(t.left, right), k)
    ensures OneNew(t, k, x, Join(t.left, right), if z == 0 && t.left == Leaf(true) then 0 else Pages(k) + z, j, y)
  {
    hide FreeAt;
    hide At;
    hide NodeAt;
    SlotHalves(t, k, x);
    var t' := Join(t.left, right);
    RootSlot(t, k, t);
    RootSlot(t', k, t');
    NodeHalves(t, k, x);
    NodeHalves(t, k, Pages(k) + z);
    NodeFreeAt(t, k, j, y);
    if t'.Leaf? {
      LeafFreeAt(true, k, j, y);
      LeafNodeAt(k, x);
    } else {
      NodeHalves(t', k, x);
      NodeHalves(t', k, Pages(k) + z);
      NodeFreeAt(t', k, j, y);
    }
  }

  /** A slot holds blocks of one level only. */
  lemma {:induction false} SameSlotSameLevel(t: Tree, u: Tree, k: nat, x: nat)
    requires Fits(t, k) && Fits(u, k) && NodeAt(t, k, x) && NodeAt(u, k, x)
    ensures At(t, k, x).level == At(u, k, x).level
    decreases k
  {
    if x == 0 {
    } else if x < Pages(k) {
      SameSlotSameLevel(t.left, u.left, k - 1, x - 1);
    } else {
      SameSlotSameLevel(t.right, u.right, k - 1, x - Pages(k));
    }
  }

  // A free leaf may be put on the list of its level.
  lemma PushedSound(m: Lists, lists: seq<seq<nat>>, m': Lists, lists': seq<seq<nat>>,
                    s: nat, k: nat, t: Tree, x: nat, j: nat)
    requires Fits(t, k) && FreeAt(t, k, j, x) && Sound(m, lists, s, k, t)
    requires OthersStay(m, lists, m', lists', s + x)
    requires forall q: nat {:trigger On(lists', q, s + x)} :: On(lists', q, s + x) <==> q == j
    ensures Sound(m', lists', s, k, t) && ChangesWithin(m, lists, m', lists', s, k)
  {
    SlotsInside(t, k, x);
    assert Within(s, k, s + x) && On(lists', j, s + x);
    forall y: nat | NodeAt(t, k, y) && (k < TOP || y > 0)
      ensures Tidy(m', lists', s, y)
    {
      assert Tidy(m, lists, s, y);
      if y != x && Listed(lists, s + y) {
        var q: nat :| On(lists, q, s + y);
        assert On(lists', q, s + y);
      }
    }
  }

  // A leaf that coalescing keeps is kept as it is.
  lemma {:induction false} LeafKept(t: Tree, k: nat, x: nat)
    requires Fits(t, k) && NodeAt(t, k, x) && At(t, k, x).sub.Leaf?
    ensures Fits(Coalesce(t), k)
    ensures NodeAt(Coalesce(t), k, x) ==> At(Coalesce(t), k, x).sub == At(t, k, x).sub
    decreases k
  {
    CoalesceFits(t, k);
    if x == 0 {
    } else if x < Pages(k) {
      LeafKept(t.left, k - 1, x - 1);
    } else {
      LeafKept(t.right, k - 1, x - Pages(k));
    }
  }

  /** The links after kfree of the single allocated leaf in slot x of the tree t at slot s. */
  function FreeLeafLinks(m: Lists, s: nat, t: Tree, x: nat): (m': Lists)
    requires Fits(t, TOP) && NodeAt(t, TOP, x) && x < Slots(TOP)
    requires s + Slots(TOP) <= |m.links| && |m.heads| == TOP + 1
  {
    FreedFits(t, TOP, x);
    var m1 := CoalesceLinks(m, s, TOP, Replace(t, TOP, x, Leaf(true)));
    if x != 0 && NodeAt(FreedTree(t, TOP, x), TOP, x) then Push(m1, At(t, TOP, x).level, s + x) else m1
  }

  // What is known after merge_bnode_nolimit ran on the tree with the leaf freed.
  lemma FreedLeafCoalesced(m: Lists, lists: seq<seq<nat>>, s: nat, t: Tree, x: nat)
    returns (lists1: seq<seq<nat>>)
    requires Fits(t, TOP) && NodeAt(t, TOP, x) && At(t, TOP, x).sub == Leaf(false)
    requires s + Slots(TOP) <= |m.links| && |m.heads| == TOP + 1
    requires AllLists(m, lists) && Sound(m, lists, s, TOP, t)
    ensures Fits(FreedTree(t, TOP, x), TOP)
    ensures var m1 := CoalesceLinks(m, s, TOP, Replace(t, TOP, x, Leaf(true)));
            var t' := FreedTree(t, TOP, x);
            && AllLists(m1, lists1) && Sound(m1, lists1, s, TOP, t')
            && ChangesWithin(m, lists, m1, lists1, s, TOP) && Trimmed(lists, lists1, s, TOP, t')
  {
    var k := At(t, TOP, x).level;
    SoundAt(m, lists, s, TOP, t, x);
    AllocatedUnlisted(m, lists, s, t, x);
    LeafStays(m, lists, s + x, k, Leaf(false));
    hide Sound;
    hide ChangesWithin;
    ReplaceSound(m, lists, m, lists, s, TOP, t, x, Leaf(true), k);
    lists1 := CoalesceSound(m, lists, s, TOP, Replace(t, TOP, x, Leaf(true)));
  }

  lemma AllocatedUnlisted(m: Lists, lists: seq<seq<nat>>, s: nat, t: Tree, x: nat)
    requires Fits(t, TOP) && NodeAt(t, TOP, x) && At(t, TOP, x).sub == Leaf(false)
    requires Sound(m, lists, s, TOP, t)
    requires Sound(m, lists, s + x, At(t, TOP, x).level, Leaf(false))
    ensures Sound(m, lists, s + x, At(t, TOP, x).level, Leaf(true)) && !Listed(lists, s + x)
  {
    var k := At(t, TOP, x).level;
    assert Within(s + x, k, s + x);
    forall j: nat, y | Within(s + x, k, y)
      ensures !On(lists, j, y)
    {
      if y >= s + x {
        LeafFreeAt(false, k, j, y - (s + x));
      }
    }
    if k < TOP {
      assert Tidy(m, lists, s + x, 0);
    }
    SoundLeaf(m, lists, s + x, k, true);
  }

  /** kfree of a single leaf keeps one tree's lists sound, and changes only its slots. */
  lemma FreeLeafTree(m: Lists, lists: seq<seq<nat>>, s: nat, t: Tree, x: nat)
    returns (lists': seq<seq<nat>>)
    requires Fits(t, TOP) && NodeAt(t, TOP, x) && At(t, TOP, x).sub == Leaf(false) && Coalesced(t)
    requires x < Slots(TOP) && s + Slots(TOP) <= |m.links| && |m.heads| == TOP + 1
    requires AllLists(m, lists) && Sound(m, lists, s, TOP, t)
    ensures Fits(FreedTree(t, TOP, x), TOP)
    ensures var m', t' := FreeLeafLinks(m, s, t, x), FreedTree(t, TOP, x);
            && AllLists(m', lists') && Sound(m', lists', s, TOP, t')
            && ChangesWithin(m, lists, m', lists', s, TOP)
            && FreeLeafLists(lists, lists', s, t', x)
  {
    hide Sound;
    hide AllLists;
    hide ChangesWithin;
    hide At;
    hide NodeAt;
    hide Replace;
    hide CoalesceLinks;
    hide FreedTree;
    hide Push;
    var t', k := FreedTree(t, TOP, x), At(t, TOP, x).level;
    FreedFits(t, TOP, x);
    var m1 := CoalesceLinks(m, s, TOP, Replace(t, TOP, x, Leaf(true)));
    var lists1 := FreedLeafCoalesced(m, lists, s, t, x);
    OneNewLeaf(t, TOP, x, 0, 0);
    SurvivorUnlisted(m, lists, lists1, s, t, t', x);
    if x != 0 && NodeAt(t', TOP, x) {
      SameSlotSameLevel(t, t', TOP, x);
      LevelBelowTop(t, TOP, x);
      lists' := PushSurvivor(m1, lists1, s, t', x, k);
      ChangesTwice(m, lists, m1, lists1, Push(m1, k, s + x), lists', s, TOP, s, TOP, s, TOP);
    } else {
      lists' := lists1;
    }
  }

  lemma PushSurvivor(m: Lists, lists: seq<seq<nat>>, s: nat, t: Tree, x: nat, k: nat)
    returns (lists': seq<seq<nat>>)
    requires Fits(t, TOP) && FreeAt(t, TOP, k, x) && x != 0 && k < TOP && s + x < |m.links|
    requires AllLists(m, lists) && Sound(m, lists, s, TOP, t) && !Listed(lists, s + x)
    ensures var m' := Push(m, k, s + x);
            AllLists(m', lists') && Sound(m', lists', s, TOP, t) && ChangesWithin(m, lists, m', lists', s, TOP)
    ensures forall j: nat, y :: On(lists', j, y) <==> if y == s + x then j == k else On(lists, j, y)
  {
    assert Tidy(m, lists, s, x);
    lists' := PushAll(m, lists, k, s + x);
    PushedSound(m, lists, Push(m, k, s + x), lists', s, TOP, t, x, k);
  }

  /** kfree of the leaf in slot x: the lists keep what is still a free leaf, and the leaf
      itself is added if it is a node of its own afterwards. */
  ghost predicate FreeLeafLists(lists: seq<seq<nat>>, lists': seq<seq<nat>>, s: nat, t': Tree, x: nat)
    requires Fits(t', TOP)
  {
    forall j: nat, y: nat :: Within(s, TOP, y) && y - s < Slots(TOP) ==>
      (On(lists', j, y) <==>
        || (y == s + x && x != 0 && NodeAt(t', TOP, x) && j == At(t', TOP, x).level)
        || (y != s + x && On(lists, j, y) && FreeAt(t', TOP, j, y - s)))
  }

  lemma LevelBelowTop(t: Tree, k: nat, x: nat)
    requires Fits(t, k) && NodeAt(t, k, x)
    ensures At(t, k, x).level < k <==> x != 0
  {
  }

  // The freed leaf was allocated, so it was on no list.
  lemma SurvivorUnlisted(m: Lists, lists: seq<seq<nat>>, lists1: seq<seq<nat>>, s: nat, t: Tree, t': Tree, x: nat)
    requires Fits(t, TOP) && NodeAt(t, TOP, x) && At(t, TOP, x).sub == Leaf(false) && Sound(m, lists, s, TOP, t)
    requires Fits(t', TOP) && Trimmed(lists, lists1, s, TOP, t') && x < Slots(TOP)
    ensures !Listed(lists1, s + x) && !Listed(lists, s + x)
  {
    assert Within(s, TOP, s + x) && s + x - s == x;
    forall j: nat {:trigger On(lists, j, s + x)} {:trigger On(lists1, j, s + x)}
      ensures !On(lists, j, s + x) && !On(lists1, j, s + x)
    {
      assert !FreeAt(t, TOP, j, x);
    }
  }

  /** kfree of a single leaf on the whole heap: the lists stay sound, and if they were
      complete they stay complete exactly if the leaf's sibling is taken or split, or the
      whole maximal block becomes free; any other merged block is on no list. */
  lemma FreeLeafSound(m: Lists, lists: seq<seq<nat>>, trees: seq<Tree>, r: nat, x: nat)
    returns (lists': seq<seq<nat>>)
    requires WellFormed(trees) && ListsSound(m, lists, trees) && r < |trees| && Coalesced(trees[r])
    requires NodeAt(trees[r], TOP, x) && At(trees[r], TOP, x).sub == Leaf(false)
    ensures Fits(FreedTree(trees[r], TOP, x), TOP)
    ensures x < Slots(TOP) && SLOTS * r + Slots(TOP) <= |m.links| && |m.heads| == TOP + 1
    ensures var t' := FreedTree(trees[r], TOP, x);
            && ListsSound(FreeLeafLinks(m, SLOTS * r, trees[r], x), lists', trees[r := t'])
            && (ListsComplete(lists, trees) ==>
                  (ListsComplete(lists', trees[r := t']) <==> NodeAt(t', TOP, x) || t' == Leaf(true)))
  {
    var t, s := trees[r], SLOTS * r;
    FreeLeafRoot(m, lists, trees, r, x);
    var m', t' := FreeLeafLinks(m, s, t, x), FreedTree(t, TOP, x);
    assert Sound(m, lists, s, TOP, t);
    lists' := FreeLeafTree(m, lists, s, t, x);
    BlockListsReplaced(m, lists, m', lists', trees, r, t');
    if ListsComplete(lists, trees) {
      assert Complete(lists, s, TOP, t);
      FreeLeafComplete(m, lists, lists', s, t, x);
      if NodeAt(t', TOP, x) || t' == Leaf(true) {
        BlockCompleteReplaced(m, lists, m', lists', trees, r, t');
      } else {
        assert !Complete(lists', s, TOP, trees[r := t'][r]);
      }
    }
  }

  lemma FreeLeafTouches(m: Lists, known: set<nat>, s: nat, t: Tree, x: nat)
    requires Fits(t, TOP) && NodeAt(t, TOP, x) && x < Slots(TOP)
    requires s + Slots(TOP) <= |m.links| && |m.heads| == TOP + 1 && Anchored(m, known) && Known(known, s, TOP, t)
    ensures TouchesOnly(m, FreeLeafLinks(m, s, t, x), known)
  {
    hide Anchored;
    hide TouchesOnly;
    hide Known;
    hide CoalesceLinks;
    hide Push;
    hide FreedTree;
    hide At;
    hide NodeAt;
    hide Replace;
    hide Slots;
    FreedFits(t, TOP, x);
    FreedKnown(known, s, t, x);
    var m1 := CoalesceLinks(m, s, TOP, Replace(t, TOP, x, Leaf(true)));
    CoalesceAnchored(m, known, s, TOP, Replace(t, TOP, x, Leaf(true)));
    if x != 0 && NodeAt(FreedTree(t, TOP, x), TOP, x) {
      LevelBelowTop(t, TOP, x);
      PushAnchored(m1, known, At(t, TOP, x).level, s + x);
      TouchesTwice(m, m1, Push(m1, At(t, TOP, x).level, s + x), known);
    }
  }

  // What freeing a single leaf leaves alone of the maximal block's own node.
  lemma FreeLeafRoot(m: Lists, lists: seq<seq<nat>>, trees: seq<Tree>, r: nat, x: nat)
    requires WellFormed(trees) && ListsSound(m, lists, trees) && r < |trees| && NodeAt(trees[r], TOP, x)
    ensures x < Slots(TOP) && SLOTS * r + Slots(TOP) <= |m.links| && |m.heads| == TOP + 1
    ensures var m' := FreeLeafLinks(m, SLOTS * r, trees[r], x);
            m'.links[SLOTS * r] == m.links[SLOTS * r] && m'.heads[TOP] == m.heads[TOP]
  {
    hide Sound;
    hide FreeLeafLinks;
    hide Anchored;
    hide Known;
    TopSizes();
    SlotsInside(trees[r], TOP, x);
    SoundIsAnchored(m, lists, trees);
    KnownInTree(trees, r);
    FreeLeafTouches(m, KnownNodes(trees), SLOTS * r, trees[r], x);
  }

  lemma FreedKnown(known: set<nat>, s: nat, t: Tree, x: nat)
    requires Fits(t, TOP) && NodeAt(t, TOP, x) && Known(known, s, TOP, t)
    ensures Known(known, s, TOP, Replace(t, TOP, x, Leaf(true))) && (x > 0 ==> s + x in known)
  {
    forall y: nat | NodeAt(Replace(t, TOP, x, Leaf(true)), TOP, y) && y > 0
      ensures s + y in known
    {
      ReplaceNodes(t, TOP, x, Leaf(true), y);
    }
  }

  lemma FreeLeafComplete(m: Lists, lists: seq<seq<nat>>, lists': seq<seq<nat>>, s: nat, t: Tree, x: nat)
    requires Fits(t, TOP) && NodeAt(t, TOP, x) && At(t, TOP, x).sub == Leaf(false) && Coalesced(t)
    requires x < Slots(TOP) && Sound(m, lists, s, TOP, t) && Complete(lists, s, TOP, t)
    requires Fits(FreedTree(t, TOP, x), TOP)
    requires FreeLeafLists(lists, lists', s, FreedTree(t, TOP, x), x)
    ensures var t' := FreedTree(t, TOP, x);
            Complete(lists', s, TOP, t') <==> NodeAt(t', TOP, x) || t' == Leaf(true)
  {
    var t', z := FreedTree(t, TOP, x), MergedSlot(t, TOP, x);
    OneNewLeaf(t, TOP, x, 0, 0);
    LevelBelowTop(t', TOP, z);
    if z == x || z == 0 {
      forall j: nat, y: nat | j < TOP && FreeAt(t', TOP, j, y)
        ensures On(lists', j, s + y)
      {
        OneNewLeaf(t, TOP, x, j, y);
        FreeAtInside(t', TOP, j, y);
        LevelBelowTop(t', TOP, y);
        assert Within(s, TOP, s + y) && s + y - s == y;
        assert y != x ==> On(lists, j, s + y);
      }
    } else {
      var j := At(t', TOP, z).level;
      FreeAtInside(t', TOP, j, z);
      assert Within(s, TOP, s + z) && s + z - s == z && !FreeAt(t, TOP, j, z);
      assert FreeAt(t', TOP, j, z) && !On(lists, j, s + z) && !On(lists', j, s + z);
    }
  }

  // ---------------------------------------------------------------------------------
  // Sound lists are anchored
  // ---------------------------------------------------------------------------------

  /** The slots of all nodes below the maximal blocks' own. */
  ghost function KnownNodes(trees: seq<Tree>): (known: set<nat>)
    requires WellFormed(trees)
  {
    set r, x | 0 <= r < |trees| && 0 < x < SLOTS && NodeAt(trees[r], TOP, x) :: SLOTS * r + x
  }

  lemma KnownInTree(trees: seq<Tree>, r: nat)
    requires WellFormed(trees) && r < |trees|
    ensures Known(KnownNodes(trees), SLOTS * r, TOP, trees[r]) && SLOTS * r !in KnownNodes(trees)
  {
    TopSizes();
    forall x: nat | NodeAt(trees[r], TOP, x) && x > 0
      ensures SLOTS * r + x in KnownNodes(trees)
    {
      SlotsInside(trees[r], TOP, x);
    }
  }

  /** Links and heads lead only to nodes in `known`, which has all nodes below the maximal
      blocks' own and none of these; the lists may have any shape. */
  ghost predicate Contained(m: Lists, trees: seq<Tree>, known: set<nat>)
    requires WellFormed(trees)
  {
    && Anchored(m, known)
    && forall r :: 0 <= r < |trees| ==> Known(known, SLOTS * r, TOP, trees[r]) && SLOTS * r !in known
  }

  lemma SoundIsContained(m: Lists, lists: seq<seq<nat>>, trees: seq<Tree>)
    requires WellFormed(trees) && ListsSound(m, lists, trees)
    ensures Contained(m, trees, KnownNodes(trees))
  {
    hide Anchored;
    hide Known;
    hide KnownNodes;
    hide ListsSound;
    SoundIsAnchored(m, lists, trees);
    forall r | 0 <= r < |trees|
      ensures Known(KnownNodes(trees), SLOTS * r, TOP, trees[r]) && SLOTS * r !in KnownNodes(trees)
    {
      KnownInTree(trees, r);
    }
  }

  lemma BlockContained(m: Lists, m': Lists, trees: seq<Tree>, known: set<nat>, r: nat, t: Tree)
    requires WellFormed(trees) && Contained(m, trees, known) && r < |trees| && Fits(t, TOP)
    requires Anchored(m', known) && Known(known, SLOTS * r, TOP, t)
    ensures WellFormed(trees[r := t]) && Contained(m', trees[r := t], known)
  {
    hide Anchored;
    hide Known;
  }

  lemma {:induction false} CoalesceNodes(t: Tree, k: nat, y: nat)
    requires Fits(t, k)
    ensures Fits(Coalesce(t), k) && (NodeAt(Coalesce(t), k, y) ==> NodeAt(t, k, y))
    decreases k
  {
    CoalesceFits(t, k);
    if t.Node? && 0 < y < Pages(k) {
      CoalesceNodes(t.left, k - 1, y - 1);
    } else if t.Node? && y > 0 {
      CoalesceNodes(t.right, k - 1, y - Pages(k));
    }
  }

  lemma CoalesceKnown(known: set<nat>, s: nat, k: nat, t: Tree)
    requires Fits(t, k) && Known(known, s, k, t)
    ensures Fits(Coalesce(t), k) && Known(known, s, k, Coalesce(t))
  {
    CoalesceFits(t, k);
    forall y: nat | NodeAt(Coalesce(t), k, y) && y > 0
      ensures s + y in known
    {
      CoalesceNodes(t, k, y);
    }
  }

  lemma ListedIsKnown(m: Lists, lists: seq<seq<nat>>, trees: seq<Tree>, j: nat, y: nat)
    requires WellFormed(trees) && ListsSound(m, lists, trees) && On(lists, j, y)
    ensures y in KnownNodes(trees)
  {
    TopSizes();
    var i :| 0 <= i < |lists[j]| && lists[j][i] == y;
    var r, x := y / SLOTS, y % SLOTS;
    assert y == SLOTS * r + x && r < |trees|;
    assert Sound(m, lists, SLOTS * r, TOP, trees[r]) && Within(SLOTS * r, TOP, y) && y - SLOTS * r == x;
    LevelBelowTop(trees[r], TOP, x);
  }

  lemma SoundIsAnchored(m: Lists, lists: seq<seq<nat>>, trees: seq<Tree>)
    requires WellFormed(trees) && ListsSound(m, lists, trees)
    ensures Anchored(m, KnownNodes(trees))
  {
    var known := KnownNodes(trees);
    forall j | 0 <= j < TOP
      ensures m.heads[j] == NULL || m.heads[j] in known
    {
      if lists[j] != [] {
        assert On(lists, j, lists[j][0]);
        ListedIsKnown(m, lists, trees, j, lists[j][0]);
      }
    }
    forall y | y in known
      ensures y < |m.links|
      ensures m.links[y].next == NULL || m.links[y].next in known
      ensures m.links[y].prev == NULL || m.links[y].prev in known
    {
      var r, x :| 0 <= r < |trees| && 0 < x < SLOTS && NodeAt(trees[r], TOP, x) && y == SLOTS * r + x;
      assert Sound(m, lists, SLOTS * r, TOP, trees[r]) && Tidy(m, lists, SLOTS * r, x);
      if Listed(lists, y) {
        var j: nat :| On(lists, j, y);
        NeighboursKnown(m, lists, trees, j, y);
      }
    }
  }

  lemma NeighboursKnown(m: Lists, lists: seq<seq<nat>>, trees: seq<Tree>, j: nat, y: nat)
    requires WellFormed(trees) && ListsSound(m, lists, trees) && On(lists, j, y) && y < |m.links|
    ensures m.links[y].next == NULL || m.links[y].next in KnownNodes(trees)
    ensures m.links[y].prev == NULL || m.links[y].prev in KnownNodes(trees)
  {
    var l := lists[j];
    var i :| 0 <= i < |l| && l[i] == y;
    assert IsList(m.links, m.heads[j], l) && Linked(m.links, l, i);
    if i + 1 < |l| {
      assert On(lists, j, l[i + 1]);
      ListedIsKnown(m, lists, trees, j, l[i + 1]);
    }
    if i > 0 {
      assert On(lists, j, l[i - 1]);
      ListedIsKnown(m, lists, trees, j, l[i - 1]);
    }
  }
}

/** When kfree keeps free lists and trees in agreement: exactly when the block it finds is
    freed as a whole and does not become part of a larger block below the largest size. */
module BuddyReturn {
  import opened BuddyTree
  import opened BuddyOps
  import opened BuddyRuns
  import opened BuddyMemory
  import opened BuddyLists
  import opened BuddyAgreement
  import opened BuddyHeap
  import opened BuddyFree

  /** Some well formed lists hold exactly the free blocks below the largest level. */
  ghost predicate Agree(m: Lists, trees: seq<Tree>)
    requires WellFormed(trees)
  {
    exists lists :: ListsSound(m, lists, trees) && ListsComplete(lists, trees)
  }

  // ---------------------------------------------------------------------------------
  // Links and heads leave no choice of lists
  // ---------------------------------------------------------------------------------

  lemma {:induction false} SameSoFar(links: seq<Link>, head: int, l: seq<nat>, l': seq<nat>, i: nat)
    requires IsList(links, head, l) && IsList(links, head, l') && i < |l|
    ensures i < |l'| && l'[i] == l[i]
    decreases i
  {
    if i > 0 {
      SameSoFar(links, head, l, l', i - 1);
      assert Linked(links, l, i - 1) && Linked(links, l', i - 1);
    }
  }

  lemma OneList(links: seq<Link>, head: int, l: seq<nat>, l': seq<nat>)
    requires IsList(links, head, l) && IsList(links, head, l')
    ensures l == l'
  {
    SameLength(links, head, l, l');
    forall i | 0 <= i < |l|
      ensures l'[i] == l[i]
    {
      SameSoFar(links, head, l, l', i);
    }
  }

  lemma SameLength(links: seq<Link>, head: int, l: seq<nat>, l': seq<nat>)
    requires IsList(links, head, l) && IsList(links, head, l')
    ensures |l| == |l'|
  {
    if |l| < |l'| {
      SameSoFar(links, head, l', l, |l|);
    } else if |l'| < |l| {
      SameSoFar(links, head, l, l', |l'|);
    }
  }

  lemma ListsAreUnique(m: Lists, lists: seq<seq<nat>>, lists': seq<seq<nat>>)
    requires AllLists(m, lists) && AllLists(m, lists')
    ensures lists == lists'
  {
    forall j | 0 <= j < TOP
      ensures lists[j] == lists'[j]
    {
      OneList(m.links, m.heads[j], lists[j], lists'[j]);
    }
  }

  // ---------------------------------------------------------------------------------
  // merge_bnode while the guard of its push fails
  // ---------------------------------------------------------------------------------

  /** merge_bnode pushes nothing: at every node it visits and does not join, no child is
      both free and linked to a neighbour. */
  predicate NeverPushes(m: Lists, s: nat, k: nat, t: Tree, limit: nat)
    requires Fits(t, k) && s + Slots(k) <= |m.links| && k < |m.heads|
    decreases k
  {
    t.Node? ==>
      var l, r, half := s + 1, s + Pages(k), Pages(k - 1);
      var m1 := MergeLinks(m, l, k - 1, t.left, limit);
      var m2 := if limit > half then MergeLinks(m1, r, k - 1, t.right, limit - half) else m1;
      var left := Merge(t.left, k - 1, limit);
      var right := if limit > half then Merge(t.right, k - 1, limit - half) else t.right;
      && NeverPushes(m, l, k - 1, t.left, limit)
      && (limit > half ==> NeverPushes(m1, r, k - 1, t.right, limit - half))
      && (left == Leaf(true) && right != Leaf(true) ==> m2.links[l] == UNLINKED)
      && (right == Leaf(true) && left != Leaf(true) ==> m2.links[r] == UNLINKED)
  }

  /** A block that is freed as a whole has every visited node joined. */
  lemma {:induction false} WholeNeverPushes(m: Lists, s: nat, k: nat, t: Tree, limit: nat)
    requires Fits(t, k) && s + Slots(k) <= |m.links| && k < |m.heads| && Merge(t, k, limit) == Leaf(true)
    ensures NeverPushes(m, s, k, t, limit)
    decreases k
  {
    hide MergeLinks;
    if t.Node? {
      var half := Pages(k - 1);
      WholeNeverPushes(m, s + 1, k - 1, t.left, limit);
      if limit > half {
        WholeNeverPushes(MergeLinks(m, s + 1, k - 1, t.left, limit), s + Pages(k), k - 1, t.right, limit - half);
      }
    }
  }

  // What NeverPushes says of the halves, and of the last step.
  lemma NeverPushesParts(m: Lists, s: nat, k: nat, t: Tree, limit: nat)
    requires Fits(t, k) && s + Slots(k) <= |m.links| && k < |m.heads| && NeverPushes(m, s, k, t, limit) && t.Node?
    ensures var half, left := Pages(k - 1), Merge(t.left, k - 1, limit);
            var right := if limit > half then Merge(t.right, k - 1, limit - half) else t.right;
            var m1 := MergeLinks(m, s + 1, k - 1, t.left, limit);
            var m2 := if limit > half then MergeLinks(m1, s + Pages(k), k - 1, t.right, limit - half) else m1;
            && NeverPushes(m, s + 1, k - 1, t.left, limit)
            && (limit > half ==> NeverPushes(m1, s + Pages(k), k - 1, t.right, limit - half))
            && MergeStep(m2, s, k, left == Leaf(true), right == Leaf(true)) ==
               if left == Leaf(true) && right == Leaf(true)
               then Unlink(Unlink(m2, k - 1, s + 1), k - 1, s + Pages(k)) else m2
  {
    hide MergeLinks;
    hide Merge;
    hide Unlink;
  }

  /** While it pushes nothing, merge_bnode takes exactly the leaves that disappear off their
      lists; the leaves it frees get on no list. */
  lemma {:induction false} MergeSound(m: Lists, lists: seq<seq<nat>>, s: nat, k: nat, t: Tree, limit: nat)
    returns (lists': seq<seq<nat>>)
    requires Fits(t, k) && k <= TOP && s + Slots(k) <= |m.links| && |m.heads| == TOP + 1
    requires AllLists(m, lists) && Sound(m, lists, s, k, t) && NeverPushes(m, s, k, t, limit)
    ensures var m' := MergeLinks(m, s, k, t, limit);
            && AllLists(m', lists') && Sound(m', lists', s, k, Merge(t, k, limit))
            && ChangesWithin(m, lists, m', lists', s, k) && Trimmed(lists, lists', s, k, Merge(t, k, limit))
    decreases k
  {
    hide Sound;
    hide AllLists;
    hide Unlink;
    hide MergeLinks;
    hide MergeStep;
    hide Merge;
    hide NeverPushes;
    hide ChangesWithin;
    hide Trimmed;
    hide Listed;
    hide Tidy;
    MergeParts(m, s, k, t, limit);
    if t.Leaf? {
      lists' := lists;
      LeafFreed(m, lists, s, k, t);
    } else {
      NeverPushesParts(m, s, k, t, limit);
      var l, r, half := s + 1, s + Pages(k), Pages(k - 1);
      SplitUnlisted(m, lists, s, k, t);
      SoundLeft(m, lists, s, k, t);
      SoundRight(m, lists, s, k, t);
      var m1 := MergeLinks(m, l, k - 1, t.left, limit);
      var lists1 := MergeSound(m, lists, l, k - 1, t.left, limit);
      SoundElsewhere(m, lists, m1, lists1, l, k - 1, r, k - 1, t.right);
      var m2, lists2, right := m1, lists1, t.right;
      if limit > half {
        m2 := MergeLinks(m1, r, k - 1, t.right, limit - half);
        lists2 := MergeSound(m1, lists1, r, k - 1, t.right, limit - half);
        right := Merge(t.right, k - 1, limit - half);
      } else {
        NothingChanged(m1, lists1, r, k - 1, t.right);
      }
      HalvesDone(m, lists, m1, lists1, m2, lists2, s, k, Merge(t.left, k - 1, limit), right);
      lists' := JoinStep(m, lists, m2, lists2, s, k, Merge(t.left, k - 1, limit), right);
    }
  }

  lemma NothingChanged(m: Lists, lists: seq<seq<nat>>, s: nat, k: nat, t: Tree)
    requires Fits(t, k) && Sound(m, lists, s, k, t)
    ensures ChangesWithin(m, lists, m, lists, s, k) && Trimmed(lists, lists, s, k, t)
  {
    hide FreeAt;
  }

  // A leaf that is freed stays on its list if it was there.
  lemma LeafFreed(m: Lists, lists: seq<seq<nat>>, s: nat, k: nat, t: Tree)
    requires t.Leaf? && k <= TOP && Sound(m, lists, s, k, t)
    ensures Sound(m, lists, s, k, Leaf(true))
    ensures ChangesWithin(m, lists, m, lists, s, k) && Trimmed(lists, lists, s, k, Leaf(true))
  {
    hide FreeAt;
    forall j: nat, y | On(lists, j, y) && Within(s, k, y)
      ensures FreeAt(Leaf(true), k, j, y - s)
    {
      LeafFreeAt(t.free, k, j, y - s);
      LeafFreeAt(true, k, j, y - s);
    }
    assert k < TOP ==> NodeAt(t, k, 0) && Tidy(m, lists, s, 0);
  }

  // ---------------------------------------------------------------------------------
  // Whatever it pushes, merge_bnode lists no node that was not listed
  // ---------------------------------------------------------------------------------

  ghost function ListedNodes(lists: seq<seq<nat>>): set<nat> {
    set j, i | 0 <= j < |lists| && 0 <= i < |lists[j]| :: lists[j][i]
  }

  lemma ListedIsAnchored(m: Lists, lists: seq<seq<nat>>)
    requires AllLists(m, lists)
    ensures Anchored(m, ListedNodes(lists))
  {
    var known := ListedNodes(lists);
    forall j | 0 <= j < TOP
      ensures m.heads[j] == NULL || m.heads[j] in known
    {
      assert IsList(m.links, m.heads[j], lists[j]);
    }
    forall y | y in known
      ensures y < |m.links| && (m.links[y].next == NULL || m.links[y].next in known)
      ensures m.links[y].prev == NULL || m.links[y].prev in known
    {
      var j, i :| 0 <= j < |lists| && 0 <= i < |lists[j]| && lists[j][i] == y;
      assert IsList(m.links, m.heads[j], lists[j]) && Linked(m.links, lists[j], i);
    }
  }

  /** Every node of the tree below its root is in `known` or has null links. */
  ghost predicate Settled(m: Lists, known: set<nat>, s: nat, k: nat, t: Tree)
    requires Fits(t, k)
  {
    forall x: nat :: NodeAt(t, k, x) && x > 0 ==> s + x < |m.links| && (s + x in known || m.links[s + x] == UNLINKED)
  }

  lemma SettledHalves(m: Lists, known: set<nat>, s: nat, k: nat, t: Tree)
    requires Fits(t, k) && t.Node? && Settled(m, known, s, k, t)
    ensures Settled(m, known, s + 1, k - 1, t.left) && Settled(m, known, s + Pages(k), k - 1, t.right)
    ensures s + 1 < |m.links| && (s + 1 in known || m.links[s + 1] == UNLINKED)
    ensures s + Pages(k) < |m.links| && (s + Pages(k) in known || m.links[s + Pages(k)] == UNLINKED)
  {
    assert NodeAt(t, k, 1) && NodeAt(t, k, Pages(k));
    forall x: nat {:trigger NodeAt(t.left, k - 1, x)} | NodeAt(t.left, k - 1, x) && x > 0
      ensures s + 1 + x < |m.links| && (s + 1 + x in known || m.links[s + 1 + x] == UNLINKED)
    {
      SlotsInside(t.left, k - 1, x);
      assert NodeAt(t, k, 1 + x) && s + (1 + x) == s + 1 + x;
    }
    forall x: nat {:trigger NodeAt(t.right, k - 1, x)} | NodeAt(t.right, k - 1, x) && x > 0
      ensures s + Pages(k) + x < |m.links| && (s + Pages(k) + x in known || m.links[s + Pages(k) + x] == UNLINKED)
    {
      assert NodeAt(t, k, Pages(k) + x) && s + (Pages(k) + x) == s + Pages(k) + x;
    }
  }

  lemma SettledStays(m: Lists, m': Lists, known: set<nat>, s: nat, k: nat, t: Tree)
    requires Fits(t, k) && Settled(m, known, s, k, t) && TouchesOnly(m, m', known)
    ensures Settled(m', known, s, k, t)
  {
  }

  lemma SoundIsSettled(m: Lists, lists: seq<seq<nat>>, s: nat, k: nat, t: Tree)
    requires Fits(t, k) && Sound(m, lists, s, k, t) && s + Slots(k) <= |m.links|
    ensures Settled(m, ListedNodes(lists), s, k, t)
  {
    forall x: nat | NodeAt(t, k, x) && x > 0
      ensures s + x < |m.links| && (s + x in ListedNodes(lists) || m.links[s + x] == UNLINKED)
    {
      SlotsInside(t, k, x);
      assert Tidy(m, lists, s, x);
    }
  }

  lemma UnlinkSettled(m: Lists, known: set<nat>, j: nat, x: nat)
    requires Anchored(m, known) && j < TOP && x < |m.links| && (x in known || m.links[x] == UNLINKED)
    ensures Anchored(Unlink(m, j, x), known) && TouchesOnly(m, Unlink(m, j, x), known)
  {
    hide Unlink;
    if x in known {
      UnlinkAnchored(m, known, j, x);
    } else {
      UnlinkNothing(m, j, x);
    }
  }

  lemma UnlinkNothing(m: Lists, j: nat, x: nat)
    requires x < |m.links| && j < |m.heads| && m.links[x] == UNLINKED && m.heads[j] != x
    ensures Unlink(m, j, x) == m
  {
  }

  lemma RepushSettled(m: Lists, known: set<nat>, j: nat, x: nat, free: bool)
    requires Anchored(m, known) && j < TOP && x < |m.links| && (x in known || m.links[x] == UNLINKED)
    ensures Anchored(Repush(m, j, x, free), known) && TouchesOnly(m, Repush(m, j, x, free), known)
  {
    hide Push;
    if x in known {
      PushAnchored(m, known, j, x);
    }
  }

  lemma HeadsOf(m: Lists, known: set<nat>)
    requires Anchored(m, known)
    ensures |m.heads| == TOP + 1
  {
  }

  lemma MergeStepSettled(m: Lists, known: set<nat>, s: nat, k: nat, left: bool, right: bool)
    requires 0 < k <= TOP && s + Slots(k) <= |m.links| && Anchored(m, known)
    requires s + 1 in known || m.links[s + 1] == UNLINKED
    requires s + Pages(k) in known || m.links[s + Pages(k)] == UNLINKED
    ensures Anchored(MergeStep(m, s, k, left, right), known)
    ensures TouchesOnly(m, MergeStep(m, s, k, left, right), known)
  {
    hide Anchored;
    hide Unlink;
    hide Repush;
    var l, r := s + 1, s + Pages(k);
    HeadsOf(m, known);
    var m1;
    if left && right {
      m1 := Unlink(m, k - 1, l);
      UnlinkSettled(m, known, k - 1, l);
      UnlinkSettled(m1, known, k - 1, r);
    } else {
      m1 := Repush(m, k - 1, l, left);
      RepushSettled(m, known, k - 1, l, left);
      RepushSettled(m1, known, k - 1, r, right);
    }
    TouchesTwice(m, m1, MergeStep(m, s, k, left, right), known);
  }

  /** Nodes that are neither listed nor linked stay so: merge_bnode frees leaves but lists
      none of them. */
  lemma {:induction false} MergeSettled(m: Lists, known: set<nat>, s: nat, k: nat, t: Tree, limit: nat)
    requires Fits(t, k) && k <= TOP && s + Slots(k) <= |m.links| && |m.heads| == TOP + 1
    requires Anchored(m, known) && Settled(m, known, s, k, t)
    ensures Anchored(MergeLinks(m, s, k, t, limit), known)
    ensures TouchesOnly(m, MergeLinks(m, s, k, t, limit), known)
    decreases k
  {
    hide Anchored;
    hide TouchesOnly;
    hide Settled;
    hide MergeLinks;
    hide MergeStep;
    hide Merge;
    Untouched(m, known);
    MergeParts(m, s, k, t, limit);
    if t.Node? {
      var l, r, half := s + 1, s + Pages(k), Pages(k - 1);
      SettledHalves(m, known, s, k, t);
      MergeSettled(m, known, l, k - 1, t.left, limit);
      var m1 := MergeLinks(m, l, k - 1, t.left, limit);
      SettledStays(m, m1, known, r, k - 1, t.right);
      var m2 := if limit > half then MergeLinks(m1, r, k - 1, t.right, limit - half) else m1;
      Untouched(m1, known);
      if limit > half {
        MergeSettled(m1, known, r, k - 1, t.right, limit - half);
      }
      TouchesTwice(m, m1, m2, known);
      SettledStays(m, m2, known, s, k, t);
      SettledHalves(m2, known, s, k, t);
      MergeStepSettled(m2, known, s, k, Merge(t.left, k - 1, limit) == Leaf(true),
        (if limit > half then Merge(t.right, k - 1, limit - half) else t.right) == Leaf(true));
      TouchesTwice(m, m2, MergeLinks(m, s, k, t, limit), known);
    }
  }

  // ---------------------------------------------------------------------------------
  // A block that is not freed as a whole: one of its freed leaves is on no list
  // ---------------------------------------------------------------------------------

  /** Slot of a leaf that merge_bnode frees and does not join. */
  function FreshSlot(t: Tree, k: nat, limit: nat): (z: nat)
    requires Fits(t, k) && Merge(t, k, limit).Node?
    decreases k
  {
    if Merge(t.left, k - 1, limit).Node? then 1 + FreshSlot(t.left, k - 1, limit) else 1
  }

  lemma {:induction false} FreshLeaf(t: Tree, k: nat, limit: nat)
    requires Fits(t, k) && Merge(t, k, limit).Node? && !PageFree(t, k, 0)
    ensures var z := FreshSlot(t, k, limit);
            && 0 < z && NodeAt(t, k, z) && At(t, k, z).sub != Leaf(true) && At(t, k, z).level < k
            && FreeAt(Merge(t, k, limit), k, At(t, k, z).level, z)
    decreases k
  {
    hide FreeAt;
    var left := Merge(t.left, k - 1, limit);
    var right := if limit > Pages(k - 1) then Merge(t.right, k - 1, limit - Pages(k - 1)) else t.right;
    assert Merge(t, k, limit) == Node(left, right);
    var z := FreshSlot(t, k, limit);
    if left.Node? {
      FreshLeaf(t.left, k - 1, limit);
      SlotsInside(t.left, k - 1, z - 1);
    } else {
      MergedLeaf(t.left, k - 1, limit);
      LeafFreeAt(true, k - 1, k - 1, 0);
    }
    NodeFreeAt(Node(left, right), k, At(t, k, z).level, z);
  }

  lemma MergedLeaf(t: Tree, k: nat, limit: nat)
    requires Fits(t, k) && Merge(t, k, limit).Leaf?
    ensures Merge(t, k, limit) == Leaf(true)
  {
  }

  // A node that no list of the level starts with, and that has null links, is not listed.
  lemma StaysOff(m: Lists, lists: seq<seq<nat>>, known: set<nat>, j: nat, y: nat)
    requires AllLists(m, lists) && Anchored(m, known) && y !in known && y < |m.links| && m.links[y] == UNLINKED
    ensures !On(lists, j, y)
  {
    if On(lists, j, y) {
      UnlinkedIsAlone(m.links, m.heads[j], lists[j], y);
    }
  }

  // ---------------------------------------------------------------------------------
  // kfree on the lists
  // ---------------------------------------------------------------------------------

  /** A node of the tree, free, sits in slot x. */
  predicate FreeNode(t: Tree, x: nat)
    requires Fits(t, TOP)
  {
    NodeAt(t, TOP, x) && At(t, TOP, x).sub == Leaf(true)
  }

  /** The links after kfree(a, n) in the tree t at slot s. */
  function FreeLinks(m: Lists, s: nat, t: Tree, a: nat, n: nat): (m': Lists)
    requires Fits(t, TOP) && NodeStarts(t, TOP, a) && s + Slots(TOP) <= |m.links| && |m.heads| == TOP + 1
  {
    var x := TopSlot(t, TOP, a);
    var top := At(t, TOP, x);
    SlotsInside(t, TOP, x);
    var m1 := MergeLinks(m, s + x, top.level, top.sub, n);
    var m2 := CoalesceLinks(m1, s, TOP, Release(t, TOP, a, n));
    if x != 0 && FreeNode(Free(t, TOP, a, n), x) then Push(m2, top.level, s + x) else m2
  }

  /** Page a is allocated. */
  predicate PageTaken(t: Tree, a: nat)
    requires Fits(t, TOP)
  {
    a < Pages(TOP) && !PageFree(t, TOP, a)
  }

  /** kfree(a, n) frees every page of the block it finds. */
  predicate FreesWhole(t: Tree, a: nat, n: nat)
    requires Fits(t, TOP) && NodeStarts(t, TOP, a)
  {
    var top := At(t, TOP, TopSlot(t, TOP, a));
    Merge(top.sub, top.level, n) == Leaf(true)
  }

  /** And the block does not become part of a larger one below the largest size. */
  predicate FreesCleanly(t: Tree, a: nat, n: nat)
    requires Fits(t, TOP) && NodeStarts(t, TOP, a)
  {
    && FreesWhole(t, a, n)
    && (NodeAt(Free(t, TOP, a, n), TOP, TopSlot(t, TOP, a)) || Free(t, TOP, a, n) == Leaf(true))
  }

  lemma {:induction false} ReplaceTwice(t: Tree, k: nat, x: nat, u: Tree, v: Tree)
    requires Fits(t, k) && NodeAt(t, k, x) && Fits(u, At(t, k, x).level) && Fits(v, At(t, k, x).level)
    ensures NodeAt(Replace(t, k, x, u), k, x) && At(Replace(t, k, x, u), k, x) == At(t, k, x).(sub := u)
    ensures Replace(Replace(t, k, x, u), k, x, v) == Replace(t, k, x, v)
    decreases k
  {
    ReplaceAt(t, k, x, u);
    if x == 0 {
    } else if x < Pages(k) {
      ReplaceTwice(t.left, k - 1, x - 1, u, v);
    } else {
      ReplaceTwice(t.right, k - 1, x - Pages(k), u, v);
    }
  }

  /** The tree with an allocated leaf in place of the block found. */
  function AsLeaf(t: Tree, a: nat): (t': Tree)
    requires Fits(t, TOP) && NodeStarts(t, TOP, a)
    ensures Fits(t', TOP)
  {
    Replace(t, TOP, TopSlot(t, TOP, a), Leaf(false))
  }

  lemma AsLeafFacts(t: Tree, a: nat)
    requires Fits(t, TOP) && NodeStarts(t, TOP, a)
    ensures var x, t0 := TopSlot(t, TOP, a), AsLeaf(t, a);
            && NodeAt(t0, TOP, x) && At(t0, TOP, x) == At(t, TOP, x).(sub := Leaf(false)) && x < Slots(TOP)
            && Replace(t0, TOP, x, Leaf(true)) == Replace(t, TOP, x, Leaf(true))
    ensures Coalesced(t) ==> Coalesced(AsLeaf(t, a))
  {
    var x := TopSlot(t, TOP, a);
    ReplaceTwice(t, TOP, x, Leaf(false), Leaf(true));
    if Coalesced(t) {
      ReplaceCoalesced(t, TOP, x, Leaf(false));
    }
  }

  // A block freed as a whole is freed like a single leaf.
  lemma FreeLinksWhole(m: Lists, s: nat, t: Tree, a: nat, n: nat)
    requires Fits(t, TOP) && NodeStarts(t, TOP, a) && s + Slots(TOP) <= |m.links| && |m.heads| == TOP + 1
    requires FreesWhole(t, a, n)
    ensures var x := TopSlot(t, TOP, a);
            var top, t0 := At(t, TOP, x), AsLeaf(t, a);
            && x + Slots(top.level) <= Slots(TOP)
            && NodeAt(t0, TOP, x) && FreedTree(t0, TOP, x) == Free(t, TOP, a, n)
            && FreeLinks(m, s, t, a, n) == FreeLeafLinks(MergeLinks(m, s + x, top.level, top.sub, n), s, t0, x)
  {
    hide At;
    hide NodeAt;
    hide Replace;
    hide CoalesceLinks;
    hide MergeLinks;
    hide Coalesce;
    hide TopSlot;
    hide NodeStarts;
    hide Push;
    hide Fits;
    hide AsLeaf;
    hide Slots;
    hide Merge;
    var x := TopSlot(t, TOP, a);
    SlotsInside(t, TOP, x);
    AsLeafFacts(t, a);
    ReplaceAt(t, TOP, x, Leaf(true));
    LeafKept(Replace(t, TOP, x, Leaf(true)), TOP, x);
    assert Release(t, TOP, a, n) == Replace(AsLeaf(t, a), TOP, x, Leaf(true));
  }

  lemma {:induction false} MergeCoalesced(t: Tree, k: nat, limit: nat)
    requires Fits(t, k) && Coalesced(t)
    ensures Coalesced(Merge(t, k, limit))
    decreases k
  {
    if t.Node? {
      MergeCoalesced(t.left, k - 1, limit);
      if limit > Pages(k - 1) {
        MergeCoalesced(t.right, k - 1, limit - Pages(k - 1));
      }
    }
  }

  lemma {:induction false} CoalescedLinksStay(m: Lists, s: nat, k: nat, t: Tree)
    requires Fits(t, k) && s + Slots(k) <= |m.links| && k < |m.heads| && Coalesced(t)
    ensures CoalesceLinks(m, s, k, t) == m
    decreases k
  {
    if t.Node? {
      CoalescedIsFixed(t.left);
      CoalescedIsFixed(t.right);
      CoalescedLinksStay(m, s + 1, k - 1, t.left);
      CoalescedLinksStay(m, s + Pages(k), k - 1, t.right);
    }
  }

  // A block that is not freed as a whole stays split, and nothing happens after merge_bnode.
  lemma FreeLinksPart(m: Lists, s: nat, t: Tree, a: nat, n: nat)
    requires Fits(t, TOP) && NodeStarts(t, TOP, a) && s + Slots(TOP) <= |m.links| && |m.heads| == TOP + 1
    requires !FreesWhole(t, a, n) && Coalesced(t)
    ensures var x := TopSlot(t, TOP, a);
            var top := At(t, TOP, x);
            && x + Slots(top.level) <= Slots(TOP) && Merge(top.sub, top.level, n).Node?
            && Free(t, TOP, a, n) == Replace(t, TOP, x, Merge(top.sub, top.level, n))
            && FreeLinks(m, s, t, a, n) == MergeLinks(m, s + x, top.level, top.sub, n)
  {
    hide At;
    hide NodeAt;
    hide Replace;
    hide CoalesceLinks;
    hide MergeLinks;
    hide Coalesce;
    hide Coalesced;
    hide TopSlot;
    hide NodeStarts;
    hide Push;
    hide Slots;
    hide Merge;
    var x := TopSlot(t, TOP, a);
    var top := At(t, TOP, x);
    var u := Merge(top.sub, top.level, n);
    SlotsInside(t, TOP, x);
    if u.Leaf? {
      MergedLeaf(top.sub, top.level, n);
    }
    SubCoalesced(t, TOP, x);
    MergeCoalesced(top.sub, top.level, n);
    ReplaceCoalesced(t, TOP, x, u);
    ReplaceAt(t, TOP, x, u);
    CoalescedIsFixed(Release(t, TOP, a, n));
    CoalescedLinksStay(MergeLinks(m, s + x, top.level, top.sub, n), s, TOP, Release(t, TOP, a, n));
  }

  lemma {:induction false} SubCoalesced(t: Tree, k: nat, x: nat)
    requires Fits(t, k) && NodeAt(t, k, x) && Coalesced(t)
    ensures Coalesced(At(t, k, x).sub)
    decreases k
  {
    if x == 0 {
    } else if x < Pages(k) {
      SubCoalesced(t.left, k - 1, x - 1);
    } else {
      SubCoalesced(t.right, k - 1, x - Pages(k));
    }
  }

  /** kfree's list code stays among the known nodes, whatever the lists look like. */
  lemma FreeLinksTouches(m: Lists, known: set<nat>, s: nat, t: Tree, a: nat, n: nat)
    requires Fits(t, TOP) && NodeStarts(t, TOP, a) && s + Slots(TOP) <= |m.links| && |m.heads| == TOP + 1
    requires Anchored(m, known) && Known(known, s, TOP, t)
    ensures Anchored(FreeLinks(m, s, t, a, n), known) && TouchesOnly(m, FreeLinks(m, s, t, a, n), known)
  {
    hide Anchored;
    hide TouchesOnly;
    hide Known;
    hide CoalesceLinks;
    hide MergeLinks;
    hide Merge;
    hide Free;
    hide Release;
    hide Push;
    hide Slots;
    hide NodeStarts;
    hide TopSlot;
    hide At;
    hide NodeAt;
    var x := TopSlot(t, TOP, a);
    var top := At(t, TOP, x);
    SlotsInside(t, TOP, x);
    KnownAt(known, s, TOP, t, x);
    ReleaseKnown(known, s, t, a, n);
    var m1 := MergeLinks(m, s + x, top.level, top.sub, n);
    MergeAnchored(m, known, s + x, top.level, top.sub, n);
    var m2 := CoalesceLinks(m1, s, TOP, Release(t, TOP, a, n));
    CoalesceAnchored(m1, known, s, TOP, Release(t, TOP, a, n));
    TouchesTwice(m, m1, m2, known);
    if x != 0 && FreeNode(Free(t, TOP, a, n), x) {
      KnownNode(known, s, t, x);
      LevelBelowTop(t, TOP, x);
      PushAnchored(m2, known, top.level, s + x);
      TouchesTwice(m, m2, Push(m2, top.level, s + x), known);
    }
  }

  lemma KnownNode(known: set<nat>, s: nat, t: Tree, x: nat)
    requires Fits(t, TOP) && Known(known, s, TOP, t) && NodeAt(t, TOP, x) && x > 0
    ensures s + x in known
  {
  }

  // The slots of a maximal block, and what kfree leaves alone of its own node.
  lemma RootKept(m: Lists, lists: seq<seq<nat>>, trees: seq<Tree>, r: nat, a: nat, n: nat)
    requires WellFormed(trees) && ListsSound(m, lists, trees) && r < |trees| && NodeStarts(trees[r], TOP, a)
    ensures SLOTS * r + Slots(TOP) <= |m.links| && |m.heads| == TOP + 1
    ensures var m', x := FreeLinks(m, SLOTS * r, trees[r], a, n), TopSlot(trees[r], TOP, a);
            var top := At(trees[r], TOP, x);
            && x + Slots(top.level) <= Slots(TOP)
            && var m1 := MergeLinks(m, SLOTS * r + x, top.level, top.sub, n);
            && m'.links[SLOTS * r] == m1.links[SLOTS * r] == m.links[SLOTS * r]
            && m'.heads[TOP] == m1.heads[TOP] == m.heads[TOP]
  {
    hide Sound;
    hide MergeLinks;
    hide FreeLinks;
    TopSizes();
    var x := TopSlot(trees[r], TOP, a);
    var top, known := At(trees[r], TOP, x), KnownNodes(trees);
    SlotsInside(trees[r], TOP, x);
    SoundIsAnchored(m, lists, trees);
    KnownInTree(trees, r);
    KnownAt(known, SLOTS * r, TOP, trees[r], x);
    MergeAnchored(m, known, SLOTS * r + x, top.level, top.sub, n);
    FreeLinksTouches(m, known, SLOTS * r, trees[r], a, n);
  }

  // ---------------------------------------------------------------------------------
  // The block is freed as a whole
  // ---------------------------------------------------------------------------------

  // After merge_bnode on a block that is freed as a whole, nothing in its slots is listed.
  lemma WholeUnlisted(m: Lists, lists: seq<seq<nat>>, s: nat, k: nat, t: Tree, limit: nat)
    returns (lists': seq<seq<nat>>)
    requires Fits(t, k) && k <= TOP && s + Slots(k) <= |m.links| && |m.heads| == TOP + 1
    requires AllLists(m, lists) && Sound(m, lists, s, k, t)
    requires t != Leaf(true) && Merge(t, k, limit) == Leaf(true)
    ensures var m' := MergeLinks(m, s, k, t, limit);
            && AllLists(m', lists') && Sound(m', lists', s, k, Leaf(false)) && Complete(lists', s, k, Leaf(false))
            && ChangesWithin(m, lists, m', lists', s, k)
  {
    hide MergeLinks;
    hide Merge;
    hide AllLists;
    hide FreeAt;
    WholeNeverPushes(m, s, k, t, limit);
    lists' := MergeSound(m, lists, s, k, t, limit);
    var m' := MergeLinks(m, s, k, t, limit);
    forall j: nat, y | Within(s, k, y)
      ensures !On(lists', j, y)
    {
      if On(lists', j, y) {
        LeafFreeAt(true, k, j, y - s);
        RootFreeAt(t, k, j);
      }
    }
    assert k < TOP ==> NodeAt(Leaf(true), k, 0) && Tidy(m', lists', s, 0);
    SoundLeaf(m', lists', s, k, false);
    forall j: nat, x: nat
      ensures !FreeAt(Leaf(false), k, j, x)
    {
      LeafFreeAt(false, k, j, x);
    }
  }

  lemma RootFreeAt(t: Tree, k: nat, j: nat)
    requires Fits(t, k) && FreeAt(t, k, j, 0)
    ensures t == Leaf(true)
  {
  }

  /** After merge_bnode on a block that is freed as a whole, the lists are those of the trees
      with an allocated leaf in its place. */
  lemma MergedAsTaken(m: Lists, lists: seq<seq<nat>>, trees: seq<Tree>, r: nat, a: nat, n: nat)
    returns (lists1: seq<seq<nat>>)
    requires WellFormed(trees) && ListsSound(m, lists, trees) && r < |trees| && NodeStarts(trees[r], TOP, a)
    requires FreesWhole(trees[r], a, n) && PageTaken(trees[r], a)
    ensures SLOTS * r + Slots(TOP) <= |m.links| && |m.heads| == TOP + 1
    ensures var x := TopSlot(trees[r], TOP, a);
            var top, t0 := At(trees[r], TOP, x), AsLeaf(trees[r], a);
            && x + Slots(top.level) <= Slots(TOP)
            && var m1 := MergeLinks(m, SLOTS * r + x, top.level, top.sub, n);
            && ListsSound(m1, lists1, trees[r := t0])
            && (ListsComplete(lists, trees) ==> ListsComplete(lists1, trees[r := t0]))
  {
    hide Sound;
    hide AllLists;
    hide Complete;
    hide ChangesWithin;
    hide MergeLinks;
    hide FreeLinks;
    hide TopSlot;
    hide At;
    hide NodeAt;
    hide Replace;
    hide Merge;
    var t, s, x := trees[r], SLOTS * r, TopSlot(trees[r], TOP, a);
    var top := At(t, TOP, x);
    RootKept(m, lists, trees, r, a, n);
    SoundAt(m, lists, s, TOP, t, x);
    TakenBlock(t, a);
    lists1 := WholeUnlisted(m, lists, s + x, top.level, top.sub, n);
    var m1 := MergeLinks(m, s + x, top.level, top.sub, n);
    ReplaceSound(m, lists, m1, lists1, s, TOP, t, x, Leaf(false), top.level);
    ChangesWider(m, lists, m1, lists1, s, TOP, s + x, top.level);
    BlockListsReplaced(m, lists, m1, lists1, trees, r, AsLeaf(t, a));
    if ListsComplete(lists, trees) {
      ReplaceComplete(m, lists, m1, lists1, s, TOP, t, x, Leaf(false));
      BlockCompleteReplaced(m, lists, m1, lists1, trees, r, AsLeaf(t, a));
    }
  }

  // A block whose first page is taken is no free leaf.
  lemma TakenBlock(t: Tree, a: nat)
    requires Fits(t, TOP) && NodeStarts(t, TOP, a)
    ensures var top := At(t, TOP, TopSlot(t, TOP, a));
            && top.page == a && a < Pages(TOP)
            && (PageTaken(t, a) ==> top.sub != Leaf(true) && !PageFree(top.sub, top.level, 0))
  {
    LeavesInside(t, TOP, TopSlot(t, TOP, a), 0);
  }

  /** While merge_bnode pushes nothing, kfree keeps the lists sound; and if it frees the block
      as a whole, they stay complete exactly if the block is still a node of its own or the
      whole maximal block became free. */
  lemma FreeSound(m: Lists, lists: seq<seq<nat>>, trees: seq<Tree>, r: nat, a: nat, n: nat)
    returns (lists': seq<seq<nat>>)
    requires WellFormed(trees) && ListsSound(m, lists, trees) && r < |trees| && Coalesced(trees[r])
    requires NodeStarts(trees[r], TOP, a) && PageTaken(trees[r], a)
    requires SLOTS * r + Slots(TOP) <= |m.links| && |m.heads| == TOP + 1
    requires PushesNothing(m, SLOTS * r, trees[r], a, n)
    ensures var m', t' := FreeLinks(m, SLOTS * r, trees[r], a, n), Free(trees[r], TOP, a, n);
            && ListsSound(m', lists', trees[r := t'])
            && (FreesWhole(trees[r], a, n) && ListsComplete(lists, trees) ==>
                  (ListsComplete(lists', trees[r := t']) <==> FreesCleanly(trees[r], a, n)))
  {
    hide ListsSound;
    hide ListsComplete;
    hide MergeLinks;
    hide FreeLinks;
    hide TopSlot;
    hide At;
    hide NodeAt;
    hide Coalesced;
    hide AsLeaf;
    hide FreeLeafLinks;
    var t, s, x := trees[r], SLOTS * r, TopSlot(trees[r], TOP, a);
    RootKept(m, lists, trees, r, a, n);
    if FreesWhole(t, a, n) {
      var lists1 := MergedAsTaken(m, lists, trees, r, a, n);
      AsLeafFacts(t, a);
      FreeLinksWhole(m, s, t, a, n);
      var top := At(t, TOP, x);
      var m1, trees1 := MergeLinks(m, s + x, top.level, top.sub, n), trees[r := AsLeaf(t, a)];
      lists' := FreeLeafSound(m1, lists1, trees1, r, x);
      assert trees1[r := Free(t, TOP, a, n)] == trees[r := Free(t, TOP, a, n)];
    } else {
      lists' := FreePartSound(m, lists, trees, r, a, n);
    }
  }

  /** The guard of merge_bnode's push fails throughout kfree(a, n). */
  predicate PushesNothing(m: Lists, s: nat, t: Tree, a: nat, n: nat)
    requires Fits(t, TOP) && NodeStarts(t, TOP, a) && s + Slots(TOP) <= |m.links| && |m.heads| == TOP + 1
  {
    var x := TopSlot(t, TOP, a);
    var top := At(t, TOP, x);
    SlotsInside(t, TOP, x);
    NeverPushes(m, s + x, top.level, top.sub, n)
  }

  lemma WholePushesNothing(m: Lists, s: nat, t: Tree, a: nat, n: nat)
    requires Fits(t, TOP) && NodeStarts(t, TOP, a) && s + Slots(TOP) <= |m.links| && |m.heads| == TOP + 1
    requires FreesWhole(t, a, n)
    ensures PushesNothing(m, s, t, a, n)
  {
    hide Merge;
    hide NeverPushes;
    hide TopSlot;
    hide NodeStarts;
    hide Slots;
    hide At;
    hide NodeAt;
    var x := TopSlot(t, TOP, a);
    SlotsInside(t, TOP, x);
    WholeNeverPushes(m, s + x, At(t, TOP, x).level, At(t, TOP, x).sub, n);
  }

  lemma FreePartSound(m: Lists, lists: seq<seq<nat>>, trees: seq<Tree>, r: nat, a: nat, n: nat)
    returns (lists': seq<seq<nat>>)
    requires WellFormed(trees) && ListsSound(m, lists, trees) && r < |trees| && Coalesced(trees[r])
    requires NodeStarts(trees[r], TOP, a) && SLOTS * r + Slots(TOP) <= |m.links| && |m.heads| == TOP + 1
    requires PushesNothing(m, SLOTS * r, trees[r], a, n) && !FreesWhole(trees[r], a, n)
    ensures ListsSound(FreeLinks(m, SLOTS * r, trees[r], a, n), lists', trees[r := Free(trees[r], TOP, a, n)])
  {
    hide Sound;
    hide AllLists;
    hide ChangesWithin;
    hide MergeLinks;
    hide FreeLinks;
    hide NeverPushes;
    hide TopSlot;
    hide At;
    hide NodeAt;
    hide Replace;
    hide Merge;
    hide Free;
    hide Coalesced;
    var t, s, x := trees[r], SLOTS * r, TopSlot(trees[r], TOP, a);
    var top := At(t, TOP, x);
    RootKept(m, lists, trees, r, a, n);
    FreeLinksPart(m, s, t, a, n);
    SoundAt(m, lists, s, TOP, t, x);
    var m1 := MergeLinks(m, s + x, top.level, top.sub, n);
    lists' := MergeSound(m, lists, s + x, top.level, top.sub, n);
    ReplaceSound(m, lists, m1, lists', s, TOP, t, x, Merge(top.sub, top.level, n), top.level);
    ChangesWider(m, lists, m1, lists', s, TOP, s + x, top.level);
    BlockListsReplaced(m, lists, m1, lists', trees, r, Free(t, TOP, a, n));
  }

  // ---------------------------------------------------------------------------------
  // Otherwise a freed leaf is on no list
  // ---------------------------------------------------------------------------------

  // The freed leaf, before and after.
  lemma FreshInTree(t: Tree, a: nat, n: nat) returns (y: nat, j: nat)
    requires Fits(t, TOP) && NodeStarts(t, TOP, a) && PageTaken(t, a) && !FreesWhole(t, a, n) && Coalesced(t)
    ensures 0 < y < Slots(TOP) && NodeAt(t, TOP, y) && At(t, TOP, y).sub != Leaf(true)
    ensures j < TOP && FreeAt(Free(t, TOP, a, n), TOP, j, y)
  {
    hide TopSlot;
    hide Merge;
    hide Free;
    var x := TopSlot(t, TOP, a);
    var top := At(t, TOP, x);
    var u := Merge(top.sub, top.level, n);
    FreshMerged(t, a, n);
    TakenBlock(t, a);
    FreshLeaf(top.sub, top.level, n);
    var z := FreshSlot(top.sub, top.level, n);
    y, j := x + z, At(top.sub, top.level, z).level;
    SlotsInside(top.sub, top.level, z);
    SlotsInside(t, TOP, x);
    NodeInside(t, TOP, x, z);
    ReplaceFreeAt(t, TOP, x, u, j, y);
  }

  lemma FreshMerged(t: Tree, a: nat, n: nat)
    requires Fits(t, TOP) && NodeStarts(t, TOP, a) && !FreesWhole(t, a, n) && Coalesced(t)
    ensures var top := At(t, TOP, TopSlot(t, TOP, a));
            && Merge(top.sub, top.level, n).Node?
            && Free(t, TOP, a, n) == Replace(t, TOP, TopSlot(t, TOP, a), Merge(top.sub, top.level, n))
  {
    var m := Lists(seq(Slots(TOP), _ => UNLINKED), seq(TOP + 1, _ => NULL));
    FreeLinksPart(m, 0, t, a, n);
  }

  lemma {:induction false} NodeInside(t: Tree, k: nat, x: nat, z: nat)
    requires Fits(t, k) && NodeAt(t, k, x) && NodeAt(At(t, k, x).sub, At(t, k, x).level, z)
    ensures NodeAt(t, k, x + z) && At(t, k, x + z).sub == At(At(t, k, x).sub, At(t, k, x).level, z).sub
    decreases k
  {
    if x == 0 {
    } else if x < Pages(k) {
      SlotsInside(At(t, k, x).sub, At(t, k, x).level, z);
      SlotsInside(t.left, k - 1, x - 1);
      NodeInside(t.left, k - 1, x - 1, z);
    } else {
      NodeInside(t.right, k - 1, x - Pages(k), z);
    }
  }

  lemma PartNotComplete(m: Lists, lists: seq<seq<nat>>, trees: seq<Tree>, r: nat, a: nat, n: nat,
                        lists': seq<seq<nat>>)
    requires WellFormed(trees) && ListsSound(m, lists, trees) && r < |trees| && Coalesced(trees[r])
    requires NodeStarts(trees[r], TOP, a) && PageTaken(trees[r], a) && !FreesWhole(trees[r], a, n)
    requires SLOTS * r + Slots(TOP) <= |m.links| && |m.heads| == TOP + 1
    requires AllLists(FreeLinks(m, SLOTS * r, trees[r], a, n), lists')
    ensures !Complete(lists', SLOTS * r, TOP, Free(trees[r], TOP, a, n))
  {
    hide MergeLinks;
    hide FreeLinks;
    hide TopSlot;
    hide Merge;
    hide Free;
    hide Anchored;
    hide AllLists;
    hide Settled;
    hide FreeAt;
    var t, s, x := trees[r], SLOTS * r, TopSlot(trees[r], TOP, a);
    var top, known := At(t, TOP, x), ListedNodes(lists);
    var z, j := FreshInTree(t, a, n);
    SlotsInside(t, TOP, x);
    ListedIsAnchored(m, lists);
    SoundAt(m, lists, s, TOP, t, x);
    SoundIsSettled(m, lists, s + x, top.level, top.sub);
    MergeSettled(m, known, s + x, top.level, top.sub, n);
    FreeLinksPart(m, s, t, a, n);
    FreshIsOff(m, lists, s, t, z);
    StaysOff(FreeLinks(m, s, t, a, n), lists', known, j, s + z);
  }

  lemma FreshIsOff(m: Lists, lists: seq<seq<nat>>, s: nat, t: Tree, z: nat)
    requires Fits(t, TOP) && Sound(m, lists, s, TOP, t) && 0 < z < Slots(TOP) && s + Slots(TOP) <= |m.links|
    requires NodeAt(t, TOP, z) && At(t, TOP, z).sub != Leaf(true)
    ensures s + z !in ListedNodes(lists) && m.links[s + z] == UNLINKED
  {
    assert Within(s, TOP, s + z) && s + z - s == z;
    forall j: nat {:trigger On(lists, j, s + z)}
      ensures !On(lists, j, s + z)
    {
      assert !FreeAt(t, TOP, j, z);
    }
    assert Tidy(m, lists, s, z);
    if s + z in ListedNodes(lists) {
      ListedMembers(lists, s + z);
    }
  }

  lemma ListedMembers(lists: seq<seq<nat>>, y: nat)
    requires y in ListedNodes(lists)
    ensures Listed(lists, y)
  {
    var j, i :| 0 <= j < |lists| && 0 <= i < |lists[j]| && lists[j][i] == y;
    assert On(lists, j, y);
  }

  // ---------------------------------------------------------------------------------
  // Agreement after kfree
  // ---------------------------------------------------------------------------------

  /** From agreeing lists, kfree of a taken page leads to agreeing lists exactly if it frees
      the whole block it finds and that block is not joined, except all the way up. */
  lemma FreeAgreesIff(m: Lists, trees: seq<Tree>, r: nat, a: nat, n: nat)
    requires WellFormed(trees) && Agree(m, trees) && r < |trees| && Coalesced(trees[r])
    requires NodeStarts(trees[r], TOP, a) && PageTaken(trees[r], a)
    ensures SLOTS * r + Slots(TOP) <= |m.links| && |m.heads| == TOP + 1
    ensures Agree(FreeLinks(m, SLOTS * r, trees[r], a, n), trees[r := Free(trees[r], TOP, a, n)]) <==>
            FreesCleanly(trees[r], a, n)
  {
    hide FreeLinks;
    hide Coalesced;
    hide PageTaken;
    hide NodeStarts;
    hide TopSlot;
    hide Free;
    var lists :| ListsSound(m, lists, trees) && ListsComplete(lists, trees);
    hide ListsSound;
    hide ListsComplete;
    RootKept(m, lists, trees, r, a, n);
    var m', trees' := FreeLinks(m, SLOTS * r, trees[r], a, n), trees[r := Free(trees[r], TOP, a, n)];
    if FreesWhole(trees[r], a, n) {
      WholePushesNothing(m, SLOTS * r, trees[r], a, n);
      var lists' := FreeSound(m, lists, trees, r, a, n);
      if Agree(m', trees') {
        var other :| ListsSound(m', other, trees') && ListsComplete(other, trees');
        SoundAreLists(m', lists', trees');
        SoundAreLists(m', other, trees');
        ListsAreUnique(m', lists', other);
      }
    } else if Agree(m', trees') {
      var other :| ListsSound(m', other, trees') && ListsComplete(other, trees');
      SoundAreLists(m', other, trees');
      PartNotComplete(m, lists, trees, r, a, n, other);
      BlockComplete(other, trees', r);
      assert false;
    }
  }

  lemma SoundAreLists(m: Lists, lists: seq<seq<nat>>, trees: seq<Tree>)
    requires WellFormed(trees) && ListsSound(m, lists, trees)
    ensures AllLists(m, lists)
  {
  }

  lemma BlockComplete(lists: seq<seq<nat>>, trees: seq<Tree>, r: nat)
    requires WellFormed(trees) && ListsComplete(lists, trees) && r < |trees|
    ensures Complete(lists, SLOTS * r, TOP, trees[r])
  {
  }
}

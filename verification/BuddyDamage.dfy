/** What the second push of merge_bnode does to its list: from then on the list's head has a
    predecessor, and nothing else in the same kfree repairs that. */
module BuddyDamage {
  import opened BuddyTree
  import opened BuddyOps
  import opened BuddyRuns
  import opened BuddyMemory
  import opened BuddyLists
  import opened BuddyAgreement
  import opened BuddyHeap
  import opened BuddyFree
  import opened BuddyReturn

  /** List j is damaged.  `own` are the nodes that were on it, `known` all that were listed,
      and `todo` the slots whose nodes may still be unlinked or pushed: the head is none of
      them and has a predecessor, and so has each node of the list among them. */
  ghost predicate Damaged(m: Lists, known: set<nat>, own: set<nat>, j: nat, todo: set<nat>) {
    && |m.heads| == TOP + 1 && j < TOP && own <= known
    && m.heads[j] in own && m.heads[j] !in todo
    && (forall y :: y in known ==> y < |m.links|)
    && m.links[m.heads[j]].prev != NULL
    && (forall y :: y in own ==> Inside(m.links[y], own) && (y in todo ==> m.links[y].prev != NULL))
    && (forall y :: y in known - own ==> Inside(m.links[y], known - own))
    && (forall i :: 0 <= i < TOP && i != j ==> m.heads[i] == NULL || m.heads[i] in known - own)
  }

  ghost predicate Inside(link: Link, nodes: set<nat>) {
    (link.next == NULL || link.next in nodes) && (link.prev == NULL || link.prev in nodes)
  }

  lemma DamagedIsAnchored(m: Lists, known: set<nat>, own: set<nat>, j: nat, todo: set<nat>)
    requires Damaged(m, known, own, j, todo)
    ensures Anchored(m, known)
  {
    forall y | y in known
      ensures Inside(m.links[y], known)
    {
      assert y in own || y in known - own;
    }
  }

  lemma DamagedLess(m: Lists, known: set<nat>, own: set<nat>, j: nat, todo: set<nat>, less: set<nat>)
    requires Damaged(m, known, own, j, todo) && less <= todo
    ensures Damaged(m, known, own, j, less)
  {
  }

  /** A damaged list is no list. */
  lemma DamagedIsNoList(m: Lists, known: set<nat>, own: set<nat>, j: nat, todo: set<nat>, l: seq<nat>)
    requires Damaged(m, known, own, j, todo)
    ensures !IsList(m.links, m.heads[j], l)
  {
    if IsList(m.links, m.heads[j], l) {
      FirstHasNoPred(m.links, m.heads[j], l);
    }
  }

  /** Node y, of level i, is linked only if it was listed, and then on its level's list. */
  ghost predicate OfLevel(m: Lists, known: set<nat>, own: set<nat>, j: nat, i: nat, y: nat) {
    y < |m.links| && (y in known || m.links[y] == UNLINKED) && (y in known ==> (y in own <==> i == j))
  }

  lemma UnlinkDamaged(m: Lists, known: set<nat>, own: set<nat>, j: nat, todo: set<nat>, i: nat, y: nat)
    requires Damaged(m, known, own, j, todo) && i < TOP && OfLevel(m, known, own, j, i, y) && y in todo
    ensures Damaged(Unlink(m, i, y), known, own, j, todo - {y})
  {
    if y !in known {
      UnlinkNothing(m, i, y);
    } else if y in own {
      assert Inside(m.links[y], own) && m.links[y].prev != NULL;
    } else {
      assert Inside(m.links[y], known - own);
    }
  }

  lemma PushDamaged(m: Lists, known: set<nat>, own: set<nat>, j: nat, todo: set<nat>, i: nat, y: nat)
    requires Damaged(m, known, own, j, todo) && i < TOP && OfLevel(m, known, own, j, i, y) && y in todo
    requires y in known
    ensures Damaged(Push(m, i, y), known, own, j, todo - {y})
  {
  }

  lemma RepushDamaged(m: Lists, known: set<nat>, own: set<nat>, j: nat, todo: set<nat>, i: nat, y: nat, free: bool)
    requires Damaged(m, known, own, j, todo) && i < TOP && OfLevel(m, known, own, j, i, y) && y in todo
    ensures Damaged(Repush(m, i, y, free), known, own, j, todo - {y})
  {
    hide Damaged;
    hide Push;
    if free && m.links[y] != UNLINKED {
      PushDamaged(m, known, own, j, todo, i, y);
    } else {
      DamagedLess(m, known, own, j, todo, todo - {y});
    }
  }

  // Two damages of one step.
  lemma MergeStepDamaged(m: Lists, known: set<nat>, own: set<nat>, j: nat, todo: set<nat>,
                         s: nat, k: nat, left: bool, right: bool)
    requires 0 < k <= TOP && s + Slots(k) <= |m.links| && Damaged(m, known, own, j, todo)
    requires OfLevel(m, known, own, j, k - 1, s + 1) && OfLevel(m, known, own, j, k - 1, s + Pages(k))
    requires s + 1 in todo && s + Pages(k) in todo && |m.heads| == TOP + 1
    ensures Damaged(MergeStep(m, s, k, left, right), known, own, j, todo - {s + 1} - {s + Pages(k)})
  {
    hide Damaged;
    hide Unlink;
    hide Repush;
    hide Anchored;
    hide TouchesOnly;
    var l, r := s + 1, s + Pages(k);
    DamagedIsAnchored(m, known, own, j, todo);
    PairApart(k);
    if left && right {
      UnlinkSettled(m, known, k - 1, l);
      UnlinkDamaged(m, known, own, j, todo, k - 1, l);
      OfLevelStays(m, Unlink(m, k - 1, l), known, own, j, k - 1, r);
      UnlinkDamaged(Unlink(m, k - 1, l), known, own, j, todo - {l}, k - 1, r);
    } else {
      RepushSettled(m, known, k - 1, l, left);
      RepushDamaged(m, known, own, j, todo, k - 1, l, left);
      OfLevelStays(m, Repush(m, k - 1, l, left), known, own, j, k - 1, r);
      RepushDamaged(Repush(m, k - 1, l, left), known, own, j, todo - {l}, k - 1, r, right);
    }
  }

  lemma PairApart(k: nat)
    requires k > 0
    ensures 1 < Pages(k)
  {
  }

  lemma OfLevelStays(m: Lists, m': Lists, known: set<nat>, own: set<nat>, j: nat, i: nat, y: nat)
    requires OfLevel(m, known, own, j, i, y) && TouchesOnly(m, m', known)
    ensures OfLevel(m', known, own, j, i, y)
  {
  }

  /** The slots below the node in slot s. */
  ghost function Inner(s: nat, k: nat): set<nat> {
    set y: nat | s < y < s + Slots(k) && Within(s, k, y) :: y
  }

  /** Every node of the tree below its root is linked only if it was listed, on its level. */
  ghost predicate Levelled(m: Lists, known: set<nat>, own: set<nat>, j: nat, s: nat, k: nat, t: Tree)
    requires Fits(t, k)
  {
    forall x: nat :: NodeAt(t, k, x) && x > 0 ==> OfLevel(m, known, own, j, At(t, k, x).level, s + x)
  }

  lemma LevelledHalves(m: Lists, known: set<nat>, own: set<nat>, j: nat, s: nat, k: nat, t: Tree)
    requires Fits(t, k) && t.Node? && Levelled(m, known, own, j, s, k, t)
    ensures Levelled(m, known, own, j, s + 1, k - 1, t.left)
    ensures Levelled(m, known, own, j, s + Pages(k), k - 1, t.right)
    ensures OfLevel(m, known, own, j, k - 1, s + 1) && OfLevel(m, known, own, j, k - 1, s + Pages(k))
  {
    hide OfLevel;
    assert NodeAt(t, k, 1) && NodeAt(t, k, Pages(k));
    assert At(t, k, 1).level == k - 1 && At(t, k, Pages(k)).level == k - 1;
    forall x: nat {:trigger NodeAt(t.left, k - 1, x)} | NodeAt(t.left, k - 1, x) && x > 0
      ensures OfLevel(m, known, own, j, At(t.left, k - 1, x).level, s + 1 + x)
    {
      SlotsInside(t.left, k - 1, x);
      assert NodeAt(t, k, 1 + x) && s + (1 + x) == s + 1 + x;
    }
    forall x: nat {:trigger NodeAt(t.right, k - 1, x)} | NodeAt(t.right, k - 1, x) && x > 0
      ensures OfLevel(m, known, own, j, At(t.right, k - 1, x).level, s + Pages(k) + x)
    {
      assert NodeAt(t, k, Pages(k) + x) && s + (Pages(k) + x) == s + Pages(k) + x;
    }
  }

  lemma LevelledStays(m: Lists, m': Lists, known: set<nat>, own: set<nat>, j: nat, s: nat, k: nat, t: Tree)
    requires Fits(t, k) && Levelled(m, known, own, j, s, k, t) && TouchesOnly(m, m', known)
    ensures Levelled(m', known, own, j, s, k, t)
  {
    hide TouchesOnly;
    forall x: nat | NodeAt(t, k, x) && x > 0
      ensures OfLevel(m', known, own, j, At(t, k, x).level, s + x)
    {
      OfLevelStays(m, m', known, own, j, At(t, k, x).level, s + x);
    }
  }

  lemma LevelledIsSettled(m: Lists, known: set<nat>, own: set<nat>, j: nat, s: nat, k: nat, t: Tree)
    requires Fits(t, k) && Levelled(m, known, own, j, s, k, t)
    ensures Settled(m, known, s, k, t)
  {
  }

  lemma InnerHalves(s: nat, k: nat)
    requires k > 0
    ensures s + 1 in Inner(s, k) && s + Pages(k) in Inner(s, k)
    ensures Inner(s + 1, k - 1) <= Inner(s, k) && Inner(s + Pages(k), k - 1) <= Inner(s, k)
    ensures Inner(s + 1, k - 1) !! Inner(s + Pages(k), k - 1)
    ensures s + 1 !in Inner(s + 1, k - 1) && s + 1 !in Inner(s + Pages(k), k - 1)
    ensures s + Pages(k) !in Inner(s + 1, k - 1) && s + Pages(k) !in Inner(s + Pages(k), k - 1)
  {
    InnerIs(s, k);
    InnerIs(s + 1, k - 1);
    InnerIs(s + Pages(k), k - 1);
  }

  lemma InnerIs(s: nat, k: nat)
    ensures forall y: nat :: y in Inner(s, k) <==> s < y < s + Slots(k)
  {
    forall y: nat | s < y < s + Slots(k)
      ensures y in Inner(s, k)
    {
      assert Within(s, k, y);
    }
  }

  /** Nothing merge_bnode does to a subtree repairs the list. */
  lemma {:induction false} MergeDamaged(m: Lists, known: set<nat>, own: set<nat>, j: nat, todo: set<nat>,
                                        s: nat, k: nat, t: Tree, limit: nat)
    requires Fits(t, k) && k <= TOP && s + Slots(k) <= |m.links| && |m.heads| == TOP + 1
    requires Damaged(m, known, own, j, todo) && Levelled(m, known, own, j, s, k, t) && Inner(s, k) <= todo
    ensures Damaged(MergeLinks(m, s, k, t, limit), known, own, j, todo - Inner(s, k))
    ensures TouchesOnly(m, MergeLinks(m, s, k, t, limit), known)
    decreases k
  {
    hide Damaged;
    hide Levelled;
    hide TouchesOnly;
    hide Anchored;
    hide Settled;
    hide MergeLinks;
    hide MergeStep;
    hide Merge;
    hide Inner;
    hide OfLevel;
    DamagedIsAnchored(m, known, own, j, todo);
    LevelledIsSettled(m, known, own, j, s, k, t);
    MergeSettled(m, known, s, k, t, limit);
    MergeParts(m, s, k, t, limit);
    if t.Leaf? {
      DamagedLess(m, known, own, j, todo, todo - Inner(s, k));
    } else {
      var l, r, half := s + 1, s + Pages(k), Pages(k - 1);
      InnerHalves(s, k);
      LevelledHalves(m, known, own, j, s, k, t);
      MergeDamaged(m, known, own, j, todo, l, k - 1, t.left, limit);
      var m1, todo1 := MergeLinks(m, l, k - 1, t.left, limit), todo - Inner(l, k - 1);
      LevelledStays(m, m1, known, own, j, r, k - 1, t.right);
      Untouched(m1, known);
      var m2, todo2 := m1, todo1;
      if limit > half {
        MergeDamaged(m1, known, own, j, todo1, r, k - 1, t.right, limit - half);
        m2, todo2 := MergeLinks(m1, r, k - 1, t.right, limit - half), todo1 - Inner(r, k - 1);
      }
      TouchesTwice(m, m1, m2, known);
      OfLevelStays(m, m2, known, own, j, k - 1, l);
      OfLevelStays(m, m2, known, own, j, k - 1, r);
      StepDamaged(m2, known, own, j, todo2, s, k, Merge(t.left, k - 1, limit) == Leaf(true),
        (if limit > half then Merge(t.right, k - 1, limit - half) else t.right) == Leaf(true), todo - Inner(s, k));
    }
  }

  lemma StepDamaged(m: Lists, known: set<nat>, own: set<nat>, j: nat, todo: set<nat>,
                    s: nat, k: nat, left: bool, right: bool, rest: set<nat>)
    requires 0 < k <= TOP && s + Slots(k) <= |m.links| && |m.heads| == TOP + 1 && Damaged(m, known, own, j, todo)
    requires OfLevel(m, known, own, j, k - 1, s + 1) && OfLevel(m, known, own, j, k - 1, s + Pages(k))
    requires s + 1 in todo && s + Pages(k) in todo && rest <= todo - Inner(s, k)
    ensures Damaged(MergeStep(m, s, k, left, right), known, own, j, rest)
  {
    hide Damaged;
    hide MergeStep;
    hide OfLevel;
    MergeStepDamaged(m, known, own, j, todo, s, k, left, right);
    InnerHalves(s, k);
    DamagedLess(MergeStep(m, s, k, left, right), known, own, j, todo - {s + 1} - {s + Pages(k)}, rest);
  }

  // ---------------------------------------------------------------------------------
  // The first push damages the list
  // ---------------------------------------------------------------------------------

  ghost function OwnNodes(lists: seq<seq<nat>>, j: nat): set<nat> {
    if j < |lists| then set i | 0 <= i < |lists[j]| :: lists[j][i] else {}
  }

  /** Outside the slots below s, `known` are the listed nodes and `own` those of list j. */
  ghost predicate Recorded(known: set<nat>, own: set<nat>, j: nat, lists: seq<seq<nat>>, s: nat, k: nat) {
    forall y: nat :: y !in Inner(s, k) ==> (y in known <==> Listed(lists, y)) && (y in own <==> On(lists, j, y))
  }

  lemma ListedRecorded(lists: seq<seq<nat>>, j: nat, s: nat, k: nat)
    ensures Recorded(ListedNodes(lists), OwnNodes(lists, j), j, lists, s, k)
  {
    forall y: nat
      ensures y in ListedNodes(lists) <==> Listed(lists, y)
      ensures y in OwnNodes(lists, j) <==> On(lists, j, y)
    {
      if Listed(lists, y) {
        var i: nat :| On(lists, i, y);
        var q :| 0 <= q < |lists[i]| && lists[i][q] == y;
      }
      if y in ListedNodes(lists) {
        ListedMembers(lists, y);
      }
    }
  }

  // The links of a list after one of its nodes, which has a neighbour, was pushed again.
  lemma PushedTwice(m: Lists, j: nat, l: seq<nat>, i: nat, q: nat)
    requires j < |m.heads| && IsList(m.links, m.heads[j], l) && i < |l| && q < |l| && m.links[l[i]] != UNLINKED
    ensures var m' := Push(m, j, l[i]);
            && m'.links[l[q]].prev == (if q == 0 then l[i] else m.links[l[q]].prev)
            && m'.links[l[q]].next == (if q == i then l[0] else m.links[l[q]].next)
            && m'.links[l[q]].prev != NULL
  {
    assert Linked(m.links, l, i) && Linked(m.links, l, q) && Linked(m.links, l, 0);
  }

  lemma PushedElsewhere(m: Lists, j: nat, l: seq<nat>, i: nat)
    requires j < |m.heads| && IsList(m.links, m.heads[j], l) && i < |l|
    ensures var m' := Push(m, j, l[i]);
            && m'.heads == m.heads[j := l[i]] && |m'.links| == |m.links|
            && (forall q :: 0 <= q < |l| ==> l[q] < |m.links|)
            && forall y :: 0 <= y < |m.links| && y !in l ==> m'.links[y] == m.links[y]
  {
  }

  // The nodes of that list afterwards, and all others.
  lemma PushedOwn(m: Lists, lists: seq<seq<nat>>, j: nat, i: nat)
    requires AllLists(m, lists) && j < TOP && i < |lists[j]| && lists[j][i] < |m.links|
    requires m.links[lists[j][i]] != UNLINKED
    ensures var m', own := Push(m, j, lists[j][i]), OwnNodes(lists, j);
            && lists[j][i] in own && m'.heads == m.heads[j := lists[j][i]] && |m'.links| == |m.links|
            && (forall y :: y in own ==> y < |m.links| && Inside(m'.links[y], own) && m'.links[y].prev != NULL)
            && (forall y: nat :: y < |m.links| && y !in own ==> m'.links[y] == m.links[y])
  {
    hide Push;
    hide AllLists;
    hide IsList;
    ListOf(m, lists, j);
    var l, own := lists[j], OwnNodes(lists, j);
    SplitNodes(m, lists, j);
    PushedElsewhere(m, j, l, i);
    forall y | y in own
      ensures y < |m.links| && Push(m, j, l[i]).links[y].prev != NULL && Inside(Push(m, j, l[i]).links[y], own)
    {
      var q :| 0 <= q < |l| && l[q] == y;
      PushedTwice(m, j, l, i, q);
      assert l[i] in own && l[0] in own && Inside(m.links[y], own);
    }
  }

  lemma ListOf(m: Lists, lists: seq<seq<nat>>, j: nat)
    requires AllLists(m, lists) && j < TOP
    ensures |lists| == TOP && |m.heads| == TOP + 1 && IsList(m.links, m.heads[j], lists[j])
  {
  }

  // A second push of a node that has a neighbour.
  lemma PushDamages(m: Lists, lists: seq<seq<nat>>, j: nat, y: nat, todo: set<nat>)
    requires AllLists(m, lists) && j < TOP && On(lists, j, y) && y < |m.links| && m.links[y] != UNLINKED && y !in todo
    ensures Damaged(Push(m, j, y), ListedNodes(lists), OwnNodes(lists, j), j, todo)
  {
    hide Push;
    hide IsList;
    hide ListedNodes;
    hide OwnNodes;
    hide Inside;
    SplitNodes(m, lists, j);
    var i :| 0 <= i < |lists[j]| && lists[j][i] == y;
    PushedOwn(m, lists, j, i);
  }

  // Links of one list's nodes stay inside it, those of the others outside it.
  lemma SplitNodes(m: Lists, lists: seq<seq<nat>>, j: nat)
    requires AllLists(m, lists) && j < TOP
    ensures var known, own := ListedNodes(lists), OwnNodes(lists, j);
            && own <= known && (forall y :: y in known ==> y < |m.links|)
            && (forall y :: y in own ==> Inside(m.links[y], own))
            && (forall y :: y in known - own ==> Inside(m.links[y], known - own))
            && (forall i :: 0 <= i < TOP && i != j ==> m.heads[i] == NULL || m.heads[i] in known - own)
  {
    var known, own := ListedNodes(lists), OwnNodes(lists, j);
    ListedIsAnchored(m, lists);
    forall i, q | 0 <= i < TOP && 0 <= q < |lists[i]|
      ensures lists[i][q] in known && (lists[i][q] in own <==> i == j)
      ensures Inside(m.links[lists[i][q]], if i == j then own else known - own)
    {
      OfOneList(m, lists, j, i, q);
    }
    forall i | 0 <= i < TOP && i != j
      ensures m.heads[i] == NULL || m.heads[i] in known - own
    {
      assert IsList(m.links, m.heads[i], lists[i]);
    }
  }

  lemma OfOneList(m: Lists, lists: seq<seq<nat>>, j: nat, i: nat, q: nat)
    requires AllLists(m, lists) && i < TOP && j < TOP && q < |lists[i]|
    ensures var known, own, y := ListedNodes(lists), OwnNodes(lists, j), lists[i][q];
            y in known && (y in own <==> i == j) && y < |m.links| &&
            Inside(m.links[y], if i == j then own else known - own)
  {
    assert IsList(m.links, m.heads[i], lists[i]) && Linked(m.links, lists[i], q);
    InOwnIff(m, lists, j, i, q);
    if q + 1 < |lists[i]| {
      InOwnIff(m, lists, j, i, q + 1);
    }
    if q > 0 {
      InOwnIff(m, lists, j, i, q - 1);
    }
  }

  lemma InOwnIff(m: Lists, lists: seq<seq<nat>>, j: nat, i: nat, q: nat)
    requires AllLists(m, lists) && i < TOP && j < TOP && q < |lists[i]|
    ensures lists[i][q] in ListedNodes(lists) && (lists[i][q] in OwnNodes(lists, j) <==> i == j)
  {
    ListedRecorded(lists, j, 0, 0);
    assert On(lists, i, lists[i][q]);
    assert lists[i][q] !in Inner(0, 0) by {
      assert Slots(0) == 1;
    }
  }

  // A node outside the damaged block, on its level.
  lemma OfLevelOutside(m: Lists, lists: seq<seq<nat>>, m': Lists, known: set<nat>, own: set<nat>, j: nat,
                       s0: nat, k0: nat, s: nat, k: nat, t: Tree, x: nat)
    requires Fits(t, k) && NodeAt(t, k, x) && k < TOP && s + Slots(k) <= |m.links| && Sound(m, lists, s, k, t)
    requires Recorded(known, own, j, lists, s0, k0) && s + x !in Inner(s0, k0)
    requires TouchesOnly(m, m', ListedNodes(lists))
    ensures OfLevel(m', known, own, j, At(t, k, x).level, s + x)
  {
    SlotsInside(t, k, x);
    var y := s + x;
    assert Within(s, k, y) && y - s == x;
    forall i: nat | On(lists, i, y)
      ensures i == At(t, k, x).level
    {
      assert FreeAt(t, k, i, y - s);
    }
    assert Tidy(m, lists, s, x);
    if y !in known {
      if y in ListedNodes(lists) {
        ListedMembers(lists, y);
      }
    }
  }

  lemma LevelledOutside(m: Lists, lists: seq<seq<nat>>, m': Lists, known: set<nat>, own: set<nat>, j: nat,
                        s0: nat, k0: nat, s: nat, k: nat, t: Tree)
    requires Fits(t, k) && k < TOP && s + Slots(k) <= |m.links| && Sound(m, lists, s, k, t)
    requires Recorded(known, own, j, lists, s0, k0) && Inner(s, k) !! Inner(s0, k0)
    requires TouchesOnly(m, m', ListedNodes(lists))
    ensures Levelled(m', known, own, j, s, k, t)
  {
    hide Sound;
    hide Recorded;
    hide TouchesOnly;
    hide OfLevel;
    hide Inner;
    forall x: nat | NodeAt(t, k, x) && x > 0
      ensures OfLevel(m', known, own, j, At(t, k, x).level, s + x)
    {
      SlotsInside(t, k, x);
      InnerIs(s, k);
      assert s + x in Inner(s, k);
      OfLevelOutside(m, lists, m', known, own, j, s0, k0, s, k, t, x);
    }
  }

  lemma RootOutside(m: Lists, lists: seq<seq<nat>>, m': Lists, known: set<nat>, own: set<nat>, j: nat,
                    s0: nat, k0: nat, s: nat, k: nat, t: Tree)
    requires Fits(t, k) && k < TOP && s + Slots(k) <= |m.links| && Sound(m, lists, s, k, t)
    requires Recorded(known, own, j, lists, s0, k0) && s !in Inner(s0, k0)
    requires TouchesOnly(m, m', ListedNodes(lists))
    ensures OfLevel(m', known, own, j, k, s)
  {
    hide Sound;
    hide Recorded;
    hide TouchesOnly;
    hide OfLevel;
    RootSlot(t, k, t);
    OfLevelOutside(m, lists, m', known, own, j, s0, k0, s, k, t, 0);
  }

  lemma RecordedWider(known: set<nat>, own: set<nat>, j: nat, m: Lists, lists: seq<seq<nat>>, m1: Lists,
                      lists1: seq<seq<nat>>, s0: nat, k0: nat, s: nat, k: nat)
    requires Recorded(known, own, j, lists1, s0, k0) && Inner(s0, k0) <= Inner(s, k)
    requires forall y: nat, i: nat {:trigger On(lists1, i, y)} {:trigger On(lists, i, y)} ::
               y !in Inner(s, k) ==> (On(lists1, i, y) <==> On(lists, i, y))
    ensures Recorded(known, own, j, lists, s, k)
  {
    forall y: nat | y !in Inner(s, k)
      ensures Listed(lists1, y) <==> Listed(lists, y)
    {
    }
  }

  // Changes in a half are changes below the node.
  lemma OutsideInner(m: Lists, lists: seq<seq<nat>>, m1: Lists, lists1: seq<seq<nat>>, s: nat, k: nat, s1: nat)
    requires k > 0 && ChangesWithin(m, lists, m1, lists1, s1, k - 1) && (s1 == s + 1 || s1 == s + Pages(k))
    ensures forall y: nat, i: nat {:trigger On(lists1, i, y)} {:trigger On(lists, i, y)} ::
              y !in Inner(s, k) ==> (On(lists1, i, y) <==> On(lists, i, y))
  {
    InnerIs(s, k);
    forall y: nat, i: nat | y !in Inner(s, k)
      ensures On(lists1, i, y) <==> On(lists, i, y)
    {
      assert !Within(s1, k - 1, y);
    }
  }

  /** If merge_bnode pushes a child anywhere, a list is damaged in the end. */
  lemma {:induction false} MergeBreaks(m: Lists, lists: seq<seq<nat>>, s: nat, k: nat, t: Tree, limit: nat, todo: set<nat>)
    returns (known: set<nat>, own: set<nat>, j: nat)
    requires Fits(t, k) && k <= TOP && s + Slots(k) <= |m.links| && |m.heads| == TOP + 1
    requires AllLists(m, lists) && Sound(m, lists, s, k, t) && !NeverPushes(m, s, k, t, limit)
    requires todo !! Inner(s, k)
    ensures Damaged(MergeLinks(m, s, k, t, limit), known, own, j, todo) && Recorded(known, own, j, lists, s, k)
    decreases k, 1
  {
    hide Sound;
    hide AllLists;
    hide ChangesWithin;
    hide Trimmed;
    hide Damaged;
    hide Recorded;
    hide MergeLinks;
    hide MergeStep;
    hide Merge;
    hide Inner;
    hide Listed;
    hide Tidy;
    MergeParts(m, s, k, t, limit);
    var l, r, half := s + 1, s + Pages(k), Pages(k - 1);
    SoundLeft(m, lists, s, k, t);
    SoundRight(m, lists, s, k, t);
    InnerHalves(s, k);
    if !NeverPushes(m, l, k - 1, t.left, limit) {
      known, own, j := BreaksLeft(m, lists, s, k, t, limit, todo);
    } else {
      var m1 := MergeLinks(m, l, k - 1, t.left, limit);
      var lists1 := MergeSound(m, lists, l, k - 1, t.left, limit);
      OutsideInner(m, lists, m1, lists1, s, k, l);
      SoundElsewhere(m, lists, m1, lists1, l, k - 1, r, k - 1, t.right);
      if limit > half && !NeverPushes(m1, r, k - 1, t.right, limit - half) {
        known, own, j := BreaksRight(m1, lists1, s, k, t, limit, todo);
        RecordedWider(known, own, j, m, lists, m1, lists1, s, k, s, k);
      } else {
        var m2, lists2, right := m1, lists1, t.right;
        if limit > half {
          m2 := MergeLinks(m1, r, k - 1, t.right, limit - half);
          lists2 := MergeSound(m1, lists1, r, k - 1, t.right, limit - half);
          right := Merge(t.right, k - 1, limit - half);
        } else {
          NothingChanged(m1, lists1, r, k - 1, t.right);
        }
        OutsideInner(m1, lists1, m2, lists2, s, k, r);
        SoundElsewhere(m1, lists1, m2, lists2, r, k - 1, l, k - 1, Merge(t.left, k - 1, limit));
        known, own, j := BreaksHere(m2, lists2, s, k, Merge(t.left, k - 1, limit), right, todo);
        RecordedWider(known, own, j, m, lists, m2, lists2, s, k, s, k);
      }
    }
  }

  // Both halves are done, and a child is pushed.
  lemma BreaksHere(m: Lists, lists: seq<seq<nat>>, s: nat, k: nat, left: Tree, right: Tree, todo: set<nat>)
    returns (known: set<nat>, own: set<nat>, j: nat)
    requires 0 < k <= TOP && s + Slots(k) <= |m.links| && |m.heads| == TOP + 1 && Fits(left, k - 1) && Fits(right, k - 1)
    requires AllLists(m, lists) && Sound(m, lists, s + 1, k - 1, left) && Sound(m, lists, s + Pages(k), k - 1, right)
    requires if left == Leaf(true) then right != Leaf(true) && m.links[s + 1] != UNLINKED
             else right == Leaf(true) && m.links[s + Pages(k)] != UNLINKED
    requires todo !! Inner(s, k)
    ensures Damaged(MergeStep(m, s, k, left == Leaf(true), right == Leaf(true)), known, own, j, todo)
    ensures Recorded(known, own, j, lists, s, k)
  {
    hide AllLists;
    hide Sound;
    hide Damaged;
    hide Recorded;
    hide Push;
    hide Inner;
    known, own, j := ListedNodes(lists), OwnNodes(lists, k - 1), k - 1;
    ListedRecorded(lists, j, s, k);
    InnerHalves(s, k);
    var y := if left == Leaf(true) then s + 1 else s + Pages(k);
    LinkedIsListed(m, lists, y, k - 1);
    PushDamages(m, lists, j, y, todo);
  }

  lemma LinkedIsListed(m: Lists, lists: seq<seq<nat>>, s: nat, k: nat)
    requires k < TOP && s < |m.links| && Sound(m, lists, s, k, Leaf(true)) && m.links[s] != UNLINKED
    ensures On(lists, k, s)
  {
    assert Within(s, k, s) && Tidy(m, lists, s, 0);
    var i: nat :| On(lists, i, s);
    LeafFreeAt(true, k, i, s - s);
  }

  // A push in the left half; the right half and the node itself come after it.
  lemma {:induction false} BreaksLeft(m: Lists, lists: seq<seq<nat>>, s: nat, k: nat, t: Tree, limit: nat, todo: set<nat>)
    returns (known: set<nat>, own: set<nat>, j: nat)
    requires Fits(t, k) && t.Node? && k <= TOP && s + Slots(k) <= |m.links| && |m.heads| == TOP + 1
    requires AllLists(m, lists) && Sound(m, lists, s + 1, k - 1, t.left) && Sound(m, lists, s + Pages(k), k - 1, t.right)
    requires !NeverPushes(m, s + 1, k - 1, t.left, limit) && todo !! Inner(s, k)
    ensures Damaged(MergeLinks(m, s, k, t, limit), known, own, j, todo) && Recorded(known, own, j, lists, s, k)
    decreases k, 0
  {
    hide Sound;
    hide AllLists;
    hide Damaged;
    hide Recorded;
    hide MergeLinks;
    hide MergeStep;
    hide Merge;
    hide Inner;
    hide Levelled;
    hide OfLevel;
    hide TouchesOnly;
    hide Anchored;
    hide Settled;
    hide NeverPushes;
    MergeParts(m, s, k, t, limit);
    InnerHalves(s, k);
    var l, r, half := s + 1, s + Pages(k), Pages(k - 1);
    var m1 := MergeLinks(m, l, k - 1, t.left, limit);
    ListedIsAnchored(m, lists);
    SoundIsSettled(m, lists, l, k - 1, t.left);
    MergeSettled(m, ListedNodes(lists), l, k - 1, t.left, limit);
    var todo1 := todo + {l, r} + Inner(r, k - 1);
    known, own, j := MergeBreaks(m, lists, l, k - 1, t.left, limit, todo1);
    LevelledOutside(m, lists, m1, known, own, j, l, k - 1, r, k - 1, t.right);
    RootOutside(m, lists, m1, known, own, j, l, k - 1, l, k - 1, t.left);
    RootOutside(m, lists, m1, known, own, j, l, k - 1, r, k - 1, t.right);
    Untouched(m1, known);
    var m2, todo2 := m1, todo1;
    if limit > half {
      MergeDamaged(m1, known, own, j, todo1, r, k - 1, t.right, limit - half);
      m2, todo2 := MergeLinks(m1, r, k - 1, t.right, limit - half), todo1 - Inner(r, k - 1);
    }
    OfLevelStays(m1, m2, known, own, j, k - 1, l);
    OfLevelStays(m1, m2, known, own, j, k - 1, r);
    StepDamaged(m2, known, own, j, todo2, s, k, Merge(t.left, k - 1, limit) == Leaf(true),
      (if limit > half then Merge(t.right, k - 1, limit - half) else t.right) == Leaf(true), todo);
    RecordedWider(known, own, j, m, lists, m, lists, l, k - 1, s, k);
  }

  // A push in the right half; only the node itself comes after it.
  lemma {:induction false} BreaksRight(m1: Lists, lists1: seq<seq<nat>>, s: nat, k: nat, t: Tree, limit: nat, todo: set<nat>)
    returns (known: set<nat>, own: set<nat>, j: nat)
    requires Fits(t, k) && t.Node? && k <= TOP && s + Slots(k) <= |m1.links| && |m1.heads| == TOP + 1
    requires AllLists(m1, lists1) && limit > Pages(k - 1)
    requires Sound(m1, lists1, s + 1, k - 1, Merge(t.left, k - 1, limit)) && Sound(m1, lists1, s + Pages(k), k - 1, t.right)
    requires !NeverPushes(m1, s + Pages(k), k - 1, t.right, limit - Pages(k - 1)) && todo !! Inner(s, k)
    ensures var m2 := MergeLinks(m1, s + Pages(k), k - 1, t.right, limit - Pages(k - 1));
            Damaged(MergeStep(m2, s, k, Merge(t.left, k - 1, limit) == Leaf(true),
                              Merge(t.right, k - 1, limit - Pages(k - 1)) == Leaf(true)), known, own, j, todo)
    ensures Recorded(known, own, j, lists1, s, k)
    decreases k, 0
  {
    hide Sound;
    hide AllLists;
    hide Damaged;
    hide Recorded;
    hide MergeLinks;
    hide MergeStep;
    hide Merge;
    hide Inner;
    hide Levelled;
    hide OfLevel;
    hide TouchesOnly;
    hide Anchored;
    hide Settled;
    hide NeverPushes;
    InnerHalves(s, k);
    var l, r, half := s + 1, s + Pages(k), Pages(k - 1);
    var m2 := MergeLinks(m1, r, k - 1, t.right, limit - half);
    ListedIsAnchored(m1, lists1);
    SoundIsSettled(m1, lists1, r, k - 1, t.right);
    MergeSettled(m1, ListedNodes(lists1), r, k - 1, t.right, limit - half);
    known, own, j := MergeBreaks(m1, lists1, r, k - 1, t.right, limit - half, todo + {l, r});
    RootOutside(m1, lists1, m2, known, own, j, r, k - 1, l, k - 1, Merge(t.left, k - 1, limit));
    RootOutside(m1, lists1, m2, known, own, j, r, k - 1, r, k - 1, t.right);
    StepDamaged(m2, known, own, j, todo + {l, r}, s, k, Merge(t.left, k - 1, limit) == Leaf(true),
      Merge(t.right, k - 1, limit - half) == Leaf(true), todo);
    RecordedWider(known, own, j, m1, lists1, m1, lists1, r, k - 1, s, k);
  }

  // ---------------------------------------------------------------------------------
  // kfree
  // ---------------------------------------------------------------------------------

  /** Some well formed lists hold only free blocks, each on the list of its level. */
  ghost predicate HasLists(m: Lists, trees: seq<Tree>)
    requires WellFormed(trees)
  {
    exists lists :: ListsSound(m, lists, trees)
  }

  /** From sound lists, kfree of a taken page leads to sound lists exactly if it pushes no
      child: the list of a child that is pushed does not recover within the same call. */
  lemma FreeSoundIff(m: Lists, lists: seq<seq<nat>>, trees: seq<Tree>, r: nat, a: nat, n: nat)
    requires WellFormed(trees) && ListsSound(m, lists, trees) && r < |trees| && Coalesced(trees[r])
    requires NodeStarts(trees[r], TOP, a) && PageTaken(trees[r], a)
    ensures SLOTS * r + Slots(TOP) <= |m.links| && |m.heads| == TOP + 1
    ensures HasLists(FreeLinks(m, SLOTS * r, trees[r], a, n), trees[r := Free(trees[r], TOP, a, n)]) <==>
            PushesNothing(m, SLOTS * r, trees[r], a, n)
  {
    hide ListsSound;
    hide FreeLinks;
    hide Free;
    hide FreesWhole;
    hide PushesNothing;
    hide PageTaken;
    hide TopSlot;
    RootKept(m, lists, trees, r, a, n);
    var m', trees' := FreeLinks(m, SLOTS * r, trees[r], a, n), trees[r := Free(trees[r], TOP, a, n)];
    if PushesNothing(m, SLOTS * r, trees[r], a, n) {
      var lists' := FreeSound(m, lists, trees, r, a, n);
    } else if HasLists(m', trees') {
      var lists' :| ListsSound(m', lists', trees');
      SoundAreLists(m', lists', trees');
      NotSoundAgain(m, lists, trees, r, a, n, lists');
      assert false;
    }
  }

  lemma NotSoundAgain(m: Lists, lists: seq<seq<nat>>, trees: seq<Tree>, r: nat, a: nat, n: nat, lists': seq<seq<nat>>)
    requires WellFormed(trees) && ListsSound(m, lists, trees) && r < |trees| && Coalesced(trees[r])
    requires NodeStarts(trees[r], TOP, a) && SLOTS * r + Slots(TOP) <= |m.links| && |m.heads| == TOP + 1
    requires !PushesNothing(m, SLOTS * r, trees[r], a, n)
    ensures !AllLists(FreeLinks(m, SLOTS * r, trees[r], a, n), lists')
  {
    hide Sound;
    hide FreeLinks;
    hide Free;
    hide NeverPushes;
    hide TopSlot;
    hide MergeLinks;
    hide Merge;
    hide Damaged;
    var t, s, x := trees[r], SLOTS * r, TopSlot(trees[r], TOP, a);
    var top := At(t, TOP, x);
    if FreesWhole(t, a, n) {
      WholePushesNothing(m, s, t, a, n);
    }
    SlotsInside(t, TOP, x);
    FreeLinksPart(m, s, t, a, n);
    SoundAt(m, lists, s, TOP, t, x);
    var known, own, j := MergeBreaks(m, lists, s + x, top.level, top.sub, n, {});
    if AllLists(FreeLinks(m, s, t, a, n), lists') {
      DamagedLevel(FreeLinks(m, s, t, a, n), known, own, j, {});
      DamagedIsNoList(FreeLinks(m, s, t, a, n), known, own, j, {}, lists'[j]);
    }
  }

  lemma DamagedLevel(m: Lists, known: set<nat>, own: set<nat>, j: nat, todo: set<nat>)
    requires Damaged(m, known, own, j, todo)
    ensures j < TOP && |m.heads| == TOP + 1
  {
  }
}

/** Free lists against trees: which leaves the lists of a block's tree hold, and how the
    list part of kalloc and kfree moves them. */
module BuddyAgreement {
  import opened BuddyTree
  import opened BuddyOps
  import opened BuddyRuns
  import opened BuddyLists
  import opened Sequences

  // ---------------------------------------------------------------------------------
  // What the split loop and the merging write to the links
  // ---------------------------------------------------------------------------------

  /** kalloc's split loop on the allocated leaf in slot s, of level k. */
  function SplitLinks(m: Lists, s: nat, k: nat, n: nat): (m': Lists)
    requires 1 <= n <= Pages(k) && s + Slots(k) <= |m.links| && k < |m.heads|
    ensures m.SameShape(m')
    decreases k
  {
    if n == Pages(k) then m
    else
      var half := Pages(k - 1);
      var m1 := m.Clear(s + 1).Clear(s + Pages(k));
      if n > half then SplitLinks(m1, s + Pages(k), k - 1, n - half)
      else SplitLinks(Push(m1, k - 1, s + Pages(k)), s + 1, k - 1, n)
  }

  /** merge_bnode_nolimit on the tree t in slot s. */
  function CoalesceLinks(m: Lists, s: nat, k: nat, t: Tree): (m': Lists)
    requires Fits(t, k) && s + Slots(k) <= |m.links| && k < |m.heads|
    ensures m.SameShape(m')
    decreases k
  {
    if t.Leaf? then m
    else
      var l, r := s + 1, s + Pages(k);
      var m1 := CoalesceLinks(CoalesceLinks(m, l, k - 1, t.left), r, k - 1, t.right);
      if Coalesce(t.left) == Leaf(true) && Coalesce(t.right) == Leaf(true)
      then Unlink(Unlink(m1, k - 1, l), k - 1, r)
      else m1
  }

  /** merge_bnode on the tree t in slot s. */
  function MergeLinks(m: Lists, s: nat, k: nat, t: Tree, limit: nat): (m': Lists)
    requires Fits(t, k) && s + Slots(k) <= |m.links| && k < |m.heads|
    ensures m.SameShape(m')
    decreases k
  {
    if t.Leaf? then m
    else
      var l, r, half := s + 1, s + Pages(k), Pages(k - 1);
      var m1 := MergeLinks(m, l, k - 1, t.left, limit);
      var m2 := if limit > half then MergeLinks(m1, r, k - 1, t.right, limit - half) else m1;
      var left := Merge(t.left, k - 1, limit);
      var right := if limit > half then Merge(t.right, k - 1, limit - half) else t.right;
      MergeStep(m2, s, k, left == Leaf(true), right == Leaf(true))
  }

  /** merge_bnode's last step on a node whose children are free or not. */
  function MergeStep(m: Lists, s: nat, k: nat, left: bool, right: bool): (m': Lists)
    requires k > 0 && s + Slots(k) <= |m.links| && k < |m.heads|
    ensures m.SameShape(m')
  {
    var l, r := s + 1, s + Pages(k);
    if left && right then Unlink(Unlink(m, k - 1, l), k - 1, r)
    else Repush(Repush(m, k - 1, l, left), k - 1, r, right)
  }

  // What merge_bnode does to a tree and to the links, from the halves.
  lemma MergeParts(m: Lists, s: nat, k: nat, t: Tree, limit: nat)
    requires Fits(t, k) && s + Slots(k) <= |m.links| && k < |m.heads|
    ensures t.Leaf? ==> Merge(t, k, limit) == Leaf(true) && MergeLinks(m, s, k, t, limit) == m
    ensures t.Node? ==>
              var half, left := Pages(k - 1), Merge(t.left, k - 1, limit);
              var right := if limit > half then Merge(t.right, k - 1, limit - half) else t.right;
              var m1 := MergeLinks(m, s + 1, k - 1, t.left, limit);
              var m2 := if limit > half then MergeLinks(m1, s + Pages(k), k - 1, t.right, limit - half) else m1;
              && Merge(t, k, limit) == Join(left, right)
              && MergeLinks(m, s, k, t, limit) == MergeStep(m2, s, k, left == Leaf(true), right == Leaf(true))
  {
  }

  // What joining free halves does to a tree and to the links, from the halves.
  lemma CoalesceParts(m: Lists, s: nat, k: nat, t: Tree)
    requires Fits(t, k) && s + Slots(k) <= |m.links| && k < |m.heads|
    ensures t.Leaf? ==> Coalesce(t) == t && CoalesceLinks(m, s, k, t) == m
    ensures t.Node? ==>
              && Coalesce(t) == Join(Coalesce(t.left), Coalesce(t.right))
              && var m1 := CoalesceLinks(CoalesceLinks(m, s + 1, k - 1, t.left), s + Pages(k), k - 1, t.right);
                 CoalesceLinks(m, s, k, t) ==
                 if Coalesce(t.left) == Leaf(true) && Coalesce(t.right) == Leaf(true)
                 then MergeStep(m1, s, k, true, true) else m1
  {
  }

  // ---------------------------------------------------------------------------------
  // The lists of all levels
  // ---------------------------------------------------------------------------------

  /** Node y is on the list of level j. */
  predicate On(lists: seq<seq<nat>>, j: nat, y: int) {
    j < |lists| && y in lists[j]
  }

  ghost predicate Listed(lists: seq<seq<nat>>, y: int) {
    exists j: nat :: On(lists, j, y)
  }

  /** Every level below the largest has a well formed list, and no node is on two. */
  ghost predicate AllLists(m: Lists, lists: seq<seq<nat>>) {
    && |lists| == TOP && |m.heads| == TOP + 1
    && (forall j :: 0 <= j < TOP ==> IsList(m.links, m.heads[j], lists[j]))
    && (forall j: nat, q: nat, y :: On(lists, j, y) && On(lists, q, y) ==> j == q)
  }

  /** The list of maximal blocks starts where it did. */
  predicate SameTop(m: Lists, m': Lists) {
    m.SameShape(m') && forall q :: TOP <= q < |m.heads| ==> m'.heads[q] == m.heads[q]
  }

  /** From lists to lists', only x was taken off or put on: other nodes stay where they are,
      and unlisted ones keep their links. */
  ghost predicate OthersStay(m: Lists, lists: seq<seq<nat>>, m': Lists, lists': seq<seq<nat>>, x: nat) {
    && SameTop(m, m')
    && (forall j: nat, y :: y != x ==> (On(lists', j, y) <==> On(lists, j, y)))
    && (forall y :: 0 <= y < |m.links| && y != x && !Listed(lists, y) ==> m'.links[y] == m.links[y])
  }

  /** The unlinking code takes x off its list, wherever it is, and leaves it unlinked. */
  lemma UnlinkAll(m: Lists, lists: seq<seq<nat>>, j: nat, x: nat) returns (lists': seq<seq<nat>>)
    requires AllLists(m, lists) && j < TOP && x < |m.links|
    requires On(lists, j, x) || (!Listed(lists, x) && m.links[x] == UNLINKED)
    ensures AllLists(Unlink(m, j, x), lists') && OthersStay(m, lists, Unlink(m, j, x), lists', x)
    ensures !Listed(lists', x) && Unlink(m, j, x).links[x] == UNLINKED
  {
    UnlinkGuard(m, j, lists[j], x);
    if On(lists, j, x) {
      var i :| 0 <= i < |lists[j]| && lists[j][i] == x;
      lists' := lists[j := Without(lists[j], i)];
      UnlinkFromList(m, j, lists[j], i);
      WithoutMembers(lists[j], i);
      OnReplaced(lists, j, lists'[j]);
      ListsReplaced(m, Unlink(m, j, x), lists, lists', j);
      forall q: nat
        ensures !On(lists', q, x)
      {
        assert On(lists, q, x) ==> q == j;
      }
    } else {
      lists' := lists;
      assert !On(lists, j, x);
    }
  }

  // Membership after list j was replaced by l.
  lemma OnReplaced(lists: seq<seq<nat>>, j: nat, l: seq<nat>)
    requires j < |lists|
    ensures forall q: nat, y :: On(lists[j := l], q, y) <==> (if q == j then y in l else On(lists, q, y))
    ensures forall y :: On(lists, j, y) <==> y in lists[j]
  {
    forall q: nat, y
      ensures On(lists[j := l], q, y) <==> (if q == j then y in l else On(lists, q, y))
    {
      if q < |lists| {
        assert lists[j := l][q] == if q == j then l else lists[q];
      }
    }
  }

  lemma WithoutMembers(l: seq<nat>, i: nat)
    requires Distinct(l) && i < |l|
    ensures forall y :: y in Without(l, i) <==> y in l && y != l[i]
  {
    forall y | y in l && y != l[i]
      ensures y in Without(l, i)
    {
      var p :| 0 <= p < |l| && l[p] == y;
      assert Without(l, i)[if p < i then p else p - 1] == y;
    }
  }

  lemma OtherListStays(m: Lists, m': Lists, q: nat, l: seq<nat>)
    requires m.SameShape(m') && q < |m.heads| && m'.heads[q] == m.heads[q]
    requires IsList(m.links, m.heads[q], l)
    requires forall y :: 0 <= y < |m.links| && y in l ==> m'.links[y] == m.links[y]
    ensures IsList(m'.links, m'.heads[q], l)
  {
    forall i | 0 <= i < |l|
      ensures Linked(m'.links, l, i)
    {
      assert Linked(m.links, l, i);
    }
  }

  // An operation on list j leaves the lists of the other levels well formed.
  lemma ListsReplaced(m: Lists, m': Lists, lists: seq<seq<nat>>, lists': seq<seq<nat>>, j: nat)
    requires AllLists(m, lists) && m.SameShape(m') && j < TOP
    requires |lists'| == TOP && lists' == lists[j := lists'[j]] && IsList(m'.links, m'.heads[j], lists'[j])
    requires forall q :: 0 <= q < |m.heads| && q != j ==> m'.heads[q] == m.heads[q]
    requires forall y :: 0 <= y < |m.links| && y !in lists[j] && y !in lists'[j] ==> m'.links[y] == m.links[y]
    requires forall y, q: nat :: On(lists', j, y) && On(lists, q, y) ==> q == j
    ensures AllLists(m', lists')
  {
    forall q | 0 <= q < TOP && q != j
      ensures IsList(m'.links, m'.heads[q], lists'[q])
    {
      forall y | 0 <= y < |m.links| && y in lists[q]
        ensures m'.links[y] == m.links[y]
      {
        assert On(lists, q, y) && !On(lists, j, y) && !On(lists', j, y);
      }
      OtherListStays(m, m', q, lists[q]);
    }
    forall q: nat, p: nat, y | On(lists', q, y) && On(lists', p, y)
      ensures q == p
    {
      if q != j {
        assert On(lists, q, y);
      }
      if p != j {
        assert On(lists, p, y);
      }
    }
  }

  /** Pushing an unlinked node puts it on the list of its level. */
  lemma PushAll(m: Lists, lists: seq<seq<nat>>, j: nat, x: nat) returns (lists': seq<seq<nat>>)
    requires AllLists(m, lists) && j < TOP && x < |m.links|
    requires !Listed(lists, x) && m.links[x] == UNLINKED
    ensures AllLists(Push(m, j, x), lists') && OthersStay(m, lists, Push(m, j, x), lists', x)
    ensures forall q: nat :: On(lists', q, x) <==> q == j
  {
    assert !On(lists, j, x);
    OnReplaced(lists, j, [x] + lists[j]);
    lists' := lists[j := [x] + lists[j]];
    PushOnList(m, j, lists[j], x);
    ListsReplaced(m, Push(m, j, x), lists, lists', j);
  }

  // ---------------------------------------------------------------------------------
  // The lists against one tree
  // ---------------------------------------------------------------------------------

  /** Slot y is one of the slots of a block of level k at slot s. */
  predicate Within(s: nat, k: nat, y: int) {
    s <= y < s + Slots(k)
  }

  /** Node x of the tree in slot s is listed or has null links. */
  ghost predicate Tidy(m: Lists, lists: seq<seq<nat>>, s: nat, x: nat) {
    Listed(lists, s + x) || (s + x < |m.links| && m.links[s + x] == UNLINKED)
  }

  /** In the slots of the tree t, the lists hold only free leaves, each on the list of its
      level, and every node that is not listed has null links. */
  ghost predicate Sound(m: Lists, lists: seq<seq<nat>>, s: nat, k: nat, t: Tree)
    requires Fits(t, k)
  {
    && (forall j: nat, y :: On(lists, j, y) && Within(s, k, y) ==> FreeAt(t, k, j, y - s))
    && (forall x: nat :: NodeAt(t, k, x) && (k < TOP || x > 0) ==> Tidy(m, lists, s, x))
  }

  /** Every free leaf below the largest level is listed. */
  ghost predicate Complete(lists: seq<seq<nat>>, s: nat, k: nat, t: Tree)
    requires Fits(t, k)
  {
    forall j: nat, x: nat :: j < TOP && FreeAt(t, k, j, x) ==> On(lists, j, s + x)
  }

  /** From lists to lists', only slots of the block of level k at s were taken off or put on. */
  ghost predicate ChangesWithin(m: Lists, lists: seq<seq<nat>>, m': Lists, lists': seq<seq<nat>>,
                                s: nat, k: nat) {
    && SameTop(m, m')
    && (forall j: nat, y :: !Within(s, k, y) ==> (On(lists', j, y) <==> On(lists, j, y)))
    && (forall y :: 0 <= y < |m.links| && !Within(s, k, y) && !Listed(lists, y) ==> m'.links[y] == m.links[y])
  }

  lemma SoundElsewhere(m: Lists, lists: seq<seq<nat>>, m': Lists, lists': seq<seq<nat>>,
                       s: nat, k: nat, s0: nat, k0: nat, t0: Tree)
    requires Fits(t0, k0) && Sound(m, lists, s0, k0, t0)
    requires ChangesWithin(m, lists, m', lists', s, k)
    requires s0 + Slots(k0) <= s || s + Slots(k) <= s0
    ensures Sound(m', lists', s0, k0, t0)
  {
    forall x: nat | NodeAt(t0, k0, x) && (k0 < TOP || x > 0)
      ensures Tidy(m', lists', s0, x)
    {
      SlotsInside(t0, k0, x);
      assert Tidy(m, lists, s0, x) && !Within(s, k, s0 + x);
      if Listed(lists, s0 + x) {
        var j: nat :| On(lists, j, s0 + x);
        assert On(lists', j, s0 + x);
      }
    }
  }

  // The lists of a split tree are sound exactly if those of both halves are, and the split
  // node itself is not listed.
  lemma SplitUnlisted(m: Lists, lists: seq<seq<nat>>, s: nat, k: nat, t: Tree)
    requires Fits(t, k) && t.Node? && Sound(m, lists, s, k, t)
    ensures !Listed(lists, s) && (k < TOP ==> Tidy(m, lists, s, 0))
  {
    if Listed(lists, s) {
      assert Within(s, k, s) && s - s == 0;
      assert false;
    }
  }

  lemma SoundLeft(m: Lists, lists: seq<seq<nat>>, s: nat, k: nat, t: Tree)
    requires Fits(t, k) && t.Node? && Sound(m, lists, s, k, t)
    ensures Sound(m, lists, s + 1, k - 1, t.left)
  {
    hide FreeAt;
    var l := s + 1;
    forall j: nat, y | On(lists, j, y) && Within(l, k - 1, y)
      ensures FreeAt(t.left, k - 1, j, y - l)
    {
      assert Within(s, k, y) && FreeAt(t, k, j, y - s);
      NodeFreeAt(t, k, j, y - s);
    }
    forall x: nat | NodeAt(t.left, k - 1, x)
      ensures Tidy(m, lists, l, x)
    {
      SlotsInside(t.left, k - 1, x);
      assert NodeAt(t, k, 1 + x) && Tidy(m, lists, s, 1 + x) && l + x == s + (1 + x);
    }
  }

  lemma SoundRight(m: Lists, lists: seq<seq<nat>>, s: nat, k: nat, t: Tree)
    requires Fits(t, k) && t.Node? && Sound(m, lists, s, k, t)
    ensures Sound(m, lists, s + Pages(k), k - 1, t.right)
  {
    hide FreeAt;
    var r := s + Pages(k);
    forall j: nat, y | On(lists, j, y) && Within(r, k - 1, y)
      ensures FreeAt(t.right, k - 1, j, y - r)
    {
      assert Within(s, k, y) && FreeAt(t, k, j, y - s);
      NodeFreeAt(t, k, j, y - s);
    }
    forall x: nat | NodeAt(t.right, k - 1, x)
      ensures Tidy(m, lists, r, x)
    {
      assert NodeAt(t, k, Pages(k) + x) && Tidy(m, lists, s, Pages(k) + x) && r + x == s + (Pages(k) + x);
    }
  }

  lemma SoundWhole(m: Lists, lists: seq<seq<nat>>, s: nat, k: nat, t: Tree)
    requires Fits(t, k) && t.Node? && k <= TOP
    requires Sound(m, lists, s + 1, k - 1, t.left) && Sound(m, lists, s + Pages(k), k - 1, t.right)
    requires !Listed(lists, s) && (k < TOP ==> Tidy(m, lists, s, 0))
    ensures Sound(m, lists, s, k, t)
  {
    hide FreeAt;
    var l, r := s + 1, s + Pages(k);
    forall j: nat, y | On(lists, j, y) && Within(s, k, y)
      ensures FreeAt(t, k, j, y - s)
    {
      assert y != s;
      NodeFreeAt(t, k, j, y - s);
      if y < r {
        assert Within(l, k - 1, y) && FreeAt(t.left, k - 1, j, y - l);
      } else {
        assert Within(r, k - 1, y) && FreeAt(t.right, k - 1, j, y - r);
      }
    }
    forall x: nat | NodeAt(t, k, x) && (k < TOP || x > 0)
      ensures Tidy(m, lists, s, x)
    {
      if 0 < x < Pages(k) {
        assert Tidy(m, lists, l, x - 1) && l + (x - 1) == s + x;
      } else if x > 0 {
        assert Tidy(m, lists, r, x - Pages(k)) && r + (x - Pages(k)) == s + x;
      }
    }
  }

  // ---------------------------------------------------------------------------------
  // merge_bnode_nolimit keeps the lists sound
  // ---------------------------------------------------------------------------------

  /** In the slots of the tree t', the lists kept exactly what is still a free leaf. */
  ghost predicate Trimmed(lists: seq<seq<nat>>, lists': seq<seq<nat>>, s: nat, k: nat, t': Tree)
    requires Fits(t', k)
  {
    forall j: nat, y :: Within(s, k, y) ==> (On(lists', j, y) <==> On(lists, j, y) && FreeAt(t', k, j, y - s))
  }

  /** Coalescing takes exactly the leaves that disappear off the lists. */
  lemma {:induction false} CoalesceSound(m: Lists, lists: seq<seq<nat>>, s: nat, k: nat, t: Tree)
    returns (lists': seq<seq<nat>>)
    requires Fits(t, k) && k <= TOP && s + Slots(k) <= |m.links| && |m.heads| == TOP + 1
    requires AllLists(m, lists) && Sound(m, lists, s, k, t)
    ensures Fits(Coalesce(t), k)
    ensures var m' := CoalesceLinks(m, s, k, t);
            && AllLists(m', lists') && Sound(m', lists', s, k, Coalesce(t))
            && ChangesWithin(m, lists, m', lists', s, k) && Trimmed(lists, lists', s, k, Coalesce(t))
    decreases k
  {
    hide Sound;
    hide AllLists;
    hide Unlink;
    CoalesceFits(t, k);
    if t.Leaf? {
      lists' := lists;
      LeafStays(m, lists, s, k, t);
    } else {
      var l, r := s + 1, s + Pages(k);
      SplitUnlisted(m, lists, s, k, t);
      SoundLeft(m, lists, s, k, t);
      SoundRight(m, lists, s, k, t);
      var m1 := CoalesceLinks(m, l, k - 1, t.left);
      var lists1 := CoalesceSound(m, lists, l, k - 1, t.left);
      SoundElsewhere(m, lists, m1, lists1, l, k - 1, r, k - 1, t.right);
      var m2 := CoalesceLinks(m1, r, k - 1, t.right);
      var lists2 := CoalesceSound(m1, lists1, r, k - 1, t.right);
      HalvesDone(m, lists, m1, lists1, m2, lists2, s, k, Coalesce(t.left), Coalesce(t.right));
      lists' := JoinStep(m, lists, m2, lists2, s, k, Coalesce(t.left), Coalesce(t.right));
    }
  }

  lemma LeafStays(m: Lists, lists: seq<seq<nat>>, s: nat, k: nat, t: Tree)
    requires t.Leaf? && Sound(m, lists, s, k, t)
    ensures ChangesWithin(m, lists, m, lists, s, k) && Trimmed(lists, lists, s, k, t)
  {
  }

  // Both halves were coalesced, to left and right.
  lemma HalvesDone(m: Lists, lists: seq<seq<nat>>, m1: Lists, lists1: seq<seq<nat>>,
                   m2: Lists, lists2: seq<seq<nat>>, s: nat, k: nat, left: Tree, right: Tree)
    requires 0 < k <= TOP && Fits(left, k - 1) && Fits(right, k - 1)
    requires !Listed(lists, s) && (k < TOP ==> Tidy(m, lists, s, 0))
    requires ChangesWithin(m, lists, m1, lists1, s + 1, k - 1)
    requires ChangesWithin(m1, lists1, m2, lists2, s + Pages(k), k - 1)
    requires Trimmed(lists, lists1, s + 1, k - 1, left)
    requires Trimmed(lists1, lists2, s + Pages(k), k - 1, right)
    requires Sound(m1, lists1, s + 1, k - 1, left)
    requires Sound(m2, lists2, s + Pages(k), k - 1, right)
    ensures ChangesWithin(m, lists, m2, lists2, s, k) && Trimmed(lists, lists2, s, k, Node(left, right))
    ensures Sound(m2, lists2, s, k, Node(left, right))
  {
    hide Sound;
    hide Trimmed;
    hide FreeAt;
    SoundElsewhere(m1, lists1, m2, lists2, s + Pages(k), k - 1, s + 1, k - 1, left);
    HalvesChange(m, lists, m1, lists1, m2, lists2, s, k);
    HalvesTrim(lists, lists1, lists2, m, m1, m2, s, k, left, right);
    SoundWhole(m2, lists2, s, k, Node(left, right));
  }

  // The last step of merge_bnode_nolimit on a node with coalesced halves left and right.
  lemma JoinStep(m: Lists, lists: seq<seq<nat>>, m2: Lists, lists2: seq<seq<nat>>,
                 s: nat, k: nat, left: Tree, right: Tree) returns (lists': seq<seq<nat>>)
    requires 0 < k <= TOP && s + Slots(k) <= |m.links| && m.SameShape(m2)
    requires Fits(left, k - 1) && Fits(right, k - 1) && !Listed(lists, s)
    requires AllLists(m2, lists2) && Sound(m2, lists2, s, k, Node(left, right))
    requires ChangesWithin(m, lists, m2, lists2, s, k) && Trimmed(lists, lists2, s, k, Node(left, right))
    ensures Fits(Join(left, right), k)
    ensures var m' := if left == Leaf(true) && right == Leaf(true)
                      then Unlink(Unlink(m2, k - 1, s + 1), k - 1, s + Pages(k)) else m2;
            && AllLists(m', lists') && Sound(m', lists', s, k, Join(left, right))
            && ChangesWithin(m, lists, m', lists', s, k) && Trimmed(lists, lists', s, k, Join(left, right))
  {
    if left == Leaf(true) && right == Leaf(true) {
      lists' := JoinSound(m2, lists2, s, k);
      JoinChanges(m, lists, m2, lists2, Unlink(Unlink(m2, k - 1, s + 1), k - 1, s + Pages(k)), lists', s, k);
    } else {
      lists' := lists2;
    }
  }

  // Changes in both halves are changes in the whole, and the split node is not touched.
  lemma HalvesChange(m: Lists, lists: seq<seq<nat>>, m1: Lists, lists1: seq<seq<nat>>,
                     m2: Lists, lists2: seq<seq<nat>>, s: nat, k: nat)
    requires k > 0 && !Listed(lists, s)
    requires ChangesWithin(m, lists, m1, lists1, s + 1, k - 1)
    requires ChangesWithin(m1, lists1, m2, lists2, s + Pages(k), k - 1)
    ensures ChangesWithin(m, lists, m2, lists2, s, k)
    ensures !Listed(lists2, s) && (Tidy(m, lists, s, 0) ==> Tidy(m2, lists2, s, 0))
  {
    var l, r := s + 1, s + Pages(k);
    forall j: nat, y | !Within(s, k, y) || y == s
      ensures On(lists2, j, y) <==> On(lists, j, y)
      ensures On(lists1, j, y) <==> On(lists, j, y)
    {
      assert !Within(l, k - 1, y) && !Within(r, k - 1, y);
    }
    forall y | 0 <= y < |m.links| && (!Within(s, k, y) || y == s) && !Listed(lists, y)
      ensures m2.links[y] == m.links[y]
    {
      assert !Within(l, k - 1, y) && !Within(r, k - 1, y) && !Listed(lists1, y);
    }
  }

  lemma HalvesTrim(lists: seq<seq<nat>>, lists1: seq<seq<nat>>, lists2: seq<seq<nat>>,
                   m: Lists, m1: Lists, m2: Lists, s: nat, k: nat, left: Tree, right: Tree)
    requires k > 0 && Fits(left, k - 1) && Fits(right, k - 1) && !Listed(lists, s)
    requires ChangesWithin(m, lists, m1, lists1, s + 1, k - 1)
    requires ChangesWithin(m1, lists1, m2, lists2, s + Pages(k), k - 1)
    requires Trimmed(lists, lists1, s + 1, k - 1, left)
    requires Trimmed(lists1, lists2, s + Pages(k), k - 1, right)
    ensures Trimmed(lists, lists2, s, k, Node(left, right))
  {
    hide FreeAt;
    hide On;
    forall j: nat, y | Within(s, k, y)
      ensures On(lists2, j, y) <==> On(lists, j, y) && FreeAt(Node(left, right), k, j, y - s)
    {
      assert !On(lists, j, s);
      TrimAt(lists, lists1, lists2, s, k, left, right, j, y);
    }
  }

  // One slot y of the whole, after what happened to it in each half.
  lemma TrimAt(lists: seq<seq<nat>>, lists1: seq<seq<nat>>, lists2: seq<seq<nat>>,
               s: nat, k: nat, left: Tree, right: Tree, j: nat, y: int)
    requires k > 0 && Fits(left, k - 1) && Fits(right, k - 1) && Within(s, k, y) && !On(lists, j, s)
    requires if Within(s + 1, k - 1, y) then On(lists1, j, y) <==> On(lists, j, y) && FreeAt(left, k - 1, j, y - (s + 1))
             else On(lists1, j, y) <==> On(lists, j, y)
    requires if Within(s + Pages(k), k - 1, y)
             then On(lists2, j, y) <==> On(lists1, j, y) && FreeAt(right, k - 1, j, y - (s + Pages(k)))
             else On(lists2, j, y) <==> On(lists1, j, y)
    ensures On(lists2, j, y) <==> On(lists, j, y) && FreeAt(Node(left, right), k, j, y - s)
  {
    hide FreeAt;
    hide On;
    hide Within;
    hide Pages;
    hide Slots;
    WithinHalves(s, k, y);
    NodeFreeAt(Node(left, right), k, j, y - s);
  }

  lemma WithinHalves(s: nat, k: nat, y: int)
    requires k > 0 && Within(s, k, y)
    ensures s <= y && (Within(s + 1, k - 1, y) <==> s < y < s + Pages(k))
    ensures Within(s + Pages(k), k - 1, y) <==> s + Pages(k) <= y
    ensures Pages(k) >= 2
  {
  }

  // merge_bnode_nolimit's join: both free children leave the list of their level.
  lemma JoinSound(m: Lists, lists: seq<seq<nat>>, s: nat, k: nat) returns (lists': seq<seq<nat>>)
    requires 0 < k <= TOP && s + Slots(k) <= |m.links|
    requires AllLists(m, lists) && Sound(m, lists, s, k, Node(Leaf(true), Leaf(true)))
    ensures var m' := Unlink(Unlink(m, k - 1, s + 1), k - 1, s + Pages(k));
            && AllLists(m', lists') && Sound(m', lists', s, k, Leaf(true))
            && ChangesWithin(m, lists, m', lists', s, k)
    ensures forall j: nat, y :: Within(s, k, y) ==> !On(lists', j, y)
  {
    var l, r, u := s + 1, s + Pages(k), Node(Leaf(true), Leaf(true));
    assert NodeAt(u, k, 1) && NodeAt(u, k, Pages(k));
    assert Tidy(m, lists, s, 1) && Tidy(m, lists, s, Pages(k));
    OnlyListed(m, lists, s, k, l);
    OnlyListed(m, lists, s, k, r);
    var m1 := Unlink(m, k - 1, l);
    var lists1 := UnlinkAll(m, lists, k - 1, l);
    assert forall j: nat :: On(lists1, j, r) <==> On(lists, j, r);
    assert Listed(lists1, r) <==> Listed(lists, r);
    lists' := UnlinkAll(m1, lists1, k - 1, r);
    JoinDone(m, lists, m1, lists1, Unlink(m1, k - 1, r), lists', s, k);
  }

  lemma JoinDone(m: Lists, lists: seq<seq<nat>>, m1: Lists, lists1: seq<seq<nat>>,
                 m2: Lists, lists2: seq<seq<nat>>, s: nat, k: nat)
    requires 0 < k <= TOP && s + Slots(k) <= |m.links|
    requires Sound(m, lists, s, k, Node(Leaf(true), Leaf(true)))
    requires OthersStay(m, lists, m1, lists1, s + 1) && !Listed(lists1, s + 1)
    requires OthersStay(m1, lists1, m2, lists2, s + Pages(k)) && !Listed(lists2, s + Pages(k))
    ensures forall j: nat, y :: Within(s, k, y) ==> !On(lists2, j, y)
    ensures ChangesWithin(m, lists, m2, lists2, s, k) && Sound(m2, lists2, s, k, Leaf(true))
  {
    hide Sound;
    hide ChangesWithin;
    hide Tidy;
    hide FreeAt;
    SplitUnlisted(m, lists, s, k, Node(Leaf(true), Leaf(true)));
    OnlyPair(m, lists, s, k);
    PairTaken(m, lists, m1, lists1, m2, lists2, s, k);
    NoneThenSound(m, lists, m1, lists1, m2, lists2, s, k);
  }

  lemma OnlyPair(m: Lists, lists: seq<seq<nat>>, s: nat, k: nat)
    requires 0 < k && Sound(m, lists, s, k, Node(Leaf(true), Leaf(true)))
    ensures forall j: nat, y :: Within(s, k, y) && On(lists, j, y) ==> y == s + 1 || y == s + Pages(k)
  {
    hide FreeAt;
    forall j: nat, y | Within(s, k, y) && On(lists, j, y)
      ensures y == s + 1 || y == s + Pages(k)
    {
      PairFreeAt(k, j, y - s);
    }
  }

  lemma PairTaken(m: Lists, lists: seq<seq<nat>>, m1: Lists, lists1: seq<seq<nat>>,
                  m2: Lists, lists2: seq<seq<nat>>, s: nat, k: nat)
    requires 0 < k && !Listed(lists, s)
    requires forall j: nat, y :: Within(s, k, y) && On(lists, j, y) ==> y == s + 1 || y == s + Pages(k)
    requires OthersStay(m, lists, m1, lists1, s + 1) && !Listed(lists1, s + 1)
    requires OthersStay(m1, lists1, m2, lists2, s + Pages(k)) && !Listed(lists2, s + Pages(k))
    ensures forall j: nat, y :: Within(s, k, y) ==> !On(lists2, j, y)
    ensures ChangesWithin(m, lists, m2, lists2, s, k) && !Listed(lists1, s)
  {
    var l, r := s + 1, s + Pages(k);
    forall y | y != l && y != r
      ensures Listed(lists1, y) <==> Listed(lists, y)
    {
      assert forall j: nat :: On(lists1, j, y) <==> On(lists, j, y);
    }
    assert Within(s, k, s) && Within(s, k, l) && Within(s, k, r) && !On(lists1, 0, l);
  }

  lemma NoneThenSound(m: Lists, lists: seq<seq<nat>>, m1: Lists, lists1: seq<seq<nat>>,
                      m2: Lists, lists2: seq<seq<nat>>, s: nat, k: nat)
    requires 0 < k <= TOP && s + Slots(k) <= |m.links| && !Listed(lists, s) && !Listed(lists1, s)
    requires OthersStay(m, lists, m1, lists1, s + 1) && OthersStay(m1, lists1, m2, lists2, s + Pages(k))
    requires forall j: nat, y :: Within(s, k, y) ==> !On(lists2, j, y)
    requires k < TOP ==> Tidy(m, lists, s, 0)
    ensures Sound(m2, lists2, s, k, Leaf(true))
  {
    SoundLeaf(m2, lists2, s, k, true);
  }

  lemma OnlyListed(m: Lists, lists: seq<seq<nat>>, s: nat, k: nat, y: nat)
    requires k > 0 && Sound(m, lists, s, k, Node(Leaf(true), Leaf(true)))
    requires y == s + 1 || y == s + Pages(k)
    ensures Listed(lists, y) ==> On(lists, k - 1, y)
  {
    assert Within(s, k, y);
    if Listed(lists, y) {
      var j: nat :| On(lists, j, y);
      PairFreeAt(k, j, y - s);
    }
  }

  lemma NodeFreeAt(t: Tree, k: nat, j: nat, x: nat)
    requires Fits(t, k) && t.Node?
    ensures FreeAt(t, k, j, x) <==>
            x != 0 && if x < Pages(k) then FreeAt(t.left, k - 1, j, x - 1) else FreeAt(t.right, k - 1, j, x - Pages(k))
  {
  }

  lemma LeafFreeAt(free: bool, k: nat, j: nat, x: nat)
    ensures FreeAt(Leaf(free), k, j, x) <==> free && x == 0 && j == k
  {
  }

  lemma PairFreeAt(k: nat, j: nat, x: nat)
    requires k > 0
    ensures FreeAt(Node(Leaf(true), Leaf(true)), k, j, x) <==> j == k - 1 && (x == 1 || x == Pages(k))
  {
    NodeFreeAt(Node(Leaf(true), Leaf(true)), k, j, x);
    if 0 < x < Pages(k) {
      LeafFreeAt(true, k - 1, j, x - 1);
    } else if x > 0 {
      LeafFreeAt(true, k - 1, j, x - Pages(k));
    }
  }

  lemma JoinChanges(m: Lists, lists: seq<seq<nat>>, m1: Lists, lists1: seq<seq<nat>>,
                    m2: Lists, lists2: seq<seq<nat>>, s: nat, k: nat)
    requires !Listed(lists, s)
    requires ChangesWithin(m, lists, m1, lists1, s, k) && ChangesWithin(m1, lists1, m2, lists2, s, k)
    requires forall j: nat, y :: Within(s, k, y) ==> !On(lists2, j, y)
    ensures ChangesWithin(m, lists, m2, lists2, s, k) && Trimmed(lists, lists2, s, k, Leaf(true))
  {
    forall y | 0 <= y < |m.links| && !Within(s, k, y) && !Listed(lists, y)
      ensures m2.links[y] == m.links[y]
    {
      assert !Listed(lists1, y);
    }
    forall j: nat, y | Within(s, k, y)
      ensures !(On(lists, j, y) && FreeAt(Leaf(true), k, j, y - s))
    {
    }
  }

  // ---------------------------------------------------------------------------------
  // kalloc keeps the lists sound and complete
  // ---------------------------------------------------------------------------------

  ghost predicate NoneListed(lists: seq<seq<nat>>, s: nat, k: nat) {
    forall j: nat, y :: Within(s, k, y) ==> !On(lists, j, y)
  }

  lemma ChangesTwice(m: Lists, lists: seq<seq<nat>>, m1: Lists, lists1: seq<seq<nat>>,
                     m2: Lists, lists2: seq<seq<nat>>, s: nat, k: nat, s1: nat, k1: nat, s2: nat, k2: nat)
    requires ChangesWithin(m, lists, m1, lists1, s1, k1) && ChangesWithin(m1, lists1, m2, lists2, s2, k2)
    requires s <= s1 && s1 + Slots(k1) <= s + Slots(k) && s <= s2 && s2 + Slots(k2) <= s + Slots(k)
    ensures ChangesWithin(m, lists, m2, lists2, s, k)
  {
    forall y | !Within(s, k, y)
      ensures forall j: nat :: On(lists2, j, y) <==> On(lists, j, y)
      ensures 0 <= y < |m.links| && !Listed(lists, y) ==> m2.links[y] == m.links[y]
    {
      assert !Within(s1, k1, y) && !Within(s2, k2, y);
      assert Listed(lists1, y) <==> Listed(lists, y);
    }
  }

  lemma SoundLeaf(m: Lists, lists: seq<seq<nat>>, s: nat, k: nat, free: bool)
    requires forall j: nat, y :: Within(s, k, y) && On(lists, j, y) ==> y == s && j == k && free
    requires k < TOP ==> Tidy(m, lists, s, 0)
    requires k <= TOP
    ensures Sound(m, lists, s, k, Leaf(free))
  {
  }

  /** Splitting the leaf in slot s into the tree u: links and lists before and after. */
  ghost predicate SplitDone(m: Lists, lists: seq<seq<nat>>, m': Lists, lists': seq<seq<nat>>,
                            s: nat, k: nat, u: Tree)
    requires Fits(u, k)
  {
    && s < |m.links| == |m'.links| && m'.links[s] == m.links[s]
    && AllLists(m', lists') && Sound(m', lists', s, k, u)
    && ChangesWithin(m, lists, m', lists', s, k) && Complete(lists', s, k, u)
  }

  /** kalloc's split loop lists exactly the leaves it gives back. */
  lemma {:induction false} SplitSound(m: Lists, lists: seq<seq<nat>>, s: nat, k: nat, n: nat)
    returns (lists': seq<seq<nat>>)
    requires 1 <= n <= Pages(k) && k <= TOP && s + Slots(k) <= |m.links|
    requires AllLists(m, lists) && NoneListed(lists, s, k) && (k < TOP ==> m.links[s] == UNLINKED)
    ensures SplitDone(m, lists, SplitLinks(m, s, k, n), lists', s, k, Carve(k, n))
    decreases k, 1
  {
    hide SplitDone;
    hide Sound;
    hide AllLists;
    hide ChangesWithin;
    hide Complete;
    hide NoneListed;
    hide Listed;
    hide Tidy;
    hide Push;
    hide Lists.Clear;
    hide SplitLinks;
    hide Carve;
    HeadsCount(m, lists);
    if n == Pages(k) {
      LinksStop(m, s, k);
      lists' := lists;
      KeptWhole(m, lists, s, k);
    } else {
      var m1 := m.Clear(s + 1).Clear(s + Pages(k));
      LinksGoOn(m, s, k, n);
      ClearUnlisted(m, lists, s, k);
      if n > Pages(k - 1) {
        lists' := SplitKeeping(m1, lists, s, k, n);
      } else {
        lists' := SplitGivingBack(m1, lists, s, k, n);
      }
      DoneTwice(m, m1, lists, SplitLinks(m, s, k, n), lists', s, k, Carve(k, n));
    }
  }

  lemma HeadsCount(m: Lists, lists: seq<seq<nat>>)
    requires AllLists(m, lists)
    ensures |m.heads| == TOP + 1
  {
  }

  lemma DoneTwice(m: Lists, m1: Lists, lists: seq<seq<nat>>, m2: Lists, lists2: seq<seq<nat>>, s: nat, k: nat, u: Tree)
    requires Fits(u, k) && SplitDone(m1, lists, m2, lists2, s, k, u) && ChangesWithin(m, lists, m1, lists, s, k)
    requires |m1.links| == |m.links| && s < |m.links| && m1.links[s] == m.links[s]
    ensures SplitDone(m, lists, m2, lists2, s, k, u)
  {
    hide Sound;
    hide AllLists;
    hide ChangesWithin;
    hide Complete;
    ChangesTwice(m, lists, m1, lists, m2, lists2, s, k, s, k, s, k);
  }

  lemma LinksStop(m: Lists, s: nat, k: nat)
    requires k <= TOP && s + Slots(k) <= |m.links| && |m.heads| == TOP + 1
    ensures SplitLinks(m, s, k, Pages(k)) == m && Carve(k, Pages(k)) == Leaf(false)
  {
  }

  // What the split loop does to the links next, and the tree it is carving.
  lemma LinksGoOn(m: Lists, s: nat, k: nat, n: nat)
    requires 1 <= n < Pages(k) && k <= TOP && s + Slots(k) <= |m.links| && |m.heads| == TOP + 1
    ensures k > 0
    ensures var half, m1 := Pages(k - 1), m.Clear(s + 1).Clear(s + Pages(k));
            && m.SameShape(m1)
            && (n > half ==>
                  && SplitLinks(m, s, k, n) == SplitLinks(m1, s + Pages(k), k - 1, n - half)
                  && Carve(k, n) == Node(Leaf(false), Carve(k - 1, n - half)))
            && (n <= half ==>
                  && SplitLinks(m, s, k, n) == SplitLinks(Push(m1, k - 1, s + Pages(k)), s + 1, k - 1, n)
                  && Carve(k, n) == Node(Carve(k - 1, n), Leaf(true)))
  {
  }

  lemma KeptWhole(m: Lists, lists: seq<seq<nat>>, s: nat, k: nat)
    requires k <= TOP && s < |m.links| && NoneListed(lists, s, k) && (k < TOP ==> m.links[s] == UNLINKED)
    requires AllLists(m, lists)
    ensures SplitDone(m, lists, m, lists, s, k, Leaf(false))
  {
    SoundLeaf(m, lists, s, k, false);
  }

  // The turn of the loop that keeps the left half and goes on in the right half.
  lemma {:induction false} SplitKeeping(m: Lists, lists: seq<seq<nat>>, s: nat, k: nat, n: nat)
    returns (lists': seq<seq<nat>>)
    requires 0 < k <= TOP && Pages(k - 1) < n <= Pages(k) && s + Slots(k) <= |m.links|
    requires AllLists(m, lists) && NoneListed(lists, s + Pages(k), k - 1) && m.links[s + Pages(k)] == UNLINKED
    requires Sound(m, lists, s + 1, k - 1, Leaf(false)) && !Listed(lists, s)
    requires k < TOP ==> Tidy(m, lists, s, 0)
    ensures SplitDone(m, lists, SplitLinks(m, s + Pages(k), k - 1, n - Pages(k - 1)), lists', s, k,
                      Node(Leaf(false), Carve(k - 1, n - Pages(k - 1))))
    decreases k, 0
  {
    hide SplitDone;
    hide Sound;
    hide AllLists;
    hide NoneListed;
    hide Listed;
    hide Tidy;
    hide SplitLinks;
    hide Carve;
    HeadsCount(m, lists);
    var r, half := s + Pages(k), Pages(k - 1);
    lists' := SplitSound(m, lists, r, k - 1, n - half);
    KeepingDone(m, lists, SplitLinks(m, r, k - 1, n - half), lists', s, k, Carve(k - 1, n - half));
  }

  lemma KeepingDone(m: Lists, lists: seq<seq<nat>>, m': Lists, lists': seq<seq<nat>>, s: nat, k: nat, u: Tree)
    requires 0 < k <= TOP && Fits(u, k - 1) && SplitDone(m, lists, m', lists', s + Pages(k), k - 1, u)
    requires Sound(m, lists, s + 1, k - 1, Leaf(false)) && !Listed(lists, s) && (k < TOP ==> Tidy(m, lists, s, 0))
    ensures SplitDone(m, lists, m', lists', s, k, Node(Leaf(false), u))
  {
    hide Sound;
    hide AllLists;
    hide ChangesWithin;
    hide Complete;
    hide Listed;
    hide Tidy;
    SplitRight(m, lists, m', lists', s, k, u);
    ChangesWider(m, lists, m', lists', s, k, s + Pages(k), k - 1);
  }

  lemma ChangesWider(m: Lists, lists: seq<seq<nat>>, m': Lists, lists': seq<seq<nat>>,
                     s: nat, k: nat, s1: nat, k1: nat)
    requires ChangesWithin(m, lists, m', lists', s1, k1) && s <= s1 && s1 + Slots(k1) <= s + Slots(k)
    ensures ChangesWithin(m, lists, m', lists', s, k)
  {
    hide Listed;
    forall y | !Within(s, k, y)
      ensures !Within(s1, k1, y)
    {
    }
  }

  // The turn of the loop that gives the right half back and may go on in the left half.
  lemma {:induction false} SplitGivingBack(m: Lists, lists: seq<seq<nat>>, s: nat, k: nat, n: nat)
    returns (lists': seq<seq<nat>>)
    requires 0 < k <= TOP && 1 <= n <= Pages(k - 1) && s + Slots(k) <= |m.links|
    requires AllLists(m, lists) && NoneListed(lists, s, k) && (k < TOP ==> m.links[s] == UNLINKED)
    requires m.links[s + 1] == UNLINKED && m.links[s + Pages(k)] == UNLINKED
    ensures SplitDone(m, lists, SplitLinks(Push(m, k - 1, s + Pages(k)), s + 1, k - 1, n), lists', s, k,
                      Node(Carve(k - 1, n), Leaf(true)))
    decreases k, 0
  {
    hide SplitDone;
    hide Sound;
    hide AllLists;
    hide ChangesWithin;
    hide NoneListed;
    hide Listed;
    hide Tidy;
    hide Push;
    hide SplitLinks;
    hide Carve;
    var l, r := s + 1, s + Pages(k);
    HeadsCount(m, lists);
    RightUnlisted(lists, s, k);
    var m1 := Push(m, k - 1, r);
    var lists1 := PushAll(m, lists, k - 1, r);
    PushedHalf(m, lists, m1, lists1, s, k);
    lists' := SplitSound(m1, lists1, l, k - 1, n);
    GivingBackDone(m, lists, m1, lists1, SplitLinks(m1, l, k - 1, n), lists', s, k, Carve(k - 1, n));
  }

  lemma RightUnlisted(lists: seq<seq<nat>>, s: nat, k: nat)
    requires k > 0 && NoneListed(lists, s, k)
    ensures !Listed(lists, s + Pages(k))
  {
    assert Within(s, k, s + Pages(k));
  }

  lemma GivingBackDone(m: Lists, lists: seq<seq<nat>>, m1: Lists, lists1: seq<seq<nat>>, m': Lists,
                       lists': seq<seq<nat>>, s: nat, k: nat, u: Tree)
    requires 0 < k <= TOP && Fits(u, k - 1) && SplitDone(m1, lists1, m', lists', s + 1, k - 1, u)
    requires ChangesWithin(m, lists, m1, lists1, s, k) && Sound(m1, lists1, s + Pages(k), k - 1, Leaf(true))
    requires !Listed(lists1, s) && (k < TOP ==> Tidy(m1, lists1, s, 0)) && On(lists1, k - 1, s + Pages(k))
    requires |m1.links| == |m.links| && s < |m.links| && m1.links[s] == m.links[s]
    ensures SplitDone(m, lists, m', lists', s, k, Node(u, Leaf(true)))
  {
    hide Sound;
    hide AllLists;
    hide ChangesWithin;
    hide Complete;
    hide Listed;
    hide Tidy;
    SplitLeft(m1, lists1, m', lists', s, k, u);
    ChangesTwice(m, lists, m1, lists1, m', lists', s, k, s, k, s + 1, k - 1);
  }

  // The split loop went on in the left half; the right half is free and listed.
  lemma SplitLeft(m: Lists, lists: seq<seq<nat>>, m': Lists, lists': seq<seq<nat>>, s: nat, k: nat, u: Tree)
    requires 0 < k <= TOP && Fits(u, k - 1)
    requires ChangesWithin(m, lists, m', lists', s + 1, k - 1)
    requires Sound(m', lists', s + 1, k - 1, u) && Sound(m, lists, s + Pages(k), k - 1, Leaf(true))
    requires !Listed(lists, s) && (k < TOP ==> Tidy(m, lists, s, 0))
    requires Complete(lists', s + 1, k - 1, u) && On(lists, k - 1, s + Pages(k))
    ensures Sound(m', lists', s, k, Node(u, Leaf(true))) && Complete(lists', s, k, Node(u, Leaf(true)))
    ensures s < |m.links| ==> m'.links[s] == m.links[s]
  {
    hide Sound;
    hide Complete;
    hide FreeAt;
    SoundElsewhere(m, lists, m', lists', s + 1, k - 1, s + Pages(k), k - 1, Leaf(true));
    NodeStays(m, lists, m', lists', s, k, s + 1);
    SoundWhole(m', lists', s, k, Node(u, Leaf(true)));
    assert !Within(s + 1, k - 1, s + Pages(k));
    CompleteHalf(lists', s, k, u);
  }

  lemma ClearUnlisted(m: Lists, lists: seq<seq<nat>>, s: nat, k: nat)
    requires 0 < k <= TOP && s + Slots(k) <= |m.links|
    requires AllLists(m, lists) && NoneListed(lists, s, k)
    ensures var m1 := m.Clear(s + 1).Clear(s + Pages(k));
            && m.SameShape(m1) && AllLists(m1, lists) && ChangesWithin(m, lists, m1, lists, s, k)
            && m1.links[s + 1] == UNLINKED && m1.links[s + Pages(k)] == UNLINKED
            && m1.links[s] == m.links[s]
            && Sound(m1, lists, s + 1, k - 1, Leaf(false))
            && NoneListed(lists, s + Pages(k), k - 1) && !Listed(lists, s)
            && (m.links[s] == UNLINKED ==> Tidy(m1, lists, s, 0))
  {
    hide Sound;
    hide AllLists;
    hide IsList;
    ClearWrites(m, lists, s, k);
    ClearKeepsLists(m, lists, s, k);
    SoundLeaf(m.Clear(s + 1).Clear(s + Pages(k)), lists, s + 1, k - 1, false);
  }

  lemma ClearWrites(m: Lists, lists: seq<seq<nat>>, s: nat, k: nat)
    requires 0 < k <= TOP && s + Slots(k) <= |m.links| && NoneListed(lists, s, k)
    ensures var m1, l, r := m.Clear(s + 1).Clear(s + Pages(k)), s + 1, s + Pages(k);
            && m.SameShape(m1) && ChangesWithin(m, lists, m1, lists, s, k)
            && m1.links[l] == UNLINKED && m1.links[r] == UNLINKED && m1.links[s] == m.links[s]
            && NoneListed(lists, l, k - 1) && NoneListed(lists, r, k - 1) && !Listed(lists, s)
            && Tidy(m1, lists, l, 0) && (m.links[s] == UNLINKED ==> Tidy(m1, lists, s, 0))
  {
    var l, r := s + 1, s + Pages(k);
    assert Within(s, k, s) && Within(s, k, l) && Within(s, k, r);
    assert m.Clear(l).Clear(r).links == m.links[l := UNLINKED][r := UNLINKED];
  }

  lemma ClearKeepsLists(m: Lists, lists: seq<seq<nat>>, s: nat, k: nat)
    requires 0 < k <= TOP && s + Slots(k) <= |m.links|
    requires AllLists(m, lists) && NoneListed(lists, s, k)
    ensures AllLists(m.Clear(s + 1).Clear(s + Pages(k)), lists)
  {
    var l, r := s + 1, s + Pages(k);
    var m1 := m.Clear(l).Clear(r);
    assert Within(s, k, l) && Within(s, k, r);
    assert m1.links == m.links[l := UNLINKED][r := UNLINKED];
    forall q | 0 <= q < TOP
      ensures IsList(m1.links, m1.heads[q], lists[q])
    {
      assert !On(lists, q, l) && !On(lists, q, r);
      OtherListStays(m, m1, q, lists[q]);
    }
  }

  // A change in one half leaves the split node unlisted.
  lemma NodeStays(m: Lists, lists: seq<seq<nat>>, m': Lists, lists': seq<seq<nat>>, s: nat, k: nat, s1: nat)
    requires k > 0 && s < s1 && ChangesWithin(m, lists, m', lists', s1, k - 1)
    requires !Listed(lists, s) && (k < TOP ==> Tidy(m, lists, s, 0))
    ensures !Listed(lists', s) && (k < TOP ==> Tidy(m', lists', s, 0))
    ensures s < |m.links| ==> m'.links[s] == m.links[s]
  {
    assert !Within(s1, k - 1, s);
    assert Listed(lists', s) <==> Listed(lists, s);
  }

  // The split loop went on in the right half; the left half is allocated.
  lemma SplitRight(m: Lists, lists: seq<seq<nat>>, m': Lists, lists': seq<seq<nat>>, s: nat, k: nat, u: Tree)
    requires 0 < k <= TOP && Fits(u, k - 1)
    requires ChangesWithin(m, lists, m', lists', s + Pages(k), k - 1)
    requires Sound(m, lists, s + 1, k - 1, Leaf(false)) && Sound(m', lists', s + Pages(k), k - 1, u)
    requires !Listed(lists, s) && (k < TOP ==> Tidy(m, lists, s, 0))
    requires Complete(lists', s + Pages(k), k - 1, u)
    ensures Sound(m', lists', s, k, Node(Leaf(false), u)) && Complete(lists', s, k, Node(Leaf(false), u))
    ensures s < |m.links| ==> m'.links[s] == m.links[s]
  {
    hide Sound;
    hide Complete;
    hide FreeAt;
    hide Listed;
    hide Tidy;
    var r := s + Pages(k);
    SoundElsewhere(m, lists, m', lists', r, k - 1, s + 1, k - 1, Leaf(false));
    NodeStays(m, lists, m', lists', s, k, r);
    SoundWhole(m', lists', s, k, Node(Leaf(false), u));
    CompleteRight(lists', s, k, u);
  }

  lemma CompleteRight(lists: seq<seq<nat>>, s: nat, k: nat, u: Tree)
    requires 0 < k <= TOP && Fits(u, k - 1) && Complete(lists, s + Pages(k), k - 1, u)
    ensures Complete(lists, s, k, Node(Leaf(false), u))
  {
    hide FreeAt;
    forall j: nat, x: nat | j < TOP && FreeAt(Node(Leaf(false), u), k, j, x)
      ensures On(lists, j, s + x)
    {
      NodeFreeAt(Node(Leaf(false), u), k, j, x);
      if x < Pages(k) {
        LeafFreeAt(false, k - 1, j, x - 1);
      } else {
        assert (s + Pages(k)) + (x - Pages(k)) == s + x;
      }
    }
  }

  // The split loop pushed the right half; nothing else in the block is listed.
  lemma PushedHalf(m: Lists, lists: seq<seq<nat>>, m': Lists, lists': seq<seq<nat>>, s: nat, k: nat)
    requires 0 < k <= TOP && s + Slots(k) <= |m.links| && NoneListed(lists, s, k)
    requires m.links[s + 1] == UNLINKED && (k < TOP ==> m.links[s] == UNLINKED)
    requires OthersStay(m, lists, m', lists', s + Pages(k))
    requires forall q: nat {:trigger On(lists', q, s + Pages(k))} :: On(lists', q, s + Pages(k)) <==> q == k - 1
    ensures ChangesWithin(m, lists, m', lists', s, k) && NoneListed(lists', s + 1, k - 1)
    ensures m'.links[s] == m.links[s]
    ensures m'.links[s + 1] == UNLINKED && !Listed(lists', s) && (k < TOP ==> Tidy(m', lists', s, 0))
    ensures Sound(m', lists', s + Pages(k), k - 1, Leaf(true)) && On(lists', k - 1, s + Pages(k))
  {
    var l, r := s + 1, s + Pages(k);
    assert Within(s, k, s) && Within(s, k, l) && Within(s, k, r);
    assert !Listed(lists, s) && !Listed(lists, l);
    forall j: nat, y | Within(l, k - 1, y) || y == s
      ensures !On(lists', j, y)
    {
      assert Within(s, k, y) && y != r;
    }
    forall j: nat, y | Within(r, k - 1, y) && On(lists', j, y)
      ensures y == r && j == k - 1
    {
      assert Within(s, k, y);
    }
    assert On(lists', k - 1, r) && r + 0 == r;
    SoundLeaf(m', lists', r, k - 1, true);
  }

  lemma CompleteHalf(lists: seq<seq<nat>>, s: nat, k: nat, u: Tree)
    requires 0 < k <= TOP && Fits(u, k - 1) && Complete(lists, s + 1, k - 1, u)
    requires On(lists, k - 1, s + Pages(k))
    ensures Complete(lists, s, k, Node(u, Leaf(true)))
  {
    hide FreeAt;
    forall j: nat, x: nat | j < TOP && FreeAt(Node(u, Leaf(true)), k, j, x)
      ensures On(lists, j, s + x)
    {
      NodeFreeAt(Node(u, Leaf(true)), k, j, x);
      if x < Pages(k) {
        assert (s + 1) + (x - 1) == s + x;
      } else {
        LeafFreeAt(true, k - 1, j, x - Pages(k));
      }
    }
  }

  /** What holds for a tree holds for every block inside it. */
  lemma {:induction false} SoundAt(m: Lists, lists: seq<seq<nat>>, s: nat, k: nat, t: Tree, x: nat)
    requires Fits(t, k) && NodeAt(t, k, x) && Sound(m, lists, s, k, t)
    ensures Sound(m, lists, s + x, At(t, k, x).level, At(t, k, x).sub)
    decreases k
  {
    hide Sound;
    if x == 0 {
    } else if x < Pages(k) {
      SoundLeft(m, lists, s, k, t);
      SoundAt(m, lists, s + 1, k - 1, t.left, x - 1);
    } else {
      SoundRight(m, lists, s, k, t);
      SoundAt(m, lists, s + Pages(k), k - 1, t.right, x - Pages(k));
    }
  }

  // Changes that stay inside one half.
  lemma LeftChanged(m: Lists, lists: seq<seq<nat>>, m': Lists, lists': seq<seq<nat>>,
                    s: nat, k: nat, t: Tree, u: Tree, s1: nat, k1: nat)
    requires Fits(t, k) && t.Node? && k <= TOP && Fits(u, k - 1) && Sound(m, lists, s, k, t)
    requires ChangesWithin(m, lists, m', lists', s1, k1) && s < s1 && s1 + Slots(k1) <= s + Pages(k)
    requires Sound(m', lists', s + 1, k - 1, u)
    ensures Sound(m', lists', s, k, Node(u, t.right))
  {
    SplitUnlisted(m, lists, s, k, t);
    SoundRight(m, lists, s, k, t);
    SoundElsewhere(m, lists, m', lists', s1, k1, s + Pages(k), k - 1, t.right);
    assert !Within(s1, k1, s) && (Listed(lists', s) <==> Listed(lists, s));
    SoundWhole(m', lists', s, k, Node(u, t.right));
  }

  lemma RightChanged(m: Lists, lists: seq<seq<nat>>, m': Lists, lists': seq<seq<nat>>,
                     s: nat, k: nat, t: Tree, u: Tree, s1: nat, k1: nat)
    requires Fits(t, k) && t.Node? && k <= TOP && Fits(u, k - 1) && Sound(m, lists, s, k, t)
    requires ChangesWithin(m, lists, m', lists', s1, k1) && s + Pages(k) <= s1
    requires Sound(m', lists', s + Pages(k), k - 1, u)
    ensures Sound(m', lists', s, k, Node(t.left, u))
  {
    SplitUnlisted(m, lists, s, k, t);
    SoundLeft(m, lists, s, k, t);
    SoundElsewhere(m, lists, m', lists', s1, k1, s + 1, k - 1, t.left);
    assert !Within(s1, k1, s) && (Listed(lists', s) <==> Listed(lists, s));
    SoundWhole(m', lists', s, k, Node(t.left, u));
  }

  /** Changes inside one block keep the tree's lists sound if they keep the block's sound. */
  lemma {:induction false} ReplaceSound(m: Lists, lists: seq<seq<nat>>, m': Lists, lists': seq<seq<nat>>,
                                        s: nat, k: nat, t: Tree, x: nat, u: Tree, j: nat)
    requires Fits(t, k) && k <= TOP && NodeAt(t, k, x) && At(t, k, x).level == j && Fits(u, j)
    requires Sound(m, lists, s, k, t) && ChangesWithin(m, lists, m', lists', s + x, j)
    requires Sound(m', lists', s + x, j, u)
    ensures Sound(m', lists', s, k, Replace(t, k, x, u))
    decreases k
  {
    hide Sound;
    hide ChangesWithin;
    hide At;
    hide NodeAt;
    hide Replace;
    hide Fits;
    if x == 0 {
      RootSlot(t, k, t);
      RootSlot(t, k, u);
    } else {
      ReplaceHalves(t, k, x, u);
      if x < Pages(k) {
        SlotsInside(t.left, k - 1, x - 1);
        SoundLeft(m, lists, s, k, t);
        assert (s + 1) + (x - 1) == s + x;
        ReplaceSound(m, lists, m', lists', s + 1, k - 1, t.left, x - 1, u, j);
        LeftChanged(m, lists, m', lists', s, k, t, Replace(t.left, k - 1, x - 1, u), s + x, j);
      } else {
        SoundRight(m, lists, s, k, t);
        assert (s + Pages(k)) + (x - Pages(k)) == s + x;
        ReplaceSound(m, lists, m', lists', s + Pages(k), k - 1, t.right, x - Pages(k), u, j);
        RightChanged(m, lists, m', lists', s, k, t, Replace(t.right, k - 1, x - Pages(k), u), s + x, j);
      }
    }
  }

  lemma {:induction false} ReplaceComplete(m: Lists, lists: seq<seq<nat>>, m': Lists, lists': seq<seq<nat>>,
                                           s: nat, k: nat, t: Tree, x: nat, u: Tree)
    requires Fits(t, k) && NodeAt(t, k, x) && Fits(u, At(t, k, x).level)
    requires Complete(lists, s, k, t) && Complete(lists', s + x, At(t, k, x).level, u)
    requires ChangesWithin(m, lists, m', lists', s + x, At(t, k, x).level)
    ensures Complete(lists', s, k, Replace(t, k, x, u))
  {
    var v := Replace(t, k, x, u);
    forall j: nat, y: nat | j < TOP && FreeAt(v, k, j, y)
      ensures On(lists', j, s + y)
    {
      ReplaceFreeAt(t, k, x, u, j, y);
      if Within(x, At(t, k, x).level, y) {
        assert FreeAt(u, At(t, k, x).level, j, y - x) && (s + x) + (y - x) == s + y;
      } else {
        assert FreeAt(t, k, j, y) && !Within(s + x, At(t, k, x).level, s + y);
      }
    }
  }

  lemma {:induction false} ReplaceFreeAt(t: Tree, k: nat, x: nat, u: Tree, j: nat, y: nat)
    requires Fits(t, k) && NodeAt(t, k, x) && Fits(u, At(t, k, x).level)
    ensures Within(x, At(t, k, x).level, y) ==>
              (FreeAt(Replace(t, k, x, u), k, j, y) <==> FreeAt(u, At(t, k, x).level, j, y - x))
    ensures !Within(x, At(t, k, x).level, y) ==> (FreeAt(Replace(t, k, x, u), k, j, y) <==> FreeAt(t, k, j, y))
    decreases k
  {
    hide FreeAt;
    hide At;
    hide NodeAt;
    hide Replace;
    if x == 0 {
      RootSlot(t, k, t);
      RootSlot(t, k, u);
      FreeAtInside(t, k, j, y);
      FreeAtInside(u, k, j, y);
    } else {
      ReplaceHalves(t, k, x, u);
      var v := Replace(t, k, x, u);
      NodeFreeAt(t, k, j, y);
      NodeFreeAt(v, k, j, y);
      if x < Pages(k) {
        SlotsInside(t.left, k - 1, x - 1);
        if 0 < y < Pages(k) {
          ReplaceFreeAt(t.left, k - 1, x - 1, u, j, y - 1);
        }
      } else if y >= Pages(k) {
        ReplaceFreeAt(t.right, k - 1, x - Pages(k), u, j, y - Pages(k));
      }
    }
  }

  lemma FreeAtInside(t: Tree, k: nat, j: nat, x: nat)
    requires Fits(t, k)
    ensures FreeAt(t, k, j, x) ==> x < Slots(k)
  {
    if FreeAt(t, k, j, x) {
      SlotsInside(t, k, x);
    }
  }
}

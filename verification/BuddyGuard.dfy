/** When the guard of merge_bnode's push holds somewhere in a kfree, told from the lists and
    the tree before the call. */
module BuddyGuard {
  import opened BuddyTree
  import opened BuddyOps
  import opened BuddyRuns
  import opened BuddyLists
  import opened BuddyAgreement
  import opened BuddyHeap
  import opened BuddyReturn
  import opened BuddyDamage

  /** Slots of the children that merge_bnode joins in the tree t at slot s. */
  ghost function Joined(s: nat, k: nat, t: Tree, limit: nat): set<nat>
    requires Fits(t, k)
    decreases k
  {
    if t.Leaf? then {}
    else
      var half, left := Pages(k - 1), Merge(t.left, k - 1, limit);
      var right := if limit > half then Merge(t.right, k - 1, limit - half) else t.right;
      Joined(s + 1, k - 1, t.left, limit)
      + (if limit > half then Joined(s + Pages(k), k - 1, t.right, limit - half) else {})
      + (if left == Leaf(true) && right == Leaf(true) then {s + 1, s + Pages(k)} else {})
  }

  /** The node in slot c is listed, and apart from nodes that are gone it is not alone. */
  ghost predicate HasCompany(lists: seq<seq<nat>>, gone: set<nat>, j: nat, c: nat) {
    On(lists, j, c) && exists y: nat :: On(lists, j, y) && y !in gone && y != c
  }

  /** Of the nodes merge_bnode visits in the tree t at slot s and does not join, none has a
      free child that was listed before the call, on a list with another node that is not
      unlinked earlier in the call; `gone` are those that were unlinked before this tree. */
  ghost predicate NoCompany(lists: seq<seq<nat>>, gone: set<nat>, s: nat, k: nat, t: Tree, limit: nat)
    requires Fits(t, k)
    decreases k
  {
    t.Node? ==>
      var l, r, half := s + 1, s + Pages(k), Pages(k - 1);
      var left := Merge(t.left, k - 1, limit);
      var right := if limit > half then Merge(t.right, k - 1, limit - half) else t.right;
      var gone1 := gone + Joined(l, k - 1, t.left, limit);
      var gone2 := gone1 + if limit > half then Joined(r, k - 1, t.right, limit - half) else {};
      && NoCompany(lists, gone, l, k - 1, t.left, limit)
      && (limit > half ==> NoCompany(lists, gone1, r, k - 1, t.right, limit - half))
      && (left == Leaf(true) && right != Leaf(true) ==> !HasCompany(lists, gone2, k - 1, l))
      && (right == Leaf(true) && left != Leaf(true) ==> !HasCompany(lists, gone2, k - 1, r))
  }

  lemma {:induction false} JoinedInside(s: nat, k: nat, t: Tree, limit: nat, y: nat)
    requires Fits(t, k) && y in Joined(s, k, t, limit)
    ensures s < y < s + Slots(k)
    decreases k
  {
    if y in Joined(s + 1, k - 1, t.left, limit) {
      JoinedInside(s + 1, k - 1, t.left, limit, y);
    } else if limit > Pages(k - 1) && y in Joined(s + Pages(k), k - 1, t.right, limit - Pages(k - 1)) {
      JoinedInside(s + Pages(k), k - 1, t.right, limit - Pages(k - 1), y);
    }
  }

  // The same for all of them at once.
  lemma AllInside(inner: set<nat>, s: nat, k: nat, t: Tree, limit: nat)
    requires Fits(t, k) && inner == Joined(s, k, t, limit)
    ensures forall y: nat :: y in inner ==> s < y < s + Slots(k)
  {
    forall y: nat | y in inner
      ensures s < y < s + Slots(k)
    {
      JoinedInside(s, k, t, limit, y);
    }
  }

  // The joined nodes of a split block, from its halves.
  lemma JoinedParts(s: nat, k: nat, t: Tree, limit: nat)
    requires Fits(t, k) && t.Node?
    ensures var half, left := Pages(k - 1), Merge(t.left, k - 1, limit);
            var right := if limit > half then Merge(t.right, k - 1, limit - half) else t.right;
            var r := if limit > half then Joined(s + Pages(k), k - 1, t.right, limit - half) else {};
            && Merge(t, k, limit) == Join(left, right)
            && Joined(s, k, t, limit) == Joined(s + 1, k - 1, t.left, limit) + r +
                 if left == Leaf(true) && right == Leaf(true) then {s + 1, s + Pages(k)} else {}
  {
  }

  /** The free leaves that merge_bnode takes off their lists are the joined children. */
  lemma {:induction false} JoinedIff(s: nat, k: nat, t: Tree, limit: nat, j: nat, x: nat)
    requires Fits(t, k) && FreeAt(t, k, j, x)
    ensures FreeAt(Merge(t, k, limit), k, j, x) <==> s + x !in Joined(s, k, t, limit)
    decreases k
  {
    hide FreeAt;
    hide Merge;
    hide Joined;
    if t.Leaf? {
      JoinedLeaf(s, k, t, limit);
      LeafFreeAt(t.free, k, j, x);
      LeafFreeAt(true, k, j, x);
    } else {
      JoinedParts(s, k, t, limit);
      NodeFreeAt(t, k, j, x);
      var half, left := Pages(k - 1), Merge(t.left, k - 1, limit);
      var right := if limit > half then Merge(t.right, k - 1, limit - half) else t.right;
      JoinFreeAt(left, right, k, j, x);
      if x < Pages(k) {
        JoinedIff(s + 1, k - 1, t.left, limit, j, x - 1);
        assert (s + 1) + (x - 1) == s + x;
        FreeAtInside(t.left, k - 1, j, x - 1);
        if limit > half && s + x in Joined(s + Pages(k), k - 1, t.right, limit - half) {
          JoinedInside(s + Pages(k), k - 1, t.right, limit - half, s + x);
        }
      } else {
        if limit > half {
          JoinedIff(s + Pages(k), k - 1, t.right, limit - half, j, x - Pages(k));
        }
        assert (s + Pages(k)) + (x - Pages(k)) == s + x;
        if s + x in Joined(s + 1, k - 1, t.left, limit) {
          JoinedInside(s + 1, k - 1, t.left, limit, s + x);
        }
      }
    }
  }

  lemma JoinedLeaf(s: nat, k: nat, t: Tree, limit: nat)
    requires t.Leaf?
    ensures Joined(s, k, t, limit) == {} && Merge(t, k, limit) == Leaf(true)
  {
  }

  // Free leaves after the last step: those of the halves, unless these are joined.
  lemma JoinFreeAt(left: Tree, right: Tree, k: nat, j: nat, x: nat)
    requires k > 0 && Fits(left, k - 1) && Fits(right, k - 1) && x > 0
    ensures left == Leaf(true) && right == Leaf(true) ==>
              && !FreeAt(Join(left, right), k, j, x)
              && (x < Pages(k) && FreeAt(left, k - 1, j, x - 1) ==> x == 1)
              && (x >= Pages(k) && FreeAt(right, k - 1, j, x - Pages(k)) ==> x == Pages(k))
    ensures !(left == Leaf(true) && right == Leaf(true)) ==>
              (FreeAt(Join(left, right), k, j, x) <==>
               if x < Pages(k) then FreeAt(left, k - 1, j, x - 1) else FreeAt(right, k - 1, j, x - Pages(k)))
  {
    hide FreeAt;
    if left == Leaf(true) && right == Leaf(true) {
      LeafFreeAt(true, k, j, x);
      if x < Pages(k) {
        LeafFreeAt(true, k - 1, j, x - 1);
      } else {
        LeafFreeAt(true, k - 1, j, x - Pages(k));
      }
    } else {
      NodeFreeAt(Node(left, right), k, j, x);
    }
  }

  /** The lists hold what lists0 held, except what is gone. */
  ghost predicate Remaining(lists0: seq<seq<nat>>, gone: set<nat>, lists: seq<seq<nat>>) {
    forall j: nat, y: nat :: On(lists, j, y) <==> On(lists0, j, y) && y !in gone
  }

  lemma RemainingAfter(lists0: seq<seq<nat>>, gone: set<nat>, m: Lists, lists: seq<seq<nat>>,
                       m1: Lists, lists1: seq<seq<nat>>, s: nat, k: nat, t: Tree, limit: nat)
    requires Fits(t, k) && Remaining(lists0, gone, lists) && Sound(m, lists, s, k, t)
    requires ChangesWithin(m, lists, m1, lists1, s, k) && Trimmed(lists, lists1, s, k, Merge(t, k, limit))
    ensures Remaining(lists0, gone + Joined(s, k, t, limit), lists1)
  {
    hide FreeAt;
    hide Merge;
    hide Joined;
    forall j: nat, y: nat
      ensures On(lists1, j, y) <==> On(lists, j, y) && y !in Joined(s, k, t, limit)
    {
      if Within(s, k, y) {
        if On(lists, j, y) {
          JoinedIff(s, k, t, limit, j, y - s);
        }
      } else if y in Joined(s, k, t, limit) {
        JoinedInside(s, k, t, limit, y);
      }
    }
  }

  // A free child is linked exactly if it is listed with company.
  lemma LinkedIff(m: Lists, lists: seq<seq<nat>>, j: nat, c: nat)
    requires AllLists(m, lists) && j < TOP && c < |m.links| && Sound(m, lists, c, j, Leaf(true))
    ensures m.links[c] != UNLINKED <==> HasCompany(lists, {}, j, c)
  {
    assert Within(c, j, c) && Tidy(m, lists, c, 0);
    forall i: nat | On(lists, i, c)
      ensures i == j
    {
      LeafFreeAt(true, j, i, c - c);
    }
    if On(lists, j, c) {
      var l := lists[j];
      var i :| 0 <= i < |l| && l[i] == c;
      assert IsList(m.links, m.heads[j], l) && Linked(m.links, l, i);
      if |l| > 1 {
        var q := if i > 0 then i - 1 else 1;
        assert On(lists, j, l[q]) && l[q] != c;
      }
    }
  }

  // The company of a child is what is left of its list.
  lemma CompanyLeft(lists0: seq<seq<nat>>, gone: set<nat>, lists: seq<seq<nat>>, j: nat, c: nat)
    requires Remaining(lists0, gone, lists) && c !in gone
    ensures HasCompany(lists, {}, j, c) <==> HasCompany(lists0, gone, j, c)
  {
    if HasCompany(lists, {}, j, c) {
      var y: nat :| On(lists, j, y) && y !in {} && y != c;
      assert On(lists0, j, y);
    }
    if HasCompany(lists0, gone, j, c) {
      var y: nat :| On(lists0, j, y) && y !in gone && y != c;
      assert On(lists, j, y) && y !in {};
    }
  }

  // No node of the tree at slot s is gone.
  ghost predicate Apart(gone: set<nat>, s: nat, k: nat) {
    forall y: nat :: Within(s, k, y) ==> y !in gone
  }

  /** On sound lists, the guard fails throughout merge_bnode exactly if no visited node that
      is not joined has a child with company. */
  lemma {:induction false} NeverPushesIff(lists0: seq<seq<nat>>, gone: set<nat>, m: Lists, lists: seq<seq<nat>>,
                                          s: nat, k: nat, t: Tree, limit: nat)
    requires Fits(t, k) && k <= TOP && s + Slots(k) <= |m.links| && |m.heads| == TOP + 1
    requires AllLists(m, lists) && Sound(m, lists, s, k, t)
    requires Remaining(lists0, gone, lists) && Apart(gone, s, k)
    ensures NeverPushes(m, s, k, t, limit) <==> NoCompany(lists0, gone, s, k, t, limit)
    decreases k
  {
    hide Sound;
    hide AllLists;
    hide MergeLinks;
    hide Merge;
    hide Joined;
    hide HasCompany;
    hide Remaining;
    hide ChangesWithin;
    hide Trimmed;
    hide Apart;
    hide Within;
    if t.Node? {
      var l, r, half := s + 1, s + Pages(k), Pages(k - 1);
      SoundLeft(m, lists, s, k, t);
      SoundRight(m, lists, s, k, t);
      StillApart(gone, s, k, l, t.left, limit);
      NeverPushesIff(lists0, gone, m, lists, l, k - 1, t.left, limit);
      if NeverPushes(m, l, k - 1, t.left, limit) {
        var m1, left := MergeLinks(m, l, k - 1, t.left, limit), Merge(t.left, k - 1, limit);
        var lists1 := MergeSound(m, lists, l, k - 1, t.left, limit);
        RemainingAfter(lists0, gone, m, lists, m1, lists1, l, k - 1, t.left, limit);
        SoundElsewhere(m, lists, m1, lists1, l, k - 1, r, k - 1, t.right);
        var gone1 := gone + Joined(l, k - 1, t.left, limit);
        if limit > half {
          NeverPushesIff(lists0, gone1, m1, lists1, r, k - 1, t.right, limit - half);
          if NeverPushes(m1, r, k - 1, t.right, limit - half) {
            var m2, right := MergeLinks(m1, r, k - 1, t.right, limit - half), Merge(t.right, k - 1, limit - half);
            var lists2 := MergeSound(m1, lists1, r, k - 1, t.right, limit - half);
            RemainingAfter(lists0, gone1, m1, lists1, m2, lists2, r, k - 1, t.right, limit - half);
            SoundElsewhere(m1, lists1, m2, lists2, r, k - 1, l, k - 1, left);
            RootsApart(gone1, s, k, r, t.right, limit - half);
            LastStepIff(lists0, gone1 + Joined(r, k - 1, t.right, limit - half), m2, lists2, s, k, left, right);
          }
        } else {
          assert gone1 + {} == gone1;
          LastStepIff(lists0, gone1, m1, lists1, s, k, left, t.right);
        }
      }
    }
  }

  lemma HalvesWithin(s: nat, k: nat)
    requires k > 0
    ensures forall y: nat :: Within(s + 1, k - 1, y) ==> Within(s, k, y) && !Within(s + Pages(k), k - 1, y)
    ensures forall y: nat :: Within(s + Pages(k), k - 1, y) ==> Within(s, k, y)
    ensures Within(s, k, s + 1) && Within(s, k, s + Pages(k)) && Within(s + Pages(k), k - 1, s + Pages(k))
  {
  }

  // What the left half joins is not in the right half, and no child of s itself.
  lemma StillApart(gone: set<nat>, s: nat, k: nat, l: nat, t: Tree, limit: nat)
    requires k > 0 && l == s + 1 && Fits(t, k - 1) && Apart(gone, s, k)
    ensures Apart(gone, l, k - 1) && Apart(gone + Joined(l, k - 1, t, limit), s + Pages(k), k - 1)
    ensures l !in gone + Joined(l, k - 1, t, limit) && s + Pages(k) !in gone + Joined(l, k - 1, t, limit)
  {
    hide Joined;
    HalvesWithin(s, k);
    AllInside(Joined(l, k - 1, t, limit), l, k - 1, t, limit);
  }

  lemma RootsApart(gone: set<nat>, s: nat, k: nat, r: nat, t: Tree, limit: nat)
    requires k > 0 && r == s + Pages(k) && Fits(t, k - 1) && s + 1 !in gone && r !in gone
    ensures s + 1 !in gone + Joined(r, k - 1, t, limit) && r !in gone + Joined(r, k - 1, t, limit)
  {
    hide Joined;
    AllInside(Joined(r, k - 1, t, limit), r, k - 1, t, limit);
  }

  // Both halves are done: the guard for either child.
  lemma LastStepIff(lists0: seq<seq<nat>>, gone: set<nat>, m: Lists, lists: seq<seq<nat>>,
                    s: nat, k: nat, left: Tree, right: Tree)
    requires 0 < k <= TOP && s + Slots(k) <= |m.links| && Fits(left, k - 1) && Fits(right, k - 1)
    requires AllLists(m, lists) && Remaining(lists0, gone, lists) && s + 1 !in gone && s + Pages(k) !in gone
    requires Sound(m, lists, s + 1, k - 1, left) && Sound(m, lists, s + Pages(k), k - 1, right)
    ensures left == Leaf(true) ==> (m.links[s + 1] != UNLINKED <==> HasCompany(lists0, gone, k - 1, s + 1))
    ensures right == Leaf(true) ==> (m.links[s + Pages(k)] != UNLINKED <==> HasCompany(lists0, gone, k - 1, s + Pages(k)))
  {
    hide Sound;
    hide AllLists;
    hide HasCompany;
    hide Remaining;
    if left == Leaf(true) {
      LinkedIff(m, lists, k - 1, s + 1);
      CompanyLeft(lists0, gone, lists, k - 1, s + 1);
    }
    if right == Leaf(true) {
      LinkedIff(m, lists, k - 1, s + Pages(k));
      CompanyLeft(lists0, gone, lists, k - 1, s + Pages(k));
    }
  }

  /** From sound lists, kfree(a, n) pushes no child if and only if, on the lists before the
      call, no visited node that is not joined has a free child in company. */
  lemma PushesNothingIff(m: Lists, lists: seq<seq<nat>>, trees: seq<Tree>, r: nat, a: nat, n: nat)
    requires WellFormed(trees) && ListsSound(m, lists, trees) && r < |trees| && NodeStarts(trees[r], TOP, a)
    ensures SLOTS * r + Slots(TOP) <= |m.links| && |m.heads| == TOP + 1
    ensures var x := TopSlot(trees[r], TOP, a);
            var top := At(trees[r], TOP, x);
            PushesNothing(m, SLOTS * r, trees[r], a, n) <==> NoCompany(lists, {}, SLOTS * r + x, top.level, top.sub, n)
  {
    hide Sound;
    hide AllLists;
    hide NeverPushes;
    hide NoCompany;
    hide TopSlot;
    hide At;
    hide NodeAt;
    RootKept(m, lists, trees, r, a, n);
    var x := TopSlot(trees[r], TOP, a);
    SoundAt(m, lists, SLOTS * r, TOP, trees[r], x);
    NeverPushesIff(lists, {}, m, lists, SLOTS * r + x, At(trees[r], TOP, x).level, At(trees[r], TOP, x).sub, n);
  }

  /** From sound lists, the lists after kfree of a taken page are well formed exactly if, before
      the call, no visited node that is not joined has a free child in company. */
  lemma KeepsListsIff(m: Lists, lists: seq<seq<nat>>, trees: seq<Tree>, r: nat, a: nat, n: nat)
    requires WellFormed(trees) && ListsSound(m, lists, trees) && r < |trees| && Coalesced(trees[r])
    requires NodeStarts(trees[r], TOP, a) && PageTaken(trees[r], a)
    ensures SLOTS * r + Slots(TOP) <= |m.links| && |m.heads| == TOP + 1
    ensures var x := TopSlot(trees[r], TOP, a);
            var top := At(trees[r], TOP, x);
            HasLists(FreeLinks(m, SLOTS * r, trees[r], a, n), trees[r := Free(trees[r], TOP, a, n)]) <==>
            NoCompany(lists, {}, SLOTS * r + x, top.level, top.sub, n)
  {
    hide ListsSound;
    hide HasLists;
    hide FreeLinks;
    hide Free;
    hide PushesNothing;
    hide NoCompany;
    hide PageTaken;
    hide TopSlot;
    hide At;
    hide NodeAt;
    FreeSoundIff(m, lists, trees, r, a, n);
    PushesNothingIff(m, lists, trees, r, a, n);
  }
}

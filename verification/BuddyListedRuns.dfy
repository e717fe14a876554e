/** Runs on trees and free lists while the lists are well formed: they stay so, and every
    list head is a free block, until a kfree pushes a child that is linked already. */
module BuddyListedRuns {
  import opened BuddyTree
  import opened BuddyOps
  import opened BuddyRuns
  import opened BuddyMemory
  import opened BuddyLists
  import opened BuddyAgreement
  import opened BuddyHeap
  import opened BuddyReturn
  import opened BuddyDamage
  import opened BuddyLinkedRuns

  /** Live blocks are in order and the lists are well formed, but may miss free blocks. */
  ghost predicate ListedInv(s: LinkedHeap) {
    Inv(s.heap) && WellFormed(s.heap.trees) && HasLists(s.links, s.heap.trees)
  }

  /** The call is a kalloc, or a kfree that pushes no child. */
  predicate SafeStep(s: LinkedHeap, op: Op)
    requires WellFormed(s.heap.trees)
  {
    op.KFree? ==>
      && op.index < |s.heap.live|
      && var b := s.heap.live[op.index];
      && b.root < |s.heap.trees| && NodeStarts(s.heap.trees[b.root], TOP, b.page)
      && SLOTS * b.root + Slots(TOP) <= |s.links.links| && |s.links.heads| == TOP + 1
      && PushesNothing(s.links, SLOTS * b.root, s.heap.trees[b.root], b.page, b.count)
  }

  /** A free leaf of level j sits in header slot y. */
  ghost predicate IsFreeBlock(trees: seq<Tree>, j: nat, y: int)
    requires WellFormed(trees)
  {
    exists r: nat, x: nat :: r < |trees| && y == SLOTS * r + x && FreeAt(trees[r], TOP, j, x)
  }

  /** What kalloc finds first on each list is a free block of the list's size. */
  ghost predicate HeadsFree(s: LinkedHeap)
    requires WellFormed(s.heap.trees)
  {
    forall j :: 0 <= j < TOP ==>
      j < |s.links.heads| && (s.links.heads[j] == NULL || IsFreeBlock(s.heap.trees, j, s.links.heads[j]))
  }

  lemma ListedHeadsFree(s: LinkedHeap)
    requires ListedInv(s)
    ensures HeadsFree(s)
  {
    hide Inv;
    hide FreeAt;
    TopSizes();
    var m, trees := s.links, s.heap.trees;
    var lists :| ListsSound(m, lists, trees);
    forall j | 0 <= j < TOP
      ensures m.heads[j] == NULL || IsFreeBlock(trees, j, m.heads[j])
    {
      assert IsList(m.links, m.heads[j], lists[j]);
      if lists[j] != [] {
        var y := lists[j][0];
        var r, x := y / SLOTS, y % SLOTS;
        assert On(lists, j, y) && y == SLOTS * r + x && r < |trees|;
        assert Sound(m, lists, SLOTS * r, TOP, trees[r]) && Within(SLOTS * r, TOP, y) && y - SLOTS * r == x;
      }
    }
  }

  /** A call keeps the lists well formed exactly if it is a kalloc or pushes no child. */
  lemma ListedStepIff(s: LinkedHeap, op: Op, s': LinkedHeap)
    requires ListedInv(s) && LinkedStep(s, op, s')
    ensures Inv(s'.heap) && WellFormed(s'.heap.trees)
    ensures HasLists(s'.links, s'.heap.trees) <==> SafeStep(s, op)
  {
    hide Inv;
    hide HasLists;
    StepKeepsInv(s.heap, op, s'.heap);
    InvTrees(s'.heap);
    match op
    case KAlloc(r, x, n) => AllocListed(s, r, x, n, s');
    case KFree(i) => FreeListed(s, i, s');
  }

  lemma AllocListed(s: LinkedHeap, r: nat, x: nat, n: nat, s': LinkedHeap)
    requires ListedInv(s) && LinkedStep(s, KAlloc(r, x, n), s') && WellFormed(s'.heap.trees)
    ensures HasLists(s'.links, s'.heap.trees)
  {
    hide Inv;
    hide AllocLinks;
    hide Take;
    hide Sound;
    var trees, k := s.heap.trees, At(s.heap.trees[r], TOP, x).level;
    var lists :| ListsSound(s.links, lists, trees);
    if k < TOP {
      assert IsList(s.links.links, s.links.heads[k], lists[k]);
      assert On(lists, k, SLOTS * r + x);
    }
    hide ListsSound;
    var lists' := AllocLinksSound(s.links, lists, trees, r, x, n);
  }

  lemma FreeListed(s: LinkedHeap, i: nat, s': LinkedHeap)
    requires ListedInv(s) && LinkedStep(s, KFree(i), s') && WellFormed(s'.heap.trees)
    ensures HasLists(s'.links, s'.heap.trees) <==> SafeStep(s, KFree(i))
  {
    hide Inv;
    hide FreeLinks;
    hide Free;
    hide PushesNothing;
    var b, trees := s.heap.live[i], s.heap.trees;
    var lists :| ListsSound(s.links, lists, trees);
    hide ListsSound;
    LiveFound(s.heap, i);
    FreeSoundIff(s.links, lists, trees, b.root, b.page, b.count);
  }

  lemma InitListed(s: LinkedHeap)
    requires LinkedInit(s)
    ensures ListedInv(s)
  {
    hide LinkedInit;
    InitLinked(s);
    hide ListsComplete;
    hide Inv;
    hide RightOnly;
    var lists :| ListsSound(s.links, lists, s.heap.trees) && ListsComplete(lists, s.heap.trees);
  }

  /** In every run from memory_init whose calls but the last are kalloc or a kfree that pushes
      no child, the lists are well formed in every state before the last call, whose heads are
      free blocks, and after it exactly if it pushes no child either. */
  lemma {:induction false} SafeRunListed(ss: seq<LinkedHeap>, ops: seq<Op>)
    requires IsLinkedRun(ss, ops)
    requires forall i :: 0 <= i < |ops| - 1 ==> WellFormed(ss[i].heap.trees) && SafeStep(ss[i], ops[i])
    ensures forall i :: 0 <= i < |ops| ==> ListedInv(ss[i]) && HeadsFree(ss[i])
    ensures var e := ss[|ops|];
            && Inv(e.heap) && WellFormed(e.heap.trees)
            && (HasLists(e.links, e.heap.trees) <==> ops == [] || SafeStep(ss[|ops| - 1], ops[|ops| - 1]))
            && (HasLists(e.links, e.heap.trees) ==> HeadsFree(e))
    decreases |ops|
  {
    hide LinkedStep;
    hide SafeStep;
    hide LinkedInit;
    hide Inv;
    hide HasLists;
    hide HeadsFree;
    hide WellFormed;
    InitListed(ss[0]);
    ListedHeadsFree(ss[0]);
    if ops != [] {
      var m := |ops| - 1;
      assert forall i :: 0 <= i < m ==> ops[..m][i] == ops[i];
      SafeRunListed(ss[..m + 1], ops[..m]);
      forall i | 0 <= i < |ops|
        ensures ListedInv(ss[i]) && HeadsFree(ss[i])
      {
        assert ss[..m + 1][i] == ss[i];
        ListedHeadsFree(ss[i]);
      }
      ListedStepIff(ss[m], ops[m], ss[m + 1]);
      if HasLists(ss[m + 1].links, ss[m + 1].heap.trees) {
        ListedHeadsFree(ss[m + 1]);
      }
    }
  }
}

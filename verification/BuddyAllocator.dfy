/** memory_init, kalloc and kfree on the arrays that hold header, links and list heads. */
module BuddyAllocator {
  import opened BuddyTree
  import opened BuddyOps
  import opened BuddyRuns
  import opened BuddyMemory
  import opened BuddyLists
  import opened BuddyAgreement
  import opened BuddyHeap
  import opened BuddyFree
  import opened BuddyReturn
  import opened BuddyDamage
  import opened BuddyLinkedRuns

  // ---------------------------------------------------------------------------------
  // Rounding and list indices
  // ---------------------------------------------------------------------------------

  /** kalloc's rounding: smear the bits of n - 1 to the right and add one. */
  function Smear(n: bv32): bv32 {
    var v := n - 1;
    var v := v | (v >> 1);
    var v := v | (v >> 2);
    var v := v | (v >> 4);
    var v := v | (v >> 8);
    var v := v | (v >> 16);
    v + 1
  }

  /** The smeared number is the smallest power of two that is not below n. */
  lemma SmearRoundsUp(n: bv32)
    requires 1 <= n <= 0x8000_0000
    ensures var p := Smear(n);
            p != 0 && p & (p - 1) == 0 && n <= p && (p == 1 || p >> 1 < n)
  {
  }

  lemma SmearSmall(n: bv32)
    requires 1 <= n <= 32
    ensures Smear(n) == if n == 1 then 1 else if n == 2 then 2 else if n <= 4 then 4
                        else if n <= 8 then 8 else if n <= 16 then 16 else 32
  {
  }

  lemma SmearSmallNat(n: nat)
    requires 1 <= n <= 32
    ensures Smear(n as bv32) as nat == if n == 1 then 1 else if n == 2 then 2 else if n <= 4 then 4
                                       else if n <= 8 then 8 else if n <= 16 then 16 else 32
  {
    SmearSmall(n as bv32);
  }

  /** For up to 32 pages, it is the size of the smallest block with n pages. */
  lemma SmearIsBlockSize(n: nat)
    requires 1 <= n <= PAGES
    ensures Smear(n as bv32) as nat == Pages(LevelFor(n))
  {
    hide Smear;
    SmearSmallNat(n);
    hide LevelFor;
    TopSizes();
    LevelBelow(n, TOP);
    LevelForIs(n);
    assert Pages(1) == 2 && Pages(2) == 4 && Pages(3) == 8 && Pages(4) == 16;
  }

  lemma LevelForIs(n: nat)
    requires 1 <= n <= PAGES
    ensures LevelFor(n) == if n == 1 then 0 else if n == 2 then 1 else if n <= 4 then 2
                           else if n <= 8 then 3 else if n <= 16 then 4 else 5
  {
    assert Pages(1) == 2 && Pages(2) == 4 && Pages(3) == 8 && Pages(4) == 16 && Pages(5) == 32;
    LevelBelow(n, TOP);
  }

  /** Halving a block size down to one page counts its level. */
  method LevelOf(size: nat, ghost k: nat) returns (level: nat)
    requires size == Pages(k)
    ensures level == k
  {
    var order := size;
    level := 0;
    while order != 1
      invariant level <= k && order == Pages(k - level)
      decreases order
    {
      order := order / 2;
      level := level + 1;
    }
  }

  class Allocator {
    const header: array<BuddyNode>
    const links: array<Link>
    const heads: array<int>
    /** First page of the heap body. */
    const body: nat
    ghost var trees: seq<Tree>
    ghost var lists: seq<seq<nat>>
    ghost var known: set<nat>

    ghost function Links(): Lists
      reads this, links, heads
    {
      Lists(links[..], heads[..])
    }

    /** The header holds the trees, and all maximal blocks are linked. */
    ghost predicate Valid()
      reads this, header, links, heads
    {
      && trees != [] && WellFormed(trees)
      && HeaderHolds(header[..], trees, body)
      && RootsLinked(Links(), |trees|)
    }

    /** The free lists below the largest level are sound. */
    ghost predicate Sorted()
      reads this, header, links, heads
      requires Valid()
    {
      ListsSound(Links(), lists, trees)
    }

    /** The free lists hold every free block below the largest level. */
    ghost predicate Full()
      reads this, header, links, heads
      requires Valid()
    {
      ListsComplete(lists, trees)
    }

    /** Whatever shape the lists have, their links lead to nodes. */
    ghost predicate Tame()
      reads this, header, links, heads
      requires Valid()
    {
      Contained(Links(), trees, known)
    }

    /** memory_init, for a heap of `count` maximal blocks.  The slots of smaller nodes are
        not written. */
    constructor (count: nat, body: nat)
      requires count > 0
      ensures Valid() && Sorted() && Full() && Tame()
      ensures this.body == body && |trees| == count && forall i :: 0 <= i < count ==> trees[i] == Leaf(true)
      ensures LinkedInit(LinkedHeap(Heap(trees, []), Links()))
      ensures fresh(header) && fresh(links) && fresh(heads)
    {
      header := new BuddyNode[SLOTS * count];
      links := new Link[SLOTS * count];
      heads := new int[TOP + 1];
      this.body := body;
      new;
      TopSizes();
      forall j | 0 <= j < heads.Length {
        heads[j] := NULL;
      }
      var prev := NULL;
      for i := 0 to count
        invariant forall j :: 0 <= j <= TOP ==> heads[j] == NULL
        invariant prev == if i > 0 then SLOTS * (i - 1) else NULL
        invariant forall q :: 0 <= q < i ==>
                    && header[SLOTS * q] == BuddyNode(PAGES, UNALLOCATED, body + PAGES * q, NULL, NULL)
                    && links[SLOTS * q].prev == RootLink(q, count).prev
                    && (q < i - 1 ==> links[SLOTS * q].next == SLOTS * (q + 1))
                    && (q == i - 1 ==> links[SLOTS * q].next == NULL)
      {
        var node := SLOTS * i;
        header[node] := BuddyNode(PAGES, UNALLOCATED, body + PAGES * i, NULL, NULL);
        if prev != NULL {
          links[prev] := links[prev].(next := node);
        }
        links[node] := Link(NULL, prev);
        prev := node;
      }
      heads[TOP] := 0;
      trees := seq(count, _ => Leaf(true));
      lists := seq(TOP, _ => []);
      InitHeap(header[..], Links(), trees, lists, body);
      SoundIsContained(Links(), lists, trees);
      known := KnownNodes(trees);
    }

    // -------------------------------------------------------------------------------
    // kalloc
    // -------------------------------------------------------------------------------

    method InitBnode(bn: nat, status: Status, kind: nat, page: nat)
      requires bn < header.Length == links.Length
      modifies header, links
      ensures header[..] == old(header[..])[bn := BuddyNode(kind, status, page, NULL, NULL)]
      ensures Links() == old(Links()).Clear(bn)
    {
      header[bn] := BuddyNode(kind, status, page, NULL, NULL);
      links[bn] := UNLINKED;
    }

    method PushFront(level: nat, bn: nat)
      requires level < heads.Length && bn < links.Length && heads[level] < links.Length
      requires heads[level] >= 0 || heads[level] == NULL
      modifies links, heads
      ensures Links() == Push(old(Links()), level, bn)
    {
      links[bn] := links[bn].(next := heads[level]);
      if heads[level] != NULL {
        links[heads[level]] := links[heads[level]].(prev := bn);
      }
      heads[level] := bn;
    }

    /** Some list has a block of at least n pages, or some maximal block is free. */
    ghost predicate Available(n: nat)
      requires 1 <= n
      reads this
    {
      || (exists j :: LevelFor(n) <= j < |lists| && lists[j] != [])
      || (exists i :: 0 <= i < |trees| && trees[i] == Leaf(true))
    }

    /** The first list with a node, from the rounded size up. */
    method FindLevel(pageCount: nat) returns (index: nat, size: nat)
      requires Valid() && Sorted() && 1 <= pageCount <= PAGES
      ensures LevelFor(pageCount) <= index <= TOP && size == Pages(index) && pageCount <= size
      ensures heads[index] != NULL && forall j :: LevelFor(pageCount) <= j < index ==> lists[j] == []
    {
      hide Rep;
      hide Sound;
      hide Smear;
      hide LevelFor;
      TopSizes();
      SmearIsBlockSize(pageCount);
      LevelBelow(pageCount, TOP);
      size := Smear(pageCount as bv32) as nat;
      index := LevelOf(size, LevelFor(pageCount));
      while heads[index] == NULL
        invariant LevelFor(pageCount) <= index <= TOP && size == Pages(index) && pageCount <= size
        invariant forall j :: LevelFor(pageCount) <= j < index ==> lists[j] == []
        decreases TOP - index
      {
        assert IsList(links[..], heads[index], lists[index]);
        index, size := index + 1, size * 2;
      }
    }

    /** kalloc's search: the first non-empty list from the rounded size up, and on the list
        of maximal blocks the first that is not allocated. */
    method FindBlock(pageCount: nat) returns (bn: nat, index: nat, size: nat, ghost root: nat, ghost slot: nat)
      requires Valid() && Sorted() && 1 <= pageCount <= PAGES && Available(pageCount)
      ensures index <= TOP && size == Pages(index) && pageCount <= size
      ensures root < |trees| && bn == SLOTS * root + slot && slot < SLOTS
      ensures FreeAt(trees[root], TOP, index, slot)
      ensures index < TOP ==> heads[index] == bn && On(lists, index, bn)
      ensures index == TOP ==> slot == 0 && forall i :: 0 <= i < root ==> trees[i] != Leaf(true)
      ensures forall j :: LevelFor(pageCount) <= j < index ==> lists[j] == []
    {
      hide Rep;
      hide Sound;
      hide At;
      hide NodeAt;
      hide LevelFor;
      TopSizes();
      index, size := FindLevel(pageCount);
      bn := heads[index];
      if size == PAGES {
        SizeOfTop(index);
        bn, root := FindMaximalBlock();
        slot := 0;
        FreeRoot(TOP);
      } else {
        assert IsList(links[..], heads[index], lists[index]) && On(lists, index, bn);
        root, slot := ListedBlock(index, bn);
      }
    }

    method FindMaximalBlock() returns (bn: nat, ghost root: nat)
      requires Valid() && exists i :: 0 <= i < |trees| && trees[i] == Leaf(true)
      ensures root < |trees| && bn == SLOTS * root && trees[root] == Leaf(true)
      ensures forall i :: 0 <= i < root ==> trees[i] != Leaf(true)
    {
      bn, root := heads[TOP], 0;
      while header[bn].status == ALLOCATED
        invariant root < |trees| && bn == SLOTS * root
        invariant exists i :: root <= i < |trees| && trees[i] == Leaf(true)
        invariant forall i :: 0 <= i < root ==> trees[i] != Leaf(true)
        decreases |trees| - root
      {
        assert Rep(header[..], SLOTS * root, TOP, body + PAGES * root, trees[root]);
        assert links[bn] == RootLink(root, |trees|);
        bn, root := links[bn].next, root + 1;
      }
      assert Rep(header[..], SLOTS * root, TOP, body + PAGES * root, trees[root]);
    }

    lemma ListedBlock(j: nat, y: nat) returns (r: nat, x: nat)
      requires Valid() && Sorted() && On(lists, j, y)
      ensures r < |trees| && y == SLOTS * r + x && x < SLOTS && FreeAt(trees[r], TOP, j, x)
    {
      TopSizes();
      r, x := y / SLOTS, y % SLOTS;
      assert IsList(links[..], heads[j], lists[j]);
      var i :| 0 <= i < |lists[j]| && lists[j][i] == y;
      assert y < |links[..]| && y == SLOTS * r + x && r < |trees|;
      assert Sound(Links(), lists, SLOTS * r, TOP, trees[r]) && Within(SLOTS * r, TOP, y) && y - SLOTS * r == x;
    }

    /** One turn of the split loop: node gets an allocated left child in the next slot and
        a right child with the given status `half` levels of slots further on. */
    method SplitTurn(node: nat, right: nat, status: Status)
      requires header.Length == links.Length && right < header.Length
      requires node < right && header[node].kind >= 2 && right == node + header[node].kind / 2 * 2
      modifies header, links
      ensures header[..] == SplitNode(old(header[..]), node, old(header[node].kind) / 2, status)
      ensures Links() == old(Links()).Clear(node + 1).Clear(right)
    {
      header[node] := header[node].(leafLeft := node + 1, leafRight := right);
      var half, page := header[node].kind / 2, header[node].page;
      InitBnode(node + 1, ALLOCATED, half, page);
      InitBnode(right, status, half, page + half);
    }

    /** kalloc's split loop on the allocated leaf in slot s, of level k. */
    method SplitBlock(s: nat, k: nat, size: nat, pageCount: nat)
      requires size == Pages(k) && 1 <= pageCount <= size && header.Length == links.Length && k <= TOP
      requires s + Slots(k) <= header.Length && HeadsIn(Links())
      requires AllocatedLeaf(header[..], s, k)
      modifies header, links, heads
      ensures header[..] == SplitHeader(old(header[..]), s, k, pageCount)
      ensures Links() == SplitLinks(old(Links()), s, k, pageCount)
    {
      hide SplitHeader;
      hide SplitLinks;
      hide SplitNode;
      hide Push;
      hide Splitting;
      hide HeadsIn;
      hide AllocatedLeaf;
      SplittingStarts(header[..], Links(), s, k, pageCount);
      ghost var h, m := SplitHeader(header[..], s, k, pageCount), SplitLinks(Links(), s, k, pageCount);
      var leafSpace := LeafSpace(size, k);
      var split: nat, initial: nat, node: nat := pageCount, size, s;
      var check: int := k;
      while split != 0
        invariant if split != 0 then
                    && check >= 0 && initial == Pages(check) && leafSpace == initial - 1
                    && Splitting(header[..], Links(), node, check, split, h, m)
                  else header[..] == h && Links() == m
        decreases initial, split
      {
        var left := node + 1;
        var right := left + leafSpace;
        SplittingFacts(header[..], Links(), node, check, split, h, m);
        SplitStep(header[..], Links(), node, check, split, h, m);
        check := check - 1;
        if split == initial {
          split := 0;
          header[node] := header[node].(leafLeft := NULL, leafRight := NULL);
          assert header[..] == h;
        } else if split > initial / 2 {
          SplitTurn(node, right, ALLOCATED);
          split, node := split - initial / 2, right;
        } else {
          SplitTurn(node, right, UNALLOCATED);
          PushFront(check, right);
          node := left;
          if split == initial / 2 {
            split := 0;
          }
        }
        initial, leafSpace := initial / 2, leafSpace / 2;
      }
    }

    /** The chosen block is marked, and unless it is a maximal one taken off its list. */
    method TakeNode(bn: nat, index: nat, size: nat)
      requires bn < header.Length == links.Length && heads.Length == TOP + 1
      requires index <= TOP && size == Pages(index)
      requires index < TOP ==> heads[index] == bn && NULL <= links[bn].next < links.Length
      modifies header, links, heads
      ensures header[..] == old(header[..])[bn := old(header[bn]).(status := ALLOCATED)]
      ensures Links() == if index != TOP then Pop(old(Links()), index, bn) else old(Links())
    {
      TopSizes();
      if size == PAGES {
        SizeOfTop(index);
      }
      header[bn] := header[bn].(status := ALLOCATED);
      if size != PAGES {
        heads[index] := links[bn].next;
        if heads[index] != NULL {
          links[heads[index]] := links[heads[index]].(prev := NULL);
        }
        links[bn] := links[bn].(next := NULL);
        links[bn] := links[bn].(prev := NULL);
      }
    }

    /** Allocates pageCount contiguous pages and returns the first one. */
    method KAlloc(pageCount: nat) returns (page: nat, ghost root: nat, ghost slot: nat)
      requires Valid() && Sorted() && 1 <= pageCount <= PAGES && Available(pageCount)
      modifies this, header, links, heads
      ensures Valid() && Sorted() && Tame() && (old(Full()) ==> Full())
      ensures root < |old(trees)| && NodeAt(old(trees)[root], TOP, slot)
      ensures var spot := At(old(trees)[root], TOP, slot);
              && spot.sub == Leaf(true) && pageCount <= Pages(spot.level)
              && page == body + PAGES * root + spot.page
              && (forall j :: LevelFor(pageCount) <= j < spot.level ==> old(lists)[j] == [])
              && (spot.level == TOP ==> slot == 0 && forall i :: 0 <= i < root ==> old(trees)[i] != Leaf(true))
      ensures trees == old(trees)[root := Take(old(trees)[root], TOP, slot, pageCount)]
      ensures IsKAlloc(old(trees), old(Links()), trees, Links(), root, slot, page - body - PAGES * root, pageCount)
    {
      hide Rep;
      hide Sound;
      hide Complete;
      hide AllLists;
      hide At;
      hide NodeAt;
      hide Take;
      hide SplitHeader;
      hide SplitLinks;
      hide On;
      hide LevelFor;
      hide Contained;
      hide KnownNodes;
      hide HeaderHolds;
      hide ListsSound;
      hide ListsComplete;
      hide RootsLinked;
      hide HeadsIn;
      hide IsKAlloc;
      var bn, index, size;
      bn, index, size, root, slot := FindBlock(pageCount);
      ghost var h, m := header[..], Links();
      SoundRoots(m, lists, trees);
      HeapSlot(h, m, lists, trees, body, root, slot, index);
      TakeNode(bn, index, size);
      SplitBlock(bn, index, size, pageCount);
      page := header[bn].page;
      AllocIsStep(m, trees, root, slot, pageCount);
      lists := AllocDone(h, m, lists, trees, body, root, slot, index, pageCount);
      trees := trees[root := Take(trees[root], TOP, slot, pageCount)];
      SoundRoots(Links(), lists, trees);
      SoundIsContained(Links(), lists, trees);
      known := KnownNodes(trees);
    }

    // -------------------------------------------------------------------------------
    // kfree
    // -------------------------------------------------------------------------------

    /** The unlinking code of both merging procedures. */
    method UnlinkNode(j: nat, x: nat)
      requires j < heads.Length && x < links.Length
      requires NULL <= links[x].next < links.Length && NULL <= links[x].prev < links.Length
      modifies links, heads
      ensures Links() == Unlink(old(Links()), j, x)
    {
      if links[x].next != NULL || links[x].prev != NULL || heads[j] == x {
        if heads[j] == x {
          heads[j] := links[x].next;
        }
        if links[x].prev != NULL {
          links[links[x].prev] := links[links[x].prev].(next := links[x].next);
        }
        if links[x].next != NULL {
          links[links[x].next] := links[links[x].next].(prev := links[x].prev);
        }
        links[x] := links[x].(next := NULL);
        links[x] := links[x].(prev := NULL);
      }
    }

    /** merge_bnode's push of a child that was not merged; the guard is the source's. */
    method RepushNode(j: nat, x: nat)
      requires j < heads.Length && x < links.Length == header.Length && NULL <= heads[j] < links.Length
      modifies links, heads
      ensures Links() == Repush(old(Links()), j, x, header[x].status == UNALLOCATED)
    {
      if header[x].status == UNALLOCATED && (links[x].next != NULL || links[x].prev != NULL) {
        PushFront(j, x);
      }
    }

    /** The list part of merge_bnode for a node with children l and r. */
    method MergeLists(s: nat, ghost k: nat, l: nat, r: nat, ghost known: set<nat>)
      requires 0 < k <= TOP && s + Slots(k) <= header.Length == links.Length
      requires l == s + 1 && r == s + Pages(k) && l in known && r in known && Anchored(Links(), known)
      requires header[l].kind == Pages(k - 1)
      modifies links, heads
      ensures Links() == MergeStep(old(Links()), s, k, header[l].status == UNALLOCATED, header[r].status == UNALLOCATED)
    {
      hide Anchored;
      hide Unlink;
      hide Push;
      var j := LevelOf(header[l].kind, k - 1);
      AnchoredNode(Links(), known, j, l);
      if header[l].status == UNALLOCATED && header[r].status == UNALLOCATED {
        UnlinkAnchored(Links(), known, j, l);
        UnlinkNode(j, l);
        AnchoredNode(Links(), known, j, r);
        UnlinkNode(j, r);
      } else {
        PushAnchored(Links(), known, j, l);
        RepushNode(j, l);
        AnchoredNode(Links(), known, j, r);
        RepushNode(j, r);
      }
    }

    /** Frees the leaves that start in the first `limit` pages of the tree in slot bn. */
    method MergeBnode(bn: nat, limit: nat, ghost k: nat, ghost a: nat, ghost t: Tree, ghost known: set<nat>)
      requires header.Length == links.Length && heads.Length == TOP + 1
      requires k <= TOP && bn + Slots(k) <= header.Length && Rep(header[..], bn, k, a, t) && Fits(t, k)
      requires Anchored(Links(), known) && Known(known, bn, k, t)
      modifies header, links, heads
      ensures Rep(header[..], bn, k, a, Merge(t, k, limit))
      ensures SameOutside(old(header[..]), header[..], bn, bn + Slots(k))
      ensures Links() == MergeLinks(old(Links()), bn, k, t, limit)
      decreases k
    {
      hide Anchored;
      hide Known;
      hide Rep;
      hide MergeStep;
      hide Merge;
      hide MergeLinks;
      hide Fits;
      hide Join;
      hide Pages;
      ghost var h, m := header[..], Links();
      FitsHalves(t, k);
      MergeParts(m, bn, k, t, limit);
      RepParts(h, bn, k, a, t);
      if header[bn].leafLeft != NULL && header[bn].leafRight != NULL {
        var l, r, half := header[bn].leafLeft, header[bn].leafRight, header[bn].kind / 2;
        KnownHalves(known, bn, k, t);
        MergeBnode(l, limit, k - 1, a, t.left, known);
        ghost var left := Merge(t.left, k - 1, limit);
        ghost var h1, m1 := header[..], Links();
        RepFrame(h, h1, r, k - 1, a + half, t.right);
        MergeAnchored(m, known, l, k - 1, t.left, limit);
        ghost var right := t.right;
        if limit > half {
          MergeBnode(r, limit - half, k - 1, a + half, t.right, known);
          MergeAnchored(m1, known, r, k - 1, t.right, limit - half);
          right := Merge(t.right, k - 1, limit - half);
        }
        ghost var h2 := header[..];
        RepFrame(h1, h2, l, k - 1, a, left);
        JoinParts(h2, bn, k, a, left, right);
        MergeLists(bn, k, l, r, known);
        if header[l].status == UNALLOCATED && header[r].status == UNALLOCATED {
          header[bn] := header[bn].(leafLeft := NULL, leafRight := NULL);
          header[bn] := header[bn].(status := UNALLOCATED);
        }
        JoinHeader(h2, header[..], bn, k, a, left, right);
      } else {
        header[bn] := header[bn].(status := UNALLOCATED);
        FreeLeafRep(header[..], bn, k, a);
      }
    }

    // Both children are no nodes any more, and bn is a free leaf.
    method DropHalves(bn: nat, l: nat, r: nat)
      requires bn < l < r < header.Length
      modifies header
      ensures header.Length == |old(header[..])| && header[l].status == NONODE && header[r].status == NONODE
      ensures header[bn] == old(header[bn]).(leafLeft := NULL, leafRight := NULL, status := UNALLOCATED)
      ensures forall y :: 0 <= y < header.Length && y != bn && y != l && y != r ==> header[y] == old(header[y])
    {
      header[l] := header[l].(status := NONODE);
      header[r] := header[r].(status := NONODE);
      header[bn] := header[bn].(leafLeft := NULL, leafRight := NULL);
      header[bn] := header[bn].(status := UNALLOCATED);
    }

    /** Joins free halves bottom up in the tree in slot bn, and marks the nodes it drops. */
    method MergeBnodeNolimit(bn: nat, ghost k: nat, ghost a: nat, ghost t: Tree, ghost known: set<nat>)
      requires header.Length == links.Length && heads.Length == TOP + 1
      requires k <= TOP && bn + Slots(k) <= header.Length && Rep(header[..], bn, k, a, t) && Fits(t, k)
      requires Anchored(Links(), known) && Known(known, bn, k, t)
      modifies header, links, heads
      ensures Rep(header[..], bn, k, a, Coalesce(t)) && Fits(Coalesce(t), k)
      ensures SameOutside(old(header[..]), header[..], bn, bn + Slots(k))
      ensures Dropped(header[..], bn, k, t, Coalesce(t))
      ensures Links() == CoalesceLinks(old(Links()), bn, k, t)
      decreases k
    {
      hide Anchored;
      hide Known;
      hide Rep;
      hide Dropped;
      hide Coalesce;
      hide CoalesceLinks;
      hide MergeStep;
      hide Fits;
      hide Join;
      hide Pages;
      ghost var h, m := header[..], Links();
      FitsHalves(t, k);
      CoalesceFits(t, k);
      CoalesceParts(m, bn, k, t);
      RepParts(h, bn, k, a, t);
      if header[bn].leafLeft != NULL && header[bn].leafRight != NULL {
        var l, r := header[bn].leafLeft, header[bn].leafRight;
        ghost var half, left, right := Pages(k - 1), Coalesce(t.left), Coalesce(t.right);
        KnownHalves(known, bn, k, t);
        MergeBnodeNolimit(l, k - 1, a, t.left, known);
        ghost var h1, m1 := header[..], Links();
        RepFrame(h, h1, r, k - 1, a + half, t.right);
        CoalesceAnchored(m, known, l, k - 1, t.left);
        MergeBnodeNolimit(r, k - 1, a + half, t.right, known);
        CoalesceAnchored(m1, known, r, k - 1, t.right);
        ghost var h2 := header[..];
        RepFrame(h1, h2, l, k - 1, a, left);
        DroppedStays(h1, h2, l, k - 1, t.left, left);
        JoinParts(h2, bn, k, a, left, right);
        if header[l].status == UNALLOCATED && header[r].status == UNALLOCATED {
          MergeLists(bn, k, l, r, known);
          DropHalves(bn, l, r);
        }
        JoinHeader(h2, header[..], bn, k, a, left, right);
        DroppedJoin(h2, header[..], bn, k, t, left, right);
      } else {
        DroppedNone(h, bn, k, t);
      }
    }

    /** Slot of the maximal block that holds the page. */
    method FindRoot(address: nat, ghost r: nat) returns (node: nat)
      requires Valid() && r < |trees| && body % PAGES == 0
      requires body + PAGES * r <= address < body + PAGES * (r + 1)
      ensures node == SLOTS * r
    {
      var high := address / PAGES * PAGES;
      assert high == body + PAGES * r;
      node := heads[TOP];
      ghost var i := 0;
      while header[node].page != high
        invariant i <= r && node == SLOTS * i
        decreases r - i
      {
        assert Rep(header[..], SLOTS * i, TOP, body + PAGES * i, trees[i]);
        assert links[node] == RootLink(i, |trees|);
        node, i := links[node].next, i + 1;
      }
      assert Rep(header[..], SLOTS * i, TOP, body + PAGES * i, trees[i]);
    }

    /** The topmost node below slot s whose block starts at the page. */
    method FindTop(s: nat, address: nat, ghost base: nat, ghost t: Tree) returns (bn: nat)
      requires Rep(header[..], s, TOP, base, t) && Fits(t, TOP) && base <= address
      requires NodeStarts(t, TOP, address - base)
      ensures bn == s + TopSlot(t, TOP, address - base)
    {
      hide TopSlot;
      hide NodeStarts;
      hide Rep;
      hide Pages;
      hide Slots;
      hide Fits;
      hide Cell;
      bn := s;
      ghost var k: nat, a: nat, u := TOP, address - base, t;
      NodeParts(header[..], bn, k, base, u);
      while header[bn].page < address
        invariant Fits(u, k) && NodeStarts(u, k, a) && a <= address
        invariant Rep(header[..], bn, k, address - a, u) && bn < header.Length
        invariant header[bn].page == address - a
        invariant bn + TopSlot(u, k, a) == s + TopSlot(t, TOP, address - base)
        decreases k
      {
        TopStep(u, k, a);
        NodeParts(header[..], bn, k, address - a, u);
        NodeParts(header[..], bn + 1, k - 1, address - a, u.left);
        NodeParts(header[..], bn + Pages(k), k - 1, address - a + Pages(k - 1), u.right);
        if header[header[bn].leafRight].page > address {
          bn, k, u := header[bn].leafLeft, k - 1, u.left;
        } else {
          bn, k, a, u := header[bn].leafRight, k - 1, a - Pages(k - 1), u.right;
        }
      }
      TopStep(u, k, a);
    }

    /** The merging part of kfree, on the block found in slot bn of the maximal block in slot
        high, and the final push of the block if it was not merged. */
    method FreeBlock(high: nat, bn: nat, pageCount: nat, ghost base: nat, ghost t: Tree, ghost a: nat, ghost known: set<nat>)
      requires header.Length == links.Length && heads.Length == TOP + 1 && high + Slots(TOP) <= header.Length
      requires Rep(header[..], high, TOP, base, t) && Fits(t, TOP) && NodeStarts(t, TOP, a)
      requires bn == high + TopSlot(t, TOP, a) && Anchored(Links(), known) && Known(known, high, TOP, t)
      modifies header, links, heads
      ensures Rep(header[..], high, TOP, base, Free(t, TOP, a, pageCount))
      ensures SameOutside(old(header[..]), header[..], high, high + Slots(TOP))
      ensures TouchesOnly(old(Links()), Links(), known) && Anchored(Links(), known)
      ensures Known(known, high, TOP, Free(t, TOP, a, pageCount))
      ensures Links() == FreeLinks(old(Links()), high, t, a, pageCount)
    {
      hide Rep;
      hide Anchored;
      hide Known;
      hide TouchesOnly;
      hide Dropped;
      hide Release;
      hide Free;
      hide SameOutside;
      hide TopSlot;
      hide NodeStarts;
      hide At;
      hide NodeAt;
      hide Replace;
      hide Push;
      hide Slots;
      hide CoalesceLinks;
      hide MergeLinks;
      hide Coalesce;
      hide Merge;
      ghost var h, m := header[..], Links();
      ghost var x := TopSlot(t, TOP, a);
      ghost var top, t1, t2 := At(t, TOP, x), Release(t, TOP, a, pageCount), Free(t, TOP, a, pageCount);
      ReleaseSteps(t, a, pageCount);
      TopNode(h, known, high, base, t, x);
      MergeBnode(bn, pageCount, top.level, base + a, top.sub, known);
      MergeAnchored(m, known, bn, top.level, top.sub, pageCount);
      ghost var h1, m1 := header[..], Links();
      ReleaseKnown(known, high, t, a, pageCount);
      CoalesceKnown(known, high, TOP, t1);
      RepReplace(h, h1, high, TOP, base, t, x, Merge(top.sub, top.level, pageCount));
      MergeBnodeNolimit(high, TOP, base, t1, known);
      CoalesceAnchored(m1, known, high, TOP, t1);
      ghost var h2, m2 := header[..], Links();
      TouchesTwice(m, m1, m2, known);
      RootStatus(h2, high, base, t1, t2, x);
      WiderFrame(h, h1, h2, high, x, top.level);
      if bn != high && header[bn].status == UNALLOCATED {
        RootPushed(h2, high, base, t1, t2, x, top.level);
        var j := LevelOf(header[bn].kind, top.level);
        HeadsAnchored(m2, known, j);
        PushAnchored(m2, known, j, bn);
        PushFront(j, bn);
        TouchesTwice(m, m2, Links(), known);
      }
    }

    /** Frees pageCount pages from the given one.  The lists may have been damaged before.  If
        they were sound, they stay sound exactly if no child is pushed; and if they were
        complete, lists and trees agree afterwards exactly if the block found is freed cleanly. */
    method KFree(address: nat, pageCount: nat, ghost r: nat)
      requires Valid() && Tame() && r < |trees| && body % PAGES == 0
      requires body + PAGES * r <= address < body + PAGES * (r + 1)
      requires NodeStarts(trees[r], TOP, address - (body + PAGES * r))
      modifies this, header, links, heads
      ensures Valid() && Tame()
      ensures var a := address - (body + PAGES * r);
              && trees == old(trees)[r := Free(old(trees)[r], TOP, a, pageCount)]
              && IsKFree(old(trees), old(Links()), trees, Links(), r, a, pageCount)
      ensures var a, t := address - (body + PAGES * r), old(trees)[r];
              old(Sorted()) && Coalesced(t) && PageTaken(t, a) ==>
                && (HasLists(Links(), trees) <==> SafeFree(old(Links()), r, t, a, pageCount))
                && (SafeFree(old(Links()), r, t, a, pageCount) ==> Sorted())
                && (old(Full()) ==> (Agree(Links(), trees) <==> FreesCleanly(t, a, pageCount)))
                && (old(Full()) && FreesCleanly(t, a, pageCount) ==> Sorted() && Full())
    {
      hide Rep;
      hide Anchored;
      hide Known;
      hide Contained;
      hide TouchesOnly;
      hide HeaderHolds;
      hide ListsSound;
      hide SameOutside;
      hide FreeLinks;
      hide IsKFree;
      hide At;
      hide NodeAt;
      hide TopSlot;
      hide NodeStarts;
      hide Free;
      hide FreesCleanly;
      hide SafeFree;
      hide PageTaken;
      hide Coalesced;
      hide Agree;
      hide HasLists;
      hide RootsLinked;
      hide ListsComplete;
      ghost var a, t := address - (body + PAGES * r), trees[r];
      ghost var h, m := header[..], Links();
      HeapTree(h, m, trees, body, known, r);
      FreeIsStep(m, trees, r, a, pageCount);
      var high := FindRoot(address, r);
      var bn := FindTop(high, address, body + PAGES * r, t);
      FreeBlock(high, bn, pageCount, body + PAGES * r, t, a, known);
      FreeDone(h, header[..], m, Links(), trees, body, known, r, Free(t, TOP, a, pageCount));
      BlockContained(m, Links(), trees, known, r, Free(t, TOP, a, pageCount));
      if ListsSound(m, lists, trees) && Coalesced(t) && PageTaken(t, a) {
        lists := ListsAfter(m, lists, trees, r, a, pageCount);
      }
      trees := trees[r := Free(t, TOP, a, pageCount)];
    }

    /** The number of slots between the two children of a block of `size` pages. */
    method LeafSpace(size: nat, ghost k: nat) returns (leafSpace: nat)
      requires size == Pages(k)
      ensures leafSpace == size - 1
    {
      var help := size / 2;
      leafSpace := 0;
      ghost var q: int := k;
      while help > 0
        invariant if help > 0 then q > 0 && help == Pages(q - 1) && leafSpace == size - 2 * help
                  else leafSpace == size - 1
        decreases help
      {
        leafSpace, help, q := leafSpace + help, help / 2, q - 1;
      }
    }
  }

  lemma FreeRoot(k: nat)
    ensures Fits(Leaf(true), k) && FreeAt(Leaf(true), k, k, 0)
  {
  }

  lemma SizeOfTop(k: nat)
    requires k <= TOP && Pages(k) == PAGES
    ensures k == TOP
  {
    assert Pages(1) == 2 && Pages(2) == 4 && Pages(3) == 8 && Pages(4) == 16;
  }

  // What kalloc knows of the block it chose.
  lemma HeapSlot(h: seq<BuddyNode>, m: Lists, lists: seq<seq<nat>>, trees: seq<Tree>, body: nat,
                 r: nat, x: nat, k: nat)
    requires WellFormed(trees) && HeaderHolds(h, trees, body) && ListsSound(m, lists, trees)
    requires r < |trees| && FreeAt(trees[r], TOP, k, x)
    ensures var s := SLOTS * r + x;
            && s + Slots(k) <= |h| == |m.links|
            && h[s] == BuddyNode(Pages(k), UNALLOCATED, body + PAGES * r + At(trees[r], TOP, x).page, NULL, NULL)
    ensures HeadsIn(m)
    ensures k < TOP && On(lists, k, SLOTS * r + x) && m.heads[k] == SLOTS * r + x ==>
              && NULL <= m.links[SLOTS * r + x].next < |m.links|
              && HeadsIn(Pop(m, k, SLOTS * r + x))
    ensures k == TOP ==> x == 0
  {
    hide HeaderHolds;
    hide ListsSound;
    hide Rep;
    hide At;
    hide NodeAt;
    hide Pop;
    hide HeadsIn;
    hide On;
    SlotsInside(trees[r], TOP, x);
    SlotsInHeap(|trees|, r, x, k);
    SameLength(h, m, lists, trees, body);
    RepInHeap(h, trees, body, r);
    RepAt(h, SLOTS * r, TOP, body + PAGES * r, trees[r], x);
    RepParts(h, SLOTS * r + x, k, body + PAGES * r + At(trees[r], TOP, x).page, Leaf(true));
    LevelBelowTop(trees[r], TOP, x);
    HeadsKnown(m, lists, trees);
    if k < TOP && On(lists, k, SLOTS * r + x) && m.heads[k] == SLOTS * r + x {
      FirstOfList(m, lists, trees, k);
    }
  }

  /** Whatever else is allocated, the change to trees' and m' is the kalloc step of the machine
      on trees and links that hands out n pages from page p of block r. */
  ghost predicate IsKAlloc(trees: seq<Tree>, m: Lists, trees': seq<Tree>, m': Lists, r: nat, x: nat, p: int, n: nat)
    requires WellFormed(trees)
  {
    p >= 0 && forall live ::
      LinkedStep(LinkedHeap(Heap(trees, live), m), BuddyRuns.KAlloc(r, x, n),
                 LinkedHeap(Heap(trees', live + [Block(r, p, n)]), m'))
  }

  /** Whatever else is allocated, the change to trees' and m' is the kfree step of the machine
      on trees and links for an allocation of n pages from page p of block r. */
  ghost predicate IsKFree(trees: seq<Tree>, m: Lists, trees': seq<Tree>, m': Lists, r: nat, p: nat, n: nat)
    requires WellFormed(trees)
  {
    forall live: seq<Block>, i: nat :: i < |live| && live[i] == Block(r, p, n) ==>
      LinkedStep(LinkedHeap(Heap(trees, live), m), BuddyRuns.KFree(i),
                 LinkedHeap(Heap(trees', live[..i] + live[i + 1..]), m'))
  }

  /** The guard of merge_bnode's push fails throughout the call. */
  ghost predicate SafeFree(m: Lists, r: nat, t: Tree, a: nat, n: nat)
    requires Fits(t, TOP) && NodeStarts(t, TOP, a)
  {
    SLOTS * r + Slots(TOP) <= |m.links| && |m.heads| == TOP + 1 && PushesNothing(m, SLOTS * r, t, a, n)
  }

  // The lists after kfree, where there are any.
  lemma ListsAfter(m: Lists, lists: seq<seq<nat>>, trees: seq<Tree>, r: nat, a: nat, n: nat)
    returns (lists': seq<seq<nat>>)
    requires WellFormed(trees) && ListsSound(m, lists, trees) && r < |trees| && Coalesced(trees[r])
    requires NodeStarts(trees[r], TOP, a) && PageTaken(trees[r], a)
    ensures SLOTS * r + Slots(TOP) <= |m.links| && |m.heads| == TOP + 1
    ensures var m', trees' := FreeLinks(m, SLOTS * r, trees[r], a, n), trees[r := Free(trees[r], TOP, a, n)];
            && (HasLists(m', trees') <==> SafeFree(m, r, trees[r], a, n))
            && (SafeFree(m, r, trees[r], a, n) ==> ListsSound(m', lists', trees'))
            && (ListsComplete(lists, trees) ==> (Agree(m', trees') <==> FreesCleanly(trees[r], a, n)))
            && (ListsComplete(lists, trees) && FreesCleanly(trees[r], a, n) ==>
                  ListsSound(m', lists', trees') && ListsComplete(lists', trees'))
  {
    hide ListsSound;
    hide ListsComplete;
    hide FreeLinks;
    hide Free;
    hide FreesWhole;
    hide PushesNothing;
    hide PageTaken;
    hide TopSlot;
    hide HasLists;
    RootKept(m, lists, trees, r, a, n);
    FreeSoundIff(m, lists, trees, r, a, n);
    lists' := lists;
    if FreesWhole(trees[r], a, n) {
      WholePushesNothing(m, SLOTS * r, trees[r], a, n);
    }
    if PushesNothing(m, SLOTS * r, trees[r], a, n) {
      lists' := FreeSound(m, lists, trees, r, a, n);
    }
    if ListsComplete(lists, trees) {
      assert Agree(m, trees);
      FreeAgreesIff(m, trees, r, a, n);
    }
  }

  lemma FreeIsStep(m: Lists, trees: seq<Tree>, r: nat, p: nat, n: nat)
    requires WellFormed(trees) && r < |trees| && NodeStarts(trees[r], TOP, p)
    requires SLOTS * r + Slots(TOP) <= |m.links| && |m.heads| == TOP + 1
    ensures IsKFree(trees, m, trees[r := Free(trees[r], TOP, p, n)], FreeLinks(m, SLOTS * r, trees[r], p, n), r, p, n)
  {
    hide NodeStarts;
    hide Free;
    hide FreeLinks;
  }

  lemma AllocIsStep(m: Lists, trees: seq<Tree>, r: nat, x: nat, n: nat)
    requires WellFormed(trees) && MayTake(m, trees, r, x) && 1 <= n <= Pages(At(trees[r], TOP, x).level)
    requires SLOTS * r + x + Slots(At(trees[r], TOP, x).level) <= |m.links| && At(trees[r], TOP, x).level <= TOP
    ensures IsKAlloc(trees, m, trees[r := Take(trees[r], TOP, x, n)],
                     AllocLinks(m, SLOTS * r + x, At(trees[r], TOP, x).level, n), r, x, At(trees[r], TOP, x).page, n)
  {
    hide At;
    hide NodeAt;
    hide Take;
    hide AllocLinks;
  }

  lemma SoundRoots(m: Lists, lists: seq<seq<nat>>, trees: seq<Tree>)
    requires WellFormed(trees) && ListsSound(m, lists, trees)
    ensures RootsLinked(m, |trees|) && |m.heads| == TOP + 1
  {
  }

  lemma HeadsKnown(m: Lists, lists: seq<seq<nat>>, trees: seq<Tree>)
    requires WellFormed(trees) && ListsSound(m, lists, trees)
    ensures HeadsIn(m) && |m.heads| == TOP + 1
  {
    hide Sound;
    forall j | 0 <= j < TOP
      ensures NULL <= m.heads[j] < |m.links|
    {
      assert IsList(m.links, m.heads[j], lists[j]);
    }
  }

  // Taking the first node off list k.
  lemma FirstOfList(m: Lists, lists: seq<seq<nat>>, trees: seq<Tree>, k: nat)
    requires WellFormed(trees) && ListsSound(m, lists, trees) && k < TOP && 0 <= m.heads[k] < |m.links|
    ensures NULL <= m.links[m.heads[k]].next < |m.links| && HeadsIn(Pop(m, k, m.heads[k]))
  {
    hide Sound;
    HeadsKnown(m, lists, trees);
    var s := m.heads[k];
    assert IsList(m.links, s, lists[k]) && lists[k][0] == s && Linked(m.links, lists[k], 0);
  }

  /** Header and lists are in step with the trees. */
  ghost predicate InStep(h: seq<BuddyNode>, m: Lists, lists: seq<seq<nat>>, trees: seq<Tree>, body: nat) {
    WellFormed(trees) && HeaderHolds(h, trees, body) && ListsSound(m, lists, trees)
  }

  ghost predicate AllListed(lists: seq<seq<nat>>, trees: seq<Tree>) {
    WellFormed(trees) && ListsComplete(lists, trees)
  }

  // kalloc's writes keep header and lists in step with the trees.
  lemma AllocDone(h: seq<BuddyNode>, m: Lists, lists: seq<seq<nat>>, trees: seq<Tree>, body: nat,
                  r: nat, x: nat, k: nat, n: nat) returns (lists': seq<seq<nat>>)
    requires InStep(h, m, lists, trees, body) && MayTake(m, trees, r, x)
    requires k == At(trees[r], TOP, x).level && 1 <= n <= Pages(k) && (k < TOP ==> On(lists, k, SLOTS * r + x))
    ensures SLOTS * r + x + Slots(k) <= |h| == |m.links|
    ensures InStep(AllocHeader(h, SLOTS * r + x, k, n), AllocLinks(m, SLOTS * r + x, k, n), lists',
                   trees[r := Take(trees[r], TOP, x, n)], body)
    ensures AllListed(lists, trees) ==> AllListed(lists', trees[r := Take(trees[r], TOP, x, n)])
    ensures AllocHeader(h, SLOTS * r + x, k, n)[SLOTS * r + x].page == h[SLOTS * r + x].page
  {
    hide HeaderHolds;
    hide ListsSound;
    hide ListsComplete;
    hide AllocHeader;
    hide AllocLinks;
    hide Take;
    hide At;
    hide NodeAt;
    AllocHeaderHolds(h, trees, body, r, x, n);
    SameLength(h, m, lists, trees, body);
    lists' := AllocLinksSound(m, lists, trees, r, x, n);
    PageStays(h, AllocHeader(h, SLOTS * r + x, k, n), trees, body, r, x, n);
  }

  lemma SameLength(h: seq<BuddyNode>, m: Lists, lists: seq<seq<nat>>, trees: seq<Tree>, body: nat)
    requires WellFormed(trees) && HeaderHolds(h, trees, body) && ListsSound(m, lists, trees)
    ensures |h| == |m.links|
  {
  }

  lemma PageStays(h: seq<BuddyNode>, h': seq<BuddyNode>, trees: seq<Tree>, body: nat, r: nat, x: nat, n: nat)
    requires WellFormed(trees) && r < |trees| && HeaderHolds(h, trees, body)
    requires NodeAt(trees[r], TOP, x) && 1 <= n <= Pages(At(trees[r], TOP, x).level)
    requires HeaderHolds(h', trees[r := Take(trees[r], TOP, x, n)], body)
    requires SLOTS * r + x < |h|
    ensures SLOTS * r + x < |h'| && h'[SLOTS * r + x].page == h[SLOTS * r + x].page
  {
    hide HeaderHolds;
    hide Rep;
    hide At;
    hide NodeAt;
    hide Replace;
    hide Carve;
    var t, t' := trees[r], Take(trees[r], TOP, x, n);
    var k, p := At(t, TOP, x).level, At(t, TOP, x).page;
    ReplaceAt(t, TOP, x, Carve(k, n));
    assert NodeAt(t', TOP, x) && At(t', TOP, x).page == p;
    RepInHeap(h, trees, body, r);
    RepInHeap(h', trees[r := t'], body, r);
    RepAt(h, SLOTS * r, TOP, body + PAGES * r, t, x);
    RepAt(h', SLOTS * r, TOP, body + PAGES * r, t', x);
    RepParts(h, SLOTS * r + x, k, body + PAGES * r + p, At(t, TOP, x).sub);
    RepParts(h', SLOTS * r + x, At(t', TOP, x).level, body + PAGES * r + p, At(t', TOP, x).sub);
  }

  lemma RepInHeap(h: seq<BuddyNode>, trees: seq<Tree>, body: nat, r: nat)
    requires HeaderHolds(h, trees, body) && r < |trees|
    ensures Rep(h, SLOTS * r, TOP, body + PAGES * r, trees[r])
  {
  }

  // What kfree's search reads of a node.
  lemma NodeParts(h: seq<BuddyNode>, s: nat, k: nat, a: nat, t: Tree)
    requires Rep(h, s, k, a, t)
    ensures s < |h| && h[s].page == a
    ensures t.Node? ==> k > 0 && h[s].leafLeft == s + 1 && h[s].leafRight == s + Pages(k)
    ensures t.Node? ==> Rep(h, s + 1, k - 1, a, t.left) && Rep(h, s + Pages(k), k - 1, a + Pages(k - 1), t.right)
  {
  }

  lemma FitsHalves(t: Tree, k: nat)
    requires Fits(t, k)
    ensures t.Node? ==> k > 0 && Fits(t.left, k - 1) && Fits(t.right, k - 1)
  {
  }

  lemma FreeLeafRep(h: seq<BuddyNode>, s: nat, k: nat, a: nat)
    requires s + Slots(k) <= |h| && h[s] == BuddyNode(Pages(k), UNALLOCATED, a, NULL, NULL)
    ensures Rep(h, s, k, a, Leaf(true))
  {
  }

  // The statuses of the children tell whether both halves are free.
  lemma JoinParts(h: seq<BuddyNode>, s: nat, k: nat, a: nat, left: Tree, right: Tree)
    requires 0 < k && s + Slots(k) <= |h|
    requires Rep(h, s + 1, k - 1, a, left) && Rep(h, s + Pages(k), k - 1, a + Pages(k - 1), right)
    ensures h[s + 1].status == UNALLOCATED <==> left == Leaf(true)
    ensures h[s + Pages(k)].status == UNALLOCATED <==> right == Leaf(true)
    ensures h[s + 1].kind == Pages(k - 1)
  {
  }

  // Both halves of the block in slot s are up to date: what joining or not joining gives.
  lemma JoinHeader(h: seq<BuddyNode>, h': seq<BuddyNode>, s: nat, k: nat, a: nat, left: Tree, right: Tree)
    requires 0 < k && s + Slots(k) <= |h|
    requires h[s] == BuddyNode(Pages(k), ALLOCATED, a, s + 1, s + Pages(k))
    requires Rep(h, s + 1, k - 1, a, left) && Rep(h, s + Pages(k), k - 1, a + Pages(k - 1), right)
    requires if left == Leaf(true) && right == Leaf(true)
             then |h'| == |h| && h'[s] == BuddyNode(Pages(k), UNALLOCATED, a, NULL, NULL)
             else h' == h
    ensures Rep(h', s, k, a, Join(left, right))
  {
  }

  /** Nodes of t that t' no longer has are marked as no nodes. */
  ghost predicate Dropped(h: seq<BuddyNode>, s: nat, k: nat, t: Tree, t': Tree)
    requires Fits(t, k) && Fits(t', k)
  {
    forall x: nat :: NodeAt(t, k, x) && !NodeAt(t', k, x) ==> s + x < |h| && h[s + x].status == NONODE
  }

  lemma DroppedNone(h: seq<BuddyNode>, s: nat, k: nat, t: Tree)
    requires Fits(t, k)
    ensures Dropped(h, s, k, t, t)
  {
  }

  lemma DroppedStays(h: seq<BuddyNode>, h': seq<BuddyNode>, s: nat, k: nat, t: Tree, t': Tree)
    requires Fits(t, k) && Fits(t', k) && Dropped(h, s, k, t, t') && |h'| == |h|
    requires forall y :: s <= y < s + Slots(k) && y < |h| ==> h'[y] == h[y]
    ensures Dropped(h', s, k, t, t')
  {
    forall x: nat | NodeAt(t, k, x) && !NodeAt(t', k, x)
      ensures s + x < |h'| && h'[s + x].status == NONODE
    {
      SlotsInside(t, k, x);
    }
  }

  lemma DroppedJoin(h: seq<BuddyNode>, h': seq<BuddyNode>, s: nat, k: nat, t: Tree, left: Tree, right: Tree)
    requires Fits(t, k) && t.Node? && Fits(left, k - 1) && Fits(right, k - 1)
    requires Dropped(h, s + 1, k - 1, t.left, left) && Dropped(h, s + Pages(k), k - 1, t.right, right)
    requires |h'| == |h| && s + Slots(k) <= |h|
    requires forall y :: s < y < |h| ==> h[y].status == NONODE ==> h'[y].status == NONODE
    requires left == Leaf(true) && right == Leaf(true) ==>
               h'[s + 1].status == NONODE && h'[s + Pages(k)].status == NONODE
    ensures Dropped(h', s, k, t, Join(left, right))
  {
    forall x: nat | NodeAt(t, k, x) && !NodeAt(Join(left, right), k, x)
      ensures s + x < |h'| && h'[s + x].status == NONODE
    {
      SlotsInside(t, k, x);
      if x < Pages(k) {
        assert NodeAt(t.left, k - 1, x - 1) && (s + 1) + (x - 1) == s + x;
      } else {
        assert NodeAt(t.right, k - 1, x - Pages(k)) && (s + Pages(k)) + (x - Pages(k)) == s + x;
      }
    }
  }

  lemma ReleaseSteps(t: Tree, a: nat, n: nat)
    requires Fits(t, TOP) && NodeStarts(t, TOP, a)
    ensures var x := TopSlot(t, TOP, a);
            var top, t1 := At(t, TOP, x), Release(t, TOP, a, n);
            && t1 == Replace(t, TOP, x, Merge(top.sub, top.level, n))
            && NodeAt(t1, TOP, x) && At(t1, TOP, x).level == top.level && top.page == a
            && Free(t, TOP, a, n) == Coalesce(t1)
  {
    var x := TopSlot(t, TOP, a);
    ReplaceAt(t, TOP, x, Merge(At(t, TOP, x).sub, At(t, TOP, x).level, n));
  }

  /** kfree's search among the maximal blocks ends, for any page of the heap, exactly if the
      heap body starts on a 128K boundary. */
  lemma RootFoundIff(count: nat, body: nat, p: nat)
    requires body <= p < body + PAGES * count
    ensures (exists i :: 0 <= i < count && body + PAGES * i == p / PAGES * PAGES) <==> body % PAGES == 0
  {
    if body % PAGES == 0 {
      var i := (p - body) / PAGES;
      assert body + PAGES * i == p / PAGES * PAGES;
    }
  }

  // What kfree knows of the maximal block it is in.
  lemma HeapTree(h: seq<BuddyNode>, m: Lists, trees: seq<Tree>, body: nat, known: set<nat>, r: nat)
    requires WellFormed(trees) && HeaderHolds(h, trees, body) && RootsLinked(m, |trees|) && r < |trees|
    requires Contained(m, trees, known)
    ensures Rep(h, SLOTS * r, TOP, body + PAGES * r, trees[r]) && |h| == |m.links| && |m.heads| == TOP + 1
    ensures SLOTS * r + Slots(TOP) <= |h|
    ensures Anchored(m, known) && Known(known, SLOTS * r, TOP, trees[r])
  {
    hide Rep;
    hide Known;
    hide Anchored;
    TopSizes();
  }

  // The block found by the root search.
  lemma TopNode(h: seq<BuddyNode>, known: set<nat>, s: nat, base: nat, t: Tree, x: nat)
    requires Rep(h, s, TOP, base, t) && Fits(t, TOP) && NodeAt(t, TOP, x) && Known(known, s, TOP, t)
    ensures var n := At(t, TOP, x);
            && x + Slots(n.level) <= Slots(TOP)
            && Rep(h, s + x, n.level, base + n.page, n.sub) && Known(known, s + x, n.level, n.sub)
            && (x > 0 ==> s + x in known)
  {
    hide Rep;
    SlotsInside(t, TOP, x);
    RepAt(h, s, TOP, base, t, x);
    KnownAt(known, s, TOP, t, x);
    hide At;
    hide NodeAt;
    hide Slots;
  }

  // Whether the block found is pushed: exactly if it is still a node, and free.
  lemma RootStatus(h: seq<BuddyNode>, s: nat, base: nat, t1: Tree, t2: Tree, x: nat)
    requires Fits(t1, TOP) && Fits(t2, TOP) && NodeAt(t1, TOP, x)
    requires Rep(h, s, TOP, base, t2) && Dropped(h, s, TOP, t1, t2)
    ensures s + x < |h|
    ensures h[s + x].status == UNALLOCATED <==> NodeAt(t2, TOP, x) && At(t2, TOP, x).sub == Leaf(true)
  {
    SlotsInside(t1, TOP, x);
    if NodeAt(t2, TOP, x) {
      RepAt(h, s, TOP, base, t2, x);
    }
  }

  lemma RootPushed(h: seq<BuddyNode>, s: nat, base: nat, t1: Tree, t2: Tree, x: nat, k: nat)
    requires Fits(t1, TOP) && Fits(t2, TOP) && NodeAt(t1, TOP, x) && At(t1, TOP, x).level == k && x > 0
    requires Rep(h, s, TOP, base, t2) && Dropped(h, s, TOP, t1, t2)
    requires s + x < |h| && h[s + x].status == UNALLOCATED
    ensures h[s + x].kind == Pages(k) && k < TOP
  {
    RootStatus(h, s, base, t1, t2, x);
    RepAt(h, s, TOP, base, t2, x);
    SameSlotSameLevel(t1, t2, TOP, x);
    LevelBelowTop(t1, TOP, x);
  }

  lemma WiderFrame(h: seq<BuddyNode>, h1: seq<BuddyNode>, h2: seq<BuddyNode>, s: nat, x: nat, k: nat)
    requires SameOutside(h, h1, s + x, s + x + Slots(k)) && SameOutside(h1, h2, s, s + Slots(TOP))
    requires x + Slots(k) <= Slots(TOP)
    ensures SameOutside(h, h2, s, s + Slots(TOP))
  {
  }

  lemma HeadsAnchored(m: Lists, known: set<nat>, j: nat)
    requires Anchored(m, known) && j < TOP
    ensures |m.heads| == TOP + 1 && NULL <= m.heads[j] < |m.links|
  {
  }

  lemma AnchoredNode(m: Lists, known: set<nat>, j: nat, x: nat)
    requires Anchored(m, known) && j < TOP && x in known
    ensures |m.heads| == TOP + 1 && NULL <= m.heads[j] < |m.links| && x < |m.links|
    ensures NULL <= m.links[x].next < |m.links| && NULL <= m.links[x].prev < |m.links|
  {
  }

  // kfree's writes keep the header in step with the trees and the maximal blocks linked.
  lemma FreeDone(h: seq<BuddyNode>, h2: seq<BuddyNode>, m: Lists, m': Lists,
                 trees: seq<Tree>, body: nat, known: set<nat>, r: nat, t2: Tree)
    requires WellFormed(trees) && HeaderHolds(h, trees, body) && r < |trees| && Fits(t2, TOP)
    requires SameOutside(h, h2, SLOTS * r, SLOTS * r + Slots(TOP))
    requires Rep(h2, SLOTS * r, TOP, body + PAGES * r, t2)
    requires RootsLinked(m, |trees|) && TouchesOnly(m, m', known) && Contained(m, trees, known)
    ensures WellFormed(trees[r := t2]) && HeaderHolds(h2, trees[r := t2], body)
    ensures RootsLinked(m', |trees|)
    ensures m'.links[SLOTS * r] == m.links[SLOTS * r] && m'.heads[TOP] == m.heads[TOP]
  {
    hide Rep;
    hide Known;
    hide Anchored;
    TopSizes();
    BlockHeaderReplaced(h, h2, trees, body, r, t2);
  }

  ghost predicate HeadsIn(m: Lists) {
    |m.heads| == TOP + 1 && forall j :: 0 <= j < TOP ==> NULL <= m.heads[j] < |m.links|
  }

  predicate AllocatedLeaf(h: seq<BuddyNode>, s: nat, k: nat)
    requires s < |h|
  {
    h[s] == BuddyNode(Pages(k), ALLOCATED, h[s].page, NULL, NULL)
  }

  /** The split loop is at the leaf in slot s with n pages to keep, and from here it ends
      with header h' and links m'. */
  ghost predicate Splitting(h: seq<BuddyNode>, m: Lists, s: nat, k: nat, n: nat, h': seq<BuddyNode>, m': Lists) {
    && k <= TOP && s + Slots(k) <= |h| == |m.links| && 1 <= n <= Pages(k) && HeadsIn(m)
    && AllocatedLeaf(h, s, k)
    && SplitHeader(h, s, k, n) == h' && SplitLinks(m, s, k, n) == m'
  }

  lemma SplittingStarts(h: seq<BuddyNode>, m: Lists, s: nat, k: nat, n: nat)
    requires k <= TOP && s + Slots(k) <= |h| == |m.links| && 1 <= n <= Pages(k) && HeadsIn(m) && AllocatedLeaf(h, s, k)
    ensures |m.heads| == TOP + 1 && Splitting(h, m, s, k, n, SplitHeader(h, s, k, n), SplitLinks(m, s, k, n))
  {
    hide SplitHeader;
    hide SplitLinks;
  }

  lemma SplittingFacts(h: seq<BuddyNode>, m: Lists, s: nat, k: nat, n: nat, h': seq<BuddyNode>, m': Lists)
    requires Splitting(h, m, s, k, n, h', m')
    ensures k <= TOP && s + Slots(k) <= |h| == |m.links| && |m.heads| == TOP + 1 && n <= Pages(k)
    ensures h[s].kind == Pages(k) && h[s].leafLeft == NULL && h[s].leafRight == NULL
    ensures k > 0 ==> Pages(k) == 2 * Pages(k - 1) && NULL <= m.heads[k - 1] < |m.links|
    ensures n < Pages(k) ==> k > 0
  {
    hide SplitHeader;
    hide SplitLinks;
  }

  lemma SplitStep(h: seq<BuddyNode>, m: Lists, s: nat, k: nat, n: nat, h': seq<BuddyNode>, m': Lists)
    requires Splitting(h, m, s, k, n, h', m')
    ensures n == Pages(k) ==> h == h' && m == m'
    ensures n != Pages(k) ==>
              var half, l, r := Pages(k - 1), s + 1, s + Pages(k);
              var m1 := m.Clear(l).Clear(r);
              && HeadsIn(m1) && |m1.links| == |m.links|
              && if n > half then Splitting(SplitNode(h, s, half, ALLOCATED), m1, r, k - 1, n - half, h', m')
                 else
                   && Splitting(SplitNode(h, s, half, UNALLOCATED), Push(m1, k - 1, r), l, k - 1, n, h', m')
                   && (n == half ==> SplitNode(h, s, half, UNALLOCATED) == h' && Push(m1, k - 1, r) == m')
  {
  }

  /** What memory_init writes is a heap of free maximal blocks with empty lists. */
  lemma InitHeap(h: seq<BuddyNode>, m: Lists, trees: seq<Tree>, lists: seq<seq<nat>>, body: nat)
    requires trees != [] && |h| == SLOTS * |trees| == |m.links| && |m.heads| == TOP + 1 && m.heads[TOP] == 0
    requires forall i :: 0 <= i < |trees| ==>
               && trees[i] == Leaf(true)
               && h[SLOTS * i] == BuddyNode(PAGES, UNALLOCATED, body + PAGES * i, NULL, NULL)
               && m.links[SLOTS * i] == RootLink(i, |trees|)
    requires |lists| == TOP && forall j :: 0 <= j < TOP ==> lists[j] == [] && m.heads[j] == NULL
    ensures WellFormed(trees) && HeaderHolds(h, trees, body) && ListsSound(m, lists, trees)
    ensures ListsComplete(lists, trees)
  {
    TopSizes();
    forall i | 0 <= i < |trees|
      ensures Rep(h, SLOTS * i, TOP, body + PAGES * i, trees[i]) && Sound(m, lists, SLOTS * i, TOP, trees[i])
      ensures Complete(lists, SLOTS * i, TOP, trees[i])
    {
      SoundLeaf(m, lists, SLOTS * i, TOP, true);
    }
  }
}

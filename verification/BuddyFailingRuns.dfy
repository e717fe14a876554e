/** Two runs from a fresh heap of one maximal block: one after which a free page is on no
    list, and one after which the list code finds a block twice. */
module BuddyFailingRuns {
  import opened BuddyTree
  import opened BuddyOps
  import opened BuddyRuns
  import opened BuddyMemory
  import opened BuddyLists
  import opened BuddyAgreement
  import opened BuddyHeap
  import opened BuddyReturn
  import opened BuddyDamage
  import opened BuddyLinkedRuns
  import opened BuddyListedRuns

  const FREE := Leaf(true)
  const TAKEN := Leaf(false)

  /** A maximal block made of eight pages, eight pages and sixteen pages. */
  function Shape(p: Tree, q: Tree, r: Tree): Tree {
    Node(Node(p, q), r)
  }

  /** Eight pages, of which the first two are leaves of their own. */
  function Eight(first: Tree, second: Tree): Tree {
    Node(Node(Node(first, second), FREE), FREE)
  }

  /** Lists of at most one node: all links are null. */
  function Plain(heads: seq<int>): Lists {
    Lists(seq(SLOTS, _ => UNLINKED), heads)
  }

  lemma LevelSizes()
    ensures Pages(0) == 1 && Pages(1) == 2 && Pages(2) == 4 && Pages(3) == 8 && Pages(4) == 16 && Pages(5) == 32
    ensures TOP == 5 && SLOTS == 63 && Slots(5) == 63 && Slots(4) == 31 && Slots(3) == 15
  {
  }

  // ---------------------------------------------------------------------------------
  // Slots of the block's parts
  // ---------------------------------------------------------------------------------

  lemma ShapeFits(p: Tree, q: Tree, r: Tree)
    requires Fits(p, 3) && Fits(q, 3) && Fits(r, 4)
    ensures Fits(Shape(p, q, r), TOP)
  {
  }

  // The second eight pages.
  lemma SecondEight(p: Tree, q: Tree, r: Tree, u: Tree)
    requires Fits(p, 3) && Fits(q, 3) && Fits(r, 4) && Fits(u, 3)
    ensures var t := Shape(p, q, r);
            && Fits(t, TOP) && NodeAt(t, TOP, 17) && At(t, TOP, 17) == Spot(3, 8, q)
            && Replace(t, TOP, 17, u) == Shape(p, u, r)
            && NodeStarts(t, TOP, 8) && TopSlot(t, TOP, 8) == 17
  {
    LevelSizes();
    ShapeFits(p, q, r);
    var l := Node(p, q);
    RootSlot(q, 3, u);
    assert NodeAt(l, 4, 16) && At(l, 4, 16) == Spot(3, 8, q) && Replace(l, 4, 16, u) == Node(p, u);
    assert NodeStarts(l, 4, 8) && TopSlot(l, 4, 8) == 16;
  }

  // The last sixteen pages.
  lemma LastSixteen(p: Tree, q: Tree, r: Tree, u: Tree)
    requires Fits(p, 3) && Fits(q, 3) && Fits(r, 4) && Fits(u, 4)
    ensures var t := Shape(p, q, r);
            && Fits(t, TOP) && NodeAt(t, TOP, 32) && At(t, TOP, 32) == Spot(4, 16, r)
            && Replace(t, TOP, 32, u) == Shape(p, q, u)
  {
    LevelSizes();
    ShapeFits(p, q, r);
    RootSlot(r, 4, u);
  }

  // The second page.
  lemma SecondPage(first: Tree, second: Tree, q: Tree, r: Tree, u: Tree)
    requires first.Leaf? && second.Leaf? && u.Leaf? && Fits(q, 3) && Fits(r, 4)
    ensures var t := Shape(Eight(first, second), q, r);
            && Fits(t, TOP) && NodeAt(t, TOP, 6) && At(t, TOP, 6) == Spot(0, 1, second)
            && Replace(t, TOP, 6, u) == Shape(Eight(first, u), q, r)
  {
    LevelSizes();
    var t1 := Node(first, second);
    var t2 := Node(t1, FREE);
    var t3 := Node(t2, FREE);
    var t4 := Node(t3, q);
    RootSlot(second, 0, u);
    assert NodeAt(t1, 1, 2) && At(t1, 1, 2) == Spot(0, 1, second) && Replace(t1, 1, 2, u) == Node(first, u);
    assert NodeAt(t2, 2, 3) && At(t2, 2, 3) == Spot(0, 1, second) && Replace(t2, 2, 3, u) == Node(Node(first, u), FREE);
    assert NodeAt(t3, 3, 4) && At(t3, 3, 4) == Spot(0, 1, second) && Replace(t3, 3, 4, u) == Eight(first, u);
    assert NodeAt(t4, 4, 5) && At(t4, 4, 5) == Spot(0, 1, second) && Replace(t4, 4, 5, u) == Node(Eight(first, u), q);
  }

  // ---------------------------------------------------------------------------------
  // kalloc
  // ---------------------------------------------------------------------------------

  // Splitting for one page puts one block on each list below the level.
  lemma {:induction false} SplitForOne(heads: seq<int>, s: nat, k: nat)
    requires |heads| == TOP + 1 && k <= TOP && s + Slots(k) <= SLOTS && forall j :: 0 <= j < k ==> heads[j] == NULL
    ensures var m' := SplitLinks(Plain(heads), s, k, 1);
            && m' == Plain(m'.heads) && |m'.heads| == TOP + 1
            && (forall j :: 0 <= j < k ==> m'.heads[j] == s + (k - 1 - j) + Pages(j + 1))
            && (forall j :: k <= j <= TOP ==> m'.heads[j] == heads[j])
    decreases k
  {
    hide SplitLinks;
    hide Push;
    hide Lists.Clear;
    LevelSizes();
    if k == 0 {
      LinksStop(Plain(heads), s, k);
    } else {
      PairApart(k);
      LinksGoOn(Plain(heads), s, k, 1);
      ClearsNothing(heads, s + 1);
      ClearsNothing(heads, s + Pages(k));
      PushAlone(heads, k - 1, s + Pages(k));
      SplitForOne(heads[k - 1 := s + Pages(k)], s + 1, k - 1);
    }
  }

  lemma ClearsNothing(heads: seq<int>, y: int)
    ensures Plain(heads).Clear(y) == Plain(heads)
  {
    if 0 <= y < SLOTS {
      assert Plain(heads).links[y := UNLINKED] == Plain(heads).links;
    }
  }

  lemma PushAlone(heads: seq<int>, j: nat, x: nat)
    requires j < |heads| && heads[j] == NULL && x < SLOTS
    ensures Push(Plain(heads), j, x) == Plain(heads[j := x])
  {
    assert Plain(heads).links[x := UNLINKED] == Plain(heads).links;
  }

  lemma PopAlone(heads: seq<int>, j: nat, x: nat)
    requires j < |heads| && heads[j] == x && x < SLOTS
    ensures Pop(Plain(heads), j, x) == Plain(heads[j := NULL])
  {
    ClearsNothing(heads[j := NULL], x);
  }

  function Start(): LinkedHeap {
    LinkedHeap(Heap([FREE], []), Plain([NULL, NULL, NULL, NULL, NULL, 0]))
  }

  // After kalloc(1).
  function OneTaken(): LinkedHeap {
    LinkedHeap(Heap([Shape(Eight(TAKEN, FREE), FREE, FREE)], [Block(0, 0, 1)]), Plain([6, 7, 10, 17, 32, 0]))
  }

  // After kalloc(1) again.
  function TwoTaken(): LinkedHeap {
    LinkedHeap(Heap([Shape(Eight(TAKEN, TAKEN), FREE, FREE)], [Block(0, 0, 1), Block(0, 1, 1)]),
               Plain([NULL, 7, 10, 17, 32, 0]))
  }

  // After kalloc(8).
  function ThreeTaken(): LinkedHeap {
    LinkedHeap(Heap([Shape(Eight(TAKEN, TAKEN), TAKEN, FREE)], [Block(0, 0, 1), Block(0, 1, 1), Block(0, 8, 8)]),
               Plain([NULL, 7, 10, NULL, 32, 0]))
  }

  // After kalloc(8) again.
  function FourTaken(): LinkedHeap {
    LinkedHeap(Heap([Shape(Eight(TAKEN, TAKEN), TAKEN, Node(TAKEN, FREE))],
                    [Block(0, 0, 1), Block(0, 1, 1), Block(0, 8, 8), Block(0, 16, 8)]),
               Plain([NULL, 7, 10, 48, NULL, 0]))
  }

  lemma StartIsInit()
    ensures LinkedInit(Start())
  {
  }

  lemma FirstCall()
    ensures WellFormed(Start().heap.trees) && LinkedStep(Start(), KAlloc(0, 0, 1), OneTaken())
  {
    hide SplitLinks;
    hide Carve;
    hide Plain;
    LevelSizes();
    FirstSplit();
    CarveOne();
    ShapeFits(Eight(TAKEN, FREE), FREE, FREE);
    RootSlot(FREE, TOP, Carve(TOP, 1));
    PlainSize([NULL, NULL, NULL, NULL, NULL, 0]);
    hide Shape;
    hide Eight;
    hide NodeAt;
    hide At;
    hide Replace;
    assert [FREE][0 := Carve(TOP, 1)] == OneTaken().heap.trees;
    assert [] + [Block(0, 0, 1)] == OneTaken().heap.live;
  }

  lemma PlainSize(heads: seq<int>)
    ensures |Plain(heads).links| == SLOTS && Plain(heads).heads == heads
  {
  }

  lemma FirstSplit()
    ensures Slots(TOP) == SLOTS && SplitLinks(Start().links, 0, TOP, 1) == OneTaken().links
  {
    hide SplitLinks;
    hide Plain;
    LevelSizes();
    var heads := [NULL, NULL, NULL, NULL, NULL, 0];
    PlainSize(heads);
    SplitForOne(heads, 0, TOP);
    assert SplitLinks(Plain(heads), 0, TOP, 1).heads == [6, 7, 10, 17, 32, 0];
  }

  lemma CarveOne()
    ensures Carve(TOP, 1) == Shape(Eight(TAKEN, FREE), FREE, FREE)
  {
    LevelSizes();
    assert Carve(1, 1) == Node(TAKEN, FREE);
    assert Carve(2, 1) == Node(Carve(1, 1), FREE);
    assert Carve(3, 1) == Node(Carve(2, 1), FREE);
    assert Carve(4, 1) == Node(Carve(3, 1), FREE);
  }

  // kalloc of a whole block that is alone on its list.
  lemma TakeAlone(t: Tree, t': Tree, live: seq<Block>, heads: seq<int>, x: nat, k: nat, p: nat)
    requires Fits(t, TOP) && NodeAt(t, TOP, x) && At(t, TOP, x) == Spot(k, p, FREE) && k < TOP
    requires t' == Replace(t, TOP, x, TAKEN) && |heads| == TOP + 1 && heads[k] == x
    ensures LinkedStep(LinkedHeap(Heap([t], live), Plain(heads)), KAlloc(0, x, Pages(k)),
                       LinkedHeap(Heap([t'], live + [Block(0, p, Pages(k))]), Plain(heads[k := NULL])))
  {
    hide At;
    hide NodeAt;
    hide Replace;
    hide Pop;
    hide SplitLinks;
    hide Carve;
    hide Pages;
    LevelSizes();
    SlotsInside(t, TOP, x);
    PopAlone(heads, k, x);
    LinksStop(Plain(heads[k := NULL]), x, k);
    assert [t][0 := t'] == [t'];
  }

  lemma SecondCall()
    ensures WellFormed(OneTaken().heap.trees) && LinkedStep(OneTaken(), KAlloc(0, 6, 1), TwoTaken())
  {
    var t, t' := OneTaken().heap.trees[0], TwoTaken().heap.trees[0];
    var live, heads := OneTaken().heap.live, OneTaken().links.heads;
    assert live + [Block(0, 1, 1)] == TwoTaken().heap.live && heads[0 := NULL] == TwoTaken().links.heads;
    SecondPage(TAKEN, FREE, FREE, FREE, TAKEN);
    hide LinkedStep;
    TakeAlone(t, t', live, heads, 6, 0, 1);
  }

  lemma ThirdCall()
    ensures WellFormed(TwoTaken().heap.trees) && LinkedStep(TwoTaken(), KAlloc(0, 17, 8), ThreeTaken())
  {
    var t, t' := TwoTaken().heap.trees[0], ThreeTaken().heap.trees[0];
    var live, heads := TwoTaken().heap.live, TwoTaken().links.heads;
    assert live + [Block(0, 8, 8)] == ThreeTaken().heap.live && heads[3 := NULL] == ThreeTaken().links.heads;
    LevelSizes();
    SecondEight(Eight(TAKEN, TAKEN), FREE, FREE, TAKEN);
    hide LinkedStep;
    TakeAlone(t, t', live, heads, 17, 3, 8);
  }

  lemma FourthCall()
    ensures WellFormed(ThreeTaken().heap.trees) && LinkedStep(ThreeTaken(), KAlloc(0, 32, 8), FourTaken())
  {
    LevelSizes();
    LastSixteen(Eight(TAKEN, TAKEN), TAKEN, FREE, Node(TAKEN, FREE));
    var heads := ThreeTaken().links.heads;
    PopAlone(heads, 4, 32);
    SplitForEight(heads[4 := NULL]);
    hide At;
    hide NodeAt;
    hide Replace;
    hide Pop;
    hide SplitLinks;
    assert Carve(4, 8) == Node(TAKEN, FREE);
    assert ThreeTaken().heap.trees[0 := FourTaken().heap.trees[0]] == FourTaken().heap.trees;
    assert ThreeTaken().heap.live + [Block(0, 16, 8)] == FourTaken().heap.live;
    assert heads[4 := NULL][3 := 48] == FourTaken().links.heads;
  }

  lemma SplitForEight(heads: seq<int>)
    requires |heads| == TOP + 1 && heads[3] == NULL
    ensures Slots(4) == 31 && Pages(4) == 16 && SplitLinks(Plain(heads), 32, 4, 8) == Plain(heads[3 := 48])
  {
    LevelSizes();
    ClearsNothing(heads, 33);
    ClearsNothing(heads, 48);
    PushAlone(heads, 3, 48);
    assert SplitLinks(Plain(heads[3 := 48]), 33, 3, 8) == Plain(heads[3 := 48]);
  }

  // ---------------------------------------------------------------------------------
  // kfree: a page that is on no list
  // ---------------------------------------------------------------------------------

  // The block behind page 0 is the whole maximal block.
  lemma FirstPageFound(t: Tree)
    requires Fits(t, TOP)
    ensures NodeStarts(t, TOP, 0) && TopSlot(t, TOP, 0) == 0 && At(t, TOP, 0) == Spot(TOP, 0, t)
  {
  }

  lemma MergesFirstPage(q: Tree, r: Tree)
    requires Fits(q, 3) && Fits(r, 4)
    ensures var t := Shape(Eight(TAKEN, TAKEN), q, r);
            Fits(t, TOP) && Merge(t, TOP, 1) == Shape(Eight(FREE, TAKEN), q, r)
  {
    LevelSizes();
    ShapeFits(Eight(TAKEN, TAKEN), q, r);
    var t1 := Node(TAKEN, TAKEN);
    var t2 := Node(t1, FREE);
    var t3 := Node(t2, FREE);
    assert Merge(t1, 1, 1) == Node(FREE, TAKEN);
    assert Merge(t2, 2, 1) == Node(Node(FREE, TAKEN), FREE);
    assert Merge(t3, 3, 1) == Eight(FREE, TAKEN);
    assert Merge(Node(t3, q), 4, 1) == Node(Eight(FREE, TAKEN), q);
  }

  /** kalloc(1), kalloc(1), and kfree of the first page: the block found is the whole 128K,
      which also hold the second page, so the freed page gets on no list. */
  lemma LostPage() returns (ss: seq<LinkedHeap>, ops: seq<Op>)
    ensures IsLinkedRun(ss, ops) && ops == [KAlloc(0, 0, 1), KAlloc(0, 6, 1), KFree(0)]
    ensures Inv(ss[3].heap) && WellFormed(ss[3].heap.trees) && !Agree(ss[3].links, ss[3].heap.trees)
    ensures |ss[3].heap.trees| == 1 && PageFree(ss[3].heap.trees[0], TOP, 0)
  {
    hide LinkedStep;
    hide LinkedInit;
    hide LinkedInv;
    hide Inv;
    hide Agree;
    StartIsInit();
    InitLinked(Start());
    FirstCall();
    SecondCall();
    LinkedStepIff(Start(), KAlloc(0, 0, 1), OneTaken());
    LinkedStepIff(OneTaken(), KAlloc(0, 6, 1), TwoTaken());
    var s := FreeFirstPage();
    LinkedStepIff(TwoTaken(), KFree(0), s);
    KeepsInv(TwoTaken(), KFree(0), s);
    ss, ops := [Start(), OneTaken(), TwoTaken(), s], [KAlloc(0, 0, 1), KAlloc(0, 6, 1), KFree(0)];
  }

  lemma KeepsInv(s: LinkedHeap, op: Op, s': LinkedHeap)
    requires LinkedInv(s) && LinkedStep(s, op, s')
    ensures Inv(s'.heap)
  {
    StepKeepsInv(s.heap, op, s'.heap);
  }

  lemma FreeFirstPage() returns (s': LinkedHeap)
    ensures WellFormed(TwoTaken().heap.trees) && LinkedStep(TwoTaken(), KFree(0), s') && !CleanStep(TwoTaken(), KFree(0))
    ensures |s'.heap.trees| == 1 && Fits(s'.heap.trees[0], TOP) && PageFree(s'.heap.trees[0], TOP, 0)
  {
    LevelSizes();
    var s := TwoTaken();
    var t, t' := s.heap.trees[0], Shape(Eight(FREE, TAKEN), FREE, FREE);
    FirstPageFound(t);
    MergesFirstPage(FREE, FREE);
    ShapeFits(Eight(FREE, TAKEN), FREE, FREE);
    FirstPageFound(t');
    FreedAsMerged(s.links, t, t');
    hide Free;
    hide FreeLinks;
    s' := LinkedHeap(Heap([t'], [Block(0, 1, 1)]), FreeLinks(s.links, 0, t, 0, 1));
    assert s.heap.live[..0] + s.heap.live[0 + 1..] == [Block(0, 1, 1)];
    assert s.heap.trees[0 := t'] == [t'];
    FirstPageFree(FREE, FREE);
  }

  lemma FirstPageFree(q: Tree, r: Tree)
    requires Fits(q, 3) && Fits(r, 4)
    ensures var t := Shape(Eight(FREE, TAKEN), q, r); Fits(t, TOP) && PageFree(t, TOP, 0)
  {
    LevelSizes();
    ShapeFits(Eight(FREE, TAKEN), q, r);
    assert PageFree(Node(Node(FREE, TAKEN), FREE), 2, 0);
    assert PageFree(Node(Eight(FREE, TAKEN), q), 4, 0);
  }

  // kfree of page 0 when the whole maximal block is found and stays split.
  lemma FreedAsMerged(m: Lists, t: Tree, t': Tree)
    requires Fits(t, TOP) && Coalesced(t) && Merge(t, TOP, 1) == t' && t'.Node?
    requires |m.links| == SLOTS == Slots(TOP) && |m.heads| == TOP + 1
    ensures NodeStarts(t, TOP, 0) && Free(t, TOP, 0, 1) == t' && !FreesWhole(t, 0, 1)
    ensures FreeLinks(m, 0, t, 0, 1) == MergeLinks(m, 0, TOP, t, 1)
  {
    hide Merge;
    hide MergeLinks;
    hide Free;
    hide FreeLinks;
    FirstPageFound(t);
    FreeLinksPart(m, 0, t, 0, 1);
    RootSlot(t, TOP, t');
  }

  // ---------------------------------------------------------------------------------
  // kfree: a block that is found twice
  // ---------------------------------------------------------------------------------

  const LAST := Node(TAKEN, FREE)

  // After kfree of the eight pages from page 8: slot 17 is on the list, in front of slot 48.
  function EightFreed(): LinkedHeap {
    LinkedHeap(Heap([Shape(Eight(TAKEN, TAKEN), FREE, LAST)], [Block(0, 0, 1), Block(0, 1, 1), Block(0, 16, 8)]),
               Push(FourTaken().links, 3, 17))
  }

  // After kfree of the first page: slot 17 was pushed again.
  function PageFreed(): LinkedHeap {
    LinkedHeap(Heap([Shape(Eight(FREE, TAKEN), FREE, LAST)], [Block(0, 1, 1), Block(0, 16, 8)]),
               Push(EightFreed().links, 3, 17))
  }

  // After kalloc(8).
  function EightTaken(): LinkedHeap {
    LinkedHeap(Heap([Shape(Eight(FREE, TAKEN), TAKEN, LAST)], [Block(0, 1, 1), Block(0, 16, 8), Block(0, 8, 8)]),
               Pop(PageFreed().links, 3, 17))
  }

  lemma LinksAre()
    ensures var m5, m6, m7 := EightFreed().links, PageFreed().links, EightTaken().links;
            && |m5.links| == |m6.links| == SLOTS && |m5.heads| == |m6.heads| == TOP + 1
            && m5.links[17] == Link(48, NULL) && m5.heads[3] == 17
            && m5.links[5] == m5.links[7] == m5.links[10] == UNLINKED
            && m6.links[17] == Link(17, 17) && m6.heads[3] == 17
            && |m7.heads| == TOP + 1 && m7.heads[3] == 17
  {
  }

  lemma FifthCall()
    ensures WellFormed(FourTaken().heap.trees) && LinkedStep(FourTaken(), KFree(2), EightFreed())
  {
    LevelSizes();
    FifthTree();
    PlainSize(FourTaken().links.heads);
    var s, t, t' := FourTaken(), FourTaken().heap.trees[0], EightFreed().heap.trees[0];
    FreedAlone(s.links, t, t', 17, 3, 8);
    hide Free;
    hide FreeLinks;
    hide TopSlot;
    hide NodeStarts;
    hide At;
    hide NodeAt;
    hide Push;
    hide Shape;
    hide Eight;
    hide Plain;
    assert s.heap.live[..2] + s.heap.live[2 + 1..] == EightFreed().heap.live;
    assert s.heap.trees[0 := t'] == [t'];
  }

  lemma FifthTree()
    ensures var t, t' := Shape(Eight(TAKEN, TAKEN), TAKEN, LAST), Shape(Eight(TAKEN, TAKEN), FREE, LAST);
            && Fits(t, TOP) && NodeStarts(t, TOP, 8) && TopSlot(t, TOP, 8) == 17 && At(t, TOP, 17) == Spot(3, 8, TAKEN)
            && t' == Replace(t, TOP, 17, FREE) && Coalesced(t')
            && NodeAt(t', TOP, 17) && At(t', TOP, 17).sub == FREE
  {
    hide NodeAt;
    hide At;
    hide Replace;
    hide TopSlot;
    hide NodeStarts;
    LevelSizes();
    SecondEight(Eight(TAKEN, TAKEN), TAKEN, LAST, FREE);
    SecondEight(Eight(TAKEN, TAKEN), FREE, LAST, FREE);
    assert Coalesced(Eight(TAKEN, TAKEN));
  }

  // kfree of a whole leaf that stays a node of its own.
  lemma FreedAlone(m: Lists, t: Tree, t': Tree, x: nat, k: nat, a: nat)
    requires Fits(t, TOP) && NodeStarts(t, TOP, a) && TopSlot(t, TOP, a) == x && At(t, TOP, x) == Spot(k, a, TAKEN)
    requires t' == Replace(t, TOP, x, FREE) && Coalesced(t') && x > 0 && k < TOP
    requires NodeAt(t', TOP, x) && At(t', TOP, x).sub == FREE
    requires |m.links| == SLOTS == Slots(TOP) && |m.heads| == TOP + 1
    ensures Free(t, TOP, a, Pages(k)) == t' && FreeLinks(m, 0, t, a, Pages(k)) == Push(m, k, x)
  {
    hide TopSlot;
    hide NodeStarts;
    hide At;
    hide NodeAt;
    hide Replace;
    hide Coalesce;
    hide CoalesceLinks;
    hide Coalesced;
    hide Push;
    SlotsInside(t, TOP, x);
    assert Merge(TAKEN, k, Pages(k)) == FREE && MergeLinks(m, x, k, TAKEN, Pages(k)) == m;
    hide Merge;
    hide MergeLinks;
    CoalescedIsFixed(t');
    CoalescedLinksStay(m, 0, TOP, t');
  }

  // merge_bnode from the maximal block with limit 1: the second eight pages are pushed if linked.
  lemma MergeFirstPage(m: Lists, q: Tree, r: Tree)
    requires Fits(q, 3) && Fits(r, 4) && r != FREE && |m.links| == SLOTS && |m.heads| == TOP + 1
    requires m.links[5] == m.links[7] == m.links[10] == UNLINKED
    ensures var t := Shape(Eight(TAKEN, TAKEN), q, r);
            Fits(t, TOP) && Slots(TOP) == SLOTS && MergeLinks(m, 0, TOP, t, 1) == Repush(m, 3, 17, q == FREE)
  {
    hide Push;
    LevelSizes();
    ShapeFits(Eight(TAKEN, TAKEN), q, r);
    MergesFirstPage(q, r);
    var t1 := Node(TAKEN, TAKEN);
    var t2 := Node(t1, FREE);
    var t3 := Node(t2, FREE);
    var t4 := Node(t3, q);
    assert Merge(t1, 1, 1) == Node(FREE, TAKEN) && Merge(t2, 2, 1) == Node(Node(FREE, TAKEN), FREE);
    assert Merge(t3, 3, 1) == Eight(FREE, TAKEN) && Merge(t4, 4, 1) == Node(Eight(FREE, TAKEN), q);
    hide Merge;
    assert MergeLinks(m, 4, 1, t1, 1) == m;
    assert MergeLinks(m, 3, 2, t2, 1) == m;
    assert MergeLinks(m, 2, 3, t3, 1) == m;
    assert MergeLinks(m, 1, 4, t4, 1) == Repush(m, 3, 17, q == FREE);
  }

  lemma SixthCall()
    ensures WellFormed(EightFreed().heap.trees) && LinkedStep(EightFreed(), KFree(0), PageFreed())
  {
    hide Free;
    hide FreeLinks;
    hide MergeLinks;
    hide Push;
    hide Plain;
    LevelSizes();
    LinksAre();
    SixthTree();
    var s, t, t' := EightFreed(), EightFreed().heap.trees[0], PageFreed().heap.trees[0];
    FreedAsMerged(s.links, t, t');
    MergeFirstPage(s.links, FREE, LAST);
    hide Shape;
    hide Eight;
    hide Merge;
    hide NodeStarts;
    assert s.heap.live[..0] + s.heap.live[0 + 1..] == PageFreed().heap.live;
    assert s.heap.trees[0 := t'] == [t'];
  }

  lemma SixthTree()
    ensures var t := Shape(Eight(TAKEN, TAKEN), FREE, LAST);
            Fits(t, TOP) && Coalesced(t) && Merge(t, TOP, 1) == Shape(Eight(FREE, TAKEN), FREE, LAST)
  {
    hide Merge;
    LevelSizes();
    MergesFirstPage(FREE, LAST);
    assert Coalesced(Eight(TAKEN, TAKEN));
  }

  lemma SeventhCall()
    ensures WellFormed(PageFreed().heap.trees) && LinkedStep(PageFreed(), KAlloc(0, 17, 8), EightTaken())
    ensures |EightTaken().heap.trees| == 1 && Fits(EightTaken().heap.trees[0], TOP)
    ensures NodeAt(EightTaken().heap.trees[0], TOP, 17) && At(EightTaken().heap.trees[0], TOP, 17) == Spot(3, 8, TAKEN)
  {
    hide At;
    hide NodeAt;
    hide Replace;
    hide Pop;
    hide Push;
    hide SplitLinks;
    hide Carve;
    hide Plain;
    LevelSizes();
    LinksAre();
    var s, t' := PageFreed(), EightTaken().heap.trees[0];
    SecondEight(Eight(FREE, TAKEN), FREE, LAST, TAKEN);
    SecondEight(Eight(FREE, TAKEN), TAKEN, LAST, TAKEN);
    LinksStop(Pop(s.links, 3, 17), 17, 3);
    hide Shape;
    hide Eight;
    assert s.heap.live + [Block(0, 8, 8)] == EightTaken().heap.live;
    assert s.heap.trees[0 := t'] == [t'];
  }

  // The list's head has a predecessor.
  lemma PageFreedHasNoLists()
    requires WellFormed(PageFreed().heap.trees)
    ensures !HasLists(PageFreed().links, PageFreed().heap.trees)
  {
    LinksAre();
    var m, trees := PageFreed().links, PageFreed().heap.trees;
    hide Push;
    if HasLists(m, trees) {
      var lists :| ListsSound(m, lists, trees);
      FirstHasNoPred(m.links, m.heads[3], lists[3]);
      assert false;
    }
  }

  /** kalloc(1), kalloc(1), kalloc(8), kalloc(8), kfree of the third and then of the first:
      the free block in slot 17 is pushed a second time, which leaves no well formed lists.
      The next kalloc(8) takes it, and it is first on its list again, though allocated: one
      more kalloc(8) hands out the same pages. */
  lemma TwiceFound() returns (ss: seq<LinkedHeap>, ops: seq<Op>)
    ensures IsLinkedRun(ss, ops)
    ensures ops == [KAlloc(0, 0, 1), KAlloc(0, 6, 1), KAlloc(0, 17, 8), KAlloc(0, 32, 8), KFree(2), KFree(0),
                    KAlloc(0, 17, 8)]
    ensures WellFormed(ss[5].heap.trees) && !SafeStep(ss[5], KFree(0))
    ensures WellFormed(ss[6].heap.trees) && !HasLists(ss[6].links, ss[6].heap.trees)
    ensures |ss[6].links.heads| == TOP + 1 && HeadAfter(ss[6].links, 3, 0) == HeadAfter(ss[6].links, 3, 1) == 17
    ensures |ss[7].heap.trees| == 1 && Fits(ss[7].heap.trees[0], TOP) && |ss[7].links.heads| == TOP + 1
    ensures NodeAt(ss[7].heap.trees[0], TOP, 17) && At(ss[7].heap.trees[0], TOP, 17) == Spot(3, 8, Leaf(false))
    ensures Block(0, 8, 8) in ss[7].heap.live && ss[7].links.heads[3] == 17
  {
    hide LinkedStep;
    hide LinkedInit;
    hide IsLinkedRun;
    hide SafeStep;
    hide ListedInv;
    hide HasLists;
    hide NodeAt;
    hide At;
    StartIsInit();
    FirstCall();
    SecondCall();
    ThirdCall();
    FourthCall();
    FifthCall();
    SixthCall();
    SeventhCall();
    PageFreedHasNoLists();
    LinksAre();
    ops := [KAlloc(0, 0, 1), KAlloc(0, 6, 1), KAlloc(0, 17, 8), KAlloc(0, 32, 8), KFree(2), KFree(0), KAlloc(0, 17, 8)];
    ss := [Start(), OneTaken(), TwoTaken(), ThreeTaken(), FourTaken(), EightFreed(), PageFreed(), EightTaken()];
    SevenSteps(ss, ops);
    ListedUpTo();
    ListedStepIff(EightFreed(), KFree(0), PageFreed());
    assert HeadAfter(PageFreed().links, 3, 1) == HeadAfter(EightTaken().links, 3, 0);
    assert EightTaken().heap.live[2] == Block(0, 8, 8);
  }

  lemma SevenSteps(ss: seq<LinkedHeap>, ops: seq<Op>)
    requires |ss| == 8 && |ops| == 7 && LinkedInit(ss[0])
    requires WellFormed(ss[0].heap.trees) && LinkedStep(ss[0], ops[0], ss[1])
    requires WellFormed(ss[1].heap.trees) && LinkedStep(ss[1], ops[1], ss[2])
    requires WellFormed(ss[2].heap.trees) && LinkedStep(ss[2], ops[2], ss[3])
    requires WellFormed(ss[3].heap.trees) && LinkedStep(ss[3], ops[3], ss[4])
    requires WellFormed(ss[4].heap.trees) && LinkedStep(ss[4], ops[4], ss[5])
    requires WellFormed(ss[5].heap.trees) && LinkedStep(ss[5], ops[5], ss[6])
    requires WellFormed(ss[6].heap.trees) && LinkedStep(ss[6], ops[6], ss[7])
    ensures IsLinkedRun(ss, ops)
  {
    hide LinkedStep;
    hide LinkedInit;
    hide WellFormed;
  }

  // The lists are well formed up to the fifth call.
  lemma ListedUpTo()
    ensures ListedInv(EightFreed())
  {
    hide LinkedStep;
    hide LinkedInit;
    hide ListedInv;
    hide SafeStep;
    StartIsInit();
    FirstCall();
    SecondCall();
    ThirdCall();
    FourthCall();
    FifthCall();
    InitListed(Start());
    CallKeepsListed(Start(), KAlloc(0, 0, 1), OneTaken());
    CallKeepsListed(OneTaken(), KAlloc(0, 6, 1), TwoTaken());
    CallKeepsListed(TwoTaken(), KAlloc(0, 17, 8), ThreeTaken());
    CallKeepsListed(ThreeTaken(), KAlloc(0, 32, 8), FourTaken());
    EightFreedSafely();
    CallKeepsListed(FourTaken(), KFree(2), EightFreed());
  }

  lemma CallKeepsListed(s: LinkedHeap, op: Op, s': LinkedHeap)
    requires ListedInv(s) && LinkedStep(s, op, s') && (op.KFree? ==> SafeStep(s, op))
    ensures ListedInv(s')
  {
    hide LinkedStep;
    hide Inv;
    hide HasLists;
    hide PushesNothing;
    ListedStepIff(s, op, s');
  }

  lemma EightFreedSafely()
    requires WellFormed(FourTaken().heap.trees)
    ensures SafeStep(FourTaken(), KFree(2))
  {
    LevelSizes();
    SecondEight(Eight(TAKEN, TAKEN), TAKEN, LAST, FREE);
    hide TopSlot;
    hide NodeStarts;
    hide At;
    hide NodeAt;
  }
}

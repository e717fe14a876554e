/** The intrusive doubly linked free lists: what kalloc and kfree write to the links, and
    when the lists hold what they should.  A write through a null link lands in memory
    outside the header and is modelled as no write. */
module BuddyLists {
  import opened BuddyMemory
  import opened Sequences

  datatype Link = Link(next: int, prev: int)

  const UNLINKED := Link(NULL, NULL)

  /** The links of all slots; heads[j] is the first node of the list of level j. */
  datatype Lists = Lists(links: seq<Link>, heads: seq<int>) {
    function SetNext(y: int, v: int): Lists {
      if 0 <= y < |links| then this.(links := links[y := links[y].(next := v)]) else this
    }

    function SetPrev(y: int, v: int): Lists {
      if 0 <= y < |links| then this.(links := links[y := links[y].(prev := v)]) else this
    }

    function SetHead(j: nat, y: int): Lists {
      if j < |heads| then this.(heads := heads[j := y]) else this
    }

    /** The links init_bnode writes. */
    function Clear(y: int): Lists {
      if 0 <= y < |links| then this.(links := links[y := UNLINKED]) else this
    }

    predicate SameShape(m: Lists) {
      |m.links| == |links| && |m.heads| == |heads|
    }
  }

  /** The guarded unlinking in merge_bnode and merge_bnode_nolimit. */
  function Unlink(m: Lists, j: nat, x: nat): (m': Lists)
    requires x < |m.links| && j < |m.heads|
    ensures m.SameShape(m')
  {
    if m.links[x] != UNLINKED || m.heads[j] == x then
      var m1 := if m.heads[j] == x then m.SetHead(j, m.links[x].next) else m;
      var m2 := m1.SetNext(m1.links[x].prev, m1.links[x].next);
      m2.SetPrev(m2.links[x].next, m2.links[x].prev).Clear(x)
    else m
  }

  /** Link x in front of list j; x's own prev link is left as it is. */
  function Push(m: Lists, j: nat, x: nat): (m': Lists)
    requires x < |m.links| && j < |m.heads|
    ensures m.SameShape(m')
  {
    m.SetNext(x, m.heads[j]).SetPrev(m.heads[j], x).SetHead(j, x)
  }

  /** merge_bnode's guarded push of a child that was not merged. */
  function Repush(m: Lists, j: nat, x: nat, free: bool): (m': Lists)
    requires x < |m.links| && j < |m.heads|
    ensures m.SameShape(m')
  {
    if free && m.links[x] != UNLINKED then Push(m, j, x) else m
  }

  /** kalloc takes x, the first node of list j. */
  function Pop(m: Lists, j: nat, x: nat): (m': Lists)
    requires x < |m.links| && j < |m.heads|
    ensures m.SameShape(m')
  {
    m.SetHead(j, m.links[x].next).SetPrev(m.links[x].next, NULL).Clear(x)
  }

  // ---------------------------------------------------------------------------------
  // Doubly linked lists
  // ---------------------------------------------------------------------------------

  function SuccOf(l: seq<nat>, i: nat): int
    requires i < |l|
  {
    if i + 1 < |l| then l[i + 1] else NULL
  }

  function PredOf(l: seq<nat>, i: nat): int
    requires i < |l|
  {
    if i > 0 then l[i - 1] else NULL
  }

  predicate Linked(links: seq<Link>, l: seq<nat>, i: nat)
    requires i < |l| && l[i] < |links|
  {
    links[l[i]] == Link(SuccOf(l, i), PredOf(l, i))
  }

  /** From `head` on, the links run through l and back, ending in null: an acyclic, doubly
      linked list of exactly the nodes of l. */
  ghost predicate IsList(links: seq<Link>, head: int, l: seq<nat>) {
    && head == (if l == [] then NULL else l[0])
    && Distinct(l) && (forall i :: 0 <= i < |l| ==> l[i] < |links|)
    && forall i :: 0 <= i < |l| ==> Linked(links, l, i)
  }

  function Without(l: seq<nat>, i: nat): seq<nat>
    requires i < |l|
  {
    l[..i] + l[i + 1..]
  }

  /** The guard of the unlinking code holds exactly for the nodes on the list, provided
      nodes off the list have null links. */
  lemma UnlinkGuard(m: Lists, j: nat, l: seq<nat>, x: nat)
    requires j < |m.heads| && x < |m.links| && IsList(m.links, m.heads[j], l)
    requires x !in l ==> m.links[x] == UNLINKED
    ensures x in l <==> m.links[x] != UNLINKED || m.heads[j] == x
  {
    if x in l {
      var i :| 0 <= i < |l| && l[i] == x;
      assert Linked(m.links, l, i);
    }
  }

  /** The link of y after x was unlinked: its neighbours now point past it. */
  function Bypassed(links: seq<Link>, x: nat, y: nat): Link
    requires x < |links| && y < |links|
  {
    var n, p := links[x].next, links[x].prev;
    if y == x then UNLINKED
    else Link(if y == p then n else links[y].next, if y == n then p else links[y].prev)
  }

  // What unlinking writes, for a node that is not its own neighbour.
  lemma UnlinkWrites(m: Lists, j: nat, x: nat, y: nat)
    requires x < |m.links| && y < |m.links| && j < |m.heads|
    requires m.links[x] != UNLINKED || m.heads[j] == x
    requires m.links[x].next != x && m.links[x].prev != x
    ensures Unlink(m, j, x).links[y] == Bypassed(m.links, x, y)
    ensures Unlink(m, j, x).heads == if m.heads[j] == x then m.heads[j := m.links[x].next] else m.heads
  {
  }

  lemma BypassedNeighbour(links: seq<Link>, head: int, l: seq<nat>, i: nat, q: nat)
    requires IsList(links, head, l) && i < |l| && q < |l| && q != i
    ensures var r, p := Without(l, i), if q < i then q else q - 1;
            r[p] == l[q] && Bypassed(links, l[i], l[q]) == Link(SuccOf(r, p), PredOf(r, p))
  {
    assert Linked(links, l, i) && Linked(links, l, q);
    if q + 1 == i || i + 1 == q {
    } else {
      assert i + 1 < |l| ==> l[i + 1] != l[q];
      assert i > 0 ==> l[i - 1] != l[q];
    }
  }

  lemma BypassedIsList(links: seq<Link>, links': seq<Link>, head: int, l: seq<nat>, i: nat)
    requires IsList(links, head, l) && i < |l| && |links'| == |links|
    requires forall y :: 0 <= y < |links| ==> links'[y] == Bypassed(links, l[i], y)
    ensures IsList(links', if head == l[i] then links[l[i]].next else head, Without(l, i))
  {
    var r := Without(l, i);
    assert Linked(links, l, i);
    forall p | 0 <= p < |r|
      ensures r[p] < |links'| && Linked(links', r, p)
    {
      BypassedNeighbour(links, head, l, i, if p < i then p else p + 1);
    }
  }

  /** Unlinking takes exactly the node itself off its list. */
  lemma UnlinkFromList(m: Lists, j: nat, l: seq<nat>, i: nat)
    requires j < |m.heads| && IsList(m.links, m.heads[j], l) && i < |l|
    ensures var m' := Unlink(m, j, l[i]);
            && IsList(m'.links, m'.heads[j], Without(l, i)) && m'.links[l[i]] == UNLINKED
            && (forall y :: 0 <= y < |m.links| && y !in l ==> m'.links[y] == m.links[y])
            && (forall q :: 0 <= q < |m.heads| && q != j ==> m'.heads[q] == m.heads[q])
  {
    var x := l[i];
    var m' := Unlink(m, j, x);
    assert Linked(m.links, l, i);
    forall y | 0 <= y < |m.links|
      ensures m'.links[y] == Bypassed(m.links, x, y)
      ensures m'.heads == if m.heads[j] == x then m.heads[j := m.links[x].next] else m.heads
    {
      UnlinkWrites(m, j, x, y);
    }
    BypassedIsList(m.links, m'.links, m.heads[j], l, i);
  }

  /** Pushing a node that is off the list and has no predecessor puts it in front. */
  lemma PushOnList(m: Lists, j: nat, l: seq<nat>, x: nat)
    requires j < |m.heads| && x < |m.links| && IsList(m.links, m.heads[j], l)
    requires x !in l && m.links[x].prev == NULL
    ensures var m' := Push(m, j, x);
            && IsList(m'.links, m'.heads[j], [x] + l)
            && (forall y :: 0 <= y < |m.links| && y !in l && y != x ==> m'.links[y] == m.links[y])
            && (forall q :: 0 <= q < |m.heads| && q != j ==> m'.heads[q] == m.heads[q])
  {
    var m', r := Push(m, j, x), [x] + l;
    forall p | 0 <= p < |r|
      ensures r[p] < |m'.links| && Linked(m'.links, r, p)
    {
      if p > 0 {
        assert Linked(m.links, l, p - 1);
      }
    }
  }

  /** kalloc takes the first node of a list off it. */
  lemma PopFromList(m: Lists, j: nat, l: seq<nat>)
    requires j < |m.heads| && IsList(m.links, m.heads[j], l) && l != []
    ensures Pop(m, j, l[0]) == Unlink(m, j, l[0]) && Without(l, 0) == l[1..]
  {
    assert Linked(m.links, l, 0);
  }

  // ---------------------------------------------------------------------------------
  // The guarded push of merge_bnode
  // ---------------------------------------------------------------------------------

  lemma FirstHasNoPred(links: seq<Link>, head: int, l: seq<nat>)
    requires IsList(links, head, l) && l != []
    ensures head == l[0] && links[l[0]].prev == NULL
  {
    assert Linked(links, l, 0);
  }

  lemma UnlinkedIsAlone(links: seq<Link>, head: int, l: seq<nat>, x: nat)
    requires IsList(links, head, l) && x in l && links[x] == UNLINKED
    ensures head == x
  {
    var i :| 0 <= i < |l| && l[i] == x;
    assert Linked(links, l, i);
  }

  /** A child that merge_bnode leaves unmerged ends up listed exactly if free, on a well
      formed list, just when it is not free or was already alone on its list: the guard
      skips a child that was just freed, and links one that has neighbours a second time. */
  lemma RepushKeepsListIff(m: Lists, j: nat, l: seq<nat>, x: nat, free: bool)
    requires j < |m.heads| && x < |m.links| && IsList(m.links, m.heads[j], l)
    requires x !in l ==> m.links[x] == UNLINKED
    requires x in l ==> free
    ensures (exists r :: IsList(Repush(m, j, x, free).links, Repush(m, j, x, free).heads[j], r)
                         && (x in r <==> free))
            <==> (free ==> l == [x])
  {
    var m' := Repush(m, j, x, free);
    if x in l {
      var i :| 0 <= i < |l| && l[i] == x;
      assert Linked(m.links, l, i);
    }
    if free ==> l == [x] {
      assert m' == m;
      assert IsList(m'.links, m'.heads[j], l) && (x in l <==> free);
    } else if exists r :: IsList(m'.links, m'.heads[j], r) && x in r {
      var r :| IsList(m'.links, m'.heads[j], r) && x in r;
      if x in l {
        FirstHasNoPred(m'.links, x, r);
      } else {
        UnlinkedIsAlone(m'.links, m.heads[j], r, x);
      }
      assert false;
    }
  }

  /** The head of list j after kalloc took its first node n times. */
  function HeadAfter(m: Lists, j: nat, n: nat): int
    requires j < |m.heads|
    decreases n
  {
    var x := m.heads[j];
    if n == 0 || !(0 <= x < |m.links|) then x else HeadAfter(Pop(m, j, x), j, n - 1)
  }

  /** A linked block that merge_bnode links a second time is handed out twice: it is the
      first block kalloc takes, and after the blocks that preceded it, it is first again. */
  lemma RelinkedBlockComesBack(m: Lists, j: nat, l: seq<nat>, i: nat)
    requires j < |m.heads| && IsList(m.links, m.heads[j], l) && i < |l| && |l| > 1
    ensures HeadAfter(Repush(m, j, l[i], true), j, 0) == l[i]
    ensures HeadAfter(Repush(m, j, l[i], true), j, i + 1) == l[i]
  {
    var x, m1 := l[i], Push(m, j, l[i]);
    assert Linked(m.links, l, i) && Linked(m.links, l, 0);
    assert Repush(m, j, x, true) == m1;
    if i == 0 {
      assert HeadAfter(m1, j, 1) == HeadAfter(Pop(m1, j, x), j, 0);
    } else {
      var m2 := Pop(m1, j, x);
      forall q | 0 <= q < i
        ensures m2.links[l[q]].next == l[q + 1]
      {
        assert Linked(m.links, l, q);
      }
      ChainComesBack(m2, j, l, 0, i);
    }
  }

  // Taking nodes off a chain that leads to l[i] leads to l[i].
  lemma {:induction false} ChainComesBack(m: Lists, j: nat, l: seq<nat>, p: nat, i: nat)
    requires j < |m.heads| && Distinct(l) && p <= i < |l| && m.heads[j] == l[p]
    requires forall q :: 0 <= q < |l| ==> l[q] < |m.links|
    requires forall q :: p <= q < i ==> m.links[l[q]].next == l[q + 1]
    ensures HeadAfter(m, j, i - p) == l[i]
    decreases i - p
  {
    if p < i {
      var m' := Pop(m, j, l[p]);
      assert m'.heads[j] == l[p + 1];
      forall q | p < q < i
        ensures m'.links[l[q]].next == l[q + 1]
      {
        assert l[q] != l[p];
      }
      ChainComesBack(m', j, l, p + 1, i);
    }
  }
}

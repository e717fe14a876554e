/** The sleep queue's differences, and the wakeup times they stand for. */
module DeltaTimes {
  import opened Sequences

  /** A queued task and its difference to the entry before it, or its time until wakeup. */
  datatype Sleeper<T> = Sleeper(task: T, ticks: nat)

  /** The times until wakeup: sums of the differences, on top of a base. */
  function Due<T>(q: seq<Sleeper<T>>, base: nat): (w: seq<Sleeper<T>>)
    ensures |w| == |q|
  {
    if q == [] then [] else [Sleeper(q[0].task, base + q[0].ticks)] + Due(q[1..], base + q[0].ticks)
  }

  /** The insertion of sleep: differences are subtracted on the way. */
  function Insert<T>(q: seq<Sleeper<T>>, t: T, n: nat): (r: seq<Sleeper<T>>)
    ensures |r| == |q| + 1
  {
    if q == [] then [Sleeper(t, n)]
    else if n >= q[0].ticks then [q[0]] + Insert(q[1..], t, n - q[0].ticks)
    else [Sleeper(t, n), Sleeper(q[0].task, q[0].ticks - n)] + q[1..]
  }

  /** w1 is the sorted list w with x put behind everything that is not later. */
  ghost predicate PutBehind<T>(w: seq<Sleeper<T>>, w1: seq<Sleeper<T>>, x: Sleeper<T>) {
    exists k: nat ::
      && k <= |w| && w1 == w[..k] + [x] + w[k..]
      && (forall i :: 0 <= i < k ==> w[i].ticks <= x.ticks) && (forall i :: k <= i < |w| ==> x.ticks < w[i].ticks)
  }

  /** A clock tick: the first difference that is not zero goes down by one. */
  function Tick<T>(q: seq<Sleeper<T>>): (r: seq<Sleeper<T>>)
    ensures |r| == |q|
  {
    if q == [] then []
    else if q[0].ticks == 0 then [q[0]] + Tick(q[1..])
    else [Sleeper(q[0].task, q[0].ticks - 1)] + q[1..]
  }

  /** How many entries the scheduler takes off the front. */
  function Expired<T>(q: seq<Sleeper<T>>): (k: nat)
    ensures k <= |q|
  {
    if q == [] || q[0].ticks != 0 then 0 else 1 + Expired(q[1..])
  }

  // ---------------------------------------------------------------------------------
  // The differences stand for a stable list of wakeup times
  // ---------------------------------------------------------------------------------

  lemma {:induction false} DueSorted<T>(q: seq<Sleeper<T>>, base: nat)
    ensures forall i :: 0 <= i < |q| ==> base <= Due(q, base)[i].ticks
    ensures forall i, j :: 0 <= i < j < |q| ==> Due(q, base)[i].ticks <= Due(q, base)[j].ticks
  {
    if q != [] {
      DueSorted(q[1..], base + q[0].ticks);
    }
  }

  /** Insertion keeps every wakeup time there was and puts the new one, n, behind the ones
      that are not later. */
  lemma {:induction false} InsertKeepsTimes<T>(q: seq<Sleeper<T>>, t: T, n: nat, base: nat) returns (k: nat)
    ensures k <= |q|
    ensures Due(Insert(q, t, n), base) == Due(q, base)[..k] + [Sleeper(t, base + n)] + Due(q, base)[k..]
    ensures forall i :: 0 <= i < k ==> Due(q, base)[i].ticks <= base + n
    ensures forall i :: k <= i < |q| ==> base + n < Due(q, base)[i].ticks
  {
    if q == [] {
      k := 0;
    } else if n >= q[0].ticks {
      var r := Insert(q[1..], t, n - q[0].ticks);
      var first, w := Sleeper(q[0].task, base + q[0].ticks), Due(q[1..], base + q[0].ticks);
      assert Due(q, base) == [first] + w;
      assert Insert(q, t, n) == [q[0]] + r;
      assert Due(Insert(q, t, n), base) == [first] + Due(r, base + q[0].ticks) by {
        assert ([q[0]] + r)[1..] == r;
      }
      hide Due;
      hide Insert;
      k := InsertKeepsTimes(q[1..], t, n - q[0].ticks, base + q[0].ticks);
      OneBefore(first, w, k, Sleeper(t, base + n));
      k := k + 1;
    } else {
      k := 0;
      InsertFirst(q, t, n, base);
      DueSorted(q, base);
    }
  }

  lemma OneBefore<T>(first: T, w: seq<T>, k: nat, x: T)
    requires k <= |w|
    ensures [first] + (w[..k] + [x] + w[k..]) == ([first] + w)[..k + 1] + [x] + ([first] + w)[k + 1..]
  {
  }

  lemma InsertFirst<T>(q: seq<Sleeper<T>>, t: T, n: nat, base: nat)
    requires q != [] && n < q[0].ticks
    ensures Due(Insert(q, t, n), base) == [Sleeper(t, base + n)] + Due(q, base)
    ensures base + n < Due(q, base)[0].ticks
  {
    var rest := [Sleeper(q[0].task, q[0].ticks - n)] + q[1..];
    assert Insert(q, t, n) == [Sleeper(t, n)] + rest;
    assert ([Sleeper(t, n)] + rest)[1..] == rest && rest[1..] == q[1..];
    assert Due(rest, base + n) == Due(q, base);
  }

  /** A tick brings every wakeup time that is not reached yet one nearer. */
  lemma {:induction false} TickLowersTimes<T>(q: seq<Sleeper<T>>, i: nat)
    requires i < |q|
    ensures var w := Due(q, 0)[i];
            Due(Tick(q), 0)[i] == Sleeper(w.task, if w.ticks > 0 then w.ticks - 1 else 0)
  {
    if q[0].ticks == 0 {
      assert Tick(q)[1..] == Tick(q[1..]);
      if i > 0 {
        TickLowersTimes(q[1..], i - 1);
      }
    } else {
      assert Tick(q)[1..] == q[1..];
      DueShift(q[1..], q[0].ticks - 1);
      DueSorted(q, 0);
    }
  }

  lemma {:induction false} DueShift<T>(q: seq<Sleeper<T>>, base: nat)
    ensures forall i :: 0 <= i < |q| ==> Due(q, base + 1)[i] == Sleeper(Due(q, base)[i].task, Due(q, base)[i].ticks + 1)
  {
    if q != [] {
      DueShift(q[1..], base + q[0].ticks);
    }
  }

  /** What is taken off the front is what is due, all of it, and the other times stay. */
  lemma {:induction false} ExpiredAreDue<T>(q: seq<Sleeper<T>>)
    ensures forall i :: 0 <= i < |q| ==> (i < Expired(q) <==> Due(q, 0)[i].ticks == 0)
    ensures Due(q[Expired(q)..], 0) == Due(q, 0)[Expired(q)..]
  {
    if q == [] {
    } else if q[0].ticks != 0 {
      DueSorted(q, 0);
      assert forall i :: 0 <= i < |q| ==> Due(q, 0)[0].ticks <= Due(q, 0)[i].ticks;
      assert q[Expired(q)..] == q;
    } else {
      ExpiredAreDue(q[1..]);
      assert q[Expired(q)..] == q[1..][Expired(q[1..])..];
      assert Due(q, 0)[Expired(q)..] == Due(q[1..], 0)[Expired(q[1..])..];
    }
  }

  // ---------------------------------------------------------------------------------
  // One step of a walk
  // ---------------------------------------------------------------------------------

  lemma InsertBehind<T>(q: seq<Sleeper<T>>, t: T, k: nat, m: nat)
    requires k < |q| && q[k].ticks <= m
    ensures q[..k] + Insert(q[k..], t, m) == q[..k + 1] + Insert(q[k + 1..], t, m - q[k].ticks)
  {
    assert q[k..][0] == q[k] && q[k..][1..] == q[k + 1..];
    var rest := Insert(q[k + 1..], t, m - q[k].ticks);
    assert Insert(q[k..], t, m) == [q[k]] + rest;
    assert q[..k] + ([q[k]] + rest) == q[..k + 1] + rest;
  }

  lemma InsertHere<T>(q: seq<Sleeper<T>>, t: T, k: nat, m: nat)
    requires k <= |q| && (k < |q| ==> m < q[k].ticks)
    ensures q[..k] + Insert(q[k..], t, m) == q[..k] + [Sleeper(t, m)] +
            if k == |q| then [] else [Sleeper(q[k].task, q[k].ticks - m)] + q[k + 1..]
  {
    if k < |q| {
      assert q[k..][0] == q[k] && q[k..][1..] == q[k + 1..];
    }
  }

  /** Behind the first k entries, inserting n has become inserting m. */
  ghost predicate Behind<T>(q: seq<Sleeper<T>>, t: T, n: nat, k: nat, m: nat) {
    k <= |q| && Insert(q, t, n) == q[..k] + Insert(q[k..], t, m)
  }

  lemma Inserted<T>(q: seq<Sleeper<T>>, r: seq<Sleeper<T>>, t: T, n: nat, k: nat, m: nat)
    requires Behind(q, t, n, k, m) && |r| == |q| + 1 && r[k] == Sleeper(t, m)
    requires k < |q| ==> m < q[k].ticks && r[k + 1] == Sleeper(q[k].task, q[k].ticks - m)
    requires forall i :: 0 <= i < k ==> r[i] == q[i]
    requires forall i :: k + 1 < i < |r| ==> r[i] == q[i - 1]
    ensures r == Insert(q, t, n)
  {
    InsertHere(q, t, k, m);
  }

  /** The first k differences are zero, and ticking is left to the others. */
  ghost predicate Passed<T>(q: seq<Sleeper<T>>, k: nat) {
    k <= |q| && Tick(q) == q[..k] + Tick(q[k..])
  }

  lemma NonePassed<T>(q: seq<Sleeper<T>>)
    ensures Passed(q, 0)
  {
    assert q[0..] == q;
  }

  lemma TickBehind<T>(q: seq<Sleeper<T>>, k: nat)
    requires k < |q| && q[k].ticks == 0 && Passed(q, k)
    ensures Passed(q, k + 1)
  {
    assert q[k..][0] == q[k] && q[k..][1..] == q[k + 1..];
    assert q[..k] + ([q[k]] + Tick(q[k + 1..])) == q[..k + 1] + Tick(q[k + 1..]);
  }

  lemma TickHere<T>(q: seq<Sleeper<T>>, k: nat)
    requires Passed(q, k) && (k < |q| ==> q[k].ticks > 0)
    ensures Tick(q) == if k == |q| then q else q[k := Sleeper(q[k].task, q[k].ticks - 1)]
  {
    if k < |q| {
      assert q[k..][0] == q[k] && q[k..][1..] == q[k + 1..];
    }
  }

  // ---------------------------------------------------------------------------------
  // The linked queue
  // ---------------------------------------------------------------------------------

  class Element<T> {
    const task: T
    var ticks: nat
    var next: Element?<T>

    constructor (task: T, ticks: nat)
      ensures this.task == task && this.ticks == ticks && next == null
    {
      this.task, this.ticks, next := task, ticks, null;
    }
  }

  lemma OnlyAt<T>(s: seq<T>, k: nat)
    requires Distinct(s) && k < |s|
    ensures forall i :: 0 <= i < |s| && i != k ==> s[i] != s[k]
  {
  }

  /** x put in at index k. */
  ghost function With<T>(s: seq<T>, k: nat, x: T): (r: seq<T>)
    requires k <= |s|
    ensures |r| == |s| + 1 && r[k] == x
    ensures forall i :: 0 <= i < k ==> r[i] == s[i]
    ensures forall i :: k < i < |r| ==> r[i] == s[i - 1]
  {
    s[..k] + [x] + s[k..]
  }

  lemma DistinctWith<T>(s: seq<T>, k: nat, x: T)
    requires Distinct(s) && k <= |s| && x !in s
    ensures Distinct(With(s, k, x))
  {
  }

  class DeltaQueue<T> {
    var first: Element?<T>
    ghost var elements: seq<Element<T>>

    ghost predicate Valid()
      reads this, elements
    {
      && first == At(0)
      && (forall i :: 0 <= i < |elements| ==> elements[i].next == At(i + 1))
      && Distinct(elements)
    }

    ghost function At(i: nat): Element?<T>
      reads this
    {
      if i < |elements| then elements[i] else null
    }

    ghost function Contents(): (q: seq<Sleeper<T>>)
      reads this, elements
      ensures |q| == |elements|
    {
      seq(|elements|, i requires 0 <= i < |elements| reads this, elements => Sleeper(elements[i].task, elements[i].ticks))
    }

    constructor ()
      ensures Valid() && Contents() == [] && elements == []
    {
      first := null;
      elements := [];
    }
    /** The insertion in sleep: the walk stops at the first later entry. */
    method Enqueue(task: T, n: nat)
      requires Valid()
      modifies this, elements
      ensures Valid() && Contents() == Insert(old(Contents()), task, n)
      ensures forall e :: e in elements ==> e in old(elements) || fresh(e)
    {
      hide Insert;
      hide Behind;
      hide Distinct;
      hide With;
      ghost var q := Contents();
      var element := new Element(task, n);
      var walk, insertAfter, k := FindPlace(element);
      LinkBefore(element, walk, insertAfter, k);
      Inserted(q, Contents(), task, n, k, element.ticks);
    }

    // The walk: the element's ticks become the difference to the entry it will follow.
    method FindPlace(element: Element<T>) returns (walk: Element?<T>, insertAfter: Element?<T>, ghost k: nat)
      requires Valid() && element !in elements
      modifies element`ticks
      ensures k <= |elements| && walk == At(k) && insertAfter == if k > 0 then At(k - 1) else null
      ensures walk != null ==> element.ticks < walk.ticks
      ensures Behind(Contents(), element.task, old(element.ticks), k, element.ticks)
    {
      hide Insert;
      hide Distinct;
      ghost var q := Contents();
      walk, insertAfter, k := first, null, 0;
      assert q[0..] == q;
      while walk != null && element.ticks >= walk.ticks
        invariant k <= |q| && walk == At(k) && insertAfter == (if k > 0 then At(k - 1) else null)
        invariant Contents() == q
        invariant Behind(q, element.task, old(element.ticks), k, element.ticks)
        decreases |q| - k
      {
        assert q[k] == Sleeper(walk.task, walk.ticks);
        InsertBehind(q, element.task, k, element.ticks);
        element.ticks := element.ticks - walk.ticks;
        insertAfter := walk;
        walk := walk.next;
        k := k + 1;
      }
    }

    // The new element takes its place and lowers the difference of the next one.
    method LinkBefore(element: Element<T>, walk: Element?<T>, insertAfter: Element?<T>, ghost k: nat)
      requires Valid() && k <= |elements| && element !in elements
      requires walk == At(k) && insertAfter == if k > 0 then At(k - 1) else null
      requires walk != null ==> element.ticks < walk.ticks
      modifies this, elements, element
      ensures Valid() && elements == With(old(elements), k, element)
      ensures element.ticks == old(element.ticks)
      ensures walk != null ==> walk.ticks == old(walk.ticks) - element.ticks
      ensures forall i :: 0 <= i < |old(elements)| && i != k ==> old(elements)[i].ticks == old(elements[i].ticks)
    {
      hide Distinct;
      hide With;
      if k < |elements| {
        OnlyAt(elements, k);
      }
      if insertAfter == null {
        if walk != null {
          first.ticks := first.ticks - element.ticks;
        }
        LinkFirst(element);
      } else {
        if walk != null {
          insertAfter.next.ticks := insertAfter.next.ticks - element.ticks;
        }
        LinkBehind(element, insertAfter, k);
      }
    }

    method LinkFirst(element: Element<T>)
      requires Valid() && element !in elements
      modifies this, element`next
      ensures Valid() && elements == With(old(elements), 0, element)
    {
      hide Distinct;
      hide With;
      DistinctWith(elements, 0, element);
      element.next := first;
      first := element;
      elements := With(elements, 0, element);
    }

    method LinkBehind(element: Element<T>, insertAfter: Element<T>, ghost k: nat)
      requires Valid() && 0 < k <= |elements| && element !in elements && insertAfter == elements[k - 1]
      modifies this, element`next, insertAfter`next
      ensures Valid() && elements == With(old(elements), k, element)
    {
      hide Distinct;
      hide With;
      DistinctWith(elements, k, element);
      OnlyAt(elements, k - 1);
      element.next := insertAfter.next;
      insertAfter.next := element;
      elements := With(elements, k, element);
    }

    /** The walk of the timer interrupt. */
    method Advance()
      requires Valid()
      modifies elements
      ensures Valid() && Contents() == Tick(old(Contents()))
    {
      hide Tick;
      hide Passed;
      hide Distinct;
      ghost var q, k := Contents(), 0;
      var walk := first;
      NonePassed(q);
      while walk != null && walk.ticks == 0
        invariant Valid() && Contents() == q && elements == old(elements)
        invariant k <= |q| && walk == At(k) && Passed(q, k)
        decreases |q| - k
      {
        assert q[k] == Sleeper(walk.task, walk.ticks);
        TickBehind(q, k);
        walk := walk.next;
        k := k + 1;
      }
      assert walk != null ==> q[k] == Sleeper(walk.task, walk.ticks);
      TickHere(q, k);
      if walk != null {
        Lower(walk, k);
      }
    }

    method Lower(element: Element<T>, ghost k: nat)
      requires Valid() && k < |elements| && element == elements[k] && element.ticks > 0
      modifies element`ticks
      ensures Valid() && Contents() == old(Contents()[k := Sleeper(elements[k].task, elements[k].ticks - 1)])
    {
      OnlyAt(elements, k);
      hide Distinct;
      element.ticks := element.ticks - 1;
    }

    /** The scheduler takes the first entry off. */
    method Dequeue()
      requires Valid() && Contents() != []
      modifies this
      ensures Valid() && Contents() == old(Contents())[1..] && elements == old(elements)[1..]
    {
      first := first.next;
      elements := elements[1..];
    }
  }
}

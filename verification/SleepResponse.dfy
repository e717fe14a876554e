/** How soon a task that went to sleep runs again. */
module SleepResponse {
  import opened Tasks
  import opened DeltaTimes
  import opened Scheduling
  import opened Sequences

  /** The time until t is due. */
  function Remaining(q: seq<Sleeper<TaskState>>, t: TaskState): nat {
    if q == [] then 0 else q[0].ticks + if q[0].task == t then 0 else Remaining(q[1..], t)
  }

  lemma {:induction false} RemainingWhenInserted(q: seq<Sleeper<TaskState>>, t: TaskState, n: nat)
    requires t !in Names(q)
    ensures Remaining(Insert(q, t, n), t) == n
  {
    if q != [] && n >= q[0].ticks {
      assert q[0].task == Names(q)[0];
      NamesTail(q);
      RemainingWhenInserted(q[1..], t, n - q[0].ticks);
    }
  }

  lemma NamesTail(q: seq<Sleeper<TaskState>>)
    requires q != []
    ensures Names(q) == [q[0].task] + Names(q[1..])
  {
  }

  lemma {:induction false} InsertKeepsRemaining(q: seq<Sleeper<TaskState>>, u: TaskState, n: nat, t: TaskState)
    requires t in Names(q) && t != u
    ensures Remaining(Insert(q, u, n), t) == Remaining(q, t)
  {
    NamesTail(q);
    if n >= q[0].ticks {
      var rest := Insert(q[1..], u, n - q[0].ticks);
      assert Insert(q, u, n)[1..] == rest;
      if q[0].task != t {
        InsertKeepsRemaining(q[1..], u, n - q[0].ticks, t);
      }
    } else {
      var rest := [Sleeper(q[0].task, q[0].ticks - n)] + q[1..];
      assert Insert(q, u, n)[1..] == rest && rest[1..] == q[1..];
    }
  }

  lemma {:induction false} TickLowersRemaining(q: seq<Sleeper<TaskState>>, t: TaskState)
    requires t in Names(q)
    ensures Remaining(Tick(q), t) == if Remaining(q, t) > 0 then Remaining(q, t) - 1 else 0
  {
    NamesTail(q);
    if q[0].ticks == 0 {
      assert Tick(q)[1..] == Tick(q[1..]);
      if q[0].task != t {
        TickLowersRemaining(q[1..], t);
      }
    } else {
      assert Tick(q)[1..] == q[1..];
    }
  }

  /** A blocking task is woken exactly if it is due, and otherwise its time stays. */
  lemma {:induction false} DrainWakesDue(s: State, t: TaskState)
    requires QueuesAgree(s) && t in s.blocking
    ensures t in Drain(s).blocking <==> Remaining(s.delta, t) > 0
    ensures t in Drain(s).blocking ==> Remaining(Drain(s).delta, t) == Remaining(s.delta, t)
    decreases |s.delta|
  {
    assert t in Names(s.delta);
    NamesTail(s.delta);
    if s.delta[0].ticks == 0 {
      WakeAgrees(s);
      DrainAgrees(Wake(s));
      if t != s.delta[0].task {
        DrainWakesDue(Wake(s), t);
      } else {
        assert t !in Drain(Wake(s)).blocking;
      }
    }
  }

  // ---------------------------------------------------------------------------------
  // Until a sleeping task is woken
  // ---------------------------------------------------------------------------------

  /** Ticks until the next call of the scheduler, at most. */
  function Slice(s: State): nat {
    if s.time > 0 then s.time else 1
  }

  function WakeBound(s: State, t: TaskState): nat {
    if Remaining(s.delta, t) > 0 then Remaining(s.delta, t) + SLICE else Slice(s)
  }

  /** A tick wakes a sleeping task or brings its wakeup nearer; other steps do not delay it. */
  lemma WakeNearer(s: State, op: Op, t: TaskState)
    requires Inv(s) && Enabled(s, op) && s.running && t in s.blocking
    ensures var s' := Step(s, op);
            t in s'.blocking ==> WakeBound(s', t) + (if op == ClockTick then 1 else 0) <= WakeBound(s, t)
    ensures t !in Step(s, op).blocking ==> WakeBound(s, t) >= if op == ClockTick then 1 else 0
    ensures t !in Step(s, op).blocking ==> Schedules(s, op) && Step(s, op).current != t
  {
    hide Select;
    hide Drain;
    hide Schedule;
    hide Remaining;
    match op
    case Create(u) =>
    case Sleep(n) =>
      InsertKeepsRemaining(s.delta, s.current, n, t);
    case Yield =>
      ScheduleWakes(s.(asleep := s.asleep - {s.current}), t);
    case ClockTick =>
      TickLowersRemaining(s.delta, t);
      TickNames(s.delta);
      if Schedules(s, op) {
        ScheduleWakes(Ticked(s), t);
      }
    case Start =>
  }

  lemma ScheduleWakes(s: State, t: TaskState)
    requires QueuesAgree(s) && t in s.blocking
    ensures t in Schedule(s).blocking <==> Remaining(s.delta, t) > 0
    ensures t in Schedule(s).blocking ==> Remaining(Schedule(s).delta, t) == Remaining(s.delta, t)
    ensures Schedule(s).current != t && Schedule(s).time == s.time
  {
    hide Remaining;
    ScheduleAgrees(s);
    SelectAgrees(s.queue, s.flagged, s.blocking, s.idle);
    var c := Chosen(s);
    var s1 := s.(queue := c.queue, flagged := c.flagged, current := c.next);
    assert QueuesAgree(s1);
    DrainWakesDue(s1, t);
  }

  lemma PrefixOfRun(s: State, ops: seq<Op>, k: nat)
    requires 0 < k <= |ops|
    ensures ops[..k][0] == ops[0] && ops[..k][1..] == ops[1..][..k - 1]
    ensures After(s, ops[..k]) == After(Step(s, ops[0]), ops[1..][..k - 1])
    ensures Ticks(ops[..k]) == (if ops[0].ClockTick? then 1 else 0) + Ticks(ops[1..][..k - 1])
    ensures Calls(s, ops[..k]) == (if Schedules(s, ops[0]) then 1 else 0) + Calls(Step(s, ops[0]), ops[1..][..k - 1])
  {
    assert ops[..k][1..] == ops[1..][..k - 1];
  }

  /** In every run with enough ticks a blocking task is woken in time, by a call of the
      scheduler that picked another task. */
  lemma {:induction false} WokenInTime(s: State, ops: seq<Op>, t: TaskState) returns (w: nat)
    requires Inv(s) && Run(s, ops) && s.running && t in s.blocking && WakeBound(s, t) <= Ticks(ops)
    ensures w < |ops| && Ticks(ops[..w + 1]) <= WakeBound(s, t)
    ensures forall i :: 0 <= i <= w ==> t in After(s, ops[..i]).blocking
    ensures t !in After(s, ops[..w + 1]).blocking && After(s, ops[..w + 1]).current != t
    ensures Schedules(After(s, ops[..w]), ops[w])
    decreases |ops|
  {
    hide Schedules;
    hide Inv;
    hide Step;
    hide WakeBound;
    WakeBoundPositive(s, t);
    var s' := Step(s, ops[0]);
    WakeNearer(s, ops[0], t);
    StepKeepsInv(s, ops[0]);
    assert ops[..0] == [];
    if t !in s'.blocking {
      w := 0;
      PrefixOfRun(s, ops, 1);
      assert ops[1..][..0] == [];
    } else {
      StaysRunning(s, ops[0]);
      w := WokenInTime(s', ops[1..], t);
      PrefixOfRun(s, ops, w + 2);
      PrefixOfRun(s, ops, w + 1);
      forall i | 0 <= i <= w + 1
        ensures t in After(s, ops[..i]).blocking
      {
        if i > 0 {
          PrefixOfRun(s, ops, i);
        }
      }
      w := w + 1;
    }
  }

  lemma WakeBoundPositive(s: State, t: TaskState)
    ensures WakeBound(s, t) > 0
  {
  }

  lemma StaysRunning(s: State, op: Op)
    requires Inv(s) && Enabled(s, op) && s.running
    ensures Step(s, op).running && s.tasks <= Step(s, op).tasks
  {
    hide Select;
    hide Drain;
    hide Schedule;
    match op
    case Create(u) =>
    case Sleep(n) =>
    case Yield => ScheduleAgrees(s.(asleep := s.asleep - {s.current}));
    case ClockTick =>
      TickNames(s.delta);
      if Schedules(s, op) {
        ScheduleAgrees(Ticked(s));
      }
    case Start =>
  }

  // ---------------------------------------------------------------------------------
  // No task is woken early
  // ---------------------------------------------------------------------------------

  // A step other than the tick that makes a task due leaves it blocking.
  lemma StaysBlocking(s: State, op: Op, t: TaskState)
    requires Inv(s) && Enabled(s, op) && t in s.blocking
    requires (if op == ClockTick then 1 else 0) < Remaining(s.delta, t)
    ensures t in Step(s, op).blocking
    ensures Remaining(Step(s, op).delta, t) == Remaining(s.delta, t) - if op == ClockTick then 1 else 0
  {
    hide Select;
    hide Drain;
    hide Schedule;
    hide Remaining;
    match op
    case Create(u) =>
    case Sleep(n) =>
      InsertKeepsRemaining(s.delta, s.current, n, t);
    case Yield =>
      ScheduleWakes(s.(asleep := s.asleep - {s.current}), t);
    case ClockTick =>
      TickLowersRemaining(s.delta, t);
      TickNames(s.delta);
      if Schedules(s, op) {
        ScheduleWakes(Ticked(s), t);
      }
    case Start =>
  }

  /** In every run with fewer ticks than its remaining time a task stays blocking, and its
      remaining time goes down by the ticks. */
  lemma {:induction false} StaysAsleep(s: State, ops: seq<Op>, t: TaskState)
    requires Inv(s) && Run(s, ops) && t in s.blocking && Ticks(ops) < Remaining(s.delta, t)
    ensures t in After(s, ops).blocking && Remaining(After(s, ops).delta, t) == Remaining(s.delta, t) - Ticks(ops)
    decreases |ops|
  {
    hide Inv;
    hide Step;
    hide Remaining;
    if ops != [] {
      StaysBlocking(s, ops[0], t);
      StepKeepsInv(s, ops[0]);
      StaysAsleep(Step(s, ops[0]), ops[1..], t);
    }
  }

  /** A task that calls sleep(n) is blocking in every state before the n-th tick, whatever
      the other tasks do, and once it has raised its interrupt it is not the current one. */
  lemma SleepsLongEnough(s: State, n: nat, ops: seq<Op>)
    requires Inv(s) && Enabled(s, Sleep(n)) && Run(Step(s, Sleep(n)), ops) && Ticks(ops) < n
    ensures var e := After(Step(s, Sleep(n)), ops);
            s.current in e.blocking && (s.current !in e.asleep ==> e.current != s.current)
  {
    hide Inv;
    var s0 := Step(s, Sleep(n));
    StepKeepsInv(s, Sleep(n));
    InsertedAsleep(s, n);
    StaysAsleep(s0, ops, s.current);
    EveryRunKeepsInv(s0, ops);
    BlockingNotCurrent(After(s0, ops), s.current);
  }

  lemma InsertedAsleep(s: State, n: nat)
    requires Inv(s) && Enabled(s, Sleep(n))
    ensures var s0 := Step(s, Sleep(n)); s.current in s0.blocking && Remaining(s0.delta, s.current) == n
  {
    RemainingWhenInserted(s.delta, s.current, n);
  }

  lemma BlockingNotCurrent(s: State, t: TaskState)
    requires Inv(s) && t in s.blocking
    ensures t !in s.asleep ==> s.current != t
  {
  }

  // ---------------------------------------------------------------------------------
  // The time slice
  // ---------------------------------------------------------------------------------

  // Within a slice only the interrupt of sleep switches tasks, and it does not end the slice.
  lemma SliceStep(s: State, op: Op)
    requires Inv(s) && Enabled(s, op) && (if op == ClockTick then 1 else 0) < s.time
    ensures op != Yield ==> Step(s, op).current == s.current && !Schedules(s, op)
    ensures Step(s, op).time == s.time - if op == ClockTick then 1 else 0
  {
    if op == Yield {
      ScheduleAgrees(s.(asleep := s.asleep - {s.current}));
    }
  }

  /** A slice lasts exactly its ticks.  In every run with fewer ticks than are left of it, they
      are counted off, whoever runs and whoever goes to sleep; only the interrupt of sleep
      switches tasks.  Once the scheduler is running, the tick that uses up the slice calls
      it, and then a slice of two ticks begins. */
  lemma {:induction false} SliceIsExact(s: State, ops: seq<Op>)
    requires Inv(s) && Run(s, ops) && Ticks(ops) < s.time
    ensures var e := After(s, ops);
            && e.time == s.time - Ticks(ops)
            && (Yield !in ops ==> e.current == s.current && Calls(s, ops) == 0)
            && (e.running ==> (Schedules(e, ClockTick) <==> Ticks(ops) + 1 == s.time))
            && (Schedules(e, ClockTick) ==> Step(e, ClockTick).time == 2)
    decreases |ops|
  {
    if ops != [] {
      hide Inv;
      hide Step;
      hide Schedules;
      SliceStep(s, ops[0]);
      StepKeepsInv(s, ops[0]);
      SliceIsExact(Step(s, ops[0]), ops[1..]);
    }
  }

  // ---------------------------------------------------------------------------------
  // Until a ready task runs
  // ---------------------------------------------------------------------------------

  function IndexOf(q: seq<TaskState>, t: TaskState): (k: nat)
    requires t in q
    ensures k < |q| && q[k] == t
  {
    if q[0] == t then 0 else 1 + IndexOf(q[1..], t)
  }

  lemma {:induction false} IndexInLonger(q: seq<TaskState>, r: seq<TaskState>, t: TaskState)
    requires t in q
    ensures IndexOf(q + r, t) == IndexOf(q, t)
  {
    if q[0] != t {
      assert (q + r)[1..] == q[1..] + r;
      IndexInLonger(q[1..], r, t);
    }
  }

  /** Each choice brings a ready task that was not chosen at least one place forward. */
  lemma {:induction false} SelectAdvances(q: seq<TaskState>, flagged: set<TaskState>, blocking: set<TaskState>,
                                          idle: TaskState, t: TaskState)
    requires t in q && t !in blocking
    ensures var c := Select(q, flagged, blocking, idle);
            c.next == t || (t in c.queue && IndexOf(c.queue, t) < IndexOf(q, t))
  {
    if q[0] in blocking {
      SelectAdvances(q[1..], flagged - {q[0]}, blocking, idle, t);
    } else if q[0] != t {
      IndexInLonger(q[1..], [q[0]], t);
    }
  }

  /** t is ready, and not running. */
  predicate Waits(s: State, t: TaskState) {
    t in s.queue && t !in s.blocking && t != s.current
  }

  /** The step switches to t. */
  predicate Dispatches(s: State, op: Op, t: TaskState) {
    Schedules(s, op) && Step(s, op).current == t
  }

  lemma ScheduleAdvances(s: State, t: TaskState)
    requires QueuesAgree(s) && t in s.queue && t !in s.blocking
    ensures Schedule(s).current != t ==>
              Waits(Schedule(s), t) && IndexOf(Schedule(s).queue, t) < IndexOf(s.queue, t)
    ensures Schedule(s).running == s.running && Schedule(s).time == s.time
  {
    ScheduleAgrees(s);
    SelectAdvances(s.queue, s.flagged, s.blocking, s.idle, t);
    var c := Chosen(s);
    if c.next != t {
      var r := Schedule(s).queue[|c.queue|..];
      assert Schedule(s).queue == c.queue + r;
      IndexInLonger(c.queue, r, t);
    }
  }

  /** A step either switches to a waiting task or leaves it waiting; calls of the scheduler
      bring it forward. */
  lemma WaitNearer(s: State, op: Op, t: TaskState)
    requires Inv(s) && Enabled(s, op) && Waits(s, t)
    ensures var s' := Step(s, op);
            Dispatches(s, op, t) ||
            (Waits(s', t) && IndexOf(s'.queue, t) + (if Schedules(s, op) then 1 else 0) <= IndexOf(s.queue, t))
    ensures !Schedules(s, op) ==> Step(s, op).time == if op == ClockTick then Ticked(s).time else s.time
    ensures Schedules(s, op) ==> Step(s, op).time == if op == ClockTick then SLICE else s.time
  {
    hide Select;
    hide Drain;
    hide Schedule;
    hide IndexOf;
    match op
    case Create(u) =>
      IndexInLonger(s.queue, [u], t);
    case Sleep(n) =>
    case Yield =>
      ScheduleAdvances(s.(asleep := s.asleep - {s.current}), t);
    case ClockTick =>
      TickNames(s.delta);
      if Schedules(s, op) {
        ScheduleAdvances(Ticked(s), t);
      }
    case Start =>
  }

  /** A ready task at index k of the queue is switched to within k + 1 scheduler calls. */
  lemma {:induction false} ChosenWithinCalls(s: State, ops: seq<Op>, t: TaskState) returns (d: nat)
    requires Inv(s) && Run(s, ops) && Waits(s, t) && IndexOf(s.queue, t) < Calls(s, ops)
    ensures d < |ops| && Dispatches(After(s, ops[..d]), ops[d], t)
    ensures Calls(s, ops[..d + 1]) <= IndexOf(s.queue, t) + 1
    decreases |ops|
  {
    hide IndexOf;
    hide Schedules;
    hide Inv;
    hide Step;
    hide Waits;
    WaitNearer(s, ops[0], t);
    StepKeepsInv(s, ops[0]);
    assert ops[..0] == [];
    if Dispatches(s, ops[0], t) {
      d := 0;
      PrefixOfRun(s, ops, 1);
      assert ops[1..][..0] == [];
      assert Schedules(s, ops[0]);
    } else {
      d := ChosenWithinCalls(Step(s, ops[0]), ops[1..], t);
      PrefixOfRun(s, ops, d + 2);
      PrefixOfRun(s, ops, d + 1);
      d := d + 1;
    }
  }

  function RunBound(s: State, t: TaskState): nat
    requires t in s.queue
  {
    Slice(s) + SLICE * IndexOf(s.queue, t)
  }

  lemma RunNearer(s: State, op: Op, t: TaskState)
    requires Inv(s) && Enabled(s, op) && Waits(s, t) && s.running
    ensures var s' := Step(s, op); var ticks := if op == ClockTick then 1 else 0;
            && ticks <= RunBound(s, t)
            && (Dispatches(s, op, t) || (Waits(s', t) && RunBound(s', t) + ticks <= RunBound(s, t)))
  {
    hide IndexOf;
    hide Step;
    WaitNearer(s, op, t);
  }

  /** A ready task runs within its bound of clock ticks. */
  lemma {:induction false} RunsInTime(s: State, ops: seq<Op>, t: TaskState) returns (d: nat)
    requires Inv(s) && Run(s, ops) && Waits(s, t) && s.running && RunBound(s, t) <= Ticks(ops)
    ensures d < |ops| && Dispatches(After(s, ops[..d]), ops[d], t)
    ensures Ticks(ops[..d + 1]) <= RunBound(s, t)
    decreases |ops|
  {
    hide RunBound;
    hide Schedules;
    hide Inv;
    hide Step;
    hide Waits;
    RunBoundPositive(s, t);
    RunNearer(s, ops[0], t);
    StepKeepsInv(s, ops[0]);
    assert ops[..0] == [];
    if Dispatches(s, ops[0], t) {
      d := 0;
      PrefixOfRun(s, ops, 1);
      assert ops[1..][..0] == [];
    } else {
      StaysRunning(s, ops[0]);
      d := RunsInTime(Step(s, ops[0]), ops[1..], t);
      PrefixOfRun(s, ops, d + 2);
      PrefixOfRun(s, ops, d + 1);
      d := d + 1;
    }
  }

  lemma RunBoundPositive(s: State, t: TaskState)
    requires Waits(s, t)
    ensures RunBound(s, t) > 0
  {
  }

  // ---------------------------------------------------------------------------------
  // From sleep(n) to running again
  // ---------------------------------------------------------------------------------

  lemma {:induction false} QueueFits(q: seq<TaskState>, a: set<TaskState>)
    requires Distinct(q) && (forall t :: t in q ==> t in a)
    ensures |q| <= |a|
  {
    if q != [] {
      TailMembers((set t | t in q), q);
      assert q[0] in a;
      QueueFits(q[1..], a - {q[0]});
    }
  }

  lemma {:induction false} AfterSplit(s: State, ops: seq<Op>, k: nat)
    requires Run(s, ops) && k <= |ops|
    ensures Run(After(s, ops[..k]), ops[k..]) && Run(s, ops[..k])
    ensures Ticks(ops) == Ticks(ops[..k]) + Ticks(ops[k..])
    ensures After(s, ops) == After(After(s, ops[..k]), ops[k..])
    decreases |ops|
  {
    if k == 0 {
      assert ops[..0] == [] && ops[0..] == ops;
    } else {
      AfterSplit(Step(s, ops[0]), ops[1..], k - 1);
      PrefixOfRun(s, ops, k);
      assert ops[k..] == ops[1..][k - 1..];
    }
  }

  lemma {:induction false} RunStaysRunning(s: State, ops: seq<Op>)
    requires Inv(s) && Run(s, ops) && s.running
    ensures After(s, ops).running
    decreases |ops|
  {
    if ops != [] {
      StepKeepsInv(s, ops[0]);
      StaysRunning(s, ops[0]);
      RunStaysRunning(Step(s, ops[0]), ops[1..]);
    }
  }

  /** A task that calls sleep(n) is woken within n + 2 ticks and switched to within
      n + 2 * (N + 1), where N is the number of tasks, without the idle one, at wakeup: for
      every run after the call that is long enough, whatever the other tasks do. */
  lemma SleepIsBounded(s: State, n: nat, ops: seq<Op>) returns (w: nat, d: nat)
    requires Inv(s) && Enabled(s, Sleep(n)) && s.running && Run(Step(s, Sleep(n)), ops) && n + SLICE <= Ticks(ops)
    ensures var t, s0 := s.current, Step(s, Sleep(n));
            && w <= |ops| && Ticks(ops[..w]) <= n + SLICE
            && (forall i :: 0 <= i < w ==> t in After(s0, ops[..i]).blocking) && t !in After(s0, ops[..w]).blocking
    ensures var t, s0 := s.current, Step(s, Sleep(n));
            var bound := n + 2 * (|After(s0, ops[..w]).tasks| + 1);
            bound <= Ticks(ops) ==>
            w <= d < |ops| && Dispatches(After(s0, ops[..d]), ops[d], t) && Ticks(ops[..d + 1]) <= bound
  {
    hide Inv;
    hide Schedules;
    hide Step;
    hide Waits;
    hide RunBound;
    hide Dispatches;
    var t, s0 := s.current, Step(s, Sleep(n));
    StepKeepsInv(s, Sleep(n));
    FallsAsleep(s, n);
    w := WokenInTime(s0, ops, t);
    w := w + 1;
    d := 0;
    var s1 := After(s0, ops[..w]);
    AfterSplit(s0, ops, w);
    EveryRunKeepsInv(s0, ops[..w]);
    RunStaysRunning(s0, ops[..w]);
    StaysATask(s0, ops[..w], t);
    ReadyTaskWaits(s1, t);
    var bound := n + 2 * (|s1.tasks| + 1);
    if bound <= Ticks(ops) {
      d := RunsInTime(s1, ops[w..], t);
      assert ops[w..][..d + 1] == ops[w..w + d + 1] && ops[w..][..d] == ops[w..w + d];
      AfterSplit(s0, ops, w + d);
      PrefixSplit(s0, ops, w, w + d);
      PrefixSplit(s0, ops, w, w + d + 1);
      d := w + d;
    }
  }

  lemma FallsAsleep(s: State, n: nat)
    requires Inv(s) && Enabled(s, Sleep(n)) && s.running
    ensures var s0 := Step(s, Sleep(n));
            s.current in s0.blocking && WakeBound(s0, s.current) <= n + SLICE && s0.running && s.current in s0.tasks
  {
    RemainingWhenInserted(s.delta, s.current, n);
  }

  lemma {:induction false} StaysATask(s: State, ops: seq<Op>, t: TaskState)
    requires Inv(s) && Run(s, ops) && s.running && t in s.tasks
    ensures t in After(s, ops).tasks
    decreases |ops|
  {
    if ops != [] {
      StepKeepsInv(s, ops[0]);
      StaysRunning(s, ops[0]);
      StaysATask(Step(s, ops[0]), ops[1..], t);
    }
  }

  lemma ReadyTaskWaits(s: State, t: TaskState)
    requires Inv(s) && t in s.tasks && t !in s.blocking && t != s.current
    ensures Waits(s, t) && RunBound(s, t) <= 2 * |s.tasks|
  {
    assert t in s.flagged;
    QueueFits(s.queue, s.tasks);
  }

  lemma PrefixSplit(s: State, ops: seq<Op>, w: nat, k: nat)
    requires Run(s, ops) && w <= k <= |ops|
    ensures After(s, ops[..k]) == After(After(s, ops[..w]), ops[w..k])
    ensures Ticks(ops[..k]) == Ticks(ops[..w]) + Ticks(ops[w..k])
  {
    AfterSplit(s, ops, k);
    AfterSplit(s, ops[..k], w);
    assert ops[..k][..w] == ops[..w] && ops[..k][w..] == ops[w..k];
  }
}

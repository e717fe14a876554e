/** A task's flags. */
module Tasks {
  class TaskState {
    var isBlocking: bool
    var onTaskQueue: bool

    constructor ()
      ensures !isBlocking && !onTaskQueue
    {
      isBlocking, onTaskQueue := false, false;
    }
  }
}

/** The round robin scheduler with its sleep queue as a transition system. */
module Scheduling {
  import opened Tasks
  import opened DeltaTimes
  import opened Sequences

  const SLICE: nat := 2

  /** The globals of the scheduler and the flags of all tasks.  `asleep` holds the tasks that
      are inside sleep: they have put themselves on the sleep queue and still have to raise
      the interrupt that switches tasks. */
  datatype State = State(
    queue: seq<TaskState>,
    flagged: set<TaskState>,
    blocking: set<TaskState>,
    delta: seq<Sleeper<TaskState>>,
    current: TaskState,
    idle: TaskState,
    tasks: set<TaskState>,
    asleep: set<TaskState>,
    time: nat,
    running: bool)

  /** What can happen next: the current task creates a task, goes to sleep or raises the
      interrupt at the end of sleep; the clock ticks; the scheduler is started. */
  datatype Op = Create(task: TaskState) | Sleep(ticks: nat) | Yield | ClockTick | Start

  // ---------------------------------------------------------------------------------
  // The scheduler
  // ---------------------------------------------------------------------------------

  datatype Choice = Choice(queue: seq<TaskState>, flagged: set<TaskState>, next: TaskState)

  /** Blocking tasks are dropped from the front; the first other one runs next and goes to
      the back; if there is none, the idle task runs. */
  function Select(q: seq<TaskState>, flagged: set<TaskState>, blocking: set<TaskState>, idle: TaskState): Choice {
    if q == [] then Choice([], flagged, idle)
    else if q[0] in blocking then Select(q[1..], flagged - {q[0]}, blocking, idle)
    else Choice(q[1..] + [q[0]], flagged - {q[0]} + {q[0]}, q[0])
  }

  /** The first sleeper wakes up. */
  function Wake(s: State): State
    requires s.delta != []
  {
    var t := s.delta[0].task;
    s.(delta := s.delta[1..],
       blocking := s.blocking - {t},
       queue := if t in s.flagged then s.queue else s.queue + [t],
       flagged := s.flagged + {t})
  }

  /** Every sleeper at the front whose time has come wakes up. */
  function Drain(s: State): State
    decreases |s.delta|
  {
    if s.delta == [] || s.delta[0].ticks != 0 then s else Drain(Wake(s))
  }

  function Chosen(s: State): Choice {
    Select(s.queue, s.flagged, s.blocking, s.idle)
  }

  /** Who runs next is chosen before the sleep queue is drained. */
  function Schedule(s: State): State {
    var c := Chosen(s);
    Drain(s.(queue := c.queue, flagged := c.flagged, current := c.next))
  }

  function Ticked(s: State): State {
    s.(time := if s.time > 0 then s.time - 1 else 0, delta := Tick(s.delta))
  }

  predicate Enabled(s: State, op: Op) {
    match op
    case Create(t) => s.current !in s.asleep && t !in s.tasks && t != s.idle
    case Sleep(n) => s.current != s.idle && s.current !in s.asleep
    case Yield => s.current in s.asleep
    case ClockTick => true
    case Start => s.current !in s.asleep
  }

  /** Does the step call the scheduler? */
  predicate Schedules(s: State, op: Op) {
    op == Yield || (op == ClockTick && Ticked(s).time == 0 && s.running)
  }

  function Step(s: State, op: Op): State {
    match op
    case Create(t) => s.(queue := s.queue + [t], flagged := s.flagged + {t}, tasks := s.tasks + {t})
    case Sleep(n) => s.(blocking := s.blocking + {s.current}, delta := Insert(s.delta, s.current, n),
                        asleep := s.asleep + {s.current})
    case Yield => Schedule(s.(asleep := s.asleep - {s.current}))
    case ClockTick => if Schedules(s, op) then Schedule(Ticked(s)).(time := SLICE) else Ticked(s)
    case Start => s.(running := true)
  }

  /** After scheduler_init: the main task is queued and current. */
  predicate Init(s: State) {
    && s.queue == [s.current] && s.flagged == {s.current} && s.tasks == {s.current} && s.idle != s.current
    && s.blocking == {} && s.delta == [] && s.asleep == {} && s.time == SLICE && !s.running
  }

  // ---------------------------------------------------------------------------------
  // No task is lost
  // ---------------------------------------------------------------------------------

  function Names(q: seq<Sleeper<TaskState>>): (r: seq<TaskState>)
    ensures |r| == |q|
  {
    seq(|q|, i requires 0 <= i < |q| => q[i].task)
  }

  predicate SameMembers(a: set<TaskState>, b: seq<TaskState>) {
    (forall t :: t in a ==> t in b) && (forall t :: t in b ==> t in a)
  }

  /** A queue without repetitions, of which the flags tell the members; every task that is
      blocking has exactly one sleep queue entry; every other task is queued. */
  ghost predicate QueuesAgree(s: State) {
    && Distinct(s.queue) && SameMembers(s.flagged, s.queue)
    && Distinct(Names(s.delta)) && SameMembers(s.blocking, Names(s.delta))
    && s.flagged <= s.tasks && s.blocking <= s.tasks && s.idle !in s.tasks
    && s.tasks <= s.flagged + s.blocking
  }

  ghost predicate Inv(s: State) {
    && QueuesAgree(s)
    && s.current in s.tasks + {s.idle} && s.asleep <= s.tasks
    && (s.current in s.blocking ==> s.current in s.asleep)
    && s.time <= SLICE
  }

  lemma InitHasInv(s: State)
    requires Init(s)
    ensures Inv(s)
  {
    assert s.current in s.queue;
  }

  // Choosing keeps the queue free of repetitions and loses only blocking tasks.
  ghost predicate ChoiceAgrees(q: seq<TaskState>, flagged: set<TaskState>, blocking: set<TaskState>, c: Choice) {
    && Distinct(c.queue) && SameMembers(c.flagged, c.queue)
    && c.flagged <= flagged && flagged <= c.flagged + blocking
  }

  lemma {:induction false} SelectAgrees(q: seq<TaskState>, flagged: set<TaskState>, blocking: set<TaskState>, idle: TaskState)
    requires Distinct(q) && SameMembers(flagged, q) && idle !in blocking
    ensures var c := Select(q, flagged, blocking, idle);
            && ChoiceAgrees(q, flagged, blocking, c)
            && c.next !in blocking && c.next in flagged + {idle}
  {
    if q == [] {
    } else {
      TailMembers(flagged, q);
      if q[0] in blocking {
        SelectAgrees(q[1..], flagged - {q[0]}, blocking, idle);
      }
    }
  }

  /** The first entry that is not blocking runs next and goes to the back, behind all others;
      the idle task runs only if every entry is blocking. */
  lemma {:induction false} SelectTakesFirst(q: seq<TaskState>, flagged: set<TaskState>, blocking: set<TaskState>,
                                            idle: TaskState, k: nat)
    requires k <= |q| && (forall i :: 0 <= i < k ==> q[i] in blocking) && (k < |q| ==> q[k] !in blocking)
    ensures var c := Select(q, flagged, blocking, idle);
            if k < |q| then c.next == q[k] && c.queue == q[k + 1..] + [q[k]] else c.next == idle && c.queue == []
    decreases k
  {
    if k > 0 {
      SelectTakesFirst(q[1..], flagged - {q[0]}, blocking, idle, k - 1);
      assert k < |q| ==> q[1..][k..] == q[k + 1..];
    }
  }

  // Taking the first element out of a list, and out of the set of its members.
  lemma TailMembers(a: set<TaskState>, b: seq<TaskState>)
    requires Distinct(b) && SameMembers(a, b) && b != []
    ensures Distinct(b[1..]) && SameMembers(a - {b[0]}, b[1..])
  {
    assert b == [b[0]] + b[1..];
    forall i, j | 0 <= i < j < |b| - 1
      ensures b[1..][i] != b[1..][j]
    {
      assert b[1..][i] == b[i + 1] && b[1..][j] == b[j + 1];
    }
    forall t | t in b[1..]
      ensures t in a - {b[0]}
    {
      var i :| 0 <= i < |b[1..]| && b[1..][i] == t;
      assert t == b[i + 1];
    }
  }

  lemma WakeAgrees(s: State)
    requires QueuesAgree(s) && s.delta != []
    ensures QueuesAgree(Wake(s))
  {
    var t := s.delta[0].task;
    var names := Names(s.delta);
    assert names == [t] + Names(s.delta[1..]);
    TailMembers(s.blocking, names);
    assert names[1..] == Names(s.delta[1..]);
    assert t in names;
  }

  lemma {:induction false} DrainAgrees(s: State)
    requires QueuesAgree(s)
    ensures QueuesAgree(Drain(s))
    ensures Drain(s) == s.(queue := Drain(s).queue, flagged := Drain(s).flagged, blocking := Drain(s).blocking,
                           delta := Drain(s).delta)
    ensures s.queue <= Drain(s).queue && Drain(s).blocking <= s.blocking
    decreases |s.delta|
  {
    if s.delta != [] && s.delta[0].ticks == 0 {
      WakeAgrees(s);
      DrainAgrees(Wake(s));
    }
  }

  /** The tasks of a list that are not flagged, in its order. */
  function Unflagged(q: seq<TaskState>, flagged: set<TaskState>): seq<TaskState> {
    if q == [] then [] else (if q[0] in flagged then [] else [q[0]]) + Unflagged(q[1..], flagged)
  }

  // Flags of tasks outside the list do not matter.
  lemma {:induction false} UnflaggedSame(q: seq<TaskState>, flagged: set<TaskState>, t: TaskState)
    requires t !in q
    ensures Unflagged(q, flagged + {t}) == Unflagged(q, flagged)
  {
    if q != [] {
      assert q[0] != t;
      UnflaggedSame(q[1..], flagged, t);
    }
  }

  /** Who is due leaves the sleep queue and goes behind all that are queued, earlier sleepers
      first, unless it is queued still. */
  lemma {:induction false} DrainAppends(s: State)
    requires QueuesAgree(s)
    ensures var k := Expired(s.delta);
            && Drain(s).delta == s.delta[k..]
            && Drain(s).queue == s.queue + Unflagged(Names(s.delta[..k]), s.flagged)
    decreases |s.delta|
  {
    hide QueuesAgree;
    hide Unflagged;
    hide Names;
    if s.delta != [] && s.delta[0].ticks == 0 {
      var rest, k := s.delta[1..], Expired(s.delta[1..]);
      WakeAgrees(s);
      DrainAppends(Wake(s));
      assert rest[k..] == s.delta[k + 1..];
      FirstUnflagged(s, k);
    } else {
      NoneUnflagged(s.delta, s.flagged);
      assert s.queue + [] == s.queue && s.delta[0..] == s.delta;
    }
  }

  lemma NoneUnflagged(q: seq<Sleeper<TaskState>>, flagged: set<TaskState>)
    ensures Unflagged(Names(q[..0]), flagged) == []
  {
  }

  lemma FirstUnflagged(s: State, k: nat)
    requires QueuesAgree(s) && s.delta != [] && k < |s.delta|
    ensures var s1, t := Wake(s), s.delta[0].task;
            s.queue + Unflagged(Names(s.delta[..k + 1]), s.flagged) ==
            s1.queue + Unflagged(Names(s.delta[1..][..k]), s1.flagged)
  {
    var t, rest := s.delta[0].task, Names(s.delta[1..][..k]);
    assert Names(s.delta[..k + 1]) == [t] + rest;
    FirstNameOnce(s);
    hide QueuesAgree;
    hide Names;
    UnflaggedSame(rest, s.flagged, t);
    assert ([t] + rest)[1..] == rest;
    if t !in s.flagged {
      assert s.queue + ([t] + Unflagged(rest, s.flagged)) == s.queue + [t] + Unflagged(rest, s.flagged);
    } else {
      assert [] + Unflagged(rest, s.flagged) == Unflagged(rest, s.flagged);
    }
  }

  lemma FirstNameOnce(s: State)
    requires QueuesAgree(s) && s.delta != []
    ensures forall k :: 0 <= k <= |s.delta| - 1 ==> s.delta[0].task !in Names(s.delta[1..][..k])
  {
    var names := Names(s.delta);
    forall k | 0 <= k <= |s.delta| - 1
      ensures s.delta[0].task !in Names(s.delta[1..][..k])
    {
      assert forall i :: 0 <= i < k ==> Names(s.delta[1..][..k])[i] == names[i + 1];
      assert names[0] == s.delta[0].task;
    }
  }

  /** The scheduler keeps the queues in agreement and never picks a blocking task. */
  lemma ScheduleAgrees(s: State)
    requires QueuesAgree(s)
    ensures QueuesAgree(Schedule(s))
    ensures Schedule(s).current == Chosen(s).next && Chosen(s).next !in s.blocking
    ensures Chosen(s).next in s.tasks + {s.idle}
    ensures Schedule(s) == s.(queue := Schedule(s).queue, flagged := Schedule(s).flagged,
                              blocking := Schedule(s).blocking, delta := Schedule(s).delta, current := Chosen(s).next)
    ensures Chosen(s).queue <= Schedule(s).queue && Schedule(s).blocking <= s.blocking
  {
    SelectAgrees(s.queue, s.flagged, s.blocking, s.idle);
    var c := Chosen(s);
    var s1 := s.(queue := c.queue, flagged := c.flagged, current := c.next);
    assert QueuesAgree(s1);
    DrainAgrees(s1);
  }

  lemma InsertNames(q: seq<Sleeper<TaskState>>, t: TaskState, n: nat) returns (k: nat)
    ensures k <= |q| && Names(Insert(q, t, n)) == Names(q)[..k] + [t] + Names(q)[k..]
  {
    k := InsertKeepsTimes(q, t, n, 0);
    DueNames(q, 0);
    DueNames(Insert(q, t, n), 0);
    assert Names(Due(q, 0)[..k]) == Names(q)[..k] && Names(Due(q, 0)[k..]) == Names(q)[k..];
    var parts := Due(q, 0)[..k] + [Sleeper(t, n)] + Due(q, 0)[k..];
    assert Names(parts) == Names(q)[..k] + [t] + Names(q)[k..];
  }

  lemma {:induction false} DueNames(q: seq<Sleeper<TaskState>>, base: nat)
    ensures Names(Due(q, base)) == Names(q)
  {
    if q != [] {
      DueNames(q[1..], base + q[0].ticks);
      assert Names(q) == [q[0].task] + Names(q[1..]);
      assert Names(Due(q, base)) == [q[0].task] + Names(Due(q[1..], base + q[0].ticks));
    }
  }

  lemma {:induction false} TickNames(q: seq<Sleeper<TaskState>>)
    ensures Names(Tick(q)) == Names(q)
  {
    if q != [] {
      TickNames(q[1..]);
      assert Names(q) == [q[0].task] + Names(q[1..]);
      if q[0].ticks == 0 {
        assert Names(Tick(q)) == [q[0].task] + Names(Tick(q[1..]));
      }
    }
  }

  lemma SleepAgrees(s: State, n: nat)
    requires Inv(s) && Enabled(s, Sleep(n))
    ensures QueuesAgree(Step(s, Sleep(n)))
  {
    var k := InsertNames(s.delta, s.current, n);
    var names := Names(s.delta);
    assert s.current !in names;
    DistinctWith(names, k, s.current);
    assert names == names[..k] + names[k..];
    assert SameMembers(s.blocking + {s.current}, names[..k] + [s.current] + names[k..]);
  }

  /** Every step keeps the invariant. */
  lemma StepKeepsInv(s: State, op: Op)
    requires Inv(s) && Enabled(s, op)
    ensures Inv(Step(s, op))
  {
    hide Select;
    hide Drain;
    hide Schedule;
    match op
    case Create(t) =>
      assert t !in s.queue;
    case Sleep(n) =>
      SleepAgrees(s, n);
    case Yield =>
      ScheduleAgrees(s.(asleep := s.asleep - {s.current}));
    case ClockTick =>
      TickNames(s.delta);
      if Schedules(s, op) {
        ScheduleAgrees(Ticked(s));
      }
    case Start =>
  }

  // ---------------------------------------------------------------------------------
  // Runs
  // ---------------------------------------------------------------------------------

  /** Each operation is possible in the state that the ones before it lead to. */
  predicate Run(s: State, ops: seq<Op>)
    decreases |ops|
  {
    ops == [] || (Enabled(s, ops[0]) && Run(Step(s, ops[0]), ops[1..]))
  }

  function After(s: State, ops: seq<Op>): State
    decreases |ops|
  {
    if ops == [] then s else After(Step(s, ops[0]), ops[1..])
  }

  function Ticks(ops: seq<Op>): nat {
    if ops == [] then 0 else (if ops[0].ClockTick? then 1 else 0) + Ticks(ops[1..])
  }

  /** How often the scheduler is called. */
  function Calls(s: State, ops: seq<Op>): nat
    decreases |ops|
  {
    if ops == [] then 0 else (if Schedules(s, ops[0]) then 1 else 0) + Calls(Step(s, ops[0]), ops[1..])
  }

  /** In every state of every run no task is lost. */
  lemma {:induction false} EveryRunKeepsInv(s: State, ops: seq<Op>)
    requires Inv(s) && Run(s, ops)
    ensures Inv(After(s, ops))
    decreases |ops|
  {
    if ops != [] {
      StepKeepsInv(s, ops[0]);
      EveryRunKeepsInv(Step(s, ops[0]), ops[1..]);
    }
  }
}

/** The scheduler, sleep and the interrupt wrappers on the linked queues and the flags. */
module SchedulerCode {
  import opened Tasks
  import opened DeltaTimes
  import opened Scheduling
  import opened Sequences

  class QueueElement {
    const task: TaskState
    var next: QueueElement?

    constructor (task: TaskState)
      ensures this.task == task && next == null
    {
      this.task := task;
      next := null;
    }
  }

  /** The round robin queue. */
  class TaskQueue {
    var first: QueueElement?
    var last: QueueElement?
    ghost var elements: seq<QueueElement>

    ghost predicate Valid()
      reads this, elements
    {
      && (elements == [] ==> first == null && last == null)
      && (elements != [] ==> first == elements[0] && last == elements[|elements| - 1] && last.next == null)
      && (forall i :: 0 <= i < |elements| - 1 ==> elements[i].next == elements[i + 1])
      && Distinct(elements)
    }

    ghost function Contents(): (q: seq<TaskState>)
      reads this
      ensures |q| == |elements|
    {
      seq(|elements|, i requires 0 <= i < |elements| reads this => elements[i].task)
    }

    /** The page of the queue is taken to be zeroed: the code never initialises it. */
    constructor ()
      ensures Valid() && Contents() == [] && elements == []
    {
      first, last := null, null;
      elements := [];
    }

    /** push_task_queue */
    method Push(task: TaskState)
      requires Valid()
      modifies this, elements, task`onTaskQueue
      ensures Valid() && Contents() == old(Contents()) + [task] && task.onTaskQueue
      ensures forall e :: e in elements ==> e in old(elements) || fresh(e)
    {
      var element := new QueueElement(task);
      if last == null {
        first, last := element, element;
      } else {
        last.next := element;
        last := element;
      }
      elements := elements + [element];
      task.onTaskQueue := true;
    }

    /** pop_task_queue */
    method Pop() returns (task: TaskState?)
      requires Valid()
      modifies this, (if elements == [] then {} else {elements[0].task})`onTaskQueue
      ensures Valid()
      ensures task == null <==> old(Contents()) == []
      ensures task == null ==> Contents() == [] && elements == []
      ensures task != null ==>
                old(Contents()) == [task] + Contents() && elements == old(elements)[1..] && !task.onTaskQueue
    {
      if first == null {
        return null;
      } else if first == last {
        task := first.task;
        first, last := null, null;
        assert |elements| == 1;
      } else {
        task := first.task;
        first := first.next;
      }
      elements := elements[1..];
      task.onTaskQueue := false;
    }
  }

  class Kernel {
    const queue: TaskQueue
    const delta: DeltaQueue<TaskState>
    const idle: TaskState
    var current: TaskState
    var next: TaskState
    var time: nat
    var running: bool
    ghost var tasks: set<TaskState>
    ghost var asleep: set<TaskState>
    ghost var heap: set<object>


    ghost function Flagged(): set<TaskState>
      reads this`tasks, tasks
    {
      set t | t in tasks && t.onTaskQueue
    }

    ghost function Blocking(): set<TaskState>
      reads this`tasks, tasks
    {
      set t | t in tasks && t.isBlocking
    }

    ghost function Model(): State
      reads this`current, this`tasks, this`asleep, this`time, this`running, queue, queue.elements, delta, delta.elements, tasks
    {
      State(queue.Contents(), Flagged(), Blocking(), delta.Contents(), current, idle, tasks, asleep, time, running)
    }

    /** The pointers form the two queues, inside the heap. */
    ghost predicate Linked()
      reads this`tasks, this`heap, heap, queue, delta
    {
      && this !in heap && queue in heap && delta in heap && tasks <= heap
      && (forall e :: e in queue.elements ==> e in heap) && (forall e :: e in delta.elements ==> e in heap)
      && queue.Valid() && delta.Valid()
    }

    ghost predicate Valid()
      reads this, heap, queue, queue.elements, delta, delta.elements, tasks
    {
      Linked() && Inv(Model())
    }

    /** scheduler_init and time_init. */
    constructor ()
      ensures Valid() && Init(Model()) && fresh(heap)
    {
      hide Inv;
      hide Linked;
      hide Model;
      hide Init;
      hide TaskQueue.Valid;
      hide DeltaQueue.Valid;
      hide TaskQueue.Contents;
      var main := new TaskState();
      idle := new TaskState();
      delta := new DeltaQueue();
      queue := new TaskQueue();
      current, next := main, main;
      time, running := SLICE, false;
      tasks, asleep := {main}, {};
      heap := {queue, delta, main};
      new;
      StartState(main);
      PushTask(main);
      OneTaskIsInit(Model(), main);
      InitHasInv(Model());
    }

    // Before the first task is queued.
    lemma StartState(main: TaskState)
      requires queue.Valid() && delta.Valid() && queue.elements == [] && delta.elements == []
      requires tasks == {main} && asleep == {} && heap == {queue, delta, main} && !main.onTaskQueue && !main.isBlocking
      ensures Linked() && Model() == State([], {}, {}, [], current, idle, {main}, {}, time, running)
    {
      hide Distinct;
      assert Flagged() == {} && Blocking() == {};
    }

    // ---------------------------------------------------------------------------------
    // The queues
    // ---------------------------------------------------------------------------------

    method PushTask(task: TaskState)
      requires Linked() && task in tasks
      modifies this`heap, heap
      ensures next == old(next)
      ensures Linked() && fresh(heap - old(heap))
      ensures Model() == old(Model()).(queue := old(Model()).queue + [task], flagged := old(Model()).flagged + {task})
    {
      hide Distinct;
      ghost var flagged, blocking := Flagged(), Blocking();
      queue.Push(task);
      heap := heap + set e | e in queue.elements;
      assert Flagged() == flagged + {task};
      assert Blocking() == blocking;
    }

    method PopTask() returns (task: TaskState?)
      requires Linked() && Inside(Model())
      modifies this`heap, heap
      ensures next == old(next)
      ensures Linked() && fresh(heap - old(heap)) && this !in heap
      ensures task == null <==> old(Model()).queue == []
      ensures task == null ==> Model() == old(Model())
      ensures task != null ==> task in tasks && old(Model()).queue[0] == task
      ensures task != null ==>
                Model() == old(Model()).(queue := old(Model()).queue[1..], flagged := old(Model()).flagged - {task})
    {
      hide Distinct;
      ghost var q, flagged, blocking := queue.Contents(), Flagged(), Blocking();
      assert q != [] ==> q[0] == queue.elements[0].task && q[0] in q;
      task := queue.Pop();
      assert Flagged() == if task == null then flagged else flagged - {task};
      assert Blocking() == blocking;
    }

    method SetBlocking(task: TaskState, blocks: bool)
      requires Linked() && task in tasks
      modifies task`isBlocking
      ensures Linked()
      ensures blocks ==> Model() == old(Model()).(blocking := old(Model()).blocking + {task})
      ensures !blocks ==> Model() == old(Model()).(blocking := old(Model()).blocking - {task})
    {
      ghost var flagged, blocking := Flagged(), Blocking();
      task.isBlocking := blocks;
      assert Flagged() == flagged;
      assert Blocking() == if blocks then blocking + {task} else blocking - {task};
    }

    method InsertSleeper(task: TaskState, ticks: nat)
      requires Linked()
      modifies this`heap, heap
      ensures next == old(next)
      ensures Linked() && fresh(heap - old(heap))
      ensures Model() == old(Model()).(delta := Insert(old(Model()).delta, task, ticks))
    {
      hide Distinct;
      hide Insert;
      ghost var flagged, blocking := Flagged(), Blocking();
      delta.Enqueue(task, ticks);
      heap := heap + set e | e in delta.elements;
      assert Flagged() == flagged && Blocking() == blocking;
    }

    method RemoveSleeper()
      requires Linked() && Model().delta != []
      modifies heap
      ensures Linked() && Model() == old(Model()).(delta := old(Model()).delta[1..])
    {
      hide Distinct;
      ghost var flagged, blocking := Flagged(), Blocking();
      delta.Dequeue();
      assert Flagged() == flagged && Blocking() == blocking;
    }

    // Loop tests, read off the pointers and flags.
    predicate HasReady()
      requires Linked()
      reads this, heap, queue, queue.elements, delta, delta.elements, tasks
      ensures HasReady() <==> Model().queue != []
    {
      queue.first != null
    }

    predicate HasExpired()
      requires Linked()
      reads this, heap, queue, queue.elements, delta, delta.elements, tasks
      ensures HasExpired() <==> Model().delta != [] && Model().delta[0].ticks == 0
    {
      delta.first != null && delta.first.ticks == 0
    }

    predicate Blocks(t: TaskState)
      requires t in tasks
      reads this, heap, queue, queue.elements, delta, delta.elements, tasks
      ensures Blocks(t) <==> t in Model().blocking
    {
      t.isBlocking
    }

    // ---------------------------------------------------------------------------------
    // scheduler
    // ---------------------------------------------------------------------------------

    // One turn of the first loop.
    method PickTask() returns (found: bool)
      requires Linked() && Inside(Model()) && Model().queue != []
      modifies this`next, this`heap, heap
      ensures Linked() && fresh(heap - old(heap))
      ensures var m, t := old(Model()), old(Model()).queue[0];
              && (t in m.blocking ==> !found && Model() == Popped(m) && next == old(next))
              && (t !in m.blocking ==> found && next == t && Model() == Requeued(m))
    {
      hide Linked;
      hide Inside;
      assert tasks == Model().tasks;
      hide Model;
      var task := PopTask();
      if !Blocks(task) {
        next := task;
        PushTask(task);
        found := true;
      } else {
        found := false;
      }
    }

    lemma OutsideHeap()
      requires Linked()
      ensures this !in heap
    {
    }

    lemma IdleInModel()
      ensures Model().idle == idle
    {
    }

    // The first loop.
    method PickNext()
      requires Linked() && QueuesAgree(Model())
      modifies this`next, this`heap, heap
      ensures Linked() && fresh(heap - old(heap))
      ensures var c := Chosen(old(Model()));
              next == c.next && Model() == old(Model()).(queue := c.queue, flagged := c.flagged)
    {
      hide QueuesAgree;
      hide Linked;
      hide HasReady;
      hide Model;
      hide Picking;
      hide Chosen;
      hide Inside;
      hide Popped;
      hide Requeued;
      ghost var m := Model();
      IdleInModel();
      QueueHoldsTasks(m);
      PickingStarts(m, next);
      var found := false;
      while HasReady() && !found
        invariant Linked() && fresh(heap - old(heap))
        invariant Picking(m, Model(), found, next)
        decreases !found, |Model().queue|
      {
        PickTurn(m, Model(), next);
        found := PickTask();
      }
      PickDone(m, Model(), found, next);
      if !HasReady() {
        OutsideHeap();
        next := idle;
      }
    }

    // One turn of the second loop.
    method WakeFirst()
      requires Linked() && QueuesAgree(Model()) && HasExpired()
      modifies this`heap, heap
      ensures next == old(next)
      ensures Linked() && fresh(heap - old(heap)) && Model() == Wake(old(Model()))
    {
      ghost var m := Model();
      SleeperIsTask(m);
      var task := delta.first.task;
      assert task == m.delta[0].task && task in tasks && task in heap;
      SetBlocking(task, false);
      assert task.onTaskQueue <==> task in m.flagged;
      hide QueuesAgree;
      hide Linked;
      hide Model;
      if !task.onTaskQueue {
        PushTask(task);
      } else {
        assert m.flagged == m.flagged + {task};
      }
      RemoveSleeper();
    }

    // The second loop.
    method DrainSleepers()
      requires Linked() && QueuesAgree(Model())
      modifies this`heap, heap
      ensures next == old(next)
      ensures Linked() && fresh(heap - old(heap)) && Model() == Drain(old(Model()))
    {
      hide QueuesAgree;
      hide Linked;
      hide HasExpired;
      hide Model;
      hide Wake;
      while HasExpired()
        invariant Linked() && fresh(heap - old(heap)) && next == old(next)
        invariant QueuesAgree(Model()) && Drain(Model()) == Drain(old(Model()))
        decreases |Model().delta|
      {
        WakeAgrees(Model());
        WakeShortens(Model());
        WakeFirst();
      }
    }

    method Scheduler()
      requires Linked() && QueuesAgree(Model())
      modifies this`next, this`heap, heap
      ensures Linked() && fresh(heap - old(heap))
      ensures next == Schedule(old(Model())).current
      ensures Model() == Schedule(old(Model())).(current := old(Model()).current)
    {
      hide Linked;
      hide Model;
      hide QueuesAgree;
      hide Drain;
      ghost var m := Model();
      ghost var s := m.(queue := Chosen(m).queue, flagged := Chosen(m).flagged);
      ChoiceKeepsAgreement(m);
      PickNext();
      assert Model() == s;
      ScheduleInParts(m, s);
      DrainSleepers();
    }

    // ---------------------------------------------------------------------------------
    // The steps
    // ---------------------------------------------------------------------------------

    // The ghost record of who is inside sleep.
    ghost method MarkAsleep(inside: bool)
      requires Linked()
      modifies this`asleep
      ensures Linked()
      ensures inside ==> Model() == old(Model()).(asleep := old(asleep) + {current})
      ensures !inside ==> Model() == old(Model()).(asleep := old(asleep) - {current})
    {
      hide Distinct;
      asleep := if inside then asleep + {current} else asleep - {current};
    }

    ghost method AddTask(task: TaskState)
      requires Linked() && task !in tasks && !task.isBlocking && !task.onTaskQueue
      modifies this`tasks, this`heap
      ensures Linked() && heap == old(heap) + {task} && Model() == old(Model()).(tasks := old(tasks) + {task})
    {
      hide Distinct;
      ghost var flagged, blocking := Flagged(), Blocking();
      tasks, heap := tasks + {task}, heap + {task};
      assert Flagged() == flagged && Blocking() == blocking;
    }

    /** task_create and task_create_param */
    method TaskCreate() returns (task: TaskState)
      requires Valid() && current !in asleep
      modifies this, heap
      ensures Valid() && fresh(heap - old(heap)) && fresh(task)
      ensures Enabled(old(Model()), Create(task)) && Model() == Step(old(Model()), Create(task))
    {
      hide Inv;
      hide Linked;
      ghost var m := Model();
      task := new TaskState();
      assert m.current == current && m.asleep == asleep && m.tasks == tasks && m.idle == idle;
      StepKeepsInv(m, Create(task));
      hide Model;
      AddTask(task);
      PushTask(task);
    }

    // What the sleep step does to the sleep queue.
    lemma Slept(m: State, ticks: nat)
      requires Valid() && Model() == Step(m, Sleep(ticks))
      ensures current == m.current && current.isBlocking
      ensures PutBehind(Due(m.delta, 0), Due(delta.Contents(), 0), Sleeper(current, ticks))
    {
      hide Inv;
      hide Linked;
      hide Insert;
      hide Due;
      assert m.current in Blocking();
      var k := InsertKeepsTimes(m.delta, m.current, ticks, 0);
    }

    /** sleep up to the software interrupt: interrupts are off until its caller is queued, to
        be woken after the given ticks. */
    method SleepInsert(ticks: nat)
      requires Valid() && Enabled(Model(), Sleep(ticks))
      modifies this, heap
      ensures Valid() && fresh(heap - old(heap)) && Model() == Step(old(Model()), Sleep(ticks))
      ensures current == old(current) && current.isBlocking
      ensures PutBehind(Due(old(delta.Contents()), 0), Due(delta.Contents(), 0), Sleeper(current, ticks))
    {
      hide Insert;
      hide Distinct;
      ghost var m := Model();
      StepKeepsInv(m, Sleep(ticks));
      assert current in tasks && current in heap && m.delta == delta.Contents();
      hide Inv;
      hide Linked;
      hide Model;
      MarkAsleep(true);
      SetBlocking(current, true);
      InsertSleeper(current, ticks);
      Slept(m, ticks);
    }

    /** reset_scheduler_time */
    method ResetSchedulerTime()
      requires Linked()
      modifies this`time
      ensures Linked() && Model() == old(Model()).(time := SLICE)
    {
      time := SLICE;
    }

    // The end of both wrappers.
    method SwitchTask()
      requires Linked()
      modifies this`current
      ensures Linked() && Model() == old(Model()).(current := next)
    {
      current := next;
    }

    /** interrupt_wrapper_software_blocking, raised at the end of sleep. */
    method InterruptBlocking()
      requires Valid() && Enabled(Model(), Yield)
      modifies this, heap
      ensures Valid() && fresh(heap - old(heap)) && Model() == Step(old(Model()), Yield)
    {
      hide Step;
      hide Inv;
      hide QueuesAgree;
      hide Linked;
      hide Schedule;
      ghost var m := Model();
      StepKeepsInv(m, Yield);
      YieldInParts(m);
      assert m.current == current && m.asleep == asleep;
      hide Model;
      MarkAsleep(false);
      Scheduler();
      SwitchTask();
    }

    /** interrupt_function_PIT */
    method InterruptFunctionPit()
      requires Linked()
      modifies this`time, heap
      ensures Linked() && heap == old(heap) && Model() == Ticked(old(Model()))
    {
      hide Distinct;
      hide Tick;
      if time > 0 {
        time := time - 1;
      }
      delta.Advance();
      assert Flagged() == old(Flagged()) && Blocking() == old(Blocking());
    }

    /** interrupt_wrapper_PIT */
    method InterruptPit()
      requires Valid()
      modifies this, heap
      ensures Valid() && fresh(heap - old(heap)) && Model() == Step(old(Model()), ClockTick)
    {
      hide Step;
      hide Inv;
      hide QueuesAgree;
      hide Linked;
      hide Schedule;
      ghost var m := Model();
      assert m.time == time && m.running == running;
      StepKeepsInv(m, ClockTick);
      TickedAgrees(m);
      TickInParts(m);
      InterruptFunctionPit();
      assert time == Ticked(m).time && running == m.running;
      hide Model;
      hide Ticked;
      if time == 0 && running {
        Scheduler();
        ResetSchedulerTime();
        SwitchTask();
      }
    }

    /** scheduler_start */
    method SchedulerStart()
      requires Valid() && Enabled(Model(), Start)
      modifies this`running
      ensures Valid() && Model() == Step(old(Model()), Start)
    {
      hide Inv;
      hide Distinct;
      StepKeepsInv(Model(), Start);
      running := true;
    }
  }

  lemma WakeShortens(s: State)
    requires s.delta != [] && s.delta[0].ticks == 0
    ensures Drain(s) == Drain(Wake(s)) && |Wake(s).delta| < |s.delta|
  {
  }

  ghost predicate Inside(s: State) {
    forall t :: t in s.queue ==> t in s.tasks
  }

  lemma QueueHoldsTasks(s: State)
    requires QueuesAgree(s)
    ensures Inside(s)
  {
  }

  /** The search for the next task has come from state m to s. */
  ghost predicate Picking(m: State, s: State, found: bool, next: TaskState) {
    && s == m.(queue := s.queue, flagged := s.flagged) && Inside(s)
    && (if found then s.queue != [] && Chosen(m) == Choice(s.queue, s.flagged, next) else Chosen(s) == Chosen(m))
  }

  ghost function Popped(s: State): State
    requires s.queue != []
  {
    s.(queue := s.queue[1..], flagged := s.flagged - {s.queue[0]})
  }

  ghost function Requeued(s: State): State
    requires s.queue != []
  {
    s.(queue := s.queue[1..] + [s.queue[0]], flagged := s.flagged - {s.queue[0]} + {s.queue[0]})
  }

  lemma PickingStarts(m: State, next: TaskState)
    requires Inside(m)
    ensures Picking(m, m, false, next)
  {
  }

  lemma PickTurn(m: State, s: State, next: TaskState)
    requires Picking(m, s, false, next) && s.queue != []
    ensures Inside(s) && s.blocking == m.blocking
    ensures |Popped(s).queue| < |s.queue|
    ensures s.queue[0] in s.blocking ==> Picking(m, Popped(s), false, next)
    ensures s.queue[0] !in s.blocking ==> Picking(m, Requeued(s), true, s.queue[0])
  {
    assert s.queue == [s.queue[0]] + s.queue[1..];
  }

  lemma PickDone(m: State, s: State, found: bool, next: TaskState)
    requires Picking(m, s, found, next) && (found || s.queue == [])
    ensures s == m.(queue := Chosen(m).queue, flagged := Chosen(m).flagged)
    ensures Chosen(m).next == if s.queue == [] then m.idle else next
  {
  }

  lemma ChoiceKeepsAgreement(s: State)
    requires QueuesAgree(s)
    ensures QueuesAgree(s.(queue := Chosen(s).queue, flagged := Chosen(s).flagged))
  {
    SelectAgrees(s.queue, s.flagged, s.blocking, s.idle);
  }

  lemma ScheduleInParts(m: State, s: State)
    requires s == m.(queue := Chosen(m).queue, flagged := Chosen(m).flagged)
    ensures Schedule(m) == Drain(s).(current := Chosen(m).next)
    ensures Drain(s).current == m.current
  {
    DrainIgnoresCurrent(s, Chosen(m).next);
    DrainIgnoresCurrent(s, m.current);
  }

  lemma YieldInParts(s: State)
    requires Inv(s)
    ensures var t := s.(asleep := s.asleep - {s.current});
            && QueuesAgree(t)
            && Step(s, Yield) == Schedule(t).(current := t.current).(current := Schedule(t).current)
  {
  }

  lemma OneTaskIsInit(s: State, main: TaskState)
    requires s == State([main], {main}, {}, [], main, s.idle, {main}, {}, SLICE, false) && s.idle != main
    ensures Init(s)
  {
  }

  lemma TickInParts(s: State)
    ensures Ticked(s).time == 0 && s.running ==>
              Step(s, ClockTick) == var t := Ticked(s);
                Schedule(t).(current := t.current).(time := SLICE).(current := Schedule(t).current)
    ensures !(Ticked(s).time == 0 && s.running) ==> Step(s, ClockTick) == Ticked(s)
  {
  }

  lemma TickedAgrees(s: State)
    requires Inv(s)
    ensures QueuesAgree(Ticked(s))
  {
    TickNames(s.delta);
  }

  lemma SleeperIsTask(s: State)
    requires QueuesAgree(s) && s.delta != []
    ensures s.delta[0].task in s.blocking && s.delta[0].task in s.tasks
  {
    assert Names(s.delta)[0] in Names(s.delta);
  }

  lemma {:induction false} DrainIgnoresCurrent(s: State, t: TaskState)
    ensures Drain(s.(current := t)) == Drain(s).(current := t)
    decreases |s.delta|
  {
    if s.delta != [] && s.delta[0].ticks == 0 {
      DrainIgnoresCurrent(Wake(s), t);
      assert Wake(s.(current := t)) == Wake(s).(current := t);
    }
  }
}

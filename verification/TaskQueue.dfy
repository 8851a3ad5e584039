/**
 The task queue of a database. Tasks are queued from the event loop, work one at a time on a thread
 of the pool, and call back on the event loop; a callback may queue more tasks. The next task is
 handed to the pool before the callback of the previous one runs.
 */
module TaskQueue {
  import opened Basics

  /** A task is known by a number; its work and its callback are opaque. */
  type Task = nat

  function Held(o: Option<Task>): seq<Task> {
    match o case None => [] case Some(t) => [t]
  }

  /**
   The queue, the task that the pool has and whether its work is done, the task whose work is
   completed but whose callback has not been called, and what has happened so far.
   */
  datatype State = State(queue: seq<Task>, inflight: Option<Task>, workDone: bool, toCall: Option<Task>,
                         scheduled: seq<Task>, worked: seq<Task>, called: seq<Task>)

  const INITIAL_STATE: State := State([], None, false, None, [], [], [])

  /** Hands the first task to the pool if it has none. */
  function Processed(s: State): State {
    if s.queue == [] || s.inflight.Some? then s
    else s.(queue := s.queue[1..], inflight := Some(s.queue[0]), workDone := false)
  }

  datatype Action = Schedule(task: Task) | DoWork | Complete | DoCallback

  /** The loop takes a completed task only when it has called back for the previous one. */
  predicate Enabled(s: State, a: Action) {
    match a
    case Schedule(_) => true
    case DoWork => s.inflight.Some? && !s.workDone
    case Complete => s.inflight.Some? && s.workDone && s.toCall.None?
    case DoCallback => s.toCall.Some?
  }

  function Step(s: State, a: Action): State
    requires Enabled(s, a)
  {
    match a
    case Schedule(task) => Processed(s.(queue := s.queue + [task], scheduled := s.scheduled + [task]))
    case DoWork => s.(workDone := true, worked := s.worked + [s.inflight.value])
    case Complete => Processed(s.(toCall := s.inflight, inflight := None, workDone := false))
    case DoCallback => s.(toCall := None, called := s.called + [s.toCall.value])
  }

  // ---------------------------------------------------------------- the database object

  class Database {
    var taskQueue: seq<Task>
    var taskInflight: bool
    /** What the pool and the loop hold, and the history. */
    ghost var state: State

    ghost predicate Valid()
      reads this
    {
      taskQueue == state.queue && taskInflight == state.inflight.Some?
    }

    constructor ()
      ensures Valid() && state == INITIAL_STATE
    {
      taskQueue, taskInflight, state := [], false, INITIAL_STATE;
    }

    method Schedule(task: Task)
      requires Valid()
      modifies this
      ensures Valid() && state == Step(old(state), Action.Schedule(task))
      ensures taskInflight && taskQueue == (old(taskQueue) + [task])[if old(taskInflight) then 0 else 1..]
    {
      taskQueue := taskQueue + [task];
      state := state.(queue := state.queue + [task], scheduled := state.scheduled + [task]);
      Process();
    }

    method Process()
      requires Valid()
      modifies this
      ensures Valid() && state == Processed(old(state))
      ensures taskInflight == (old(taskInflight) || old(taskQueue) != [])
      ensures taskQueue == if old(taskQueue) == [] || old(taskInflight) then old(taskQueue) else old(taskQueue)[1..]
    {
      if taskQueue == [] {
        return;
      }
      if taskInflight {
        return;
      }
      taskInflight := true;
      var task := taskQueue[0];
      taskQueue := taskQueue[1..];
      state := state.(queue := taskQueue, inflight := Some(task), workDone := false);
    }

    /** On a thread of the pool. */
    method TaskExecuteCallback()
      requires Valid() && Enabled(state, DoWork)
      modifies this`state
      ensures Valid() && state == Step(old(state), DoWork)
    {
      state := Step(state, DoWork);
    }

    method TaskComplete()
      requires Valid() && Enabled(state, Complete)
      modifies this
      ensures Valid() && state == Step(old(state), Complete)
      ensures taskInflight == (old(taskQueue) != [])
      ensures taskQueue == if old(taskQueue) == [] then [] else old(taskQueue)[1..]
    {
      taskInflight := false;
      state := state.(toCall := state.inflight, inflight := None, workDone := false);
      Process();
    }

    /** On the event loop: the callback runs last and schedules any tasks it likes. */
    method TaskCompleteCallback(reaction: seq<Task>)
      requires Valid() && Enabled(state, Complete)
      modifies this
      ensures Valid()
      ensures
        var s := Step(old(state), Complete);
        Enabled(s, DoCallback) && state == ScheduleAll(Step(s, DoCallback), reaction)
    {
      TaskComplete();
      state := Step(state, DoCallback);
      for i := 0 to |reaction|
        invariant Valid()
        invariant ScheduleAll(state, reaction[i..]) ==
          ScheduleAll(Step(Step(old(state), Complete), DoCallback), reaction)
      {
        assert reaction[i..][1..] == reaction[i + 1..];
        Schedule(reaction[i]);
      }
    }
  }

  function ScheduleAll(s: State, tasks: seq<Task>): State
    decreases |tasks|
  {
    if tasks == [] then s else ScheduleAll(Step(s, Schedule(tasks[0])), tasks[1..])
  }

  // ---------------------------------------------------------------- every run

  predicate Possible(s: State, actions: seq<Action>)
    decreases |actions|
  {
    actions != [] ==> Enabled(s, actions[0]) && Possible(Step(s, actions[0]), actions[1..])
  }

  function Run(s: State, actions: seq<Action>): State
    requires Possible(s, actions)
    decreases |actions|
  {
    if actions == [] then s else Run(Step(s, actions[0]), actions[1..])
  }

  /** The scheduled tasks, in order: called back, to be called back, with the pool, in the queue. */
  predicate Inv(s: State) {
    && s.scheduled == s.called + Held(s.toCall) + Held(s.inflight) + s.queue
    && s.worked == s.called + Held(s.toCall) + (if s.workDone then Held(s.inflight) else [])
    && (s.queue != [] ==> s.inflight.Some?)
    && (s.workDone ==> s.inflight.Some?)
  }

  /** Handing a task to the pool moves it from the queue, and keeps all of them in order. */
  lemma ProcessKeepsInv(s: State)
    requires s.scheduled == s.called + Held(s.toCall) + Held(s.inflight) + s.queue
    requires s.worked == s.called + Held(s.toCall) + (if s.workDone then Held(s.inflight) else [])
    requires s.workDone ==> s.inflight.Some?
    ensures Inv(Processed(s))
  {
    if s.queue != [] && s.inflight.None? {
      assert s.queue == [s.queue[0]] + s.queue[1..];
      Regroup(s.called + Held(s.toCall), [s.queue[0]], s.queue[1..]);
    }
  }

  lemma ScheduleKeepsInv(s: State, task: Task)
    requires Inv(s)
    ensures Inv(Step(s, Schedule(task)))
  {
    hide Inv, Processed;
    InvParts(s);
    Regroup(s.called + Held(s.toCall) + Held(s.inflight), s.queue, [task]);
    ProcessKeepsInv(s.(queue := s.queue + [task], scheduled := s.scheduled + [task]));
  }

  lemma InvParts(s: State)
    requires Inv(s)
    ensures s.scheduled == s.called + Held(s.toCall) + Held(s.inflight) + s.queue
    ensures s.worked == s.called + Held(s.toCall) + (if s.workDone then Held(s.inflight) else [])
    ensures s.workDone ==> s.inflight.Some?
  {
  }

  lemma CompleteKeepsInv(s: State)
    requires Inv(s) && Enabled(s, Complete)
    ensures Inv(Step(s, Complete))
  {
    hide Processed;
    ProcessKeepsInv(s.(toCall := s.inflight, inflight := None, workDone := false));
  }

  lemma StepKeepsInv(s: State, a: Action)
    requires Inv(s) && Enabled(s, a)
    ensures Inv(Step(s, a))
  {
    hide Processed;
    match a
    case Schedule(task) => ScheduleKeepsInv(s, task);
    case DoWork =>
    case Complete => CompleteKeepsInv(s);
    case DoCallback =>
  }

  lemma {:induction false} RunKeepsInv(s: State, actions: seq<Action>)
    requires Inv(s) && Possible(s, actions)
    ensures Inv(Run(s, actions))
    decreases |actions|
  {
    hide Inv, Step, Enabled;
    if actions != [] {
      StepKeepsInv(s, actions[0]);
      RunKeepsInv(Step(s, actions[0]), actions[1..]);
    }
  }

  /**
   In every run the tasks work and call back in the order in which they were scheduled, each at most
   once and never before its work, and a queue that is not empty waits for a task with the pool.
   */
  lemma RunInOrder(actions: seq<Action>)
    requires Possible(INITIAL_STATE, actions)
    ensures
      var s := Run(INITIAL_STATE, actions);
      && s.called <= s.worked <= s.scheduled
      && |s.worked| <= |s.called| + 2
      && (s.queue != [] ==> s.inflight.Some?)
      && (s.inflight.None? && s.toCall.None? ==> s.called == s.scheduled)
  {
    RunKeepsInv(INITIAL_STATE, actions);
  }

  /** The tasks that are scheduled by some actions. */
  function Tasks(actions: seq<Action>): seq<Task> {
    if actions == [] then []
    else (if actions[0].Schedule? then [actions[0].task] else []) + Tasks(actions[1..])
  }

  function Times(actions: seq<Action>, a: Action): nat {
    if actions == [] then 0 else (if actions[0] == a then 1 else 0) + Times(actions[1..], a)
  }

  /** The history is that of the actions: who was scheduled, and how often something worked and called back. */
  lemma {:induction false} HistoryIs(s: State, actions: seq<Action>)
    requires Possible(s, actions)
    ensures
      var end := Run(s, actions);
      && end.scheduled == s.scheduled + Tasks(actions)
      && |end.worked| == |s.worked| + Times(actions, DoWork)
      && |end.called| == |s.called| + Times(actions, DoCallback)
    decreases |actions|
  {
    hide Enabled;
    if actions == [] {
      assert s.scheduled + [] == s.scheduled;
    } else {
      var next := Step(s, actions[0]);
      HistoryIs(next, actions[1..]);
      var first := if actions[0].Schedule? then [actions[0].task] else [];
      assert next.scheduled == s.scheduled + first;
      Regroup(s.scheduled, first, Tasks(actions[1..]));
    }
  }

  /** When a task has called back, all tasks scheduled before it have worked and called back; so does wait. */
  lemma WaitIsLast(actions: seq<Action>, k: nat)
    requires Possible(INITIAL_STATE, actions) && k < |Run(INITIAL_STATE, actions).called|
    ensures
      var s := Run(INITIAL_STATE, actions);
      |s.worked| > k && |s.scheduled| > k && s.worked[..k + 1] == s.called[..k + 1] == s.scheduled[..k + 1]
  {
    RunInOrder(actions);
    var s := Run(INITIAL_STATE, actions);
    assert s.worked[..|s.called|] == s.called && s.scheduled[..|s.worked|] == s.worked;
    assert s.called[..k + 1] == s.worked[..|s.called|][..k + 1] == s.worked[..k + 1];
    assert s.worked[..k + 1] == s.scheduled[..|s.worked|][..k + 1] == s.scheduled[..k + 1];
  }

  lemma {:induction false} ScheduledGrows(s: State, actions: seq<Action>)
    requires Possible(s, actions)
    ensures s.scheduled <= Run(s, actions).scheduled
    decreases |actions|
  {
    hide Enabled;
    if actions != [] {
      ScheduledGrows(Step(s, actions[0]), actions[1..]);
      var next := Step(s, actions[0]).scheduled;
      assert Run(s, actions).scheduled[..|next|] == next;
      assert next[..|s.scheduled|] == s.scheduled;
    }
  }

  lemma RunFirst(s: State, a: Action, rest: seq<Action>)
    requires Enabled(s, a)
    ensures Possible(s, [a] + rest) <==> Possible(Step(s, a), rest)
    ensures Possible(s, [a] + rest) ==> Run(s, [a] + rest) == Run(Step(s, a), rest)
  {
    hide Enabled, Step;
    assert ([a] + rest)[0] == a && ([a] + rest)[1..] == rest;
  }

  lemma RunNothing(s: State)
    ensures Possible(s, []) && Run(s, []) == s
  {
  }

  lemma {:induction false} RunAppend(s: State, a: seq<Action>, b: seq<Action>)
    requires Possible(s, a + b)
    ensures Possible(s, a) && Possible(Run(s, a), b) && Run(s, a + b) == Run(Run(s, a), b)
    decreases |a|
  {
    hide Step, Enabled;
    if a == [] {
      assert a + b == b;
    } else {
      assert (a + b)[1..] == a[1..] + b && (a + b)[0] == a[0];
      RunAppend(Step(s, a[0]), a[1..], b);
    }
  }

  /**
   Closing the database schedules the close of the default connection and then its own. Whatever
   happened before and happens afterwards, the connection is closed when the database is.
   */
  lemma ConnectionClosesFirst(before: seq<Action>, connection: Task, database: Task, later: seq<Action>)
    requires Possible(INITIAL_STATE, before + ([Schedule(connection), Schedule(database)] + later))
    ensures Possible(INITIAL_STATE, before)
    ensures
      var k := |Run(INITIAL_STATE, before).scheduled|;
      var s := Run(INITIAL_STATE, before + ([Schedule(connection), Schedule(database)] + later));
      && |s.scheduled| >= k + 2 && s.scheduled[k] == connection && s.scheduled[k + 1] == database
      && (|s.worked| > k + 1 ==> s.worked[k] == connection && s.worked[k + 1] == database)
      && (|s.called| > k + 1 ==> s.called[k] == connection && s.called[k + 1] == database)
  {
    hide Inv, Enabled;
    var close := [Schedule(connection), Schedule(database)];
    RunAppend(INITIAL_STATE, before, close + later);
    var s0 := Run(INITIAL_STATE, before);
    RunAppend(s0, close, later);
    assert close == [Schedule(connection)] + ([Schedule(database)] + []);
    RunFirst(s0, Schedule(connection), [Schedule(database)] + []);
    RunFirst(Step(s0, Schedule(connection)), Schedule(database), []);
    var s1 := Run(s0, close);
    RunNothing(s1);
    assert s0.scheduled + [connection] + [database] == s0.scheduled + [connection, database];
    assert s1.scheduled == s0.scheduled + [connection, database];
    ScheduledGrows(s1, later);
    RunInOrder(before + (close + later));
    var s := Run(INITIAL_STATE, before + (close + later));
    assert s.scheduled[..|s1.scheduled|] == s1.scheduled;
    assert s.scheduled[..|s.worked|] == s.worked && s.worked[..|s.called|] == s.called;
  }

  // ---------------------------------------------------------------- progress

  /** As long as something scheduled has not called back, some step other than a new schedule can be taken. */
  lemma Progress(s: State) returns (a: Action)
    requires Inv(s) && s.called != s.scheduled
    ensures Enabled(s, a) && !a.Schedule?
  {
    if s.toCall.Some? {
      a := DoCallback;
    } else if s.inflight.Some? && !s.workDone {
      a := DoWork;
    } else {
      a := Complete;
    }
  }

  function Work(s: State): nat {
    3 * |s.queue| + (if s.inflight.None? then 0 else if s.workDone then 2 else 3) + |Held(s.toCall)|
  }

  /** Without new tasks every run ends, with all tasks called back. */
  lemma StepDecreases(s: State, a: Action)
    requires Enabled(s, a) && !a.Schedule?
    ensures Work(Step(s, a)) < Work(s)
  {
  }

  /**
   The work of a task can be done before the callback of the one before it: only work and work, callback
   and callback are ordered.
   */
  lemma WorkOvertakesCallback(a: Task, b: Task)
    ensures
      var actions := [Schedule(a), Schedule(b), DoWork, Complete, DoWork];
      Possible(INITIAL_STATE, actions) && Run(INITIAL_STATE, actions).worked == [a, b]
        && Run(INITIAL_STATE, actions).called == []
  {
    hide Step, Possible, Run;
    var s1 := State([], Some(a), false, None, [a], [], []);
    var s2 := State([b], Some(a), false, None, [a, b], [], []);
    var s3 := State([b], Some(a), true, None, [a, b], [a], []);
    var s4 := State([], Some(b), false, Some(a), [a, b], [a], []);
    var s5 := State([], Some(b), true, Some(a), [a, b], [a, b], []);
    TwoTasks(a, b);
    RunNothing(s5);
    RunFirst(s4, DoWork, []);
    RunFirst(s3, Complete, [DoWork] + []);
    RunFirst(s2, DoWork, [Complete] + ([DoWork] + []));
    RunFirst(s1, Schedule(b), [DoWork] + ([Complete] + ([DoWork] + [])));
    RunFirst(INITIAL_STATE, Schedule(a), [Schedule(b)] + ([DoWork] + ([Complete] + ([DoWork] + []))));
    assert [Schedule(a), Schedule(b), DoWork, Complete, DoWork] ==
      [Schedule(a)] + ([Schedule(b)] + ([DoWork] + ([Complete] + ([DoWork] + []))));
  }

  lemma TwoTasks(a: Task, b: Task)
    ensures Step(INITIAL_STATE, Schedule(a)) == State([], Some(a), false, None, [a], [], [])
    ensures Step(State([], Some(a), false, None, [a], [], []), Schedule(b)) ==
      State([b], Some(a), false, None, [a, b], [], [])
    ensures Step(State([b], Some(a), false, None, [a, b], [], []), DoWork) ==
      State([b], Some(a), true, None, [a, b], [a], [])
    ensures Step(State([b], Some(a), true, None, [a, b], [a], []), Complete) ==
      State([], Some(b), false, Some(a), [a, b], [a], [])
    ensures Step(State([], Some(b), false, Some(a), [a, b], [a], []), DoWork) ==
      State([], Some(b), true, Some(a), [a, b], [a, b], [])
  {
  }
}

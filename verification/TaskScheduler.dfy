/** The task scheduler, its runners and their tasks as objects. */
module TaskScheduler {
  import opened Basics
  import opened Dispatch
  import opened SchedulerRuns

  const UINT32_MAX: nat := 0xFFFF_FFFF

  datatype TaskState = Constructed | Ready | Finished

  datatype Outcome = Done | NotReady | InvalidAffinity

  class Task {
    const affinity: bool
    var state: TaskState
    var lastRunner: nat
    var executionCount: nat

    constructor (affinity: bool)
      ensures this.affinity == affinity && state == Constructed && lastRunner == 0
    {
      this.affinity, state, lastRunner, executionCount := affinity, Constructed, 0, 0;
    }

    /** `onStart`: what the user's `on_start` answers. */
    method Start(onStart: bool) returns (ok: bool)
      modifies this`state
      ensures state == (if onStart then Ready else old(state)) && ok == (state == Ready)
    {
      if onStart {
        state := Ready;
      }
      return state == Ready;
    }

    predicate HasRightAffinity(id: nat)
      reads this`lastRunner
    {
      affinity && (lastRunner == id || lastRunner == 0)
    }

    /** The exceptions are outcomes; a task that throws one is left as it was. */
    method Execute(id: nat) returns (outcome: Outcome)
      modifies this`lastRunner, this`executionCount
      ensures outcome == NotReady <==> state != Ready
      ensures outcome == InvalidAffinity <==>
              state == Ready && affinity && old(lastRunner) != 0 && old(lastRunner) != id
      ensures lastRunner == if outcome == Done then id else old(lastRunner)
      ensures executionCount ==
              if outcome == Done then (old(executionCount) + 1) % 0x1_0000_0000 else old(executionCount)
    {
      if state != Ready {
        return NotReady;
      }
      if affinity && !HasRightAffinity(id) {
        return InvalidAffinity;
      }
      lastRunner := id;
      executionCount := (executionCount + 1) % 0x1_0000_0000;
      return Done;
    }

    ghost function Look(): Job
      reads this`lastRunner
    {
      Job(affinity, lastRunner)
    }
  }

  class TaskRunner {
    const id: nat
    var queue: seq<Task>

    constructor (id: nat)
      ensures this.id == id && queue == []
    {
      this.id, queue := id, [];
    }

    method Push(t: Task)
      modifies this
      ensures queue == old(queue) + [t]
    {
      queue := queue + [t];
    }
  }

  ghost function FirstQueues(runners: seq<TaskRunner>, n: nat): (r: seq<seq<Task>>)
    requires n <= |runners|
    reads runners
    ensures |r| == n && forall i :: 0 <= i < n ==> r[i] == runners[i].queue
  {
    if n == 0 then [] else FirstQueues(runners, n - 1) + [runners[n - 1].queue]
  }

  ghost function QueuesOf(runners: seq<TaskRunner>): (r: seq<seq<Task>>)
    reads runners
    ensures |r| == |runners| && forall i :: 0 <= i < |r| ==> r[i] == runners[i].queue
  {
    FirstQueues(runners, |runners|)
  }

  /** A queued task, as it looks, and that its runner exists. */
  ghost predicate Waits(t: Task, job: Job, runnerCount: nat)
    reads t`lastRunner
  {
    job == t.Look() && (job.affinity ==> job.last <= runnerCount)
  }

  /** Every task of the scheduler is ready, and looks as `jobs` says. */
  ghost predicate Described(jobs: map<Task, Job>)
    reads jobs.Keys`state, jobs.Keys`lastRunner
  {
    forall t <- jobs.Keys :: t.state == Ready && jobs[t] == t.Look()
  }

  predicate Numbered(runners: seq<TaskRunner>) {
    forall i :: 0 <= i < |runners| ==> runners[i].id == i + 1
  }

  class TaskScheduler {
    const startTaskWhenScheduleCalled: bool
    const runScheduleWhenScheduleCalled: bool
    var queue: seq<Task>
    var runners: seq<TaskRunner>
    ghost var jobs: map<Task, Job>

    ghost function View(): Sys<Task>
      reads this, runners
    {
      Sys(queue, QueuesOf(runners), jobs)
    }

    ghost predicate Valid()
      reads this, runners, jobs.Keys
    {
      Numbered(runners) && Inv(View()) && Described(jobs)
    }

    /** Every runner starts. */
    constructor (runnerCount: nat, start: bool, run: bool)
      requires 0 < runnerCount
      ensures Valid() && View() == Sys([], seq(runnerCount, _ => []), map[])
      ensures startTaskWhenScheduleCalled == start && runScheduleWhenScheduleCalled == run
      ensures jobs == map[] && fresh(runners)
    {
      startTaskWhenScheduleCalled, runScheduleWhenScheduleCalled := start, run;
      queue, runners, jobs := [], [], map[];
      new;
      while |runners| < runnerCount
        invariant |runners| <= runnerCount && queue == [] && jobs == map[] && Numbered(runners) && fresh(runners)
        invariant forall r <- runners :: r.queue == []
        modifies this`runners
      {
        var r := new TaskRunner(|runners| + 1);
        runners := runners + [r];
      }
      NoneYet<Task>(runnerCount);
      assert QueuesOf(runners) == seq(runnerCount, _ => []);
    }

    /** The number of tasks that are queued anywhere. */
    method GetTaskCount() returns (n: nat)
      ensures n == |Count(View())|
    {
      n := |queue|;
      var i := |runners|;
      ghost var loads := Lengths(QueuesOf(runners));
      while 0 < i
        invariant 0 <= i <= |runners| && n == |queue| + Sum(loads[i..])
      {
        i := i - 1;
        n := n + |runners[i].queue|;
        assert loads[i..][1..] == loads[i + 1..];
      }
      assert loads[0..] == loads;
      SumIsCount(QueuesOf(runners));
    }

    /** The first least loaded runner's id, as long as the counter's initial value exceeds some load. */
    method GetTargetRunnerId(rand: nat) returns (id: nat)
      requires runners != []
      ensures var loads := Lengths(QueuesOf(runners));
              id == if Least(loads) < UINT32_MAX then FirstMin(loads) + 1 else rand % |runners|
    {
      var minTaskCount := UINT32_MAX;
      id := rand % |runners|;
      var i := 0;
      ghost var loads := Lengths(QueuesOf(runners));
      while i < |runners|
        invariant 0 <= i <= |runners| && minTaskCount <= UINT32_MAX
        invariant forall j :: 0 <= j < i ==> minTaskCount <= loads[j]
        invariant minTaskCount == UINT32_MAX ==> id == rand % |runners|
        invariant minTaskCount < UINT32_MAX ==>
                    && 1 <= id <= i && minTaskCount == loads[id - 1]
                    && forall j :: 0 <= j < id - 1 ==> minTaskCount < loads[j]
      {
        var taskCount := |runners[i].queue|;
        if taskCount < minTaskCount {
          id, minTaskCount := i + 1, taskCount;
        }
        i := i + 1;
      }
    }

    /** Hands every queued task to a runner; `ok` is false where an index leaves `runners`. */
    method RunSchedule(rand: nat) returns (ok: bool)
      requires Valid() && |queue| + |runners[0].queue| < UINT32_MAX
      modifies this`queue, runners
      ensures ok <==> Dispatched(old(View())).Some?
      ensures ok ==> Valid() && View() == Dispatched(old(View())).value && Count(View()) == Count(old(View()))
    {
      ghost var s := View();
      ghost var due, r := Handed(s);
      ok := Deal(rand, s, due, r);
    }

    method Deal(rand: nat, ghost s: Sys<Task>, ghost due: seq<Job>, ghost r: Option<Sys<Task>>) returns (ok: bool)
      requires Numbered(runners) && runners != [] && s == View() && Described(jobs)
               && |queue| + |runners[0].queue| < UINT32_MAX
      requires |due| == |queue|
      requires forall k :: 0 <= k < |queue| ==>
                 queue[k] in s.jobs && due[k] == s.jobs[queue[k]] && (due[k].affinity ==> due[k].last <= |s.qs|)
      requires r.Some? == Deliver(s.qs, s.queue, due, |s.queue|).Some?
      requires r.Some? ==> r.value == Sys([], Deliver(s.qs, s.queue, due, |s.queue|).value, s.jobs)
      modifies this`queue, runners
      ensures Described(jobs) && Numbered(runners) && (ok <==> r.Some?)
      ensures ok ==> View() == r.value
    {
      AllWait(s, due);
      ok := Drain(rand, s.qs, queue, due);
    }

    lemma AllWait(s: Sys<Task>, due: seq<Job>)
      requires s == View() && Described(jobs) && |due| == |queue|
      requires forall k :: 0 <= k < |queue| ==>
                 queue[k] in s.jobs && due[k] == s.jobs[queue[k]] && (due[k].affinity ==> due[k].last <= |s.qs|)
      ensures forall k :: 0 <= k < |queue| ==> Waits(queue[k], due[k], |runners|)
    {
    }

    /** The loop of `run_schedule`. */
    method Drain(rand: nat, ghost qs: seq<seq<Task>>, ghost ts: seq<Task>, ghost due: seq<Job>) returns (ok: bool)
      requires Numbered(runners) && runners != [] && queue == ts && QueuesOf(runners) == qs && |due| == |ts|
      requires forall k :: 0 <= k < |ts| ==> Waits(ts[k], due[k], |qs|)
      requires |queue| + |qs[0]| < UINT32_MAX
      modifies this`queue, runners
      ensures ok <==> Deliver(qs, ts, due, |ts|).Some?
      ensures ok ==> queue == [] && QueuesOf(runners) == Deliver(qs, ts, due, |ts|).value
    {
      ghost var now, k := qs, 0;
      while queue != []
        invariant runners == old(runners) && k <= |ts| && queue == ts[k..] && now == QueuesOf(runners)
        invariant forall j :: 0 <= j < |ts| ==> Waits(ts[j], due[j], |runners|)
        invariant Deliver(qs, ts, due, k) == Some(now)
        invariant now != [] && |ts| - k + |now[0]| < UINT32_MAX
        decreases |ts| - k
      {
        assert k < |ts|;
        ok, now := Round(rand, qs, ts, due, k, now);
        if !ok {
          return;
        }
        k := k + 1;
      }
      assert k == |ts|;
      ok := true;
    }

    /** One round of the loop. */
    method Round(rand: nat, ghost qs: seq<seq<Task>>, ghost ts: seq<Task>, ghost due: seq<Job>, ghost k: nat,
                 ghost was: seq<seq<Task>>)
      returns (ok: bool, ghost now: seq<seq<Task>>)
      requires Numbered(runners) && runners != [] && QueuesOf(runners) == was && |was[0]| < UINT32_MAX
      requires k < |ts| == |due| && queue == ts[k..] && Waits(ts[k], due[k], |runners|)
      requires qs != [] && Deliver(qs, ts, due, k) == Some(was)
      modifies this`queue, runners
      ensures queue == ts[k + 1..] && now == QueuesOf(runners) && now != [] && |now[0]| <= |was[0]| + 1
      ensures Deliver(qs, ts, due, k + 1) == if ok then Some(now) else None
      ensures !ok ==> Deliver(qs, ts, due, |ts|) == None
    {
      var t := queue[0];
      queue := queue[1..];
      ok, now := Give(t, due[k], rand, was);
      Delivered(qs, ts, due, k, was, if ok then Some(now) else None);
    }

    method Give(t: Task, ghost job: Job, rand: nat, ghost qs: seq<seq<Task>>)
      returns (ok: bool, ghost now: seq<seq<Task>>)
      requires Numbered(runners) && runners != [] && qs == QueuesOf(runners) && |qs[0]| < UINT32_MAX
      requires Waits(t, job, |runners|)
      modifies runners
      ensures now == QueuesOf(runners)
      ensures Push(qs, t, job) == if ok then Some(now) else None
      ensures |now[0]| <= |qs[0]| + 1
    {
      var i := Target(t, rand, qs);
      if |runners| <= i {
        return false, qs;
      }
      PushTo(i, t, qs);
      now := qs[i := qs[i] + [t]];
      return true, now;
    }

    /** The index at which a task's runner is looked up. */
    method Target(t: Task, rand: nat, ghost qs: seq<seq<Task>>) returns (i: nat)
      requires runners != [] && qs == QueuesOf(runners) && |qs[0]| < UINT32_MAX
      ensures i == Place(Lengths(qs), t.Look())
    {
      if t.affinity {
        var id := t.lastRunner;
        if id == 0 {
          id := GetTargetRunnerId(rand);
        }
        i := id - 1;
      } else {
        i := GetTargetRunnerId(rand);
      }
    }

    method PushTo(i: nat, t: Task, ghost qs: seq<seq<Task>>)
      requires Numbered(runners) && i < |runners| && qs == QueuesOf(runners)
      modifies runners[i]
      ensures QueuesOf(runners) == qs[i := qs[i] + [t]]
    {
      runners[i].Push(t);
    }

    method Enqueue(t: Task)
      requires Valid() && t !in Count(View()) && t.state == Ready && (t.affinity ==> t.lastRunner <= |runners|)
      modifies this`queue, this`jobs
      ensures Valid() && Step(old(View()), SchedulerRuns.Schedule(t, t.Look())) == Some(View())
      ensures jobs.Keys == old(jobs.Keys) + {t} && queue == old(queue) + [t]
    {
      hide Inv, Described, Step;
      ghost var r := Added(View(), t, t.Look());
      Append(t);
    }

    method Append(t: Task)
      requires Described(jobs) && t.state == Ready
      modifies this`queue, this`jobs
      ensures Described(jobs)
      ensures View() == Sys(old(queue) + [t], old(QueuesOf(runners)), old(jobs)[t := t.Look()])
    {
      queue := queue + [t];
      jobs := jobs[t := t.Look()];
    }

    /** The first half of `schedule`; a task that is not ready is dropped. */
    method Offer(t: Task, onStart: bool) returns (queued: bool)
      requires Valid() && t !in Count(View()) && (t.affinity ==> t.lastRunner <= |runners|)
      modifies this`queue, this`jobs, t`state
      ensures queued <==> t.state == Ready
      ensures t.state ==
              if startTaskWhenScheduleCalled && old(t.state) == Constructed && onStart then Ready else old(t.state)
      ensures Valid() && queue == old(queue) + if queued then [t] else []
      ensures if queued then Step(old(View()), SchedulerRuns.Schedule(t, t.Look())) == Some(View())
              else View() == old(View())
    {
      if startTaskWhenScheduleCalled {
        if t.state == Constructed {
          var _ := t.Start(onStart);
        }
      }
      assert Valid() && View() == old(View());
      queued := t.state == Ready;
      if queued {
        Enqueue(t);
      }
    }

    /** What a runner calls with a task it has executed. */
    method Pass(t: Task)
      modifies this`queue
      ensures queue == old(queue) + [t]
    {
      queue := queue + [t];
    }

    method TakeFrom(i: nat, ghost qs: seq<seq<Task>>) returns (t: Task)
      requires Numbered(runners) && i < |runners| && qs == QueuesOf(runners) && qs[i] != []
      modifies runners[i]
      ensures t == qs[i][0] && QueuesOf(runners) == qs[i := qs[i][1..]]
    {
      t, runners[i].queue := runners[i].queue[0], runners[i].queue[1..];
    }

    method ExecuteOn(t: Task, id: nat) returns (outcome: Outcome)
      requires t in jobs && Described(jobs)
      modifies this`jobs, t`lastRunner, t`executionCount
      ensures Described(jobs)
      ensures if Rejects(old(jobs)[t], id) then outcome == InvalidAffinity && jobs == old(jobs)
              else outcome == Done && jobs == old(jobs)[t := old(jobs)[t].(last := id)]
    {
      outcome := t.Execute(id);
      jobs := jobs[t := t.Look()];
    }

    /** Runner `i` takes its next task, executes it and passes it back; no exception can occur. */
    method RunNext(i: nat) returns (outcome: Outcome)
      requires Valid() && i < |runners|
      modifies this`queue, this`jobs, runners[i], jobs.Keys`lastRunner, jobs.Keys`executionCount
      ensures outcome == Done && Valid() && View() == Executed(old(View()), i)
    {
      ghost var s := View();
      ghost var r := Ran(s, i);
      outcome := Done;
      if runners[i].queue != [] {
        outcome := RunFront(i, s, s.qs[i][0]);
        assert View() == r;
      }
    }

    /** The runner's queue is not empty. */
    method RunFront(i: nat, ghost s: Sys<Task>, ghost front: Task) returns (outcome: Outcome)
      requires Numbered(runners) && i < |runners| && View() == s && s.qs[i] != [] && front == s.qs[i][0]
      requires front in jobs && Described(jobs) && !Rejects(s.jobs[front], i + 1)
      modifies this`queue, this`jobs, runners[i], front`lastRunner, front`executionCount
      ensures outcome == Done && Described(jobs)
      ensures queue == s.queue + [front] && QueuesOf(runners) == s.qs[i := s.qs[i][1..]]
      ensures jobs == s.jobs[front := s.jobs[front].(last := i + 1)]
    {
      hide FirstQueues, QueuesOf, Described;
      var t := TakeFrom(i, s.qs);
      outcome := ExecuteOn(t, runners[i].id);
      Pass(t);
    }

    /** `before` is the state in which the tasks are handed out. */
    method Schedule(t: Task, onStart: bool, rand: nat) returns (queued: bool, ok: bool, ghost before: Sys<Task>)
      requires Valid() && t !in Count(View()) && (t.affinity ==> t.lastRunner <= |runners|)
      requires |queue| + 1 + |runners[0].queue| < UINT32_MAX
      modifies this`queue, this`jobs, runners, t`state
      ensures queued <==> t.state == Ready
      ensures t.state ==
              if startTaskWhenScheduleCalled && old(t.state) == Constructed && onStart then Ready else old(t.state)
      ensures Inv(before)
      ensures if queued then Step(old(View()), SchedulerRuns.Schedule(t, t.Look())) == Some(before)
              else before == old(View())
      ensures ok <==> runScheduleWhenScheduleCalled ==> Step(before, Op.RunSchedule).Some?
      ensures ok ==>
                && Valid()
                && View() == if runScheduleWhenScheduleCalled then Step(before, Op.RunSchedule).value else before
    {
      hide Step, Described, Numbered, Count;
      queued := Offer(t, onStart);
      before := View();
      ok := RunIfConfigured(rand);
    }

    /** The second half of `schedule`. */
    method RunIfConfigured(rand: nat) returns (ok: bool)
      requires Valid() && |queue| + |runners[0].queue| < UINT32_MAX
      modifies this`queue, runners
      ensures ok <==> runScheduleWhenScheduleCalled ==> Step(old(View()), Op.RunSchedule).Some?
      ensures ok ==>
                && Valid()
                && View() ==
                   if runScheduleWhenScheduleCalled then Step(old(View()), Op.RunSchedule).value else old(View())
    {
      ok := true;
      if runScheduleWhenScheduleCalled {
        ok := RunSchedule(rand);
      }
    }
  }

  /** What `run_schedule` may rely on, and what it makes of its queue. */
  lemma Handed<T>(s: Sys<T>) returns (jobs: seq<Job>, r: Option<Sys<T>>)
    requires Inv(s)
    ensures |jobs| == |s.queue| && r == Dispatched(s)
    ensures forall k :: 0 <= k < |s.queue| ==>
              s.queue[k] in s.jobs && jobs[k] == s.jobs[s.queue[k]] && (jobs[k].affinity ==> jobs[k].last <= |s.qs|)
    ensures r.Some? == Deliver(s.qs, s.queue, jobs, |s.queue|).Some?
    ensures r.Some? ==>
              && r.value == Sys([], Deliver(s.qs, s.queue, jobs, |s.queue|).value, s.jobs)
              && Inv(r.value) && Count(r.value) == Count(s)
  {
    DispatchKeeps(s);
    jobs, r := JobsOf(s), Dispatched(s);
    forall k | 0 <= k < |s.queue| ensures jobs[k].affinity ==> jobs[k].last <= |s.qs| { InQueue(s, s.queue[k]); }
  }

  lemma Added<T>(s: Sys<T>, t: T, job: Job) returns (r: Sys<T>)
    requires Inv(s) && t !in Count(s) && (job.affinity ==> job.last <= |s.qs|)
    ensures r == Sys(s.queue + [t], s.qs, s.jobs[t := job]) && Step(s, SchedulerRuns.Schedule(t, job)) == Some(r)
    ensures Inv(r)
  {
    ScheduleKeeps(s, t, job);
    r := Sys(s.queue + [t], s.qs, s.jobs[t := job]);
  }

  lemma Ran<T>(s: Sys<T>, i: nat) returns (r: Sys<T>)
    requires Inv(s) && i < |s.qs|
    ensures forall t <- s.qs[i] :: t in s.jobs && !Rejects(s.jobs[t], i + 1)
    ensures r == Executed(s, i) && Inv(r) && r.jobs.Keys == s.jobs.Keys
    ensures s.qs[i] == [] ==> r == s
    ensures s.qs[i] != [] ==>
              var t := s.qs[i][0];
              r == Sys(s.queue + [t], s.qs[i := s.qs[i][1..]], s.jobs[t := s.jobs[t].(last := i + 1)])
  {
    ExecuteKeeps(s, i);
    r := Executed(s, i);
  }

  lemma {:induction false} StopsEarly<T>(qs: seq<seq<T>>, ts: seq<T>, jobs: seq<Job>, k: nat, n: nat)
    requires qs != [] && k <= n <= |ts| == |jobs| && Deliver(qs, ts, jobs, k) == None
    ensures Deliver(qs, ts, jobs, n) == None
  {
    if k < n {
      StopsEarly(qs, ts, jobs, k, n - 1);
    }
  }

  lemma Delivered<T>(qs: seq<seq<T>>, ts: seq<T>, jobs: seq<Job>, k: nat, now: seq<seq<T>>, next: Option<seq<seq<T>>>)
    requires qs != [] && k < |ts| == |jobs| && Deliver(qs, ts, jobs, k) == Some(now)
             && Push(now, ts[k], jobs[k]) == next
    ensures Deliver(qs, ts, jobs, k + 1) == next && (next == None ==> Deliver(qs, ts, jobs, |ts|) == None)
  {
    if next == None {
      StopsEarly(qs, ts, jobs, k + 1, |ts|);
    }
  }

  lemma {:induction false} NoTasks<T>(qs: seq<seq<T>>, n: nat)
    requires n <= |qs| && forall i :: 0 <= i < |qs| ==> qs[i] == []
    ensures CountFirst(qs, n) == multiset{}
  {
    if n > 0 {
      NoTasks(qs, n - 1);
    }
  }

  lemma NoneYet<T>(n: nat)
    requires 0 < n
    ensures Inv<T>(Sys([], seq(n, _ => []), map[]))
  {
    NoTasks<T>(seq(n, _ => []), n);
  }
}

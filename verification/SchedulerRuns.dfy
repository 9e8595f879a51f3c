/** The task scheduler and its runners over whole runs, as a value. */
module SchedulerRuns {
  import opened Basics
  import opened Dispatch

  /** The scheduler's queue, the runners' queues, and what each task that was ever queued looks like. */
  datatype Sys<T> = Sys(queue: seq<T>, qs: seq<seq<T>>, jobs: map<T, Job>)

  /** How often a task is queued anywhere. */
  ghost function Count<T>(s: Sys<T>): multiset<T> {
    multiset(s.queue) + CountFirst(s.qs, |s.qs|)
  }

  lemma {:induction false} CountUpdate<T>(qs: seq<seq<T>>, n: nat, i: nat, q: seq<T>)
    requires n <= |qs| && i < |qs|
    ensures i < n ==> CountFirst(qs[i := q], n) + multiset(qs[i]) == CountFirst(qs, n) + multiset(q)
    ensures n <= i ==> CountFirst(qs[i := q], n) == CountFirst(qs, n)
  {
    if n > 0 {
      CountUpdate(qs, n - 1, i, q);
      var last, before, after := multiset(qs[n - 1]), CountFirst(qs, n - 1), CountFirst(qs[i := q], n - 1);
      if i < n - 1 {
        assert after + last + multiset(qs[i]) == (after + multiset(qs[i])) + last;
        assert before + last + multiset(q) == (before + multiset(q)) + last;
      }
    }
  }

  lemma {:induction false} CountIn<T>(qs: seq<seq<T>>, n: nat, i: nat, t: T)
    requires i < n <= |qs| && t in qs[i]
    ensures t in CountFirst(qs, n)
  {
    if i < n - 1 { CountIn(qs, n - 1, i, t); }
  }

  /** A task is in at most one queue, at one place; a bound task that some runner has run waits only for
      that runner, and no one else can ever run it. */
  ghost predicate Inv<T>(s: Sys<T>) {
    && s.qs != [] && Known(s)
    && (forall t {:trigger Once(s, t)} :: t in Count(s) ==> Once(s, t))
    && (forall i {:trigger Own(s, i)} :: 0 <= i < |s.qs| ==> Own(s, i))
  }

  /** Every queued task has a description. */
  ghost predicate Known<T>(s: Sys<T>) {
    && (forall t <- s.queue :: t in s.jobs)
    && (forall i, t :: 0 <= i < |s.qs| && t in s.qs[i] ==> t in s.jobs)
    && (forall t :: t in Count(s) ==> t in s.jobs)
  }

  ghost predicate Once<T>(s: Sys<T>, t: T) {
    t in s.jobs && Count(s)[t] == 1 && (s.jobs[t].affinity ==> s.jobs[t].last <= |s.qs|)
  }

  ghost predicate Own<T>(s: Sys<T>, i: nat)
    requires i < |s.qs|
  {
    forall t <- s.qs[i] :: t in s.jobs && (s.jobs[t].affinity ==> s.jobs[t].last == 0 || s.jobs[t].last == i + 1)
  }

  // ---------- the steps ----------

  datatype Op<T> = Schedule(t: T, job: Job) | RunSchedule | Execute(i: nat)

  ghost function JobsOf<T>(s: Sys<T>): seq<Job>
    requires forall t <- s.queue :: t in s.jobs
  {
    seq(|s.queue|, k requires 0 <= k < |s.queue| => s.jobs[s.queue[k]])
  }

  /** `run_schedule`; None where it indexes past the last runner. */
  ghost function Dispatched<T>(s: Sys<T>): Option<Sys<T>>
    requires s.qs != [] && forall t <- s.queue :: t in s.jobs
  {
    match Deliver(s.qs, s.queue, JobsOf(s), |s.queue|)
    case None => None
    case Some(qs) => Some(Sys([], qs, s.jobs))
  }

  /** A runner takes its next task, executes it under its own id `i + 1`, and passes it back. */
  ghost function Executed<T>(s: Sys<T>, i: nat): Sys<T>
    requires i < |s.qs| && forall t <- s.qs[i] :: t in s.jobs
  {
    if s.qs[i] == [] then s
    else
      var t := s.qs[i][0];
      Sys(s.queue + [t], s.qs[i := s.qs[i][1..]], s.jobs[t := s.jobs[t].(last := i + 1)])
  }

  /** `task::execute` throws "invalid runner affinity". */
  predicate Rejects(job: Job, id: nat) {
    job.affinity && !(job.last == id || job.last == 0)
  }

  // ---------- what every step keeps ----------

  lemma ScheduleKeeps<T>(s: Sys<T>, t: T, job: Job)
    requires Inv(s) && t !in Count(s) && (job.affinity ==> job.last <= |s.qs|)
    ensures var r := Sys(s.queue + [t], s.qs, s.jobs[t := job]); Inv(r) && Count(r) == Count(s) + multiset{t}
  {
    var r := Sys(s.queue + [t], s.qs, s.jobs[t := job]);
    var was := CountFirst(s.qs, |s.qs|);
    assert multiset(r.queue) == multiset(s.queue) + multiset{t};
    assert multiset(s.queue) + multiset{t} + was == multiset(s.queue) + was + multiset{t};
    assert Count(r) == Count(s) + multiset{t};
    forall x | x in Count(r) ensures Once(r, x) {
      assert x != t ==> Once(s, x);
    }
    forall i: nat | i < |r.qs| ensures Own(r, i) {
      assert Own(s, i);
      forall x <- r.qs[i] ensures x != t {
        CountIn(s.qs, |s.qs|, i, x);
      }
    }
  }

  lemma InQueue<T>(s: Sys<T>, t: T)
    requires Inv(s) && t in s.queue
    ensures t in Count(s) && t in s.jobs && t !in CountFirst(s.qs, |s.qs|)
    ensures s.jobs[t].affinity ==> s.jobs[t].last <= |s.qs|
  {
    assert multiset(s.queue)[t] >= 1;
    assert Count(s)[t] == multiset(s.queue)[t] + CountFirst(s.qs, |s.qs|)[t];
    assert Once(s, t);
  }

  /** Moving tasks between the scheduler's queue and one runner's keeps the count. */
  lemma SameCount<T>(s: Sys<T>, r: Sys<T>, i: nat)
    requires i < |s.qs| && |r.qs| == |s.qs| && r.qs == s.qs[i := r.qs[i]]
    requires multiset(s.queue) + multiset(s.qs[i]) == multiset(r.queue) + multiset(r.qs[i])
    ensures Count(r) == Count(s)
  {
    CountUpdate(s.qs, |s.qs|, i, r.qs[i]);
    var was, now := multiset(s.qs[i]), multiset(r.qs[i]);
    calc {
      Count(r) + was;
      multiset(r.queue) + (CountFirst(r.qs, |r.qs|) + was);
      multiset(r.queue) + (CountFirst(s.qs, |s.qs|) + now);
      multiset(r.queue) + now + CountFirst(s.qs, |s.qs|);
      multiset(s.queue) + was + CountFirst(s.qs, |s.qs|);
      Count(s) + was;
    }
    assert Count(r) == Count(r) + was - was && Count(s) == Count(s) + was - was;
  }

  lemma PushKeeps<T>(s: Sys<T>, i: nat)
    requires Inv(s) && s.queue != [] && i < |s.qs|
    requires s.queue[0] in s.jobs ==> i == Place(Lengths(s.qs), s.jobs[s.queue[0]])
    ensures var t := s.queue[0];
            var r := Sys(s.queue[1..], s.qs[i := s.qs[i] + [t]], s.jobs);
            Inv(r) && Count(r) == Count(s)
  {
    var t := s.queue[0];
    var r := Sys(s.queue[1..], s.qs[i := s.qs[i] + [t]], s.jobs);
    InQueue(s, t);
    assert s.queue == [t] + s.queue[1..];
    assert multiset(s.queue) == multiset{t} + multiset(r.queue);
    assert multiset(s.qs[i] + [t]) == multiset(s.qs[i]) + multiset{t};
    SameCount(s, r, i);
    forall x | x in Count(r) ensures Once(r, x) { assert Once(s, x); }
    forall j: nat | j < |r.qs| ensures Own(r, j) { assert Own(s, j); }
  }

  lemma {:induction false} HandOut<T>(s: Sys<T>, k: nat)
    requires Inv(s) && k <= |s.queue| && forall t <- s.queue :: t in s.jobs
    requires Deliver(s.qs, s.queue, JobsOf(s), k).Some?
    ensures var r := Sys(s.queue[k..], Deliver(s.qs, s.queue, JobsOf(s), k).value, s.jobs);
            Inv(r) && Count(r) == Count(s)
  {
    if k == 0 {
      assert s.queue[0..] == s.queue;
    } else {
      HandOut(s, k - 1);
      var before := Sys(s.queue[k - 1..], Deliver(s.qs, s.queue, JobsOf(s), k - 1).value, s.jobs);
      PushKeeps(before, Place(Lengths(before.qs), s.jobs[s.queue[k - 1]]));
      assert before.queue[1..] == s.queue[k..];
    }
  }

  /** Dispatching neither loses nor duplicates a task, and hands a bound task only to its own runner. */
  lemma DispatchKeeps<T>(s: Sys<T>)
    requires Inv(s)
    ensures forall t <- s.queue :: t in s.jobs
    ensures Dispatched(s).Some? ==> Inv(Dispatched(s).value) && Count(Dispatched(s).value) == Count(s)
  {
    forall t <- s.queue ensures t in s.jobs { InQueue(s, t); }
    if Dispatched(s).Some? {
      HandOut(s, |s.queue|);
      assert s.queue[|s.queue|..] == [];
    }
  }

  /** A runner's step keeps every task, never meets the affinity error, and never moves a bound task that
      has been run to another runner. */
  lemma ExecuteKeeps<T>(s: Sys<T>, i: nat)
    requires Inv(s) && i < |s.qs|
    ensures forall t <- s.qs[i] ::
              && t in s.jobs && !Rejects(s.jobs[t], i + 1)
              && (s.jobs[t].affinity ==> s.jobs[t].last == 0 || s.jobs[t].last == i + 1)
    ensures Inv(Executed(s, i)) && Count(Executed(s, i)) == Count(s)
    ensures forall t <- s.jobs :: t in Executed(s, i).jobs
                                  && (s.jobs[t].affinity && s.jobs[t].last != 0 ==> Executed(s, i).jobs[t] == s.jobs[t])
  {
    assert Own(s, i);
    if s.qs[i] != [] {
      var t := s.qs[i][0];
      var r := Executed(s, i);
      CountIn(s.qs, |s.qs|, i, t);
      assert Once(s, t);
      ExecuteCounts(s, i);
      forall x | x in Count(r) ensures Once(r, x) { assert Once(s, x); }
      forall j: nat | j < |r.qs| ensures Own(r, j) {
        assert Own(s, j);
        ExecuteOwn(s, i, j);
      }
    }
  }

  lemma ExecuteOwn<T>(s: Sys<T>, i: nat, j: nat)
    requires i < |s.qs| && j < |s.qs| && s.qs[i] != [] && forall t <- s.qs[i] :: t in s.jobs
    requires Own(s, j) && Count(Executed(s, i))[s.qs[i][0]] == 1
    ensures Own(Executed(s, i), j)
  {
    var r := Executed(s, i);
    forall x <- r.qs[j] ensures x != s.qs[i][0] { StillOnce(r, j, s.qs[i][0]); }
  }

  lemma ExecuteCounts<T>(s: Sys<T>, i: nat)
    requires i < |s.qs| && s.qs[i] != [] && forall t <- s.qs[i] :: t in s.jobs
    ensures Count(Executed(s, i)) == Count(s)
  {
    var t, r := s.qs[i][0], Executed(s, i);
    assert s.qs[i] == [t] + s.qs[i][1..];
    assert multiset(r.queue) == multiset(s.queue) + multiset{t};
    assert multiset(s.qs[i]) == multiset{t} + multiset(r.qs[i]);
    SameCount(s, r, i);
  }

  /** A task that is back in the scheduler's queue is in no runner's. */
  lemma StillOnce<T>(r: Sys<T>, j: nat, t: T)
    requires j < |r.qs| && t in r.queue && Count(r)[t] == 1
    ensures t !in r.qs[j]
  {
    assert multiset(r.queue)[t] >= 1;
    if t in r.qs[j] {
      CountIn(r.qs, |r.qs|, j, t);
    }
  }

  // ---------- whole runs ----------

  /** One step; None for scheduling a task that is still queued, for an unknown runner, and where
      `run_schedule` indexes past the last runner. */
  ghost function Step<T>(s: Sys<T>, op: Op<T>): Option<Sys<T>>
    requires Inv(s)
  {
    match op
    case Schedule(t, job) =>
      if t in Count(s) || (job.affinity && |s.qs| < job.last) then None
      else Some(Sys(s.queue + [t], s.qs, s.jobs[t := job]))
    case RunSchedule =>
      DispatchKeeps(s);
      Dispatched(s)
    case Execute(i) =>
      if i < |s.qs| then ExecuteKeeps(s, i); Some(Executed(s, i)) else None
  }

  lemma StepKeeps<T>(s: Sys<T>, op: Op<T>)
    requires Inv(s) && Step(s, op).Some?
    ensures var r := Step(s, op).value;
            && Inv(r)
            && Count(r) == Count(s) + (if op.Schedule? then multiset{op.t} else multiset{})
            && forall t :: t in Count(s) && s.jobs[t].affinity && s.jobs[t].last != 0 ==>
                t in r.jobs && r.jobs[t] == s.jobs[t]
  {
    match op
    case Schedule(t, job) => ScheduleKeeps(s, t, job);
    case RunSchedule => DispatchKeeps(s);
    case Execute(i) => ExecuteKeeps(s, i);
  }

  ghost predicate Reaches<T>(s: Sys<T>, ops: seq<Op<T>>, r: Sys<T>)
    requires Inv(s)
    decreases |ops|
  {
    if ops == [] then r == s
    else Step(s, ops[0]).Some? && (StepKeeps(s, ops[0]); Reaches(Step(s, ops[0]).value, ops[1..], r))
  }

  ghost function Scheduled<T>(ops: seq<Op<T>>): multiset<T> {
    if ops == [] then multiset{}
    else (if ops[0].Schedule? then multiset{ops[0].t} else multiset{}) + Scheduled(ops[1..])
  }

  lemma ThreeCounts<T>(a: multiset<T>, b: multiset<T>, c: multiset<T>)
    ensures a + b + c == a + (b + c)
  {
  }

  lemma {:induction false} RunCounts<T>(s: Sys<T>, ops: seq<Op<T>>, r: Sys<T>)
    requires Inv(s) && Reaches(s, ops, r)
    ensures Inv(r) && Count(r) == Count(s) + Scheduled(ops)
    decreases |ops|
  {
    if ops != [] {
      StepKeeps(s, ops[0]);
      var m := Step(s, ops[0]).value;
      RunCounts(m, ops[1..], r);
      ThreeCounts(Count(s), if ops[0].Schedule? then multiset{ops[0].t} else multiset{}, Scheduled(ops[1..]));
    }
  }

  lemma {:induction false} RunSticks<T>(s: Sys<T>, ops: seq<Op<T>>, r: Sys<T>, t: T)
    requires Inv(s) && Reaches(s, ops, r)
    requires t in Count(s) && s.jobs[t].affinity && s.jobs[t].last != 0
    ensures t in r.jobs && r.jobs[t] == s.jobs[t]
    decreases |ops|
  {
    if ops != [] {
      StepKeeps(s, ops[0]);
      var m := Step(s, ops[0]).value;
      assert Count(m)[t] >= Count(s)[t];
      RunSticks(m, ops[1..], r, t);
    }
  }

  /** Over any interleaving of scheduling, dispatching and execution, tasks are conserved apart from the newly
      scheduled ones, each is queued in one place, and a bound task that was run stays with its runner: a
      runner's queue holds no bound task that another runner has run, so that no runner's next execution
      raises the affinity error. */
  lemma RunKeeps<T>(s: Sys<T>, ops: seq<Op<T>>, r: Sys<T>)
    requires Inv(s) && Reaches(s, ops, r)
    ensures Inv(r) && Count(r) == Count(s) + Scheduled(ops)
    ensures forall t :: t in Count(s) && s.jobs[t].affinity && s.jobs[t].last != 0 ==>
            t in r.jobs && r.jobs[t] == s.jobs[t]
    ensures forall i, t :: 0 <= i < |r.qs| && t in r.qs[i] ==>
            t in r.jobs && (r.jobs[t].affinity ==> r.jobs[t].last == 0 || r.jobs[t].last == i + 1)
  {
    RunCounts(s, ops, r);
    forall t | t in Count(s) && s.jobs[t].affinity && s.jobs[t].last != 0
      ensures t in r.jobs && r.jobs[t] == s.jobs[t]
    {
      RunSticks(s, ops, r, t);
    }
    forall i, t | 0 <= i < |r.qs| && t in r.qs[i]
      ensures t in r.jobs && (r.jobs[t].affinity ==> r.jobs[t].last == 0 || r.jobs[t].last == i + 1)
    {
      assert Own(r, i);
    }
  }

  // ---------- the order in which a runner executes ----------

  /** What runner `i` executes in a step: the task at the front of its queue, if it is its turn. */
  ghost function RunIn<T>(s: Sys<T>, op: Op<T>, i: nat): seq<T>
    requires i < |s.qs|
  {
    if op == Execute(i) && s.qs[i] != [] then [s.qs[i][0]] else []
  }

  /** What it executes in the course of a run. */
  ghost function RunBy<T>(s: Sys<T>, ops: seq<Op<T>>, i: nat): seq<T>
    requires Inv(s) && i < |s.qs|
    decreases |ops|
  {
    if ops == [] || Step(s, ops[0]) == None then []
    else
      StepKeeps(s, ops[0]);
      QueueStep(s, ops[0], i);
      RunIn(s, ops[0], i) + RunBy(Step(s, ops[0]).value, ops[1..], i)
  }

  lemma {:induction false} DeliverAppends<T>(qs: seq<seq<T>>, ts: seq<T>, jobs: seq<Job>, k: nat, i: nat)
    requires qs != [] && k <= |ts| == |jobs| && i < |qs| && Deliver(qs, ts, jobs, k).Some?
    ensures qs[i] <= Deliver(qs, ts, jobs, k).value[i]
  {
    if k > 0 { DeliverAppends(qs, ts, jobs, k - 1, i); }
  }

  lemma QueueStep<T>(s: Sys<T>, op: Op<T>, i: nat)
    requires Inv(s) && Step(s, op).Some? && i < |s.qs|
    ensures var m := Step(s, op).value; |m.qs| == |s.qs| && s.qs[i] <= RunIn(s, op, i) + m.qs[i]
  {
    hide Inv, Count;
    match op
    case Schedule(_, _) =>
    case RunSchedule =>
      DispatchKeeps(s);
      DeliverAppends(s.qs, s.queue, JobsOf(s), |s.queue|, i);
    case Execute(j) =>
      ExecuteKeeps(s, j);
  }

  lemma PrefixJoin<T>(a: seq<T>, x: seq<T>, b: seq<T>, y: seq<T>, c: seq<T>)
    requires a <= x + b && b <= y + c
    ensures a <= x + y + c
  {
    assert x + y + c == x + (y + c);
  }

  /** First come, first served: over any run, what runner `i` executes and what then still waits for it starts
      with what waited for it before, in that order. */
  lemma {:induction false} FirstComeFirstServed<T>(s: Sys<T>, ops: seq<Op<T>>, r: Sys<T>, i: nat)
    requires Inv(s) && Reaches(s, ops, r) && i < |s.qs|
    ensures |r.qs| == |s.qs| && s.qs[i] <= RunBy(s, ops, i) + r.qs[i]
    decreases |ops|
  {
    hide Inv, Step, RunIn;
    if ops != [] {
      var m := Step(s, ops[0]).value;
      StepKeeps(s, ops[0]);
      QueueStep(s, ops[0], i);
      FirstComeFirstServed(m, ops[1..], r, i);
      PrefixJoin(s.qs[i], RunIn(s, ops[0], i), m.qs[i], RunBy(m, ops[1..], i), r.qs[i]);
    }
  }
}

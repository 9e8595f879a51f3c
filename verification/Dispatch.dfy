/** How the task scheduler hands tasks to runners, as a value. */
module Dispatch {
  import opened Basics

  /** What dispatching looks at in a task: is it bound to the runner that first ran it, and which one ran it
      last (0: none). */
  datatype Job = Job(affinity: bool, last: nat)

  // ---------- the least loaded runner ----------

  predicate IsFirstMin(loads: seq<nat>, i: nat) {
    && i < |loads|
    && (forall j :: 0 <= j < |loads| ==> loads[i] <= loads[j])
    && (forall j :: 0 <= j < i ==> loads[i] < loads[j])
  }

  lemma {:induction false} FirstMinExists(loads: seq<nat>) returns (i: nat)
    requires loads != []
    ensures IsFirstMin(loads, i)
  {
    i := 0;
    if |loads| > 1 {
      var last := |loads| - 1;
      i := FirstMinExists(loads[..last]);
      assert forall j :: 0 <= j < last ==> loads[..last][j] == loads[j];
      i := if loads[last] < loads[i] then last else i;
    }
  }

  /** The position of the first smallest number. */
  ghost function FirstMin(loads: seq<nat>): (i: nat)
    requires loads != []
    ensures IsFirstMin(loads, i)
  {
    assert exists i: nat :: IsFirstMin(loads, i) by {
      var i := FirstMinExists(loads);
    }
    var i: nat :| IsFirstMin(loads, i);
    i
  }

  ghost function Least(loads: seq<nat>): nat
    requires loads != []
  {
    loads[FirstMin(loads)]
  }

  function Sum(loads: seq<nat>): nat {
    if loads == [] then 0 else loads[0] + Sum(loads[1..])
  }

  /** The index into `runners_` that `run_schedule` uses.  A task without affinity is pushed at the
      1-based id of the least loaded runner, so one place further. */
  ghost function Place(loads: seq<nat>, job: Job): nat
    requires loads != []
  {
    if !job.affinity then FirstMin(loads) + 1
    else if job.last == 0 then FirstMin(loads)
    else job.last - 1
  }

  function Lengths<T>(qs: seq<seq<T>>): (r: seq<nat>)
    ensures |r| == |qs| && forall i :: 0 <= i < |qs| ==> r[i] == |qs[i]|
  {
    seq(|qs|, i requires 0 <= i < |qs| => |qs[i]|)
  }

  /** `run_schedule` over the first `k` queued tasks; None once an index is out of bounds. */
  ghost function Deliver<T>(qs: seq<seq<T>>, ts: seq<T>, jobs: seq<Job>, k: nat): (r: Option<seq<seq<T>>>)
    requires qs != [] && k <= |ts| == |jobs|
    ensures r.Some? ==> |r.value| == |qs|
  {
    if k == 0 then Some(qs)
    else
      match Deliver(qs, ts, jobs, k - 1)
      case None => None
      case Some(before) => Push(before, ts[k - 1], jobs[k - 1])
  }

  ghost function Push<T>(qs: seq<seq<T>>, t: T, job: Job): (r: Option<seq<seq<T>>>)
    requires qs != []
    ensures r.Some? ==> |r.value| == |qs|
  {
    var i := Place(Lengths(qs), job);
    if i < |qs| then Some(qs[i := qs[i] + [t]]) else None
  }

  // ---------- dispatch by least load ----------

  /** Every task is bound to a runner but was never run. */
  predicate FirstTime(jobs: seq<Job>) {
    forall j :: 0 <= j < |jobs| ==> jobs[j] == Job(true, 0)
  }

  /** How often each task is queued in the first `n` runners' queues. */
  ghost function CountFirst<T>(qs: seq<seq<T>>, n: nat): multiset<T>
    requires n <= |qs|
  {
    if n == 0 then multiset{} else CountFirst(qs, n - 1) + multiset(qs[n - 1])
  }

  lemma {:induction false} SumLast(loads: seq<nat>, n: nat)
    ensures Sum(loads + [n]) == Sum(loads) + n
  {
    if loads == [] {
      assert loads + [n] == [n];
    } else {
      assert (loads + [n])[1..] == loads[1..] + [n];
      SumLast(loads[1..], n);
    }
  }

  /** The sum of the loads is the number of tasks in the queues. */
  lemma {:induction false} SumIsCount<T>(qs: seq<seq<T>>)
    ensures Sum(Lengths(qs)) == |CountFirst(qs, |qs|)|
  {
    if qs != [] {
      var init, last := qs[..|qs| - 1], qs[|qs| - 1];
      SumIsCount(init);
      SumLast(Lengths(init), |last|);
      assert Lengths(qs) == Lengths(init) + [|last|];
      CountOfInit(qs, |qs| - 1);
    }
  }

  lemma {:induction false} CountOfInit<T>(qs: seq<seq<T>>, n: nat)
    requires n < |qs|
    ensures CountFirst(qs[..|qs| - 1], n) == CountFirst(qs, n)
  {
    if n > 0 { CountOfInit(qs, n - 1); }
  }

  lemma SumAdd(loads: seq<nat>, i: nat)
    requires i < |loads|
    ensures Sum(loads[i := loads[i] + 1]) == Sum(loads) + 1
  {
    if i > 0 {
      assert loads[i := loads[i] + 1][1..] == loads[1..][i - 1 := loads[1..][i - 1] + 1];
      SumAdd(loads[1..], i - 1);
    } else {
      assert loads[i := loads[i] + 1][1..] == loads[1..];
    }
  }

  lemma OneMore(n: nat, m: nat)
    ensures (n + 1) * m == n * m + m
  {
  }

  lemma {:induction false} SumAtLeast(loads: seq<nat>, m: nat)
    requires forall j :: 0 <= j < |loads| ==> m <= loads[j]
    ensures |loads| * m <= Sum(loads)
  {
    if loads != [] {
      SumAtLeast(loads[1..], m);
      OneMore(|loads| - 1, m);
    }
  }

  lemma {:induction false} SumAbove(loads: seq<nat>, m: nat, i: nat)
    requires i < |loads| && m < loads[i] && forall j :: 0 <= j < |loads| ==> m <= loads[j]
    ensures |loads| * m < Sum(loads)
  {
    OneMore(|loads| - 1, m);
    if i == 0 {
      SumAtLeast(loads[1..], m);
    } else {
      SumAbove(loads[1..], m, i - 1);
    }
  }

  /** Dispatching any queue of first-time affinity tasks by least load always succeeds, places every task,
      and leaves each runner that received one at most one above the least load. */
  lemma {:induction false} Balanced<T>(qs: seq<seq<T>>, ts: seq<T>, jobs: seq<Job>, k: nat)
    requires qs != [] && k <= |ts| == |jobs| && FirstTime(jobs)
    ensures var r := Deliver(qs, ts, jobs, k);
            && r.Some?
            && Sum(Lengths(r.value)) == Sum(Lengths(qs)) + k
            && forall i :: 0 <= i < |qs| ==>
                 |qs[i]| <= |r.value[i]| && (|qs[i]| < |r.value[i]| ==> |r.value[i]| <= Least(Lengths(r.value)) + 1)
  {
    if k > 0 {
      Balanced(qs, ts, jobs, k - 1);
      var before := Deliver(qs, ts, jobs, k - 1).value;
      var i, after := OnePush(before, ts[k - 1], jobs[k - 1]);
      assert Deliver(qs, ts, jobs, k) == Some(after);
    }
  }

  /** One first-time task goes to a least loaded runner. */
  lemma OnePush<T>(qs: seq<seq<T>>, t: T, job: Job) returns (i: nat, after: seq<seq<T>>)
    requires qs != [] && job == Job(true, 0)
    ensures i < |qs| && after == qs[i := qs[i] + [t]] && Push(qs, t, job) == Some(after)
    ensures |qs[i]| == Least(Lengths(qs)) <= Least(Lengths(after))
    ensures Sum(Lengths(after)) == Sum(Lengths(qs)) + 1
  {
    i := FirstMin(Lengths(qs));
    after := qs[i := qs[i] + [t]];
    assert Lengths(after) == Lengths(qs)[i := Lengths(qs)[i] + 1];
    SumAdd(Lengths(qs), i);
    LeastGrows(Lengths(qs), i);
  }

  lemma LeastGrows(loads: seq<nat>, i: nat)
    requires i < |loads|
    ensures Least(loads) <= Least(loads[i := loads[i] + 1])
  {
  }

  function CeilDiv(a: nat, b: nat): nat
    requires b > 0
  {
    (a + b - 1) / b
  }

  lemma CeilAbove(a: nat, b: nat, c: nat)
    requires b > 0 && b * c < a
    ensures c + 1 <= CeilDiv(a, b)
  {
    var q := CeilDiv(a, b);
    assert a + b - 1 < q * b + b;
    assert (c + 1) * b == b * c + b;
    if q < c + 1 {
      MulMonotone(q + 1, c + 1, b);
    }
  }

  /** Hence no runner gets more tasks than the larger of what it had and the mean rounded up: all tasks in
      the queues, old and new, over the number of runners. */
  lemma {:induction false} LoadBound<T>(qs: seq<seq<T>>, ts: seq<T>, jobs: seq<Job>, i: nat)
    requires qs != [] && |ts| == |jobs| && FirstTime(jobs) && i < |qs|
    ensures var r := Deliver(qs, ts, jobs, |ts|);
            && r.Some?
            && (|r.value[i]| <= |qs[i]| || |r.value[i]| <= CeilDiv(|CountFirst(qs, |qs|)| + |ts|, |qs|))
  {
    Balanced(qs, ts, jobs, |ts|);
    SumIsCount(qs);
    var loads := Lengths(Deliver(qs, ts, jobs, |ts|).value);
    if |qs[i]| < loads[i] {
      var m := loads[i] - 1;
      assert forall j :: 0 <= j < |loads| ==> m <= loads[j];
      SumAbove(loads, m, i);
      CeilAbove(Sum(loads), |loads|, m);
    }
  }

  // ---------- tasks without affinity ----------

  /** A task without affinity is pushed out of bounds exactly when the last runner is the only least loaded one. */
  lemma PlainOutOfBounds<T>(qs: seq<seq<T>>, t: T, job: Job)
    requires qs != [] && !job.affinity
    ensures Push(qs, t, job) == None <==> forall i :: 0 <= i < |qs| - 1 ==> |qs[|qs| - 1]| < |qs[i]|
  {
    var m := FirstMin(Lengths(qs));
    if m < |qs| - 1 {
      assert |qs[m]| <= |qs[|qs| - 1]|;
    }
  }

  /** With the default of one runner no task without affinity can be scheduled at all. */
  lemma OneRunnerFails<T>(q: seq<T>, t: T)
    ensures Push([q], t, Job(false, 0)) == None
  {
  }

  lemma PlainPush<T>(qs: seq<seq<T>>, t: T, job: Job, m: nat)
    requires qs != [] && !job.affinity && IsFirstMin(Lengths(qs), m)
    ensures FirstMin(Lengths(qs)) == m
    ensures Push(qs, t, job) == if m + 1 < |qs| then Some(qs[m + 1 := qs[m + 1] + [t]]) else None
  {
    FirstMinUnique(Lengths(qs), m, FirstMin(Lengths(qs)));
  }

  lemma FirstMinUnique(loads: seq<nat>, i: nat, j: nat)
    requires IsFirstMin(loads, i) && IsFirstMin(loads, j)
    ensures i == j
  {
    assert loads[i] == loads[j];
  }

  /** Longer queues after the first least loaded runner leave it the first least loaded one. */
  lemma FirstMinStays<T>(qs: seq<seq<T>>, m: nat, more: seq<T>)
    requires IsFirstMin(Lengths(qs), m) && m + 1 < |qs|
    ensures IsFirstMin(Lengths(qs[m + 1 := qs[m + 1] + more]), m)
  {
  }

  /** Tasks without affinity never relieve the least loaded runner: all of them pile up on the one after the
      first least loaded runner, and if there is none the first of them is already out of bounds. */
  lemma {:induction false} PlainPileUp<T>(qs: seq<seq<T>>, ts: seq<T>, jobs: seq<Job>, k: nat)
    requires qs != [] && k <= |ts| == |jobs|
    requires forall j :: 0 <= j < |jobs| ==> !jobs[j].affinity
    ensures var m := FirstMin(Lengths(qs));
            Deliver(qs, ts, jobs, k) ==
            if k == 0 then Some(qs) else if m + 1 < |qs| then Some(qs[m + 1 := qs[m + 1] + ts[..k]]) else None
  {
    var m := FirstMin(Lengths(qs));
    if 0 < k {
      PlainPileUp(qs, ts, jobs, k - 1);
      if k == 1 {
        PlainPush(qs, ts[0], jobs[0], m);
        assert ts[..1] == [ts[0]] && Deliver(qs, ts, jobs, 1) == Push(qs, ts[0], jobs[0]);
      } else if m + 1 < |qs| {
        var before := qs[m + 1 := qs[m + 1] + ts[..k - 1]];
        FirstMinStays(qs, m, ts[..k - 1]);
        PlainPush(before, ts[k - 1], jobs[k - 1], m);
        assert qs[m + 1] + ts[..k - 1] + [ts[k - 1]] == qs[m + 1] + ts[..k];
        assert before[m + 1 := before[m + 1] + [ts[k - 1]]] == qs[m + 1 := qs[m + 1] + ts[..k]];
      }
    }
  }

  /** A whole call on tasks without affinity leaves the vector exactly when there is a task and, before the
      call, the last runner is the only least loaded one. */
  lemma PlainCallOutOfBounds<T>(qs: seq<seq<T>>, ts: seq<T>, jobs: seq<Job>)
    requires qs != [] && |ts| == |jobs|
    requires forall j :: 0 <= j < |jobs| ==> !jobs[j].affinity
    ensures Deliver(qs, ts, jobs, |ts|) == None <==>
            ts != [] && forall i :: 0 <= i < |qs| - 1 ==> |qs[|qs| - 1]| < |qs[i]|
  {
    PlainPileUp(qs, ts, jobs, |ts|);
    if ts != [] {
      PlainPush(qs, ts[0], jobs[0], FirstMin(Lengths(qs)));
      PlainOutOfBounds(qs, ts[0], jobs[0]);
    }
  }

  /** A task without affinity does land on a least loaded runner exactly when the runner after the first
      least loaded one carries just as little. */
  lemma PlainOnLeastIff<T>(qs: seq<seq<T>>, t: T, job: Job)
    requires qs != [] && !job.affinity
    ensures var m := FirstMin(Lengths(qs));
            (exists i :: 0 <= i < |qs| && |qs[i]| == Least(Lengths(qs))
                         && Push(qs, t, job) == Some(qs[i := qs[i] + [t]]))
            <==> m + 1 < |qs| && |qs[m + 1]| == |qs[m]|
  {
    var m := FirstMin(Lengths(qs));
    PlainPush(qs, t, job, m);
    if m + 1 < |qs| {
      var after := qs[m + 1 := qs[m + 1] + [t]];
      forall i | 0 <= i < |qs| && after == qs[i := qs[i] + [t]] ensures i == m + 1 {
        assert |after[i]| == |qs[i]| + 1;
      }
    }
  }
}

/** The object pool over whole runs, as a value. */
module PoolRuns {
  import opened Basics

  /** The free queue; what every living ref points at; the addresses behind raw handles; the addresses whose
      owning ref was assigned over; the addresses at which an object is constructed; and how often the
      allocator was asked. */
  datatype Pool<!R, !P> =
    Pool(free: seq<P>, refs: map<R, Option<P>>, raw: set<P>, lost: set<P>, objects: set<P>, calls: nat)

  datatype Op<R, P> =
    | Construct(r: R, p: P)
    | ConstructRaw(p: P)
    | Destroy(p: P)
    | MoveNew(r: R, from: R)
    | Assign(to: R, from: R)
    | Drop(r: R)

  ghost function Start<R, P>(): Pool<R, P> {
    Pool([], map[], {}, {}, {}, 0)
  }

  function Of<T>(o: Option<T>): set<T> {
    if o.Some? then {o.value} else {}
  }

  /** What `alloc` answers: the oldest free address, or one that the allocator had not handed out. */
  ghost predicate Obtains<R, P>(s: Pool<R, P>, p: P) {
    if s.free != [] then p == s.free[0] else p !in s.objects
  }

  ghost function Taken<R, P>(s: Pool<R, P>, p: P): Pool<R, P> {
    var r := s.(objects := s.objects + {p});
    if s.free != [] then r.(free := s.free[1..]) else r.(calls := s.calls + 1)
  }

  ghost function Put<R, P>(s: Pool<R, P>, p: P): Pool<R, P> {
    s.(free := s.free + [p], objects := s.objects - {p})
  }

  ghost predicate Enabled<R, P>(s: Pool<R, P>, op: Op<R, P>) {
    match op
    case Construct(r, p) => r !in s.refs && Obtains(s, p)
    case ConstructRaw(p) => Obtains(s, p)
    case Destroy(p) => p in s.raw
    case MoveNew(r, from) => r !in s.refs && from in s.refs
    case Assign(to, from) => to in s.refs && from in s.refs
    case Drop(r) => r in s.refs
  }

  ghost function Step<R, P>(s: Pool<R, P>, op: Op<R, P>): Pool<R, P>
    requires Enabled(s, op)
  {
    match op
    case Construct(r, p) => Taken(s, p).(refs := s.refs[r := Some(p)])
    case ConstructRaw(p) => Taken(s, p).(raw := s.raw + {p})
    case Destroy(p) => Put(s, p).(raw := s.raw - {p})
    case MoveNew(r, from) => s.(refs := s.refs[r := s.refs[from]][from := None])
    case Assign(to, from) =>
      if to == from then s
      else s.(refs := s.refs[to := s.refs[from]][from := None], lost := s.lost + Of(s.refs[to]))
    case Drop(r) =>
      (if s.refs[r].Some? then Put(s, s.refs[r].value) else s).(refs := s.refs - {r})
  }

  // ---------- the addresses ----------

  ghost predicate NoDuplicates<P>(q: seq<P>) {
    forall i, j :: 0 <= i < j < |q| ==> q[i] != q[j]
  }

  ghost predicate Owns<R, P>(refs: map<R, Option<P>>, older r: R, older p: P) {
    r in refs && refs[r] == Some(p)
  }

  /** Every object is behind exactly one ref, or behind a raw handle, or abandoned. */
  ghost predicate Placed<R, P>(refs: map<R, Option<P>>, raw: set<P>, lost: set<P>, objects: set<P>) {
    && raw <= objects && lost <= objects && raw !! lost
    && (forall r, p :: Owns(refs, r, p) ==> p in objects && p !in raw && p !in lost)
    && (forall r, x, p :: Owns(refs, r, p) && Owns(refs, x, p) ==> r == x)
    && (forall p :: p in objects && p !in raw && p !in lost ==> exists r :: Owns(refs, r, p))
  }

  /** And every address obtained from the allocator is either free, once, or holds an object. */
  ghost predicate Inv<R, P>(s: Pool<R, P>) {
    && Placed(s.refs, s.raw, s.lost, s.objects)
    && NoDuplicates(s.free) && (forall p <- s.free :: p !in s.objects)
    && s.calls == |s.free| + |s.objects|
  }

  // ---------- what every step keeps ----------

  /** The addresses at which an operation constructs an object, and at which it destroys one. */
  ghost function Created<R, P>(op: Op<R, P>): set<P> {
    if op.Construct? || op.ConstructRaw? then {op.p} else {}
  }

  ghost function Destroyed<R, P>(s: Pool<R, P>, op: Op<R, P>): set<P> {
    if op.Destroy? then {op.p} else if op.Drop? && op.r in s.refs then Of(s.refs[op.r]) else {}
  }

  lemma TakenKeeps<R, P>(s: Pool<R, P>, p: P)
    requires Inv(s) && Obtains(s, p)
    ensures p !in s.objects
    ensures var r := Taken(s, p);
            NoDuplicates(r.free) && (forall p <- r.free :: p !in r.objects) && r.calls == |r.free| + |r.objects|
  {
    if s.free != [] {
      assert p in s.free;
    }
  }

  lemma PutKeeps<R, P>(s: Pool<R, P>, p: P)
    requires Inv(s) && p in s.objects
    ensures var r := Put(s, p);
            NoDuplicates(r.free) && (forall p <- r.free :: p !in r.objects) && r.calls == |r.free| + |r.objects|
  {
  }

  lemma PlacedNew<R, P>(refs: map<R, Option<P>>, raw: set<P>, lost: set<P>, objects: set<P>, r: R, p: P)
    requires Placed(refs, raw, lost, objects) && r !in refs && p !in objects
    ensures Placed(refs[r := Some(p)], raw, lost, objects + {p})
  {
    var to := refs[r := Some(p)];
    forall q | q in objects + {p} && q !in raw && q !in lost ensures exists x :: Owns(to, x, q) {
      if q == p { assert Owns(to, r, p); } else { var x :| Owns(refs, x, q); assert Owns(to, x, q); }
    }
    forall x, q | Owns(to, x, q) ensures x != r ==> Owns(refs, x, q) {}
  }

  lemma PlacedGone<R, P>(refs: map<R, Option<P>>, raw: set<P>, lost: set<P>, objects: set<P>, r: R)
    requires Placed(refs, raw, lost, objects) && r in refs
    ensures Placed(refs - {r}, raw, lost, objects - Of(refs[r]))
  {
    var to, rest := refs - {r}, objects - Of(refs[r]);
    forall x, q | Owns(to, x, q) ensures Owns(refs, x, q) && refs[r] != Some(q) {
      assert Owns(refs, x, q) && (refs[r] == Some(q) ==> Owns(refs, r, q));
    }
    forall q | q in Of(refs[r]) ensures q !in raw && q !in lost { assert Owns(refs, r, q); }
    forall q | q in rest && q !in raw && q !in lost ensures exists x :: Owns(to, x, q) {
      var x :| Owns(refs, x, q);
      assert Owns(to, x, q);
    }
  }

  /** A move leaves the ref it takes from inert and the object behind exactly one ref. */
  lemma PlacedMoved<R, P>(refs: map<R, Option<P>>, raw: set<P>, lost: set<P>, objects: set<P>, to: R, from: R)
    requires Placed(refs, raw, lost, objects) && from in refs && to != from
    ensures Placed(refs[to := refs[from]][from := None], raw, lost + (if to in refs then Of(refs[to]) else {}), objects)
  {
    var after, gone := refs[to := refs[from]][from := None], if to in refs then Of(refs[to]) else {};
    forall x, q | Owns(after, x, q) ensures x != from && Owns(refs, if x == to then from else x, q) {}
    forall q | q in gone ensures Owns(refs, to, q) {}
    forall q | q in objects && q !in raw && q !in lost && q !in gone ensures exists x :: Owns(after, x, q) {
      var x :| Owns(refs, x, q);
      assert Owns(after, if x == from then to else x, q);
    }
  }

  ghost predicate Kept<R, P>(s: Pool<R, P>, op: Op<R, P>)
    requires Enabled(s, op)
  {
    var r := Step(s, op);
    && Inv(r)
    && Created(op) !! s.objects && Destroyed(s, op) <= s.objects
    && r.objects == s.objects + Created(op) - Destroyed(s, op)
    && s.lost <= r.lost
  }

  lemma ConstructKeeps<R, P>(s: Pool<R, P>, r: R, p: P)
    requires Inv(s) && Enabled(s, Construct(r, p))
    ensures Kept(s, Construct(r, p))
  {
    TakenKeeps(s, p);
    PlacedNew(s.refs, s.raw, s.lost, s.objects, r, p);
  }

  lemma ConstructRawKeeps<R, P>(s: Pool<R, P>, p: P)
    requires Inv(s) && Obtains(s, p)
    ensures Kept(s, ConstructRaw(p))
  {
    TakenKeeps(s, p);
    assert Placed(s.refs, s.raw + {p}, s.lost, s.objects + {p});
  }

  lemma DestroyKeeps<R, P>(s: Pool<R, P>, p: P)
    requires Inv(s) && p in s.raw
    ensures Kept(s, Destroy(p))
  {
    PutKeeps(s, p);
  }

  lemma MoveKeeps<R, P>(s: Pool<R, P>, op: Op<R, P>)
    requires Inv(s) && Enabled(s, op) && (op.MoveNew? || op.Assign?)
    ensures Kept(s, op)
  {
    var to := if op.MoveNew? then op.r else op.to;
    if to != op.from { PlacedMoved(s.refs, s.raw, s.lost, s.objects, to, op.from); }
  }

  lemma DropKeeps<R, P>(s: Pool<R, P>, r: R)
    requires Inv(s) && r in s.refs
    ensures Kept(s, Drop(r))
  {
    PlacedGone(s.refs, s.raw, s.lost, s.objects, r);
    if s.refs[r].Some? {
      assert Owns(s.refs, r, s.refs[r].value);
      PutKeeps(s, s.refs[r].value);
    }
  }

  /** Every operation keeps the addresses apart; a construction is given an address that holds no object,
      and a destructor runs only where there is one. */
  lemma StepKeeps<R, P>(s: Pool<R, P>, op: Op<R, P>)
    requires Inv(s) && Enabled(s, op)
    ensures Inv(Step(s, op))
    ensures Created(op) !! s.objects && Destroyed(s, op) <= s.objects
    ensures Step(s, op).objects == s.objects + Created(op) - Destroyed(s, op)
    ensures s.lost <= Step(s, op).lost
  {
    match op
    case Construct(r, p) => ConstructKeeps(s, r, p);
    case ConstructRaw(p) => ConstructRawKeeps(s, p);
    case Destroy(p) => DestroyKeeps(s, p);
    case MoveNew(_, _) => MoveKeeps(s, op);
    case Assign(_, _) => MoveKeeps(s, op);
    case Drop(r) => DropKeeps(s, r);
  }

  lemma ConstructStep<R, P>(s: Pool<R, P>, r: R, p: P) returns (after: Pool<R, P>)
    requires Inv(s) && r !in s.refs && Obtains(s, p)
    ensures Enabled(s, Construct(r, p))
            && after == Step(s, Construct(r, p)) == Taken(s, p).(refs := s.refs[r := Some(p)])
    ensures Inv(after)
  {
    ConstructKeeps(s, r, p);
    after := Step(s, Construct(r, p));
  }

  lemma DestroyStep<R, P>(s: Pool<R, P>, p: P) returns (after: Pool<R, P>)
    requires Inv(s) && p in s.raw
    ensures p in s.objects && Enabled(s, Destroy(p)) && Inv(after)
    ensures after == Step(s, Destroy(p)) == s.(free := s.free + [p], objects := s.objects - {p}, raw := s.raw - {p})
  {
    DestroyKeeps(s, p);
    after := Step(s, Destroy(p));
  }

  // ---------- whole runs ----------

  ghost predicate Leads<R, P>(s: Pool<R, P>, op: Op<R, P>, r: Pool<R, P>) {
    Enabled(s, op) && r == Step(s, op)
  }

  ghost predicate IsRun<R, P>(states: seq<Pool<R, P>>, ops: seq<Op<R, P>>) {
    && |states| == |ops| + 1 && states[0] == Start()
    && forall i :: 0 <= i < |ops| ==> Leads(states[i], ops[i], states[i + 1])
  }

  lemma {:induction false} RunKeeps<R, P>(states: seq<Pool<R, P>>, ops: seq<Op<R, P>>, i: nat)
    requires IsRun(states, ops) && i < |states|
    ensures Inv(states[i])
  {
    if i > 0 {
      RunKeeps(states, ops, i - 1);
      assert Leads(states[i - 1], ops[i - 1], states[i]);
      StepKeeps(states[i - 1], ops[i - 1]);
    }
  }

  /** One step of a run. */
  lemma RunStep<R, P>(states: seq<Pool<R, P>>, ops: seq<Op<R, P>>, i: nat)
    requires IsRun(states, ops) && i < |ops|
    ensures Inv(states[i]) && Inv(states[i + 1]) && Enabled(states[i], ops[i])
            && states[i + 1] == Step(states[i], ops[i])
    ensures Created(ops[i]) !! states[i].objects && Destroyed(states[i], ops[i]) <= states[i].objects
    ensures states[i + 1].objects == states[i].objects + Created(ops[i]) - Destroyed(states[i], ops[i])
    ensures states[i].lost <= states[i + 1].lost
  {
    RunKeeps(states, ops, i);
    assert Leads(states[i], ops[i], states[i + 1]);
    StepKeeps(states[i], ops[i]);
  }

  /** The allocator is asked exactly as often as the largest number of objects that existed at one time,
      abandoned ones included. */
  lemma {:induction false} CallsArePeak<R, P>(states: seq<Pool<R, P>>, ops: seq<Op<R, P>>, n: nat)
    requires IsRun(states, ops) && n < |states|
    ensures forall i :: 0 <= i <= n ==> |states[i].objects| <= states[n].calls
    ensures exists i :: 0 <= i <= n && |states[i].objects| == states[n].calls
  {
    if n == 0 {
      assert |states[0].objects| == states[0].calls;
    } else {
      CallsArePeak(states, ops, n - 1);
      RunStep(states, ops, n - 1);
      assert |states[n].objects| <= states[n].calls;
      var i :| 0 <= i <= n - 1 && |states[i].objects| == states[n - 1].calls;
      if states[n].calls != states[n - 1].calls {
        assert states[n - 1].free == [];
        assert |states[n].objects| == states[n].calls;
      }
    }
  }

  /** An address keeps its object until it is destroyed. */
  lemma {:induction false} Lasts<R, P>(states: seq<Pool<R, P>>, ops: seq<Op<R, P>>, i: nat, j: nat, p: P)
    returns (k: nat)
    requires IsRun(states, ops) && i <= j < |states| && p in states[i].objects && p !in states[j].objects
    ensures i <= k < j && p in Destroyed(states[k], ops[k])
  {
    k := j - 1;
    RunStep(states, ops, k);
    if p !in states[k].objects {
      k := Lasts(states, ops, i, k, p);
    }
  }

  /** And stays without one until one is constructed there. */
  lemma {:induction false} StaysEmpty<R, P>(states: seq<Pool<R, P>>, ops: seq<Op<R, P>>, i: nat, j: nat, p: P)
    returns (k: nat)
    requires IsRun(states, ops) && i <= j < |states| && p !in states[i].objects && p in states[j].objects
    ensures i <= k < j && p in Created(ops[k])
  {
    k := j - 1;
    RunStep(states, ops, k);
    if p in states[k].objects {
      k := StaysEmpty(states, ops, i, k, p);
    }
  }

  /** Each construction is destroyed at most once: between two destructions at one address there is a construction. */
  lemma DestroyedOnce<R, P>(states: seq<Pool<R, P>>, ops: seq<Op<R, P>>, i: nat, j: nat, p: P)
    requires IsRun(states, ops) && i < j < |ops|
    requires p in Destroyed(states[i], ops[i]) && p in Destroyed(states[j], ops[j])
    ensures exists k :: i < k < j && p in Created(ops[k])
  {
    RunStep(states, ops, i);
    RunStep(states, ops, j);
    var k := StaysEmpty(states, ops, i + 1, j, p);
  }

  /** And no object is overwritten: between two constructions at one address there is a destruction. */
  lemma ConstructedOnce<R, P>(states: seq<Pool<R, P>>, ops: seq<Op<R, P>>, i: nat, j: nat, p: P)
    requires IsRun(states, ops) && i < j < |ops|
    requires p in Created(ops[i]) && p in Created(ops[j])
    ensures exists k :: i < k < j && p in Destroyed(states[k], ops[k])
  {
    RunStep(states, ops, i);
    RunStep(states, ops, j);
    var k := Lasts(states, ops, i + 1, j, p);
  }

  // ---------- abandoned objects ----------

  /** A ref that owns an object is assigned over. */
  ghost predicate Abandons<R, P>(s: Pool<R, P>, op: Op<R, P>) {
    op.Assign? && op.to != op.from && op.to in s.refs && s.refs[op.to].Some?
  }

  /** An abandoned object exists for ever. */
  lemma {:induction false} LostForever<R, P>(states: seq<Pool<R, P>>, ops: seq<Op<R, P>>, i: nat, j: nat, p: P)
    requires IsRun(states, ops) && i <= j < |ops| && p in states[i].lost
    ensures p in states[j].lost && p in states[j].objects && p !in Destroyed(states[j], ops[j])
  {
    RunStep(states, ops, j);
    if i < j {
      LostForever(states, ops, i, j - 1, p);
      RunStep(states, ops, j - 1);
    }
    assert ops[j].Drop? ==> !Owns(states[j].refs, ops[j].r, p);
  }

  /** Objects are abandoned exactly by assigning over an owning ref. */
  lemma {:induction false} NothingLostIff<R, P>(states: seq<Pool<R, P>>, ops: seq<Op<R, P>>, n: nat)
    requires IsRun(states, ops) && n < |states|
    ensures states[n].lost == {} <==> forall i :: 0 <= i < n ==> !Abandons(states[i], ops[i])
  {
    if n > 0 {
      NothingLostIff(states, ops, n - 1);
      RunStep(states, ops, n - 1);
      if Abandons(states[n - 1], ops[n - 1]) {
        assert states[n - 1].refs[ops[n - 1].to].value in states[n].lost;
      }
    }
  }

  /** Two objects, the second ref assigned over the first: the first object exists without an owner. */
  lemma AssigningLoses<R, P>(a: R, b: R, p: P, q: P)
    requires a != b && p != q
    ensures exists states: seq<Pool<R, P>> ::
              && IsRun(states, [Construct(a, p), Construct(b, q), Assign(a, b)])
              && states[3].lost == {p} && p in states[3].objects
  {
    var s1 := Step(Start<R, P>(), Construct(a, p));
    var s2 := Step(s1, Construct(b, q));
    var s3 := Step(s2, Assign(a, b));
    var states, ops := [Start(), s1, s2, s3], [Construct(a, p), Construct(b, q), Assign(a, b)];
    forall i | 0 <= i < |ops| ensures Leads(states[i], ops[i], states[i + 1]) {}
    assert IsRun(states, ops) && states[3].lost == {p} && p in states[3].objects;
  }

  /** Once no ref owns anything and no raw handle is left, everything the allocator gave is back in the free
      queue, except what was abandoned. */
  lemma AllReturned<R, P>(states: seq<Pool<R, P>>, ops: seq<Op<R, P>>, n: nat)
    requires IsRun(states, ops) && n < |states|
    requires states[n].raw == {} && forall r <- states[n].refs :: states[n].refs[r] == None
    ensures states[n].objects == states[n].lost && |states[n].free| == states[n].calls - |states[n].lost|
  {
    RunKeeps(states, ops, n);
    assert forall r, p :: !Owns(states[n].refs, r, p);
    assert states[n].objects == states[n].lost;
  }

  /** A ref that was moved from is inert: dropping it changes nothing else, and moving back abandons nothing. */
  lemma MovedFromInert<R, P>(s: Pool<R, P>, to: R, from: R)
    requires to in s.refs && from in s.refs && to != from
    ensures var r := Step(s, Assign(to, from));
            && r.refs[from] == None && r.refs[to] == s.refs[from]
            && Step(r, Drop(from)) == r.(refs := r.refs - {from})
            && Step(r, Assign(from, to)) == r.(refs := s.refs[to := None])
  {
    var r := Step(s, Assign(to, from));
    assert r.lost + Of(r.refs[from]) == r.lost;
    assert Step(r, Assign(from, to)).refs == s.refs[to := None];
  }

  // ---------- the order in which addresses are used again ----------

  /** The address that an operation frees. */
  ghost function FreedBy<R, P>(s: Pool<R, P>, op: Op<R, P>): seq<P> {
    match op
    case Destroy(p) => [p]
    case Drop(r) => if r in s.refs && s.refs[r].Some? then [s.refs[r].value] else []
    case _ => []
  }

  /** The address that a construction gets without asking the allocator. */
  ghost function ReusedBy<R, P>(s: Pool<R, P>, op: Op<R, P>, after: Pool<R, P>): seq<P> {
    if (op.Construct? || op.ConstructRaw?) && after.calls == s.calls then [op.p] else []
  }

  /** The same for the first `n` operations, in order. */
  ghost function Freed<R, P>(states: seq<Pool<R, P>>, ops: seq<Op<R, P>>, n: nat): seq<P>
    requires n <= |ops| && n <= |states|
  {
    if n == 0 then [] else Freed(states, ops, n - 1) + FreedBy(states[n - 1], ops[n - 1])
  }

  ghost function Reused<R, P>(states: seq<Pool<R, P>>, ops: seq<Op<R, P>>, n: nat): seq<P>
    requires n <= |ops| && n < |states|
  {
    if n == 0 then [] else Reused(states, ops, n - 1) + ReusedBy(states[n - 1], ops[n - 1], states[n])
  }

  lemma FreeQueueStep<R, P>(s: Pool<R, P>, op: Op<R, P>)
    requires Enabled(s, op)
    ensures s.free + FreedBy(s, op) == ReusedBy(s, op, Step(s, op)) + Step(s, op).free
    ensures s.free != [] ==> Step(s, op).calls == s.calls
  {
    if op.Construct? || op.ConstructRaw? {
      if s.free != [] { assert s.free == [s.free[0]] + s.free[1..]; }
    }
  }

  lemma QueueJoin<T>(freed: seq<T>, reused: seq<T>, free: seq<T>, x: seq<T>, y: seq<T>, free': seq<T>)
    requires freed == reused + free && free + x == y + free'
    ensures freed + x == reused + y + free'
  {
    assert freed + x == reused + (free + x);
  }

  /** Addresses are used again in the order in which they were freed: what was freed is what was used again
      and then the free queue.  As long as one is left no construction asks the allocator. */
  lemma {:induction false} ReusedInOrder<R, P>(states: seq<Pool<R, P>>, ops: seq<Op<R, P>>, n: nat)
    requires IsRun(states, ops) && n < |states|
    ensures Freed(states, ops, n) == Reused(states, ops, n) + states[n].free
    ensures n < |ops| && states[n].free != [] ==> states[n + 1].calls == states[n].calls
  {
    hide Step, Enabled, FreedBy, ReusedBy;
    if n < |ops| {
      assert Leads(states[n], ops[n], states[n + 1]);
      FreeQueueStep(states[n], ops[n]);
    }
    if n > 0 {
      var s, op := states[n - 1], ops[n - 1];
      ReusedInOrder(states, ops, n - 1);
      assert Leads(s, op, states[n]);
      FreeQueueStep(s, op);
      QueueJoin(Freed(states, ops, n - 1), Reused(states, ops, n - 1), s.free,
                FreedBy(s, op), ReusedBy(s, op, states[n]), states[n].free);
    }
  }
}

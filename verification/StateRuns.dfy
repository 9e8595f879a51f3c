/** What a transition of the hierarchical state machine does, and what every run of transitions keeps. */
module StateRuns {
  import opened StateShape
  import opened StatePaths

  /** Arithmetic of uint32_t. */
  function Wrap(n: int): nat {
    n % 0x1_0000_0000
  }

  datatype Counts = Counts(enter: nat, exit: nat, execution: nat)

  /** enter_count minus exit_count. */
  function Net(c: Counts): nat {
    Wrap(c.enter - c.exit)
  }

  datatype Event<S> = Entered(s: S) | Executed(s: S) | Exited(s: S)

  /** All that a transition can change: the current state, the active states from the root down, the
      statistics of each state, and the callbacks made so far. */
  datatype View<S> = View(current: S, active: seq<S>, counts: map<S, Counts>, trace: seq<Event<S>>)

  // ---------- executing a path ----------

  function Entering(c: Counts): Counts {
    c.(enter := Wrap(c.enter + 1))
  }

  function Exiting(c: Counts): Counts {
    c.(exit := Wrap(c.exit + 1))
  }

  function Executing(c: Counts): Counts {
    c.(execution := Wrap(c.execution + 1))
  }

  /** One case of the switch in `tran_to`. */
  ghost function Apply<S>(v: View<S>, n: Node<S>): (r: View<S>)
    requires n.state in v.counts
    ensures r.counts.Keys == v.counts.Keys
  {
    var s := n.state;
    View(if n.code.Target? || n.code.Noop? then s else v.current,
         ActiveNext(v.active, n),
         v.counts[s := Counted(v.counts[s], n.code)],
         v.trace + EventOf(n))
  }

  function ActiveNext<S>(active: seq<S>, n: Node<S>): seq<S> {
    match n.code
    case Exit => if active != [] then active[..|active| - 1] else []
    case Noop => active
    case _ => active + [n.state]
  }

  function EventOf<S>(n: Node<S>): seq<Event<S>> {
    match n.code
    case Exit => [Exited(n.state)]
    case Noop => []
    case _ => [Entered(n.state)]
  }

  function Counted(c: Counts, code: Code): Counts {
    match code
    case Exit => Exiting(c)
    case Noop => c
    case _ => Entering(c)
  }

  /** A step that keeps the active states a chain. */
  ghost predicate StepOk<S>(sh: Shape<S>, v: View<S>, n: Node<S>)
    requires sh.Valid()
  {
    var s := n.state;
    && s in sh.nodes
    && (n.code.Exit? ==> s != sh.root && v.active == sh.chain[s])
    && (n.code.Noop? ==> v.active == sh.chain[s])
    && (n.code.Enter? || n.code.Target? ==> v.active + [s] == sh.chain[s])
  }

  ghost predicate AllIn<S>(ns: seq<Node<S>>, nodes: set<S>) {
    forall i {:trigger ns[i]} :: 0 <= i < |ns| ==> ns[i].state in nodes
  }

  /** The first `i` steps of a path. */
  ghost function Applied<S>(v: View<S>, ns: seq<Node<S>>, i: nat): (r: View<S>)
    requires i <= |ns| && AllIn(ns, v.counts.Keys)
    ensures r.counts.Keys == v.counts.Keys && (v.current in v.counts ==> r.current in r.counts)
  {
    if i == 0 then v else Apply(Applied(v, ns, i - 1), ns[i - 1])
  }

  ghost predicate StepOkAt<S>(sh: Shape<S>, v: View<S>, ns: seq<Node<S>>, i: nat)
    requires sh.Valid() && i < |ns| && AllIn(ns, v.counts.Keys)
  {
    StepOk(sh, Applied(v, ns, i), ns[i])
  }

  /** Each step of the path finds the active states as it needs them. */
  ghost predicate PathOk<S>(sh: Shape<S>, v: View<S>, ns: seq<Node<S>>)
    requires sh.Valid() && AllIn(ns, v.counts.Keys)
  {
    forall i: nat {:trigger StepOkAt(sh, v, ns, i)} :: i < |ns| ==> StepOkAt(sh, v, ns, i)
  }

  lemma PathStep<S>(sh: Shape<S>, v: View<S>, ns: seq<Node<S>>, i: nat)
    requires sh.Valid() && AllIn(ns, v.counts.Keys) && PathOk(sh, v, ns) && i < |ns|
    ensures StepOk(sh, Applied(v, ns, i), ns[i])
  {
    assert StepOkAt(sh, v, ns, i);
  }

  /** The machine is at rest: the active states are those from the root to the current one, and each
      state has been entered once more than exited exactly when it is active. */
  ghost predicate Settled<S>(sh: Shape<S>, v: View<S>) {
    && Placed(sh, v)
    && v.active == sh.chain[v.current]
    && Balanced(v)
  }

  ghost predicate Placed<S>(sh: Shape<S>, v: View<S>) {
    sh.Valid() && v.current in sh.nodes && v.counts.Keys == sh.nodes
  }

  ghost predicate Balanced<S>(v: View<S>) {
    forall s {:trigger BalancedAt(v, s)} :: s in v.counts ==> BalancedAt(v, s)
  }

  ghost predicate BalancedAt<S>(v: View<S>, s: S)
    requires s in v.counts
  {
    Net(v.counts[s]) == if s in v.active then 1 else 0
  }

  function ExitEvents<S>(chain: seq<S>, n: nat): seq<Event<S>>
    requires n <= |chain|
  {
    seq(|chain| - n, j requires 0 <= j < |chain| - n => Exited(chain[|chain| - 1 - j]))
  }

  function EnterEvents<S>(chain: seq<S>, n: nat): seq<Event<S>>
    requires n <= |chain|
  {
    seq(|chain| - n, j requires 0 <= j < |chain| - n => Entered(chain[n + j]))
  }

  lemma WrapShift(x: int, q: int)
    ensures Wrap(x + q * 0x1_0000_0000) == Wrap(x)
  {
  }

  lemma WrapWrap(a: int, b: int)
    ensures Wrap(Wrap(a) - b) == Wrap(a - b)
    ensures Wrap(b - Wrap(a)) == Wrap(b - a)
  {
    var q := a / 0x1_0000_0000;
    WrapShift(a - b, -q);
    WrapShift(b - a, q);
  }

  lemma WrapNext(x: int)
    ensures Wrap(x) == 0 ==> Wrap(x + 1) == 1
    ensures Wrap(x) == 1 ==> Wrap(x - 1) == 0
  {
  }

  lemma CountEnter(c: Counts)
    requires Net(c) == 0
    ensures Net(Entering(c)) == 1
  {
    WrapWrap(c.enter + 1, c.exit);
    WrapNext(c.enter - c.exit);
    assert c.enter + 1 - c.exit == c.enter - c.exit + 1;
  }

  lemma CountExit(c: Counts)
    requires Net(c) == 1
    ensures Net(Exiting(c)) == 0
  {
    WrapWrap(c.exit + 1, c.enter);
    WrapNext(c.enter - c.exit);
    assert c.enter - (c.exit + 1) == c.enter - c.exit - 1;
  }

  lemma CountStep(c: Counts, code: Code)
    requires Net(c) == if code.Exit? || code.Noop? then 1 else 0
    ensures Net(Counted(c, code)) == if code.Exit? then 0 else 1
  {
    match code
    case Exit => CountExit(c);
    case Noop =>
    case Enter => CountEnter(c);
    case Target => CountEnter(c);
  }

  /** A step that keeps the active states a chain keeps the statistics of each state in balance. */
  lemma StepBalanced<S>(sh: Shape<S>, v: View<S>, n: Node<S>, x: S)
    requires sh.Valid() && v.counts.Keys == sh.nodes && StepOk(sh, v, n) && x in sh.nodes && BalancedAt(v, x)
    ensures BalancedAt(Apply(v, n), x)
  {
    ActiveAfter(sh, v, n, x);
    if x == n.state {
      CountStep(v.counts[x], n.code);
    }
  }

  lemma ActiveAfter<S>(sh: Shape<S>, v: View<S>, n: Node<S>, x: S)
    requires sh.Valid() && v.counts.Keys == sh.nodes && StepOk(sh, v, n)
    ensures x in Apply(v, n).active <==> if x == n.state then !n.code.Exit? else x in v.active
    ensures n.state in v.active <==> n.code.Exit? || n.code.Noop?
  {
    sh.Distinct(n.state, x);
    sh.Distinct(n.state, n.state);
    if n.code.Enter? || n.code.Target? {
      assert v.active == sh.chain[n.state][..|sh.chain[n.state]| - 1];
    }
  }

  ghost function TraceAt<S>(trip: Trip<S>, i: nat): seq<Event<S>>
    requires trip.Valid() && i <= trip.Length()
  {
    if i <= trip.Up() then ExitEvents(trip.from, |trip.from| - i)
    else ExitEvents(trip.from, trip.common) + EnterEvents(trip.ActiveAt(i), trip.common)
  }

  lemma TraceStep<S>(trip: Trip<S>, i: nat)
    requires trip.Valid() && i < trip.Length()
    ensures TraceAt(trip, i + 1) == TraceAt(trip, i) + EventOf(trip.NodeAt(i))
  {
    hide ExitEvents, EnterEvents;
    var c, d, n := trip.from, trip.to, trip.common;
    if i < trip.Up() {
      ExitOneMore(c, |c| - i);
    } else if i == trip.Up() {
      EnterNone(d, n);
    } else {
      var m := n + (i - trip.Up() - 1);
      EnterOneMore(d, m, n);
      Associative(ExitEvents(c, n), EnterEvents(d[..m], n), [Entered(d[m])]);
    }
  }

  lemma ExitOneMore<S>(c: seq<S>, k: nat)
    requires 0 < k <= |c|
    ensures ExitEvents(c, k - 1) == ExitEvents(c, k) + [Exited(c[k - 1])]
  {
  }

  lemma EnterNone<S>(d: seq<S>, n: nat)
    requires n <= |d|
    ensures EnterEvents(d[..n], n) == []
  {
  }

  lemma EnterOneMore<S>(d: seq<S>, m: nat, n: nat)
    requires n <= m < |d|
    ensures EnterEvents(d[..m + 1], n) == EnterEvents(d[..m], n) + [Entered(d[m])]
  {
  }

  lemma ActiveStep<S>(trip: Trip<S>, v: View<S>, i: nat)
    requires trip.Valid() && i < trip.Length() && v.active == trip.ActiveAt(i) && v.current == trip.CurrentAt(i)
    requires trip.NodeAt(i).state in v.counts
    ensures Apply(v, trip.NodeAt(i)).active == trip.ActiveAt(i + 1)
    ensures Apply(v, trip.NodeAt(i)).current == trip.CurrentAt(i + 1)
    ensures trip.Up() < i ==> v.active + [trip.NodeAt(i).state] == trip.ActiveAt(i + 1)
  {
    var c, d := trip.from, trip.to;
    if i < trip.Up() {
      assert v.active[..|c| - i - 1] == c[..|c| - i - 1];
    } else if trip.Up() < i {
      var m := trip.common + (i - trip.Up() - 1);
      assert d[..m] + [d[m]] == d[..m + 1];
    } else if trip.common == |d| {
      assert c[..trip.common] == d[..trip.common];
    }
  }

  lemma TripStepOk<S>(sh: Shape<S>, trip: Trip<S>, i: nat, w: View<S>)
    requires Fits(sh, trip) && w.counts.Keys == sh.nodes && i < trip.Length()
    requires w.active == trip.ActiveAt(i) && w.current == trip.CurrentAt(i)
    ensures StepOk(sh, w, trip.NodeAt(i))
  {
    NodeOk(sh, trip, i);
    ActiveStep(trip, w, i);
  }

  /** The path `ns` consists of the steps of `trip`. */
  ghost predicate Follows<S>(trip: Trip<S>, ns: seq<Node<S>>) {
    trip.Valid() && |ns| == trip.Length() && forall j :: 0 <= j < |ns| ==> ns[j] == trip.NodeAt(j)
  }

  lemma {:induction false} TripActive<S>(trip: Trip<S>, v: View<S>, ns: seq<Node<S>>, i: nat)
    requires Follows(trip, ns) && AllIn(ns, v.counts.Keys) && i <= |ns|
    requires v.active == trip.from && v.current == trip.s
    ensures Applied(v, ns, i).active == trip.ActiveAt(i) && Applied(v, ns, i).current == trip.CurrentAt(i)
  {
    if i > 0 {
      TripActive(trip, v, ns, i - 1);
      var w := Applied(v, ns, i - 1);
      assert ns[i - 1] == trip.NodeAt(i - 1) && Applied(v, ns, i) == Apply(w, trip.NodeAt(i - 1));
      ActiveStep(trip, w, i - 1);
    }
  }

  lemma TripOk<S>(sh: Shape<S>, trip: Trip<S>, v: View<S>, ns: seq<Node<S>>, i: nat)
    requires Fits(sh, trip) && v.counts.Keys == sh.nodes && Follows(trip, ns) && AllIn(ns, v.counts.Keys) && i < |ns|
    requires v.active == trip.from && v.current == trip.s
    ensures StepOkAt(sh, v, ns, i)
  {
    TripActive(trip, v, ns, i);
    TripStepOk(sh, trip, i, Applied(v, ns, i));
  }

  lemma {:induction false} PathBalanced<S>(sh: Shape<S>, v: View<S>, ns: seq<Node<S>>, i: nat, x: S)
    requires sh.Valid() && v.counts.Keys == sh.nodes && AllIn(ns, v.counts.Keys) && PathOk(sh, v, ns) && i <= |ns|
    requires x in sh.nodes && BalancedAt(v, x)
    ensures BalancedAt(Applied(v, ns, i), x)
  {
    if i > 0 {
      PathBalanced(sh, v, ns, i - 1, x);
      PathStep(sh, v, ns, i - 1);
      StepBalanced(sh, Applied(v, ns, i - 1), ns[i - 1], x);
    }
  }

  /** The callbacks of the first `i` steps of a path. */
  ghost function EventsOf<S>(ns: seq<Node<S>>, i: nat): seq<Event<S>>
    requires i <= |ns|
  {
    if i == 0 then [] else EventsOf(ns, i - 1) + EventOf(ns[i - 1])
  }

  lemma {:induction false} PathTrace<S>(v: View<S>, ns: seq<Node<S>>, i: nat)
    requires AllIn(ns, v.counts.Keys) && i <= |ns|
    ensures Applied(v, ns, i).trace == v.trace + EventsOf(ns, i)
  {
    if i > 0 {
      PathTrace(v, ns, i - 1);
      Associative(v.trace, EventsOf(ns, i - 1), EventOf(ns[i - 1]));
    }
  }

  lemma Associative<T>(a: seq<T>, b: seq<T>, c: seq<T>)
    ensures a + b + c == a + (b + c)
  {
  }

  lemma {:induction false} TripTrace<S>(trip: Trip<S>, ns: seq<Node<S>>, i: nat)
    requires Follows(trip, ns) && i <= |ns|
    ensures EventsOf(ns, i) == TraceAt(trip, i)
  {
    if i > 0 {
      TripTrace(trip, ns, i - 1);
      TraceStep(trip, i - 1);
    }
  }

  /** `tran_to`. */
  ghost function Tran<S>(sh: Shape<S>, v: View<S>, k: int): (r: View<S>)
    requires Placed(sh, v)
    ensures Placed(sh, r)
  {
    if sh.key[v.current] == k || !sh.Has(sh.root, k) then v
    else
      RouteIsTrip(sh, v.current, k);
      Applied(v, Route(sh, v.current, k), |Route(sh, v.current, k)|)
  }

  lemma {:induction false} RouteOk<S>(sh: Shape<S>, v: View<S>, k: int)
    requires Settled(sh, v) && sh.Has(sh.root, k)
    ensures AllIn(Route(sh, v.current, k), v.counts.Keys)
    ensures PathOk(sh, v, Route(sh, v.current, k))
  {
    RouteIsTrip(sh, v.current, k);
    forall i: nat | i < |Route(sh, v.current, k)| ensures StepOkAt(sh, v, Route(sh, v.current, k), i) {
      TripOk(sh, TripTo(sh, v.current, k), v, Route(sh, v.current, k), i);
    }
  }

  /** The end of a trip that follows a route. */
  lemma TripEnds<S>(trip: Trip<S>, v: View<S>, ns: seq<Node<S>>)
    requires Follows(trip, ns) && AllIn(ns, v.counts.Keys) && v.active == trip.from && v.current == trip.s
    ensures var w := Applied(v, ns, |ns|);
            && w.current == trip.t && w.active == trip.to
            && w.trace == v.trace + (ExitEvents(trip.from, trip.common) + EnterEvents(trip.to, trip.common))
  {
    TripActive(trip, v, ns, |ns|);
    PathTrace(v, ns, |ns|);
    TripTrace(trip, ns, |ns|);
    assert trip.to[..|trip.to|] == trip.to;
  }

  /** A transition is all or nothing.  To a key in the tree it ends in a state with that key, having left,
      innermost first, and entered, outermost first, exactly the states off the common chain; to an absent
      key, or to the current state's own, it changes nothing.  Either way the machine is settled again. */
  lemma {:induction false} TranSettles<S>(sh: Shape<S>, v: View<S>, k: int)
    requires Settled(sh, v)
    ensures Settled(sh, Tran(sh, v, k))
    ensures sh.key[v.current] != k && sh.Has(sh.root, k) ==>
              var trip, w := TripTo(sh, v.current, k), Tran(sh, v, k);
              && trip.Valid() && sh.key[w.current] == k
              && w.current == Destination(sh, v.current, k)
              && w.trace == v.trace + (ExitEvents(trip.from, trip.common) + EnterEvents(trip.to, trip.common))
    ensures sh.key[v.current] == k || !sh.Has(sh.root, k) ==> Tran(sh, v, k) == v
  {
    if sh.key[v.current] != k && sh.Has(sh.root, k) {
      var ns := Route(sh, v.current, k);
      RouteIsTrip(sh, v.current, k);
      RouteOk(sh, v, k);
      TripEnds(TripTo(sh, v.current, k), v, ns);
      forall x | x in sh.nodes ensures BalancedAt(Tran(sh, v, k), x) {
        assert BalancedAt(v, x);
        PathBalanced(sh, v, ns, |ns|, x);
      }
    }
  }

  // ---------- keys that are unique ----------

  ghost predicate UniqueKeys<S>(sh: Shape<S>)
    requires sh.Valid()
  {
    forall x, y :: x in sh.nodes && y in sh.nodes && sh.key[x] == sh.key[y] ==> x == y
  }

  /** Going to `k` and back restores the current state and with it the whole chain of active states. */
  lemma {:induction false} ThereAndBack<S>(sh: Shape<S>, v: View<S>, k: int)
    requires Settled(sh, v) && UniqueKeys(sh)
    ensures Settled(sh, Tran(sh, v, k))
    ensures var back := Tran(sh, Tran(sh, v, k), sh.key[v.current]);
            back.current == v.current && back.active == v.active
  {
    TranSettles(sh, v, k);
    var there := Tran(sh, v, k);
    TranSettles(sh, there, sh.key[v.current]);
    sh.Ends(v.current);
    sh.HasBelow(sh.root, v.current);
  }

  /** With unique keys it does not matter from where a state is looked for. */
  lemma {:induction false} DestinationUnique<S>(sh: Shape<S>, s: S, t: S)
    requires sh.Valid() && s in sh.nodes && t in sh.nodes && UniqueKeys(sh)
    ensures sh.Has(sh.root, sh.key[t]) && Destination(sh, s, sh.key[t]) == t
  {
    sh.Ends(t);
    sh.HasBelow(sh.root, t);
  }

  // ---------- queued transitions, and execution ----------

  lemma StaysSettled<S>(sh: Shape<S>, v: View<S>, k: int)
    requires Settled(sh, v)
    ensures Settled(sh, Tran(sh, v, k))
  {
    TranSettles(sh, v, k);
  }

  /** `f` applied to the first `i` keys in turn. */
  ghost function Folded<V>(f: (V, int) -> V, v: V, ks: seq<int>, i: nat): V
    requires i <= |ks|
  {
    if i == 0 then v else f(Folded(f, v, ks, i - 1), ks[i - 1])
  }

  lemma {:induction false} FoldedSplit<V>(f: (V, int) -> V, v: V, a: seq<int>, b: seq<int>, i: nat)
    requires i <= |a + b|
    ensures Folded(f, v, a + b, i) ==
            if i <= |a| then Folded(f, v, a, i) else Folded(f, Folded(f, v, a, |a|), b, i - |a|)
  {
    if i > 0 { FoldedSplit(f, v, a, b, i - 1); }
  }

  lemma FoldedAll<V>(f: (V, int) -> V, v: V, a: seq<int>, b: seq<int>)
    ensures Folded(f, v, a + b, |a + b|) == Folded(f, Folded(f, v, a, |a|), b, |b|)
  {
    FoldedSplit(f, v, a, b, |a + b|);
  }

  ghost function Move<S>(sh: Shape<S>): (View<S>, int) -> View<S> {
    (v, k) => if Placed(sh, v) then Tran(sh, v, k) else v
  }

  lemma {:induction false} FoldedPlaced<S>(sh: Shape<S>, v: View<S>, ks: seq<int>, i: nat)
    requires Placed(sh, v) && i <= |ks|
    ensures Placed(sh, Folded(Move(sh), v, ks, i))
  {
    if i > 0 {
      FoldedPlaced(sh, v, ks, i - 1);
      MovePlaced(sh, Folded(Move(sh), v, ks, i - 1), ks[i - 1]);
    }
  }

  lemma MovePlaced<S>(sh: Shape<S>, v: View<S>, k: int)
    requires Placed(sh, v)
    ensures Placed(sh, Move(sh)(v, k)) && Move(sh)(v, k) == Tran(sh, v, k)
  {
  }

  /** The first `i` transitions of a list, in order. */
  ghost function TranFirst<S>(sh: Shape<S>, v: View<S>, ks: seq<int>, i: nat): (r: View<S>)
    requires Placed(sh, v) && i <= |ks|
    ensures Placed(sh, r)
  {
    FoldedPlaced(sh, v, ks, i);
    Folded(Move(sh), v, ks, i)
  }

  lemma TranFirstNext<S>(sh: Shape<S>, v: View<S>, ks: seq<int>, i: nat)
    requires Placed(sh, v) && i < |ks|
    ensures TranFirst(sh, v, ks, i + 1) == Tran(sh, TranFirst(sh, v, ks, i), ks[i])
  {
    MovePlaced(sh, TranFirst(sh, v, ks, i), ks[i]);
  }

  lemma {:induction false} TranFirstSettles<S>(sh: Shape<S>, v: View<S>, ks: seq<int>, i: nat)
    requires Settled(sh, v) && i <= |ks|
    ensures Settled(sh, TranFirst(sh, v, ks, i))
  {
    if i > 0 {
      TranFirstSettles(sh, v, ks, i - 1);
      StaysSettled(sh, TranFirst(sh, v, ks, i - 1), ks[i - 1]);
      TranFirstNext(sh, v, ks, i - 1);
    }
  }

  /** From `v` to `w` there were more callbacks, none of them the root's `on_exit`. */
  ghost predicate KeepsRoot<S>(sh: Shape<S>, v: View<S>, w: View<S>) {
    v.trace <= w.trace && Exited(sh.root) !in w.trace[|v.trace|..]
  }

  lemma TranKeepsRoot<S>(sh: Shape<S>, v: View<S>, k: int)
    requires Settled(sh, v)
    ensures KeepsRoot(sh, v, Tran(sh, v, k))
  {
    hide Tran, Balanced;
    TranSettles(sh, v, k);
    if sh.key[v.current] != k && sh.Has(sh.root, k) {
      var trip, w := TripTo(sh, v.current, k), Tran(sh, v, k);
      var exits, enters := ExitEvents(trip.from, trip.common), EnterEvents(trip.to, trip.common);
      assert w.trace[|v.trace|..] == exits + enters;
      ExitsBelowRoot(sh, v.current, trip.common);
    }
  }

  lemma ExitsBelowRoot<S>(sh: Shape<S>, s: S, n: nat)
    requires sh.Valid() && s in sh.nodes && 0 < n <= |sh.chain[s]|
    ensures Exited(sh.root) !in ExitEvents(sh.chain[s], n)
  {
    var exits := ExitEvents(sh.chain[s], n);
    forall j | 0 <= j < |exits| ensures exits[j] != Exited(sh.root) {
      sh.Prefix(s, |sh.chain[s]| - 1 - j);
    }
  }

  lemma KeepsRootJoin<S>(sh: Shape<S>, u: View<S>, v: View<S>, w: View<S>)
    requires KeepsRoot(sh, u, v) && KeepsRoot(sh, v, w)
    ensures KeepsRoot(sh, u, w)
  {
    assert w.trace[|u.trace|..] == v.trace[|u.trace|..] + w.trace[|v.trace|..];
  }

  /** No transition, and no sequence of transitions, ever exits the root. */
  lemma {:induction false} RootNeverExited<S>(sh: Shape<S>, v: View<S>, ks: seq<int>, i: nat)
    requires Settled(sh, v) && i <= |ks|
    ensures KeepsRoot(sh, v, TranFirst(sh, v, ks, i))
  {
    if i > 0 {
      var w := TranFirst(sh, v, ks, i - 1);
      RootNeverExited(sh, v, ks, i - 1);
      TranFirstSettles(sh, v, ks, i - 1);
      TranFirstNext(sh, v, ks, i - 1);
      TranKeepsRoot(sh, w, ks[i - 1]);
      KeepsRootJoin(sh, v, w, Tran(sh, w, ks[i - 1]));
    }
  }

  ghost predicate Ready<S>(v: View<S>) {
    forall s <- v.active :: s in v.counts
  }

  /** `state::execute` from position `i` of the active chain: the callback, then the active child, then the count. */
  ghost function ExecuteFrom<S>(v: View<S>, i: nat): (r: View<S>)
    requires i <= |v.active| && Ready(v)
    ensures r.counts.Keys == v.counts.Keys && r.active == v.active && r.current == v.current
    decreases |v.active| - i
  {
    if i == |v.active| then v
    else
      var s := v.active[i];
      var w := ExecuteFrom(v.(trace := v.trace + [Executed(s)]), i + 1);
      w.(counts := w.counts[s := Executing(w.counts[s])])
  }

  /** The callbacks of the active states from position `i` on, from the root down. */
  function ExecuteEvents<S>(active: seq<S>, i: nat): seq<Event<S>>
    requires i <= |active|
  {
    seq(|active| - i, j requires 0 <= j < |active| - i => Executed(active[i + j]))
  }

  lemma ExecuteEventsFirst<S>(active: seq<S>, i: nat)
    requires i < |active|
    ensures ExecuteEvents(active, i) == [Executed(active[i])] + ExecuteEvents(active, i + 1)
  {
  }

  ghost predicate DistinctStates<S>(c: seq<S>) {
    forall i, j :: 0 <= i < j < |c| ==> c[i] != c[j]
  }

  lemma FirstOfRest<S>(c: seq<S>, i: nat)
    requires i < |c| && DistinctStates(c)
    ensures c[i] !in c[i + 1..] && forall s :: s in c[i..] <==> s == c[i] || s in c[i + 1..]
  {
    assert c[i..] == [c[i]] + c[i + 1..];
  }

  lemma {:induction false} ExecuteTrace<S>(v: View<S>, i: nat)
    requires i <= |v.active| && Ready(v)
    ensures ExecuteFrom(v, i).trace == v.trace + ExecuteEvents(v.active, i)
    decreases |v.active| - i
  {
    if i < |v.active| {
      ExecuteTrace(v.(trace := v.trace + [Executed(v.active[i])]), i + 1);
      ExecuteEventsFirst(v.active, i);
      Associative(v.trace, [Executed(v.active[i])], ExecuteEvents(v.active, i + 1));
    }
  }

  lemma {:induction false} ExecuteCounts<S>(v: View<S>, i: nat, s: S)
    requires i <= |v.active| && Ready(v) && DistinctStates(v.active) && s in v.counts
    ensures var c := ExecuteFrom(v, i).counts[s];
            && c.enter == v.counts[s].enter && c.exit == v.counts[s].exit
            && c.execution ==
               if s in v.active[i..] then (v.counts[s].execution + 1) % 0x1_0000_0000 else v.counts[s].execution
    decreases |v.active| - i
  {
    if i < |v.active| {
      FirstOfRest(v.active, i);
      ExecuteCounts(v.(trace := v.trace + [Executed(v.active[i])]), i + 1, s);
    }
  }

  /** Execution calls back each active state once, from the root down, and counts each once, in a uint32_t;
      nothing else changes. */
  lemma ExecuteOnce<S>(v: View<S>, i: nat)
    requires i <= |v.active| && Ready(v) && DistinctStates(v.active)
    ensures var r := ExecuteFrom(v, i);
            && r.trace == v.trace + ExecuteEvents(v.active, i)
            && forall s <- v.counts ::
                 && r.counts[s].enter == v.counts[s].enter && r.counts[s].exit == v.counts[s].exit
                 && r.counts[s].execution ==
                    if s in v.active[i..] then (v.counts[s].execution + 1) % 0x1_0000_0000 else v.counts[s].execution
  {
    hide ExecuteFrom, ExecuteEvents;
    ExecuteTrace(v, i);
    var r := ExecuteFrom(v, i);
    forall s | s in v.counts
      ensures r.counts[s].enter == v.counts[s].enter && r.counts[s].exit == v.counts[s].exit
      ensures r.counts[s].execution ==
              if s in v.active[i..] then (v.counts[s].execution + 1) % 0x1_0000_0000 else v.counts[s].execution
    {
      ExecuteCounts(v, i, s);
    }
  }

  lemma ActiveDistinct<S>(sh: Shape<S>, v: View<S>)
    requires Settled(sh, v)
    ensures DistinctStates(v.active) && Ready(v)
  {
    var c := v.active;
    forall i | 0 <= i < |c| ensures c[i] in v.counts && |sh.chain[c[i]]| == i + 1 {
      sh.Prefix(v.current, i);
    }
  }

  lemma ExecuteBalanced<S>(v: View<S>)
    requires Ready(v) && DistinctStates(v.active) && Balanced(v)
    ensures Balanced(ExecuteFrom(v, 0))
  {
    hide ExecuteFrom, DistinctStates, Ready;
    var r := ExecuteFrom(v, 0);
    forall s | s in r.counts ensures BalancedAt(r, s) {
      assert BalancedAt(v, s);
      ExecuteCounts(v, 0, s);
      assert Net(r.counts[s]) == Net(v.counts[s]);
    }
  }

  lemma ExecuteSettles<S>(sh: Shape<S>, v: View<S>)
    requires Settled(sh, v)
    ensures DistinctStates(v.active) && Ready(v)
    ensures Settled(sh, ExecuteFrom(v, 0))
  {
    ActiveDistinct(sh, v);
    ExecuteBalanced(v);
  }

  /** `state_machine::execute` with the transitions `ks` queued: they take effect in order, exactly as if
      each had been made at once, and then the active states execute. */
  ghost function ExecuteAll<S>(sh: Shape<S>, v: View<S>, ks: seq<int>): (r: View<S>)
    requires Settled(sh, v)
    ensures Settled(sh, r)
  {
    var w := TranFirst(sh, v, ks, |ks|);
    TranFirstSettles(sh, v, ks, |ks|);
    ExecuteSettles(sh, w);
    ExecuteFrom(w, 0)
  }

  /** First the transitions `a`, then the transitions `b`. */
  lemma TranFirstSplit<S>(sh: Shape<S>, v: View<S>, a: seq<int>, b: seq<int>) returns (w: View<S>, x: View<S>)
    requires Placed(sh, v)
    ensures Placed(sh, w) && w == TranFirst(sh, v, a, |a|)
    ensures x == TranFirst(sh, v, a + b, |a + b|) == TranFirst(sh, w, b, |b|)
  {
    w, x := TranFirst(sh, v, a, |a|), TranFirst(sh, v, a + b, |a + b|);
    FoldedAll(Move(sh), v, a, b);
  }

  lemma ExecuteAllFrom<S>(sh: Shape<S>, v: View<S>, ks: seq<int>, w: View<S>)
    requires Settled(sh, v) && w == TranFirst(sh, v, ks, |ks|)
    ensures Settled(sh, w) && Ready(w) && ExecuteAll(sh, v, ks) == ExecuteFrom(w, 0)
  {
    TranFirstSettles(sh, v, ks, |ks|);
    ExecuteSettles(sh, w);
  }

  /** Queuing a list of transitions and executing ends exactly like making any first part of the list at once,
      in order, and executing with only the rest queued: the same states, counts and callbacks. */
  lemma QueuedAsImmediate<S>(sh: Shape<S>, v: View<S>, a: seq<int>, b: seq<int>) returns (w: View<S>)
    requires Settled(sh, v)
    ensures w == TranFirst(sh, v, a, |a|) && Settled(sh, w)
    ensures ExecuteAll(sh, v, a + b) == ExecuteAll(sh, w, b)
  {
    var x;
    w, x := TranFirstSplit(sh, v, a, b);
    ExecuteAllFrom(sh, v, a, w);
    ExecuteAllFrom(sh, v, a + b, x);
    ExecuteAllFrom(sh, w, b, x);
  }

  // ---------- the statistics count the callbacks ----------

  /** Counted up by `n` in a uint32_t. */
  predicate CountedUp(was: nat, now: nat, n: nat) {
    now == if n == 0 then was else (was + n) % 0x1_0000_0000
  }

  /** The statistics `d` of state `s` are `c` and the callbacks `events`, each counted where it belongs. */
  ghost predicate Tally<S>(c: Counts, d: Counts, s: S, events: multiset<Event<S>>) {
    && CountedUp(c.enter, d.enter, events[Entered(s)])
    && CountedUp(c.exit, d.exit, events[Exited(s)])
    && CountedUp(c.execution, d.execution, events[Executed(s)])
  }

  ghost predicate TalliedAt<S>(v: View<S>, w: View<S>, s: S)
    requires s in v.counts && s in w.counts && |v.trace| <= |w.trace|
  {
    Tally(v.counts[s], w.counts[s], s, multiset(w.trace[|v.trace|..]))
  }

  /** From `v` to `w` there were more callbacks, and the statistics of every state count its own. */
  ghost predicate Tallied<S>(v: View<S>, w: View<S>) {
    && v.trace <= w.trace && w.counts.Keys == v.counts.Keys
    && forall s {:trigger TalliedAt(v, w, s)} :: s in v.counts ==> TalliedAt(v, w, s)
  }

  lemma CountedUpJoin(a: nat, b: nat, c: nat, m: nat, n: nat)
    requires CountedUp(a, b, m) && CountedUp(b, c, n)
    ensures CountedUp(a, c, m + n)
  {
  }

  lemma TallyJoin<S>(c: Counts, d: Counts, e: Counts, s: S, x: multiset<Event<S>>, y: multiset<Event<S>>)
    requires Tally(c, d, s, x) && Tally(d, e, s, y)
    ensures Tally(c, e, s, x + y)
  {
    CountedUpJoin(c.enter, d.enter, e.enter, x[Entered(s)], y[Entered(s)]);
    CountedUpJoin(c.exit, d.exit, e.exit, x[Exited(s)], y[Exited(s)]);
    CountedUpJoin(c.execution, d.execution, e.execution, x[Executed(s)], y[Executed(s)]);
  }

  lemma TalliedSame<S>(v: View<S>)
    ensures Tallied(v, v)
  {
    forall s | s in v.counts ensures TalliedAt(v, v, s) { assert v.trace[|v.trace|..] == []; }
  }

  lemma TalliedJoin<S>(u: View<S>, v: View<S>, w: View<S>)
    requires Tallied(u, v) && Tallied(v, w)
    ensures Tallied(u, w)
  {
    var first, second := v.trace[|u.trace|..], w.trace[|v.trace|..];
    assert w.trace[|u.trace|..] == first + second;
    forall s | s in u.counts ensures TalliedAt(u, w, s) {
      assert TalliedAt(u, v, s) && TalliedAt(v, w, s);
      TallyJoin(u.counts[s], v.counts[s], w.counts[s], s, multiset(first), multiset(second));
    }
  }

  lemma ApplyTallied<S>(v: View<S>, n: Node<S>)
    requires n.state in v.counts
    ensures Tallied(v, Apply(v, n))
  {
    var w := Apply(v, n);
    assert w.trace[|v.trace|..] == EventOf(n);
    forall s | s in v.counts ensures TalliedAt(v, w, s) {}
  }

  lemma {:induction false} PathTallied<S>(v: View<S>, ns: seq<Node<S>>, i: nat)
    requires i <= |ns| && AllIn(ns, v.counts.Keys)
    ensures Tallied(v, Applied(v, ns, i))
  {
    if i == 0 {
      TalliedSame(v);
    } else {
      PathTallied(v, ns, i - 1);
      ApplyTallied(Applied(v, ns, i - 1), ns[i - 1]);
      TalliedJoin(v, Applied(v, ns, i - 1), Applied(v, ns, i));
    }
  }

  lemma TranTallied<S>(sh: Shape<S>, v: View<S>, k: int)
    requires Placed(sh, v)
    ensures Tallied(v, Tran(sh, v, k))
  {
    if sh.key[v.current] == k || !sh.Has(sh.root, k) {
      TalliedSame(v);
    } else {
      RouteIsTrip(sh, v.current, k);
      PathTallied(v, Route(sh, v.current, k), |Route(sh, v.current, k)|);
    }
  }

  lemma {:induction false} TranFirstTallied<S>(sh: Shape<S>, v: View<S>, ks: seq<int>, i: nat)
    requires Placed(sh, v) && i <= |ks|
    ensures Tallied(v, TranFirst(sh, v, ks, i))
  {
    if i == 0 {
      TalliedSame(v);
    } else {
      var w := TranFirst(sh, v, ks, i - 1);
      TranFirstTallied(sh, v, ks, i - 1);
      TranFirstNext(sh, v, ks, i - 1);
      TranTallied(sh, w, ks[i - 1]);
      TalliedJoin(v, w, TranFirst(sh, v, ks, i));
    }
  }

  /** The callback comes before the active child's execution, and the count after it. */
  lemma {:induction false} ExecuteTallied<S>(v: View<S>, i: nat)
    requires i <= |v.active| && Ready(v)
    ensures Tallied(v, ExecuteFrom(v, i))
    decreases |v.active| - i
  {
    if i == |v.active| {
      TalliedSame(v);
    } else {
      var x := v.active[i];
      var called := v.(trace := v.trace + [Executed(x)]);
      ExecuteTallied(called, i + 1);
      CountAfter(v, x, ExecuteFrom(called, i + 1), ExecuteFrom(v, i));
    }
  }

  lemma CountAfter<S>(v: View<S>, x: S, w: View<S>, r: View<S>)
    requires x in v.counts && Tallied(v.(trace := v.trace + [Executed(x)]), w)
    requires r == w.(counts := w.counts[x := Executing(w.counts[x])])
    ensures Tallied(v, r)
  {
    var called := v.(trace := v.trace + [Executed(x)]);
    var rest := w.trace[|called.trace|..];
    assert r.trace[|v.trace|..] == [Executed(x)] + rest;
    assert multiset(r.trace[|v.trace|..]) == multiset(rest) + multiset{Executed(x)};
    forall s | s in v.counts ensures TalliedAt(v, r, s) {
      assert TalliedAt(called, w, s);
      TallyJoin(v.counts[s], w.counts[s], r.counts[s], s, multiset(rest), multiset{Executed(x)});
    }
  }

  lemma ExecuteAllTallied<S>(sh: Shape<S>, v: View<S>, ks: seq<int>)
    requires Settled(sh, v)
    ensures Tallied(v, ExecuteAll(sh, v, ks))
  {
    var w := TranFirst(sh, v, ks, |ks|);
    ExecuteAllFrom(sh, v, ks, w);
    TranFirstTallied(sh, v, ks, |ks|);
    ExecuteTallied(w, 0);
    TalliedJoin(v, w, ExecuteAll(sh, v, ks));
  }

  /** What a user can ask of the machine: a transition at once, or an execution with transitions queued. */
  datatype Act = Go(k: int) | Execute(ks: seq<int>)

  ghost function Acted<S>(sh: Shape<S>, v: View<S>, act: Act): (r: View<S>)
    requires Settled(sh, v)
    ensures Settled(sh, r)
  {
    match act
    case Go(k) =>
      StaysSettled(sh, v, k);
      Tran(sh, v, k)
    case Execute(ks) =>
      ExecuteAll(sh, v, ks)
  }

  ghost predicate Reaches<S>(sh: Shape<S>, v: View<S>, acts: seq<Act>, w: View<S>)
    requires Settled(sh, v)
    decreases |acts|
  {
    if acts == [] then w == v else Reaches(sh, Acted(sh, v, acts[0]), acts[1..], w)
  }

  /** After any sequence of transitions and executions the machine is settled, and every state's enter, exit
      and execution counts are what they were plus the number of its own callbacks of that kind in between,
      modulo 2^32. */
  lemma {:induction false} CountsAreCallbacks<S>(sh: Shape<S>, v: View<S>, acts: seq<Act>, w: View<S>)
    requires Settled(sh, v) && Reaches(sh, v, acts, w)
    ensures Settled(sh, w) && Tallied(v, w)
    decreases |acts|
  {
    if acts == [] {
      TalliedSame(v);
    } else {
      var m := Acted(sh, v, acts[0]);
      match acts[0] {
        case Go(k) => TranTallied(sh, v, k);
        case Execute(ks) => ExecuteAllTallied(sh, v, ks);
      }
      CountsAreCallbacks(sh, m, acts[1..], w);
      TalliedJoin(v, m, w);
    }
  }
}

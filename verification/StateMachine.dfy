/** The hierarchical state machine of lax as heap objects: `state` and `state_machine`. */
module StateMachine {
  import opened Basics
  import opened StateShape
  import opened StatePaths
  import opened StateRuns
  import opened StateGrowth

  /** The callbacks made so far, in order: what the overridden `on_enter`, `on_execute` and `on_exit` see. */
  class Trace {
    var events: seq<Event<State>>

    constructor ()
      ensures events == []
    {
      events := [];
    }
  }

  /** Every state of `sh` has the children and the parent that `sh` gives it. */
  ghost predicate Formed(sh: Shape<State>, trace: Trace)
    reads sh.nodes`childs, sh.nodes`parent
  {
    sh.Valid() && forall s: State {:trigger FormedAt(sh, trace, s)} :: s in sh.nodes ==> FormedAt(sh, trace, s)
  }

  ghost predicate FormedAt(sh: Shape<State>, trace: Trace, s: State)
    requires sh.Valid() && s in sh.nodes
    reads s`childs, s`parent
  {
    && s.key == sh.key[s] && s.trace == trace && s.childs == sh.kids[s]
    && s.parent == if s == sh.root then null else sh.Parent(s)
  }

  class State {
    const key: int
    const trace: Trace
    var childs: seq<State>
    var parent: State?
    var active: bool
    var activeChild: State?
    var stats: Counts

    constructor (key: int, trace: Trace)
      ensures this.key == key && this.trace == trace
      ensures childs == [] && parent == null && !active && activeChild == null && stats == Counts(0, 0, 0)
    {
      this.key, this.trace := key, trace;
      childs, parent, active, activeChild, stats := [], null, false, null, Counts(0, 0, 0);
    }

    ghost function Now(): Fields
      reads this`active, this`activeChild, this`stats
    {
      Fields(active, activeChild, stats)
    }

    // ---------- callbacks: events seen by derived states ----------

    method OnEnter()
      modifies trace`events
      ensures trace.events == old(trace.events) + [Entered(this)]
    {
      trace.events := trace.events + [Entered(this)];
    }

    method OnExecute()
      modifies trace`events
      ensures trace.events == old(trace.events) + [Executed(this)]
    {
      trace.events := trace.events + [Executed(this)];
    }

    method OnExit()
      modifies trace`events
      ensures trace.events == old(trace.events) + [Exited(this)]
    {
      trace.events := trace.events + [Exited(this)];
    }

    // ---------- enter and exit ----------

    method Enter()
      requires parent != this
      modifies this`active, this`stats, trace`events
      modifies (if parent == null then {} else {parent})`activeChild
      ensures active && trace.events == old(trace.events) + [Entered(this)]
      ensures stats == old(stats).(enter := (old(stats).enter + 1) % 0x1_0000_0000)
      ensures parent != null ==> parent.activeChild == this
    {
      active := true;
      if parent != null {
        parent.activeChild := this;
      }
      stats := Entering(stats);
      OnEnter();
    }

    method Exit()
      requires parent != this
      modifies this`active, this`stats, trace`events
      modifies (if parent == null then {} else {parent})`activeChild
      ensures !active && trace.events == old(trace.events) + [Exited(this)]
      ensures stats == old(stats).(exit := (old(stats).exit + 1) % 0x1_0000_0000)
      ensures parent != null ==>
              parent.activeChild == if old(parent.activeChild) == this then null else old(parent.activeChild)
    {
      active := false;
      if parent != null {
        if parent.activeChild == this {
          parent.activeChild := null;
        }
      }
      OnExit();
      stats := Exiting(stats);
    }

    /** An active state, `i` places below the root: the callback, then the active child, then the count. */
    method Execute(ghost m: StateMachine, ghost sh: Shape<State>, ghost v: View<State>, ghost i: nat)
      requires m.trace == trace && m.Represents(sh, v) && Ready(v) && DistinctStates(v.active)
      requires v.current in sh.nodes && v.active == sh.chain[v.current]
      requires this in sh.nodes && (this in v.active ==> i < |v.active| && v.active[i] == this)
      modifies trace, sh.nodes`active, sh.nodes`activeChild, sh.nodes`stats
      ensures m.Represents(sh, if this in v.active then ExecuteFrom(v, i) else v)
      decreases |v.active| - i
    {
      hide DistinctStates, Shape.Depths, Shape.Links;
      assert FormedAt(sh, trace, this) && Shown(sh, v, this);
      if !active {
        return;
      }
      sh.Prefix(v.current, i);
      ghost var called := v.(trace := v.trace + [Executed(this)]);
      CallBack(m, sh, v);
      assert activeChild == if i + 1 < |v.active| then v.active[i + 1] else null;
      if activeChild != null {
        sh.Prefix(v.current, i + 1);
        assert FormedAt(sh, trace, activeChild);
        activeChild.Execute(m, sh, called, i + 1);
      }
      CountExecution(m, sh, ExecuteFrom(called, i + 1));
    }

    method CallBack(ghost m: StateMachine, ghost sh: Shape<State>, ghost v: View<State>)
      requires m.trace == trace && m.Represents(sh, v)
      modifies trace
      ensures m.Represents(sh, v.(trace := v.trace + [Executed(this)]))
    {
      OnExecute();
      ghost var w := v.(trace := v.trace + [Executed(this)]);
      forall s | s in sh.nodes ensures Shown(sh, w, s) {
        assert Shown(sh, v, s);
      }
    }

    method CountExecution(ghost m: StateMachine, ghost sh: Shape<State>, ghost v: View<State>)
      requires m.trace == trace && m.Represents(sh, v) && this in sh.nodes
      modifies this`stats
      ensures m.Represents(sh, v.(counts := v.counts[this := Executing(v.counts[this])]))
    {
      hide Shape.Depths, Shape.Links, Formed;
      stats := Executing(stats);
      ghost var w := v.(counts := v.counts[this := Executing(v.counts[this])]);
      forall s | s in sh.nodes ensures Shown(sh, w, s) {
        assert old(Shown(sh, v, s));
      }
    }

    /** std::map::insert of a key that is not there yet. */
    method Insert(c: State, ghost sh: Shape<State>)
      requires Formed(sh, trace) && CanAdd(sh, this, c, c.key)
      modifies this`childs
      ensures childs == Inserted(sh, sh.kids[this], c, c.key)
    {
      assert FormedAt(sh, trace, this);
      var i := 0;
      while i < |childs| && childs[i].key <= c.key
        invariant i <= |childs| && forall j :: 0 <= j < i ==> sh.key[childs[j]] <= c.key
      {
        assert FormedAt(sh, trace, childs[i]);
        i := i + 1;
      }
      assert i < |childs| ==> FormedAt(sh, trace, childs[i]);
      InsertedAt(sh, childs, c, c.key, i);
      childs := childs[..i] + [c] + childs[i..];
    }

    // ---------- has, find, and the transition path ----------

    method Has(k: int, ghost sh: Shape<State>) returns (r: bool)
      requires Formed(sh, trace) && this in sh.nodes
      ensures r == sh.Has(this, k)
      decreases sh.height - |sh.chain[this]|
    {
      assert FormedAt(sh, trace, this);
      if key == k {
        return true;
      }
      for i := 0 to |childs|
        invariant forall j :: 0 <= j < i ==> !sh.Has(childs[j], k)
      {
        assert FormedAt(sh, trace, childs[i]);
        var found := childs[i].Has(k, sh);
        if found {
          return true;
        }
      }
      return false;
    }

    method Find(k: int, ghost sh: Shape<State>) returns (r: State?)
      requires Formed(sh, trace) && this in sh.nodes
      ensures r == if sh.Has(this, k) then sh.Down(this, k) else null
      decreases sh.height - |sh.chain[this]|
    {
      assert FormedAt(sh, trace, this);
      if key == k {
        return this;
      }
      for i := 0 to |childs|
        invariant forall j :: 0 <= j < i ==> !sh.Has(childs[j], k)
      {
        assert FormedAt(sh, trace, childs[i]);
        var target := childs[i].Find(k, sh);
        if target != null {
          FirstChild(sh, this, i, k);
          return target;
        }
      }
      return null;
    }

    /** Up while the target is not below this state, then down. */
    method GetTransitionPath(k: int, path: seq<Node<State>>, ghost sh: Shape<State>, ghost act: seq<State>)
      returns (ok: bool, longer: seq<Node<State>>)
      requires Formed(sh, trace) && this in sh.nodes && forall s <- sh.nodes :: s.active <==> s in act
      ensures match sh.Path(act, this, k)
              case Some(p) => ok && longer == path + p
              case None => !ok
      decreases if sh.Has(this, k) then 0 else 1,
                if sh.Has(this, k) then sh.height - |sh.chain[this]| else |sh.chain[this]|,
                1
    {
      assert FormedAt(sh, trace, this);
      var here := Has(k, sh);
      if here {
        if k == key {
          var n := Node(if active then Noop else Target, this);
          return true, path + [n];
        } else {
          var n := Node(if active then Noop else Code.Enter, this);
          ok, longer := GetChildPath(k, path + [n], sh, act);
          if ok { Associative(path, [n], sh.Path(act, sh.kids[this][sh.ChildWith(this, 0, k)], k).value); }
        }
      } else if parent != null {
        var n := Node(Code.Exit, this);
        assert FormedAt(sh, trace, parent);
        ok, longer := parent.GetTransitionPath(k, path + [n], sh, act);
        if ok { Associative(path, [n], sh.Path(act, parent, k).value); }
      } else {
        return false, path;
      }
    }

    method GetChildPath(k: int, path: seq<Node<State>>, ghost sh: Shape<State>, ghost act: seq<State>)
      returns (ok: bool, longer: seq<Node<State>>)
      requires Formed(sh, trace) && this in sh.nodes && forall s <- sh.nodes :: s.active <==> s in act
      ensures var i := sh.ChildWith(this, 0, k);
              match if i < |sh.kids[this]| then sh.Path(act, sh.kids[this][i], k) else None
              case Some(p) => ok && longer == path + p
              case None => !ok
      decreases 0, sh.height - |sh.chain[this]|, 0
    {
      assert FormedAt(sh, trace, this);
      for i := 0 to |childs|
        invariant forall j :: 0 <= j < i ==> !sh.Has(childs[j], k)
      {
        var s := childs[i];
        assert FormedAt(sh, trace, s);
        var found := s.Has(k, sh);
        if found {
          FirstChild(sh, this, i, k);
          ok, longer := s.GetTransitionPath(k, path, sh, act);
          return;
        }
      }
      NoChild(sh, this, 0, k);
      return false, path;
    }
  }

  lemma {:induction false} NoChild(sh: Shape<State>, s: State, j: nat, k: int)
    requires sh.Valid() && s in sh.nodes && j <= |sh.kids[s]|
    requires forall l :: j <= l < |sh.kids[s]| ==> !sh.Has(sh.kids[s][l], k)
    ensures sh.ChildWith(s, j, k) == |sh.kids[s]|
    decreases |sh.kids[s]| - j
  {
    if j < |sh.kids[s]| { NoChild(sh, s, j + 1, k); }
  }

  lemma {:induction false} InsertedAt(sh: Shape<State>, ks: seq<State>, c: State, k: int, i: nat)
    requires (forall x <- ks :: x in sh.key) && i <= |ks|
    requires (forall j :: 0 <= j < i ==> sh.key[ks[j]] <= k) && (i < |ks| ==> k < sh.key[ks[i]])
    ensures Inserted(sh, ks, c, k) == ks[..i] + [c] + ks[i..]
  {
    if i > 0 {
      InsertedAt(sh, ks[1..], c, k, i - 1);
      Spliced(ks, c, i);
    }
  }

  lemma Spliced<T>(ks: seq<T>, c: T, i: nat)
    requires 0 < i <= |ks|
    ensures [ks[0]] + (ks[1..][..i - 1] + [c] + ks[1..][i - 1..]) == ks[..i] + [c] + ks[i..]
  {
    assert ks[..i] == [ks[0]] + ks[1..][..i - 1] && ks[1..][i - 1..] == ks[i..];
  }

  lemma {:induction false} FirstChildFrom(sh: Shape<State>, s: State, j: nat, i: nat, k: int)
    requires sh.Valid() && s in sh.nodes && j <= i < |sh.kids[s]|
    requires sh.Has(sh.kids[s][i], k) && forall l :: j <= l < i ==> !sh.Has(sh.kids[s][l], k)
    ensures sh.ChildWith(s, j, k) == i
    decreases i - j
  {
    if j < i { FirstChildFrom(sh, s, j + 1, i, k); }
  }

  lemma FirstChild(sh: Shape<State>, s: State, i: nat, k: int)
    requires sh.Valid() && s in sh.nodes && i < |sh.kids[s]|
    requires sh.Has(sh.kids[s][i], k) && forall l :: 0 <= l < i ==> !sh.Has(sh.kids[s][l], k)
    ensures sh.ChildWith(s, 0, k) == i
  {
    FirstChildFrom(sh, s, 0, i, k);
  }

  /** The next active state below `s`, if `s` is active and not the innermost one. */
  ghost function ActiveBelow(sh: Shape<State>, act: seq<State>, s: State): State?
    requires s in sh.chain
  {
    if s in act && |sh.chain[s]| < |act| then act[|sh.chain[s]|] else null
  }

  /** The fields of a state that transitions change. */
  datatype Fields = Fields(active: bool, activeChild: State?, stats: Counts)

  ghost function FieldsIn(sh: Shape<State>, v: View<State>, s: State): Fields
    requires s in sh.chain && s in v.counts
  {
    Fields(s in v.active, ActiveBelow(sh, v.active, s), v.counts[s])
  }

  ghost predicate Shown(sh: Shape<State>, v: View<State>, s: State)
    requires s in sh.chain && s in v.counts
    reads s`active, s`activeChild, s`stats
  {
    s.Now() == FieldsIn(sh, v, s)
  }

  /** What a step does to the fields of `x`. */
  ghost function StepFields(sh: Shape<State>, n: Node<State>, x: State, f: Fields): Fields
    requires sh.Valid() && n.state in sh.nodes
  {
    if n.code.Noop? then f
    else if x == n.state then f.(active := !n.code.Exit?, stats := Counted(f.stats, n.code))
    else if n.state != sh.root && x == sh.Parent(n.state) then f.(activeChild := if n.code.Exit? then null else n.state)
    else f
  }

  /** Adding `s` to the active chain of its parent, or removing it, changes what is below the parent only. */
  lemma ActiveBelowLast(sh: Shape<State>, s: State, x: State)
    requires sh.Valid() && s in sh.nodes && x in sh.nodes
    ensures var c := sh.chain[s];
            var shorter := c[..|c| - 1];
            if 1 < |c| && x == sh.Parent(s) then ActiveBelow(sh, c, x) == s && ActiveBelow(sh, shorter, x) == null
            else ActiveBelow(sh, c, x) == ActiveBelow(sh, shorter, x)
  {
    var c := sh.chain[s];
    sh.Ends(s);
    if x in c {
      var i :| 0 <= i < |c| && c[i] == x;
      sh.Prefix(s, i);
      if 1 < |c| { sh.Prefix(s, |c| - 2); }
    }
  }

  /** Entering or leaving a state changes the active child of its parent only. */
  lemma ActiveBelowStep(sh: Shape<State>, v: View<State>, n: Node<State>, x: State)
    requires sh.Valid() && v.counts.Keys == sh.nodes && StepOk(sh, v, n) && x in sh.nodes
    ensures ActiveBelow(sh, Apply(v, n).active, x) ==
            if 1 < |sh.chain[n.state]| && x == sh.Parent(n.state) && !n.code.Noop?
            then (if n.code.Exit? then null else n.state)
            else ActiveBelow(sh, v.active, x)
    ensures 1 < |sh.chain[n.state]| && x == sh.Parent(n.state) && n.code.Exit? ==>
            ActiveBelow(sh, v.active, x) == n.state
  {
    var c := sh.chain[n.state];
    ActiveBelowLast(sh, n.state, x);
    if n.code.Enter? || n.code.Target? {
      assert v.active == c[..|c| - 1];
    }
  }

  lemma FieldsStep(sh: Shape<State>, v: View<State>, n: Node<State>, x: State)
    requires sh.Valid() && v.counts.Keys == sh.nodes && StepOk(sh, v, n) && x in sh.nodes
    ensures FieldsIn(sh, Apply(v, n), x) == StepFields(sh, n, x, FieldsIn(sh, v, x))
  {
    ActiveBelowStep(sh, v, n, x);
    ActiveAfter(sh, v, n, x);
    if n.state != sh.root {
      sh.ParentLink(n.state);
    }
  }

  /** In a grown hierarchy every old state has the parent and the active child it had; the new one has none active. */
  lemma AddedFields(sh: Shape<State>, v: View<State>, p: State, c: State, x: State)
    requires CanAdd(sh, p, c, c.key) && Settled(sh, v) && x in sh.nodes + {c}
    ensures var g := Added(sh, p, c, c.key);
            && x in g.chain && c !in v.active
            && (x != c ==> ActiveBelow(g, v.active, x) == ActiveBelow(sh, v.active, x))
            && (x != sh.root ==> 1 < |g.chain[x]| && g.Parent(x) == if x == c then p else sh.Parent(x))
  {
    if x != sh.root { AddedParent(sh, p, c, c.key, x); }
    if c in v.active {
      var i :| 0 <= i < |v.active| && v.active[i] == c;
      sh.Prefix(v.current, i);
    }
  }

  /** The states of `sh` are linked as it says, and they and the trace hold what `v` says. */
  ghost predicate StatesShow(sh: Shape<State>, v: View<State>, trace: Trace)
    reads trace, sh.nodes
  {
    Formed(sh, trace) && AllShown(sh, v) && trace.events == v.trace
  }

  ghost predicate AllShown(sh: Shape<State>, v: View<State>)
    reads sh.nodes`active, sh.nodes`activeChild, sh.nodes`stats
  {
    sh.chain.Keys == v.counts.Keys == sh.nodes && forall s: State {:trigger Shown(sh, v, s)} :: s in sh.nodes ==>
        Shown(sh, v, s)
  }

  class StateMachine {
    const trace: Trace
    var root: State
    var current: State
    var q: seq<int>

    ghost var shape: Shape<State>
    ghost var view: View<State>

    /** The objects form the hierarchy `sh`, and their fields hold what `v` says. */
    ghost predicate Represents(sh: Shape<State>, v: View<State>)
      reads this, trace, sh.nodes
    {
      root == sh.root && current == v.current && StatesShow(sh, v, trace)
    }

    ghost predicate Valid()
      reads this, trace, shape.nodes
    {
      Represents(shape, view) && Settled(shape, view)
    }

    constructor ()
      ensures Valid() && fresh(trace) && fresh(shape.nodes) && q == []
      ensures shape.nodes == {root} && root.key == 0 && current == root && trace.events == [Entered(root)]
    {
      var t := new Trace();
      var r := new State(0, t);
      trace, root, current, q := t, r, r, [];
      shape := RootShape(r);
      view := RootView(r);
      new;
      r.Enter();
      RootSettled(r);
    }

    /** One case of the switch in `tran_to`. */
    method Switch(n: Node<State>, ghost sh: Shape<State>)
      requires Formed(sh, trace) && n.state in sh.nodes
      requires n.code.Exit? && n.state != sh.root ==> sh.Parent(n.state).activeChild == n.state
      modifies this`current, trace, sh.nodes`active, sh.nodes`activeChild, sh.nodes`stats
      ensures forall x <- sh.nodes :: x.Now() == StepFields(sh, n, x, old(x.Now()))
      ensures current == if n.code.Target? || n.code.Noop? then n.state else old(current)
      ensures trace.events == old(trace.events) + EventOf(n)
    {
      match n.code {
        case Enter =>
          EnterState(n, sh);
        case Target =>
          EnterState(n, sh);
          current := n.state;
        case Exit =>
          ExitState(n, sh);
        case Noop =>
          current := n.state;
      }
    }

    method EnterState(n: Node<State>, ghost sh: Shape<State>)
      requires Formed(sh, trace) && n.state in sh.nodes && (n.code.Enter? || n.code.Target?)
      modifies trace, sh.nodes`active, sh.nodes`activeChild, sh.nodes`stats
      ensures forall x <- sh.nodes :: x.Now() == StepFields(sh, n, x, old(x.Now()))
      ensures trace.events == old(trace.events) + EventOf(n)
    {
      assert FormedAt(sh, trace, n.state);
      if n.state != sh.root {
        sh.ParentLink(n.state);
      }
      n.state.Enter();
    }

    method ExitState(n: Node<State>, ghost sh: Shape<State>)
      requires Formed(sh, trace) && n.state in sh.nodes && n.code.Exit?
      requires n.state != sh.root ==> sh.Parent(n.state).activeChild == n.state
      modifies trace, sh.nodes`active, sh.nodes`activeChild, sh.nodes`stats
      ensures forall x <- sh.nodes :: x.Now() == StepFields(sh, n, x, old(x.Now()))
      ensures trace.events == old(trace.events) + EventOf(n)
    {
      assert FormedAt(sh, trace, n.state);
      if n.state != sh.root {
        sh.ParentLink(n.state);
      }
      n.state.Exit();
    }

    method Step(n: Node<State>, ghost sh: Shape<State>, ghost v: View<State>)
      requires Represents(sh, v) && StepOk(sh, v, n)
      modifies this`current, trace, sh.nodes`active, sh.nodes`activeChild, sh.nodes`stats
      ensures Represents(sh, Apply(v, n))
    {
      ParentShows(sh, v, n);
      Switch(n, sh);
      forall x | x in sh.nodes ensures Shown(sh, Apply(v, n), x) {
        assert old(Shown(sh, v, x));
        FieldsStep(sh, v, n, x);
      }
    }

    lemma ParentShows(sh: Shape<State>, v: View<State>, n: Node<State>)
      requires Represents(sh, v) && StepOk(sh, v, n)
      ensures n.code.Exit? && n.state != sh.root ==>
                1 < |sh.chain[n.state]| && sh.Parent(n.state) in sh.nodes && sh.Parent(n.state).activeChild == n.state
    {
      if n.code.Exit? {
        sh.ParentLink(n.state);
        assert Shown(sh, v, sh.Parent(n.state));
        ActiveBelowStep(sh, v, n, sh.Parent(n.state));
      }
    }

    method TranTo(k: int, ghost sh: Shape<State>, ghost v: View<State>)
      requires Represents(sh, v) && Settled(sh, v)
      modifies this`current, trace, sh.nodes`active, sh.nodes`activeChild, sh.nodes`stats
      ensures Represents(sh, StateRuns.Tran(sh, v, k))
    {
      assert FormedAt(sh, trace, current);
      if current.key == k {
        return;
      }
      forall s | s in sh.nodes ensures s.active <==> s in v.active {
        assert Shown(sh, v, s);
      }
      var ok, path := current.GetTransitionPath(k, [], sh, v.active);
      PathIsRoute(sh, v.current, k);
      if ok {
        RouteOk(sh, v, k);
        assert path == Route(sh, v.current, k);
        RunPath(path, sh, v);
        assert StateRuns.Tran(sh, v, k) == Applied(v, path, |path|);
      }
    }

    /** The loop of `tran_to`. */
    method RunPath(path: seq<Node<State>>, ghost sh: Shape<State>, ghost v: View<State>)
      requires Represents(sh, v) && AllIn(path, v.counts.Keys) && PathOk(sh, v, path)
      modifies this`current, trace, sh.nodes`active, sh.nodes`activeChild, sh.nodes`stats
      ensures Represents(sh, Applied(v, path, |path|))
    {
      for i := 0 to |path|
        invariant Represents(sh, Applied(v, path, i))
      {
        PathStep(sh, v, path, i);
        Step(path[i], sh, Applied(v, path, i));
      }
    }

    method ProcessTransitions(ghost sh: Shape<State>, ghost v: View<State>)
      requires Represents(sh, v) && Settled(sh, v)
      modifies this`q, this`current, trace, sh.nodes`active, sh.nodes`activeChild, sh.nodes`stats
      ensures q == [] && Represents(sh, TranFirst(sh, v, old(q), |old(q)|))
    {
      ghost var ks, n := q, 0;
      while q != []
        invariant n <= |ks| && q == ks[n..] && Represents(sh, TranFirst(sh, v, ks, n))
        decreases |q|
      {
        ghost var w := TranFirst(sh, v, ks, n);
        TranFirstSettles(sh, v, ks, n);
        TranFirstNext(sh, v, ks, n);
        ProcessFront(sh, w);
        n := n + 1;
        assert Represents(sh, StateRuns.Tran(sh, w, ks[n - 1]));
        assert Represents(sh, TranFirst(sh, v, ks, n));
      }
      assert n == |ks|;
    }

    method ProcessFront(ghost sh: Shape<State>, ghost v: View<State>)
      requires q != [] && Represents(sh, v) && Settled(sh, v)
      modifies this`q, this`current, trace, sh.nodes`active, sh.nodes`activeChild, sh.nodes`stats
      ensures q == old(q)[1..] && Represents(sh, StateRuns.Tran(sh, v, old(q)[0]))
    {
      TranTo(q[0], sh, v);
      q := q[1..];
    }

    method Find(k: int) returns (r: State?)
      requires Valid()
      ensures r == if shape.Has(shape.root, k) then shape.Down(shape.root, k) else null
    {
      assert FormedAt(shape, trace, root);
      r := root.Find(k, shape);
    }

    /** `add` of a new state below the state with key `parentKey`; nothing happens when there is none, or
        when the child's key is already in use at or below it. */
    method Add(parentKey: int, child: State)
      requires Valid() && child !in shape.nodes && child.trace == trace
      requires child.parent == null && child.childs == [] && !child.active && child.activeChild == null
               && Net(child.stats) == 0
      modifies this`shape, this`view, child, shape.nodes
      ensures Valid()
      ensures var sh := old(shape);
              if sh.Has(sh.root, parentKey) && !sh.Has(sh.Down(sh.root, parentKey), child.key)
              then CanAdd(sh, sh.Down(sh.root, parentKey), child, child.key)
                   && shape == Added(sh, sh.Down(sh.root, parentKey), child, child.key)
                   && view == old(view).(counts := old(view).counts[child := child.stats])
              else shape == sh && view == old(view)
    {
      hide Settled, Added, Shape.Depths, Shape.Links, Shape.Linked, Shape.Has, Shape.Down;
      var target := Find(parentKey);
      if target != null {
        assert FormedAt(shape, trace, target);
        var known := target.Has(child.key, shape);
        if !known {
          ghost var sh, v := shape, view;
          AddBelow(target, child, sh, v);
          AddedSettles(sh, v, target, child, child.key, child.stats);
          Grow(Added(sh, target, child, child.key), v.(counts := v.counts[child := child.stats]));
        }
      }
    }

    ghost method Grow(g: Shape<State>, w: View<State>)
      requires Represents(g, w) && Settled(g, w)
      modifies this`shape, this`view
      ensures Valid() && shape == g && view == w
    {
      shape, view := g, w;
    }

    method AddBelow(p: State, c: State, ghost sh: Shape<State>, ghost v: View<State>)
      requires Represents(sh, v) && CanAdd(sh, p, c, c.key) && c.trace == trace && Settled(sh, v)
      requires c.parent == null && c.childs == [] && !c.active && c.activeChild == null
      modifies c`parent, p`childs
      ensures Represents(Added(sh, p, c, c.key), v.(counts := v.counts[c := c.stats]))
    {
      AddedShown(sh, v, p, c);
      ghost var g, w := Added(sh, p, c, c.key), v.(counts := v.counts[c := c.stats]);
      assert AllShown(g, w) && g.root == sh.root && w.trace == v.trace;
      Attach(p, c, sh);
      assert AllShown(g, w) && Formed(g, trace);
    }

    /** `state::add`. */
    method Attach(p: State, c: State, ghost sh: Shape<State>)
      requires Formed(sh, trace) && CanAdd(sh, p, c, c.key) && c.trace == trace && c.childs == []
      modifies c`parent, p`childs
      ensures Formed(Added(sh, p, c, c.key), trace)
    {
      assert FormedAt(sh, trace, p);
      p.Insert(c, sh);
      c.parent := p;
      AddedValid(sh, p, c, c.key);
      forall x | x in sh.nodes + {c} ensures FormedAt(Added(sh, p, c, c.key), trace, x) {
        assert x != c ==> old(FormedAt(sh, trace, x));
        if x != sh.root { AddedParent(sh, p, c, c.key, x); }
      }
    }

    lemma AddedShown(sh: Shape<State>, v: View<State>, p: State, c: State)
      requires CanAdd(sh, p, c, c.key) && Settled(sh, v)
      requires AllShown(sh, v)
      requires !c.active && c.activeChild == null
      ensures AllShown(Added(sh, p, c, c.key), v.(counts := v.counts[c := c.stats]))
    {
      assert sh.chain.Keys == sh.nodes;
      forall x | x in sh.nodes + {c} ensures Shown(Added(sh, p, c, c.key), v.(counts := v.counts[c := c.stats]), x) {
        assert x != c ==> Shown(sh, v, x);
        AddedFields(sh, v, p, c, x);
      }
    }

    /** `tran`; a safe transition waits for `execute`. */
    method Tran(k: int, immediate: bool)
      requires Valid()
      modifies this`q, this`current, this`view, trace, shape.nodes`active, shape.nodes`activeChild, shape.nodes`stats
      ensures Valid()
      ensures immediate ==> q == old(q) && view == StateRuns.Tran(shape, old(view), k)
      ensures !immediate ==> q == old(q) + [k] && view == old(view)
      ensures Tallied(old(view), view)
    {
      hide Balanced, StatesShow, StateRuns.Tran, Tallied;
      TalliedSame(view);
      if immediate {
        TranTo(k, shape, view);
        StaysSettled(shape, view, k);
        TranTallied(shape, view, k);
        Record(StateRuns.Tran(shape, view, k));
      } else {
        q := q + [k];
      }
    }

    /** `execute`: the queued transitions in order, then the active states from the root down. */
    method Execute()
      requires Valid()
      modifies this`q, this`current, this`view, trace, shape.nodes`active, shape.nodes`activeChild, shape.nodes`stats
      ensures Valid() && q == [] && view == ExecuteAll(shape, old(view), old(q))
      ensures Tallied(old(view), view)
    {
      hide TranFirst, ExecuteAll, ExecuteFrom, Settled, StatesShow, Tallied;
      ghost var v, w := Planned();
      ProcessTransitions(shape, view);
      ExecuteActive(shape, v);
      Record(w);
    }

    /** The machine after the queued transitions, and after execution. */
    lemma Planned() returns (v: View<State>, w: View<State>)
      requires Valid()
      ensures v == TranFirst(shape, view, q, |q|) && Settled(shape, v)
      ensures w == ExecuteAll(shape, view, q) && Settled(shape, w) && Ready(v) && w == ExecuteFrom(v, 0)
      ensures Tallied(view, w)
    {
      v, w := TranFirst(shape, view, q, |q|), ExecuteAll(shape, view, q);
      TranFirstSettles(shape, view, q, |q|);
      ExecuteSettles(shape, v);
      ExecuteAllTallied(shape, view, q);
    }

    ghost method Record(v: View<State>)
      requires Represents(shape, v)
      modifies this`view
      ensures Represents(shape, view) && view == v
    {
      view := v;
    }

    method ExecuteActive(ghost sh: Shape<State>, ghost v: View<State>)
      requires Represents(sh, v) && Settled(sh, v)
      modifies trace, sh.nodes`active, sh.nodes`activeChild, sh.nodes`stats
      ensures Ready(v) && Represents(sh, ExecuteFrom(v, 0))
    {
      ExecuteSettles(sh, v);
      sh.Ends(v.current);
      assert FormedAt(sh, trace, root);
      root.Execute(this, sh, v, 0);
    }
  }
}

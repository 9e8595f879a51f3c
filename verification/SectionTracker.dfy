/** Catch's trackers as heap objects: `TrackerContext`, `TrackerBase` with `SectionTracker`, and the part
    of `RunContext` that opens and closes them. */
module SectionTracker {
  import opened Basics
  import opened SectionTree
  import opened SectionRuns

  datatype RunState = NotRunning | Running | CompletedCycle

  class TrackerContext {
    var root: Tracker?
    var current: Tracker?
    var runState: RunState
    /** Set where the source raises CATCH_INTERNAL_ERROR. */
    var internalError: bool

    constructor ()
      ensures root == null && current == null && runState == NotRunning && !internalError
    {
      root, current, runState, internalError := null, null, NotRunning, false;
    }

    method StartRun() returns (r: Tracker)
      modifies this
      ensures root == r && current == null && runState == Running && internalError == old(internalError)
      ensures fresh(r) && r.Valid() && r.Repr == {r} && r.ctx == this && r.parent == null && r.Abs() == Fresh("{root}")
    {
      r := new Tracker("{root}", this, null);
      root, current, runState := r, null, Running;
    }

    method StartCycle()
      modifies this`current, this`runState
      ensures current == root && runState == Running
    {
      current, runState := root, Running;
    }

    method CompleteCycle()
      modifies this`runState
      ensures runState == CompletedCycle
    {
      runState := CompletedCycle;
    }
  }

  class Tracker {
    const name: string
    const ctx: TrackerContext
    const parent: Tracker?
    var runState: CycleState
    var children: seq<Tracker>

    ghost const depth: nat
    ghost var Repr: set<Tracker>

    /** The parent chain ends at a root; it never changes. */
    ghost predicate Rooted()
      decreases depth
    {
      if parent == null then depth == 0 else depth == parent.depth + 1 && parent.ctx == ctx && parent.Rooted()
    }

    ghost function Ancestors(): (r: set<Tracker>)
      requires Rooted()
      ensures forall t <- r :: t == this || t.depth < depth
      decreases depth
    {
      {this} + if parent == null then {} else parent.Ancestors()
    }

    lemma {:induction false} AncestorsAllocated()
      requires Rooted()
      ensures forall t <- Ancestors() :: allocated(t)
      decreases depth
    {
      if parent != null { parent.AncestorsAllocated(); }
    }

    /** The trackers entered from the test case down to this one, without the root and the test case. */
    ghost function SectionChain(): seq<Tracker>
      requires Rooted()
      decreases depth
    {
      if depth <= 1 then [] else parent.SectionChain() + [this]
    }

    ghost predicate Valid()
      reads this, Repr
      decreases Repr
    {
      && this in Repr
      && Rooted()
      && (forall t <- Repr :: depth <= t.depth)
      && (forall c <- children ::
            c in Repr && c.Repr < Repr && this !in c.Repr && c.parent == this && c.ctx == ctx && c.Valid())
      && (forall i, j :: 0 <= i < j < |children| ==> children[i].Repr !! children[j].Repr)
    }

    ghost function Abs(): Tree
      requires Valid()
      reads this, Repr
      decreases Repr
    {
      Tree(name, runState, Kids())
    }

    ghost function Kids(): (r: seq<Tree>)
      requires Valid()
      ensures |r| == |children|
      ensures forall i :: 0 <= i < |children| ==> r[i] == children[i].Abs()
      reads this, Repr
      decreases Repr, 0
    {
      seq(|children|, i requires 0 <= i < |children| && Valid() reads this, Repr => children[i].Abs())
    }

    constructor (name: string, ctx: TrackerContext, parent: Tracker?)
      requires parent != null ==> parent.Rooted() && parent.ctx == ctx
      ensures this.name == name && this.ctx == ctx && this.parent == parent
      ensures Valid() && Repr == {this} && Abs() == Fresh(name)
    {
      this.name, this.ctx, this.parent := name, ctx, parent;
      runState, children := NotStarted, [];
      depth := if parent == null then 0 else parent.depth + 1;
      Repr := {this};
    }

    method FindChild(name: string) returns (c: Tracker?)
      requires Valid()
      ensures var k := IndexOf(Kids(), name); c == if k < |children| then children[k] else null
    {
      for i := 0 to |children|
        invariant forall j :: 0 <= j < i ==> children[j].name != name
      {
        if children[i].name == name {
          return children[i];
        }
      }
      return null;
    }

    /** The run of trackers, from this one up, that are not yet in ExecutingChildren. */
    ghost function Unmarked(): (r: set<Tracker>)
      requires Rooted()
      ensures r <= Ancestors()
      reads Ancestors()`runState
      decreases depth
    {
      if runState == ExecutingChildren then {}
      else {this} + if parent == null then {} else parent.Unmarked()
    }

    lemma TopUnmarked()
      requires Rooted() && parent == null
      ensures Unmarked() <= {this}
    {
    }

    lemma TopChain()
      requires Rooted() && parent != null && parent.parent == null
      ensures depth == 1 && SectionChain() == []
    {
    }

    method OpenChild()
      requires Rooted()
      modifies Unmarked()`runState
      ensures forall t <- old(Unmarked()) :: t.runState == ExecutingChildren
      decreases depth
    {
      if runState != ExecutingChildren {
        runState := ExecutingChildren;
        if parent != null {
          parent.OpenChild();
        }
      }
    }

    /** The trackers whose state `open` writes. */
    ghost function Reopened(): set<Tracker>
      requires Rooted()
      reads Ancestors()`runState
    {
      {this} + if parent == null then {} else parent.Unmarked()
    }

    method Open()
      requires Valid()
      modifies Reopened()`runState, ctx`current
      ensures runState == Executing && ctx.current == this
      ensures Valid() && Kids() == old(Kids())
      ensures parent != null ==> forall t <- old(parent.Unmarked()) :: t.runState == ExecutingChildren
    {
      AncestorsAllocated();
      runState := Executing;
      label marked:
      MoveToThis();
      assert forall a <- Ancestors() :: a.runState == old@marked(a.runState);
      if parent != null {
        parent.OpenChild();
      }
      StateChanged();
    }

    method MoveToThis()
      modifies ctx`current
      ensures ctx.current == this
    {
      ctx.current := this;
    }

    method MoveToParent()
      modifies ctx`current
      ensures ctx.current == parent
    {
      ctx.current := parent;
    }

    /** The first half of Catch's `acquire`: find the tracker of a section below this one, or add it. */
    method FindOrAdd(name: string) returns (s: Tracker)
      requires Valid()
      modifies this`children, this`Repr
      ensures Valid() && fresh(Repr - old(Repr)) && runState == old(runState)
      ensures var k := IndexOf(old(Kids()), name);
              && k < |children| && children[k] == s
              && Kids() == Put(old(Kids()), k, Found(old(Kids()), name))
    {
      hide IndexOf, Found, Put, Fresh;
      FoundPut(Kids(), name);
      var c := FindChild(name);
      if c != null {
        s := c;
      } else {
        s := new Tracker(name, ctx, this);
        AddChild(s);
      }
    }

    method AddChild(s: Tracker)
      requires Valid() && s.Valid() && s.parent == this && s.ctx == ctx && s.Repr !! Repr
      modifies this`children, this`Repr
      ensures Valid() && Repr == old(Repr) + s.Repr
      ensures children == old(children) + [s] && Kids() == old(Kids()) + [s.Abs()]
    {
      children := children + [s];
      Repr := Repr + s.Repr;
    }

    /** Only the subtree of child `k`, and this tracker's own state, have changed. */
    twostate lemma ChildChanged(k: nat)
      requires old(Valid()) && children == old(children) && k < |children|
      requires children[k].Valid() && fresh(children[k].Repr - old(children[k].Repr))
      requires Repr == old(Repr) + children[k].Repr
      requires forall t <- old(Repr) :: t == this || t in old(children[k].Repr) || unchanged(t)
      requires forall t <- children[k].Repr :: depth <= t.depth
      ensures Valid() && Kids() == old(Kids())[k := children[k].Abs()]
    {
      hide Tracker.Rooted;
      var c := children[k];
      forall i | 0 <= i < |children| && i != k
        ensures children[i].Valid() && children[i].Repr == old(children[i].Repr)
                && children[i].Abs() == old(children[i].Abs())
        ensures children[i].Repr !! c.Repr
      {
        assert old(children[i].Repr) !! old(c.Repr);
      }
    }

    /** Only this tracker's own state has changed. */
    twostate lemma StateChanged()
      requires old(Valid()) && children == old(children) && Repr == old(Repr)
      requires forall t <- old(Repr) :: t == this || unchanged(t)
      ensures Valid() && Kids() == old(Kids())
    {
      forall i | 0 <= i < |children|
        ensures children[i].Valid() && children[i].Repr == old(children[i].Repr)
                && children[i].Abs() == old(children[i].Abs())
      {}
    }

    /** Catch's `acquire`: find or create the tracker of a section below the current tracker, and open it
        unless the cycle is over or the tracker is complete. */
    static method Acquire(ctx: TrackerContext, name: string, ghost t: Tracker)
      returns (s: Tracker, ghost k: nat, ghost before: Tree)
      requires ctx.current == t && t.ctx == ctx && t.Valid()
      modifies ctx`current, t.Repr, t.Unmarked()`runState
      ensures t.Valid() && fresh(t.Repr - old(t.Repr))
      ensures k == IndexOf(old(t.Kids()), name) && before == Found(old(t.Kids()), name)
      ensures k < |t.children| && t.children[k] == s
      ensures var opens := ctx.runState != CompletedCycle && !IsComplete(before.state);
              && s.runState == (if opens then Executing else before.state)
              && ctx.current == (if opens then s else t)
              && t.runState == (if opens then ExecutingChildren else old(t.runState))
              && t.Kids() == Put(old(t.Kids()), k, if opens then before.(state := Executing) else before)
    {
      hide IndexOf, Found, Put;
      k, before := IndexOf(t.Kids(), name), Found(t.Kids(), name);
      t.AncestorsAllocated();
      s := ctx.current.FindOrAdd(name);
      assert forall a <- t.Ancestors() :: a.runState == old(a.runState);
      if ctx.runState != CompletedCycle {
        OpenFound(s, k, t, before);
      }
    }

    /** Opens the child `s`, seen from its parent `t`. */
    static method OpenFound(s: Tracker, ghost k: nat, ghost t: Tracker, ghost before: Tree)
      requires t.Valid() && k < |t.children| && s == t.children[k] && s.Abs() == before && s.ctx.current == t
      requires forall a <- t.Ancestors() :: allocated(a)
      modifies s.ctx`current, s`runState, t.Unmarked()`runState
      ensures t.Valid() && t.Repr == old(t.Repr) && t.children == old(t.children)
      ensures var opens := !IsComplete(before.state);
              && s.runState == (if opens then Executing else before.state)
              && s.ctx.current == (if opens then s else t)
              && t.runState == (if opens then ExecutingChildren else old(t.runState))
              && t.Kids() == old(t.Kids())[k := if opens then before.(state := Executing) else before]
    {
      s.TryOpen();
      t.ChildChanged(k);
    }

    method TryOpen()
      requires Valid()
      modifies (if IsComplete(runState) then {} else Reopened())`runState
      modifies (if IsComplete(runState) then {} else {ctx})`current
      ensures Valid() && Kids() == old(Kids())
      ensures !IsComplete(old(runState)) ==> runState == Executing && ctx.current == this
      ensures !IsComplete(old(runState)) && parent != null ==>
                forall t <- old(parent.Unmarked()) :: t.runState == ExecutingChildren
    {
      if !IsComplete(runState) {
        Open();
      }
    }

    method MarkAsNeedingAnotherRun()
      modifies this`runState
      ensures runState == NeedsAnotherRun
    {
      runState := NeedsAnotherRun;
    }

    /** Catch's `close`, for a tracker with nothing open below it. */
    method Close()
      requires Valid() && ctx.current == this && parent != null
      modifies this`runState, ctx`current, ctx`runState, ctx`internalError
      ensures Valid() && Kids() == old(Kids())
      ensures match Closed(Tree(name, old(runState), old(Kids())))
              case Some(s) => runState == s && ctx.current == parent && ctx.runState == CompletedCycle
                              && ctx.internalError == old(ctx.internalError)
              case None => runState == old(runState) && ctx.current == old(ctx.current)
                           && ctx.runState == old(ctx.runState) && ctx.internalError
    {
      hide Closed, IsComplete, Tracker.Rooted;
      var legal := Conclude();
      if legal {
        MoveToParent();
        ctx.CompleteCycle();
      }
    }

    /** The switch on the state; `legal` is false where it raises the internal error. */
    method Conclude() returns (legal: bool)
      requires Valid()
      modifies this`runState, ctx`internalError
      ensures Valid() && Kids() == old(Kids()) && ctx.internalError == (old(ctx.internalError) || !legal)
      ensures Closed(Tree(name, old(runState), old(Kids()))) == if legal then Some(runState) else None
      ensures match old(runState)
              case NeedsAnotherRun => legal && runState == NeedsAnotherRun
              case Executing => legal && runState == CompletedSuccessfully
              case ExecutingChildren =>
                && legal
                && runState == if children == [] || IsComplete(children[|children| - 1].runState)
                               then CompletedSuccessfully else ExecutingChildren
              case _ => !legal && runState == old(runState)
    {
      hide Tracker.Rooted;
      legal := true;
      match runState {
        case NeedsAnotherRun =>
        case Executing =>
          runState := CompletedSuccessfully;
        case ExecutingChildren =>
          if children == [] || IsComplete(children[|children| - 1].runState) {
            runState := CompletedSuccessfully;
          }
        case _ =>
          ctx.internalError := true;
          legal := false;
      }
      StateChanged();
    }

    method Fail()
      requires Valid() && parent != null
      modifies this`runState, parent`runState, ctx`current, ctx`runState
      ensures Valid() && Kids() == old(Kids())
      ensures runState == Failed && parent.runState == NeedsAnotherRun
      ensures ctx.current == parent && ctx.runState == CompletedCycle
    {
      runState := Failed;
      if parent != null {
        parent.MarkAsNeedingAnotherRun();
      }
      StateChanged();
      MoveToParent();
      ctx.CompleteCycle();
    }
  }

  class RunContext {
    const ctx: TrackerContext
    var testCaseTracker: Tracker?
    var activeSections: seq<Tracker>
    var unfinishedSections: seq<string>
    /** What the reporter's `sectionStarting` was told in this cycle, below the test case. */
    var entered: seq<string>
    /** One entry for each finished cycle. */
    var cycles: seq<Visit>

    constructor (ctx: TrackerContext)
      ensures this.ctx == ctx && activeSections == [] && unfinishedSections == [] && entered == [] && cycles == []
    {
      this.ctx, testCaseTracker := ctx, null;
      activeSections, unfinishedSections, entered, cycles := [], [], [], [];
    }

    method SectionStarted(name: string, ghost t: Tracker) returns (included: bool, ghost k: nat, ghost before: Tree)
      requires ctx.current == t && t.ctx == ctx && t.Valid()
      modifies this`activeSections, this`entered, ctx`current, t.Repr, t.Unmarked()`runState
      ensures t.Valid() && fresh(t.Repr - old(t.Repr))
      ensures k == IndexOf(old(t.Kids()), name) && before == Found(old(t.Kids()), name) && k < |t.children|
      ensures var opens := ctx.runState != CompletedCycle && !IsComplete(before.state);
              && included == (opens || IsOpen(before.state))
              && ctx.current == (if opens then t.children[k] else t)
              && t.runState == (if opens then ExecutingChildren else old(t.runState))
              && t.Kids() == Put(old(t.Kids()), k, if opens then before.(state := Executing) else before)
      ensures activeSections == (if included then old(activeSections) + [t.children[k]] else old(activeSections))
      ensures entered == (if included then old(entered) + [name] else old(entered))
    {
      var s;
      s, k, before := Tracker.Acquire(ctx, name, t);
      if !IsOpen(s.runState) {
        return false, k, before;
      }
      PushSection(s, name, t);
      return true, k, before;
    }

    method PushSection(s: Tracker, name: string, ghost t: Tracker)
      requires t.Valid()
      modifies this`activeSections, this`entered
      ensures activeSections == old(activeSections) + [s] && entered == old(entered) + [name]
      ensures t.Valid() && t.Kids() == old(t.Kids())
    {
      activeSections, entered := activeSections + [s], entered + [name];
    }

    method SectionEnded()
      requires activeSections != [] ==>
                 var s := activeSections[|activeSections| - 1];
                 s.Valid() && s.ctx == ctx && s.parent != null && ctx.current == s
      modifies this`activeSections, if activeSections == [] then {} else {ctx}
      modifies (if activeSections == [] then {} else {activeSections[|activeSections| - 1]})`runState
      ensures ctx.root == old(ctx.root)
      ensures old(activeSections) == [] ==> activeSections == []
      ensures old(activeSections) != [] ==>
                var s := old(activeSections)[|old(activeSections)| - 1];
                && activeSections == old(activeSections)[..|old(activeSections)| - 1]
                && s.Valid() && s.Kids() == old(s.Kids())
                && match Closed(old(s.Abs()))
                   case Some(st) => s.runState == st && ctx.current == s.parent && ctx.runState == CompletedCycle
                                    && ctx.internalError == old(ctx.internalError)
                   case None => ctx.internalError
    {
      if activeSections != [] {
        activeSections[|activeSections| - 1].Close();
        activeSections := activeSections[..|activeSections| - 1];
      }
    }

    /** `fail` for the first section that ends early and `close` for the others. */
    method EndEarly(s: Tracker)
      requires s.Valid() && s.ctx == ctx && s.parent != null && ctx.current == s
      modifies ctx`current, ctx`runState, ctx`internalError, s`runState
      modifies (if unfinishedSections == [] then {s.parent} else {})`runState
      ensures s.Valid() && s.Kids() == old(s.Kids())
      ensures if unfinishedSections == [] then
                s.runState == Failed && s.parent.runState == NeedsAnotherRun
                && ctx.current == s.parent && ctx.runState == CompletedCycle
                && ctx.internalError == old(ctx.internalError)
              else match Closed(old(s.Abs()))
                case Some(st) => s.runState == st && ctx.current == s.parent && ctx.runState == CompletedCycle
                                 && ctx.internalError == old(ctx.internalError)
                case None => ctx.internalError
    {
      hide Closed, Tracker.Rooted;
      if unfinishedSections == [] {
        s.Fail();
      } else {
        s.Close();
      }
    }

    method SectionEndedEarly(name: string)
      requires activeSections != []
      requires var s := activeSections[|activeSections| - 1];
               s.Valid() && s.ctx == ctx && s.parent != null && ctx.current == s
      modifies this`activeSections, this`unfinishedSections, ctx`current, ctx`runState, ctx`internalError
      modifies {activeSections[|activeSections| - 1]}`runState
      modifies (if unfinishedSections == [] then {activeSections[|activeSections| - 1].parent} else {})`runState
      ensures unfinishedSections == old(unfinishedSections) + [name]
      ensures activeSections == old(activeSections)[..|old(activeSections)| - 1]
      ensures var s := old(activeSections)[|old(activeSections)| - 1];
              && s.Valid() && s.Kids() == old(s.Kids())
              && if old(unfinishedSections) == [] then
                   s.runState == Failed && s.parent.runState == NeedsAnotherRun
                   && ctx.current == s.parent && ctx.runState == CompletedCycle
                   && ctx.internalError == old(ctx.internalError)
                 else match Closed(old(s.Abs()))
                   case Some(st) => s.runState == st && ctx.current == s.parent && ctx.runState == CompletedCycle
                                    && ctx.internalError == old(ctx.internalError)
                   case None => ctx.internalError
    {
      hide Closed, Tracker.Rooted;
      EndEarly(activeSections[|activeSections| - 1]);
      activeSections := activeSections[..|activeSections| - 1];
      unfinishedSections := unfinishedSections + [name];
    }

    /** The tracker `t` has been opened in this cycle and its body is running. */
    ghost predicate Running(t: Tracker)
      reads this, ctx, t, t.Repr, if t.parent == null then {} else {t.parent}
    {
      && ctx.current == t && t.ctx == ctx && t.Valid()
      && t.parent != null && t.parent.runState == ExecutingChildren
      && activeSections == t.SectionChain() && unfinishedSections == [] && !ctx.internalError
    }

    /** One `SECTION` of a body: its constructor, its block when included, and its destructor. */
    method RunSection(b: Body, i: nat, ghost t: Tracker, ghost kids: seq<Tree>, ghost n: nat) returns (threw: bool)
      requires i < |b.sections| && WellFormed(b) && n <= |entered| && Running(t)
      requires Progress(b, i, kids, t.Abs(), ctx.runState == CompletedCycle, entered[n..])
      modifies this`activeSections, this`unfinishedSections, this`entered, ctx, t.Repr
      ensures ctx.current == t && t.Valid() && fresh(t.Repr - old(t.Repr))
      ensures activeSections == old(activeSections) && !ctx.internalError && ctx.root == old(ctx.root)
      ensures n <= |entered| && entered[..n] == old(entered[..n])
      ensures threw ==> unfinishedSections != [] && BodyRan(b, kids, t.Abs(), Visit(entered[n..], true), false)
      ensures !threw ==> unfinishedSections == []
                         && Progress(b, i + 1, kids, t.Abs(), ctx.runState == CompletedCycle, entered[n..])
      decreases b, |b.sections| - i, 1
    {
      hide WellFormed, Aligned, Resting, Pending, KidsAdvance, BodyRan;
      ghost var start := t.Abs();
      var included := EnterSection(b, i, t, kids, n);
      threw := false;
      if included {
        threw := RunOpened(b, i, t, kids, n, start);
      }
    }

    /** The constructor of the `Section` object of section `i`. */
    method EnterSection(b: Body, i: nat, ghost t: Tracker, ghost kids: seq<Tree>, ghost n: nat) returns (included: bool)
      requires i < |b.sections| && WellFormed(b) && n <= |entered| && Running(t)
      requires Progress(b, i, kids, t.Abs(), ctx.runState == CompletedCycle, entered[n..])
      modifies this`activeSections, this`entered, ctx`current, t.Repr
      ensures t.Valid() && fresh(t.Repr - old(t.Repr)) && t.parent.runState == ExecutingChildren
      ensures included <==> ctx.runState != CompletedCycle && !IsComplete(KidAt(b, i, kids).state)
      ensures included ==>
                && entered == old(entered) + [b.sections[i].name]
                && t.runState == ExecutingChildren && i < |t.children| && Running(t.children[i])
                && t.Kids() == Put(kids, i, KidAt(b, i, kids).(state := Executing))
      ensures !included ==>
                && entered == old(entered) && Running(t)
                && Progress(b, i + 1, kids, t.Abs(), ctx.runState == CompletedCycle, entered[n..])
    {
      hide WellFormed, Aligned, Resting, Pending, KidsAdvance;
      ghost var start := t.Abs();
      included := StartSection(b, i, t, KidAt(b, i, start.kids));
      if ctx.runState == CompletedCycle {
        SectionPassed(b, i, kids, start, t.Abs(), entered[n..]);
      } else {
        assert start.kids == kids;
        if !included { SectionSkipped(b, i, kids, t.Abs()); }
      }
    }

    /** What `sectionStarted` does for section `i`, whose tracker is known to be the i-th. */
    method StartSection(b: Body, i: nat, ghost t: Tracker, ghost kid: Tree) returns (included: bool)
      requires i < |b.sections| && WellFormed(b) && Running(t)
      requires Aligned(b, t.Kids()) && i <= |t.children| && kid == KidAt(b, i, t.Kids())
      requires ctx.runState == CompletedCycle ==> !IsOpen(kid.state)
      modifies this`activeSections, this`entered, ctx`current, t.Repr
      ensures t.Valid() && fresh(t.Repr - old(t.Repr)) && t.parent.runState == ExecutingChildren
      ensures included <==> ctx.runState != CompletedCycle && !IsComplete(kid.state)
      ensures included ==>
                && entered == old(entered) + [b.sections[i].name]
                && t.runState == ExecutingChildren && i < |t.children| && Running(t.children[i])
      ensures !included ==> entered == old(entered) && Running(t) && t.runState == old(t.runState)
      ensures t.Kids() == Put(old(t.Kids()), i, if included then kid.(state := Executing) else kid)
    {
      hide WellFormed, Aligned, IndexOf, Put;
      FoundAligned(b, i, t.Kids());
      assert t.parent.Unmarked() == {} && t.Unmarked() <= {t};
      ghost var k, before;
      included, k, before := SectionStarted(b.sections[i].name, t);
      assert k == i && before == kid;
    }

    /** The block of section `i`, which has just been opened, seen from the enclosing body. */
    method RunOpened(b: Body, i: nat, ghost t: Tracker, ghost kids: seq<Tree>, ghost n: nat, ghost start: Tree)
      returns (threw: bool)
      requires i < |b.sections| && WellFormed(b) && ctx.runState != CompletedCycle
      requires n < |entered| && entered[n..] == [b.sections[i].name]
      requires Progress(b, i, kids, start, false, []) && !IsComplete(KidAt(b, i, kids).state)
      requires t.Valid() && 1 <= t.depth && t.runState == ExecutingChildren && i < |t.children|
               && Running(t.children[i])
      requires t.Kids() == Put(kids, i, KidAt(b, i, kids).(state := Executing))
      modifies this`activeSections, this`unfinishedSections, this`entered, ctx, t.Repr
      ensures ctx.current == t && t.Valid() && fresh(t.Repr - old(t.Repr))
      ensures activeSections == t.SectionChain() && !ctx.internalError && ctx.root == old(ctx.root)
      ensures n <= |entered| && entered[..n] == old(entered[..n])
      ensures threw ==> unfinishedSections != [] && BodyRan(b, kids, t.Abs(), Visit(entered[n..], true), false)
      ensures !threw ==> unfinishedSections == []
                         && Progress(b, i + 1, kids, t.Abs(), ctx.runState == CompletedCycle, entered[n..])
      decreases b, |b.sections| - i, 0
    {
      hide WellFormed, Aligned, Pending, KidsAdvance, BodyRan, Ended;
      SectionReady(b, i, kids);
      threw := RunBelow(b.sections[i], t, i, KidAt(b, i, kids));
      ghost var path := Entered(old(entered), entered, n);
      SectionOpened(b, i, kids, start, t.Kids()[i], Visit(path, threw), t.Abs());
    }

    /** The same, seen from the tracker `t` of the enclosing body. */
    method RunBelow(section: Section, ghost t: Tracker, ghost k: nat, ghost before: Tree) returns (threw: bool)
      requires WellFormed(section.body) && ctx.runState != CompletedCycle
      requires t.Valid() && 1 <= t.depth && t.runState == ExecutingChildren && k < |t.children|
               && Running(t.children[k])
      requires Resting(section.body, before) && !IsComplete(before.state) && t.Kids()[k] == before.(state := Executing)
      modifies this`activeSections, this`unfinishedSections, this`entered, ctx, t.Repr
      ensures ctx.current == t && ctx.runState == CompletedCycle && t.Valid() && fresh(t.Repr - old(t.Repr))
      ensures activeSections == t.SectionChain() && !ctx.internalError && ctx.root == old(ctx.root)
      ensures old(entered) <= entered
      ensures threw <==> unfinishedSections != []
      ensures |t.children| == old(|t.children|)
      ensures var kid := t.Kids()[k];
              && t.Kids() == old(t.Kids())[k := kid]
              && Ended(section.body, before, Visit(entered[|old(entered)|..], threw), kid)
              && t.runState == (if threw && kid.state == Failed then NeedsAnotherRun else ExecutingChildren)
              && (threw && kid.state != Failed ==> !IsComplete(kid.state))
      decreases section.body, |section.body.sections| + 2, 1
    {
      hide WellFormed, Resting, Ended;
      ghost var c := t.children[k];
      threw := RunIncluded(section, c, before);
      t.Repr := t.Repr + c.Repr;
      t.ChildChanged(k);
    }

    /** The block of an opened section, and the destructor of its `Section`. */
    method RunIncluded(section: Section, ghost c: Tracker, ghost before: Tree) returns (threw: bool)
      requires WellFormed(section.body) && Running(c) && c.runState == Executing && ctx.runState != CompletedCycle
      requires 2 <= c.depth
      requires Resting(section.body, before) && !IsComplete(before.state) && c.Abs() == before.(state := Executing)
      modifies this`activeSections, this`unfinishedSections, this`entered, ctx, c.Repr, c.parent`runState
      ensures ctx.current == c.parent && ctx.runState == CompletedCycle && c.Valid() && fresh(c.Repr - old(c.Repr))
      ensures activeSections == c.parent.SectionChain() && !ctx.internalError && ctx.root == old(ctx.root)
      ensures old(entered) <= entered
      ensures Ended(section.body, before, Visit(entered[|old(entered)|..], threw), c.Abs())
      ensures threw <==> unfinishedSections != []
      ensures c.parent.runState == (if threw && c.runState == Failed then NeedsAnotherRun else ExecutingChildren)
      ensures threw && c.runState != Failed ==> !IsComplete(c.runState)
      decreases section.body, |section.body.sections| + 2, 0
    {
      hide WellFormed, Resting, BodyRan, Ended;
      BodyReady(section.body, before);
      threw := RunBody(section.body, c);
      ghost var t, v, direct := c.Abs(), Visit(entered[|old(entered)|..], threw), threw && unfinishedSections == [];
      EndIncluded(section, c, before, t, v, direct, threw);
    }

    /** The destructor, when the block ended as `BodyRan` says. */
    method EndIncluded(section: Section, ghost c: Tracker, ghost before: Tree, ghost t: Tree, ghost v: Visit,
                       ghost direct: bool, threw: bool)
      requires c.Valid() && c.ctx == ctx && c.parent != null && ctx.current == c && 2 <= c.depth && !ctx.internalError
      requires activeSections == c.SectionChain() && c.parent.runState == ExecutingChildren
      requires Resting(section.body, before) && !IsComplete(before.state)
      requires t == c.Abs() && t.name == before.name && BodyRan(section.body, before.kids, t, v, direct)
      requires direct == (threw && unfinishedSections == []) && v.threw == threw
               && (!threw ==> unfinishedSections == [])
      modifies this`activeSections, this`unfinishedSections, ctx, c`runState, c.parent`runState
      ensures ctx.current == c.parent && ctx.runState == CompletedCycle && c.Valid() && c.Repr == old(c.Repr)
      ensures activeSections == c.parent.SectionChain() && !ctx.internalError && ctx.root == old(ctx.root)
      ensures Ended(section.body, before, v, c.Abs())
      ensures threw <==> unfinishedSections != []
      ensures c.parent.runState == (if threw && c.runState == Failed then NeedsAnotherRun else ExecutingChildren)
      ensures threw && c.runState != Failed ==> !IsComplete(c.runState)
    {
      hide Resting, BodyRan, Ended;
      ClosableOrDirect(section.body, before.kids, t, v, direct);
      assert activeSections == c.parent.SectionChain() + [c];
      LeaveSection(section.name, threw);
      SectionEnds(section.body, before, t, v, direct, c.Abs());
    }

    /** The destructor of an included `Section`; `unwinding` is std::uncaught_exception. */
    method LeaveSection(name: string, unwinding: bool)
      requires activeSections != []
      requires var s := activeSections[|activeSections| - 1];
               s.Valid() && s.ctx == ctx && s.parent != null && ctx.current == s
               && (!(unwinding && unfinishedSections == []) ==> Closed(s.Abs()).Some?)
      modifies this`activeSections, this`unfinishedSections, ctx
      modifies {activeSections[|activeSections| - 1]}`runState
      modifies (if unwinding && unfinishedSections == [] then {activeSections[|activeSections| - 1].parent}
                else {})`runState
      ensures unfinishedSections == old(unfinishedSections) + (if unwinding then [name] else [])
      ensures activeSections == old(activeSections)[..|old(activeSections)| - 1]
      ensures ctx.runState == CompletedCycle && ctx.internalError == old(ctx.internalError) && ctx.root == old(ctx.root)
      ensures var s := old(activeSections)[|old(activeSections)| - 1];
              && s.Valid() && s.Kids() == old(s.Kids()) && ctx.current == s.parent
              && if unwinding && old(unfinishedSections) == [] then
                   s.runState == Failed && s.parent.runState == NeedsAnotherRun
                 else s.runState == Closed(old(s.Abs())).value
    {
      if unwinding {
        SectionEndedEarly(name);
      } else {
        SectionEnded();
      }
    }

    method RunBody(b: Body, ghost t: Tracker) returns (threw: bool)
      requires WellFormed(b) && Running(t) && t.runState == Executing && ctx.runState != CompletedCycle
      requires Aligned(b, t.Kids())
      modifies this`activeSections, this`unfinishedSections, this`entered, ctx, t.Repr
      ensures ctx.current == t && t.Valid() && fresh(t.Repr - old(t.Repr))
      ensures activeSections == old(activeSections) && !ctx.internalError && ctx.root == old(ctx.root)
      ensures old(entered) <= entered
      ensures BodyRan(b, old(t.Kids()), t.Abs(), Visit(entered[|old(entered)|..], threw),
                      threw && unfinishedSections == [])
      ensures !threw ==> unfinishedSections == []
      decreases b, |b.sections| + 1, 0
    {
      hide WellFormed, Aligned, Resting, Pending, KidsAdvance, BodyRan;
      ghost var kids, n := t.Kids(), |entered|;
      var i := 0;
      while i < |b.sections|
        invariant i <= |b.sections| && n <= |entered| && entered[..n] == old(entered)
        invariant Running(t) && fresh(t.Repr - old(t.Repr))
        invariant activeSections == old(activeSections) && ctx.root == old(ctx.root)
        invariant Progress(b, i, kids, t.Abs(), ctx.runState == CompletedCycle, entered[n..])
      {
        threw := RunSection(b, i, t, kids, n);
        if threw { return; }
        i := i + 1;
      }
      threw := b.throws;
      BodyEnds(b, kids, t.Abs(), ctx.runState == CompletedCycle, entered[n..]);
    }

    method HandleUnfinishedSections()
      requires activeSections == []
      modifies this`activeSections, this`unfinishedSections
      ensures activeSections == [] && unfinishedSections == []
    {
      for i := |unfinishedSections| downto 0
        invariant activeSections == []
      {
        SectionEnded();
      }
      unfinishedSections := [];
    }

    /** One cycle of the test case, whose tracker `t` has just been opened. */
    method RunCurrentTest(b: Body, ghost t: Tracker, ghost before: Tree) returns (ghost v: Visit, ghost after: Tree)
      requires WellFormed(b) && testCaseTracker == t && Running(t) && t.depth == 1 && ctx.runState != CompletedCycle
      requires Resting(b, before) && !IsComplete(before.state) && t.Abs() == before.(state := Executing)
      modifies this, ctx, t.Repr
      ensures ctx.current == t.parent && t.Valid() && fresh(t.Repr - old(t.Repr))
      ensures activeSections == [] && unfinishedSections == [] && !ctx.internalError && ctx.root == old(ctx.root)
      ensures testCaseTracker == t
      ensures t.Abs() == after && Resting(b, after) && after.state != Failed
      ensures cycles == old(cycles) + [v] && Cycles(b, before) == [v] + Cycles(b, after)
      ensures Advances(before, v.path, after)
    {
      hide Resting, BodyRan, Advances, Cycles, Closed;
      var threw;
      threw, v := InvokeActiveTestCase(b, t, before);
      after := CloseTestCase(b, t, before, v, threw);
    }

    /** What follows the call of the test function. */
    method CloseTestCase(b: Body, ghost t: Tracker, ghost before: Tree, ghost v: Visit, ghost threw: bool)
      returns (ghost after: Tree)
      requires testCaseTracker == t && t.ctx == ctx && t.Valid() && ctx.current == t && t.parent != null
               && activeSections == []
      requires Resting(b, before) && !IsComplete(before.state) && before.name == t.name
      requires BodyRan(b, before.kids, t.Abs(), v, threw && unfinishedSections == []) && Closed(t.Abs()).Some?
      modifies this`activeSections, this`unfinishedSections, ctx, t`runState
      ensures activeSections == [] && unfinishedSections == []
      ensures ctx.internalError == old(ctx.internalError) && ctx.root == old(ctx.root)
      ensures ctx.current == t.parent && t.Valid() && t.Abs() == after
      ensures Resting(b, after) && after.state != Failed && Cycles(b, before) == [v] + Cycles(b, after)
      ensures Advances(before, v.path, after)
    {
      hide Resting, BodyRan, Advances, Cycles;
      ghost var ran := t.Abs();
      ghost var direct := threw && unfinishedSections == [];
      testCaseTracker.Close();
      after := t.Abs();
      HandleUnfinishedSections();
      TestCaseEnds(b, before, ran, v, direct, after);
    }

    /** The call of the test function, with the exception it may throw caught. */
    method InvokeActiveTestCase(b: Body, ghost t: Tracker, ghost before: Tree) returns (threw: bool, v: Visit)
      requires WellFormed(b) && Running(t) && t.depth == 1 && ctx.runState != CompletedCycle
      requires Resting(b, before) && !IsComplete(before.state) && t.Abs() == before.(state := Executing)
      modifies this`activeSections, this`unfinishedSections, this`entered, this`cycles, ctx, t.Repr
      ensures ctx.current == t && t.Valid() && fresh(t.Repr - old(t.Repr))
      ensures activeSections == [] && !ctx.internalError && ctx.root == old(ctx.root)
      ensures cycles == old(cycles) + [v]
      ensures v == Visit(entered, threw) && BodyRan(b, before.kids, t.Abs(), v, threw && unfinishedSections == [])
      ensures Closed(t.Abs()).Some?
    {
      hide WellFormed, Resting, Aligned, KidsAdvance;
      BodyReady(b, before);
      entered := [];
      threw := RunBody(b, t);
      assert entered[0..] == entered;
      v := Visit(entered, threw);
      Log(v, t);
    }

    /** Records a cycle. */
    method Log(v: Visit, ghost t: Tracker)
      requires t.Valid()
      modifies this`cycles
      ensures cycles == old(cycles) + [v] && t.Valid() && t.Abs() == old(t.Abs())
    {
      cycles := cycles + [v];
    }

    /** Between two cycles: `tree` is the test case's tracker, if there is one yet. */
    ghost predicate AtRest(b: Body, name: string, root: Tracker, tree: Tree)
      reads this, ctx, root, root.Repr
    {
      && ctx.root == root && root.ctx == ctx && root.Valid() && root.parent == null && !ctx.internalError
      && activeSections == [] && unfinishedSections == []
      && tree.name == name && Resting(b, tree)
      && (root.Kids() == [tree] || (root.Kids() == [] && tree == Fresh(name)))
    }

    /** The body of the loop in `runTest`. */
    method RunCycle(b: Body, name: string, ghost root: Tracker, ghost tree: Tree)
      returns (ghost v: Visit, ghost tree': Tree)
      requires WellFormed(b) && AtRest(b, name, root, tree) && !IsComplete(tree.state)
      modifies this, ctx, root.Repr
      ensures AtRest(b, name, root, tree') && fresh(root.Repr - old(root.Repr))
      ensures root.Kids() == [tree'] && testCaseTracker == root.children[0] && tree'.state != Failed
      ensures cycles == old(cycles) + [v] && Cycles(b, tree) == [v] + Cycles(b, tree')
      ensures Advances(tree, v.path, tree')
    {
      hide Resting, Advances, Cycles;
      OpenTestCase(b, name, root, tree);
      label acquired:
      ghost var t := testCaseTracker;
      v, tree' := RunCurrentTest(b, t, tree);
      root.Repr := root.Repr + t.Repr;
      root.ChildChanged@acquired(0);
    }

    /** The start of the loop's body: the test case's tracker is found or added, and opened. */
    method OpenTestCase(b: Body, name: string, ghost root: Tracker, ghost tree: Tree)
      requires WellFormed(b) && AtRest(b, name, root, tree) && !IsComplete(tree.state)
      modifies this`testCaseTracker, ctx`current, ctx`runState, root.Repr
      ensures root.Valid() && fresh(root.Repr - old(root.Repr)) && ctx.runState != CompletedCycle
      ensures |root.children| == 1 && testCaseTracker == root.children[0]
      ensures Running(root.children[0]) && root.children[0].depth == 1
      ensures root.children[0].Abs() == tree.(state := Executing)
    {
      hide Resting, WellFormed, IndexOf, Found, Put, Tracker.SectionChain;
      OnlyKid(root.Kids(), tree, tree.(state := Executing));
      ctx.StartCycle();
      AcquireTestCase(name, root, tree);
      root.children[0].TopChain();
      assert root.Kids()[0] == root.children[0].Abs();
    }

    method AcquireTestCase(name: string, ghost root: Tracker, ghost tree: Tree)
      requires root.Valid() && root.parent == null && root.ctx == ctx && ctx.current == root
               && ctx.runState == RunState.Running
      requires IndexOf(root.Kids(), name) == 0 && Found(root.Kids(), name) == tree && !IsComplete(tree.state)
      requires Put(root.Kids(), 0, tree.(state := Executing)) == [tree.(state := Executing)]
      modifies this`testCaseTracker, ctx`current, root.Repr
      ensures root.Valid() && fresh(root.Repr - old(root.Repr)) && root.runState == ExecutingChildren
      ensures root.Kids() == [tree.(state := Executing)] && testCaseTracker == ctx.current == root.children[0]
    {
      hide IndexOf, Found, Put, Tracker.Unmarked;
      root.TopUnmarked();
      ghost var k, before;
      testCaseTracker, k, before := Tracker.Acquire(ctx, name, root);
    }

    /** Catch's `runTest`, without filters; `aborting` says after how many cycles the limit on failures is
        found to be reached.  The cycles performed are exactly those the test body is owed, or the first
        ones of them up to that limit; `trees` are the test case's trackers before, between and after them. */
    method RunTest(b: Body, name: string, aborting: nat -> bool) returns (ghost trees: seq<Tree>)
      requires WellFormed(b) && activeSections == [] && unfinishedSections == [] && !ctx.internalError
      modifies this, ctx
      ensures testCaseTracker == null && activeSections == [] && unfinishedSections == [] && !ctx.internalError
      ensures old(cycles) <= cycles
      ensures Performed(b, name, aborting, cycles[|old(cycles)|..]) && Ran(b, name, trees, cycles[|old(cycles)|..])
    {
      hide SoFar, Performed, Ran, WellFormed, Resting;
      ghost var start := cycles;
      ghost var done, tree;
      var root := StartTest(b, name);
      trees, done, tree := RunCycles(b, name, aborting, root);
      testCaseTracker := null;
      assert cycles[|start|..] == done;
      RunAmountsTo(b, name, aborting, trees, done, tree);
    }

    /** The loop of `runTest`. */
    method RunCycles(b: Body, name: string, aborting: nat -> bool, ghost root: Tracker)
      returns (ghost trees: seq<Tree>, ghost done: seq<Visit>, ghost tree: Tree)
      requires WellFormed(b) && AtRest(b, name, root, Fresh(name))
      modifies this, ctx, root.Repr
      ensures AtRest(b, name, root, tree) && SoFar(b, name, trees, done, tree) && cycles == old(cycles) + done
      ensures done != [] && (IsComplete(tree.state) || aborting(|done|)) && forall k :: 1 <= k < |done| ==> !aborting(k)
    {
      hide AtRest, SoFar, WellFormed, Resting;
      trees, done, tree := [Fresh(name)], [], Fresh(name);
      NoneYet(b, name);
      var count, more := 0, true;
      while more
        invariant AtRest(b, name, root, tree) && fresh(root.Repr - old(root.Repr))
        invariant SoFar(b, name, trees, done, tree) && cycles == old(cycles) + done && count == |done|
        invariant more <==> !IsComplete(tree.state) && (count == 0 || !aborting(count))
        invariant (count == 0 ==> more) && forall k :: 1 <= k < count ==> !aborting(k)
        decreases |Cycles(b, tree)|
      {
        more, trees, done, tree := RunOnce(b, name, root, trees, old(cycles), done, tree);
        count := count + 1;
        more := more && !aborting(count);
      }
    }

    method StartTest(b: Body, name: string) returns (root: Tracker)
      requires activeSections == [] && unfinishedSections == [] && !ctx.internalError
      modifies ctx
      ensures AtRest(b, name, root, Fresh(name)) && fresh(root.Repr)
    {
      root := ctx.StartRun();
    }

    /** `RunCycle`, and whether the test case is not successfully completed yet. */
    method RunOnce(b: Body, name: string, ghost root: Tracker, ghost trees: seq<Tree>, ghost start: seq<Visit>,
                   ghost done: seq<Visit>, ghost tree: Tree)
      returns (more: bool, ghost trees': seq<Tree>, ghost done': seq<Visit>, ghost tree': Tree)
      requires cycles == start + done
      requires WellFormed(b) && AtRest(b, name, root, tree) && !IsComplete(tree.state)
               && SoFar(b, name, trees, done, tree)
      modifies this, ctx, root.Repr
      ensures AtRest(b, name, root, tree') && fresh(root.Repr - old(root.Repr)) && more == !IsComplete(tree'.state)
      ensures SoFar(b, name, trees', done', tree') && |done'| == |done| + 1
      ensures cycles == start + done'
      ensures |Cycles(b, tree')| < |Cycles(b, tree)|
    {
      hide WellFormed, Resting, SoFar, Advances, Cycles;
      ghost var v;
      v, tree' := RunCycle(b, name, root, tree);
      trees', done' := OneMore(b, name, trees, done, tree, v, tree');
      assert root.Kids()[0] == root.children[0].Abs();
      more := testCaseTracker.runState != CompletedSuccessfully;
    }
  }

  /** `done` are the first cycles that the test case is owed: all, or those up to the limit on failures. */
  ghost predicate Performed(b: Body, name: string, aborting: nat -> bool, done: seq<Visit>) {
    && 1 <= |done| && done <= Cycles(b, Fresh(name))
    && (forall k :: 1 <= k < |done| ==> !aborting(k))
    && (done != Cycles(b, Fresh(name)) ==> aborting(|done|))
  }

  /** Whatever throws and whenever the run is aborted, the cycles are few, none is made twice, and those that
      enter a section that throws, and only those, end by an exception. */
  ghost predicate LeavesRun(b: Body, done: seq<Visit>) {
    && |done| <= SectionCount(b) + 1 && Distinct(done)
    && forall v <- done :: v.threw <==> ThrowsAlong(b, v.path)
  }

  /** A run to the end runs every leaf, in order, exactly when `AllUncut` says so, and in as many cycles as
      there are leaves when no section fails. */
  ghost predicate AllLeavesRun(b: Body, done: seq<Visit>) {
    && (LeafRuns(b, done) == Leaves(b) <==> AllUncut(b))
    && (NoSectionThrows(b) ==>
          |done| == |Leaves(b)| && forall k :: 0 <= k < |done| ==> done[k] == Visit(Leaves(b)[k], b.throws))
  }

  /** After the cycles `done` the test case's tracker is `tree`. */
  ghost predicate SoFar(b: Body, name: string, trees: seq<Tree>, done: seq<Visit>, tree: Tree) {
    && History(trees, done) && trees[0] == Fresh(name) && trees[|done|] == tree && tree.state != Failed
    && Cycles(b, Fresh(name)) == done + Cycles(b, tree)
  }

  lemma OneMore(b: Body, name: string, trees: seq<Tree>, done: seq<Visit>, tree: Tree, v: Visit, next: Tree)
    returns (trees': seq<Tree>, done': seq<Visit>)
    requires SoFar(b, name, trees, done, tree)
    requires Cycles(b, tree) == [v] + Cycles(b, next) && Advances(tree, v.path, next) && next.state != Failed
    ensures trees' == trees + [next] && done' == done + [v] && SoFar(b, name, trees', done', next)
    ensures |Cycles(b, next)| < |Cycles(b, tree)|
  {
    trees', done' := trees + [next], done + [v];
    assert done + ([v] + Cycles(b, next)) == done' + Cycles(b, next);
  }

  lemma NoneYet(b: Body, name: string)
    ensures SoFar(b, name, [Fresh(name)], [], Fresh(name))
  {
    assert [] + Cycles(b, Fresh(name)) == Cycles(b, Fresh(name));
  }

  /** What a finished run amounts to. */
  ghost predicate Ran(b: Body, name: string, trees: seq<Tree>, done: seq<Visit>) {
    && History(trees, done) && trees[0] == Fresh(name)
    && (trees[|done|].state == CompletedSuccessfully <==> done == Cycles(b, Fresh(name)))
    && LeavesRun(b, done) && (done == Cycles(b, Fresh(name)) ==> AllLeavesRun(b, done))
  }

  lemma RunAmountsTo(b: Body, name: string, aborting: nat -> bool, trees: seq<Tree>, done: seq<Visit>, tree: Tree)
    requires WellFormed(b) && SoFar(b, name, trees, done, tree) && done != []
    requires forall k :: 1 <= k < |done| ==> !aborting(k)
    requires IsComplete(tree.state) || aborting(|done|)
    ensures Performed(b, name, aborting, done) && Ran(b, name, trees, done)
  {
    var due := Cycles(b, Fresh(name));
    CyclesDistinct(b, name);
    CycleBound(b, name);
    CycleThrewIff(b, name);
    assert forall k :: 0 <= k < |done| ==> done[k] == due[k];
    AllLeavesRunIff(b, name);
    if NoSectionThrows(b) { OneCyclePerLeaf(b, name); }
  }

  lemma Entered(before: seq<string>, after: seq<string>, n: nat) returns (path: seq<string>)
    requires n < |before| && |before[n..]| == 1 && before <= after
    ensures path == after[|before|..] && after[n..] == [before[n]] + path && after[..n] == before[..n]
  {
    path := after[|before|..];
  }
}

/** What a Catch test case does to its sections, cycle by cycle, stated without trackers' pointers.

    A test body is a finite tree of sections.  A `Visit` is what one cycle does below a body: the names of
    the sections it enters, outermost first, and whether an exception leaves the body.  `Remaining` says
    which visits a body is still owed, given the partly discovered tracker tree; `Cycles` is the whole
    list for a fresh test case. */
module SectionTree {
  import opened Basics

  /** A body runs its sections in order and then, if `throws`, fails a REQUIRE (which throws). */
  datatype Body = Body(sections: seq<Section>, throws: bool)
  datatype Section = Section(name: string, body: Body)

  datatype CycleState =
    | NotStarted | Executing | ExecutingChildren | NeedsAnotherRun | CompletedSuccessfully | Failed

  /** The value of a tracker and all trackers below it. */
  datatype Tree = Tree(name: string, state: CycleState, kids: seq<Tree>)

  datatype Visit = Visit(path: seq<string>, threw: bool)

  predicate IsComplete(s: CycleState) {
    s == CompletedSuccessfully || s == Failed
  }

  predicate IsOpen(s: CycleState) {
    s != NotStarted && !IsComplete(s)
  }

  function Fresh(name: string): Tree {
    Tree(name, NotStarted, [])
  }

  /** Sections are distinct among siblings, at every level. */
  predicate WellFormed(b: Body)
    decreases b
  {
    && (forall i, j :: 0 <= i < j < |b.sections| ==> b.sections[i].name != b.sections[j].name)
    && (forall i :: 0 <= i < |b.sections| ==> WellFormed(b.sections[i].body))
  }

  // ---------- What a body is still owed ----------

  function Enter(name: string, v: Visit): Visit {
    Visit([name] + v.path, v.threw)
  }

  function Under(name: string, vs: seq<Visit>): (r: seq<Visit>)
    ensures |r| == |vs|
    ensures forall k :: 0 <= k < |vs| ==> r[k] == Enter(name, vs[k])
  {
    if vs == [] then [] else [Enter(name, vs[0])] + Under(name, vs[1..])
  }

  /** From the visits owed to the subsections of a section to the visits owed to the section itself.
      A visit that throws below leaves the section unfinished.  The first one that does not throw below
      reaches the end of the body: if the body itself throws there, the section has failed and is never
      opened again.  When every visit threw, one more visit runs the body with no subsection in it. */
  function Finish(throws: bool, w: seq<Visit>): (r: seq<Visit>)
    ensures 0 < |r| <= |w| + 1
  {
    if w == [] then [Visit([], throws)]
    else if w[0].threw then [w[0]] + Finish(throws, w[1..])
    else if throws then [Visit(w[0].path, true)]
    else if |w| == 1 then w
    else [w[0]] + Finish(throws, w[1..])
  }

  function KidAt(b: Body, i: nat, kids: seq<Tree>): Tree
    requires i < |b.sections|
  {
    if i < |kids| then kids[i] else Fresh(b.sections[i].name)
  }

  function Remaining(b: Body, t: Tree): (r: seq<Visit>)
    ensures r == [] <==> IsComplete(t.state)
    decreases b, |b.sections| + 1
  {
    if IsComplete(t.state) then [] else Finish(b.throws, Pending(b, 0, t.kids))
  }

  /** The visits owed to sections `i..` of `b`, in order. */
  function Pending(b: Body, i: nat, kids: seq<Tree>): seq<Visit>
    requires i <= |b.sections|
    decreases b, |b.sections| - i
  {
    if i == |b.sections| then []
    else Under(b.sections[i].name, Remaining(b.sections[i].body, KidAt(b, i, kids))) + Pending(b, i + 1, kids)
  }

  /** The test case itself has no `Section` object: an exception in its body ends the cycle but never
      marks its tracker failed, so its own `throws` shows only in the outcome of the cycles. */
  function Cycles(b: Body, t: Tree): seq<Visit> {
    Thrown(b.throws, Remaining(Body(b.sections, false), t))
  }

  function Thrown(throws: bool, vs: seq<Visit>): (r: seq<Visit>)
    ensures |r| == |vs|
    ensures forall k :: 0 <= k < |vs| ==> r[k] == Visit(vs[k].path, vs[k].threw || throws)
  {
    if vs == [] then [] else [Visit(vs[0].path, vs[0].threw || throws)] + Thrown(throws, vs[1..])
  }

  // ---------- The trackers between two cycles ----------

  /** Trackers match the first sections in order; at most one is half done, and it comes after the
      complete ones and before those that were only discovered. */
  predicate Aligned(b: Body, kids: seq<Tree>)
    decreases b, 0
  {
    && |kids| <= |b.sections|
    && (forall i :: 0 <= i < |kids| ==> kids[i].name == b.sections[i].name)
    && (forall i :: 0 <= i < |kids| ==> Resting(b.sections[i].body, kids[i]))
    && (forall i, j :: 0 <= i < j < |kids| && !IsComplete(kids[i].state) ==> kids[j].state == NotStarted)
  }

  predicate Resting(b: Body, t: Tree)
    decreases b, 1
  {
    match t.state
    case NotStarted => t.kids == []
    case Executing => false
    case ExecutingChildren => Aligned(b, t.kids)
    case NeedsAnotherRun => Aligned(b, t.kids)
    case CompletedSuccessfully => true
    case Failed => true
  }

  /** The list with the tracker at position `k` set, or appended when `k` is the length. */
  function Put(kids: seq<Tree>, k: nat, t: Tree): (r: seq<Tree>)
    requires k <= |kids|
    ensures |r| == (if k < |kids| then |kids| else k + 1)
    ensures forall i :: 0 <= i < |r| ==> r[i] == if i == k then t else kids[i]
  {
    if k < |kids| then kids[k := t] else kids + [t]
  }

  /** The position of a tracker in the list of its siblings; the length when there is none. */
  function IndexOf(kids: seq<Tree>, name: string): (k: nat)
    ensures k <= |kids|
    ensures k < |kids| ==> kids[k].name == name
    ensures forall i :: 0 <= i < k ==> kids[i].name != name
  {
    if kids == [] || kids[0].name == name then 0 else 1 + IndexOf(kids[1..], name)
  }

  function Found(kids: seq<Tree>, name: string): Tree {
    var k := IndexOf(kids, name);
    if k < |kids| then kids[k] else Fresh(name)
  }

  // ---------- How trackers change from cycle to cycle ----------

  /** Every tracker in `t` is still at its place in `t'`, and a complete one is exactly as it was. */
  predicate Grows(t: Tree, t': Tree)
    decreases t
  {
    && t'.name == t.name && (IsComplete(t.state) ==> t' == t)
    && |t.kids| <= |t'.kids| && forall i :: 0 <= i < |t.kids| ==> Grows(t.kids[i], t'.kids[i])
  }

  /** The tracker that `path` leads to is complete. */
  predicate CompleteAt(t: Tree, path: seq<string>)
    decreases |path|
  {
    if path == [] then IsComplete(t.state) else CompleteAt(Found(t.kids, path[0]), path[1..])
  }

  /** One cycle completes the innermost tracker that it enters, and undoes nothing. */
  predicate Advances(t: Tree, path: seq<string>, t': Tree) {
    Grows(t, t') && !CompleteAt(t, path) && CompleteAt(t', path)
  }

  /** The same for the trackers below a body. */
  predicate KidsAdvance(kids: seq<Tree>, path: seq<string>, kids': seq<Tree>) {
    && KidsGrow(kids, kids')
    && path != [] && !CompleteAt(Found(kids, path[0]), path[1..]) && CompleteAt(Found(kids', path[0]), path[1..])
  }

  predicate KidsGrow(kids: seq<Tree>, kids': seq<Tree>) {
    |kids| <= |kids'| && forall i :: 0 <= i < |kids| ==> Grows(kids[i], kids'[i])
  }

  lemma {:induction false} GrowsSame(t: Tree)
    ensures Grows(t, t)
    decreases t
  {
    forall i | 0 <= i < |t.kids| ensures Grows(t.kids[i], t.kids[i]) { GrowsSame(t.kids[i]); }
  }

  lemma {:induction false} GrowsOn(t: Tree, u: Tree, v: Tree)
    requires Grows(t, u) && Grows(u, v)
    ensures Grows(t, v)
    decreases t
  {
    forall i | 0 <= i < |t.kids| ensures Grows(t.kids[i], v.kids[i]) { GrowsOn(t.kids[i], u.kids[i], v.kids[i]); }
  }

  lemma {:induction false} FreshNowhere(name: string, path: seq<string>)
    ensures !CompleteAt(Fresh(name), path)
    decreases |path|
  {
    if path != [] { FreshNowhere(path[0], path[1..]); }
  }

  /** A list of siblings that only got longer finds the same tracker by name. */
  lemma {:induction false} FoundLonger(kids: seq<Tree>, kids': seq<Tree>, name: string)
    requires |kids| <= |kids'| && forall i :: 0 <= i < |kids| ==> kids'[i].name == kids[i].name
    requires IndexOf(kids, name) < |kids|
    ensures IndexOf(kids', name) == IndexOf(kids, name)
  {
    assert kids'[IndexOf(kids, name)].name == name;
  }

  /** A tracker that is complete stays complete, and stays what it is. */
  lemma {:induction false} StaysComplete(t: Tree, t': Tree, path: seq<string>)
    requires Grows(t, t') && CompleteAt(t, path)
    ensures CompleteAt(t', path)
    decreases |path|
  {
    if path != [] {
      var k := IndexOf(t.kids, path[0]);
      if k == |t.kids| {
        FreshNowhere(path[0], path[1..]);
      } else {
        FoundLonger(t.kids, t'.kids, path[0]);
        StaysComplete(t.kids[k], t'.kids[k], path[1..]);
      }
    }
  }

  /** `trees[k]` and `trees[k + 1]` are the test case's trackers before and after cycle `k`. */
  predicate History(trees: seq<Tree>, cycles: seq<Visit>) {
    |trees| == |cycles| + 1 && forall k :: 0 <= k < |cycles| ==> Advances(trees[k], cycles[k].path, trees[k + 1])
  }

  /** What a cycle has completed was not complete before it, and is complete for the rest of the run. */
  lemma {:induction false} CompleteForGood(trees: seq<Tree>, cycles: seq<Visit>, j: nat, k: nat)
    requires History(trees, cycles) && j < k <= |cycles|
    ensures Grows(trees[j], trees[k]) && !CompleteAt(trees[j], cycles[j].path) && CompleteAt(trees[k], cycles[j].path)
  {
    assert Advances(trees[k - 1], cycles[k - 1].path, trees[k]);
    if j + 1 < k {
      CompleteForGood(trees, cycles, j, k - 1);
      GrowsOn(trees[j], trees[k - 1], trees[k]);
      StaysComplete(trees[k - 1], trees[k], cycles[j].path);
    }
  }

  /** Finding a tracker by name, or adding a fresh one. */
  lemma FoundPut(kids: seq<Tree>, name: string)
    ensures Put(kids, IndexOf(kids, name), Found(kids, name)) ==
            if IndexOf(kids, name) < |kids| then kids else kids + [Fresh(name)]
  {
  }

  /** The state `TrackerBase::close` leaves behind; None where it raises its internal error. */
  function Closed(t: Tree): Option<CycleState> {
    match t.state
    case NeedsAnotherRun => Some(NeedsAnotherRun)
    case Executing => Some(CompletedSuccessfully)
    case ExecutingChildren =>
      Some(if t.kids == [] || IsComplete(t.kids[|t.kids| - 1].state) then CompletedSuccessfully else ExecutingChildren)
    case _ => None
  }

  // ---------- How one step changes what is owed ----------

  /** Section `j` has a tracker, and that is complete. */
  predicate Done(kids: seq<Tree>, j: nat) {
    j < |kids| && IsComplete(kids[j].state)
  }

  lemma {:induction false} PendingEmpty(b: Body, i: nat, kids: seq<Tree>)
    requires i <= |b.sections|
    ensures Pending(b, i, kids) == [] <==> forall j: nat :: i <= j < |b.sections| ==> Done(kids, j)
    decreases |b.sections| - i
  {
    if i < |b.sections| {
      PendingEmpty(b, i + 1, kids);
      var r := Remaining(b.sections[i].body, KidAt(b, i, kids));
      assert Pending(b, i, kids) == Under(b.sections[i].name, r) + Pending(b, i + 1, kids);
      assert r == [] <==> Done(kids, i);
    }
  }

  lemma {:induction false} PendingSkip(b: Body, i: nat, j: nat, kids: seq<Tree>)
    requires i <= j <= |b.sections| && j <= |kids|
    requires forall k :: i <= k < j ==> IsComplete(kids[k].state)
    ensures Pending(b, i, kids) == Pending(b, j, kids)
    decreases j - i
  {
    if i < j {
      PendingSkip(b, i + 1, j, kids);
      var rest := Pending(b, i + 1, kids);
      assert Under(b.sections[i].name, Remaining(b.sections[i].body, kids[i])) == [];
      assert [] + rest == rest;
    }
  }

  /** Only the trackers of sections `i..` matter, and a discovered tracker that was never opened counts
      like an undiscovered one. */
  lemma {:induction false} PendingSame(b: Body, i: nat, kids: seq<Tree>, kids': seq<Tree>)
    requires i <= |b.sections|
    requires forall j :: i <= j < |b.sections| ==> KidAt(b, j, kids) == KidAt(b, j, kids')
    ensures Pending(b, i, kids) == Pending(b, i, kids')
    decreases |b.sections| - i
  {
    if i < |b.sections| { PendingSame(b, i + 1, kids, kids'); }
  }

  /** Opening section `i`, with everything before it complete, uses up exactly the first visit owed. */
  lemma PendingStep(b: Body, i: nat, kids: seq<Tree>, kids': seq<Tree>)
    requires i < |b.sections| && i <= |kids| && i < |kids'|
    requires forall k :: 0 <= k < i ==> IsComplete(kids[k].state) && IsComplete(kids'[k].state)
    requires !IsComplete(KidAt(b, i, kids).state)
    requires Remaining(b.sections[i].body, kids'[i]) == Remaining(b.sections[i].body, KidAt(b, i, kids))[1..]
    requires forall j :: i < j < |b.sections| ==> KidAt(b, j, kids) == KidAt(b, j, kids')
    ensures Pending(b, 0, kids) != []
    ensures Pending(b, 0, kids)[0] == Enter(b.sections[i].name, Remaining(b.sections[i].body, KidAt(b, i, kids))[0])
    ensures Pending(b, 0, kids') == Pending(b, 0, kids)[1..]
  {
    var name, r := b.sections[i].name, Remaining(b.sections[i].body, KidAt(b, i, kids));
    var rest := PendingSplit(b, i, kids);
    var rest' := PendingSplit(b, i, kids');
    PendingSame(b, i + 1, kids, kids');
    UnderTail(name, r, rest);
  }

  lemma PendingSplit(b: Body, i: nat, kids: seq<Tree>) returns (rest: seq<Visit>)
    requires i < |b.sections| && i <= |kids| && forall k :: 0 <= k < i ==> IsComplete(kids[k].state)
    ensures rest == Pending(b, i + 1, kids)
    ensures Pending(b, 0, kids) == Under(b.sections[i].name, Remaining(b.sections[i].body, KidAt(b, i, kids))) + rest
  {
    PendingSkip(b, 0, i, kids);
    rest := Pending(b, i + 1, kids);
  }

  lemma UnderTail(name: string, r: seq<Visit>, rest: seq<Visit>)
    requires r != []
    ensures (Under(name, r) + rest)[0] == Enter(name, r[0])
    ensures (Under(name, r) + rest)[1..] == Under(name, r[1..]) + rest
  {
    Tail(Enter(name, r[0]), Under(name, r[1..]), rest);
  }

  lemma Tail<T>(first: T, more: seq<T>, rest: seq<T>)
    ensures ([first] + more + rest)[0] == first && ([first] + more + rest)[1..] == more + rest
  {
  }

  /** While a body runs, section `i` is found where its tracker is expected. */
  lemma {:induction false} FoundAligned(b: Body, i: nat, kids: seq<Tree>)
    requires WellFormed(b) && Aligned(b, kids) && i < |b.sections| && i <= |kids|
    ensures IndexOf(kids, b.sections[i].name) == i
    ensures Found(kids, b.sections[i].name) == KidAt(b, i, kids)
  {
  }

  /** Where running a body of an opened section leads, before the section is closed: `t` is its tracker
      afterwards, `v` what was entered below it and whether an exception left it, and `direct` whether
      that exception came from the body itself and not from a subsection. */
  predicate BodyRan(b: Body, kids: seq<Tree>, t: Tree, v: Visit, direct: bool) {
    var w := Pending(b, 0, kids);
    && Aligned(b, t.kids)
    && Pending(b, 0, t.kids) == (if w == [] then [] else w[1..])
    && v == (if w == [] then Visit([], b.throws) else Visit(w[0].path, w[0].threw || b.throws))
    && (direct <==> b.throws && (w == [] || !w[0].threw))
    && (if w == [] then t.kids == kids else KidsAdvance(kids, w[0].path, t.kids))
    && (w == [] ==> t.state == Executing)
    && (w != [] && w[0].threw ==>
          t.state == NeedsAnotherRun || (t.state == ExecutingChildren && t.kids != []
              && !IsComplete(t.kids[|t.kids| - 1].state)))
    && (w != [] && !w[0].threw ==> t.state == ExecutingChildren && |t.kids| == |b.sections|)
  }

  /** Where a running body stands before its section `i`, having entered `path` below it in this cycle:
      either every section so far was complete, or one was run and the rest are only being discovered. */
  predicate Progress(b: Body, i: nat, kids: seq<Tree>, t: Tree, cycleOver: bool, path: seq<string>) {
    && i <= |b.sections| && i <= |t.kids|
    && Aligned(b, t.kids)
    && if !cycleOver then
         t.kids == kids && t.state == Executing && path == []
         && forall j :: 0 <= j < i ==> IsComplete(kids[j].state)
       else
         var w := Pending(b, 0, kids);
         && w != [] && !w[0].threw && path == w[0].path && KidsAdvance(kids, path, t.kids)
         && Pending(b, 0, t.kids) == w[1..] && t.state == ExecutingChildren
         && forall j :: i <= j < |t.kids| ==> t.kids[j].state == NotStarted
  }

  /** What a section's tracker is after a cycle has entered it. */
  predicate Ended(b: Body, before: Tree, v: Visit, after: Tree) {
    Resting(b, after) && Remaining(b, before) == [v] + Remaining(b, after) && Advances(before, v.path, after)
  }

  lemma KidAdvanced(b: Body, i: nat, kids: seq<Tree>, kid: Tree, v: Visit)
    requires WellFormed(b) && Aligned(b, kids) && i < |b.sections| && i <= |kids|
             && Advances(KidAt(b, i, kids), v.path, kid)
    ensures KidsAdvance(kids, [b.sections[i].name] + v.path, Put(kids, i, kid))
  {
    var name := b.sections[i].name;
    FoundAligned(b, i, kids);
    forall j | 0 <= j < |kids| ensures Grows(kids[j], Put(kids, i, kid)[j]) { GrowsSame(kids[j]); }
    assert ([name] + v.path)[1..] == v.path;
    assert Put(kids, i, kid)[i].name == name && forall j :: 0 <= j < i ==> Put(kids, i, kid)[j].name != name;
  }

  /** Section `i` is opened, run as `v` and ended, leaving `kid` as its tracker. */
  lemma SectionOpened(b: Body, i: nat, kids: seq<Tree>, before: Tree, kid: Tree, v: Visit, t: Tree)
    requires Progress(b, i, kids, before, false, []) && i < |b.sections|
    requires !IsComplete(KidAt(b, i, kids).state)
    requires WellFormed(b) && Ended(b.sections[i].body, KidAt(b, i, kids), v, kid)
    requires t.kids == Put(kids, i, kid)
    requires v.threw ==> t.state == NeedsAnotherRun || (t.state == ExecutingChildren && !IsComplete(kid.state))
    requires !v.threw ==> t.state == ExecutingChildren
    ensures v.threw ==> BodyRan(b, kids, t, Visit([b.sections[i].name] + v.path, true), false)
    ensures !v.threw ==> Progress(b, i + 1, kids, t, true, [b.sections[i].name] + v.path)
  {
    hide WellFormed, Aligned, Resting, KidsAdvance, Advances, Pending, Remaining;
    PendingStep(b, i, kids, t.kids);
    KidAdvanced(b, i, kids, kid, v);
    AlignedPut(b, i, kids, kid, v.path);
    assert Pending(b, 0, kids)[0] == Enter(b.sections[i].name, v);
    assert Pending(b, 0, t.kids) == Pending(b, 0, kids)[1..];
  }

  lemma AlignedPut(b: Body, i: nat, kids: seq<Tree>, kid: Tree, path: seq<string>)
    requires Aligned(b, kids) && i < |b.sections| && i <= |kids| && !IsComplete(KidAt(b, i, kids).state)
    requires forall j :: 0 <= j < i ==> IsComplete(kids[j].state)
    requires Resting(b.sections[i].body, kid) && Advances(KidAt(b, i, kids), path, kid)
    ensures Aligned(b, Put(kids, i, kid))
    ensures forall j :: i < j < |kids| ==> kids[j].state == NotStarted
  {
  }

  /** The test case's tracker is the only one below the root. */
  lemma OnlyKid(kids: seq<Tree>, tree: Tree, tree': Tree)
    requires kids == [tree] || (kids == [] && tree == Fresh(tree.name))
    ensures IndexOf(kids, tree.name) == 0 && Found(kids, tree.name) == tree && Put(kids, 0, tree') == [tree']
  {
  }

  /** What is known of section `i` when a body is about to open it. */
  lemma SectionReady(b: Body, i: nat, kids: seq<Tree>)
    requires WellFormed(b) && Aligned(b, kids) && i < |b.sections|
    ensures WellFormed(b.sections[i].body)
    ensures Resting(b.sections[i].body, KidAt(b, i, kids)) && KidAt(b, i, kids).name == b.sections[i].name
  {
  }

  /** A body at rest that is not complete can be run. */
  lemma BodyReady(b: Body, t: Tree)
    requires Resting(b, t) && !IsComplete(t.state)
    ensures Aligned(b, t.kids)
  {
  }

  /** Before the cycle is complete, a complete section is passed by. */
  lemma SectionSkipped(b: Body, i: nat, kids: seq<Tree>, t: Tree)
    requires Aligned(b, kids) && i < |b.sections| && i <= |kids| && IsComplete(KidAt(b, i, kids).state)
    requires t.kids == Put(kids, i, KidAt(b, i, kids))
    ensures i < |kids| && t.kids == kids
  {
  }

  /** A later section of the same cycle is only discovered. */
  lemma SectionPassed(b: Body, i: nat, kids: seq<Tree>, before: Tree, t: Tree, path: seq<string>)
    requires Progress(b, i, kids, before, true, path) && i < |b.sections|
    requires t.kids == Put(before.kids, i, KidAt(b, i, before.kids)) && t.state == before.state
    ensures Progress(b, i + 1, kids, t, true, path)
  {
    hide KidsAdvance, Pending;
    assert Aligned(b, t.kids);
    assert forall j :: 0 <= j < |b.sections| ==> KidAt(b, j, before.kids) == KidAt(b, j, t.kids);
    PendingSame(b, 0, before.kids, t.kids);
    KidsPassed(kids, path, before.kids, t.kids);
  }

  lemma KidsPassed(kids: seq<Tree>, path: seq<string>, now: seq<Tree>, later: seq<Tree>)
    requires KidsAdvance(kids, path, now) && now <= later
    ensures KidsAdvance(kids, path, later)
  {
    FreshNowhere(path[0], path[1..]);
    FoundLonger(now, later, path[0]);
  }

  lemma BodyEnds(b: Body, kids: seq<Tree>, t: Tree, cycleOver: bool, path: seq<string>)
    requires Progress(b, |b.sections|, kids, t, cycleOver, path)
    ensures BodyRan(b, kids, t, Visit(path, b.throws), b.throws)
  {
    PendingEmpty(b, 0, kids);
  }

  /** A body that did not fail itself leaves its tracker in a state that `close` accepts. */
  lemma ClosableOrDirect(b: Body, kids: seq<Tree>, t: Tree, v: Visit, direct: bool)
    requires BodyRan(b, kids, t, v, direct)
    ensures direct || Closed(t).Some?
  {
  }

  /** `close` looks at the last tracker only, and that is enough: in every state in which a body can end,
      the last discovered subsection is complete exactly when all subsections are discovered and complete. */
  lemma LastKidDecides(b: Body, kids: seq<Tree>, t: Tree, v: Visit, direct: bool)
    requires BodyRan(b, kids, t, v, direct) && t.state == ExecutingChildren
    ensures t.kids != []
    ensures IsComplete(t.kids[|t.kids| - 1].state) <==>
            |t.kids| == |b.sections| && forall j :: 0 <= j < |b.sections| ==> IsComplete(t.kids[j].state)
  {
    var w := Pending(b, 0, kids);
    PendingEmpty(b, 0, kids);
    if !w[0].threw && IsComplete(t.kids[|t.kids| - 1].state) {
      forall j | 0 <= j < |t.kids| ensures IsComplete(t.kids[j].state) {}
    }
  }

  /** A section ends by `fail` when its own body threw and by `close` otherwise; either way it is then at
      rest and owed exactly the visits it was owed before, less the first. */
  lemma SectionEnds(b: Body, before: Tree, t: Tree, v: Visit, direct: bool, after: Tree)
    requires Resting(b, before) && !IsComplete(before.state)
    requires BodyRan(b, before.kids, t, v, direct)
    requires after.name == before.name && after.kids == t.kids
    requires if direct then after.state == Failed else Closed(t) == Some(after.state)
    ensures Ended(b, before, v, after)
    ensures v.threw && !direct ==> !IsComplete(after.state)
  {
    SectionAdvances(b, before, t, v, direct, after);
    var w := Pending(b, 0, before.kids);
    assert Remaining(b, before) == Finish(b.throws, w);
    if direct || w == [] {
      assert Finish(b.throws, w) == [v] && IsComplete(after.state);
    } else if w[0].threw {
      assert Remaining(b, after) == Finish(b.throws, w[1..]) && v == w[0];
    } else {
      PassedEnds(b, before.kids, t, v, after, w);
    }
  }

  lemma SectionAdvances(b: Body, before: Tree, t: Tree, v: Visit, direct: bool, after: Tree)
    requires !IsComplete(before.state) && BodyRan(b, before.kids, t, v, direct)
    requires after.name == before.name && after.kids == t.kids
    requires direct || Closed(t) == Some(after.state)
    requires direct ==> IsComplete(after.state)
    ensures Advances(before, v.path, after)
  {
    if v.path == [] { GrowsSame(before); }
  }

  /** The visit reached the end of the body and nothing threw. */
  lemma PassedEnds(b: Body, kids: seq<Tree>, t: Tree, v: Visit, after: Tree, w: seq<Visit>)
    requires BodyRan(b, kids, t, v, false) && w == Pending(b, 0, kids) && w != [] && !w[0].threw
    requires after.kids == t.kids && Closed(t) == Some(after.state)
    ensures Finish(b.throws, w) == [v] + Remaining(b, after)
  {
    hide Aligned, KidsAdvance;
    LastKidDecides(b, kids, t, v, false);
    PendingEmpty(b, 0, t.kids);
    assert v == w[0] && !b.throws && Pending(b, 0, t.kids) == w[1..];
    assert Finish(false, w) == if |w| == 1 then w else [w[0]] + Finish(false, w[1..]);
    if IsComplete(after.state) {
      forall j: nat | j < |b.sections| ensures Done(t.kids, j) { assert IsComplete(t.kids[j].state); }
      assert w == [v];
    } else {
      assert !Done(t.kids, |t.kids| - 1);
      assert w[1..] != [] && Remaining(b, after) == Finish(false, w[1..]);
    }
  }

  lemma {:induction false} PendingOfSections(b: Body, b': Body, i: nat, kids: seq<Tree>)
    requires b.sections == b'.sections && i <= |b.sections|
    ensures Pending(b, i, kids) == Pending(b', i, kids)
    decreases |b.sections| - i
  {
    if i < |b.sections| { PendingOfSections(b, b', i + 1, kids); }
  }

  /** A test case ends by `close`, whether or not its body threw. */
  lemma TestCaseEnds(b: Body, before: Tree, t: Tree, v: Visit, direct: bool, after: Tree)
    requires Resting(b, before) && !IsComplete(before.state)
    requires BodyRan(b, before.kids, t, v, direct)
    requires after.name == before.name && after.kids == t.kids && Closed(t) == Some(after.state)
    ensures Resting(b, after)
    ensures Cycles(b, before) == [v] + Cycles(b, after)
    ensures Advances(before, v.path, after)
    ensures !IsComplete(after.state) ==> after.state != NotStarted
  {
    hide BodyRan, Advances;
    var quiet := Body(b.sections, false);
    var v' := QuietRan(b, quiet, before.kids, t, v, direct);
    assert Aligned(quiet, before.kids) <==> Aligned(b, before.kids);
    SectionEnds(quiet, before, t, v', false, after);
    assert Aligned(quiet, after.kids) <==> Aligned(b, after.kids);
    ThrownFirst(b.throws, v', Remaining(quiet, after));
  }

  /** The same run with the exception at the end of the body left out. */
  lemma QuietRan(b: Body, quiet: Body, kids: seq<Tree>, t: Tree, v: Visit, direct: bool) returns (v': Visit)
    requires quiet == Body(b.sections, false) && BodyRan(b, kids, t, v, direct)
    ensures BodyRan(quiet, kids, t, v', false) && v == Visit(v'.path, v'.threw || b.throws)
  {
    hide KidsAdvance, Pending;
    PendingOfSections(b, quiet, 0, kids);
    PendingOfSections(b, quiet, 0, t.kids);
    var w := Pending(b, 0, kids);
    v' := if w == [] then Visit([], false) else w[0];
    assert Aligned(quiet, t.kids) <==> Aligned(b, t.kids);
  }

  lemma ThrownFirst(throws: bool, v: Visit, rest: seq<Visit>)
    ensures Thrown(throws, [v] + rest) == [Visit(v.path, v.threw || throws)] + Thrown(throws, rest)
  {
    assert ([v] + rest)[1..] == rest;
  }
}

/** What the cycles of a test case amount to: which leaf sections run, how often and in which order. */
module SectionRuns {
  import opened SectionTree

  /** The visits of a section that no cycle has reached yet. */
  function Visits(b: Body): seq<Visit> {
    Remaining(b, Fresh(""))
  }

  // ---------- Leaves ----------

  function Prefixed(name: string, ps: seq<seq<string>>): (r: seq<seq<string>>)
    ensures |r| == |ps|
    ensures forall k :: 0 <= k < |ps| ==> r[k] == [name] + ps[k]
  {
    if ps == [] then [] else [[name] + ps[0]] + Prefixed(name, ps[1..])
  }

  /** The paths of the leaf sections in depth-first order; a body without sections is itself a leaf. */
  function Leaves(b: Body): seq<seq<string>>
    decreases b, |b.sections| + 1
  {
    if b.sections == [] then [[]] else LeavesFrom(b, 0)
  }

  function LeavesFrom(b: Body, i: nat): seq<seq<string>>
    requires i <= |b.sections|
    decreases b, |b.sections| - i
  {
    if i == |b.sections| then []
    else Prefixed(b.sections[i].name, Leaves(b.sections[i].body)) + LeavesFrom(b, i + 1)
  }

  /** `path` leads to a body without sections. */
  predicate IsLeaf(b: Body, path: seq<string>)
    decreases b
  {
    if path == [] then b.sections == []
    else exists i :: 0 <= i < |b.sections| && b.sections[i].name == path[0] && IsLeaf(b.sections[i].body, path[1..])
  }

  /** The leaf bodies run by these visits, in order. */
  function LeafRuns(b: Body, vs: seq<Visit>): seq<seq<string>> {
    if vs == [] then []
    else (if IsLeaf(b, vs[0].path) then [vs[0].path] else []) + LeafRuns(b, vs[1..])
  }

  /** Only leaf bodies throw (the test case's own body may). */
  predicate OnlyLeavesThrow(b: Body)
    decreases b
  {
    forall i :: 0 <= i < |b.sections| ==>
      var s := b.sections[i].body;
      (s.throws ==> s.sections == []) && OnlyLeavesThrow(s)
  }

  /** No section throws (the test case's own body may). */
  predicate NoSectionThrows(b: Body)
    decreases b
  {
    forall i :: 0 <= i < |b.sections| ==> !b.sections[i].body.throws && NoSectionThrows(b.sections[i].body)
  }

  /** The number of sections at all levels. */
  function SectionCount(b: Body): nat
    decreases b, |b.sections| + 1
  {
    CountFrom(b, 0)
  }

  function CountFrom(b: Body, i: nat): nat
    requires i <= |b.sections|
    decreases b, |b.sections| - i
  {
    if i == |b.sections| then 0 else 1 + SectionCount(b.sections[i].body) + CountFrom(b, i + 1)
  }

  // ---------- Termination: a bound on the number of cycles ----------

  lemma {:induction false} VisitBound(b: Body, t: Tree)
    ensures |Remaining(b, t)| <= SectionCount(b) + 1
    decreases b, |b.sections| + 1
  {
    PendingBound(b, 0, t.kids);
  }

  lemma {:induction false} PendingBound(b: Body, i: nat, kids: seq<Tree>)
    requires i <= |b.sections|
    ensures |Pending(b, i, kids)| <= CountFrom(b, i)
    decreases b, |b.sections| - i
  {
    if i < |b.sections| {
      VisitBound(b.sections[i].body, KidAt(b, i, kids));
      PendingBound(b, i + 1, kids);
    }
  }

  /** Whatever throws, a test case takes at least one cycle and at most one more than it has sections. */
  lemma {:induction false} CycleBound(b: Body, name: string)
    ensures 1 <= |Cycles(b, Fresh(name))| <= SectionCount(b) + 1
  {
    var quiet := Body(b.sections, false);
    VisitBound(quiet, Fresh(name));
    CountOfSections(b, quiet, 0);
  }

  lemma {:induction false} CountOfSections(b: Body, b': Body, i: nat)
    requires b.sections == b'.sections && i <= |b.sections|
    ensures CountFrom(b, i) == CountFrom(b', i)
    decreases |b.sections| - i
  {
    if i < |b.sections| { CountOfSections(b, b', i + 1); }
  }

  // ---------- No two cycles end in the same place ----------

  predicate Distinct(vs: seq<Visit>) {
    forall j, k :: 0 <= j < k < |vs| ==> vs[j].path != vs[k].path
  }

  /** Every visit owed to sections `i..` starts with the name of one of them. */
  predicate Below(b: Body, i: nat, v: Visit) {
    v.path != [] && exists j :: i <= j < |b.sections| && b.sections[j].name == v.path[0]
  }

  lemma {:induction false} PendingBelow(b: Body, i: nat, kids: seq<Tree>)
    requires i <= |b.sections|
    ensures forall v <- Pending(b, i, kids) :: Below(b, i, v)
    decreases |b.sections| - i
  {
    if i < |b.sections| {
      PendingBelow(b, i + 1, kids);
      forall v | v in Pending(b, i, kids) ensures Below(b, i, v) {
        if v in Pending(b, i + 1, kids) { assert Below(b, i + 1, v); }
      }
    }
  }

  lemma {:induction false} FinishDistinct(throws: bool, w: seq<Visit>)
    requires Distinct(w) && forall v <- w :: v.path != []
    ensures Distinct(Finish(throws, w))
    ensures forall v <- Finish(throws, w) :: v.path == [] || exists u <- w :: u.path == v.path
  {
    if w != [] {
      FinishDistinct(throws, w[1..]);
    }
  }

  lemma {:induction false} VisitsDistinct(b: Body, t: Tree)
    requires WellFormed(b)
    ensures Distinct(Remaining(b, t))
    decreases b, |b.sections| + 1
  {
    PendingDistinct(b, 0, t.kids);
    PendingBelow(b, 0, t.kids);
    FinishDistinct(b.throws, Pending(b, 0, t.kids));
  }

  lemma {:induction false} PendingDistinct(b: Body, i: nat, kids: seq<Tree>)
    requires WellFormed(b) && i <= |b.sections|
    ensures Distinct(Pending(b, i, kids))
    decreases b, |b.sections| - i
  {
    if i < |b.sections| {
      var here := Under(b.sections[i].name, Remaining(b.sections[i].body, KidAt(b, i, kids)));
      var rest := Pending(b, i + 1, kids);
      VisitsDistinct(b.sections[i].body, KidAt(b, i, kids));
      PendingDistinct(b, i + 1, kids);
      PendingBelow(b, i + 1, kids);
      forall j, k | 0 <= j < |here| && 0 <= k < |rest| ensures here[j].path != rest[k].path {
        assert Below(b, i + 1, rest[k]);
      }
      forall j, k | 0 <= j < k < |here| ensures here[j].path != here[k].path {
        assert here[j].path[1..] != here[k].path[1..];
      }
    }
  }

  /** Whatever throws, no two cycles of a test case go down the same path: each section is the innermost
      one entered at most once, so each leaf body runs at most once. */
  lemma {:induction false} CyclesDistinct(b: Body, name: string)
    requires WellFormed(b)
    ensures Distinct(Cycles(b, Fresh(name)))
  {
    VisitsDistinct(Body(b.sections, false), Fresh(name));
  }

  // ---------- Which cycles fail ----------

  /** The body itself, or that of a section on `path`, throws. */
  predicate ThrowsAlong(b: Body, path: seq<string>)
    decreases b
  {
    b.throws || (path != [] && exists i ::
      0 <= i < |b.sections| && b.sections[i].name == path[0] && ThrowsAlong(b.sections[i].body, path[1..]))
  }

  /** Of a visit that enters a section: below the body itself. */
  predicate ThrowsBelow(b: Body, v: Visit) {
    v.path != [] && (v.threw <==> ThrowsAlong(Body(b.sections, false), v.path))
  }

  lemma ThrowsEnter(b: Body, i: nat, v: Visit)
    requires WellFormed(b) && i < |b.sections| && (v.threw <==> ThrowsAlong(b.sections[i].body, v.path))
    ensures ThrowsBelow(b, Enter(b.sections[i].name, v))
  {
    var p := Enter(b.sections[i].name, v).path;
    assert p[1..] == v.path;
    forall j | 0 <= j < |b.sections| && b.sections[j].name == p[0] ensures j == i {}
  }

  lemma {:induction false} FinishThrowsAlong(b: Body, w: seq<Visit>)
    requires forall v <- w :: ThrowsBelow(b, v)
    ensures forall v <- Finish(b.throws, w) :: v.threw <==> ThrowsAlong(b, v.path)
  {
    if w != [] {
      assert ThrowsBelow(b, w[0]);
      FinishThrowsAlong(b, w[1..]);
    }
  }

  lemma {:induction false} VisitThrew(b: Body, t: Tree)
    requires WellFormed(b)
    ensures forall v <- Remaining(b, t) :: v.threw <==> ThrowsAlong(b, v.path)
    decreases b, |b.sections| + 1
  {
    PendingThrew(b, 0, t.kids);
    FinishThrowsAlong(b, Pending(b, 0, t.kids));
  }

  lemma {:induction false} PendingThrew(b: Body, i: nat, kids: seq<Tree>)
    requires WellFormed(b) && i <= |b.sections|
    ensures forall v <- Pending(b, i, kids) :: ThrowsBelow(b, v)
    decreases b, |b.sections| - i
  {
    if i < |b.sections| {
      var r := Remaining(b.sections[i].body, KidAt(b, i, kids));
      VisitThrew(b.sections[i].body, KidAt(b, i, kids));
      PendingThrew(b, i + 1, kids);
      forall k | 0 <= k < |r| ensures ThrowsBelow(b, Enter(b.sections[i].name, r[k])) {
        ThrowsEnter(b, i, r[k]);
      }
    }
  }

  /** A cycle ends by an exception exactly when the test case's own body throws, or that of a section that it
      enters. */
  lemma {:induction false} CycleThrewIff(b: Body, name: string)
    requires WellFormed(b)
    ensures forall v <- Cycles(b, Fresh(name)) :: v.threw <==> ThrowsAlong(b, v.path)
  {
    var quiet := Body(b.sections, false);
    VisitThrew(quiet, Fresh(name));
    var vs, cs := Remaining(quiet, Fresh(name)), Cycles(b, Fresh(name));
    forall k | 0 <= k < |cs| ensures cs[k].threw <==> ThrowsAlong(b, cs[k].path) {
      assert vs[k] in vs;
    }
  }

  // ---------- Which leaves run ----------

  predicate AllButLastThrow(w: seq<Visit>) {
    forall k :: 0 <= k < |w| - 1 ==> w[k].threw
  }

  /** Every subsection but the last one throws itself, and so does the last one, or it is narrow in turn. */
  predicate Narrow(b: Body)
    decreases b
  {
    b.sections == []
    || var last := |b.sections| - 1;
       && (forall i :: 0 <= i < last ==> b.sections[i].body.throws)
       && (b.sections[last].body.throws || Narrow(b.sections[last].body))
  }

  /** A section with subsections whose own body throws at the end is marked failed, and never opened
      again, the first time a visit reaches that end.  It loses nothing exactly when it is narrow: then
      only its last visit gets there. */
  predicate Uncut(b: Body)
    decreases b, 1
  {
    AllUncut(b) && (b.throws ==> Narrow(b))
  }

  predicate AllUncut(b: Body)
    decreases b, 0
  {
    forall i :: 0 <= i < |b.sections| ==> Uncut(b.sections[i].body)
  }

  predicate AllThrow(w: seq<Visit>) {
    forall k :: 0 <= k < |w| ==> w[k].threw
  }

  lemma {:induction false} FinishThrows(throws: bool, w: seq<Visit>)
    ensures AllThrow(Finish(throws, w)) <==> throws
    ensures AllButLastThrow(Finish(false, w)) <==> AllButLastThrow(w)
  {
    if w != [] {
      FinishThrows(throws, w[1..]);
      FinishThrows(false, w[1..]);
      FirstThrows(w[0], w[1..]);
      FirstThrows(w[0], Finish(throws, w[1..]));
      FirstThrows(w[0], Finish(false, w[1..]));
      assert w == [w[0]] + w[1..];
      if !w[0].threw { assert Finish(throws, w)[0].threw == throws; }
    } else {
      assert Finish(throws, w)[0].threw == throws;
    }
  }

  lemma FirstThrows(v: Visit, rest: seq<Visit>)
    ensures AllThrow([v] + rest) <==> v.threw && AllThrow(rest)
    ensures AllButLastThrow([v] + rest) <==> rest == [] || (v.threw && AllButLastThrow(rest))
  {
    var w := [v] + rest;
    assert w[0] == v && forall k :: 0 <= k < |rest| ==> rest[k] == w[k + 1];
    assert forall k :: 0 <= k < |w| ==> w[k] == if k == 0 then v else rest[k - 1];
  }

  lemma ThrowsJoin(name: string, vs: seq<Visit>, rest: seq<Visit>)
    ensures AllButLastThrow(Under(name, vs)) <==> AllButLastThrow(vs)
    ensures rest != [] ==> (AllButLastThrow(Under(name, vs) + rest) <==> AllThrow(vs) && AllButLastThrow(rest))
  {
    var u := Under(name, vs);
    forall k | 0 <= k < |u| ensures (u + rest)[k].threw == u[k].threw == vs[k].threw {}
    forall k | 0 <= k < |rest| ensures (u + rest)[|u| + k] == rest[k] {}
  }

  /** Sections `i..` throw before the last visit to them exactly when the rest of the body is narrow. */
  predicate NarrowFrom(b: Body, i: nat) {
    i < |b.sections| ==>
      var last := |b.sections| - 1;
      && (forall j :: i <= j < last ==> b.sections[j].body.throws)
      && (b.sections[last].body.throws || Narrow(b.sections[last].body))
  }

  lemma {:induction false} NarrowIff(b: Body, i: nat)
    requires i <= |b.sections|
    ensures AllButLastThrow(Pending(b, i, [])) <==> NarrowFrom(b, i)
    ensures i < |b.sections| ==> Pending(b, i, []) != []
    decreases b, |b.sections| - i
  {
    if i < |b.sections| {
      var s := b.sections[i];
      var w, rest := Pending(s.body, 0, []), Pending(b, i + 1, []);
      assert Pending(b, i, []) == Under(s.name, Visits(s.body)) + rest && Visits(s.body) == Finish(s.body.throws, w);
      NarrowIff(b, i + 1);
      NarrowIff(s.body, 0);
      FinishThrows(s.body.throws, w);
      NarrowHere(b, i, w, rest);
    }
  }

  /** The step from the sections behind section `i`, which owes `rest`, to those from `i` on. */
  lemma NarrowHere(b: Body, i: nat, w: seq<Visit>, rest: seq<Visit>)
    requires i < |b.sections|
    requires AllThrow(Finish(b.sections[i].body.throws, w)) <==> b.sections[i].body.throws
    requires AllButLastThrow(Finish(false, w)) <==> Narrow(b.sections[i].body)
    requires AllButLastThrow(rest) <==> NarrowFrom(b, i + 1)
    requires rest == [] <==> i + 1 == |b.sections|
    ensures AllButLastThrow(Under(b.sections[i].name, Finish(b.sections[i].body.throws, w)) + rest) <==>
            NarrowFrom(b, i)
  {
    hide Narrow, Finish;
    var s := b.sections[i];
    var vs := Finish(s.body.throws, w);
    ThrowsJoin(s.name, vs, rest);
    if rest == [] { assert Under(s.name, vs) + rest == Under(s.name, vs); }
  }

  /** A visit that follows one that did not throw runs a leaf. */
  predicate LeafAfterOk(b: Body, w: seq<Visit>) {
    forall k :: 0 <= k < |w| - 1 && !w[k].threw ==> IsLeaf(b, w[k + 1].path)
  }

  lemma LeafBelow(b: Body, i: nat, path: seq<string>)
    requires WellFormed(b) && i < |b.sections|
    ensures IsLeaf(b, [b.sections[i].name] + path) <==> IsLeaf(b.sections[i].body, path)
  {
    var p := [b.sections[i].name] + path;
    assert p[1..] == path;
    if IsLeaf(b, p) {
      var j :| 0 <= j < |b.sections| && b.sections[j].name == p[0] && IsLeaf(b.sections[j].body, p[1..]);
      assert j == i;
    }
  }

  lemma {:induction false} LeafRunsConcat(b: Body, x: seq<Visit>, y: seq<Visit>)
    ensures LeafRuns(b, x + y) == LeafRuns(b, x) + LeafRuns(b, y)
  {
    if x == [] {
      assert x + y == y;
    } else {
      LeafRunsConcat(b, x[1..], y);
      assert (x + y)[1..] == x[1..] + y;
    }
  }

  lemma {:induction false} LeafRunsUnder(b: Body, i: nat, vs: seq<Visit>)
    requires WellFormed(b) && i < |b.sections|
    ensures LeafRuns(b, Under(b.sections[i].name, vs)) == Prefixed(b.sections[i].name, LeafRuns(b.sections[i].body, vs))
  {
    if vs != [] {
      LeafBelow(b, i, vs[0].path);
      LeafRunsUnder(b, i, vs[1..]);
    }
  }

  lemma {:induction false} FinishAfterOk(b: Body, w: seq<Visit>)
    requires LeafAfterOk(b, w)
    ensures LeafAfterOk(b, Finish(b.throws, w))
    ensures w != [] ==> Finish(b.throws, w)[0].path == w[0].path
  {
    if w != [] {
      var rest := w[1..];
      FinishAfterOk(b, rest);
      if 1 < |w| && !w[0].threw { assert IsLeaf(b, w[1].path) && w[1] == rest[0]; }
    }
  }

  lemma {:induction false} FinishRuns(b: Body, w: seq<Visit>)
    requires b.sections != []
    ensures LeafRuns(b, Finish(false, w)) == LeafRuns(b, w)
  {
    if |w| == 1 && !w[0].threw {
    } else if w != [] {
      FinishRuns(b, w[1..]);
      FirstLeaf(b, w[0], Finish(false, w[1..]));
    }
  }

  lemma {:induction false} FinishCuts(b: Body, w: seq<Visit>)
    requires b.sections != [] && LeafAfterOk(b, w)
    ensures AllButLastThrow(w) ==> LeafRuns(b, Finish(true, w)) == LeafRuns(b, w)
    ensures !AllButLastThrow(w) ==> |LeafRuns(b, Finish(true, w))| < |LeafRuns(b, w)|
  {
    if w != [] {
      var rest := w[1..];
      assert AllButLastThrow(w) <==> |w| == 1 || (w[0].threw && AllButLastThrow(rest));
      if w[0].threw {
        FinishCuts(b, rest);
        FirstLeaf(b, w[0], Finish(true, rest));
      } else {
        FirstLeaf(b, Visit(w[0].path, true), []);
        if rest != [] { assert IsLeaf(b, w[1].path) && w[1] == rest[0]; }
      }
    }
  }

  lemma FirstLeaf(b: Body, v: Visit, rest: seq<Visit>)
    ensures LeafRuns(b, [v] + rest) == (if IsLeaf(b, v.path) then [v.path] else []) + LeafRuns(b, rest)
  {
    assert ([v] + rest)[1..] == rest;
  }

  predicate UncutFrom(b: Body, i: nat) {
    forall j :: i <= j < |b.sections| ==> Uncut(b.sections[j].body)
  }

  lemma {:induction false} SectionLeaves(b: Body)
    requires WellFormed(b)
    ensures LeafAfterOk(b, Visits(b)) && IsLeaf(b, Visits(b)[0].path)
    ensures Uncut(b) ==> LeafRuns(b, Visits(b)) == Leaves(b)
    ensures !Uncut(b) ==> |LeafRuns(b, Visits(b))| < |Leaves(b)|
    decreases b, |b.sections| + 1
  {
    var w := Pending(b, 0, []);
    assert Visits(b) == Finish(b.throws, w);
    if b.sections == [] {
      assert Visits(b) == [Visit([], b.throws)];
      assert LeafRuns(b, Visits(b)) == [[]] && Leaves(b) == [[]];
      assert AllUncut(b) && Uncut(b);
    } else {
      PendingLeaves(b, 0);
      FinishAfterOk(b, w);
      FinishRuns(b, w);
      FinishCuts(b, w);
      assert Leaves(b) == LeavesFrom(b, 0);
      assert AllUncut(b) <==> UncutFrom(b, 0);
      if b.throws {
        NarrowIff(b, 0);
        assert Uncut(b) <==> AllUncut(b) && AllButLastThrow(w);
        assert |LeafRuns(b, w)| <= |Leaves(b)|;
      } else {
        assert Uncut(b) <==> AllUncut(b);
        assert LeafRuns(b, Visits(b)) == LeafRuns(b, w);
      }
    }
  }

  lemma {:induction false} PendingLeaves(b: Body, i: nat)
    requires WellFormed(b) && i <= |b.sections|
    ensures LeafAfterOk(b, Pending(b, i, []))
    ensures i < |b.sections| ==> Pending(b, i, []) != [] && IsLeaf(b, Pending(b, i, [])[0].path)
    ensures UncutFrom(b, i) ==> LeafRuns(b, Pending(b, i, [])) == LeavesFrom(b, i)
    ensures !UncutFrom(b, i) ==> |LeafRuns(b, Pending(b, i, []))| < |LeavesFrom(b, i)|
    decreases b, |b.sections| - i
  {
    if i < |b.sections| {
      var s := b.sections[i];
      var vs, rest := Remaining(s.body, KidAt(b, i, [])), Pending(b, i + 1, []);
      assert vs == Visits(s.body) && Pending(b, i, []) == Under(s.name, vs) + rest;
      assert UncutFrom(b, i) <==> Uncut(s.body) && UncutFrom(b, i + 1);
      SectionLeaves(s.body);
      PendingLeaves(b, i + 1);
      LeavesJoin(b, i, vs, rest);
    }
  }

  lemma LeavesJoin(b: Body, i: nat, vs: seq<Visit>, rest: seq<Visit>)
    requires WellFormed(b) && i < |b.sections|
    requires vs != [] && LeafAfterOk(b.sections[i].body, vs) && IsLeaf(b.sections[i].body, vs[0].path)
    requires LeafAfterOk(b, rest) && (rest != [] ==> IsLeaf(b, rest[0].path))
    ensures var s := b.sections[i];
            var w := Under(s.name, vs) + rest;
            && LeafAfterOk(b, w) && IsLeaf(b, w[0].path)
            && LeafRuns(b, w) == Prefixed(s.name, LeafRuns(s.body, vs)) + LeafRuns(b, rest)
  {
    var s := b.sections[i];
    LeafRunsUnder(b, i, vs);
    LeafRunsConcat(b, Under(s.name, vs), rest);
    forall k | 0 <= k < |vs| ensures IsLeaf(b, Enter(s.name, vs[k]).path) <==> IsLeaf(s.body, vs[k].path) {
      LeafBelow(b, i, vs[k].path);
    }
  }

  lemma {:induction false} LeafRunsOfSections(b: Body, b': Body, vs: seq<Visit>, vs': seq<Visit>)
    requires b.sections == b'.sections && |vs| == |vs'|
    requires forall k :: 0 <= k < |vs| ==> vs[k].path == vs'[k].path
    ensures LeafRuns(b, vs) == LeafRuns(b', vs')
  {
    if vs != [] { LeafRunsOfSections(b, b', vs[1..], vs'[1..]); }
  }

  lemma {:induction false} LeavesOfSections(b: Body, b': Body, i: nat)
    requires b.sections == b'.sections && i <= |b.sections|
    ensures LeavesFrom(b, i) == LeavesFrom(b', i)
    decreases |b.sections| - i
  {
    if i < |b.sections| { LeavesOfSections(b, b', i + 1); }
  }

  /** The exact condition under which a test case runs every leaf, read off the sections alone: each section
      whose own body throws is narrow.  The cycles then run all leaf bodies, once each and in depth-first
      order; otherwise they run fewer. */
  lemma {:induction false} AllLeavesRunIff(b: Body, name: string)
    requires WellFormed(b)
    ensures LeafRuns(b, Cycles(b, Fresh(name))) == Leaves(b) <==> AllUncut(b)
    ensures |LeafRuns(b, Cycles(b, Fresh(name)))| <= |Leaves(b)|
  {
    var quiet := Body(b.sections, false);
    SectionLeaves(quiet);
    LeafRunsOfSections(b, quiet, Cycles(b, Fresh(name)), Visits(quiet));
    LeavesOfSections(b, quiet, 0);
    assert AllUncut(b) <==> AllUncut(quiet);
  }

  lemma {:induction false} OnlyLeavesThrowIsUncut(b: Body)
    requires OnlyLeavesThrow(b)
    ensures AllUncut(b)
    decreases b
  {
    forall i | 0 <= i < |b.sections| ensures Uncut(b.sections[i].body) {
      OnlyLeavesThrowIsUncut(b.sections[i].body);
    }
  }

  /** When only leaf bodies fail, every leaf still runs exactly once, in depth-first order. */
  lemma EveryLeafRunsOnce(b: Body, name: string)
    requires WellFormed(b) && OnlyLeavesThrow(b)
    ensures LeafRuns(b, Cycles(b, Fresh(name))) == Leaves(b)
    ensures Distinct(Cycles(b, Fresh(name)))
  {
    OnlyLeavesThrowIsUncut(b);
    AllLeavesRunIff(b, name);
    CyclesDistinct(b, name);
  }

  // ---------- Passing test cases ----------

  function Passing(ps: seq<seq<string>>): (r: seq<Visit>)
    ensures |r| == |ps|
    ensures forall k :: 0 <= k < |ps| ==> r[k] == Visit(ps[k], false)
  {
    if ps == [] then [] else [Visit(ps[0], false)] + Passing(ps[1..])
  }

  lemma {:induction false} FinishPassing(w: seq<Visit>)
    requires forall v <- w :: !v.threw
    ensures Finish(false, w) == if w == [] then [Visit([], false)] else w
  {
    if 1 < |w| { FinishPassing(w[1..]); }
  }

  lemma {:induction false} VisitsPassing(b: Body, t: Tree)
    requires NoSectionThrows(b) && !b.throws && t.kids == [] && !IsComplete(t.state)
    ensures Remaining(b, t) == Passing(Leaves(b))
    decreases b, |b.sections| + 1
  {
    PendingPassing(b, 0);
    FinishPassing(Pending(b, 0, []));
  }

  lemma {:induction false} PendingPassing(b: Body, i: nat)
    requires NoSectionThrows(b) && i <= |b.sections|
    ensures Pending(b, i, []) == Passing(LeavesFrom(b, i))
    ensures i < |b.sections| ==> LeavesFrom(b, i) != []
    decreases b, |b.sections| - i
  {
    if i < |b.sections| {
      var s := b.sections[i];
      VisitsPassing(s.body, Fresh(s.name));
      PendingPassing(b, i + 1);
      LeavesExist(s.body);
    }
  }

  lemma {:induction false} LeavesExist(b: Body)
    ensures Leaves(b) != []
    decreases b
  {
    if b.sections != [] { LeavesExist(b.sections[0].body); }
  }

  /** When no section fails there are exactly as many cycles as leaves (one without sections), and cycle k
      enters exactly the sections on the path to leaf k. */
  lemma {:induction false} OneCyclePerLeaf(b: Body, name: string)
    requires NoSectionThrows(b)
    ensures var cs := Cycles(b, Fresh(name));
            |cs| == |Leaves(b)| && forall k :: 0 <= k < |cs| ==> cs[k] == Visit(Leaves(b)[k], b.throws)
  {
    var quiet := Body(b.sections, false);
    VisitsPassing(quiet, Fresh(name));
    LeavesOfSections(b, quiet, 0);
  }

  lemma TwoLeaves(inner: Body, first: string, second: string, throws: bool)
    requires inner == Body([Section(first, Body([], false)), Section(second, Body([], false))], throws)
    ensures NoSectionThrows(inner)
    ensures Leaves(inner) == [[first], [second]]
    ensures Pending(inner, 0, []) == [Visit([first], false), Visit([second], false)]
  {
    assert Leaves(inner.sections[0].body) == [[]];
    assert LeavesFrom(inner, 2) == [];
    assert [first] + [] == [first] && [second] + [] == [second];
    assert LeavesFrom(inner, 1) == [[second]];
    PendingPassing(inner, 0);
  }

  /** A failure at the end of a section that has subsections loses leaves: here the second subsection of
      the failing section never runs, although neither subsection fails. */
  lemma InnerFailureLosesLeaf(outer: string, first: string, second: string)
    requires first != second
    ensures var leaf := Body([], false);
            var b := Body([Section(outer, Body([Section(first, leaf), Section(second, leaf)], true))], false);
            && WellFormed(b)
            && Cycles(b, Fresh("test")) == [Visit([outer, first], true), Visit([], false)]
            && Leaves(b) == [[outer, first], [outer, second]]
  {
    var leaf := Body([], false);
    var inner := Body([Section(first, leaf), Section(second, leaf)], true);
    var b := Body([Section(outer, inner)], false);
    TwoLeaves(inner, first, second, true);
    assert WellFormed(leaf) && WellFormed(inner);
    assert [outer] + [first] == [outer, first] && [outer] + [second] == [outer, second];
    assert LeavesFrom(b, 1) == [] && Pending(b, 1, []) == [];
    assert Visits(inner) == [Visit([first], true)];
    assert Pending(b, 0, []) == [Visit([outer, first], true)];
  }
}

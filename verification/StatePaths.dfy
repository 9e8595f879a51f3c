/** The path of a transition: up from the current state to the nearest one above the target, then down. */
module StatePaths {
  import opened Basics
  import opened StateShape

  /** The target's nearest ancestor-or-self of `s`. */
  ghost function Nearest<S>(sh: Shape<S>, s: S, k: int): (r: S)
    requires sh.Valid() && s in sh.nodes && sh.Has(sh.root, k)
    ensures r in sh.nodes && sh.Has(r, k) && sh.Within(r, s)
    ensures NoneCloser(sh, r, s, k)
    decreases |sh.chain[s]|
  {
    if sh.Has(s, k) then s
    else
      var p := sh.Parent(s);
      var r := Nearest(sh, p, k);
      NoneCloserStep(sh, r, s, k);
      sh.ParentLink(s);
      r
  }

  /** Below `r`, no state above or at `s` has the key in its subtree. */
  ghost predicate NoneCloser<S>(sh: Shape<S>, r: S, s: S, k: int)
    requires sh.Valid() && r in sh.nodes && s in sh.nodes
  {
    forall x {:trigger sh.Within(x, s)} :: x in sh.nodes && sh.Within(x, s) && |sh.chain[r]| < |sh.chain[x]| ==>
        !sh.Has(x, k)
  }

  lemma NoneCloserStep<S>(sh: Shape<S>, r: S, s: S, k: int)
    requires sh.Valid() && r in sh.nodes && s in sh.nodes && s != sh.root && !sh.Has(s, k)
    requires 1 < |sh.chain[s]| && NoneCloser(sh, r, sh.Parent(s), k)
    ensures NoneCloser(sh, r, s, k)
  {
    sh.ParentLink(s);
    forall x | x in sh.nodes && sh.Within(x, s) && x != s ensures sh.Within(x, sh.Parent(s)) {
      if |sh.chain[x]| == |sh.chain[s]| { sh.SameDepth(x, s, s); }
    }
  }

  /** Leaving the states of a chain from the innermost one up to position `n`. */
  ghost function Exits<S>(chain: seq<S>, n: nat): seq<Node<S>>
    requires n <= |chain|
  {
    seq(|chain| - n, j requires 0 <= j < |chain| - n => Node(Exit, chain[|chain| - 1 - j]))
  }

  /** Entering the states of a chain from position `n` down; the last one is the target. */
  ghost function Enters<S>(chain: seq<S>, n: nat): seq<Node<S>>
    requires n <= |chain|
  {
    seq(|chain| - n, j requires 0 <= j < |chain| - n =>
        Node(if n + j == |chain| - 1 then Target else Enter, chain[n + j]))
  }

  /** The states left and entered by a transition to `k`, declaratively. */
  ghost function Route<S>(sh: Shape<S>, s: S, k: int): seq<Node<S>>
    requires sh.Valid() && s in sh.nodes && sh.Has(sh.root, k)
  {
    var a := Nearest(sh, s, k);
    var n := |sh.chain[a]|;
    Exits(sh.chain[s], n) + [Node(Noop, a)] + Enters(sh.chain[sh.Down(a, k)], n)
  }

  ghost function Destination<S>(sh: Shape<S>, s: S, k: int): (r: S)
    requires sh.Valid() && s in sh.nodes && sh.Has(sh.root, k)
    ensures r in sh.nodes && sh.key[r] == k
  {
    sh.Down(Nearest(sh, s, k), k)
  }

  // ---------- the path has the declared shape ----------

  /** The child that `get_child_path` picks. */
  ghost function Toward<S>(sh: Shape<S>, s: S, k: int): (c: S)
    requires sh.Valid() && s in sh.nodes && sh.Has(s, k) && sh.key[s] != k
    ensures c in sh.nodes && sh.Has(c, k) && sh.chain[c] == sh.chain[s] + [c]
    ensures sh.Down(c, k) == sh.Down(s, k)
  {
    var c := sh.kids[s][sh.ChildWith(s, 0, k)];
    sh.KidLink(s, c);
    c
  }

  lemma PathToward<S>(sh: Shape<S>, active: seq<S>, s: S, k: int, rest: seq<Node<S>>)
    requires sh.Valid() && s in sh.nodes && sh.Has(s, k) && sh.key[s] != k
    requires sh.Path(active, Toward(sh, s, k), k) == Some(rest)
    ensures sh.Path(active, s, k) == Some([Node(if s in active then Noop else Enter, s)] + rest)
  {
  }

  lemma EntersStep<S>(sh: Shape<S>, s: S, t: S)
    requires sh.Valid() && s in sh.nodes && sh.Within(s, t)
    ensures Enters(sh.chain[t], |sh.chain[s]| - 1)
            == [Node(if s == t then Target else Enter, s)] + Enters(sh.chain[t], |sh.chain[s]|)
  {
    var n := |sh.chain[s]|;
    sh.Ends(s);
    sh.Ends(t);
    assert sh.chain[t][n - 1] == s;
    if n == |sh.chain[t]| {
      assert sh.chain[t] == sh.chain[s];
    }
  }

  lemma {:induction false} DownPath<S>(sh: Shape<S>, active: seq<S>, s: S, k: int)
    requires sh.Valid() && s in sh.nodes && sh.Has(s, k)
    requires forall x <- active :: x in sh.nodes && (|sh.chain[s]| <= |sh.chain[x]| ==> !sh.Has(x, k))
    ensures 0 < |sh.chain[s]|
    ensures sh.Path(active, s, k) == Some(Enters(sh.chain[sh.Down(s, k)], |sh.chain[s]| - 1))
    decreases sh.height - |sh.chain[s]|
  {
    var t := sh.Down(s, k);
    EntersStep(sh, s, t);
    if sh.key[s] == k {
      assert Enters(sh.chain[s], |sh.chain[s]|) == [];
      assert [Node(Target, s)] + [] == [Node(Target, s)];
    } else {
      var c := Toward(sh, s, k);
      DownPath(sh, active, c, k);
      PathToward(sh, active, s, k, Enters(sh.chain[t], |sh.chain[s]|));
    }
  }

  lemma {:induction false} HasUpward<S>(sh: Shape<S>, s: S, x: S, k: int)
    requires sh.Valid() && s in sh.nodes && x in sh.nodes && sh.Within(s, x) && sh.Has(x, k)
    ensures sh.Has(s, k)
  {
    sh.HasIff(s, k);
    sh.HasIff(x, k);
  }

  /** From a state below which the target is, with nothing deeper on the active chain containing it. */
  lemma PathFromNearest<S>(sh: Shape<S>, cur: S, s: S, k: int)
    requires sh.Valid() && cur in sh.nodes && s in sh.nodes && sh.Has(s, k) && sh.Within(s, cur)
    requires NoneCloser(sh, s, cur, k)
    ensures sh.Path(sh.chain[cur], s, k) == Some([Node(Noop, s)] + Enters(sh.chain[sh.Down(s, k)], |sh.chain[s]|))
  {
    var active, n := sh.chain[cur], |sh.chain[s]|;
    sh.Ends(s);
    assert active[n - 1] == s;
    var t := sh.Down(s, k);
    if sh.key[s] == k {
      assert Enters(sh.chain[s], n) == [];
      assert [Node(Noop, s)] + [] == [Node(Noop, s)];
    } else {
      var c := Toward(sh, s, k);
      forall x <- active ensures x in sh.nodes && (n + 1 <= |sh.chain[x]| ==> !sh.Has(x, k)) {
        var j :| 0 <= j < |active| && active[j] == x;
        sh.Prefix(cur, j);
        assert sh.Within(x, cur);
      }
      DownPath(sh, active, c, k);
      PathToward(sh, active, s, k, Enters(sh.chain[t], n));
    }
  }

  lemma PathFromParent<S>(sh: Shape<S>, active: seq<S>, s: S, k: int, rest: seq<Node<S>>)
    requires sh.Valid() && s in sh.nodes && !sh.Has(s, k) && s != sh.root
    ensures 1 < |sh.chain[s]|
    ensures sh.Path(active, sh.Parent(s), k) == Some(rest) ==> sh.Path(active, s, k) == Some([Node(Exit, s)] + rest)
  {
  }

  lemma RouteFromParent<S>(sh: Shape<S>, s: S, k: int)
    requires sh.Valid() && s in sh.nodes && sh.Has(sh.root, k) && !sh.Has(s, k)
    ensures 1 < |sh.chain[s]|
    ensures Route(sh, s, k) == [Node(Exit, s)] + Route(sh, sh.Parent(s), k)
  {
    var p := sh.Parent(s);
    sh.ParentLink(s);
    var n := |sh.chain[Nearest(sh, p, k)]|;
    assert Nearest(sh, s, k) == Nearest(sh, p, k);
    assert Exits(sh.chain[s], n) == [Node(Exit, s)] + Exits(sh.chain[p], n);
  }

  lemma NoneCloserParent<S>(sh: Shape<S>, s: S, cur: S, k: int)
    requires sh.Valid() && cur in sh.nodes && s in sh.nodes && sh.Within(s, cur) && s != sh.root && !sh.Has(s, k)
    requires NoneCloser(sh, s, cur, k)
    ensures 1 < |sh.chain[s]| && sh.Within(sh.Parent(s), cur) && NoneCloser(sh, sh.Parent(s), cur, k)
  {
    sh.ParentLink(s);
    forall x | x in sh.nodes && sh.Within(x, cur) && |sh.chain[sh.Parent(s)]| < |sh.chain[x]| && x != s
      ensures |sh.chain[s]| < |sh.chain[x]|
    {
      if |sh.chain[x]| == |sh.chain[s]| { sh.SameDepth(x, s, cur); }
    }
  }

  lemma {:induction false} PathUp<S>(sh: Shape<S>, cur: S, s: S, k: int)
    requires sh.Valid() && cur in sh.nodes && s in sh.nodes && sh.Within(s, cur) && sh.Has(sh.root, k)
    requires NoneCloser(sh, s, cur, k)
    ensures sh.Path(sh.chain[cur], s, k) == Some(Route(sh, s, k))
    decreases |sh.chain[s]|
  {
    if sh.Has(s, k) {
      PathFromNearest(sh, cur, s, k);
      assert Exits(sh.chain[s], |sh.chain[s]|) == [];
      assert Route(sh, s, k) == [Node(Noop, s)] + Enters(sh.chain[sh.Down(s, k)], |sh.chain[s]|);
    } else {
      NoneCloserParent(sh, s, cur, k);
      RouteFromParent(sh, s, k);
      PathUp(sh, cur, sh.Parent(s), k);
      PathFromParent(sh, sh.chain[cur], s, k, Route(sh, sh.Parent(s), k));
    }
  }

  /** With the active states those from the root to `cur`, the path built by the code leaves, innermost
      first, exactly the states below the nearest ancestor-or-self of `cur` that contains the target, has
      one noop there, and enters, outermost first, exactly the states from there down to the target. */
  lemma {:induction false} PathIsRoute<S>(sh: Shape<S>, cur: S, k: int)
    requires sh.Valid() && cur in sh.nodes
    ensures sh.Has(sh.root, k) ==> sh.Path(sh.chain[cur], cur, k) == Some(Route(sh, cur, k))
    ensures !sh.Has(sh.root, k) ==> sh.Path(sh.chain[cur], cur, k) == None
  {
    if sh.Has(sh.root, k) {
      PathUp(sh, cur, cur, k);
    } else {
      NoPath(sh, sh.chain[cur], cur, k);
    }
  }

  lemma {:induction false} NoPath<S>(sh: Shape<S>, active: seq<S>, s: S, k: int)
    requires sh.Valid() && s in sh.nodes && !sh.Has(sh.root, k)
    ensures sh.Path(active, s, k) == None
    decreases |sh.chain[s]|
  {
    if sh.Has(s, k) {
      sh.Ends(s);
      HasUpward(sh, sh.root, s, k);
    } else if s != sh.root {
      NoPath(sh, active, sh.Parent(s), k);
    }
  }

  /** The turning point is the lowest common ancestor of the current state and the target: every state
      above both is at or above it. */
  lemma {:induction false} TurnsAtLowestCommonAncestor<S>(sh: Shape<S>, cur: S, k: int, x: S)
    requires sh.Valid() && cur in sh.nodes && sh.Has(sh.root, k) && x in sh.nodes
    ensures sh.Within(x, cur) && sh.Within(x, Destination(sh, cur, k)) <==> sh.Within(x, Nearest(sh, cur, k))
  {
    var a := Nearest(sh, cur, k);
    var t := Destination(sh, cur, k);
    if sh.Within(x, cur) && sh.Within(x, t) && !sh.Within(x, a) {
      assert |sh.chain[a]| < |sh.chain[x]|;
      sh.HasBelow(x, t);
    }
  }

  // ---------- a route as a trip between two chains ----------

  /** From state `s` to state `t`, whose chains share their first `common` states. */
  datatype Trip<S> = Trip(s: S, t: S, from: seq<S>, to: seq<S>, common: nat)
  {
    ghost predicate Valid() {
      && 1 <= common <= |from| && common <= |to| && from[..common] == to[..common]
      && from[|from| - 1] == s && to[|to| - 1] == t
    }

    /** The number of states left. */
    function Up(): nat
      requires common <= |from|
    {
      |from| - common
    }

    function Length(): nat
      requires common <= |from| && common <= |to|
    {
      Up() + 1 + |to| - common
    }

    ghost function NodeAt(i: nat): Node<S>
      requires Valid() && i < Length()
    {
      if i < Up() then Node(Exit, from[|from| - 1 - i])
      else if i == Up() then Node(Noop, from[common - 1])
      else
        var m := common + (i - Up() - 1);
        Node(if m == |to| - 1 then Target else Enter, to[m])
    }

    /** The active states after `i` steps. */
    ghost function ActiveAt(i: nat): seq<S>
      requires Valid() && i <= Length()
    {
      if i <= Up() then from[..|from| - i] else to[..common + (i - Up() - 1)]
    }

    /** The state `current_` names after `i` steps. */
    ghost function CurrentAt(i: nat): S
      requires Valid() && i <= Length()
    {
      if i <= Up() then s else if i == Length() then t else from[common - 1]
    }
  }

  ghost function TripTo<S>(sh: Shape<S>, s: S, k: int): Trip<S>
    requires sh.Valid() && s in sh.nodes && sh.Has(sh.root, k)
  {
    var t := Destination(sh, s, k);
    Trip(s, t, sh.chain[s], sh.chain[t], |sh.chain[Nearest(sh, s, k)]|)
  }

  ghost predicate Fits<S>(sh: Shape<S>, trip: Trip<S>) {
    && sh.Valid() && trip.Valid() && trip.s in sh.nodes && trip.t in sh.nodes
    && trip.from == sh.chain[trip.s] && trip.to == sh.chain[trip.t]
  }

  lemma TripFits<S>(sh: Shape<S>, s: S, k: int)
    requires sh.Valid() && s in sh.nodes && sh.Has(sh.root, k)
    ensures var trip := TripTo(sh, s, k); Fits(sh, trip) && trip.from[trip.common - 1] == Nearest(sh, s, k)
  {
    sh.Ends(Nearest(sh, s, k));
    sh.Ends(s);
    sh.Ends(Destination(sh, s, k));
  }

  lemma RouteIsTrip<S>(sh: Shape<S>, s: S, k: int)
    requires sh.Valid() && s in sh.nodes && sh.Has(sh.root, k)
    ensures var trip := TripTo(sh, s, k);
            && Fits(sh, trip)
            && (forall i {:trigger Route(sh, s, k)[i]} :: 0 <= i < |Route(sh, s, k)| ==>
                Route(sh, s, k)[i].state in sh.nodes)
            && |Route(sh, s, k)| == trip.Length()
            && forall i :: 0 <= i < trip.Length() ==> Route(sh, s, k)[i] == trip.NodeAt(i)
  {
    TripFits(sh, s, k);
    var trip := TripTo(sh, s, k);
    RouteNodes(trip, Nearest(sh, s, k));
    forall i | 0 <= i < trip.Length() ensures trip.NodeAt(i).state in sh.nodes {
      NodeOk(sh, trip, i);
    }
  }

  lemma RouteNodes<S>(trip: Trip<S>, a: S)
    requires trip.Valid() && trip.from[trip.common - 1] == a
    ensures var r := Exits(trip.from, trip.common) + [Node(Noop, a)] + Enters(trip.to, trip.common);
            |r| == trip.Length() && forall i :: 0 <= i < |r| ==> r[i] == trip.NodeAt(i)
  {
    var e := Exits(trip.from, trip.common);
    var r := e + [Node(Noop, a)] + Enters(trip.to, trip.common);
    forall i | 0 <= i < |r| ensures r[i] == trip.NodeAt(i) {
      if i < |e| {
        assert r[i] == e[i];
      } else if |e| < i {
        assert r[i] == Enters(trip.to, trip.common)[i - |e| - 1];
      }
    }
  }

  /** The chain on which step `i` happens, and where. */
  lemma NodeIndex<S>(trip: Trip<S>, i: nat) returns (chain: seq<S>, j: nat)
    requires trip.Valid() && i < trip.Length()
    ensures chain == (if i <= trip.Up() then trip.from else trip.to) && j < |chain|
    ensures trip.NodeAt(i).state == chain[j]
    ensures chain[..j + 1] == if i <= trip.Up() then trip.ActiveAt(i) else trip.ActiveAt(i + 1)
    ensures i < trip.Up() ==> 0 < j
  {
    if i <= trip.Up() {
      chain, j := trip.from, if i < trip.Up() then |trip.from| - 1 - i else trip.common - 1;
    } else {
      chain, j := trip.to, trip.common + (i - trip.Up() - 1);
    }
  }

  lemma NodeOk<S>(sh: Shape<S>, trip: Trip<S>, i: nat)
    requires Fits(sh, trip) && i < trip.Length()
    ensures var x := trip.NodeAt(i).state;
            && x in sh.nodes
            && (i < trip.Up() ==> x != sh.root)
            && sh.chain[x] == if i <= trip.Up() then trip.ActiveAt(i) else trip.ActiveAt(i + 1)
  {
    var chain, j := NodeIndex(trip, i);
    sh.Prefix(if i <= trip.Up() then trip.s else trip.t, j);
  }
}

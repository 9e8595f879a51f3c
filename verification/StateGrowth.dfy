/** A new machine, and adding a state to a hierarchy as `state::add` does. */
module StateGrowth {
  import opened StateShape
  import opened StateRuns

  ghost function RootShape<S>(r: S): Shape<S> {
    Shape<S>.Shape(r, {r}, map[r := 0], map[r := []], map[r := [r]], 1)
  }

  ghost function RootView<S>(r: S): View<S> {
    View<S>.View(r, [r], map[r := Counts(1, 0, 0)], [Entered(r)])
  }

  lemma RootSettled<S>(r: S)
    ensures RootShape(r).Valid() && Settled(RootShape(r), RootView(r))
  {
    var sh := RootShape(r);
    assert sh.Linked(r);
  }

  ghost predicate CanAdd<S>(sh: Shape<S>, p: S, c: S, k: int) {
    sh.Valid() && p in sh.nodes && c !in sh.nodes && !sh.Has(p, k)
  }

  /** The children of `p` with `c` where std::map::insert puts it: after the smaller keys. */
  ghost function Inserted<S>(sh: Shape<S>, ks: seq<S>, c: S, k: int): (r: seq<S>)
    requires forall x <- ks :: x in sh.key
    ensures c in r && (forall x <- ks :: x in r) && (forall x <- r :: x in ks || x == c)
  {
    if ks == [] || k < sh.key[ks[0]] then [c] + ks else [ks[0]] + Inserted(sh, ks[1..], c, k)
  }

  ghost predicate Sorted<S>(key: map<S, int>, ks: seq<S>) {
    forall i, j :: 0 <= i < j < |ks| ==> ks[i] in key && ks[j] in key && key[ks[i]] < key[ks[j]]
  }

  lemma {:induction false} InsertedSorted<S>(sh: Shape<S>, ks: seq<S>, c: S, k: int)
    requires forall x <- ks :: x in sh.key && sh.key[x] != k
    requires Sorted(sh.key, ks) && c !in sh.key
    ensures Sorted(sh.key[c := k], Inserted(sh, ks, c, k))
  {
    if ks != [] && sh.key[ks[0]] <= k {
      InsertedSorted(sh, ks[1..], c, k);
      var rest := Inserted(sh, ks[1..], c, k);
      forall j | 0 <= j < |rest| ensures rest[j] in sh.key[c := k] && sh.key[ks[0]] < sh.key[c := k][rest[j]] {
        if rest[j] != c {
          assert rest[j] in ks[1..];
        }
      }
    }
  }

  ghost function Added<S>(sh: Shape<S>, p: S, c: S, k: int): Shape<S>
    requires CanAdd(sh, p, c, k)
  {
    Shape(sh.root, sh.nodes + {c}, sh.key[c := k], sh.kids[p := Inserted(sh, sh.kids[p], c, k)][c := []],
          sh.chain[c := sh.chain[p] + [c]], sh.height + 1)
  }

  lemma AddedKids<S>(sh: Shape<S>, p: S, c: S, k: int)
    requires CanAdd(sh, p, c, k)
    ensures Sorted(sh.key[c := k], Inserted(sh, sh.kids[p], c, k))
  {
    assert sh.Linked(p);
    forall x <- sh.kids[p] ensures x in sh.key && sh.key[x] != k {
      assert sh.Has(x, sh.key[x]);
    }
    InsertedSorted(sh, sh.kids[p], c, k);
  }

  lemma AddedParent<S>(sh: Shape<S>, p: S, c: S, k: int, s: S)
    requires CanAdd(sh, p, c, k) && s in sh.nodes + {c} && s != sh.root
    ensures var g := Added(sh, p, c, k);
            && 1 < |g.chain[s]| && g.Parent(s) == (if s == c then p else sh.Parent(s)) && g.Parent(s) in sh.nodes
            && g.chain[s] == g.chain[g.Parent(s)] + [s] && s in g.kids[g.Parent(s)]
  {
    if s == c {
      sh.Ends(p);
    } else {
      sh.ParentLink(s);
    }
  }

  lemma AddedChain<S>(sh: Shape<S>, p: S, c: S, k: int, s: S)
    requires CanAdd(sh, p, c, k) && s in sh.nodes + {c}
    ensures var g := Added(sh, p, c, k);
            && g.chain[s][0] == g.root && g.chain[s][|g.chain[s]| - 1] == s
            && forall i :: 0 <= i < |g.chain[s]| ==>
                 g.chain[s][i] in g.nodes && g.chain[s][i] in g.chain && g.chain[g.chain[s][i]] == g.chain[s][..i + 1]
  {
    var known := if s == c then p else s;
    var g := Added(sh, p, c, k);
    sh.Ends(known);
    forall i | 0 <= i < |g.chain[s]|
      ensures g.chain[s][i] in g.nodes && g.chain[s][i] in g.chain && g.chain[g.chain[s][i]] == g.chain[s][..i + 1]
    {
      if i < |sh.chain[known]| { sh.Prefix(known, i); }
    }
  }

  lemma AddedChildren<S>(sh: Shape<S>, p: S, c: S, k: int, s: S)
    requires CanAdd(sh, p, c, k) && s in sh.nodes + {c}
    ensures var g := Added(sh, p, c, k);
            && (forall x <- g.kids[s] :: x in g.nodes && x in g.key && g.chain[x] == g.chain[s] + [x])
            && Sorted(g.key, g.kids[s])
  {
    AddedKids(sh, p, c, k);
    if s != c {
      assert sh.Linked(s);
    }
  }

  lemma AddedDepth<S>(sh: Shape<S>, p: S, c: S, k: int, s: S)
    requires CanAdd(sh, p, c, k) && s in sh.nodes + {c}
    ensures var g := Added(sh, p, c, k);
            && s in g.chain && s in g.kids && 0 < |g.chain[s]| <= g.height && (s != g.root ==> 1 < |g.chain[s]|)
            && (forall x <- g.kids[s] :: x in g.nodes && x in g.chain && |g.chain[x]| == |g.chain[s]| + 1)
            && (1 < |g.chain[s]| ==>
                  g.Parent(s) in g.nodes && g.Parent(s) in g.chain && |g.chain[s]| == |g.chain[g.Parent(s)]| + 1)
  {
    AddedChildren(sh, p, c, k, s);
    if s != sh.root { AddedParent(sh, p, c, k, s); }
  }

  lemma AddedLinked<S>(sh: Shape<S>, p: S, c: S, k: int, s: S)
    requires CanAdd(sh, p, c, k) && s in sh.nodes + {c}
    ensures Added(sh, p, c, k).Linked(s)
  {
    AddedChain(sh, p, c, k, s);
    AddedChildren(sh, p, c, k, s);
    if s != sh.root { AddedParent(sh, p, c, k, s); }
  }

  lemma AddedDepths<S>(sh: Shape<S>, p: S, c: S, k: int)
    requires CanAdd(sh, p, c, k)
    ensures Added(sh, p, c, k).Domains() && Added(sh, p, c, k).Depths()
  {
    var g := Added(sh, p, c, k);
    forall s | s in g.nodes
      ensures s in g.chain && s in g.kids && 0 < |g.chain[s]| <= g.height && (s != g.root ==> 1 < |g.chain[s]|)
    {
      AddedDepth(sh, p, c, k, s);
    }
    forall s, i | s in g.nodes && 0 <= i < |g.kids[s]|
      ensures g.kids[s][i] in g.nodes && g.kids[s][i] in g.chain && |g.chain[g.kids[s][i]]| == |g.chain[s]| + 1
    {
      AddedDepth(sh, p, c, k, s);
      assert g.kids[s][i] in g.kids[s];
    }
    forall s | s in g.nodes && 1 < |g.chain[s]|
      ensures g.Parent(s) in g.nodes && g.Parent(s) in g.chain && |g.chain[s]| == |g.chain[g.Parent(s)]| + 1
    {
      AddedDepth(sh, p, c, k, s);
    }
  }

  lemma AddedLinks<S>(sh: Shape<S>, p: S, c: S, k: int)
    requires CanAdd(sh, p, c, k)
    ensures Added(sh, p, c, k).Links()
  {
    forall s <- sh.nodes + {c} ensures Added(sh, p, c, k).Linked(s) {
      AddedLinked(sh, p, c, k, s);
    }
  }

  /** The result is again a hierarchy, in which every old state keeps its chain. */
  lemma AddedValid<S>(sh: Shape<S>, p: S, c: S, k: int)
    requires CanAdd(sh, p, c, k)
    ensures Added(sh, p, c, k).Valid()
    ensures forall s <- sh.nodes :: Added(sh, p, c, k).chain[s] == sh.chain[s]
  {
    AddedDepths(sh, p, c, k);
    AddedLinks(sh, p, c, k);
  }

  /** Adding a state leaves the machine settled: the current state and the active chain stay as they are. */
  lemma AddedSettles<S>(sh: Shape<S>, v: View<S>, p: S, c: S, k: int, stats: Counts)
    requires CanAdd(sh, p, c, k) && Settled(sh, v) && Net(stats) == 0
    ensures Settled(Added(sh, p, c, k), v.(counts := v.counts[c := stats]))
  {
    AddedValid(sh, p, c, k);
    var w := v.(counts := v.counts[c := stats]);
    forall x | x in w.counts ensures BalancedAt(w, x) {
      if x == c {
        if c in v.active {
          var i :| 0 <= i < |v.active| && v.active[i] == c;
          sh.Prefix(v.current, i);
        }
      } else {
        assert BalancedAt(v, x);
      }
    }
  }

  /** `add` looks for the key only at and below the state that receives the child, so it keeps keys unique
      exactly when the key is new to the whole hierarchy. */
  lemma StaysUniqueIff<S>(sh: Shape<S>, p: S, c: S, k: int)
    requires CanAdd(sh, p, c, k)
    ensures Added(sh, p, c, k).Valid()
    ensures UniqueKeys(Added(sh, p, c, k)) <==> UniqueKeys(sh) && !sh.Has(sh.root, k)
  {
    AddedValid(sh, p, c, k);
    var g := Added(sh, p, c, k);
    sh.HasIff(sh.root, k);
    if UniqueKeys(g) {
      forall x, y | x in sh.nodes && y in sh.nodes && sh.key[x] == sh.key[y] ensures x == y {
        assert g.key[x] == g.key[y];
      }
      forall x | x in sh.nodes ensures sh.key[x] != k {
        assert g.key[c] == k && g.key[x] == sh.key[x];
      }
    } else {
      var x, y :| x in g.nodes && y in g.nodes && g.key[x] == g.key[y] && x != y;
      if x == c || y == c {
        var z := if x == c then y else x;
        sh.Ends(z);
        assert sh.key[z] == k && sh.Within(sh.root, z);
      }
    }
  }

  /** Keys 1 and 2 are in use below the root, and key 2 can still be added below 1. */
  lemma DuplicateKey<S>(r: S, a: S, b: S, c: S) returns (sh: Shape<S>, v: View<S>)
    requires r != a && r != b && a != b && c !in {r, a, b}
    ensures Settled(sh, v) && UniqueKeys(sh) && CanAdd(sh, a, c, 2) && sh.Has(sh.root, 2)
    ensures Added(sh, a, c, 2).Valid() && !UniqueKeys(Added(sh, a, c, 2))
  {
    var none := Counts(0, 0, 0);
    sh, v := RootShape(r), RootView(r);
    RootSettled(r);
    AddedSettles(sh, v, r, a, 1, none);
    StaysUniqueIff(sh, r, a, 1);
    sh, v := Added(sh, r, a, 1), v.(counts := v.counts[a := none]);
    sh.HasIff(r, 2);
    AddedSettles(sh, v, r, b, 2, none);
    StaysUniqueIff(sh, r, b, 2);
    sh, v := Added(sh, r, b, 2), v.(counts := v.counts[b := none]);
    assert sh.Within(r, b) && sh.key[b] == 2;
    sh.HasIff(r, 2);
    sh.HasIff(a, 2);
    StaysUniqueIff(sh, a, c, 2);
  }
}

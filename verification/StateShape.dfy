/** A hierarchy of states as a value, and the transition paths through it. */
module StateShape {
  import opened Basics

  datatype Code = Noop | Exit | Enter | Target

  datatype Node<S> = Node(code: Code, state: S)

  /** The tree below `root`.  `chain[s]` lists the states from the root down to `s`; `kids[s]` the children
      of `s` in the order of the std::map that holds them, that is, by key. */
  datatype Shape<S> = Shape(root: S, nodes: set<S>, key: map<S, int>, kids: map<S, seq<S>>,
                            chain: map<S, seq<S>>, height: nat)
  {
    ghost predicate Valid() {
      Domains() && Depths() && Links()
    }

    ghost predicate Domains() {
      root in nodes && key.Keys == nodes && kids.Keys == nodes && chain.Keys == nodes && chain[root] == [root]
    }

    /** How deep children and parents lie. */
    ghost predicate Depths() {
      && (forall s <- nodes :: s in chain && s in kids && 0 < |chain[s]| <= height && (s != root ==> 1 < |chain[s]|))
      && (forall s, i {:trigger kids[s][i]} :: s in nodes && s in kids && 0 <= i < |kids[s]| ==>
            kids[s][i] in nodes && kids[s][i] in chain && |chain[kids[s][i]]| == |chain[s]| + 1)
      && (forall s {:trigger Parent(s)} :: s in nodes && 1 < |chain[s]| ==>
            Parent(s) in nodes && Parent(s) in chain && |chain[s]| == |chain[Parent(s)]| + 1)
    }

    /** What each state's chain is; a proof names the states it needs this for. */
    ghost predicate Links() {
      forall s {:trigger Linked(s)} :: s in nodes ==> Linked(s)
    }

    /** The chain of `s` leads from the root to `s`; each state's chain on it is a prefix of it; `s` is a
        child of the state before it; its own children extend it and are sorted by key. */
    ghost predicate Linked(s: S) {
      && s in chain && s in kids && 0 < |chain[s]| && chain[s][0] == root && chain[s][|chain[s]| - 1] == s
      && (forall i :: 0 <= i < |chain[s]| ==>
            chain[s][i] in nodes && chain[s][i] in chain && chain[chain[s][i]] == chain[s][..i + 1])
      && (1 < |chain[s]| ==>
            Parent(s) in chain && Parent(s) in kids && chain[s] == chain[Parent(s)] + [s] && s in kids[Parent(s)])
      && (forall c <- kids[s] :: c in chain && c in key && chain[c] == chain[s] + [c])
      && (forall i, j :: 0 <= i < j < |kids[s]| ==> key[kids[s][i]] < key[kids[s][j]])
    }

    ghost function Parent(s: S): S
      requires s in chain && 1 < |chain[s]|
    {
      chain[s][|chain[s]| - 2]
    }

    /** `x` is `s` or a descendant of it. */
    ghost predicate Within(s: S, x: S)
      requires s in chain
    {
      x in chain && chain[s] <= chain[x]
    }

    lemma Ends(s: S)
      requires Valid() && s in nodes
      ensures chain[s][0] == root && chain[s][|chain[s]| - 1] == s && Within(root, s)
    {
      assert Linked(s);
    }

    lemma Prefix(s: S, i: nat)
      requires Valid() && s in nodes && i < |chain[s]|
      ensures var x := chain[s][i]; x in nodes && chain[x] == chain[s][..i + 1] && (0 < i ==> x != root)
    {
      assert Linked(s);
    }

    lemma ParentLink(s: S)
      requires Valid() && s in nodes && s != root
      ensures 1 < |chain[s]|
      ensures Parent(s) in nodes && chain[s] == chain[Parent(s)] + [s] && s in kids[Parent(s)]
    {
      assert Linked(s);
    }

    lemma KidLink(s: S, c: S)
      requires Valid() && s in nodes && c in kids[s]
      ensures c in nodes && chain[c] == chain[s] + [c]
    {
      assert Linked(s);
    }

    /** Two states of the same depth above the same state are the same. */
    lemma SameDepth(x: S, y: S, s: S)
      requires Valid() && x in nodes && y in nodes && s in nodes && Within(x, s) && Within(y, s)
      requires |chain[x]| == |chain[y]|
      ensures x == y
    {
      Ends(x);
      Ends(y);
      assert chain[s][|chain[x]| - 1] == x && chain[s][|chain[y]| - 1] == y;
    }

    lemma Distinct(s: S, x: S)
      requires Valid() && s in nodes
      ensures chain[s] == chain[s][..|chain[s]| - 1] + [s]
      ensures x in chain[s][..|chain[s]| - 1] <==> x in chain[s] && x != s
    {
      assert Linked(s);
    }

    // ---------- has and find ----------

    ghost predicate Has(s: S, k: int)
      requires Valid() && s in nodes
      decreases height - |chain[s]|
    {
      key[s] == k || exists c :: c in kids[s] && Has(c, k)
    }

    /** The position of the first child from `i` on whose subtree has the key. */
    ghost function ChildWith(s: S, i: nat, k: int): (r: nat)
      requires Valid() && s in nodes && i <= |kids[s]|
      ensures i <= r <= |kids[s]|
      ensures forall j :: i <= j < r ==> !Has(kids[s][j], k)
      ensures r < |kids[s]| ==> Has(kids[s][r], k)
      decreases |kids[s]| - i
    {
      if i == |kids[s]| || Has(kids[s][i], k) then i else ChildWith(s, i + 1, k)
    }

    /** The state with key `k` that a search below `s` meets first. */
    ghost function Down(s: S, k: int): (r: S)
      requires Valid() && s in nodes && Has(s, k)
      ensures r in nodes && key[r] == k && Within(s, r)
      decreases height - |chain[s]|
    {
      if key[s] == k then s
      else
        var c := kids[s][ChildWith(s, 0, k)];
        var r := Down(c, k);
        KidLink(s, c);
        r
    }

    lemma {:induction false} HasIff(s: S, k: int)
      requires Valid() && s in nodes
      ensures Has(s, k) <==> exists x <- nodes :: Within(s, x) && key[x] == k
      decreases height - |chain[s]|
    {
      if Has(s, k) {
        assert Within(s, Down(s, k));
      }
      if x :| x in nodes && Within(s, x) && key[x] == k {
        HasBelow(s, x);
      }
    }

    /** The child of `s` on the chain of `x`. */
    lemma ChildTowards(s: S, x: S) returns (j: nat)
      requires Valid() && s in nodes && x in nodes && Within(s, x) && x != s
      ensures |chain[s]| < |chain[x]|
      ensures j < |kids[s]| && kids[s][j] == chain[x][|chain[s]|] && kids[s][j] in nodes && Within(kids[s][j], x)
    {
      assert Linked(s) && Linked(x);
      var c := chain[x][|chain[s]|];
      assert chain[c] == chain[x][..|chain[s]| + 1];
      assert Linked(c) && Parent(c) == s;
      j :| 0 <= j < |kids[s]| && kids[s][j] == c;
    }

    lemma {:induction false} HasBelow(s: S, x: S)
      requires Valid() && s in nodes && x in nodes && Within(s, x)
      ensures Has(s, key[x])
      decreases |chain[x]| - |chain[s]|
    {
      if x != s {
        var j := ChildTowards(s, x);
        HasBelow(kids[s][j], x);
      }
    }

    /** `x` comes before `y` in depth-first key order: it is above `y`, or where their chains part, its
        chain goes on with the smaller key. */
    ghost predicate Precedes(x: S, y: S)
      requires x in chain && y in chain
    {
      chain[x] < chain[y] || exists i :: PartsBefore(x, y, i)
    }

    ghost predicate PartsBefore(x: S, y: S, i: nat)
      requires x in chain && y in chain
    {
      && i < |chain[x]| && i < |chain[y]| && chain[x][..i] == chain[y][..i]
      && chain[x][i] in key && chain[y][i] in key && key[chain[x][i]] < key[chain[y][i]]
    }

    /** `find` answers the first state with the key in depth-first key order. */
    lemma {:induction false} FindsFirst(s: S, k: int, x: S)
      requires Valid() && s in nodes && x in nodes && Within(s, x) && key[x] == k
      ensures Has(s, k)
      ensures x == Down(s, k) || Precedes(Down(s, k), x)
      decreases height - |chain[s]|
    {
      HasBelow(s, x);
      if key[s] != k {
        var i := ChildWith(s, 0, k);
        var j := ChildTowards(s, x);
        HasBelow(kids[s][j], x);
        var c, r := kids[s][i], Down(s, k);
        KidLink(s, c);
        if i == j {
          FindsFirst(c, k, x);
        } else {
          KidLink(s, kids[s][j]);
          assert Linked(s);
          assert chain[r][..|chain[s]|] == chain[s] == chain[x][..|chain[s]|];
          assert chain[r][|chain[s]|] == c;
          assert PartsBefore(r, x, |chain[s]|);
        }
      } else {
        Ends(s);
        Ends(x);
      }
    }

    // ---------- the transition path, as the code builds it ----------

    /** `get_transition_path` with `get_child_path`: up while the target is not below, then down. */
    ghost function Path(active: seq<S>, s: S, k: int): Option<seq<Node<S>>>
      requires Valid() && s in nodes
      decreases if Has(s, k) then 0 else 1, if Has(s, k) then height - |chain[s]| else |chain[s]|
    {
      if Has(s, k) then
        if key[s] == k then
          Some([Node(if s in active then Noop else Target, s)])
        else
          match Path(active, kids[s][ChildWith(s, 0, k)], k)
          case Some(rest) => Some([Node(if s in active then Noop else Enter, s)] + rest)
          case None => None
      else if s != root then
        match Path(active, Parent(s), k)
        case Some(rest) => Some([Node(Exit, s)] + rest)
        case None => None
      else
        None
    }
  }
}

/** The object pool, its refs and the memory behind them as objects. */
module ObjectPool {
  import opened Basics
  import opened PoolRuns

  /** Memory for one object; `alive` between its construction and its destruction. */
  class Slot {
    var alive: bool

    constructor ()
      ensures !alive
    {
      alive := false;
    }

    /** Placement new: never over an object that exists. */
    method Construct()
      requires !alive
      modifies this
      ensures alive
    {
      alive := true;
    }

    /** The object's destructor: only where an object exists. */
    method Destruct()
      requires alive
      modifies this
      ensures !alive
    {
      alive := false;
    }
  }

  class Allocator {
    var calls: nat
    ghost var outstanding: set<Slot>

    constructor ()
      ensures calls == 0 && outstanding == {}
    {
      calls, outstanding := 0, {};
    }

    method Allocate() returns (s: Slot)
      modifies this
      ensures fresh(s) && !s.alive && calls == old(calls) + 1 && outstanding == old(outstanding) + {s}
    {
      s := new Slot();
      calls, outstanding := calls + 1, outstanding + {s};
    }

    method Deallocate(s: Slot)
      requires s in outstanding && !s.alive
      modifies this`outstanding
      ensures outstanding == old(outstanding) - {s}
    {
      outstanding := outstanding - {s};
    }
  }

  ghost function Pointers(refs: set<Ref>): (m: map<Ref, Option<Slot>>)
    reads refs
    ensures m.Keys == refs
  {
    map r | r in refs :: r.Pointer()
  }

  class Ref {
    var pool: ObjectPool?
    var p: Slot?

    constructor (p: Slot, pool: ObjectPool)
      ensures this.p == p && this.pool == pool
    {
      this.p, this.pool := p, pool;
    }

    ghost function Pointer(): Option<Slot>
      reads this
    {
      if p == null then None else var slot: Slot := p; Some(slot)
    }

    method Move(rhs: Ref)
      modifies this, rhs
      ensures if this == rhs then p == old(p) && pool == old(pool)
              else p == old(rhs.p) && pool == old(rhs.pool) && rhs.p == null && rhs.pool == null
    {
      if this == rhs {
        return;
      }
      pool := rhs.pool;
      p := rhs.p;
      rhs.pool := null;
      rhs.p := null;
    }

    /** The copy constructor, which moves. */
    constructor MoveFrom(rhs: Ref, ghost owner: ObjectPool)
      requires owner.Valid() && rhs in owner.refs
      modifies rhs, owner`refs
      ensures owner.Valid() && Enabled(old(owner.View()), MoveNew(this, rhs))
      ensures owner.View() == Step(old(owner.View()), MoveNew(this, rhs))
      ensures p == old(rhs.p) && rhs.p == null
    {
      pool, p := null, null;
      new;
      StepKeeps(owner.View(), MoveNew(this, rhs));
      MoveIn(rhs, owner, owner.View());
    }

    method MoveIn(rhs: Ref, ghost owner: ObjectPool, ghost s: Pool<Ref, Slot>)
      requires s == owner.View() && owner.Wired(owner.refs) && this !in owner.refs && rhs in owner.refs
      modifies this, rhs, owner`refs
      ensures owner.Wired(owner.refs) && p == old(rhs.p) && rhs.p == null
      ensures owner.View() == s.(refs := s.refs[this := s.refs[rhs]][rhs := None])
    {
      hide Pointers;
      EachPointer(owner.refs);
      Move(rhs);
      Moved(owner.refs, s.refs, this, rhs);
      owner.refs := owner.refs + {this};
    }

    /** Assignment, which moves; what this ref owned is not destroyed. */
    method Assign(rhs: Ref, ghost owner: ObjectPool)
      requires owner.Valid() && this in owner.refs && rhs in owner.refs
      modifies this, rhs, owner`lost
      ensures owner.Valid() && owner.View() == Step(old(owner.View()), Op.Assign(this, rhs))
    {
      hide Inv, ObjectPool.Memory, ObjectPool.Wired;
      StepKeeps(owner.View(), Op.Assign(this, rhs));
      TakeOver(rhs, owner, owner.View());
    }

    method TakeOver(rhs: Ref, ghost owner: ObjectPool, ghost s: Pool<Ref, Slot>)
      requires s == owner.View() && owner.Wired(owner.refs) && this in owner.refs && rhs in owner.refs
      modifies this, rhs, owner`lost
      ensures owner.Wired(owner.refs)
      ensures owner.View() ==
              if this == rhs then s
              else s.(refs := s.refs[this := s.refs[rhs]][rhs := None], lost := s.lost + Of(s.refs[this]))
    {
      Move(rhs);
      if this != rhs {
        owner.lost := owner.lost + Of(s.refs[this]);
        Moved(owner.refs, s.refs, this, rhs);
      }
    }

    /** The destructor. */
    method Drop(ghost owner: ObjectPool)
      requires owner.Valid() && this in owner.refs
      modifies owner`q, owner`objects, owner`refs, owner.objects
      ensures owner.Valid() && owner.View() == Step(old(owner.View()), Op.Drop(this))
    {
      StepKeeps(owner.View(), Op.Drop(this));
      assert Pointer().Some? ==> Owns(owner.View().refs, this, Pointer().value);
      Release(owner, owner.View());
    }

    method Release(ghost owner: ObjectPool, ghost s: Pool<Ref, Slot>)
      requires s == owner.View() && owner.Wired(owner.refs) && owner.Memory(owner.objects)
      requires this in owner.refs && (Pointer().Some? ==> Pointer().value in owner.objects)
      modifies owner`q, owner`objects, owner`refs, owner.objects
      ensures owner.Wired(owner.refs) && owner.Memory(owner.objects)
      ensures owner.View() == (if s.refs[this].Some? then Put(s, s.refs[this].value) else s).(refs := s.refs - {this})
    {
      if pool != null && p != null {
        pool.DestroyObject(p);
      }
      owner.refs := owner.refs - {this};
      assert Pointers(owner.refs) == s.refs - {this};
    }
  }

  class ObjectPool {
    var q: seq<Slot>
    const allocator: Allocator

    ghost var refs: set<Ref>
    ghost var raw: set<Slot>
    ghost var lost: set<Slot>
    ghost var objects: set<Slot>

    ghost function View(): Pool<Ref, Slot>
      reads this, allocator, refs
    {
      Pool(q, Pointers(refs), raw, lost, objects, allocator.calls)
    }

    ghost predicate Valid()
      reads this, allocator, refs, objects, q
    {
      Inv(View()) && Wired(refs) && Memory(objects)
    }

    /** The refs that are not empty belong to this pool. */
    ghost predicate Wired(refs: set<Ref>)
      reads refs
    {
      forall r <- refs :: r.pool == if r.p == null then null else this
    }

    /** The addresses obtained hold an object or are free. */
    ghost predicate Memory(objects: set<Slot>)
      reads this`q, allocator, objects, q
    {
      && (forall s <- objects :: s.alive && s in allocator.outstanding)
      && (forall s <- q :: !s.alive && s in allocator.outstanding)
      && (forall s <- allocator.outstanding :: s in objects || s in q)
    }

    constructor ()
      ensures Valid() && View() == Start() && fresh(allocator) && refs == {}
    {
      q, refs, raw, lost, objects := [], {}, {}, {}, {};
      allocator := new Allocator();
      new;
      assert Pointers({}) == map[];
    }

    method Alloc() returns (obj: Slot)
      requires Valid()
      modifies this`q, allocator
      ensures q == Taken(old(View()), obj).free && allocator.calls == Taken(old(View()), obj).calls
      ensures Obtains(old(View()), obj) && obj !in objects && obj !in q
      ensures !obj.alive && obj in allocator.outstanding && Rest(obj) && (obj in old(q) || fresh(obj))
    {
      if q != [] {
        obj, q := q[0], q[1..];
        assert old(q) == [obj] + q;
      } else {
        obj := allocator.Allocate();
      }
    }

    /** All the other addresses. */
    ghost predicate Rest(obj: Slot)
      reads this`q, this`objects, allocator, objects, q
    {
      && (forall s <- objects :: s.alive && s in allocator.outstanding)
      && (forall s <- q :: !s.alive && s in allocator.outstanding)
      && (forall s <- allocator.outstanding :: s in objects || s in q || s == obj)
    }

    /** `alloc` and placement new, which every form of `construct` begins with. */
    method Build() returns (obj: Slot)
      requires Valid()
      modifies this`q, this`objects, allocator, q
      ensures Obtains(old(View()), obj) && obj.alive
      ensures View() == Taken(old(View()), obj) && Memory(objects) && Wired(refs)
    {
      obj := Alloc();
      Occupy(obj);
    }

    method Occupy(obj: Slot)
      requires !obj.alive && obj in allocator.outstanding && obj !in objects && obj !in q && Rest(obj)
      modifies this`objects, obj
      ensures obj.alive && Memory(objects) && View() == old(View()).(objects := old(objects) + {obj})
    {
      obj.Construct();
      objects := objects + {obj};
    }

    method ConstructRaw() returns (obj: Slot)
      requires Valid()
      modifies this`q, this`objects, this`raw, allocator, q
      ensures Enabled(old(View()), Op.ConstructRaw(obj)) && Valid() && View() == Step(old(View()), Op.ConstructRaw(obj))
      ensures obj.alive
    {
      ghost var s := View();
      obj := Build();
      Hand(obj, View());
      StepKeeps(s, Op.ConstructRaw(obj));
    }

    ghost method Hand(obj: Slot, s: Pool<Ref, Slot>)
      requires s == View()
      modifies this`raw
      ensures View() == s.(raw := s.raw + {obj})
    {
      raw := raw + {obj};
    }

    ghost method Register(r: Ref)
      requires r !in refs && Wired(refs) && r.pool == if r.p == null then null else this
      modifies this`refs
      ensures Wired(refs)
      ensures refs == old(refs) + {r} && View() == old(View()).(refs := old(Pointers(refs))[r := r.Pointer()])
    {
      OneMore(refs, r);
      refs := refs + {r};
    }

    method Construct() returns (r: Ref, ghost obj: Slot)
      requires Valid()
      modifies this`q, this`objects, this`refs, allocator, q
      ensures fresh(r) && r.p == obj && obj.alive
      ensures Enabled(old(View()), Op.Construct(r, obj)) && Valid() && View() == Step(old(View()), Op.Construct(r, obj))
    {
      hide Inv, Step, Enabled, Taken, Wired, Memory;
      ghost var s := View();
      var built := Build();
      obj := built;
      r := new Ref(built, this);
      Register(r);
      ghost var after := ConstructStep(s, r, obj);
      assert View() == after;
    }

    /** Runs the object's destructor and frees its address. */
    method DestroyObject(obj: Slot)
      requires obj in objects && Memory(objects)
      modifies obj, this`q, this`objects
      ensures q == old(q) + [obj] && objects == old(objects) - {obj} && Memory(objects) && !obj.alive
    {
      obj.Destruct();
      Dealloc(obj);
      objects := objects - {obj};
    }

    method Dealloc(obj: Slot)
      modifies this`q
      ensures q == old(q) + [obj]
    {
      q := q + [obj];
    }

    /** For a raw handle. */
    method Destroy(obj: Slot)
      requires Valid() && obj in raw
      modifies obj, this`q, this`objects, this`raw
      ensures Valid() && View() == Step(old(View()), Op.Destroy(obj)) && !obj.alive
    {
      hide Inv, Step, Enabled, Taken, Memory;
      ghost var s := View();
      ghost var after := DestroyStep(s, obj);
      DestroyObject(obj);
      raw := raw - {obj};
      assert Pointers(refs) == s.refs;
      assert View() == after;
    }

    /** The pool's destructor gives every free address back; what still holds an object it does not. */
    method Cleanup()
      requires Valid()
      modifies this`q, allocator
      ensures q == [] && allocator.outstanding == objects && allocator.calls == old(allocator.calls)
    {
      while q != []
        invariant (forall s <- objects :: s in allocator.outstanding)
                  && (forall s <- q :: !s.alive && s in allocator.outstanding)
        invariant (forall s <- allocator.outstanding :: s in objects || s in q)
        invariant NoDuplicates(q) && (forall s <- q :: s !in objects) && allocator.calls == old(allocator.calls)
        decreases |q|
      {
        var obj := q[0];
        assert q == [obj] + q[1..];
        q := q[1..];
        allocator.Deallocate(obj);
      }
    }
  }

  /** The pointers after a move, given the pointers before. */
  lemma Moved(refs: set<Ref>, was: map<Ref, Option<Slot>>, to: Ref, from: Ref)
    requires was.Keys == refs && from in refs && from != to && to.Pointer() == was[from] && from.Pointer() == None
    requires forall r <- refs :: r != to && r != from ==> r.Pointer() == was[r]
    ensures Pointers(refs + {to}) == was[to := was[from]][from := None]
    ensures to in refs ==> refs + {to} == refs
  {
  }

  lemma EachPointer(refs: set<Ref>)
    ensures forall r <- refs :: Pointers(refs)[r] == r.Pointer()
  {
  }

  lemma OneMore(refs: set<Ref>, r: Ref)
    ensures Pointers(refs + {r}) == Pointers(refs)[r := r.Pointer()]
  {
  }
}

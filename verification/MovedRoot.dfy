/**
 Slot lookups between moving the root and evicting what is below it. The main
 chain then has the new root as its forking point, but the new root still has
 its parent, so the chain of that parent becomes the parent chain of the main
 chain. If the main chain can be reached from there, the walk over parent chains
 has become circular.
 */
module MovedRoot {
  import opened Collections
  import opened CommitmentTree
  import opened RootSteps

  /** The new root is connected to the old one. */
  predicate Connected(t: Tree, main: ChainId, r: Id) {
    CanMoveRoot(t, main, r) && t.Solid(r)
  }

  predicate Walkable(t: Tree) {
    && (forall x | x in t.forkingPoint :: t.forkingPoint[x] in t.header)
    && (forall c | c in t.chain :: t.chain[c] in t.forkingPoint)
  }

  /** The chain cursor of `Chain.Commitment` after n turns, nil once a turn has found an answer. */
  function CursorAfter(t: Tree, x: Option<ChainId>, slot: nat, n: nat): (y: Option<ChainId>)
    requires Walkable(t) && (x.Some? ==> x.value in t.forkingPoint)
    decreases n
  {
    if n == 0 || x.None? then x
    else if slot >= t.Slot(t.forkingPoint[x.value]) then None
    else CursorAfter(t, t.ParentChain(x.value), slot, n - 1)
  }

  ghost predicate Ends(t: Tree, x: ChainId, slot: nat)
    requires Walkable(t) && x in t.forkingPoint
  {
    exists n: nat :: CursorAfter(t, Some(x), slot, n) == None
  }

  lemma MovedRootWalkable(t: Tree, main: ChainId, r: Id)
    requires Connected(t, main, r)
    ensures Walkable(MoveRoot(t, main, r)) && MoveRoot(t, main, r).forkingPoint.Keys == t.forkingPoint.Keys
  {
    hide Tree.MainChildren, Tree.Partitioned, Tree.Indexed, Tree.Solid, Tree.Linked;
    SolidOnChain(t, r);
  }

  // ----- what decides whether a lookup ends, in terms of the tree before

  /** Before the root moves, the lookup of a slot on chain x comes past the main chain. */
  predicate Visits(t: Tree, x: ChainId, slot: nat, main: ChainId)
    requires t.Chained() && x in t.forkingPoint
    decreases t.Slot(t.forkingPoint[x])
  {
    x == main
    || (slot < t.Slot(t.forkingPoint[x]) && t.ParentChain(x).Some? && Visits(t, t.ParentChain(x).value, slot, main))
  }

  /** The main chain gets another forking point, and one that has a parent. */
  predicate Circular(t: Tree, main: ChainId, r: Id)
    requires Connected(t, main, r)
  {
    r != t.root && (t.On(t.root, main) || t.On(r, main)) && t.forkingPoint[main] != r
  }

  /** Where the branch of r leaves the main chain: r itself if its parent is on it. */
  function Branch(t: Tree, main: ChainId, r: Id): (a: Id)
    requires t.Known() && t.Linked() && r in t.live && t.Solid(r) && r != t.root
    ensures a in t.header && a in t.parent && t.Slot(a) <= t.Slot(r)
    decreases t.Slot(r)
  {
    if t.On(t.parent[r], main) || t.parent[r] == t.root then r else Branch(t, main, t.parent[r])
  }

  // ----- the circle

  /** From a commitment off the main chain, a lookup comes past the main chain exactly below its branch. */
  lemma {:induction false} VisitsBranch(t: Tree, main: ChainId, p: Id, slot: nat)
    requires t.Chained() && p in t.live && t.Solid(p) && t.On(t.root, main) && p in t.chain && t.chain[p] != main
    ensures t.chain[p] in t.forkingPoint && p != t.root
    ensures Visits(t, t.chain[p], slot, main) <==> slot < t.Slot(Branch(t, main, p))
    decreases t.Slot(p)
  {
    hide Tree.MainChildren, Tree.Indexed;
    var q := t.parent[p];
    assert t.PartitionedAt(p);
    SolidOnChain(t, q);
    if !t.On(q, main) {
      VisitsBranch(t, main, q, slot);
    }
  }

  /** What the walk does on the moved tree. */
  lemma MovedParentChain(t: Tree, main: ChainId, r: Id, x: ChainId)
    requires Connected(t, main, r) && x in t.forkingPoint
    ensures var m := MoveRoot(t, main, r);
            && m.header == t.header && x in m.forkingPoint
            && (x != main || !Circular(t, main, r) ==>
                  && m.ParentChain(x) == t.ParentChain(x)
                  && (m.forkingPoint[x] == t.forkingPoint[x] || m.ParentChain(x) == None))
  {
    hide Tree.MainChildren, Tree.Partitioned, Tree.Indexed, Tree.Solid;
    SolidOnChain(t, r);
    RootHasNoParent(t);
  }

  lemma RootHasNoParent(t: Tree)
    requires t.Chained()
    ensures t.root !in t.parent && t.root in t.chain
    ensures t.chain[t.root] in t.forkingPoint && t.forkingPoint[t.chain[t.root]] !in t.parent
  {
    hide Tree.MainChildren, Tree.Partitioned, Tree.Indexed;
  }

  /** On the circle, the parent chain of the main chain leads back to it for every slot below the branch. */
  lemma CircleCloses(t: Tree, main: ChainId, r: Id, slot: nat)
    requires Connected(t, main, r) && Circular(t, main, r)
    ensures var m, p := MoveRoot(t, main, r), t.parent[r];
            && main in m.forkingPoint && m.forkingPoint[main] == r && p in t.chain && t.chain[p] in t.forkingPoint
            && m.ParentChain(main) == Some(t.chain[p])
            && (slot < t.Slot(r) && Visits(t, t.chain[p], slot, main) <==> slot < t.Slot(Branch(t, main, r)))
  {
    hide Tree.MainChildren, Tree.Indexed;
    var p := t.parent[r];
    SolidOnChain(t, r);
    SolidOnChain(t, p);
    assert t.PartitionedAt(r);
    if !t.On(p, main) {
      VisitsBranch(t, main, p, slot);
    }
  }

  /** A lookup below the branch that comes past the main chain never gets an answer. */
  lemma {:induction false} Diverges(t: Tree, main: ChainId, r: Id, x: ChainId, slot: nat, n: nat)
    requires Connected(t, main, r) && Circular(t, main, r) && x in t.forkingPoint && Visits(t, x, slot, main)
    requires slot < t.Slot(Branch(t, main, r)) && Walkable(MoveRoot(t, main, r)) && x in MoveRoot(t, main, r).forkingPoint
    ensures CursorAfter(MoveRoot(t, main, r), Some(x), slot, n).Some?
    decreases n
  {
    hide Tree.Chained, Tree.Indexed, MoveRoot, Branch;
    if n > 0 {
      CircleCloses(t, main, r, slot);
      MovedParentChain(t, main, r, x);
      MovedRootWalkable(t, main, r);
      var y := MoveRoot(t, main, r).ParentChain(x).value;
      Diverges(t, main, r, y, slot, n - 1);
    }
  }

  /** One turn, and then the rest. */
  lemma EndsNext(t: Tree, x: ChainId, slot: nat)
    requires Walkable(t) && x in t.forkingPoint
    requires slot >= t.Slot(t.forkingPoint[x]) || t.ParentChain(x).None? || Ends(t, t.ParentChain(x).value, slot)
    ensures Ends(t, x, slot)
  {
    if slot >= t.Slot(t.forkingPoint[x]) || t.ParentChain(x).None? {
      assert CursorAfter(t, Some(x), slot, 1) == None;
    } else {
      var n: nat :| CursorAfter(t, t.ParentChain(x), slot, n) == None;
      assert CursorAfter(t, Some(x), slot, n + 1) == None;
    }
  }

  /** A lookup that does not come past the circle ends. */
  lemma {:induction false} EndsElsewhere(t: Tree, main: ChainId, r: Id, x: ChainId, slot: nat)
    requires Connected(t, main, r) && x in t.forkingPoint && (Circular(t, main, r) ==> !Visits(t, x, slot, main))
    ensures Walkable(MoveRoot(t, main, r)) && x in MoveRoot(t, main, r).forkingPoint && Ends(MoveRoot(t, main, r), x, slot)
    decreases t.Slot(t.forkingPoint[x])
  {
    hide Tree.MainChildren, Tree.Partitioned, Tree.Grounded, Tree.Indexed, MoveRoot, Tree.ParentChain;
    var m := MoveRoot(t, main, r);
    MovedRootWalkable(t, main, r);
    MovedParentChain(t, main, r, x);
    if slot < m.Slot(m.forkingPoint[x]) && m.ParentChain(x).Some? {
      ParentChainLower(t, x);
      EndsElsewhere(t, main, r, m.ParentChain(x).value, slot);
    }
    EndsNext(m, x, slot);
  }

  /** At or above the branch the walk leaves the circle. */
  lemma EndsAtMain(t: Tree, main: ChainId, r: Id, slot: nat)
    requires Connected(t, main, r) && Circular(t, main, r) && slot >= t.Slot(Branch(t, main, r))
    ensures Walkable(MoveRoot(t, main, r)) && main in MoveRoot(t, main, r).forkingPoint
    ensures Ends(MoveRoot(t, main, r), main, slot)
  {
    hide Tree.MainChildren, Tree.Partitioned, Tree.Grounded, Tree.Indexed, MoveRoot, Branch, Visits;
    var m := MoveRoot(t, main, r);
    MovedRootWalkable(t, main, r);
    MovedParentChain(t, main, r, main);
    CircleCloses(t, main, r, slot);
    if slot < t.Slot(r) {
      EndsElsewhere(t, main, r, m.ParentChain(main).value, slot);
    }
    EndsNext(m, main, slot);
  }

  lemma {:induction false} EndsPastMain(t: Tree, main: ChainId, r: Id, x: ChainId, slot: nat)
    requires Connected(t, main, r) && Circular(t, main, r) && slot >= t.Slot(Branch(t, main, r))
    requires x in t.forkingPoint
    ensures Walkable(MoveRoot(t, main, r)) && x in MoveRoot(t, main, r).forkingPoint && Ends(MoveRoot(t, main, r), x, slot)
    decreases t.Slot(t.forkingPoint[x])
  {
    hide Tree.MainChildren, Tree.Partitioned, Tree.Grounded, Tree.Indexed, MoveRoot, Tree.ParentChain, Branch;
    if x == main {
      EndsAtMain(t, main, r, slot);
    } else {
      var m := MoveRoot(t, main, r);
      MovedRootWalkable(t, main, r);
      MovedParentChain(t, main, r, x);
      if slot < m.Slot(m.forkingPoint[x]) && m.ParentChain(x).Some? {
        ParentChainLower(t, x);
        EndsPastMain(t, main, r, m.ParentChain(x).value, slot);
      }
      EndsNext(m, x, slot);
    }
  }

  /**
   Before eviction, the lookup of a slot on any chain ends exactly unless the
   main chain got a forking point with a parent, the lookup comes past the main
   chain, and the slot is below the point where the new root's branch leaves it.
   */
  lemma LookupEndsIff(t: Tree, main: ChainId, r: Id, x: ChainId, slot: nat)
    requires Connected(t, main, r) && x in t.forkingPoint
    ensures Walkable(MoveRoot(t, main, r)) && x in MoveRoot(t, main, r).forkingPoint
    ensures Ends(MoveRoot(t, main, r), x, slot) <==>
            !(Circular(t, main, r) && Visits(t, x, slot, main) && slot < t.Slot(Branch(t, main, r)))
  {
    hide Tree.MainChildren, Tree.Partitioned, Tree.Grounded, Tree.Indexed, MoveRoot, Branch, Visits, CursorAfter;
    MovedRootWalkable(t, main, r);
    if !Circular(t, main, r) || !Visits(t, x, slot, main) {
      EndsElsewhere(t, main, r, x, slot);
    } else if slot >= t.Slot(Branch(t, main, r)) {
      EndsPastMain(t, main, r, x, slot);
    } else {
      forall n: nat
        ensures CursorAfter(MoveRoot(t, main, r), Some(x), slot, n).Some?
      {
        Diverges(t, main, r, x, slot, n);
      }
    }
  }
}

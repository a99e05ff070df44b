/**
 `Commitment.Less` between moving the root and evicting what is below it. The
 chains along the branch of the new root form a circle then: the parent chain
 of the main chain leads back to it. A cursor that has come to the circle goes
 round and round for as long as its forking point is the higher one.
 */
module MovedLess {
  import opened Collections
  import opened CommitmentTree
  import opened RootSteps
  import opened MovedRoot

  /** What `Less` reads of every chain: the slot and the parent of its forking point, and its parent chain. */
  datatype Forks = Forks(slot: map<ChainId, nat>, joint: map<ChainId, Option<Id>>, up: map<ChainId, ChainId>) {
    predicate Valid() {
      && joint.Keys == slot.Keys && up.Keys <= slot.Keys
      && (forall x | x in up :: up[x] in slot)
      && (forall x, y | x in slot && y in slot && joint[x] == joint[y] ::
            (x in up <==> y in up) && (x in up ==> up[x] == up[y]))
    }
  }

  // ----- the loop of `Less`

  /** The two cursors, on different chains, or a turn that returns. */
  datatype Cursors = Done | At(smaller: ChainId, larger: ChainId)

  predicate Standing(f: Forks, c: Cursors) {
    c.At? ==> c.smaller in f.slot && c.larger in f.slot && c.smaller != c.larger
  }

  /**
   One turn. Forking points with one parent decide; otherwise the cursor with the
   higher one moves to its parent chain, the smaller one if they are level. A nil
   chain and a common chain decide, too.
   */
  function Turn(f: Forks, c: Cursors): (d: Cursors)
    requires f.Valid() && c.At? && Standing(f, c)
    ensures Standing(f, d)
  {
    var x, y := c.smaller, c.larger;
    if f.slot[x] == f.slot[y] && f.joint[x] == f.joint[y] then Done
    else if f.slot[y] > f.slot[x] then if y !in f.up || f.up[y] == x then Done else At(x, f.up[y])
    else if x !in f.up || f.up[x] == y then Done else At(f.up[x], y)
  }

  function After(f: Forks, c: Cursors, n: nat): (d: Cursors)
    requires f.Valid() && Standing(f, c)
    decreases n
  {
    if n == 0 || c.Done? then c else After(f, Turn(f, c), n - 1)
  }

  ghost predicate LessEnds(f: Forks, c: Cursors)
    requires f.Valid() && Standing(f, c)
  {
    exists n: nat :: After(f, c, n) == Done
  }

  lemma TurnEnds(f: Forks, c: Cursors)
    requires f.Valid() && c.At? && Standing(f, c) && (Turn(f, c).Done? || LessEnds(f, Turn(f, c)))
    ensures LessEnds(f, c)
  {
    hide Turn, Forks.Valid;
    if Turn(f, c).Done? {
      assert After(f, c, 1) == Done;
    } else {
      var n: nat :| After(f, Turn(f, c), n) == Done;
      assert After(f, c, n + 1) == Done;
    }
  }

  // ----- a circle of parent chains

  /** The chains of the circle, the slot and the parent of the lowest forking point, and the chain above it. */
  datatype Ring = Ring(main: ChainId, chains: set<ChainId>, low: nat, joint: Option<Id>)

  /** From x on the ring, the walk goes down to the lowest slot, and from there to main. */
  predicate OnAt(f: Forks, r: Ring, x: ChainId)
    requires f.Valid() && x in f.slot
  {
    && f.slot[x] >= r.low && x in f.up && f.up[x] in r.chains
    && (if f.slot[x] > r.low then f.slot[f.up[x]] < f.slot[x] else f.up[x] == r.main && f.joint[x] == r.joint)
  }

  /** From x off the ring, the walk goes down, and comes to the ring from the lowest slot only at the joint. */
  predicate OffAt(f: Forks, r: Ring, x: ChainId)
    requires f.Valid() && x in f.slot
  {
    x in f.up ==> if f.up[x] in r.chains then f.slot[x] == r.low ==> f.joint[x] == r.joint
                  else f.slot[f.up[x]] < f.slot[x]
  }

  predicate Circle(f: Forks, r: Ring) {
    && f.Valid() && r.main in r.chains && r.chains <= f.slot.Keys
    && (forall x | x in r.chains :: OnAt(f, r, x))
    && (forall x, y | x in r.chains && y in r.chains && f.slot[x] == f.slot[y] :: x == y)
    && (forall x | x in f.slot && x !in r.chains :: OffAt(f, r, x))
  }

  lemma CircleOn(f: Forks, r: Ring, x: ChainId)
    requires Circle(f, r) && x in r.chains
    ensures f.Valid() && x in f.slot && f.up.Keys <= f.slot.Keys && OnAt(f, r, x) && f.up[x] in f.slot
  {
  }

  lemma CircleOff(f: Forks, r: Ring, x: ChainId)
    requires Circle(f, r) && x in f.slot && x !in r.chains
    ensures f.Valid() && OffAt(f, r, x) && x in f.joint && (x in f.up ==> f.up[x] in f.slot)
  {
  }

  lemma CircleOnce(f: Forks, r: Ring, x: ChainId, y: ChainId)
    requires Circle(f, r) && x in r.chains && y in r.chains && x != y
    ensures x in f.slot && y in f.slot && f.slot[x] != f.slot[y]
  {
  }

  lemma SiblingsJoin(f: Forks, x: ChainId, y: ChainId)
    requires f.Valid() && x in f.slot && y in f.slot && f.joint[x] == f.joint[y]
    ensures (x in f.up <==> y in f.up) && (x in f.up ==> f.up[x] == f.up[y])
  {
  }

  /**
   The walk from x comes to the ring, or to nil, from above the lowest slot. At
   that slot it may also end, with a sibling of the lowest chain of the ring, or
   with nil if it is the one that moves when both are level.
   */
  predicate Clears(f: Forks, r: Ring, x: ChainId, smaller: bool)
    requires Circle(f, r) && x in f.slot && x !in r.chains
    decreases f.slot[x]
  {
    if f.slot[x] > r.low then x !in f.up || f.up[x] in r.chains || (assert OffAt(f, r, x); Clears(f, r, f.up[x], smaller))
    else f.slot[x] == r.low && (f.joint[x] == r.joint || (smaller && x !in f.up))
  }

  function Sides(u: ChainId, v: ChainId, smaller: bool): (c: Cursors) {
    if smaller then At(v, u) else At(u, v)
  }

  /** Two cursors on the ring meet. */
  lemma {:induction false} BothOnRing(f: Forks, r: Ring, x: ChainId, y: ChainId)
    requires Circle(f, r) && x in r.chains && y in r.chains && x != y
    ensures LessEnds(f, At(x, y))
    decreases f.slot[x] + f.slot[y]
  {
    hide LessEnds, Circle, Forks.Valid;
    CircleOn(f, r, x);
    CircleOn(f, r, y);
    CircleOnce(f, r, x, y);
    var d := Turn(f, At(x, y));
    if d.At? {
      BothOnRing(f, r, d.smaller, d.larger);
    }
    TurnEnds(f, At(x, y));
  }

  lemma {:induction false} ClearedEnds(f: Forks, r: Ring, u: ChainId, v: ChainId, smaller: bool)
    requires Circle(f, r) && u in r.chains && v in f.slot && v !in r.chains && Clears(f, r, v, smaller)
    ensures LessEnds(f, Sides(u, v, smaller))
    decreases f.slot[u] + f.slot[v]
  {
    hide LessEnds, Circle, Forks.Valid;
    CircleOn(f, r, u);
    CircleOff(f, r, v);
    var d := Turn(f, Sides(u, v, smaller));
    if d.At? {
      var x, y := if smaller then d.larger else d.smaller, if smaller then d.smaller else d.larger;
      if y in r.chains {
        BothOnRing(f, r, d.smaller, d.larger);
      } else {
        ClearedEnds(f, r, x, y, smaller);
      }
    }
    TurnEnds(f, Sides(u, v, smaller));
  }

  /** A cursor that does not clear the ring stays off it, and the other one stays on it. */
  lemma StuckTurn(f: Forks, r: Ring, u: ChainId, v: ChainId, smaller: bool) returns (x: ChainId, y: ChainId)
    requires Circle(f, r) && u in r.chains && v in f.slot && v !in r.chains && !Clears(f, r, v, smaller)
    ensures Turn(f, Sides(u, v, smaller)) == Sides(x, y, smaller)
    ensures x in r.chains && y in f.slot && y !in r.chains && !Clears(f, r, y, smaller)
  {
    hide Circle, Forks.Valid;
    CircleOn(f, r, u);
    CircleOff(f, r, v);
    if f.joint[u] == f.joint[v] {
      SiblingsJoin(f, u, v);
    }
    var d := Turn(f, Sides(u, v, smaller));
    x, y := if smaller then d.larger else d.smaller, if smaller then d.smaller else d.larger;
  }

  lemma {:induction false} StuckForever(f: Forks, r: Ring, u: ChainId, v: ChainId, smaller: bool, n: nat)
    requires Circle(f, r) && u in r.chains && v in f.slot && v !in r.chains && !Clears(f, r, v, smaller)
    ensures After(f, Sides(u, v, smaller), n).At?
    decreases n
  {
    hide OnAt, OffAt, Clears, Turn;
    if n > 0 {
      var x, y := StuckTurn(f, r, u, v, smaller);
      StuckForever(f, r, x, y, smaller, n - 1);
    }
  }

  // ----- both cursors

  predicate OffRing(r: Ring, c: Cursors) {
    c.At? && c.smaller !in r.chains && c.larger !in r.chains
  }

  function Height(f: Forks, r: Ring, c: Cursors): (h: nat)
    requires Standing(f, c)
  {
    if OffRing(r, c) then 1 + f.slot[c.smaller] + f.slot[c.larger] else 0
  }

  lemma OffRingTurn(f: Forks, r: Ring, c: Cursors)
    requires Circle(f, r) && Standing(f, c) && OffRing(r, c)
    ensures Height(f, r, Turn(f, c)) < Height(f, r, c)
  {
    hide Circle, Forks.Valid;
    CircleOff(f, r, c.smaller);
    CircleOff(f, r, c.larger);
  }

  /**
   Off the ring the two cursors come down as usual. When one of them has come to
   the ring before they have met, the other one has to clear it.
   */
  predicate Settles(f: Forks, r: Ring, c: Cursors)
    requires Circle(f, r) && Standing(f, c)
    decreases Height(f, r, c)
  {
    if c.Done? then true
    else if c.smaller in r.chains then c.larger in r.chains || Clears(f, r, c.larger, false)
    else if c.larger in r.chains then Clears(f, r, c.smaller, true)
    else
      OffRingTurn(f, r, c);
      Settles(f, r, Turn(f, c))
  }

  lemma {:induction false} SettledEnds(f: Forks, r: Ring, c: Cursors)
    requires Circle(f, r) && Standing(f, c) && c.At? && Settles(f, r, c)
    ensures LessEnds(f, c)
    decreases Height(f, r, c)
  {
    hide OnAt, OffAt, Clears, Turn, LessEnds;
    if OffRing(r, c) {
      OffRingTurn(f, r, c);
      if Turn(f, c).At? {
        SettledEnds(f, r, Turn(f, c));
      }
      TurnEnds(f, c);
    } else if c.smaller in r.chains && c.larger in r.chains {
      BothOnRing(f, r, c.smaller, c.larger);
    } else if c.smaller in r.chains {
      ClearedEnds(f, r, c.smaller, c.larger, false);
    } else {
      ClearedEnds(f, r, c.larger, c.smaller, true);
    }
  }

  lemma {:induction false} UnsettledGoesOn(f: Forks, r: Ring, c: Cursors, n: nat)
    requires Circle(f, r) && Standing(f, c) && !Settles(f, r, c)
    ensures After(f, c, n).At?
    decreases n
  {
    hide OnAt, OffAt, Clears, Turn;
    if OffRing(r, c) {
      if n > 0 {
        UnsettledGoesOn(f, r, Turn(f, c), n - 1);
      }
    } else if c.smaller in r.chains {
      StuckForever(f, r, c.smaller, c.larger, false, n);
    } else {
      StuckForever(f, r, c.larger, c.smaller, true, n);
    }
  }

  /** With a circle of parent chains, the comparison ends if and only if it settles. */
  lemma CircleEndsIff(f: Forks, r: Ring, c: Cursors)
    requires Circle(f, r) && Standing(f, c) && c.At?
    ensures LessEnds(f, c) <==> Settles(f, r, c)
  {
    hide OnAt, OffAt, Settles, After;
    if Settles(f, r, c) {
      SettledEnds(f, r, c);
    } else {
      forall n: nat
        ensures After(f, c, n).At?
      {
        UnsettledGoesOn(f, r, c, n);
      }
    }
  }

  /** Without one it always ends. */
  lemma {:induction false} NoCircleEnds(f: Forks, c: Cursors)
    requires f.Valid() && Standing(f, c) && c.At? && (forall x | x in f.up :: f.slot[f.up[x]] < f.slot[x])
    ensures LessEnds(f, c)
    decreases f.slot[c.smaller] + f.slot[c.larger]
  {
    hide LessEnds;
    if Turn(f, c).At? {
      NoCircleEnds(f, Turn(f, c));
    }
    TurnEnds(f, c);
  }

  // ----- the circle that a moved root leaves behind

  function JointOf(t: Tree, x: ChainId): (p: Option<Id>)
    requires x in t.forkingPoint
  {
    var c := t.forkingPoint[x];
    if c in t.parent then Some(t.parent[c]) else None
  }

  function ForksOf(t: Tree): (f: Forks)
    requires Walkable(t)
    ensures f.Valid()
  {
    Forks(map x | x in t.forkingPoint :: t.Slot(t.forkingPoint[x]),
          map x | x in t.forkingPoint :: JointOf(t, x),
          map x | x in t.forkingPoint && t.ParentChain(x).Some? :: t.ParentChain(x).value)
  }

  /** The chains on the way from x to the main chain. */
  function ChainsDown(t: Tree, main: ChainId, x: ChainId): (s: set<ChainId>)
    requires t.Chained() && x in t.forkingPoint
    ensures x in s && s <= t.forkingPoint.Keys
    decreases t.Slot(t.forkingPoint[x])
  {
    if x == main || t.ParentChain(x).None? then {x} else {x} + ChainsDown(t, main, t.ParentChain(x).value)
  }

  lemma NewRoot(t: Tree, main: ChainId, r: Id)
    requires Connected(t, main, r) && r != t.root
    ensures t.root in t.chain && r in t.chain && r in t.parent && t.parent[r] in t.live && t.Solid(t.parent[r])
    ensures t.parent[r] in t.chain && t.chain[t.parent[r]] in t.forkingPoint
  {
    SolidOnChain(t, r);
    SolidOnChain(t, t.parent[r]);
  }

  /** The chains that the branch of the new root is on, and where that leaves the main chain. */
  function RingOf(t: Tree, main: ChainId, r: Id): (ring: Ring)
    requires Connected(t, main, r) && Circular(t, main, r)
  {
    NewRoot(t, main, r);
    var a := Branch(t, main, r);
    Ring(main, {main} + ChainsDown(t, main, t.chain[t.parent[r]]), t.Slot(a), Some(t.parent[a]))
  }

  /** On the way from x to the main chain, forking points come down to a, which hangs on the main chain. */
  predicate DownAt(t: Tree, main: ChainId, x: ChainId, a: Id, s: set<ChainId>, y: ChainId)
    requires t.Chained() && x in t.forkingPoint && y in t.forkingPoint && a in t.header
  {
    && t.Slot(a) <= t.Slot(t.forkingPoint[y]) <= t.Slot(t.forkingPoint[x])
    && t.ParentChain(y).Some? && t.ParentChain(y).value in s
    && (if t.Slot(t.forkingPoint[y]) > t.Slot(a) then t.ParentChain(y).value != main
        else t.ParentChain(y).value == main && t.forkingPoint[y] == a)
  }

  predicate Down(t: Tree, main: ChainId, x: ChainId, a: Id)
    requires t.Chained() && x in t.forkingPoint && a in t.header
  {
    var s := ChainsDown(t, main, x);
    && main in s
    && (forall y | y in s && y != main :: DownAt(t, main, x, a, s, y))
    && (forall y, z | y in s && z in s && y != main && z != main
                      && t.Slot(t.forkingPoint[y]) == t.Slot(t.forkingPoint[z]) :: y == z)
  }

  lemma DownFirst(t: Tree, main: ChainId, p: Id)
    requires t.Chained() && p in t.parent && p in t.chain && t.chain[p] in t.forkingPoint && t.chain[p] != main
    requires t.forkingPoint[t.chain[p]] == p && t.On(t.parent[p], main) && main in t.forkingPoint
    ensures Down(t, main, t.chain[p], p)
  {
    hide Tree.MainChildren, Tree.Partitioned, Tree.Grounded, Tree.Indexed;
    var x := t.chain[p];
    assert t.ParentChain(x) == Some(main);
    assert ChainsDown(t, main, x) == {x, main};
  }

  lemma DownLower(t: Tree, main: ChainId, x: ChainId, y: ChainId, a: Id, z: ChainId)
    requires t.Chained() && x in t.forkingPoint && y in t.forkingPoint && a in t.header && y != main
    requires t.ParentChain(x) == Some(y) && Down(t, main, y, a) && z in ChainsDown(t, main, y) && z != main
    ensures t.Slot(t.forkingPoint[z]) < t.Slot(t.forkingPoint[x])
    ensures DownAt(t, main, x, a, {x} + ChainsDown(t, main, y), z)
    ensures t.Slot(t.forkingPoint[x]) > t.Slot(a)
  {
    hide Tree.MainChildren, Tree.Partitioned, Tree.Grounded, Tree.ParentChain, ChainsDown;
    ParentChainLower(t, x);
    assert DownAt(t, main, y, a, ChainsDown(t, main, y), z);
  }

  lemma DownTop(t: Tree, main: ChainId, x: ChainId, y: ChainId, a: Id)
    requires t.Chained() && x in t.forkingPoint && y in t.forkingPoint && a in t.header && x != main && y != main
    requires t.ParentChain(x) == Some(y) && Down(t, main, y, a)
    ensures ChainsDown(t, main, x) == {x} + ChainsDown(t, main, y)
    ensures DownAt(t, main, x, a, ChainsDown(t, main, x), x)
  {
    hide Tree.MainChildren, Tree.Partitioned, Tree.Grounded, Tree.ParentChain, Down;
    DownLower(t, main, x, y, a, y);
  }

  /** One chain further up. */
  lemma DownNext(t: Tree, main: ChainId, x: ChainId, y: ChainId, a: Id)
    requires t.Chained() && x in t.forkingPoint && y in t.forkingPoint && a in t.header && x != main && y != main
    requires t.ParentChain(x) == Some(y) && Down(t, main, y, a)
    ensures Down(t, main, x, a)
  {
    hide Tree.Linked, Tree.MainChildren, Tree.Partitioned, Tree.Grounded, Tree.ParentChain, ChainsDown, DownAt;
    DownTop(t, main, x, y, a);
    forall z | z in ChainsDown(t, main, y) && z != main
      ensures z in t.forkingPoint && t.Slot(t.forkingPoint[z]) < t.Slot(t.forkingPoint[x])
      ensures DownAt(t, main, x, a, {x} + ChainsDown(t, main, y), z)
    {
      DownLower(t, main, x, y, a, z);
    }
  }

  lemma {:induction false} BranchDown(t: Tree, main: ChainId, p: Id)
    requires t.Chained() && p in t.live && t.Solid(p) && t.On(t.root, main) && p in t.chain && t.chain[p] != main
    ensures t.chain[p] in t.forkingPoint && p != t.root && Down(t, main, t.chain[p], Branch(t, main, p))
    decreases t.Slot(p)
  {
    hide Tree.MainChildren, Tree.Indexed, Down, ChainsDown;
    var q := t.parent[p];
    assert t.PartitionedAt(p);
    SolidOnChain(t, q);
    if t.On(q, main) {
      DownFirst(t, main, p);
    } else {
      BranchDown(t, main, q);
      if t.chain[p] != t.chain[q] {
        DownNext(t, main, t.chain[p], t.chain[q], Branch(t, main, q));
      }
    }
  }

  lemma {:induction false} BranchHangs(t: Tree, main: ChainId, r: Id)
    requires t.Chained() && r in t.live && t.Solid(r) && r != t.root && (t.On(t.root, main) || t.On(t.parent[r], main))
    ensures t.On(t.parent[Branch(t, main, r)], main)
    ensures t.On(t.parent[r], main) <==> Branch(t, main, r) == r
    ensures Branch(t, main, r) != r ==> t.Slot(Branch(t, main, r)) < t.Slot(r) && t.On(t.root, main)
    decreases t.Slot(r)
  {
    hide Tree.MainChildren, Tree.Partitioned, Tree.Grounded, Tree.Indexed;
    if !t.On(t.parent[r], main) {
      BranchHangs(t, main, t.parent[r]);
    }
  }

  /** What there is of the ring besides the main chain. */
  lemma RingDown(t: Tree, main: ChainId, r: Id)
    requires Connected(t, main, r) && Circular(t, main, r)
    ensures r in t.parent && t.parent[r] in t.chain && t.chain[t.parent[r]] in t.forkingPoint
    ensures var a, y := Branch(t, main, r), t.chain[t.parent[r]];
            && t.On(t.parent[a], main)
            && if a == r then y == main && RingOf(t, main, r).chains == {main}
               else y != main && t.Slot(a) < t.Slot(r) && Down(t, main, y, a)
                    && RingOf(t, main, r).chains == ChainsDown(t, main, y) && t.Slot(t.forkingPoint[y]) < t.Slot(r)
  {
    hide Tree.MainChildren, Tree.Indexed, Down;
    NewRoot(t, main, r);
    assert t.PartitionedAt(r);
    BranchHangs(t, main, r);
    var p := t.parent[r];
    if Branch(t, main, r) != r {
      BranchDown(t, main, p);
      MainBelow(t, main, t.chain[p], Branch(t, main, p));
    }
  }

  lemma MainBelow(t: Tree, main: ChainId, x: ChainId, a: Id)
    requires t.Chained() && x in t.forkingPoint && a in t.header && Down(t, main, x, a)
    ensures {main} + ChainsDown(t, main, x) == ChainsDown(t, main, x)
  {
    hide Tree.Chained, ChainsDown;
  }

  // ----- the moved tree

  predicate ForksAt(t: Tree, f: Forks, x: ChainId)
    requires t.Known() && x in t.forkingPoint
  {
    && x in f.slot && f.slot[x] == t.Slot(t.forkingPoint[x])
    && x in f.joint && f.joint[x] == JointOf(t, x)
    && (if t.ParentChain(x).Some? then x in f.up && f.up[x] == t.ParentChain(x).value else x !in f.up)
  }

  lemma MovedForks(t: Tree, main: ChainId, r: Id, x: ChainId)
    requires Connected(t, main, r) && x in t.forkingPoint
    ensures Walkable(MoveRoot(t, main, r))
    ensures x != main || MoveRoot(t, main, r).forkingPoint[main] == t.forkingPoint[main]
            ==> ForksAt(t, ForksOf(MoveRoot(t, main, r)), x)
  {
    hide Tree.MainChildren, Tree.Partitioned, Tree.Indexed, Tree.Solid, Tree.Linked, Tree.Grounded;
    SolidOnChain(t, r);
    MovedRootWalkable(t, main, r);
  }

  lemma MovedMain(t: Tree, main: ChainId, r: Id)
    requires Connected(t, main, r) && Circular(t, main, r)
    ensures Walkable(MoveRoot(t, main, r)) && r in t.parent && t.parent[r] in t.chain
    ensures var f := ForksOf(MoveRoot(t, main, r));
            && main in f.slot && f.slot[main] == t.Slot(r) && f.joint[main] == Some(t.parent[r])
            && main in f.up && f.up[main] == t.chain[t.parent[r]] && f.slot.Keys == t.forkingPoint.Keys
  {
    hide Tree.MainChildren, Tree.Partitioned, Tree.Indexed, Tree.Grounded;
    NewRoot(t, main, r);
    MovedRootWalkable(t, main, r);
  }

  lemma MainOn(t: Tree, main: ChainId, r: Id)
    requires Connected(t, main, r) && Circular(t, main, r) && Walkable(MoveRoot(t, main, r))
    ensures var f, ring := ForksOf(MoveRoot(t, main, r)), RingOf(t, main, r); main in f.slot && OnAt(f, ring, main)
  {
    hide Tree.MainChildren, Tree.Partitioned, Tree.Grounded, MoveRoot, ForksOf, ChainsDown, Branch, Down, Tree.ParentChain;
    RingDown(t, main, r);
    MovedMain(t, main, r);
    var y := t.chain[t.parent[r]];
    if y != main {
      MovedForks(t, main, r, y);
    }
  }

  lemma MovedOn(t: Tree, main: ChainId, r: Id, x: ChainId)
    requires Connected(t, main, r) && Circular(t, main, r) && Walkable(MoveRoot(t, main, r))
    requires x in RingOf(t, main, r).chains && x != main
    ensures var f, ring := ForksOf(MoveRoot(t, main, r)), RingOf(t, main, r);
            && x in f.slot && OnAt(f, ring, x) && f.slot[x] < t.Slot(r)
            && x in t.forkingPoint && f.slot[x] == t.Slot(t.forkingPoint[x]) && f.slot[x] >= ring.low
  {
    hide Tree.MainChildren, Tree.Partitioned, Tree.Grounded, MoveRoot, ForksOf, ChainsDown, Branch, Circular;
    RingDown(t, main, r);
    MovedForks(t, main, r, x);
    var a, y := Branch(t, main, r), t.chain[t.parent[r]];
    assert DownAt(t, main, y, a, ChainsDown(t, main, y), x);
    var z := t.ParentChain(x).value;
    if z != main {
      MovedForks(t, main, r, z);
      ParentChainLower(t, x);
    }
  }

  lemma RingOnce(t: Tree, main: ChainId, r: Id, x: ChainId, y: ChainId)
    requires Connected(t, main, r) && Circular(t, main, r) && Walkable(MoveRoot(t, main, r))
    requires x in RingOf(t, main, r).chains && y in RingOf(t, main, r).chains && x != y
    ensures var f := ForksOf(MoveRoot(t, main, r)); x in f.slot && y in f.slot && f.slot[x] != f.slot[y]
  {
    hide Tree.Known, Tree.MainChildren, Tree.Partitioned, Tree.Grounded, Tree.ParentChain, MoveRoot, ForksOf, ChainsDown,
         Circular, Connected, Tree.Chained, Branch, RingOf, OnAt, DownAt;
    RingDown(t, main, r);
    MovedMain(t, main, r);
    if x != main {
      MovedOn(t, main, r, x);
    }
    if y != main {
      MovedOn(t, main, r, y);
    }
  }

  /** A chain off the ring that hangs on the ring at the lowest slot hangs on the same commitment. */
  lemma MovedOff(t: Tree, main: ChainId, r: Id, x: ChainId)
    requires Connected(t, main, r) && Circular(t, main, r) && Walkable(MoveRoot(t, main, r)) && t.Single()
    requires x in t.forkingPoint && x !in RingOf(t, main, r).chains
    ensures var f := ForksOf(MoveRoot(t, main, r)); x in f.slot && OffAt(f, RingOf(t, main, r), x)
  {
    hide Tree.MainChildren, Tree.Partitioned, MoveRoot, ForksOf, ChainsDown, Branch, Circular;
    RingDown(t, main, r);
    MovedForks(t, main, r, x);
    if t.ParentChain(x).Some? {
      var z, c := t.ParentChain(x).value, t.forkingPoint[x];
      if z !in RingOf(t, main, r).chains {
        MovedForks(t, main, r, z);
        ParentChainLower(t, x);
      } else if z != main {
        MovedOn(t, main, r, z);
      } else {
        var a := Branch(t, main, r);
        assert t.Slot(c) == t.Slot(a) ==> t.parent[c] == t.parent[a];
      }
    }
  }

  lemma MovedCircle(t: Tree, main: ChainId, r: Id)
    requires Connected(t, main, r) && Circular(t, main, r) && t.Single()
    ensures Walkable(MoveRoot(t, main, r)) && Circle(ForksOf(MoveRoot(t, main, r)), RingOf(t, main, r))
  {
    hide Tree.Chained, MoveRoot, ForksOf, Branch, Circular, Tree.Single, OnAt, OffAt, Tree.Solid;
    MovedMain(t, main, r);
    var f, ring := ForksOf(MoveRoot(t, main, r)), RingOf(t, main, r);
    MainOn(t, main, r);
    forall x | x in ring.chains && x != main
      ensures x in f.slot && OnAt(f, ring, x)
    {
      MovedOn(t, main, r, x);
    }
    forall x, y | x in ring.chains && y in ring.chains && x != y
      ensures x in f.slot && y in f.slot && f.slot[x] != f.slot[y]
    {
      RingOnce(t, main, r, x, y);
    }
    forall x | x in f.slot && x !in ring.chains
      ensures OffAt(f, ring, x)
    {
      MovedOff(t, main, r, x);
    }
  }

  lemma NoCircle(t: Tree, main: ChainId, r: Id, x: ChainId)
    requires Connected(t, main, r) && !Circular(t, main, r) && Walkable(MoveRoot(t, main, r))
    ensures var f := ForksOf(MoveRoot(t, main, r)); x in f.up ==> f.slot[f.up[x]] < f.slot[x]
  {
    hide Tree.MainChildren, Tree.Partitioned, Tree.Indexed, Tree.Solid;
    SolidOnChain(t, r);
    RootHasNoParent(t);
    var m := MoveRoot(t, main, r);
    if x in ForksOf(m).up {
      MovedParentChain(t, main, r, x);
      ParentChainLower(t, x);
    }
  }

  /**
   Before eviction, the comparison of two chains ends if and only if the main
   chain got no forking point with a parent, or it settles on the circle of
   chains that the branch of the new root is on.
   */
  lemma LessEndsIff(t: Tree, main: ChainId, r: Id, x: ChainId, y: ChainId)
    requires Connected(t, main, r) && t.Single() && x in t.forkingPoint && y in t.forkingPoint && x != y
    ensures Walkable(MoveRoot(t, main, r)) && Standing(ForksOf(MoveRoot(t, main, r)), At(x, y))
    ensures Circular(t, main, r) ==> Circle(ForksOf(MoveRoot(t, main, r)), RingOf(t, main, r))
    ensures LessEnds(ForksOf(MoveRoot(t, main, r)), At(x, y)) <==>
            (Circular(t, main, r) ==> Settles(ForksOf(MoveRoot(t, main, r)), RingOf(t, main, r), At(x, y)))
  {
    hide Tree.Chained, MoveRoot, Circular, Tree.Single, Circle, Settles, LessEnds, Tree.Solid, RingOf;
    MovedRootWalkable(t, main, r);
    var f := ForksOf(MoveRoot(t, main, r));
    if Circular(t, main, r) {
      MovedCircle(t, main, r);
      CircleEndsIff(f, RingOf(t, main, r), At(x, y));
    } else {
      forall z | z in f.up
        ensures f.slot[f.up[z]] < f.slot[z]
      {
        NoCircle(t, main, r, z);
      }
      NoCircleEnds(f, At(x, y));
    }
  }
}

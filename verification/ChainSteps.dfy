/**
 How chains are assigned: `registerChild`, `deriveChain`, `forceChain` and
 `Chain.addCommitment`. One event and everything it propagates through the
 reactive variables is one step.
 */
module ChainSteps {
  import opened Collections
  import opened CommitmentTree

  // ----- setting the chain of one commitment

  /** The trees agree on everything but chains and slot indexes. */
  predicate SameShape(t: Tree, u: Tree) {
    u == t.(chain := u.chain, index := u.index)
  }

  predicate Indexable(t: Tree) {
    t.index.Keys == t.forkingPoint.Keys && forall c | c in t.chain :: t.chain[c] in t.index
  }

  /**
   `Chain.Set(x)` on a commitment: leaving the old chain deletes its slot from
   the index of that chain, entering the new one sets it.
   */
  function SetChain(t: Tree, c: Id, x: ChainId): (u: Tree)
    requires t.Known() && Indexable(t) && c in t.live && x in t.forkingPoint
    ensures SameShape(t, u) && Indexable(u) && u.Known() && u.chain == t.chain[c := x]
  {
    var s := t.Slot(c);
    var cleared := if c in t.chain then t.index[t.chain[c] := t.index[t.chain[c]] - {s}] else t.index;
    t.(chain := t.chain[c := x], index := cleared[x := cleared[x][s := c]])
  }

  predicate CanEnter(t: Tree, c: Id, x: ChainId) {
    t.Known() && t.Indexed() && Indexable(t) && c in t.live && x in t.forkingPoint && t.Slot(c) !in t.index[x]
  }

  lemma SetChainFindsCommitment(t: Tree, c: Id, x: ChainId, d: Id)
    requires CanEnter(t, c, x) && d in SetChain(t, c, x).chain
    ensures var u := SetChain(t, c, x);
            && d in u.live && u.chain[d] in u.index && u.Slot(d) in u.index[u.chain[d]]
            && u.index[u.chain[d]][u.Slot(d)] == d
  {
    if d != c {
      assert t.index[t.chain[d]][t.Slot(d)] == d;
      if c in t.chain && t.chain[c] == t.chain[d] {
        assert t.index[t.chain[c]][t.Slot(c)] == c;
      }
    }
  }

  lemma SetChainEntryIsCommitment(t: Tree, c: Id, x: ChainId, y: ChainId, r: nat)
    requires CanEnter(t, c, x) && y in SetChain(t, c, x).index && r in SetChain(t, c, x).index[y]
    ensures var u := SetChain(t, c, x);
            u.On(u.index[y][r], y) && u.index[y][r] in u.live && u.Slot(u.index[y][r]) == r
  {
    var u := SetChain(t, c, x);
    if y != x || r != t.Slot(c) {
      assert r in t.index[y] && u.index[y][r] == t.index[y][r];
    }
  }

  lemma SetChainIndexed(t: Tree, c: Id, x: ChainId)
    requires CanEnter(t, c, x)
    ensures SetChain(t, c, x).Indexed()
  {
    var u := SetChain(t, c, x);
    forall d | d in u.chain
      ensures d in u.live && u.chain[d] in u.index && u.Slot(d) in u.index[u.chain[d]]
      ensures u.index[u.chain[d]][u.Slot(d)] == d
    {
      SetChainFindsCommitment(t, c, x, d);
    }
    forall y, r | y in u.index && r in u.index[y]
      ensures u.On(u.index[y][r], y) && u.index[y][r] in u.live && u.Slot(u.index[y][r]) == r
    {
      SetChainEntryIsCommitment(t, c, x, y, r);
    }
  }

  // ----- moving a main path

  /**
   A new chain value travels along main children: each derives its chain from
   its parent. Other children keep the chain they started.
   */
  function MovePath(t: Tree, c: Id, x: ChainId): (u: Tree)
    requires t.Known() && t.Linked() && t.MainChildren() && Indexable(t) && c in t.live && x in t.forkingPoint
    ensures SameShape(t, u) && Indexable(u) && u.Known()
    decreases t.Higher(c)
  {
    var u := SetChain(t, c, x);
    if c in t.mainChild then
      HigherShrinks(t, c, t.mainChild[c]);
      MovePath(u, t.mainChild[c], x)
    else u
  }

  lemma ShapeKeepsLinks(t: Tree, u: Tree)
    requires t.Known() && t.Linked() && t.MainChildren() && SameShape(t, u) && u.Known()
    ensures u.Linked() && u.MainChildren()
  {
  }

  lemma MainChildHigher(t: Tree, c: Id)
    requires t.Known() && t.Linked() && t.MainChildren() && c in t.live && c in t.mainChild
    ensures t.mainChild[c] in t.live && t.Higher(t.mainChild[c]) < t.Higher(c)
  {
    HigherShrinks(t, c, t.mainChild[c]);
  }

  /** Main paths are read off parents and main children only. */
  lemma {:induction false} MainPathFrame(t: Tree, u: Tree, c: Id, d: Id)
    requires t.Known() && t.Linked() && u.Known() && u.Linked() && SameShape(t, u) && c in t.live && d in t.live
    ensures t.OnMainPath(c, d) == u.OnMainPath(c, d)
    decreases t.Slot(d)
  {
    if t.IsMain(d) {
      MainPathFrame(t, u, c, t.parent[d]);
    }
  }

  /** The main path of c is c followed by the main path of its main child. */
  lemma {:induction false} MainPathUnfold(t: Tree, c: Id, d: Id)
    requires t.Known() && t.Linked() && t.MainChildren() && c in t.live && d in t.live
    ensures t.OnMainPath(c, d) <==> d == c || (c in t.mainChild && t.OnMainPath(t.mainChild[c], d))
    decreases t.Slot(d)
  {
    if d != c && t.IsMain(d) {
      MainPathUnfold(t, c, t.parent[d]);
    }
    if c in t.mainChild && d == t.mainChild[c] {
      assert t.IsMain(d) && t.OnMainPath(c, t.parent[d]);
    }
  }

  /** No commitment of the main path of c finds its slot taken on x. */
  ghost predicate RoomFor(t: Tree, c: Id, x: ChainId)
    requires t.Known() && t.Linked() && c in t.live && x in t.index
  {
    forall d | d in t.live && t.OnMainPath(c, d) :: t.Slot(d) !in t.index[x]
  }

  lemma RoomForRest(t: Tree, c: Id, x: ChainId)
    requires t.Known() && t.Linked() && t.MainChildren() && Indexable(t) && c in t.mainChild && c in t.live
    requires x in t.forkingPoint && RoomFor(t, c, x)
    ensures RoomFor(SetChain(t, c, x), t.mainChild[c], x)
  {
    var u, m := SetChain(t, c, x), t.mainChild[c];
    forall d | d in u.live && u.OnMainPath(m, d)
      ensures u.Slot(d) !in u.index[x]
    {
      MainPathFrame(t, u, m, d);
      MainPathUnfold(t, c, d);
      MainPathSlot(t, m, d);
    }
  }

  /** Exactly the main path of c ends up on x. */
  lemma {:induction false} MovePathChains(t: Tree, c: Id, x: ChainId, d: Id)
    requires t.Known() && t.Linked() && t.MainChildren() && Indexable(t) && c in t.live && x in t.forkingPoint
    requires d in t.live
    ensures MovePath(t, c, x).ChainOf(d) == if t.OnMainPath(c, d) then Some(x) else t.ChainOf(d)
    decreases t.Higher(c)
  {
    MainPathUnfold(t, c, d);
    var u := SetChain(t, c, x);
    if c in t.mainChild {
      var m := t.mainChild[c];
      HigherShrinks(t, c, m);
      MovePathChains(u, m, x, d);
      MainPathFrame(t, u, m, d);
    }
  }

  lemma {:induction false} MovePathIndexed(t: Tree, c: Id, x: ChainId)
    requires t.Known() && t.Linked() && t.MainChildren() && t.Indexed() && Indexable(t) && c in t.live
    requires x in t.forkingPoint && RoomFor(t, c, x)
    ensures MovePath(t, c, x).Indexed()
    decreases t.Higher(c)
  {
    assert t.OnMainPath(c, c);
    SetChainIndexed(t, c, x);
    if c in t.mainChild {
      HigherShrinks(t, c, t.mainChild[c]);
      RoomForRest(t, c, x);
      MovePathIndexed(SetChain(t, c, x), t.mainChild[c], x);
    }
  }

  /** Moving a main path leaves the partition intact everywhere but at its start. */
  lemma MovePathPartition(t: Tree, c: Id, x: ChainId, y: Id)
    requires t.Known() && t.Linked() && t.MainChildren() && Indexable(t) && c in t.live && x in t.forkingPoint
    requires y in t.parent && y != c && t.PartitionedAt(y)
    ensures MovePath(t, c, x).PartitionedAt(y)
  {
    MovePathChains(t, c, x, y);
    MovePathChains(t, c, x, t.parent[y]);
  }

  lemma MovePathGroundedAt(t: Tree, c: Id, x: ChainId, d: Id)
    requires t.Known() && t.Linked() && t.MainChildren() && t.Grounded() && Indexable(t)
    requires c in t.parent && x in t.forkingPoint && t.Slot(t.forkingPoint[x]) <= t.Slot(c)
    requires d in t.live && d in MovePath(t, c, x).chain
    ensures var u := MovePath(t, c, x);
            && u.chain[d] in u.forkingPoint && u.Slot(u.forkingPoint[u.chain[d]]) <= u.Slot(d)
            && (d in u.parent || u.Slot(d) == u.Slot(u.root))
  {
    hide Tree.MainChildren, Indexable;
    MovePathChains(t, c, x, d);
    if t.OnMainPath(c, d) {
      MainPathSlot(t, c, d);
    }
  }

  /** Moving a main path up to a chain that starts no higher keeps chains grounded. */
  lemma MovePathGrounded(t: Tree, c: Id, x: ChainId)
    requires t.Known() && t.Linked() && t.MainChildren() && t.Grounded() && Indexable(t)
    requires c in t.parent && x in t.forkingPoint && t.Slot(t.forkingPoint[x]) <= t.Slot(c)
    ensures MovePath(t, c, x).Grounded()
  {
    hide Tree.MainChildren, Indexable, MovePath;
    var u := MovePath(t, c, x);
    MovePathChains(t, c, x, t.root);
    MovePathSubset(t, c, x);
    forall d | d in u.chain
      ensures d in u.live && u.chain[d] in u.forkingPoint && u.Slot(u.forkingPoint[u.chain[d]]) <= u.Slot(d)
      ensures d in u.parent || u.Slot(d) == u.Slot(u.root)
    {
      MovePathGroundedAt(t, c, x, d);
    }
  }

  lemma {:induction false} MovePathSubset(t: Tree, c: Id, x: ChainId)
    requires t.Known() && t.Linked() && t.MainChildren() && Indexable(t) && c in t.live && x in t.forkingPoint
    requires t.chain.Keys <= t.live
    ensures MovePath(t, c, x).chain.Keys <= t.live
    decreases t.Higher(c)
  {
    if c in t.mainChild {
      HigherShrinks(t, c, t.mainChild[c]);
      MovePathSubset(SetChain(t, c, x), t.mainChild[c], x);
    }
  }
}

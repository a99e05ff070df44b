/**
 Linking a commitment to its parent and forcing it onto a chain keep the invariant.
 */
module LinkSteps {
  import opened Collections
  import opened CommitmentTree
  import opened ChainSteps
  import opened TreeSteps
  import opened ForceChain

  // ----- linking a commitment to its parent

  predicate CanLink(t: Tree, c: Id) {
    && t.Known() && c in t.live && c in t.header && c !in t.parent && c != t.root
    && t.header[c].previous in t.live && t.Slot(c) == t.Slot(t.header[c].previous) + 1
  }

  function WithParent(t: Tree, c: Id): (u: Tree)
    requires c in t.header
  {
    t.(parent := t.parent[c := t.header[c].previous])
  }

  /**
   The parent of c becomes known: c is registered as a child, as the main child
   if it is the first, and derives its chain.
   */
  function Link(t: Tree, c: Id): (u: Tree)
    requires t.Chained() && CanLink(t, c)
  {
    var p, u := t.header[c].previous, WithParent(t, c);
    LinkPromotable(t, c);
    if p in t.mainChild then Spawn(u, c)
    else if p in t.chain then Promote(u, c)
    else SetMainChild(u, c)
  }

  lemma WithParentLinked(t: Tree, c: Id)
    requires t.Known() && t.Linked() && CanLink(t, c)
    ensures WithParent(t, c).Known() && WithParent(t, c).Linked()
  {
  }

  lemma WithParentMainChildren(t: Tree, c: Id)
    requires t.MainChildren() && CanLink(t, c)
    ensures t.header[c].previous in t.mainChild ==> WithParent(t, c).MainChildren()
    ensures t.header[c].previous !in t.mainChild ==> SetMainChild(WithParent(t, c), c).MainChildren()
  {
  }

  lemma WithParentPromotable(t: Tree, c: Id)
    requires t.MainChildren() && CanLink(t, c) && Indexable(t) && t.header[c].previous in t.chain
    requires WithParent(t, c).Known() && WithParent(t, c).Linked()
    ensures Promotable(WithParent(t, c), c)
  {
    hide Tree.Known, Tree.Linked;
  }

  lemma ChainedIndexable(t: Tree)
    requires t.Chained()
    ensures Indexable(t)
  {
  }

  lemma LinkPromotable(t: Tree, c: Id)
    requires t.Chained() && CanLink(t, c)
    ensures var p, u := t.header[c].previous, WithParent(t, c);
            && u.Known() && u.Linked() && Indexable(u)
            && (p in t.chain ==> Promotable(u, c))
            && (p in t.mainChild ==> u.MainChildren())
            && (p !in t.mainChild ==> SetMainChild(u, c).MainChildren())
  {
    hide Tree.Known, Tree.Linked, Tree.MainChildren, Tree.Partitioned, Tree.Grounded, Tree.Indexed;
    hide Promotable, SetMainChild;
    ChainedIndexable(t);
    WithParentLinked(t, c);
    WithParentMainChildren(t, c);
    if t.header[c].previous in t.chain {
      WithParentPromotable(t, c);
    }
  }

  lemma LinkUnchained(t: Tree, c: Id)
    requires t.Chained() && CanLink(t, c)
    ensures c !in t.chain
  {
    hide Tree.Partitioned, Tree.Indexed, Tree.MainChildren;
  }

  lemma LinkGrounded(t: Tree, c: Id)
    requires t.Chained() && CanLink(t, c) && WithParent(t, c).Known()
    ensures WithParent(t, c).Grounded()
  {
    hide Tree.Partitioned, Tree.Indexed, Tree.MainChildren;
  }

  lemma LinkPartition(t: Tree, c: Id, y: Id)
    requires t.Chained() && CanLink(t, c) && y in t.parent
    ensures WithParent(t, c).PartitionedAt(y)
  {
    hide Tree.Grounded, Tree.Indexed;
    assert t.PartitionedAt(y);
  }

  lemma {:induction false} LinkPath(t: Tree, c: Id, a: Id, d: Id)
    requires t.Chained() && CanLink(t, c) && WithParent(t, c).Known() && WithParent(t, c).Linked()
    requires a in t.live && d in t.live && t.OnMainPath(a, d)
    ensures WithParent(t, c).OnMainPath(a, d)
    decreases t.Slot(d)
  {
    hide Tree.Grounded, Tree.Indexed, Tree.Partitioned;
    if d != a {
      LinkPath(t, c, a, t.parent[d]);
    }
  }

  /** From the slot of a child on, a chain is the main path of the main child. */
  lemma ClearAbove(t: Tree, p: Id, e: Id)
    requires t.Inv() && p in t.chain && e in t.chain && t.chain[e] == t.chain[p] && t.Slot(e) > t.Slot(p)
    ensures p in t.mainChild && t.mainChild[p] in t.live && t.OnMainPath(t.mainChild[p], e)
  {
    if p !in t.mainChild {
      InvConsistent(t);
      TipIsHighest(t, p, e);
    }
    assert t.IsMain(t.mainChild[p]) && t.PartitionedAt(t.mainChild[p]);
    RestOfChain(t, t.mainChild[p], e);
  }

  lemma LinkClear(t: Tree, c: Id)
    requires t.Inv() && CanLink(t, c) && Promotable(WithParent(t, c), c)
    ensures Clear(WithParent(t, c), c)
  {
    hide Tree.Grounded, Tree.Indexed, Tree.Partitioned, Tree.MainChildren;
    var p, u := t.header[c].previous, WithParent(t, c);
    forall e | e in u.live && u.On(e, u.chain[p]) && u.Slot(e) >= u.Slot(c)
      ensures p in u.mainChild && u.OnMainPath(u.mainChild[p], e)
    {
      ClearAbove(t, p, e);
      LinkPath(t, c, t.mainChild[p], e);
    }
  }

  lemma LinkReady(t: Tree, c: Id)
    requires t.Inv() && CanLink(t, c) && t.header[c].previous in t.chain
    ensures Ready(WithParent(t, c), c)
  {
    hide Tree.Grounded, Tree.Partitioned, Tree.MainChildren, Tree.PartitionedAt, Clear, Promotable;
    LinkPromotable(t, c);
    LinkGrounded(t, c);
    LinkClear(t, c);
    forall y | y in t.parent
      ensures WithParent(t, c).PartitionedAt(y)
    {
      LinkPartition(t, c, y);
    }
  }

  /** c is a further child of its parent and starts a chain. */
  lemma LinkFork(t: Tree, c: Id)
    requires t.Inv() && CanLink(t, c) && t.header[c].previous in t.mainChild
    requires WithParent(t, c).Known() && WithParent(t, c).Linked() && WithParent(t, c).MainChildren()
    requires Indexable(WithParent(t, c))
    ensures Spawn(WithParent(t, c), c).Inv()
  {
    hide Spawn, Tree.Grounded, Tree.Partitioned, Tree.Indexed, Tree.Linked, Tree.MainChildren, Promotable;
    var u := WithParent(t, c);
    LinkGrounded(t, c);
    SpawnLinks(u, c);
    SpawnGrounded(u, c);
    LinkIndexed(t, c);
    SpawnIndexed(u, c);
    LinkForkPartition(t, c);
  }

  lemma LinkIndexed(t: Tree, c: Id)
    requires t.Inv() && CanLink(t, c)
    ensures WithParent(t, c).Indexed()
  {
  }

  lemma LinkForkPartition(t: Tree, c: Id)
    requires t.Inv() && CanLink(t, c) && t.header[c].previous in t.mainChild
    requires WithParent(t, c).Known() && WithParent(t, c).Linked() && WithParent(t, c).MainChildren()
    requires Indexable(WithParent(t, c))
    ensures Spawn(WithParent(t, c), c).Partitioned()
  {
    hide Tree.Grounded, Tree.Indexed, Tree.PartitionedAt;
    var u := WithParent(t, c);
    SpawnStart(u, c);
    forall y | y in u.parent && y != c
      ensures Spawn(u, c).PartitionedAt(y)
    {
      LinkPartition(t, c, y);
      SpawnPartition(u, c, y);
    }
  }

  /** The first child of a parent that has no chain yet waits with it. */
  lemma LinkQuiet(t: Tree, c: Id)
    requires t.Inv() && CanLink(t, c)
    requires t.header[c].previous !in t.mainChild && t.header[c].previous !in t.chain
    ensures SetMainChild(WithParent(t, c), c).Inv()
  {
    hide Tree.Grounded, Tree.Partitioned, Tree.Indexed;
    LinkPromotable(t, c);
    LinkGrounded(t, c);
    LinkQuietPartition(t, c);
    var u := SetMainChild(WithParent(t, c), c);
    assert u.Indexed() by { LinkIndexed(t, c); SameIndexed(WithParent(t, c), u); }
    assert u.Grounded() by { SameGrounded(WithParent(t, c), u); }
  }

  lemma LinkQuietPartition(t: Tree, c: Id)
    requires t.Inv() && CanLink(t, c)
    requires t.header[c].previous !in t.mainChild && t.header[c].previous !in t.chain
    ensures SetMainChild(WithParent(t, c), c).Partitioned()
  {
    hide Tree.Grounded, Tree.Indexed;
    var u := SetMainChild(WithParent(t, c), c);
    LinkUnchained(t, c);
    forall y | y in u.parent
      ensures u.PartitionedAt(y)
    {
      if y != c {
        assert t.PartitionedAt(y);
      }
    }
  }

  lemma LinkInv(t: Tree, c: Id)
    requires t.Inv() && CanLink(t, c)
    ensures Link(t, c).Inv()
  {
    hide Tree.Chained, Tree.Indexed;
    var p := t.header[c].previous;
    LinkPromotable(t, c);
    if p in t.mainChild {
      LinkFork(t, c);
    } else if p in t.chain {
      LinkReady(t, c);
      PromoteInv(WithParent(t, c), c);
    } else {
      LinkQuiet(t, c);
    }
  }

  // ----- forcing a commitment onto a chain

  /** `forceChain` on a commitment that is linked already. */
  function Force(t: Tree, c: Id, target: ChainId): (u: Tree)
    requires t.Chained() && c in t.live
  {
    if t.ChainOf(c) != Some(target) && c in t.parent && t.ChainOf(t.parent[c]) == Some(target) then
      ForcePromotable(t, c);
      Promote(t, c)
    else t
  }

  lemma ForcePromotable(t: Tree, c: Id)
    requires t.Chained() && c in t.parent && t.parent[c] in t.chain && t.ChainOf(c) != t.ChainOf(t.parent[c])
    ensures Promotable(t, c)
  {
    assert t.PartitionedAt(c);
  }

  /** An engine publishes c itself: the chain is forced before c derives it. */
  function LinkForced(t: Tree, c: Id, target: ChainId): (u: Tree)
    requires t.Chained() && CanLink(t, c)
  {
    LinkPromotable(t, c);
    if t.ChainOf(t.header[c].previous) == Some(target) then Promote(WithParent(t, c), c) else Link(t, c)
  }

  lemma ForceReady(t: Tree, c: Id)
    requires t.Inv() && c in t.parent && t.parent[c] in t.chain && t.ChainOf(c) != t.ChainOf(t.parent[c])
    ensures Ready(t, c)
  {
    hide Tree.Grounded, Tree.Indexed, Tree.MainChildren;
    ForcePromotable(t, c);
    var p := t.parent[c];
    forall e | e in t.live && t.On(e, t.chain[p]) && t.Slot(e) >= t.Slot(c)
      ensures p in t.mainChild && t.OnMainPath(t.mainChild[p], e)
    {
      ClearAbove(t, p, e);
    }
  }

  lemma ForceInv(t: Tree, c: Id, target: ChainId)
    requires t.Inv() && c in t.live
    ensures Force(t, c, target).Inv()
  {
    hide Tree.Partitioned, Tree.Grounded, Tree.Indexed, Tree.MainChildren;
    if t.ChainOf(c) != Some(target) && c in t.parent && t.ChainOf(t.parent[c]) == Some(target) {
      ForceReady(t, c);
      PromoteInv(t, c);
    }
  }

  lemma LinkForcedInv(t: Tree, c: Id, target: ChainId)
    requires t.Inv() && CanLink(t, c)
    ensures LinkForced(t, c, target).Inv()
  {
    hide Tree.Chained, Tree.Indexed;
    if t.ChainOf(t.header[c].previous) == Some(target) {
      LinkReady(t, c);
      PromoteInv(WithParent(t, c), c);
    } else {
      LinkInv(t, c);
    }
  }
}

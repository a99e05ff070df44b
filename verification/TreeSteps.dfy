/**
 The steps of the commitment tree, and the invariant they keep: publishing a
 commitment, linking it to its parent, forcing it onto a chain, and advancing
 the root.
 */
module TreeSteps {
  import opened Collections
  import opened CommitmentTree
  import opened ChainSteps

  // ----- publishing

  /** `publishCommitment` creates a commitment that is not linked to anything yet. */
  function Publish(t: Tree, c: Id, h: Header): (u: Tree)
  {
    t.(header := t.header[c := h], live := t.live + {c})
  }

  /** Slots below the root are evicted and can not be published any more. */
  predicate CanPublish(t: Tree, c: Id, h: Header) {
    t.Known() && c !in t.header && h.slot >= t.Slot(t.root)
  }

  lemma PublishLinks(t: Tree, c: Id, h: Header)
    requires t.Known() && t.Linked() && CanPublish(t, c, h)
    ensures Publish(t, c, h).Known() && Publish(t, c, h).Linked()
  {
  }

  lemma PublishGrounded(t: Tree, c: Id, h: Header)
    requires t.Known() && t.Grounded() && CanPublish(t, c, h) && Publish(t, c, h).Known()
    ensures Publish(t, c, h).Grounded()
  {
  }

  lemma PublishIndexed(t: Tree, c: Id, h: Header)
    requires t.Known() && t.Indexed() && CanPublish(t, c, h)
    ensures Publish(t, c, h).Indexed()
  {
  }

  lemma PublishPartitioned(t: Tree, c: Id, h: Header)
    requires t.Partitioned()
    ensures Publish(t, c, h).Partitioned()
  {
    forall d | d in t.parent
      ensures Publish(t, c, h).PartitionedAt(d)
    {
      assert t.PartitionedAt(d);
    }
  }

  lemma PublishInv(t: Tree, c: Id, h: Header)
    requires t.Inv() && CanPublish(t, c, h)
    ensures Publish(t, c, h).Inv()
  {
    hide Tree.Known, Tree.Linked, Tree.Partitioned, Tree.Grounded, Tree.Indexed;
    PublishLinks(t, c, h);
    PublishGrounded(t, c, h);
    PublishIndexed(t, c, h);
    PublishPartitioned(t, c, h);
  }

  // ----- new chains

  /** `newChain` with its forking point set. */
  function NewChain(t: Tree, f: Id): (u: Tree) {
    t.(forkingPoint := t.forkingPoint[t.nextChain := f],
       index := t.index[t.nextChain := map[]],
       nextChain := t.nextChain + 1)
  }

  /** c starts a new chain and takes its main path along. */
  function Spawn(t: Tree, c: Id): (u: Tree)
    requires t.Known() && t.Linked() && t.MainChildren() && Indexable(t) && c in t.live
    ensures u.Known() && Indexable(u)
  {
    MovePath(NewChain(t, c), c, t.nextChain)
  }

  lemma {:induction false} NewChainPath(t: Tree, f: Id, c: Id, d: Id)
    requires t.Known() && t.Linked() && f in t.live && c in t.live && d in t.live
    ensures NewChain(t, f).Known() && NewChain(t, f).Linked()
    ensures NewChain(t, f).OnMainPath(c, d) == t.OnMainPath(c, d)
    decreases t.Slot(d)
  {
    if t.IsMain(d) {
      NewChainPath(t, f, c, t.parent[d]);
    }
  }

  lemma SpawnChains(t: Tree, c: Id, d: Id)
    requires t.Known() && t.Linked() && t.MainChildren() && Indexable(t) && c in t.live && d in t.live
    ensures Spawn(t, c).ChainOf(d) == if t.OnMainPath(c, d) then Some(t.nextChain) else t.ChainOf(d)
  {
    NewChainPath(t, c, c, d);
    MovePathChains(NewChain(t, c), c, t.nextChain, d);
  }

  lemma NewChainIndexed(t: Tree, f: Id)
    requires t.Known() && t.Indexed() && Indexable(t)
    ensures NewChain(t, f).Indexed()
  {
    var u := NewChain(t, f);
    forall x, s | x in u.index && s in u.index[x]
      ensures u.On(u.index[x][s], x) && u.index[x][s] in u.live && u.Slot(u.index[x][s]) == s
    {
      assert x in t.index && s in t.index[x];
    }
  }

  lemma NewChainGrounded(t: Tree, f: Id)
    requires t.Known() && t.Grounded() && f in t.live
    ensures NewChain(t, f).Known() && NewChain(t, f).Grounded()
  {
  }

  lemma SpawnLinks(t: Tree, c: Id)
    requires t.Known() && t.Linked() && t.MainChildren() && Indexable(t) && c in t.live
    ensures Spawn(t, c).Known() && Spawn(t, c).Linked() && Spawn(t, c).MainChildren()
    ensures Spawn(t, c).parent == t.parent && Spawn(t, c).live == t.live
    ensures t.forkingPoint.Keys <= Spawn(t, c).forkingPoint.Keys
  {
  }

  lemma SpawnIndexed(t: Tree, c: Id)
    requires t.Known() && t.Linked() && t.MainChildren() && t.Indexed() && Indexable(t) && c in t.live
    ensures Spawn(t, c).Indexed()
  {
    hide Tree.Indexed;
    NewChainIndexed(t, c);
    MovePathIndexed(NewChain(t, c), c, t.nextChain);
  }

  lemma SpawnPartition(t: Tree, c: Id, y: Id)
    requires t.Known() && t.Linked() && t.MainChildren() && Indexable(t) && c in t.live
    requires y in t.parent && y != c && t.PartitionedAt(y)
    ensures Spawn(t, c).PartitionedAt(y)
  {
    var u := NewChain(t, c);
    assert u.PartitionedAt(y);
    MovePathPartition(u, c, t.nextChain, y);
  }

  lemma SpawnGrounded(t: Tree, c: Id)
    requires t.Known() && t.Linked() && t.MainChildren() && t.Grounded() && Indexable(t) && c in t.parent
    ensures Spawn(t, c).Grounded()
  {
    hide Tree.Grounded;
    NewChainGrounded(t, c);
    MovePathGrounded(NewChain(t, c), c, t.nextChain);
  }

  /** The start of a spawned chain is partitioned if it is not its parent's main child. */
  lemma SpawnStart(t: Tree, c: Id)
    requires t.Known() && t.Linked() && t.MainChildren() && Indexable(t) && c in t.parent && !t.IsMain(c)
    ensures Spawn(t, c).PartitionedAt(c)
  {
    SpawnChains(t, c, c);
  }
}

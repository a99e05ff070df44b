/**
 A root commitment that is published for the first time: `publishRootCommitment`
 puts it onto the main chain, whatever chain it was given when it was linked,
 and its main path follows.
 */
module FreshRoot {
  import opened CommitmentTree
  import opened ChainSteps
  import opened LinkSteps
  import opened RootSteps

  predicate CanPublishRoot(t: Tree, main: ChainId, r: Id) {
    t.Chained() && r in t.live && r != t.root && main in t.forkingPoint
  }

  /** Whatever the main chain has at or above the slot of the new root continues the new root. */
  predicate Continued(t: Tree, main: ChainId, r: Id)
    requires CanPublishRoot(t, main, r)
  {
    forall c | c in t.live && t.On(c, main) && t.Slot(c) >= t.Slot(r) :: t.OnMainPath(r, c)
  }

  predicate CanEnterRoot(t: Tree, main: ChainId, r: Id) {
    CanPublishRoot(t, main, r) && Continued(t, main, r)
  }

  /** `Chain.Set` on the new root. */
  function Enter(t: Tree, main: ChainId, r: Id): (u: Tree)
    requires CanPublishRoot(t, main, r)
    ensures SameShape(t, u)
  {
    ChainedIndexable(t);
    if t.On(r, main) then t else MovePath(t, r, main)
  }

  function EnterRoot(t: Tree, main: ChainId, r: Id): (u: Tree)
    requires CanPublishRoot(t, main, r)
  {
    Enter(t, main, r).(root := r, forkingPoint := t.forkingPoint[main := r])
  }

  function PublishRoot(t: Tree, main: ChainId, r: Id): (u: Tree)
    requires CanPublishRoot(t, main, r)
  {
    EnterRootEvictable(t, main, r);
    Evict(EnterRoot(t, main, r), t.Slot(r))
  }

  /** Unless it is there already, the new root finds nothing at or above its slot on the main chain. */
  lemma NothingAbove(t: Tree, main: ChainId, r: Id, c: Id)
    requires CanEnterRoot(t, main, r) && !t.On(r, main) && c in t.live && t.Slot(c) >= t.Slot(r)
    ensures !t.On(c, main)
  {
    if t.On(c, main) {
      MainPathChain(t, r, c);
    }
  }

  /** Exactly the main path of the new root is on the main chain from its slot on. */
  lemma EnterChains(t: Tree, main: ChainId, r: Id, c: Id)
    requires CanEnterRoot(t, main, r) && c in t.live && t.Slot(c) >= t.Slot(r)
    ensures Enter(t, main, r).On(c, main) <==> t.OnMainPath(r, c)
    ensures !t.OnMainPath(r, c) ==> Enter(t, main, r).ChainOf(c) == t.ChainOf(c)
  {
    hide Tree.Partitioned, Tree.Grounded, Tree.Indexed;
    ChainedIndexable(t);
    if t.On(r, main) {
      if t.OnMainPath(r, c) {
        PathOnChain(t, r, c);
      }
    } else {
      NothingAbove(t, main, r, c);
      MovePathChains(t, r, main, c);
    }
  }

  lemma PathOnChain(t: Tree, r: Id, c: Id)
    requires t.Chained() && r in t.live && c in t.live && t.OnMainPath(r, c)
    ensures t.ChainOf(c) == t.ChainOf(r)
  {
    MainPathChain(t, r, c);
  }

  lemma EnterSubset(t: Tree, main: ChainId, r: Id)
    requires CanPublishRoot(t, main, r)
    ensures Enter(t, main, r).chain.Keys <= t.live
    ensures forall c | c in Enter(t, main, r).chain :: Enter(t, main, r).chain[c] in t.forkingPoint
  {
    hide Tree.Partitioned, Tree.Indexed;
    ChainedIndexable(t);
    if !t.On(r, main) {
      MovePathSubset(t, r, main);
      forall c | c in Enter(t, main, r).chain
        ensures Enter(t, main, r).chain[c] in t.forkingPoint
      {
        MovePathChains(t, r, main, c);
      }
    }
  }

  lemma EnterRootEvictable(t: Tree, main: ChainId, r: Id)
    requires CanPublishRoot(t, main, r)
    ensures Evictable(EnterRoot(t, main, r))
  {
    hide Tree.Partitioned, Tree.Grounded, Tree.Indexed, Enter;
    EnterSubset(t, main, r);
    ChainedEvictable(t);
  }

  lemma EnterIndexed(t: Tree, main: ChainId, r: Id)
    requires t.Inv() && CanEnterRoot(t, main, r)
    ensures Enter(t, main, r).Indexed()
  {
    hide Tree.Partitioned, Tree.Grounded;
    ChainedIndexable(t);
    if !t.On(r, main) {
      forall d | d in t.live && t.OnMainPath(r, d)
        ensures t.Slot(d) !in t.index[main]
      {
        MainPathSlot(t, r, d);
        if t.Slot(d) in t.index[main] {
          NothingAbove(t, main, r, t.index[main][t.Slot(d)]);
        }
      }
      MovePathIndexed(t, r, main);
    }
  }

  lemma EnterPartition(t: Tree, main: ChainId, r: Id, c: Id)
    requires CanEnterRoot(t, main, r) && c in t.parent && t.Slot(c) > t.Slot(r)
    ensures EnterRoot(t, main, r).PartitionedAt(c)
  {
    hide Tree.Grounded, Tree.Indexed;
    ChainedIndexable(t);
    assert t.PartitionedAt(c);
    EnterChains(t, main, r, c);
    if !t.On(r, main) {
      MovePathPartition(t, r, main, c);
    }
  }

  lemma EnterGrounded(t: Tree, main: ChainId, r: Id, c: Id)
    requires CanEnterRoot(t, main, r) && c in t.live && c in Enter(t, main, r).chain && t.Slot(c) >= t.Slot(r)
    ensures var m := EnterRoot(t, main, r);
            && m.chain[c] in m.forkingPoint && m.forkingPoint[m.chain[c]] in m.header
            && m.Slot(m.forkingPoint[m.chain[c]]) <= m.Slot(c)
            && (c in m.parent || m.Slot(c) == m.Slot(r))
  {
    hide Tree.Partitioned, Tree.Indexed, Enter;
    EnterChains(t, main, r, c);
    EnterSubset(t, main, r);
  }

  lemma PublishRootGrounded(t: Tree, main: ChainId, r: Id)
    requires CanEnterRoot(t, main, r) && Evictable(EnterRoot(t, main, r)) && PublishRoot(t, main, r).Known()
    ensures PublishRoot(t, main, r).Grounded()
  {
    hide Tree.Partitioned, Tree.Grounded, Tree.Indexed, Enter, Evict;
    EnterSubset(t, main, r);
    PathStart(t, r);
    EnterChains(t, main, r, r);
    var m := EnterRoot(t, main, r);
    forall c | c in m.chain && m.Slot(c) >= m.Slot(m.root)
      ensures m.chain[c] in m.forkingPoint && m.Slot(m.forkingPoint[m.chain[c]]) <= m.Slot(c)
      ensures c in m.parent || m.Slot(c) == m.Slot(m.root)
    {
      EnterGrounded(t, main, r, c);
    }
    EvictGrounded(m);
  }

  lemma PublishRootPartition(t: Tree, main: ChainId, r: Id)
    requires CanEnterRoot(t, main, r) && Evictable(EnterRoot(t, main, r))
    ensures PublishRoot(t, main, r).Partitioned()
  {
    hide Tree.Grounded, Tree.Indexed, Tree.Partitioned, Tree.PartitionedAt, Enter;
    var u := PublishRoot(t, main, r);
    forall c | c in u.parent
      ensures u.PartitionedAt(c)
    {
      EnterPartition(t, main, r, c);
      EvictPartition(EnterRoot(t, main, r), t.Slot(r), c);
    }
    PartitionedEverywhere(u);
  }

  /** A root that is published for the first time keeps every invariant as well. */
  lemma PublishRootInv(t: Tree, main: ChainId, r: Id)
    requires t.Inv() && CanEnterRoot(t, main, r)
    ensures PublishRoot(t, main, r).Inv()
  {
    hide Tree.Linked, Tree.Partitioned, Tree.Grounded, Tree.Indexed, Evictable, Evict, Enter;
    var m, s := EnterRoot(t, main, r), t.Slot(r);
    EnterRootEvictable(t, main, r);
    EnterIndexed(t, main, r);
    SameIndex(Enter(t, main, r), m);
    EvictLinks(m);
    EvictMainChildren(m, s);
    EvictIndexed(m, s);
    PublishRootPartition(t, main, r);
    PublishRootGrounded(t, main, r);
  }

  /** What is on a main path after the eviction was on it before. */
  lemma {:induction false} EvictedPath(t: Tree, u: Tree, r: Id, c: Id)
    requires t.Known() && t.Linked() && u.Known() && u.Linked() && r in u.live && c in u.live && u.live <= t.live
    requires forall d | d in u.parent :: d in t.parent && t.parent[d] == u.parent[d]
    requires forall d | d in u.mainChild :: d in t.mainChild && t.mainChild[d] == u.mainChild[d]
    requires u.header == t.header && u.OnMainPath(r, c)
    ensures t.OnMainPath(r, c)
    decreases t.Slot(c)
  {
    if c != r {
      EvictedPath(t, u, r, u.parent[c]);
    }
  }

  lemma StillOnMain(t: Tree, main: ChainId, r: Id, c: Id)
    requires CanPublishRoot(t, main, r) && c in t.live && t.On(c, main)
    ensures Enter(t, main, r).On(c, main) && Enter(t, main, r).On(r, main)
  {
    hide Tree.Partitioned, Tree.Grounded, Tree.Indexed;
    ChainedIndexable(t);
    PathStart(t, r);
    if !t.On(r, main) {
      MovePathChains(t, r, main, c);
      MovePathChains(t, r, main, r);
    }
  }

  lemma PublishRootNeeds(t: Tree, main: ChainId, r: Id, c: Id)
    requires CanPublishRoot(t, main, r) && PublishRoot(t, main, r).Chained() && PublishRoot(t, main, r).Single()
    requires c in t.live && t.On(c, main) && t.Slot(c) >= t.Slot(r)
    ensures t.OnMainPath(r, c)
  {
    hide Tree.Partitioned, Tree.Grounded, Tree.Indexed, Enter, Tree.OnMainPath;
    var u := PublishRoot(t, main, r);
    EnterRootEvictable(t, main, r);
    StillOnMain(t, main, r, c);
    RestOfChain(u, r, c);
    EvictedPath(t, u, r, c);
  }

  /** A first-time root keeps the invariants exactly if the main chain has nothing beside it. */
  lemma PublishRootIff(t: Tree, main: ChainId, r: Id)
    requires t.Inv() && CanPublishRoot(t, main, r)
    ensures PublishRoot(t, main, r).Inv() <==> Continued(t, main, r)
  {
    hide Tree.Partitioned, Tree.Grounded, Tree.Indexed, PublishRoot, Tree.OnMainPath;
    if Continued(t, main, r) {
      PublishRootInv(t, main, r);
    }
    if PublishRoot(t, main, r).Inv() {
      forall c | c in t.live && t.On(c, main) && t.Slot(c) >= t.Slot(r)
        ensures t.OnMainPath(r, c)
      {
        InvConsistent(PublishRoot(t, main, r));
        PublishRootNeeds(t, main, r, c);
      }
    }
  }

  lemma PublishRootShape(t: Tree, main: ChainId, r: Id)
    requires CanPublishRoot(t, main, r)
    ensures var u := PublishRoot(t, main, r);
            && u.header == t.header && u.root == r && t.live <= t.header.Keys
            && (forall c | c in t.parent :: t.parent[c] in t.header)
            && u.live == LiveFrom(t.header, t.live, t.Slot(r))
            && u.parent == ParentsFrom(t.header, t.parent, t.Slot(r))
  {
    hide Tree.Partitioned, Tree.Grounded, Tree.Indexed, Tree.MainChildren, Enter;
    EnterRootEvictable(t, main, r);
  }
}

/**
 Whole runs of the commitment tree: from the first root on, every sequence of
 published, linked, forced and evicted commitments keeps the invariant.
 */
module TreeRuns {
  import opened Collections
  import opened CommitmentTree
  import opened ChainSteps
  import opened TreeSteps
  import opened ForceChain
  import opened LinkSteps
  import opened RootSteps
  import opened FreshRoot
  import opened ChainLookup

  datatype Action =
    | PublishCommitment(id: Id, content: Header)
    | LinkParent(id: Id)
    | LinkFromEngine(id: Id, target: ChainId)
    | ForceOnto(id: Id, target: ChainId)
    | MoveRootTo(main: ChainId, id: Id)
    | EnterRootTo(main: ChainId, id: Id)      // a root that was published for the first time

  /** The tree after the main engine published its first root commitment. */
  function Init(root: Id, h: Header): (t: Tree) {
    Tree(map[root := h], {root}, map[], map[], map[root := 0], map[0 := root], map[0 := map[h.slot := root]], 1, root)
  }

  /** What an action needs of links and chains. */
  predicate Applicable(t: Tree, a: Action) {
    t.Chained() &&
    match a
    case PublishCommitment(c, h) => CanPublish(t, c, h)
    case LinkParent(c) => CanLink(t, c)
    case LinkFromEngine(c, target) => CanLink(t, c)
    case ForceOnto(c, target) => c in t.live
    case MoveRootTo(main, r) => CanAdvance(t, main, r)
    case EnterRootTo(main, r) => CanEnterRoot(t, main, r)
  }

  predicate Enabled(t: Tree, a: Action) {
    t.Inv() && Applicable(t, a)
  }

  /** The effect of an action if a displaced child reacts first. */
  function Step(t: Tree, a: Action): (u: Tree)
    requires Applicable(t, a)
  {
    match a
    case PublishCommitment(c, h) => Publish(t, c, h)
    case LinkParent(c) => Link(t, c)
    case LinkFromEngine(c, target) => LinkForced(t, c, target)
    case ForceOnto(c, target) => Force(t, c, target)
    case MoveRootTo(main, r) => AdvanceRoot(t, main, r)
    case EnterRootTo(main, r) => PublishRoot(t, main, r)
  }

  lemma InitInv(root: Id, h: Header)
    ensures Init(root, h).Inv()
  {
  }

  lemma StepInv(t: Tree, a: Action)
    requires Enabled(t, a)
    ensures Step(t, a).Inv()
  {
    hide Tree.Chained, Tree.Indexed;
    match a
    case PublishCommitment(c, h) => PublishInv(t, c, h);
    case LinkParent(c) => LinkInv(t, c);
    case LinkFromEngine(c, target) => LinkForcedInv(t, c, target);
    case ForceOnto(c, target) => ForceInv(t, c, target);
    case MoveRootTo(main, r) => AdvanceInv(t, main, r);
    case EnterRootTo(main, r) => PublishRootInv(t, main, r);
  }

  /** The trees a run passes through, from the first on. */
  ghost predicate IsRun(trees: seq<Tree>, actions: seq<Action>) {
    && |trees| == |actions| + 1
    && (exists root, h :: trees[0] == Init(root, h))
    && (forall i | 0 <= i < |actions| :: Enabled(trees[i], actions[i]) && trees[i + 1] == Step(trees[i], actions[i]))
  }

  lemma {:induction false} RunInv(trees: seq<Tree>, actions: seq<Action>, i: nat)
    requires IsRun(trees, actions) && i < |trees|
    ensures trees[i].Inv()
    decreases i
  {
    if i == 0 {
      var root, h :| trees[0] == Init(root, h);
      InitInv(root, h);
    } else {
      RunInv(trees, actions, i - 1);
      StepInv(trees[i - 1], actions[i - 1]);
    }
  }

  /**
   A main child is on the chain of its parent, any other child is the forking
   point of its own chain, and no chain holds two commitments of one slot.
   */
  predicate Split(t: Tree) {
    && (forall c | c in t.parent && t.IsMain(c) :: t.ChainOf(c) == t.ChainOf(t.parent[c]))
    && (forall c | c in t.parent && !t.IsMain(c) ::
          && c in t.chain && t.chain[c] in t.forkingPoint && t.forkingPoint[t.chain[c]] == c
          && t.ChainOf(t.parent[c]) != t.ChainOf(c))
    && (forall c, d | c in t.chain && d in t.chain && t.chain[c] == t.chain[d] && c != d ::
          c in t.header && d in t.header && t.Slot(c) != t.Slot(d))
  }

  lemma ForkLeavesParent(t: Tree, c: Id)
    requires t.Chained() && c in t.parent && !t.IsMain(c)
    ensures c in t.chain && t.chain[c] in t.forkingPoint && t.forkingPoint[t.chain[c]] == c
    ensures t.ChainOf(t.parent[c]) != t.ChainOf(c)
  {
    hide Tree.MainChildren;
    assert t.PartitionedAt(c);
  }

  lemma InvSplit(t: Tree)
    requires t.Inv()
    ensures Split(t)
  {
    hide Tree.MainChildren, Tree.Grounded, Tree.Linked;
    forall c | c in t.parent && !t.IsMain(c)
      ensures c in t.chain && t.chain[c] in t.forkingPoint && t.forkingPoint[t.chain[c]] == c
      ensures t.ChainOf(t.parent[c]) != t.ChainOf(c)
    {
      ForkLeavesParent(t, c);
    }
    assert forall c | c in t.parent :: t.PartitionedAt(c);
  }

  /** Over every run the tree is split into chains. */
  lemma RunKeepsPartition(trees: seq<Tree>, actions: seq<Action>, i: nat)
    requires IsRun(trees, actions) && i < |trees|
    ensures Split(trees[i])
  {
    hide Split;
    RunInv(trees, actions, i);
    InvSplit(trees[i]);
  }

  /** Over every run a slot lookup finds the ancestor that the parent links lead to. */
  lemma RunLookup(trees: seq<Tree>, actions: seq<Action>, i: nat, c: Id, s: nat)
    requires IsRun(trees, actions) && i < |trees|
    requires trees[i].Inv() ==>
               c in trees[i].live && trees[i].Solid(c) && trees[i].Slot(trees[i].root) <= s <= trees[i].Slot(c)
    ensures trees[i].Inv() && c in trees[i].chain
    ensures Lookup(trees[i], trees[i].chain[c], s) == Some(trees[i].AncestorAt(c, s))
  {
    RunInv(trees, actions, i);
    SolidOnChain(trees[i], c);
    LookupIsAncestor(trees[i], c, s);
  }

  // ----- forcing puts a commitment onto the chain

  /** Forcing a child of a commitment on the target chain puts it there, with its whole main path. */
  lemma ForceReaches(t: Tree, c: Id, target: ChainId, d: Id)
    requires t.Inv() && c in t.parent && t.ChainOf(t.parent[c]) == Some(target) && d in t.live
    requires t.OnMainPath(c, d)
    ensures Force(t, c, target).ChainOf(d) == Some(target)
  {
    if t.ChainOf(c) == Some(target) {
      MainPathChain(t, c, d);
    } else {
      ForcePromotable(t, c);
      PromotePath(t, c, d);
    }
  }

  lemma {:induction false} DisplaceKeepsPath(t: Tree, c: Id, d: Id)
    requires Promotable(t, c) && d in t.live && t.OnMainPath(c, d)
    ensures Displace(t, c).OnMainPath(c, d)
    decreases t.Slot(d)
  {
    if d != c {
      DisplaceKeepsPath(t, c, t.parent[d]);
      MainPathSlot(t, c, t.parent[d]);
    }
  }

  lemma PromotePath(t: Tree, c: Id, d: Id)
    requires Promotable(t, c) && d in t.live && t.OnMainPath(c, d)
    ensures Promote(t, c).ChainOf(d) == t.ChainOf(t.parent[c])
  {
    DisplaceKeepsPath(t, c, d);
    MovePathChains(Displace(t, c), c, t.chain[t.parent[c]], d);
  }

  // ----- why the displaced child has to leave first

  /** The same update with the promoted child reacting before the displaced one. */
  function PromotedFirst(t: Tree, c: Id): (u: Tree)
    requires Promotable(t, c) && t.parent[c] in t.mainChild
  {
    var p := t.parent[c];
    Spawn(MovePath(SetMainChild(t, c), c, t.chain[p]), t.mainChild[p])
  }

  lemma {:induction false} MovePathAddsNowhereElse(t: Tree, c: Id, x: ChainId, y: ChainId, s: nat)
    requires t.Known() && t.Linked() && t.MainChildren() && Indexable(t) && c in t.live && x in t.forkingPoint
    requires y in t.forkingPoint && y != x && s !in t.index[y]
    ensures s !in MovePath(t, c, x).index[y]
    decreases t.Higher(c)
  {
    if c in t.mainChild {
      HigherShrinks(t, c, t.mainChild[c]);
      MovePathAddsNowhereElse(SetChain(t, c, x), t.mainChild[c], x, y, s);
    }
  }

  lemma MovePathStart(t: Tree, c: Id, x: ChainId)
    requires t.Known() && t.Linked() && t.MainChildren() && Indexable(t) && c in t.live && x in t.forkingPoint
    requires c in t.chain && t.chain[c] != x
    ensures t.Slot(c) !in MovePath(t, c, x).index[t.chain[c]]
  {
    var u := SetChain(t, c, x);
    if c in t.mainChild {
      MovePathAddsNowhereElse(u, t.mainChild[c], x, t.chain[c], t.Slot(c));
    }
  }

  /** In that order, c and the displaced child end up on the right chains all the same. */
  lemma PromotedFirstChains(t: Tree, c: Id)
    requires Promotable(t, c) && t.parent[c] in t.mainChild
    ensures var s := SetMainChild(t, c);
            var u := MovePath(s, c, t.chain[t.parent[c]]);
            && u.ChainOf(t.mainChild[t.parent[c]]) == t.ChainOf(t.mainChild[t.parent[c]])
            && PromotedFirst(t, c).ChainOf(c) == t.ChainOf(t.parent[c])
            && PromotedFirst(t, c).Known() && PromotedFirst(t, c).header == t.header
  {
    var s := SetMainChild(t, c);
    var a, x := t.mainChild[t.parent[c]], t.chain[t.parent[c]];
    var u := MovePath(s, c, x);
    if s.OnMainPath(c, a) {
      MainPathSlot(s, c, a);
    }
    MovePathChains(s, c, x, a);
    MovePathChains(s, c, x, c);
    if u.OnMainPath(a, c) {
      MainPathSlot(u, a, c);
    }
    SpawnChains(u, a, c);
  }

  lemma SpawnStartLeaves(t: Tree, a: Id)
    requires t.Known() && t.Linked() && t.MainChildren() && Indexable(t) && a in t.live && a in t.chain
    ensures t.Slot(a) !in Spawn(t, a).index[t.chain[a]]
  {
    MovePathStart(NewChain(t, a), a, t.nextChain);
  }

  lemma PromotedFirstUnindexed(t: Tree, c: Id)
    requires Promotable(t, c)
    requires t.parent[c] in t.mainChild && t.On(t.mainChild[t.parent[c]], t.chain[t.parent[c]])
    ensures t.chain[t.parent[c]] in PromotedFirst(t, c).index
    ensures t.Slot(c) !in PromotedFirst(t, c).index[t.chain[t.parent[c]]]
  {
    hide Spawn, MovePath;
    PromotedFirstChains(t, c);
    SpawnStartLeaves(MovePath(SetMainChild(t, c), c, t.chain[t.parent[c]]), t.mainChild[t.parent[c]]);
  }

  /**
   Leaving a chain deletes by slot. If the promoted child entered first, the
   displaced one would delete the entry of its successor: c would be on the
   chain while the slot index of the chain has nothing at its slot.
   */
  lemma PromotedFirstLosesIndex(t: Tree, c: Id)
    requires Promotable(t, c)
    requires t.parent[c] in t.mainChild && t.On(t.mainChild[t.parent[c]], t.chain[t.parent[c]])
    ensures PromotedFirst(t, c).On(c, t.chain[t.parent[c]])
    ensures t.chain[t.parent[c]] in PromotedFirst(t, c).index
    ensures t.Slot(c) !in PromotedFirst(t, c).index[t.chain[t.parent[c]]]
    ensures !PromotedFirst(t, c).Indexed()
  {
    hide PromotedFirst, Tree.Indexed;
    PromotedFirstChains(t, c);
    PromotedFirstUnindexed(t, c);
    NotIndexed(PromotedFirst(t, c), c);
  }

  lemma NotIndexed(t: Tree, c: Id)
    requires t.Known() && c in t.chain && c in t.header && t.chain[c] in t.index
    requires t.Slot(c) !in t.index[t.chain[c]]
    ensures !t.Indexed()
  {
  }
}

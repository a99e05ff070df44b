/**
 What each operation on the tree does to every commitment, in terms of the tree
 before: which links there are, who is the main child, and who is on which chain.
 */
module TreeEffects {
  import opened Collections
  import opened CommitmentTree
  import opened ChainSteps
  import opened TreeSteps
  import opened ForceChain
  import opened LinkSteps
  import opened RootSteps
  import opened FreshRoot
  import opened TreeRuns
  import opened IndexFree
  import opened ReactionOrder

  // ----- main paths

  /** Nothing changes above c. */
  predicate SameAbove(t: Tree, u: Tree, c: Id)
    requires t.Known() && t.Linked() && c in t.live
  {
    && u.header == t.header && u.live == t.live
    && (forall d | d in t.live && t.Slot(d) > t.Slot(c) ::
          (d in t.parent <==> d in u.parent) && (d in t.parent ==> t.parent[d] == u.parent[d]))
    && (forall d | d in t.live && t.Slot(d) >= t.Slot(c) ::
          (d in t.mainChild <==> d in u.mainChild) && (d in t.mainChild ==> t.mainChild[d] == u.mainChild[d]))
  }

  lemma {:induction false} PathSame(t: Tree, u: Tree, c: Id, d: Id)
    requires t.Known() && t.Linked() && c in t.live && d in t.live && u.Known() && u.Linked() && SameAbove(t, u, c)
    ensures t.OnMainPath(c, d) == u.OnMainPath(c, d)
    decreases t.Slot(d)
  {
    if t.Slot(d) > t.Slot(c) {
      if d in t.parent {
        PathSame(t, u, c, t.parent[d]);
      }
    } else {
      if t.OnMainPath(c, d) {
        MainPathSlot(t, c, d);
      }
      if u.OnMainPath(c, d) {
        MainPathSlot(u, c, d);
      }
    }
  }

  // ----- promoting a child

  lemma MainChildAbove(t: Tree, c: Id, a: Id)
    requires t.Known() && t.Linked() && c in t.parent && a in t.parent && t.parent[a] == t.parent[c]
    ensures SetMainChild(t, c).Known() && SetMainChild(t, c).Linked() && SameAbove(t, SetMainChild(t, c), a)
  {
  }

  /** Promoting a child moves its main path onto the chain of its parent, and the displaced main path onto a new chain. */
  lemma PromoteEffect(t: Tree, c: Id, d: Id)
    requires Promotable(t, c) && d in t.live
    ensures var u, p := Promote(t, c), t.parent[c];
            && u.header == t.header && u.live == t.live && u.root == t.root && u.parent == t.parent
            && u.mainChild == t.mainChild[p := c]
            && u.forkingPoint == (if p in t.mainChild then t.forkingPoint[t.nextChain := t.mainChild[p]] else t.forkingPoint)
            && u.ChainOf(d) == if t.OnMainPath(c, d) then t.ChainOf(p)
                               else if p in t.mainChild && t.OnMainPath(t.mainChild[p], d) then Some(t.nextChain)
                               else t.ChainOf(d)
  {
    hide MovePath, Spawn, Tree.Known, Tree.Linked, Tree.MainChildren, Tree.OnMainPath;
    PromoteShape(t, c);
    PromoteChain(t, c, d);
  }

  lemma PromoteShape(t: Tree, c: Id)
    requires Promotable(t, c)
    ensures var u, p := Promote(t, c), t.parent[c];
            && u.header == t.header && u.live == t.live && u.root == t.root && u.parent == t.parent
            && u.mainChild == t.mainChild[p := c]
            && u.forkingPoint == if p in t.mainChild then t.forkingPoint[t.nextChain := t.mainChild[p]] else t.forkingPoint
  {
    hide MovePath;
  }

  lemma PromoteChain(t: Tree, c: Id, d: Id)
    requires Promotable(t, c) && d in t.live
    ensures var u, p := Promote(t, c), t.parent[c];
            u.ChainOf(d) == if t.OnMainPath(c, d) then t.ChainOf(p)
                            else if p in t.mainChild && t.OnMainPath(t.mainChild[p], d) then Some(t.nextChain)
                            else t.ChainOf(d)
  {
    hide MovePath, Tree.MainChildren, Tree.OnMainPath;
    SetMainChildLinks(t, c);
    var p := t.parent[c];
    MainChildAbove(t, c, c);
    PathSame(t, SetMainChild(t, c), c, d);
    if p in t.mainChild {
      var a := t.mainChild[p];
      MainChildAbove(t, c, a);
      PathSame(t, SetMainChild(t, c), a, d);
      PromoteEnds(t, c, a, d);
    } else {
      MovePathChains(SetMainChild(t, c), c, t.chain[p], d);
    }
  }

  // ----- forcing

  /**
   `forceChain`, in whatever order children react. It does nothing if c has no
   parent, or one that is not on the target, or is there already. Otherwise c
   takes its main path to the target, and the child it displaces starts a chain.
   */
  lemma ForceEffect(s: Ordered, c: Id, target: ChainId, d: Id)
    requires s.tree.Chained() && c in s.tree.live && d in s.tree.live
    ensures var t, u := s.tree, ForceInOrder(s, c, target);
            if t.On(c, target) || c !in t.parent || !t.On(t.parent[c], target) then u == t
            else
              var p := t.parent[c];
              && p in t.mainChild && t.mainChild[p] != c
              && u.header == t.header && u.live == t.live && u.root == t.root && u.parent == t.parent
              && u.mainChild == t.mainChild[p := c] && u.forkingPoint == t.forkingPoint[t.nextChain := t.mainChild[p]]
              && u.ChainOf(d) == if t.OnMainPath(c, d) then Some(target)
                                 else if t.OnMainPath(t.mainChild[p], d) then Some(t.nextChain)
                                 else t.ChainOf(d)
  {
    hide Promote, PromotedFirst, Promotable, Tree.OnMainPath, Tree.Grounded;
    var t := s.tree;
    if !t.On(c, target) && c in t.parent && t.On(t.parent[c], target) {
      ForcePromotable(t, c);
      DisplacedOther(t, c);
      PromoteEffect(t, c, d);
      ForceInOrderAlike(s, c, target);
    }
  }

  // ----- linking

  lemma WithParentAbove(t: Tree, c: Id, a: Id)
    requires t.Known() && t.Linked() && CanLink(t, c) && a in t.live && t.Slot(a) == t.Slot(c)
    ensures WithParent(t, c).Known() && WithParent(t, c).Linked() && SameAbove(t, WithParent(t, c), a)
  {
  }

  /** A path that starts beside c is the same once c is linked. */
  lemma LinkedPath(t: Tree, c: Id, a: Id, d: Id)
    requires t.Chained() && CanLink(t, c) && a in t.live && d in t.live && t.Slot(a) == t.Slot(c)
    ensures WithParent(t, c).Known() && WithParent(t, c).Linked()
    ensures WithParent(t, c).OnMainPath(a, d) == t.OnMainPath(a, d)
  {
    hide Tree.MainChildren, Tree.Partitioned, Tree.Grounded;
    WithParentAbove(t, c, a);
    PathSame(t, WithParent(t, c), a, d);
  }

  /**
   Linking c to its parent p. The first child becomes the main child and takes
   its main path onto the chain of p, if p has one; any other child starts a
   chain with its main path.
   */
  lemma LinkEffect(t: Tree, c: Id, d: Id)
    requires t.Chained() && CanLink(t, c) && d in t.live
    ensures var u, p := Link(t, c), t.header[c].previous;
            && u.header == t.header && u.live == t.live && u.root == t.root && u.parent == t.parent[c := p]
            && u.mainChild == (if p in t.mainChild then t.mainChild else t.mainChild[p := c])
            && u.forkingPoint == (if p in t.mainChild then t.forkingPoint[t.nextChain := c] else t.forkingPoint)
            && u.ChainOf(d) == if !t.OnMainPath(c, d) then t.ChainOf(d)
                               else if p in t.mainChild then Some(t.nextChain)
                               else if p in t.chain then t.ChainOf(p)
                               else t.ChainOf(d)
  {
    hide MovePath, Promote, Promotable, Tree.OnMainPath, Tree.Partitioned, Tree.Grounded, Tree.MainChildren;
    LinkPromotable(t, c);
    LinkedPath(t, c, c, d);
    var p, w := t.header[c].previous, WithParent(t, c);
    if p in t.mainChild {
      SpawnChains(w, c, d);
    } else if p in t.chain {
      PromoteEffect(w, c, d);
    }
  }

  /** An engine publishes c: if p is on its chain, c takes its main path there, and a child it displaces starts a chain. */
  lemma LinkForcedEffect(t: Tree, c: Id, target: ChainId, d: Id)
    requires t.Chained() && CanLink(t, c) && d in t.live
    ensures var u, p := LinkForced(t, c, target), t.header[c].previous;
            if !t.On(p, target) then u == Link(t, c)
            else
              && u.header == t.header && u.live == t.live && u.root == t.root && u.parent == t.parent[c := p]
              && u.mainChild == t.mainChild[p := c]
              && u.forkingPoint == (if p in t.mainChild then t.forkingPoint[t.nextChain := t.mainChild[p]] else t.forkingPoint)
              && u.ChainOf(d) == if t.OnMainPath(c, d) then Some(target)
                                 else if p in t.mainChild && t.OnMainPath(t.mainChild[p], d) then Some(t.nextChain)
                                 else t.ChainOf(d)
  {
    hide Link, Promote, Promotable, Tree.OnMainPath, Tree.Partitioned, Tree.Grounded;
    LinkPromotable(t, c);
    var p, w := t.header[c].previous, WithParent(t, c);
    if t.On(p, target) {
      LinkedPath(t, c, c, d);
      PromoteEffect(w, c, d);
      if p in t.mainChild {
        LinkedPath(t, c, t.mainChild[p], d);
      }
    }
  }

  // ----- a new root

  /**
   A known commitment becomes the root. Everything below its slot goes, with the
   links to it; the main chain starts at it if the former or the new root is on
   the main chain; nothing else changes.
   */
  lemma AdvanceEffect(t: Tree, main: ChainId, r: Id, c: Id)
    requires CanMoveRoot(t, main, r) && c in t.live
    ensures var u := AdvanceRoot(t, main, r);
            && u.header == t.header && u.root == r && u.nextChain == t.nextChain
            && u.forkingPoint == (if t.On(t.root, main) || t.On(r, main) then t.forkingPoint[main := r] else t.forkingPoint)
            && (c in u.live <==> t.Slot(c) >= t.Slot(r))
            && (t.Slot(c) >= t.Slot(r) ==> u.ChainOf(c) == t.ChainOf(c))
            && (c in u.parent <==> c in t.parent && t.Slot(c) > t.Slot(r)) && (c in u.parent ==> u.parent[c] == t.parent[c])
            && (c in u.mainChild <==> c in t.mainChild && t.Slot(c) >= t.Slot(r))
            && (c in u.mainChild ==> u.mainChild[c] == t.mainChild[c])
  {
    hide Tree.Partitioned, Tree.Grounded, Evictable;
    MoveRootEvictable(t, main, r);
  }

  /** A first-time root also takes its main path onto the main chain, which starts at it. */
  lemma PublishRootEffect(t: Tree, main: ChainId, r: Id, c: Id)
    requires CanPublishRoot(t, main, r) && c in t.live
    ensures var u := PublishRoot(t, main, r);
            && u.header == t.header && u.root == r && u.nextChain == t.nextChain && u.forkingPoint == t.forkingPoint[main := r]
            && (c in u.live <==> t.Slot(c) >= t.Slot(r))
            && (t.Slot(c) >= t.Slot(r) ==>
                  u.ChainOf(c) == if !t.On(r, main) && t.OnMainPath(r, c) then Some(main) else t.ChainOf(c))
            && (c in u.parent <==> c in t.parent && t.Slot(c) > t.Slot(r)) && (c in u.parent ==> u.parent[c] == t.parent[c])
            && (c in u.mainChild <==> c in t.mainChild && t.Slot(c) >= t.Slot(r))
            && (c in u.mainChild ==> u.mainChild[c] == t.mainChild[c])
  {
    hide Tree.Partitioned, Tree.Grounded, Evictable, MovePath, Tree.OnMainPath;
    ChainedIndexable(t);
    EnterRootEvictable(t, main, r);
    if !t.On(r, main) {
      MovePathChains(t, r, main, c);
    }
  }
}

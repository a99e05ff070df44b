/**
 The slot indexes influence nothing else: trees that agree on everything but
 their slot indexes stay that way under every step. And no step ever leaves a
 wrong entry in an index, only missing ones.
 */
module IndexFree {
  import opened Collections
  import opened CommitmentTree
  import opened ChainSteps
  import opened TreeSteps
  import opened ForceChain
  import opened LinkSteps
  import opened RootSteps
  import opened FreshRoot
  import opened TreeRuns

  /** The trees agree on everything but the entries of their slot indexes. */
  predicate Alike(t: Tree, u: Tree) {
    u == t.(index := u.index) && u.index.Keys == t.index.Keys
  }

  lemma AlikeLinks(t: Tree, u: Tree)
    requires Alike(t, u) && t.Known() && t.Linked() && t.MainChildren()
    ensures u.Known() && u.Linked() && u.MainChildren()
  {
  }

  lemma AlikePartition(t: Tree, u: Tree)
    requires Alike(t, u) && t.Partitioned()
    ensures u.Partitioned()
  {
    forall c | c in u.parent
      ensures u.PartitionedAt(c)
    {
      assert t.PartitionedAt(c);
    }
  }

  lemma AlikeGrounded(t: Tree, u: Tree)
    requires Alike(t, u) && t.Known() && t.Grounded() && u.Known()
    ensures u.Grounded()
  {
  }

  lemma AlikeChained(t: Tree, u: Tree)
    requires Alike(t, u) && t.Chained()
    ensures u.Chained()
  {
    hide Tree.Known, Tree.Linked, Tree.MainChildren, Tree.Partitioned, Tree.Grounded;
    AlikeLinks(t, u);
    AlikePartition(t, u);
    AlikeGrounded(t, u);
  }

  // ----- a complete index

  function EntriesOf(t: Tree, x: ChainId): (entries: map<nat, Id>)
    requires t.Known() && t.Single() && t.chain.Keys <= t.live
  {
    map c | c in t.chain && t.chain[c] == x :: t.Slot(c) := c
  }

  /** The same tree with every entry that its slot indexes may lack. */
  function Completed(t: Tree): (u: Tree)
    requires t.Known() && t.Single() && t.chain.Keys <= t.live
  {
    t.(index := map x | x in t.forkingPoint :: EntriesOf(t, x))
  }

  lemma EntryOf(t: Tree, c: Id)
    requires t.Known() && t.Single() && t.chain.Keys <= t.live && c in t.chain
    ensures t.Slot(c) in EntriesOf(t, t.chain[c]) && EntriesOf(t, t.chain[c])[t.Slot(c)] == c
  {
  }

  lemma EntriesFrom(t: Tree, x: ChainId, s: nat)
    requires t.Known() && t.Single() && t.chain.Keys <= t.live && s in EntriesOf(t, x)
    ensures var c := EntriesOf(t, x)[s]; t.On(c, x) && c in t.live && t.Slot(c) == s
  {
    var c :| c in t.chain && t.chain[c] == x && t.Slot(c) == s;
    EntryOf(t, c);
  }

  lemma CompletedIndexed(t: Tree)
    requires t.Known() && t.Single() && t.Grounded()
    ensures t.chain.Keys <= t.live && Completed(t).Indexed()
  {
    hide Tree.Single, EntriesOf;
    var u := Completed(t);
    forall c | c in u.chain
      ensures u.chain[c] in u.index && u.Slot(c) in u.index[u.chain[c]] && u.index[u.chain[c]][u.Slot(c)] == c
    {
      EntryOf(t, c);
    }
    forall x, s | x in u.index && s in u.index[x]
      ensures u.On(u.index[x][s], x) && u.index[x][s] in u.live && u.Slot(u.index[x][s]) == s
    {
      EntriesFrom(t, x, s);
    }
  }

  lemma CompletedInv(t: Tree)
    requires t.Consistent()
    ensures t.Known() && t.Single() && t.chain.Keys <= t.live && Completed(t).Inv() && Alike(Completed(t), t)
  {
    hide Tree.Linked, Tree.MainChildren, Tree.Partitioned, Tree.EntriesRight, Tree.Single, EntriesOf;
    CompletedIndexed(t);
    AlikeChained(t, Completed(t));
  }

  /** A tree with right entries is consistent if it is alike one with complete indexes. */
  lemma AlikeConsistent(t: Tree, u: Tree)
    requires t.Inv() && Alike(t, u) && u.live <= u.header.Keys && u.EntriesRight()
    ensures u.Consistent()
  {
    hide Tree.Linked, Tree.MainChildren, Tree.Partitioned, Tree.Grounded, Tree.EntriesRight;
    AlikeChained(t, u);
    InvConsistent(t);
  }

  lemma SetChainAlike(t: Tree, u: Tree, c: Id, x: ChainId)
    requires Alike(t, u) && t.Known() && Indexable(t) && u.Known() && Indexable(u) && c in t.live && x in t.forkingPoint
    ensures Alike(SetChain(t, c, x), SetChain(u, c, x))
  {
  }

  lemma {:induction false} MovePathAlike(t: Tree, u: Tree, c: Id, x: ChainId)
    requires Alike(t, u) && t.Known() && t.Linked() && t.MainChildren() && Indexable(t)
    requires u.Known() && u.Linked() && u.MainChildren() && Indexable(u) && c in t.live && x in t.forkingPoint
    ensures Alike(MovePath(t, c, x), MovePath(u, c, x))
    decreases t.Higher(c)
  {
    SetChainAlike(t, u, c, x);
    if c in t.mainChild {
      HigherShrinks(t, c, t.mainChild[c]);
      ShapeKeepsLinks(t, SetChain(t, c, x));
      ShapeKeepsLinks(u, SetChain(u, c, x));
      MovePathAlike(SetChain(t, c, x), SetChain(u, c, x), t.mainChild[c], x);
    }
  }

  lemma NewChainLinks(t: Tree, c: Id)
    requires t.Known() && t.Linked() && t.MainChildren() && Indexable(t) && c in t.live
    ensures var u := NewChain(t, c);
            && u.Known() && u.Linked() && u.MainChildren() && Indexable(u) && u.live == t.live && t.nextChain in u.forkingPoint
  {
  }

  lemma SpawnAlike(t: Tree, u: Tree, c: Id)
    requires Alike(t, u) && t.Known() && t.Linked() && t.MainChildren() && Indexable(t)
    requires u.Known() && u.Linked() && u.MainChildren() && Indexable(u) && c in t.live
    ensures Alike(Spawn(t, c), Spawn(u, c))
  {
    hide Tree.Known, Tree.Linked, Tree.MainChildren, Indexable, MovePath;
    NewChainLinks(t, c);
    NewChainLinks(u, c);
    MovePathAlike(NewChain(t, c), NewChain(u, c), c, t.nextChain);
  }

  lemma PromoteAlike(t: Tree, u: Tree, c: Id)
    requires Alike(t, u) && Promotable(t, c) && Promotable(u, c)
    ensures Alike(Promote(t, c), Promote(u, c))
  {
    hide Promotable, Spawn, MovePath, Tree.Known, Tree.Linked, Tree.MainChildren, Indexable;
    PromotedChain(t, c);
    DisplaceAlike(t, u, c);
    MovePathAlike(Displace(t, c), Displace(u, c), c, t.chain[t.parent[c]]);
  }

  lemma PromotedChain(t: Tree, c: Id)
    requires Promotable(t, c)
    ensures c in t.parent && c in t.live && t.parent[c] in t.chain && t.parent[c] in t.live
  {
  }

  lemma DisplaceAlike(t: Tree, u: Tree, c: Id)
    requires Alike(t, u) && Promotable(t, c) && Promotable(u, c)
    ensures Alike(Displace(t, c), Displace(u, c))
  {
    hide Spawn;
    SetMainChildLinks(t, c);
    SetMainChildLinks(u, c);
    var p := t.parent[c];
    if p in t.mainChild {
      SpawnAlike(SetMainChild(t, c), SetMainChild(u, c), t.mainChild[p]);
    }
  }

  // ----- both orders of reactions

  /** No commitment is above both of two siblings along main children. */
  lemma PathsApart(t: Tree, a: Id, c: Id, d: Id)
    requires t.Known() && t.Linked() && a in t.live && c in t.live && d in t.live && a != c && t.Slot(a) == t.Slot(c)
    ensures !(t.OnMainPath(a, d) && t.OnMainPath(c, d))
  {
    if t.OnMainPath(a, d) && t.OnMainPath(c, d) {
      MainPathSlot(t, a, d);
      MainPathSlot(t, c, d);
    }
  }

  /** Where the commitments end up if the displaced child a reacts first. */
  lemma PromoteEnds(t: Tree, c: Id, a: Id, d: Id)
    requires Promotable(t, c) && t.parent[c] in t.mainChild && a == t.mainChild[t.parent[c]] && d in t.live
    ensures Promote(t, c).ChainOf(d) ==
            if SetMainChild(t, c).OnMainPath(c, d) then Some(t.chain[t.parent[c]])
            else if SetMainChild(t, c).OnMainPath(a, d) then Some(t.nextChain)
            else t.ChainOf(d)
  {
    var s, w := SetMainChild(t, c), Displace(t, c);
    SetMainChildLinks(t, c);
    SpawnPath(s, a, c, d);
    SpawnChains(s, a, d);
    MovePathChains(w, c, t.chain[t.parent[c]], d);
  }

  lemma SpawnPath(t: Tree, a: Id, c: Id, d: Id)
    requires t.Known() && t.Linked() && t.MainChildren() && Indexable(t) && a in t.live && c in t.live && d in t.live
    ensures Spawn(t, a).Known() && Spawn(t, a).Linked() && Spawn(t, a).live == t.live
    ensures Spawn(t, a).OnMainPath(c, d) == t.OnMainPath(c, d)
  {
    hide MovePath;
    NewChainLinks(t, a);
    NewChainPath(t, a, c, d);
    ShapeKeepsLinks(NewChain(t, a), Spawn(t, a));
    MainPathFrame(NewChain(t, a), Spawn(t, a), c, d);
  }

  /** Where they end up if c reacts first. */
  lemma PromotedFirstEnds(t: Tree, c: Id, a: Id, d: Id)
    requires Promotable(t, c) && t.parent[c] in t.mainChild && a == t.mainChild[t.parent[c]] && d in t.live
    ensures PromotedFirst(t, c).ChainOf(d) ==
            if SetMainChild(t, c).OnMainPath(a, d) then Some(t.nextChain)
            else if SetMainChild(t, c).OnMainPath(c, d) then Some(t.chain[t.parent[c]])
            else t.ChainOf(d)
  {
    var s := SetMainChild(t, c);
    SetMainChildLinks(t, c);
    var v := MovePath(s, c, t.chain[t.parent[c]]);
    ShapeKeepsLinks(s, v);
    MovePathChains(s, c, t.chain[t.parent[c]], d);
    MainPathFrame(s, v, a, d);
    SpawnChains(v, a, d);
  }

  lemma SameEnds(t: Tree, c: Id, d: Id)
    requires Promotable(t, c) && t.parent[c] in t.mainChild && d in t.live
    ensures Promote(t, c).ChainOf(d) == PromotedFirst(t, c).ChainOf(d)
  {
    hide Promote, PromotedFirst;
    SetMainChildLinks(t, c);
    var a := t.mainChild[t.parent[c]];
    PromoteEnds(t, c, a, d);
    PromotedFirstEnds(t, c, a, d);
    PathsApart(SetMainChild(t, c), a, c, d);
  }

  /** What spawning a chain does apart from moving a path. */
  lemma SpawnFacts(t: Tree, a: Id)
    requires t.Known() && t.Linked() && t.MainChildren() && Indexable(t) && a in t.live && t.chain.Keys <= t.live
    ensures var u := Spawn(t, a);
            && u == t.(chain := u.chain, index := u.index, forkingPoint := t.forkingPoint[t.nextChain := a], nextChain := t.nextChain + 1)
            && u.chain.Keys <= t.live && u.index.Keys == t.index.Keys + {t.nextChain}
            && u.Known() && u.Linked() && u.MainChildren() && Indexable(u)
  {
    hide MovePath, Tree.Known, Tree.Linked, Tree.MainChildren;
    NewChainLinks(t, a);
    MovePathSubset(NewChain(t, a), a, t.nextChain);
    ShapeKeepsLinks(NewChain(t, a), Spawn(t, a));
  }

  lemma PathFacts(t: Tree, c: Id, x: ChainId)
    requires t.Known() && t.Linked() && t.MainChildren() && Indexable(t) && c in t.live && x in t.forkingPoint
    requires t.chain.Keys <= t.live
    ensures var u := MovePath(t, c, x);
            && u == t.(chain := u.chain, index := u.index) && u.chain.Keys <= t.live && u.index.Keys == t.index.Keys
            && u.Known() && u.Linked() && u.MainChildren() && Indexable(u)
  {
    hide MovePath, Tree.Known, Tree.Linked, Tree.MainChildren;
    MovePathSubset(t, c, x);
    ShapeKeepsLinks(t, MovePath(t, c, x));
  }

  lemma PromotedKeys(t: Tree, c: Id)
    requires Promotable(t, c) && t.parent[c] in t.mainChild && t.chain.Keys <= t.live
    ensures Promote(t, c).chain.Keys <= t.live && PromotedFirst(t, c).chain.Keys <= t.live
    ensures PromotedFirst(t, c) == Promote(t, c).(chain := PromotedFirst(t, c).chain, index := PromotedFirst(t, c).index)
    ensures PromotedFirst(t, c).index.Keys == Promote(t, c).index.Keys
  {
    hide MovePath, Spawn, Tree.Known, Tree.Linked, Tree.MainChildren, Indexable;
    PromotedChain(t, c);
    SetMainChildLinks(t, c);
    var s, a, x := SetMainChild(t, c), t.mainChild[t.parent[c]], t.chain[t.parent[c]];
    SpawnFacts(s, a);
    PathFacts(Displace(t, c), c, x);
    PathFacts(s, c, x);
    SpawnFacts(MovePath(s, c, x), a);
  }

  /** In both orders links and chains come out the same. */
  lemma OrdersAlike(t: Tree, c: Id)
    requires Promotable(t, c) && t.parent[c] in t.mainChild && t.chain.Keys <= t.live
    ensures Alike(Promote(t, c), PromotedFirst(t, c))
  {
    hide Promote, PromotedFirst, Promotable;
    PromotedKeys(t, c);
    var v, w := Promote(t, c), PromotedFirst(t, c);
    forall d
      ensures v.ChainOf(d) == w.ChainOf(d)
    {
      if d in t.live {
        SameEnds(t, c, d);
      }
    }
    SameChainMaps(v, w);
  }

  lemma SameChainMaps(v: Tree, w: Tree)
    requires forall d :: v.ChainOf(d) == w.ChainOf(d)
    ensures v.chain == w.chain
  {
    forall d
      ensures d in v.chain <==> d in w.chain
      ensures d in v.chain ==> v.chain[d] == w.chain[d]
    {
      assert v.ChainOf(d) == w.ChainOf(d);
    }
  }

  // ----- every step

  lemma LinkAlike(t: Tree, u: Tree, c: Id)
    requires Alike(t, u) && t.Chained() && u.Chained() && CanLink(t, c) && CanLink(u, c)
    ensures Alike(Link(t, c), Link(u, c))
  {
    hide Tree.Chained, Promotable, Promote, Spawn, Tree.Known, Tree.Linked, Tree.MainChildren, Indexable;
    LinkPromotable(t, c);
    LinkPromotable(u, c);
    if t.header[c].previous in t.mainChild {
      SpawnAlike(WithParent(t, c), WithParent(u, c), c);
    } else if t.header[c].previous in t.chain {
      PromoteAlike(WithParent(t, c), WithParent(u, c), c);
    }
  }

  lemma LinkForcedAlike(t: Tree, u: Tree, c: Id, target: ChainId)
    requires Alike(t, u) && t.Chained() && u.Chained() && CanLink(t, c) && CanLink(u, c)
    ensures Alike(LinkForced(t, c, target), LinkForced(u, c, target))
  {
    hide Tree.Chained, Promotable, Promote, Link, Tree.Known, Tree.Linked, Tree.MainChildren, Indexable;
    LinkPromotable(t, c);
    LinkPromotable(u, c);
    LinkAlike(t, u, c);
    if t.ChainOf(t.header[c].previous) == Some(target) {
      PromoteAlike(WithParent(t, c), WithParent(u, c), c);
    }
  }

  lemma ForceAlike(t: Tree, u: Tree, c: Id, target: ChainId)
    requires Alike(t, u) && t.Chained() && u.Chained() && c in t.live
    ensures Alike(Force(t, c, target), Force(u, c, target))
  {
    hide Tree.Chained, Promotable, Promote;
    if t.ChainOf(c) != Some(target) && c in t.parent && t.ChainOf(t.parent[c]) == Some(target) {
      ForcePromotable(t, c);
      ForcePromotable(u, c);
      PromoteAlike(t, u, c);
    }
  }

  lemma EvictAlike(t: Tree, u: Tree, s: nat)
    requires Alike(t, u) && Evictable(t) && Evictable(u)
    ensures Alike(Evict(t, s), Evict(u, s))
  {
    hide Evictable;
  }

  lemma AdvanceAlike(t: Tree, u: Tree, main: ChainId, r: Id)
    requires Alike(t, u) && CanMoveRoot(t, main, r) && CanMoveRoot(u, main, r)
    ensures Alike(AdvanceRoot(t, main, r), AdvanceRoot(u, main, r))
  {
    hide Tree.MainChildren, Tree.Partitioned, Tree.Grounded, Tree.Indexed, Evictable, Evict;
    MoveRootEvictable(t, main, r);
    MoveRootEvictable(u, main, r);
    EvictAlike(MoveRoot(t, main, r), MoveRoot(u, main, r), t.Slot(r));
  }

  lemma ContinuedAlike(t: Tree, u: Tree, main: ChainId, r: Id)
    requires Alike(t, u) && CanPublishRoot(t, main, r) && CanPublishRoot(u, main, r)
    ensures Continued(t, main, r) ==> Continued(u, main, r)
  {
    hide Tree.MainChildren, Tree.Partitioned, Tree.Grounded, Tree.Indexed;
    forall c | c in t.live
      ensures t.OnMainPath(r, c) == u.OnMainPath(r, c)
    {
      MainPathFrame(t, u, r, c);
    }
  }

  lemma PublishRootAlike(t: Tree, u: Tree, main: ChainId, r: Id)
    requires Alike(t, u) && CanPublishRoot(t, main, r) && CanPublishRoot(u, main, r)
    ensures Alike(PublishRoot(t, main, r), PublishRoot(u, main, r))
  {
    hide Tree.Partitioned, Tree.Grounded, Tree.Indexed, Evictable, Evict, MovePath;
    ChainedIndexable(t);
    ChainedIndexable(u);
    EnterRootEvictable(t, main, r);
    EnterRootEvictable(u, main, r);
    if !t.On(r, main) {
      MovePathAlike(t, u, r, main);
    }
    EvictAlike(EnterRoot(t, main, r), EnterRoot(u, main, r), t.Slot(r));
  }

  lemma ApplicableAlike(t: Tree, u: Tree, a: Action)
    requires Alike(t, u) && Applicable(t, a)
    ensures Applicable(u, a)
  {
    hide Tree.MainChildren, Tree.Partitioned, Tree.Grounded, Tree.Indexed, Continued;
    AlikeChained(t, u);
    match a
    case EnterRootTo(main, r) => ContinuedAlike(t, u, main, r);
    case _ =>
  }

  lemma StepAlike(t: Tree, u: Tree, a: Action)
    requires Alike(t, u) && Applicable(t, a) && Applicable(u, a)
    ensures Alike(Step(t, a), Step(u, a))
  {
    hide Tree.Chained, Link, Force, LinkForced, AdvanceRoot, PublishRoot, Based, Continued;
    match a
    case PublishCommitment(c, h) =>
    case LinkParent(c) => LinkAlike(t, u, c);
    case LinkFromEngine(c, target) => LinkForcedAlike(t, u, c, target);
    case ForceOnto(c, target) => ForceAlike(t, u, c, target);
    case MoveRootTo(main, r) => AdvanceAlike(t, u, main, r);
    case EnterRootTo(main, r) => PublishRootAlike(t, u, main, r);
  }

  // ----- entries

  lemma SetChainRight(t: Tree, c: Id, x: ChainId)
    requires t.Known() && Indexable(t) && c in t.live && x in t.forkingPoint && t.EntriesRight()
    ensures SetChain(t, c, x).EntriesRight()
  {
    var u := SetChain(t, c, x);
    forall y, s | y in u.index && s in u.index[y]
      ensures u.On(u.index[y][s], y) && u.index[y][s] in u.live && u.Slot(u.index[y][s]) == s
    {
      if !(y == x && s == t.Slot(c)) {
        assert s in t.index[y] && u.index[y][s] == t.index[y][s];
      }
    }
  }

  lemma {:induction false} MovePathRight(t: Tree, c: Id, x: ChainId)
    requires t.Known() && t.Linked() && t.MainChildren() && Indexable(t) && c in t.live && x in t.forkingPoint
    requires t.EntriesRight()
    ensures MovePath(t, c, x).EntriesRight()
    decreases t.Higher(c)
  {
    hide Tree.EntriesRight;
    SetChainRight(t, c, x);
    if c in t.mainChild {
      HigherShrinks(t, c, t.mainChild[c]);
      ShapeKeepsLinks(t, SetChain(t, c, x));
      MovePathRight(SetChain(t, c, x), t.mainChild[c], x);
    }
  }

  lemma SpawnRight(t: Tree, c: Id)
    requires t.Known() && t.Linked() && t.MainChildren() && Indexable(t) && c in t.live && t.EntriesRight()
    ensures Spawn(t, c).EntriesRight()
  {
    NewChainLinks(t, c);
    MovePathRight(NewChain(t, c), c, t.nextChain);
  }

  lemma PromoteRight(t: Tree, c: Id)
    requires Promotable(t, c) && t.live <= t.header.Keys && t.EntriesRight()
    ensures Promote(t, c).live <= Promote(t, c).header.Keys && Promote(t, c).EntriesRight()
  {
    hide MovePath, Spawn;
    SetMainChildLinks(t, c);
    if t.parent[c] in t.mainChild {
      SpawnRight(SetMainChild(t, c), t.mainChild[t.parent[c]]);
    }
    MovePathRight(Displace(t, c), c, t.chain[t.parent[c]]);
  }

  lemma PromotedFirstRight(t: Tree, c: Id)
    requires Promotable(t, c) && t.parent[c] in t.mainChild && t.live <= t.header.Keys && t.EntriesRight()
    ensures PromotedFirst(t, c).live <= PromotedFirst(t, c).header.Keys && PromotedFirst(t, c).EntriesRight()
  {
    hide MovePath, Spawn;
    SetMainChildLinks(t, c);
    var s, x := SetMainChild(t, c), t.chain[t.parent[c]];
    MovePathRight(s, c, x);
    ShapeKeepsLinks(s, MovePath(s, c, x));
    SpawnRight(MovePath(s, c, x), t.mainChild[t.parent[c]]);
  }

  lemma LinkRight(t: Tree, c: Id)
    requires t.Chained() && CanLink(t, c) && t.live <= t.header.Keys && t.EntriesRight()
    ensures Link(t, c).live <= Link(t, c).header.Keys && Link(t, c).EntriesRight()
  {
    hide Tree.Chained, Promotable, Promote, Spawn, Tree.Known, Tree.Linked, Tree.MainChildren, Indexable;
    LinkPromotable(t, c);
    if t.header[c].previous in t.mainChild {
      SpawnRight(WithParent(t, c), c);
      SpawnKnown(WithParent(t, c), c);
    } else if t.header[c].previous in t.chain {
      PromoteRight(WithParent(t, c), c);
    }
  }

  lemma SpawnKnown(t: Tree, c: Id)
    requires t.Known() && t.Linked() && t.MainChildren() && Indexable(t) && c in t.live
    ensures Spawn(t, c).live <= Spawn(t, c).header.Keys
  {
  }

  lemma EvictRight(t: Tree, s: nat)
    requires Evictable(t) && t.live <= t.header.Keys && t.EntriesRight()
    ensures Evict(t, s).live <= Evict(t, s).header.Keys && Evict(t, s).EntriesRight()
  {
    var u := Evict(t, s);
    forall x, n | x in u.index && n in u.index[x]
      ensures u.On(u.index[x][n], x) && u.index[x][n] in u.live && u.Slot(u.index[x][n]) == n
    {
      assert t.On(t.index[x][n], x);
    }
  }

  lemma PublishRootRight(t: Tree, main: ChainId, r: Id)
    requires CanPublishRoot(t, main, r) && t.live <= t.header.Keys && t.EntriesRight()
    ensures var u := PublishRoot(t, main, r); u.live <= u.header.Keys && u.EntriesRight()
  {
    hide Tree.Partitioned, Tree.Grounded, Tree.Indexed, Evictable, Evict, MovePath;
    ChainedIndexable(t);
    EnterRootEvictable(t, main, r);
    if !t.On(r, main) {
      MovePathRight(t, r, main);
    }
    EvictRight(EnterRoot(t, main, r), t.Slot(r));
  }

  lemma AdvanceRight(t: Tree, main: ChainId, r: Id)
    requires CanMoveRoot(t, main, r) && t.live <= t.header.Keys && t.EntriesRight()
    ensures var u := AdvanceRoot(t, main, r); u.live <= u.header.Keys && u.EntriesRight()
  {
    hide Tree.MainChildren, Tree.Partitioned, Tree.Grounded, Tree.Indexed, Evictable, Evict;
    MoveRootEvictable(t, main, r);
    EvictRight(MoveRoot(t, main, r), t.Slot(r));
  }
}

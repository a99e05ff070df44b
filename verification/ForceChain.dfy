/**
 Making a commitment the main child of its parent: `registerChild` for a first
 child, and `forceChain` for a child that displaces another one.
 */
module ForceChain {
  import opened Collections
  import opened CommitmentTree
  import opened ChainSteps
  import opened TreeSteps

  /** Everything the promotion of c to main child touches is there, and only c may still lack a main sibling. */
  predicate Promotable(t: Tree, c: Id) {
    && t.Known() && t.Linked() && Indexable(t)
    && c in t.parent && t.parent[c] in t.chain
    && (forall p | p in t.mainChild :: t.mainChild[p] in t.parent && t.parent[t.mainChild[p]] == p && t.mainChild[p] != c)
    && (forall d | d in t.parent && d != c :: t.parent[d] in t.mainChild)
  }

  function SetMainChild(t: Tree, c: Id): (u: Tree)
    requires c in t.parent
  {
    t.(mainChild := t.mainChild[t.parent[c] := c])
  }

  lemma SameIndexed(t: Tree, u: Tree)
    requires t.Known() && t.Indexed() && u == t.(mainChild := u.mainChild)
    ensures u.Indexed()
  {
  }

  lemma SameGrounded(t: Tree, u: Tree)
    requires t.Known() && t.Grounded() && u == t.(mainChild := u.mainChild)
    ensures u.Known() && u.Grounded()
  {
  }

  lemma SetMainChildLinks(t: Tree, c: Id)
    requires Promotable(t, c)
    ensures var u := SetMainChild(t, c); u.Known() && u.Linked() && u.MainChildren() && Indexable(u)
    ensures t.chain[t.parent[c]] in t.forkingPoint
    ensures t.parent[c] in t.mainChild ==> t.mainChild[t.parent[c]] in t.live
  {
  }

  /** The displaced main child reacts first: it starts a chain of its own. */
  function Displace(t: Tree, c: Id): (u: Tree)
    requires Promotable(t, c)
    ensures u.Known() && u.Linked() && u.MainChildren() && Indexable(u)
    ensures u.live == t.live && u.parent == t.parent && t.chain[t.parent[c]] in u.forkingPoint
  {
    var p, u := t.parent[c], SetMainChild(t, c);
    SetMainChildLinks(t, c);
    if p in t.mainChild then
      SpawnLinks(u, t.mainChild[p]);
      Spawn(u, t.mainChild[p])
    else u
  }

  /**
   `parent.MainChild.Set(c)`: the displaced child leaves the parent's chain,
   then c enters it, each with its main path.
   */
  function Promote(t: Tree, c: Id): (u: Tree)
    requires Promotable(t, c)
  {
    MovePath(Displace(t, c), c, t.chain[t.parent[c]])
  }

  /** From the slot of c on, the parent's chain is the main path of the child to be displaced. */
  ghost predicate Clear(t: Tree, c: Id)
    requires Promotable(t, c)
  {
    var p := t.parent[c];
    forall e | e in t.live && t.On(e, t.chain[p]) && t.Slot(e) >= t.Slot(c) ::
      p in t.mainChild && t.OnMainPath(t.mainChild[p], e)
  }

  /** The invariant, except that c itself need not be partitioned yet. */
  ghost predicate Ready(t: Tree, c: Id) {
    Promotable(t, c) && t.Indexed() && t.Grounded() && Clear(t, c)
    && (forall y | y in t.parent && y != c :: t.PartitionedAt(y))
  }

  lemma {:induction false} SetMainChildPath(t: Tree, c: Id, a: Id, d: Id)
    requires Promotable(t, c) && a in t.parent && t.parent[a] == t.parent[c] && a != c && d in t.live
    ensures SetMainChild(t, c).OnMainPath(a, d) == t.OnMainPath(a, d)
    decreases t.Slot(d)
  {
    var u := SetMainChild(t, c);
    if d in t.parent && d != a {
      SetMainChildPath(t, c, a, t.parent[d]);
      if t.parent[d] == t.parent[a] {
        if t.OnMainPath(a, t.parent[d]) {
          MainPathSlot(t, a, t.parent[d]);
        }
      }
    }
  }

  lemma DisplaceIndexed(t: Tree, c: Id)
    requires Ready(t, c)
    ensures Displace(t, c).Indexed()
  {
    hide Tree.Grounded, Tree.Indexed, Clear, Spawn;
    var p, u := t.parent[c], SetMainChild(t, c);
    SetMainChildLinks(t, c);
    SameIndexed(t, u);
    if p in t.mainChild {
      SpawnIndexed(u, t.mainChild[p]);
    }
  }

  lemma DisplaceGrounded(t: Tree, c: Id)
    requires Ready(t, c)
    ensures Displace(t, c).Grounded()
  {
    hide Tree.Indexed, Tree.Grounded, Clear, Spawn;
    var p, u := t.parent[c], SetMainChild(t, c);
    SetMainChildLinks(t, c);
    SameGrounded(t, u);
    if p in t.mainChild {
      SpawnGrounded(u, t.mainChild[p]);
    }
  }

  lemma DisplacePartition(t: Tree, c: Id, y: Id)
    requires Ready(t, c) && y in t.parent && y != c
    ensures Displace(t, c).PartitionedAt(y)
  {
    hide Tree.Indexed, Tree.Grounded, Clear;
    var p, u := t.parent[c], SetMainChild(t, c);
    assert t.PartitionedAt(y);
    if p in t.mainChild {
      var a := t.mainChild[p];
      if y == a {
        SpawnStart(u, a);
      } else {
        assert u.PartitionedAt(y);
        SpawnPartition(u, a, y);
      }
    } else {
      assert u.PartitionedAt(y);
    }
  }

  lemma DisplaceChains(t: Tree, c: Id, d: Id)
    requires Promotable(t, c) && d in t.live
    ensures Displace(t, c).ChainOf(d) ==
            if t.parent[c] in t.mainChild && t.OnMainPath(t.mainChild[t.parent[c]], d) then Some(t.nextChain)
            else t.ChainOf(d)
  {
    var p := t.parent[c];
    if p in t.mainChild {
      SetMainChildPath(t, c, t.mainChild[p], d);
      SpawnChains(SetMainChild(t, c), t.mainChild[p], d);
    }
  }

  /** After the displaced child has left, c's main path fits onto the parent's chain. */
  lemma DisplaceMakesRoom(t: Tree, c: Id)
    requires Ready(t, c)
    ensures RoomFor(Displace(t, c), c, t.chain[t.parent[c]])
  {
    var u, x := Displace(t, c), t.chain[t.parent[c]];
    DisplaceIndexed(t, c);
    forall d | d in u.live && u.OnMainPath(c, d)
      ensures u.Slot(d) !in u.index[x]
    {
      MainPathSlot(u, c, d);
      if u.Slot(d) in u.index[x] {
        NoOneLeft(t, c, u.index[x][u.Slot(d)]);
      }
    }
  }

  lemma NoOneLeft(t: Tree, c: Id, e: Id)
    requires Ready(t, c) && e in t.live && t.Slot(e) >= t.Slot(c)
    ensures !Displace(t, c).On(e, t.chain[t.parent[c]])
  {
    hide Tree.Indexed;
    DisplaceChains(t, c, e);
    assert t.chain[t.parent[c]] in t.forkingPoint;
  }

  lemma PromoteStart(t: Tree, c: Id)
    requires Ready(t, c)
    ensures Promote(t, c).PartitionedAt(c)
  {
    hide Tree.Indexed, Tree.Grounded, Clear;
    var p, u := t.parent[c], Displace(t, c);
    DisplaceChains(t, c, p);
    if p in t.mainChild && t.OnMainPath(t.mainChild[p], p) {
      MainPathSlot(t, t.mainChild[p], p);
    }
    if u.OnMainPath(c, p) {
      MainPathSlot(u, c, p);
    }
    MovePathChains(u, c, t.chain[p], c);
    MovePathChains(u, c, t.chain[p], p);
  }

  lemma PromotePartition(t: Tree, c: Id, y: Id)
    requires Ready(t, c) && y in t.parent
    ensures y in Promote(t, c).parent && Promote(t, c).PartitionedAt(y)
  {
    hide Tree.Indexed, Tree.Grounded, Clear;
    if y == c {
      PromoteStart(t, c);
    } else {
      DisplacePartition(t, c, y);
      MovePathPartition(Displace(t, c), c, t.chain[t.parent[c]], y);
    }
  }

  lemma PromoteGrounded(t: Tree, c: Id)
    requires Ready(t, c)
    ensures Promote(t, c).Grounded()
  {
    hide Tree.Indexed, Clear;
    DisplaceGrounded(t, c);
    MovePathGrounded(Displace(t, c), c, t.chain[t.parent[c]]);
  }

  lemma PromoteLinks(t: Tree, c: Id)
    requires Promotable(t, c)
    ensures Promote(t, c).Known() && Promote(t, c).Linked() && Promote(t, c).MainChildren()
    ensures Promote(t, c).parent == t.parent && Promote(t, c).index.Keys == Promote(t, c).forkingPoint.Keys
  {
  }

  lemma PromoteIndexed(t: Tree, c: Id)
    requires Ready(t, c)
    ensures Promote(t, c).Indexed()
  {
    hide Tree.Grounded, Tree.Indexed, Clear, RoomFor;
    DisplaceIndexed(t, c);
    DisplaceMakesRoom(t, c);
    MovePathIndexed(Displace(t, c), c, t.chain[t.parent[c]]);
  }

  lemma PromoteInv(t: Tree, c: Id)
    requires Ready(t, c)
    ensures Promote(t, c).Inv()
  {
    hide Tree.Known, Tree.Linked, Tree.MainChildren, Tree.Grounded, Tree.Indexed, Clear, Promote, Tree.PartitionedAt;
    PromoteLinks(t, c);
    PromoteIndexed(t, c);
    PromoteGrounded(t, c);
    forall y | y in t.parent
      ensures y in Promote(t, c).parent && Promote(t, c).PartitionedAt(y)
    {
      PromotePartition(t, c, y);
    }
  }
}

/**
 The tie-break between commitments of equal weight: `Commitment.Less`. It
 compares the first two commitments in which the chains differ. One of them may
 continue the common chain; then it is looked up in the slot index of that
 chain, and counts as the smaller one if the index lacks it.
 */
module ForkChoice {
  import opened Collections
  import opened CommitmentTree
  import opened ChainLookup

  // ----- the order that the parent links alone define

  /** Walk down from two commitments of one slot until their parents agree, then compare IDs. */
  function TreeLess(t: Tree, x: Id, y: Id): (r: bool)
    requires t.Known() && t.Linked() && x in t.live && y in t.live
    decreases t.Slot(x)
  {
    if x in t.parent && y in t.parent && t.parent[x] != t.parent[y]
    then TreeLess(t, t.parent[x], t.parent[y])
    else x < y
  }

  // ----- the order that `Less` computes

  /** Of two children of one commitment, x comes first: it is not found in the index, or both are and it has the smaller ID. */
  predicate Before(t: Tree, x: Id, y: Id)
    requires x in t.header && y in t.header
  {
    x != y && (t.Unlisted(x) || (!t.Unlisted(y) && x < y))
  }

  /** Walk down from two commitments of one slot until their parents agree, then see which comes first. */
  predicate NodeLess(t: Tree, x: Id, y: Id)
    requires t.Known() && t.Linked() && x in t.live && y in t.live
    decreases t.Slot(x)
  {
    if x in t.parent && y in t.parent && t.parent[x] != t.parent[y]
    then NodeLess(t, t.parent[x], t.parent[y])
    else Before(t, x, y)
  }

  function Min(a: nat, b: nat): (m: nat)
    ensures m <= a && m <= b && (m == a || m == b)
  {
    if a <= b then a else b
  }

  /** a and b have different ancestors at the lower one of their slots. */
  predicate Apart(t: Tree, a: Id, b: Id)
    requires t.Known() && t.Linked() && a in t.live && b in t.live
  {
    var m := Min(t.Slot(a), t.Slot(b));
    t.AncestorAt(a, m) != t.AncestorAt(b, m)
  }

  /** The order of the ancestors of a and b at the lower one of their slots. */
  predicate LessBelow(t: Tree, a: Id, b: Id)
    requires t.Known() && t.Linked() && a in t.live && b in t.live
  {
    var m := Min(t.Slot(a), t.Slot(b));
    NodeLess(t, t.AncestorAt(a, m), t.AncestorAt(b, m))
  }

  predicate SolidId(t: Tree, c: Id)
    requires t.Known() && t.Linked()
  {
    c in t.live && t.Solid(c)
  }

  /** Replacing two commitments by ancestors that still differ does not change their order. */
  lemma {:induction false} Truncate(t: Tree, x: Id, y: Id, s: nat)
    requires t.Known() && t.Linked() && SolidId(t, x) && SolidId(t, y) && t.Slot(x) == t.Slot(y)
    requires t.Slot(t.root) <= s <= t.Slot(x) && t.AncestorAt(x, s) != t.AncestorAt(y, s)
    ensures x != y && TreeLess(t, x, y) == TreeLess(t, t.AncestorAt(x, s), t.AncestorAt(y, s))
    ensures NodeLess(t, x, y) == NodeLess(t, t.AncestorAt(x, s), t.AncestorAt(y, s))
    decreases t.Slot(x)
  {
    if s < t.Slot(x) {
      Truncate(t, t.parent[x], t.parent[y], s);
    }
  }

  /** The same for commitments of different slots. */
  lemma TruncateBelow(t: Tree, a: Id, b: Id, s: nat)
    requires t.Known() && t.Linked() && SolidId(t, a) && SolidId(t, b)
    requires t.Slot(t.root) <= s <= t.Slot(a) && s <= t.Slot(b) && t.AncestorAt(a, s) != t.AncestorAt(b, s)
    ensures Apart(t, a, b) && LessBelow(t, a, b) == NodeLess(t, t.AncestorAt(a, s), t.AncestorAt(b, s))
  {
    var m := Min(t.Slot(a), t.Slot(b));
    AncestorTwice(t, a, m, s);
    AncestorTwice(t, b, m, s);
    AncestorSlot(t, a, m);
    AncestorSlot(t, b, m);
    Truncate(t, t.AncestorAt(a, m), t.AncestorAt(b, m), s);
  }

  // ----- tips

  /** The highest commitment reached by following main children. */
  ghost function Tip(t: Tree, c: Id): (d: Id)
    requires t.Known() && t.Linked() && t.MainChildren() && c in t.live
    ensures d in t.live && d !in t.mainChild
    decreases t.Higher(c)
  {
    if c in t.mainChild then
      HigherShrinks(t, c, t.mainChild[c]);
      Tip(t, t.mainChild[c])
    else c
  }

  lemma {:induction false} TipOnChain(t: Tree, c: Id)
    requires t.Consistent() && c in t.chain && t.Solid(c)
    ensures t.On(Tip(t, c), t.chain[c]) && SolidId(t, Tip(t, c))
    ensures t.Slot(c) <= t.Slot(Tip(t, c)) && t.AncestorAt(Tip(t, c), t.Slot(c)) == c
    decreases t.Higher(c)
  {
    if c in t.mainChild {
      var m := t.mainChild[c];
      assert t.IsMain(m);
      HigherShrinks(t, c, m);
      TipOnChain(t, m);
      SameChainAncestor(t, c, Tip(t, c));
    }
  }

  lemma ParentOfAncestor(t: Tree, b: Id, s: nat)
    requires t.Known() && t.Linked() && SolidId(t, b) && t.Slot(t.root) <= s < t.Slot(b)
    ensures t.AncestorAt(b, s + 1) in t.parent && t.parent[t.AncestorAt(b, s + 1)] == t.AncestorAt(b, s)
  {
    AncestorSlot(t, b, s + 1);
    AncestorTwice(t, b, s + 1, s);
  }

  lemma TipsNotAncestors(t: Tree, a: Id, b: Id)
    requires t.Consistent() && SolidId(t, a) && SolidId(t, b) && a !in t.mainChild && a != b
    requires t.Slot(a) <= t.Slot(b)
    ensures t.AncestorAt(b, t.Slot(a)) != a
  {
    if t.Slot(a) < t.Slot(b) {
      ParentOfAncestor(t, b, t.Slot(a));
    }
  }

  lemma TipsApart(t: Tree, a: Id, b: Id)
    requires t.Consistent() && SolidId(t, a) && SolidId(t, b) && a !in t.mainChild && b !in t.mainChild && a != b
    ensures Apart(t, a, b)
  {
    if t.Slot(a) <= t.Slot(b) {
      TipsNotAncestors(t, a, b);
    } else {
      TipsNotAncestors(t, b, a);
    }
  }

  // ----- moving the two chain cursors of `Less`

  /** a and b stand for two different chains, and their order is still undecided. */
  predicate Cursors(t: Tree, a: Id, b: Id)
    requires t.Consistent()
  {
    SolidId(t, a) && SolidId(t, b) && a in t.chain && b in t.chain && t.chain[a] != t.chain[b] && Apart(t, a, b)
  }

  lemma CursorsSwap(t: Tree, a: Id, b: Id)
    requires t.Consistent() && Cursors(t, a, b)
    ensures Cursors(t, b, a)
  {
    hide Tree.Chained, Tree.Single, Tree.EntriesRight;
  }

  function ForkOf(t: Tree, a: Id): (f: Id)
    requires t.Consistent() && a in t.chain
    ensures f in t.header && t.Slot(f) <= t.Slot(a)
  {
    t.forkingPoint[t.chain[a]]
  }

  /** Only the chain of the root reaches down to the root slot. */
  lemma BottomChain(t: Tree, a: Id)
    requires t.Consistent() && SolidId(t, a) && a in t.chain && t.Slot(ForkOf(t, a)) <= t.Slot(t.root)
    ensures t.chain[a] == t.chain[t.root]
  {
    ChainDown(t, a, t.Slot(t.root));
    AncestorSlot(t, a, t.Slot(t.root));
  }

  /** The chain with the forking point that is not lower leaves the root chain, so it has a parent chain. */
  lemma UpperFork(t: Tree, a: Id, b: Id)
    requires t.Consistent() && Cursors(t, a, b) && t.Slot(ForkOf(t, a)) <= t.Slot(ForkOf(t, b))
    ensures t.Slot(ForkOf(t, b)) > t.Slot(t.root)
    ensures t.AncestorAt(b, t.Slot(ForkOf(t, b))) == ForkOf(t, b) && SolidId(t, ForkOf(t, b))
    ensures ForkOf(t, b) in t.parent && t.parent[ForkOf(t, b)] in t.chain && SolidId(t, t.parent[ForkOf(t, b)])
    ensures t.On(ForkOf(t, b), t.chain[b])
  {
    hide Tree.MainChildren, Tree.Partitioned, Tree.Grounded, Tree.Single, Tree.EntriesRight;
    if t.Slot(ForkOf(t, b)) <= t.Slot(t.root) {
      BottomChain(t, a);
      BottomChain(t, b);
    }
    ForkingPointOnChain(t, b);
    ChainDown(t, b, t.Slot(ForkOf(t, b)));
    AncestorSlot(t, b, t.Slot(ForkOf(t, b)));
    SolidOnChain(t, t.parent[ForkOf(t, b)]);
  }

  /** A forking point does not continue the chain of its parent. */
  lemma ForkNotMain(t: Tree, b: Id)
    requires t.Consistent() && b in t.chain && t.On(ForkOf(t, b), t.chain[b])
    ensures !t.Unlisted(ForkOf(t, b))
  {
    hide Tree.MainChildren, Tree.Single, Tree.EntriesRight;
  }

  /** Forking points with one parent are the divergence points. */
  lemma SiblingForks(t: Tree, a: Id, b: Id)
    requires t.Consistent() && Cursors(t, a, b) && t.Slot(ForkOf(t, a)) == t.Slot(ForkOf(t, b))
    requires ForkOf(t, a) in t.parent ==>
               ForkOf(t, b) in t.parent && t.parent[ForkOf(t, a)] == t.parent[ForkOf(t, b)]
    ensures LessBelow(t, a, b) == (ForkOf(t, a) < ForkOf(t, b))
  {
    hide Tree.MainChildren, Tree.Partitioned, Tree.Grounded, Tree.Single, Tree.EntriesRight;
    UpperFork(t, a, b);
    assert Cursors(t, b, a);
    UpperFork(t, b, a);
    ForkNotMain(t, a);
    ForkNotMain(t, b);
    TruncateBelow(t, a, b, t.Slot(ForkOf(t, a)));
  }

  /** Different ancestors at one slot with one parent are the divergence points. */
  lemma DivergenceAt(t: Tree, a: Id, b: Id, s: nat)
    requires t.Known() && t.Linked() && SolidId(t, a) && SolidId(t, b)
    requires t.Slot(t.root) < s <= t.Slot(a) && s <= t.Slot(b) && t.AncestorAt(a, s) != t.AncestorAt(b, s)
    requires t.AncestorAt(a, s - 1) == t.AncestorAt(b, s - 1)
    ensures t.AncestorAt(a, s) in t.parent && t.AncestorAt(b, s) in t.parent
    ensures t.parent[t.AncestorAt(a, s)] == t.parent[t.AncestorAt(b, s)] == t.AncestorAt(b, s - 1)
    ensures LessBelow(t, a, b) == Before(t, t.AncestorAt(a, s), t.AncestorAt(b, s))
    ensures LessBelow(t, b, a) == Before(t, t.AncestorAt(b, s), t.AncestorAt(a, s))
  {
    TruncateBelow(t, a, b, s);
    TruncateBelow(t, b, a, s);
    ParentOfAncestor(t, a, s - 1);
    ParentOfAncestor(t, b, s - 1);
  }

  /** Replacing b by an ancestor that is still apart from a does not change their order. */
  lemma Replace(t: Tree, a: Id, b: Id, s: nat)
    requires t.Known() && t.Linked() && SolidId(t, a) && SolidId(t, b)
    requires t.Slot(t.root) <= s <= t.Slot(b) && t.Slot(t.root) <= t.Slot(a)
    requires t.AncestorAt(a, Min(t.Slot(a), s)) != t.AncestorAt(b, Min(t.Slot(a), s))
    ensures SolidId(t, t.AncestorAt(b, s)) && Apart(t, a, t.AncestorAt(b, s))
    ensures LessBelow(t, a, t.AncestorAt(b, s)) == LessBelow(t, a, b)
    ensures LessBelow(t, t.AncestorAt(b, s), a) == LessBelow(t, b, a)
  {
    var m := Min(t.Slot(a), s);
    AncestorSlot(t, b, s);
    AncestorTwice(t, b, s, m);
    TruncateBelow(t, a, b, m);
    TruncateBelow(t, b, a, m);
    TruncateBelow(t, a, t.AncestorAt(b, s), m);
    TruncateBelow(t, t.AncestorAt(b, s), a, m);
  }

  /** What the parent q of b's forking point f is to b. */
  lemma ForkParent(t: Tree, a: Id, b: Id)
    requires t.Consistent() && Cursors(t, a, b) && t.Slot(ForkOf(t, a)) <= t.Slot(ForkOf(t, b))
    ensures var f := ForkOf(t, b);
            f in t.parent && t.parent[f] in t.chain && t.Slot(f) > t.Slot(t.root) && t.Slot(f) <= t.Slot(b)
            && t.AncestorAt(b, t.Slot(f)) == f && t.AncestorAt(b, t.Slot(f) - 1) == t.parent[f]
            && t.Slot(t.parent[f]) == t.Slot(f) - 1
  {
    hide Tree.MainChildren, Tree.Partitioned, Tree.Grounded, Tree.Single, Tree.EntriesRight;
    UpperFork(t, a, b);
    ParentOfAncestor(t, b, t.Slot(ForkOf(t, b)) - 1);
  }

  /** If b's chain leaves a's chain, a itself is not below the fork. */
  lemma ForkBelow(t: Tree, a: Id, b: Id, q: Id, s: nat)
    requires t.Consistent() && Cursors(t, a, b) && t.Slot(t.root) < s <= t.Slot(b)
    requires q == t.AncestorAt(b, s - 1) && t.On(q, t.chain[a]) && t.Slot(q) == s - 1
    ensures s <= t.Slot(a) && t.AncestorAt(a, s - 1) == q
  {
    hide Tree.MainChildren, Tree.Partitioned, Tree.Grounded, Tree.Single, Tree.EntriesRight;
    if t.Slot(a) < s {
      SameChainAncestor(t, a, q);
      AncestorTwice(t, b, s - 1, t.Slot(a));
    } else {
      SameChainAncestor(t, q, a);
    }
  }

  /** The commitment of a chain at a slot above the forking point is found if it is listed. */
  lemma FoundIfListed(t: Tree, x: ChainId, d: Id)
    requires t.Consistent() && d in t.live && t.On(d, x) && x in t.forkingPoint && t.Slot(t.forkingPoint[x]) < t.Slot(d)
    requires t.IsMain(d)
    ensures Lookup(t, x, t.Slot(d)) == if t.Unlisted(d) then None else Some(d)
  {
    hide Tree.Linked, Tree.MainChildren, Tree.Partitioned, Tree.Grounded, Tree.Single;
    if t.Slot(d) in t.index[x] {
      SameSlot(t, d, t.index[x][t.Slot(d)]);
    }
  }

  /** A commitment whose parent is on the same chain continues it, and no sibling does. */
  lemma Continues(t: Tree, d: Id, f: Id)
    requires t.Chained() && d in t.parent && f in t.parent && t.parent[d] == t.parent[f] && d != f
    requires d in t.chain && t.On(t.parent[d], t.chain[d])
    ensures t.IsMain(d) && !t.Unlisted(f)
    ensures t.chain[d] in t.forkingPoint && t.Slot(t.forkingPoint[t.chain[d]]) < t.Slot(d)
  {
    assert t.PartitionedAt(d);
  }

  /**
   If b's chain leaves a's chain, the commitment of a's chain at the fork is the
   other divergence point. It is the smaller one if it is not found.
   */
  lemma ForkFromChain(t: Tree, a: Id, b: Id, f: Id)
    requires t.Consistent() && Cursors(t, a, b) && f == ForkOf(t, b) && t.Slot(ForkOf(t, a)) <= t.Slot(f)
    requires f in t.parent && t.On(t.parent[f], t.chain[a])
    ensures var d := Lookup(t, t.chain[a], t.Slot(f));
            && LessBelow(t, a, b) == (d.None? || d.value < f)
            && LessBelow(t, b, a) == (d.Some? && f < d.value)
  {
    hide Tree.MainChildren, Tree.Partitioned, Tree.Grounded, Tree.Single, Tree.EntriesRight, Lookup;
    ForkParent(t, a, b);
    ForkBelow(t, a, b, t.parent[f], t.Slot(f));
    UpperFork(t, a, b);
    ChainDown(t, a, t.Slot(f));
    DivergenceAt(t, a, b, t.Slot(f));
    var d := t.AncestorAt(a, t.Slot(f));
    Continues(t, d, f);
    FoundIfListed(t, t.chain[a], d);
  }

  /** Otherwise a does not meet b just below b's fork. */
  lemma MeetingExcluded(t: Tree, a: Id, b: Id, f: Id)
    requires t.Consistent() && Cursors(t, a, b) && f == ForkOf(t, b) && t.Slot(ForkOf(t, a)) <= t.Slot(f)
    requires f in t.parent && !t.On(t.parent[f], t.chain[a])
    requires t.Slot(ForkOf(t, a)) == t.Slot(f) ==>
               ForkOf(t, a) in t.parent ==> t.parent[ForkOf(t, a)] != t.parent[f]
    ensures var m := Min(t.Slot(a), t.Slot(f) - 1); t.AncestorAt(a, m) != t.AncestorAt(b, m)
  {
    hide Tree.MainChildren, Tree.Partitioned, Tree.Grounded, Tree.Single, Tree.EntriesRight;
    ForkParent(t, a, b);
    if t.Slot(a) < t.Slot(f) {
    } else if t.Slot(ForkOf(t, a)) < t.Slot(f) {
      ChainDown(t, a, t.Slot(f) - 1);
    } else {
      assert Cursors(t, b, a);
      ForkParent(t, b, a);
    }
  }

  /** So the parent of the forking point can stand in for b. */
  lemma ForkFromElsewhere(t: Tree, a: Id, b: Id, f: Id)
    requires t.Consistent() && Cursors(t, a, b) && f == ForkOf(t, b) && t.Slot(ForkOf(t, a)) <= t.Slot(f)
    requires f in t.parent && !t.On(t.parent[f], t.chain[a])
    requires t.Slot(ForkOf(t, a)) == t.Slot(f) ==>
               ForkOf(t, a) in t.parent ==> t.parent[ForkOf(t, a)] != t.parent[f]
    ensures Cursors(t, a, t.parent[f])
    ensures LessBelow(t, a, t.parent[f]) == LessBelow(t, a, b) && LessBelow(t, t.parent[f], a) == LessBelow(t, b, a)
  {
    hide Tree.MainChildren, Tree.Partitioned, Tree.Grounded, Tree.Single, Tree.EntriesRight, Tree.Solid, Tree.AncestorAt, LessBelow, ForkOf;
    ForkParent(t, a, b);
    MeetingExcluded(t, a, b, f);
    Replace(t, a, b, t.Slot(f) - 1);
  }

  // ----- commitments that wait for their ancestors

  /** Following parent links from c ends above the root slot: a parent is not known yet. */
  predicate Waits(t: Tree, c: Id)
    requires t.Known() && t.Linked() && c in t.live
    decreases t.Slot(c)
  {
    if c in t.parent then Waits(t, t.parent[c]) else t.Slot(c) > t.Slot(t.root)
  }

  lemma {:induction false} SolidDoesNotWait(t: Tree, c: Id)
    requires t.Known() && t.Linked() && c in t.live && t.Solid(c)
    ensures !Waits(t, c)
    decreases t.Slot(c)
  {
    if c in t.parent {
      assert t.Slot(t.root) <= t.Slot(t.parent[c]);
      SolidDoesNotWait(t, t.parent[c]);
    }
  }

  lemma {:induction false} AncestorWaits(t: Tree, c: Id, s: nat)
    requires t.Known() && t.Linked() && c in t.live && Waits(t, c)
    ensures Waits(t, t.AncestorAt(c, s))
    decreases t.Slot(c)
  {
    if c in t.parent && s < t.Slot(c) {
      AncestorWaits(t, t.parent[c], s);
    }
  }

  /** A waiting and a solid commitment are never on one chain. */
  lemma WaitingApart(t: Tree, a: Id, b: Id)
    requires t.Consistent() && a in t.chain && b in t.chain && a in t.live && Waits(t, a) && SolidId(t, b)
    ensures t.chain[a] != t.chain[b]
  {
    hide Tree.MainChildren, Tree.Partitioned, Tree.Single, Tree.EntriesRight;
    if t.chain[a] == t.chain[b] {
      if t.Slot(a) <= t.Slot(b) {
        SameChainAncestor(t, a, b);
        AncestorSlot(t, b, t.Slot(a));
        SolidDoesNotWait(t, a);
      } else {
        SameChainAncestor(t, b, a);
        AncestorWaits(t, a, t.Slot(b));
        SolidDoesNotWait(t, b);
      }
    }
  }

  /** The forking point of a waiting commitment's chain has a parent, which waits as well. */
  lemma {:induction false} WaitingFork(t: Tree, a: Id)
    requires t.Consistent() && a in t.chain && a in t.live && Waits(t, a)
    ensures var f := ForkOf(t, a); f in t.parent && Waits(t, t.parent[f])
    decreases t.Slot(a)
  {
    hide Tree.MainChildren, Tree.Single, Tree.EntriesRight;
    assert t.PartitionedAt(a);
    if t.IsMain(a) {
      WaitingFork(t, t.parent[a]);
    }
  }

  /** A cursor on the chain of a waiting commitment a, and one on the chain of a solid commitment b. */
  predicate Mixed(t: Tree, a: Id, b: Id, waiting: Option<ChainId>, solid: Option<ChainId>)
    requires t.Consistent()
  {
    a in t.live && Waits(t, a) && waiting == t.ChainOf(a) && SolidId(t, b) && b in t.chain && solid == Some(t.chain[b])
  }

  lemma MixedStart(t: Tree, a: Id, b: Id)
    requires t.Consistent() && a in t.live && Waits(t, a) && SolidId(t, b)
    ensures Mixed(t, a, b, t.ChainOf(a), t.ChainOf(b)) && t.ChainOf(a) != t.ChainOf(b)
  {
    hide Tree.MainChildren, Tree.Partitioned, Tree.Grounded, Tree.Single, Tree.EntriesRight;
    SolidOnChain(t, b);
    if a in t.chain {
      WaitingApart(t, a, b);
    }
  }

  /** Moving the waiting cursor. */
  lemma MixedDown(t: Tree, a: Id, b: Id)
    requires t.Consistent() && a in t.live && Waits(t, a) && SolidId(t, b) && a in t.chain && b in t.chain
    ensures var f := ForkOf(t, a);
            && f in t.parent && Mixed(t, t.parent[f], b, t.ParentChain(t.chain[a]), t.ChainOf(b))
            && t.ParentChain(t.chain[a]) != t.ChainOf(b)
  {
    hide Tree.MainChildren, Tree.Partitioned, Tree.Grounded, Tree.Single, Tree.EntriesRight;
    WaitingFork(t, a);
    MixedStart(t, t.parent[ForkOf(t, a)], b);
  }

  /** Moving the solid cursor, which has the higher forking point. */
  lemma MixedSide(t: Tree, a: Id, b: Id)
    requires t.Consistent() && a in t.live && Waits(t, a) && SolidId(t, b) && a in t.chain && b in t.chain
    requires t.Slot(ForkOf(t, a)) <= t.Slot(ForkOf(t, b))
    ensures var f, g := ForkOf(t, a), ForkOf(t, b);
            && f in t.parent && g in t.parent && t.parent[f] != t.parent[g]
            && Mixed(t, a, t.parent[g], t.ChainOf(a), t.ParentChain(t.chain[b]))
            && t.ParentChain(t.chain[b]) != t.ChainOf(a)
  {
    hide Tree.MainChildren, Tree.Partitioned, Tree.Single, Tree.EntriesRight;
    WaitingFork(t, a);
    var f, g := ForkOf(t, a), ForkOf(t, b);
    assert t.Slot(g) > t.Slot(t.root);
    ForkingPointOnChain(t, b);
    AncestorSlot(t, b, t.Slot(g));
    SolidDoesNotWait(t, t.parent[g]);
    MixedStart(t, a, t.parent[g]);
  }

  // ----- the loop

  /** What is known of the two commitments that are compared. */
  datatype Kind = BothSolid | FirstWaits | SecondWaits | Unrelated

  /** Where the loop stands: the cursors, the commitments a and b that they stand for, and the answer to come. */
  ghost predicate Comparing(
    t: Tree, kind: Kind, a: Id, b: Id, smaller: Option<ChainId>, larger: Option<ChainId>, expected: bool)
    requires t.Consistent()
  {
    match kind
    case BothSolid => Cursors(t, a, b) && smaller == t.ChainOf(a) && larger == t.ChainOf(b) && LessBelow(t, a, b) == expected
    case FirstWaits => Mixed(t, a, b, smaller, larger) && expected
    case SecondWaits => Mixed(t, b, a, larger, smaller) && !expected
    case Unrelated => true
  }

  ghost predicate IsCursor(t: Tree, x: Option<ChainId>) {
    x.Some? ==> x.value in t.forkingPoint
  }

  lemma CompareStart(t: Tree, c: Id, o: Id) returns (kind: Kind, a: Id, b: Id, expected: bool)
    requires t.Consistent() && c in t.live && o in t.live && t.ChainOf(c) != t.ChainOf(o)
    ensures Comparing(t, kind, a, b, t.ChainOf(c), t.ChainOf(o), expected)
    ensures IsCursor(t, t.ChainOf(c)) && IsCursor(t, t.ChainOf(o))
    ensures t.Solid(c) && t.Solid(o) ==> kind == BothSolid && expected == LessBelow(t, Tip(t, c), Tip(t, o))
    ensures Waits(t, c) && t.Solid(o) ==> kind == FirstWaits && expected
    ensures t.Solid(c) && Waits(t, o) ==> kind == SecondWaits && !expected
  {
    hide Tree.MainChildren, Tree.Partitioned, Tree.Grounded, Tree.Single, Tree.EntriesRight, LessBelow, Tip, Mixed;
    ChainHasFork(t, c);
    ChainHasFork(t, o);
    kind, a, b, expected := Unrelated, c, o, false;
    if t.Solid(c) {
      SolidDoesNotWait(t, c);
    }
    if t.Solid(o) {
      SolidDoesNotWait(t, o);
    }
    if t.Solid(c) && t.Solid(o) {
      SolidOnChain(t, c);
      SolidOnChain(t, o);
      TipOnChain(t, c);
      TipOnChain(t, o);
      TipsApart(t, Tip(t, c), Tip(t, o));
      kind, a, b, expected := BothSolid, Tip(t, c), Tip(t, o), LessBelow(t, Tip(t, c), Tip(t, o));
    } else if Waits(t, c) && t.Solid(o) {
      MixedStart(t, c, o);
      kind, expected := FirstWaits, true;
    } else if t.Solid(c) && Waits(t, o) {
      MixedStart(t, o, c);
      kind, expected := SecondWaits, false;
    }
  }

  lemma SiblingsDecide(t: Tree, kind: Kind, a: Id, b: Id, x: ChainId, y: ChainId, expected: bool)
    requires t.Consistent() && Comparing(t, kind, a, b, Some(x), Some(y), expected) && x in t.forkingPoint && y in t.forkingPoint
    requires t.Slot(t.forkingPoint[y]) == t.Slot(t.forkingPoint[x])
    requires ParentOf(t, t.forkingPoint[y]) == ParentOf(t, t.forkingPoint[x])
    ensures !kind.Unrelated? ==> expected == (t.forkingPoint[y] > t.forkingPoint[x])
  {
    hide Tree.MainChildren, Tree.Partitioned, Tree.Grounded, Tree.Single, Tree.EntriesRight, LessBelow;
    match kind
    case BothSolid => SiblingForks(t, a, b);
    case FirstWaits => MixedSide(t, a, b);
    case SecondWaits => MixedSide(t, b, a);
    case Unrelated =>
  }

  /** The cursor y of the larger commitment moves, because it has the higher forking point. */
  lemma LargerMoves(t: Tree, kind: Kind, a: Id, b: Id, x: ChainId, y: ChainId, expected: bool) returns (b': Id)
    requires t.Consistent() && Comparing(t, kind, a, b, Some(x), Some(y), expected) && x in t.forkingPoint && y in t.forkingPoint
    requires t.Slot(t.forkingPoint[y]) > t.Slot(t.forkingPoint[x])
    ensures IsCursor(t, t.ParentChain(y)) && Fork(t, t.ParentChain(y)) < Fork(t, Some(y))
    ensures t.ParentChain(y) != Some(x) ==> Comparing(t, kind, a, b', Some(x), t.ParentChain(y), expected)
    ensures t.ParentChain(y) == Some(x) && !kind.Unrelated? ==>
              var d := Lookup(t, x, t.Slot(t.forkingPoint[y]));
              expected == (d.None? || t.forkingPoint[y] > d.value)
  {
    hide Tree.MainChildren, Tree.Partitioned, Tree.Grounded, Tree.Single, Tree.EntriesRight, LessBelow, Lookup;
    ParentChainLower(t, y);
    b' := b;
    match kind
    case BothSolid =>
      UpperFork(t, a, b);
      var f := t.forkingPoint[y];
      if t.ParentChain(y) == Some(x) {
        ForkFromChain(t, a, b, f);
      } else {
        ForkFromElsewhere(t, a, b, f);
        b' := t.parent[f];
      }
    case FirstWaits =>
      MixedSide(t, a, b);
      b' := t.parent[t.forkingPoint[y]];
    case SecondWaits =>
      MixedDown(t, b, a);
      b' := t.parent[t.forkingPoint[y]];
    case Unrelated =>
  }

  /** The cursor x of the smaller commitment moves. */
  lemma SmallerMoves(t: Tree, kind: Kind, a: Id, b: Id, x: ChainId, y: ChainId, expected: bool) returns (a': Id)
    requires t.Consistent() && Comparing(t, kind, a, b, Some(x), Some(y), expected) && x in t.forkingPoint && y in t.forkingPoint
    requires t.Slot(t.forkingPoint[y]) <= t.Slot(t.forkingPoint[x])
    requires !(t.Slot(t.forkingPoint[y]) == t.Slot(t.forkingPoint[x])
               && ParentOf(t, t.forkingPoint[y]) == ParentOf(t, t.forkingPoint[x]))
    ensures IsCursor(t, t.ParentChain(x)) && Fork(t, t.ParentChain(x)) < Fork(t, Some(x))
    ensures t.ParentChain(x) != Some(y) ==> Comparing(t, kind, a', b, t.ParentChain(x), Some(y), expected)
    ensures t.ParentChain(x) == Some(y) && !kind.Unrelated? ==>
              var d := Lookup(t, y, t.Slot(t.forkingPoint[x]));
              expected == (d.Some? && d.value > t.forkingPoint[x])
  {
    hide Tree.MainChildren, Tree.Partitioned, Tree.Grounded, Tree.Single, Tree.EntriesRight, LessBelow, Lookup;
    ParentChainLower(t, x);
    a' := a;
    match kind
    case BothSolid =>
      CursorsSwap(t, a, b);
      UpperFork(t, b, a);
      var f := t.forkingPoint[x];
      if t.ParentChain(x) == Some(y) {
        ForkFromChain(t, b, a, f);
      } else {
        ForkFromElsewhere(t, b, a, f);
        a' := t.parent[f];
        CursorsSwap(t, b, a');
      }
    case FirstWaits =>
      MixedDown(t, a, b);
      a' := t.parent[t.forkingPoint[x]];
    case SecondWaits =>
      MixedSide(t, b, a);
      a' := t.parent[t.forkingPoint[x]];
    case Unrelated =>
  }

  /** A cursor that has reached nil belongs to the smaller commitment. */
  lemma NilDecides(t: Tree, kind: Kind, a: Id, b: Id, smaller: Option<ChainId>, larger: Option<ChainId>, expected: bool)
    requires t.Consistent() && Comparing(t, kind, a, b, smaller, larger, expected) && !kind.Unrelated?
    ensures larger.None? ==> !expected
    ensures larger.Some? && smaller.None? ==> expected
  {
    hide Tree.Chained, Tree.Single, Tree.EntriesRight, LessBelow, Waits, SolidId, Apart;
  }

  /**
   `Commitment.Less`, whether or not slot indexes lack entries. For two solid
   commitments on different chains the answer is the order of the tips of their
   chains. A commitment that waits for its
   ancestors is less than every solid one.
   */
  method Less(t: Tree, c: Option<Id>, other: Option<Id>) returns (r: bool)
    requires t.Consistent()
    requires c.Some? ==> c.value in t.live
    requires other.Some? ==> other.value in t.live
    ensures c == other || other.None? ==> !r
    ensures c.None? && other.Some? ==> r
    ensures c.Some? && other.Some? && t.ChainOf(c.value) == t.ChainOf(other.value) ==> !r
    ensures c.Some? && other.Some? && t.Solid(c.value) && t.Solid(other.value)
            && t.ChainOf(c.value) != t.ChainOf(other.value)
            ==> r == LessBelow(t, Tip(t, c.value), Tip(t, other.value))
    ensures c.Some? && other.Some? && Waits(t, c.value) && t.Solid(other.value) ==> r
    ensures c.Some? && other.Some? && t.Solid(c.value) && Waits(t, other.value) ==> !r
  {
    hide Tree.MainChildren, Tree.Partitioned, Tree.Grounded, Tree.Single, Tree.EntriesRight, Tree.Solid, Tree.AncestorAt, Tip, LessBelow,
         Comparing, Waits;
    if c.Some? && other.Some? {
      WaitingElsewhere(t, c.value, other.value);
    }
    if c == other {
      return false;
    } else if c.None? {
      return true;
    } else if other.None? {
      return false;
    }

    var largerChain, smallerChain := t.ChainOf(other.value), t.ChainOf(c.value);
    if largerChain == smallerChain {
      return false;
    }

    ghost var kind, a, b, expected := CompareStart(t, c.value, other.value);
    while true
      invariant smallerChain != largerChain && IsCursor(t, smallerChain) && IsCursor(t, largerChain)
      invariant Comparing(t, kind, a, b, smallerChain, largerChain, expected)
      decreases Fork(t, largerChain) + Fork(t, smallerChain)
    {
      if !kind.Unrelated? {
        NilDecides(t, kind, a, b, smallerChain, largerChain, expected);
      }
      if largerChain.None? {
        return false;
      } else if smallerChain.None? {
        return true;
      }

      var forkOfLarger, forkOfSmaller := t.forkingPoint[largerChain.value], t.forkingPoint[smallerChain.value];

      if t.Slot(forkOfLarger) == t.Slot(forkOfSmaller) && ParentOf(t, forkOfLarger) == ParentOf(t, forkOfSmaller) {
        SiblingsDecide(t, kind, a, b, smallerChain.value, largerChain.value, expected);
        return forkOfLarger > forkOfSmaller;
      }

      if t.Slot(forkOfLarger) > t.Slot(forkOfSmaller) {
        b := LargerMoves(t, kind, a, b, smallerChain.value, largerChain.value, expected);
        largerChain := t.ParentChain(largerChain.value);
        if largerChain == smallerChain {
          var divergencePoint := Commitment(t, smallerChain.value, t.Slot(forkOfLarger));
          return divergencePoint.None? || forkOfLarger > divergencePoint.value;
        }
      } else {
        a := SmallerMoves(t, kind, a, b, smallerChain.value, largerChain.value, expected);
        smallerChain := t.ParentChain(smallerChain.value);
        if smallerChain == largerChain {
          var divergencePoint := Commitment(t, largerChain.value, t.Slot(forkOfSmaller));
          return divergencePoint.Some? && divergencePoint.value > forkOfSmaller;
        }
      }
    }
  }

  lemma WaitingElsewhere(t: Tree, c: Id, o: Id)
    requires t.Consistent() && c in t.live && o in t.live
    ensures (Waits(t, c) && t.Solid(o)) || (t.Solid(c) && Waits(t, o)) ==> t.ChainOf(c) != t.ChainOf(o)
  {
    hide Tree.MainChildren, Tree.Partitioned, Tree.Grounded, Tree.Single, Tree.EntriesRight, Mixed;
    if Waits(t, c) && t.Solid(o) {
      MixedStart(t, c, o);
    } else if t.Solid(c) && Waits(t, o) {
      MixedStart(t, o, c);
    }
  }

  function ParentOf(t: Tree, c: Id): (p: Option<Id>) {
    if c in t.parent then Some(t.parent[c]) else None
  }

  /** The distance of a chain cursor from nil. */
  ghost function Fork(t: Tree, x: Option<ChainId>): (n: nat)
    requires t.Known() && (x.Some? ==> x.value in t.forkingPoint)
  {
    if x.Some? then 1 + t.Slot(t.forkingPoint[x.value]) else 0
  }

  lemma ChainHasFork(t: Tree, c: Id)
    requires t.Consistent() && c in t.live
    ensures t.ChainOf(c).Some? ==> t.ChainOf(c).value in t.forkingPoint
  {
  }
}

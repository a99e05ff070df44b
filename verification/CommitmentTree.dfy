/**
 The commitments a node knows, linked to their parents and split into chains.

 A commitment is named by its ID. Commitment IDs are compared bytewise in the
 protocol; only their total order matters here, so they are natural numbers.
 The reactive variables `Parent`, `MainChild` and `Chain` of a commitment are
 maps whose missing keys stand for nil, and so are the fields of a chain.
 */
module CommitmentTree {
  import opened Collections

  type Id = nat
  type ChainId = nat

  type uint64 = n: nat | n < 0x1_0000_0000_0000_0000

  /** The part of a commitment that its ID fixes; the cumulative weight is what its producer claims. */
  datatype Header = Header(slot: nat, previous: Id, cumulativeWeight: uint64)

  datatype Tree = Tree(
    header: map<Id, Header>,               // every commitment ever published
    live: set<Id>,                         // the ones that are not evicted
    parent: map<Id, Id>,
    mainChild: map<Id, Id>,
    chain: map<Id, ChainId>,
    forkingPoint: map<ChainId, Id>,        // may point at an evicted commitment
    index: map<ChainId, map<nat, Id>>,     // the slot index of every chain
    nextChain: ChainId,                    // the name of the next new chain
    root: Id)
  {
    function Slot(c: Id): (s: nat)
      requires c in header
    {
      header[c].slot
    }

    function ChainOf(c: Id): (x: Option<ChainId>) {
      if c in chain then Some(chain[c]) else None
    }

    predicate On(c: Id, x: ChainId) {
      c in chain && chain[c] == x
    }

    /** Is c the child that continues the chain of its parent? */
    predicate IsMain(c: Id) {
      c in parent && parent[c] in mainChild && mainChild[parent[c]] == c
    }

    /** The chain of the parent of the forking point, nil if either is unknown. */
    function ParentChain(x: ChainId): (y: Option<ChainId>)
      requires x in forkingPoint
    {
      var f := forkingPoint[x];
      if f in parent then ChainOf(parent[f]) else None
    }

    // ----- what every reachable tree satisfies

    predicate Known() {
      && live <= header.Keys
      && root in live
      && (forall c | c in live :: Slot(root) <= Slot(c))
      && (forall x | x in forkingPoint :: forkingPoint[x] in header && x < nextChain)
    }

    /** A linked commitment names its parent as previous and sits one slot above it. */
    predicate Linked()
      requires Known()
    {
      forall c | c in parent ::
        c in live && parent[c] in live && parent[c] == header[c].previous && Slot(c) == Slot(parent[c]) + 1
    }

    predicate MainChildren() {
      && (forall p | p in mainChild :: mainChild[p] in parent && parent[mainChild[p]] == p)
      && (forall c | c in parent :: parent[c] in mainChild)
    }

    predicate PartitionedAt(c: Id)
      requires c in parent
    {
      if IsMain(c) then ChainOf(c) == ChainOf(parent[c])
      else c in chain && chain[c] in forkingPoint && forkingPoint[chain[c]] == c
    }

    /** A main child is on its parent's chain, any other child starts a chain of its own. */
    predicate Partitioned() {
      forall c | c in parent :: PartitionedAt(c)
    }

    /** A chain starts at its forking point, and only at the root slot may it lack a parent. */
    predicate Grounded()
      requires Known()
    {
      && root in chain
      && chain[root] in forkingPoint
      && (Slot(forkingPoint[chain[root]]) == Slot(root) ==> forkingPoint[chain[root]] == root)
      && (forall c | c in chain ::
            && c in live
            && chain[c] in forkingPoint
            && Slot(forkingPoint[chain[c]]) <= Slot(c)
            && (c in parent || Slot(c) == Slot(root)))
    }

    /** The slot index of a chain holds exactly the commitments on that chain. */
    predicate Indexed()
      requires live <= header.Keys
    {
      && index.Keys == forkingPoint.Keys
      && (forall c | c in chain ::
            c in live && chain[c] in index && Slot(c) in index[chain[c]] && index[chain[c]][Slot(c)] == c)
      && (forall x, s | x in index && s in index[x] ::
            On(index[x][s], x) && index[x][s] in live && Slot(index[x][s]) == s)
    }

    /** What a slot index holds is on that chain, alive and of that slot. */
    predicate EntriesRight()
      requires live <= header.Keys
    {
      forall x, s | x in index && s in index[x] ::
        On(index[x][s], x) && index[x][s] in live && Slot(index[x][s]) == s
    }

    /** No chain holds two commitments of one slot. */
    predicate Single()
      requires live <= header.Keys
    {
      forall a, b | a in chain && b in chain && a in live && b in live && chain[a] == chain[b] && Slot(a) == Slot(b) :: a == b
    }

    /** Links and chains are in order, whatever the slot indexes hold. */
    predicate Chained() {
      && Known() && Linked() && MainChildren() && Partitioned() && Grounded()
      && index.Keys == forkingPoint.Keys
    }

    predicate Inv() {
      Chained() && Indexed()
    }

    /** The same up to missing entries of the slot indexes. */
    predicate Consistent() {
      Chained() && Single() && EntriesRight()
    }

    /** c continues the chain of its parent, and the slot index of that chain lacks it. */
    predicate Unlisted(c: Id)
      requires c in header
    {
      IsMain(c) && c in chain && chain[c] in index && Slot(c) !in index[chain[c]]
    }

    // ----- ancestors

    /** The ancestor-or-self of c at slot s, found by following parent links alone. */
    function AncestorAt(c: Id, s: nat): (a: Id)
      requires Known() && Linked() && c in live
      ensures a in live && Slot(a) <= Slot(c)
      decreases Slot(c)
    {
      if c in parent && s < Slot(c) then AncestorAt(parent[c], s) else c
    }

    /** Does following parent links from c end at the root? */
    predicate Solid(c: Id)
      requires Known() && Linked() && c in live
      decreases Slot(c)
    {
      c == root || (c in parent && Solid(parent[c]))
    }

    /** d is c, or is reached from c by following main children. */
    predicate OnMainPath(c: Id, d: Id)
      requires Known() && Linked() && c in live && d in live
      decreases Slot(d)
    {
      d == c || (IsMain(d) && OnMainPath(c, parent[d]))
    }

    /** The commitments above the slot of c: what a walk up the tree has left to visit. */
    ghost function Higher(c: Id): (h: set<Id>)
      requires Known() && c in live
    {
      set d | d in live && Slot(d) > Slot(c)
    }
  }

  lemma HigherShrinks(t: Tree, c: Id, d: Id)
    requires t.Known() && c in t.live && d in t.live && t.Slot(c) < t.Slot(d)
    ensures t.Higher(d) < t.Higher(c)
  {
    assert d in t.Higher(c) && d !in t.Higher(d);
  }

  /** No chain holds two commitments of one slot. */
  lemma OnePerSlot(t: Tree, a: Id, b: Id)
    requires t.Inv()
    requires a in t.chain && b in t.chain && t.chain[a] == t.chain[b] && t.Slot(a) == t.Slot(b)
    ensures a == b
  {
  }

  /** A commitment's chain has a forking point, and so has its parent chain, at a lower slot. */
  lemma ParentChainLower(t: Tree, x: ChainId)
    requires t.Chained() && x in t.forkingPoint
    ensures t.ParentChain(x).Some? ==>
              t.ParentChain(x).value in t.forkingPoint
              && t.Slot(t.forkingPoint[t.ParentChain(x).value]) < t.Slot(t.forkingPoint[x])
  {
  }

  /** Complete indexes hold the right entries, and lack none. */
  lemma InvConsistent(t: Tree)
    requires t.Inv()
    ensures t.Consistent() && forall c | c in t.chain :: c in t.header && !t.Unlisted(c)
  {
    hide Tree.Linked, Tree.MainChildren, Tree.Partitioned, Tree.Grounded;
  }

  /** Above its forking point and the root slot, a chain is closed under parents. */
  lemma StepDown(t: Tree, c: Id)
    requires t.Chained() && c in t.chain
    requires t.Slot(c) > t.Slot(t.root) && t.Slot(c) > t.Slot(t.forkingPoint[t.chain[c]])
    ensures t.IsMain(c) && t.On(t.parent[c], t.chain[c])
  {
  }

  lemma {:induction false} AncestorSlot(t: Tree, c: Id, s: nat)
    requires t.Known() && t.Linked() && c in t.live
    requires t.Solid(c) && t.Slot(t.root) <= s <= t.Slot(c)
    ensures t.Slot(t.AncestorAt(c, s)) == s && t.Solid(t.AncestorAt(c, s))
    decreases t.Slot(c)
  {
    if s < t.Slot(c) {
      AncestorSlot(t, t.parent[c], s);
    }
  }

  /** Ancestors compose. */
  lemma {:induction false} AncestorTwice(t: Tree, c: Id, s: nat, r: nat)
    requires t.Known() && t.Linked() && c in t.live && r <= s
    ensures t.AncestorAt(t.AncestorAt(c, s), r) == t.AncestorAt(c, r)
    decreases t.Slot(c)
  {
    if c in t.parent && s < t.Slot(c) {
      AncestorTwice(t, t.parent[c], s, r);
    }
  }

  /** The ancestors of a commitment down to its forking point are on its chain. */
  lemma {:induction false} ChainDown(t: Tree, c: Id, s: nat)
    requires t.Chained() && c in t.chain
    requires t.Slot(t.root) <= s <= t.Slot(c) && t.Slot(t.forkingPoint[t.chain[c]]) <= s
    ensures t.On(t.AncestorAt(c, s), t.chain[c]) && t.Slot(t.AncestorAt(c, s)) == s
    decreases t.Slot(c)
  {
    if s < t.Slot(c) {
      StepDown(t, c);
      ChainDown(t, t.parent[c], s);
    }
  }

  /** A solid commitment is on some chain. */
  lemma {:induction false} SolidOnChain(t: Tree, c: Id)
    requires t.Chained() && c in t.live && t.Solid(c)
    ensures c in t.chain
    decreases t.Slot(c)
  {
    if c != t.root {
      SolidOnChain(t, t.parent[c]);
    }
  }

  lemma SameSlot(t: Tree, a: Id, b: Id)
    requires t.live <= t.header.Keys && t.Single() && a in t.live && b in t.live
    requires a in t.chain && b in t.chain && t.chain[a] == t.chain[b] && t.Slot(a) == t.Slot(b)
    ensures a == b
  {
  }

  /** Two commitments on one chain are ancestor and descendant. */
  lemma SameChainAncestor(t: Tree, a: Id, b: Id)
    requires t.Chained() && t.Single() && a in t.chain && b in t.chain && t.chain[a] == t.chain[b]
    requires t.Slot(a) <= t.Slot(b)
    ensures t.AncestorAt(b, t.Slot(a)) == a
  {
    hide Tree.Single;
    ChainDown(t, b, t.Slot(a));
    SameSlot(t, a, t.AncestorAt(b, t.Slot(a)));
  }

  /** A commitment without a main child is the highest one of its chain. */
  lemma TipIsHighest(t: Tree, p: Id, d: Id)
    requires t.Chained() && t.Single() && p in t.chain && d in t.chain && t.chain[p] == t.chain[d]
    requires p !in t.mainChild
    ensures t.Slot(d) <= t.Slot(p)
  {
    hide Tree.Single, Tree.Partitioned;
    if t.Slot(d) > t.Slot(p) {
      var e := t.AncestorAt(d, t.Slot(p) + 1);
      ChainDown(t, d, t.Slot(p) + 1);
      StepDown(t, e);
      SameSlot(t, p, t.parent[e]);
    }
  }

  // ----- main paths

  lemma PathStart(t: Tree, c: Id)
    requires t.Known() && t.Linked() && c in t.live
    ensures t.OnMainPath(c, c)
  {
  }

  lemma {:induction false} MainPathSlot(t: Tree, c: Id, d: Id)
    requires t.Known() && t.Linked() && c in t.live && d in t.live && t.OnMainPath(c, d)
    ensures t.Slot(c) <= t.Slot(d) && t.AncestorAt(d, t.Slot(c)) == c
    decreases t.Slot(d)
  {
    if d != c {
      MainPathSlot(t, c, t.parent[d]);
    }
  }

  /** A main path carries one chain, or none. */
  lemma {:induction false} MainPathChain(t: Tree, c: Id, d: Id)
    requires t.Chained() && c in t.live && d in t.live && t.OnMainPath(c, d)
    ensures t.ChainOf(d) == t.ChainOf(c)
    decreases t.Slot(d)
  {
    if d != c {
      MainPathChain(t, c, t.parent[d]);
    }
  }

  /** From a commitment on a chain, the main path is the rest of that chain. */
  lemma {:induction false} RestOfChain(t: Tree, c: Id, d: Id)
    requires t.Chained() && t.Single() && c in t.chain && d in t.chain && t.chain[c] == t.chain[d]
    requires t.Slot(c) <= t.Slot(d)
    ensures t.OnMainPath(c, d)
    decreases t.Slot(d)
  {
    if t.Slot(c) == t.Slot(d) {
      SameSlot(t, c, d);
    } else {
      StepDown(t, d);
      RestOfChain(t, c, t.parent[d]);
    }
  }
}

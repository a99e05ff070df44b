/**
 Advancing the root: `publishRootCommitment`, followed by the eviction of every
 slot below the new root.
 */
module RootSteps {
  import opened CommitmentTree

  predicate CanMoveRoot(t: Tree, main: ChainId, r: Id) {
    t.Chained() && r in t.live && main in t.forkingPoint
  }

  /** The new root is on a chain, and is its forking point if that is at the same slot. */
  predicate Based(t: Tree, main: ChainId, r: Id)
    requires CanMoveRoot(t, main, r)
  {
    r in t.chain
    && (t.chain[r] != main && t.Slot(t.forkingPoint[t.chain[r]]) == t.Slot(r) ==> t.forkingPoint[t.chain[r]] == r)
  }

  predicate CanAdvance(t: Tree, main: ChainId, r: Id) {
    CanMoveRoot(t, main, r) && Based(t, main, r)
  }

  /** The forking point of the main chain moves up to the new root. */
  function MoveRoot(t: Tree, main: ChainId, r: Id): (u: Tree)
    requires CanMoveRoot(t, main, r)
  {
    if t.On(t.root, main) || t.On(r, main)
    then t.(root := r, forkingPoint := t.forkingPoint[main := r])
    else t.(root := r)
  }

  /** What eviction relies on: links and chains only mention live commitments. */
  predicate Evictable(t: Tree) {
    && t.live <= t.header.Keys && t.chain.Keys <= t.live && t.mainChild.Keys <= t.live
    && t.root in t.live
    && (forall x | x in t.forkingPoint :: t.forkingPoint[x] in t.header && x < t.nextChain)
    && (forall c | c in t.parent ::
          c in t.live && t.parent[c] in t.live && t.parent[c] == t.header[c].previous
          && t.Slot(c) == t.Slot(t.parent[c]) + 1)
  }

  /** The commitments of a map's domain from slot s on. */
  function KeysFrom<V>(header: map<Id, Header>, m: map<Id, V>, s: nat): (r: map<Id, V>)
    requires m.Keys <= header.Keys
  {
    map c | c in m && header[c].slot >= s :: m[c]
  }

  function ParentsFrom(header: map<Id, Header>, parent: map<Id, Id>, s: nat): (r: map<Id, Id>)
    requires forall c | c in parent :: parent[c] in header
  {
    map c | c in parent && header[parent[c]].slot >= s :: parent[c]
  }

  function SlotsFrom(entries: map<nat, Id>, s: nat): (r: map<nat, Id>) {
    map n | n in entries && n >= s :: entries[n]
  }

  function LiveFrom(header: map<Id, Header>, live: set<Id>, s: nat): (r: set<Id>)
    requires live <= header.Keys
  {
    set c | c in live && header[c].slot >= s
  }

  function IndexFrom(index: map<ChainId, map<nat, Id>>, s: nat): (r: map<ChainId, map<nat, Id>>) {
    map x | x in index :: SlotsFrom(index[x], s)
  }

  /** Everything below slot s goes; children of evicted commitments lose their parent. */
  function Evict(t: Tree, s: nat): (u: Tree)
    requires Evictable(t)
  {
    t.(live := LiveFrom(t.header, t.live, s),
       parent := ParentsFrom(t.header, t.parent, s),
       mainChild := KeysFrom(t.header, t.mainChild, s),
       chain := KeysFrom(t.header, t.chain, s),
       index := IndexFrom(t.index, s))
  }

  /** What a single slot needs to go: everything that is mentioned was published. */
  predicate Removable(t: Tree) {
    && t.live <= t.header.Keys && t.chain.Keys <= t.header.Keys && t.mainChild.Keys <= t.header.Keys
    && (forall c | c in t.parent :: t.parent[c] in t.header)
  }

  function WithoutSlot<V>(header: map<Id, Header>, m: map<Id, V>, k: nat): (r: map<Id, V>)
    requires m.Keys <= header.Keys
  {
    map c | c in m && header[c].slot != k :: m[c]
  }

  function WithoutParents(header: map<Id, Header>, parent: map<Id, Id>, k: nat): (r: map<Id, Id>)
    requires forall c | c in parent :: parent[c] in header
  {
    map c | c in parent && header[parent[c]].slot != k :: parent[c]
  }

  function WithoutEntry(index: map<ChainId, map<nat, Id>>, k: nat): (r: map<ChainId, map<nat, Id>>) {
    map x | x in index :: index[x] - {k}
  }

  /** The commitments of one slot go: they leave their chains and stop being parents. */
  function EvictSlot(t: Tree, k: nat): (u: Tree)
    requires Removable(t)
  {
    t.(live := (set c | c in t.live && t.header[c].slot != k),
       parent := WithoutParents(t.header, t.parent, k),
       mainChild := WithoutSlot(t.header, t.mainChild, k),
       chain := WithoutSlot(t.header, t.chain, k),
       index := WithoutEntry(t.index, k))
  }

  lemma EvictNothing(t: Tree)
    requires Evictable(t)
    ensures Evict(t, 0) == t
  {
    assert IndexFrom(t.index, 0) == t.index by {
      forall x | x in t.index
        ensures SlotsFrom(t.index[x], 0) == t.index[x]
      {
      }
    }
  }

  lemma IndexNext(index: map<ChainId, map<nat, Id>>, k: nat)
    ensures WithoutEntry(IndexFrom(index, k), k) == IndexFrom(index, k + 1)
  {
    forall x | x in index
      ensures SlotsFrom(index[x], k) - {k} == SlotsFrom(index[x], k + 1)
    {
    }
  }

  /** Slot by slot, eviction removes everything below a slot. */
  lemma EvictNext(t: Tree, k: nat)
    requires Evictable(t)
    ensures Removable(Evict(t, k)) && EvictSlot(Evict(t, k), k) == Evict(t, k + 1)
  {
    hide IndexFrom, WithoutEntry;
    IndexNext(t.index, k);
    var u := Evict(t, k);
    assert EvictSlot(u, k).live == Evict(t, k + 1).live;
    assert EvictSlot(u, k).parent == Evict(t, k + 1).parent;
    assert EvictSlot(u, k).mainChild == Evict(t, k + 1).mainChild;
    assert EvictSlot(u, k).chain == Evict(t, k + 1).chain;
  }

  function AdvanceRoot(t: Tree, main: ChainId, r: Id): (u: Tree)
    requires CanMoveRoot(t, main, r)
  {
    MoveRootEvictable(t, main, r);
    Evict(MoveRoot(t, main, r), t.Slot(r))
  }

  // ----- what eviction keeps

  lemma EvictLinks(t: Tree)
    requires Evictable(t)
    ensures Evict(t, t.Slot(t.root)).Known() && Evict(t, t.Slot(t.root)).Linked()
  {
  }

  lemma EvictMainChildren(t: Tree, s: nat)
    requires Evictable(t) && t.MainChildren()
    ensures Evict(t, s).MainChildren()
  {
    var u := Evict(t, s);
    forall p | p in u.mainChild
      ensures u.mainChild[p] in u.parent && u.parent[u.mainChild[p]] == p
    {
      assert t.mainChild[p] in t.parent && t.parent[t.mainChild[p]] == p;
    }
  }

  lemma EvictFindsCommitment(t: Tree, s: nat, c: Id)
    requires Evictable(t) && t.live <= t.header.Keys && t.Indexed() && c in Evict(t, s).chain
    ensures var u := Evict(t, s);
            && c in u.live && u.chain[c] in u.index && u.Slot(c) in u.index[u.chain[c]]
            && u.index[u.chain[c]][u.Slot(c)] == c
  {
    hide Evictable;
    assert t.index[t.chain[c]][t.Slot(c)] == c;
    assert Evict(t, s).index[t.chain[c]] == SlotsFrom(t.index[t.chain[c]], s);
  }

  lemma EvictEntryIsCommitment(t: Tree, s: nat, x: ChainId, n: nat)
    requires Evictable(t) && t.Indexed() && x in Evict(t, s).index && n in Evict(t, s).index[x]
    ensures var u := Evict(t, s);
            u.On(u.index[x][n], x) && u.index[x][n] in u.live && u.Slot(u.index[x][n]) == n
  {
    assert t.On(t.index[x][n], x);
  }

  lemma EvictIndexed(t: Tree, s: nat)
    requires Evictable(t) && t.Indexed()
    ensures Evict(t, s).live <= t.header.Keys && Evict(t, s).Indexed()
  {
    var u := Evict(t, s);
    forall c | c in u.chain
      ensures c in u.live && u.chain[c] in u.index && u.Slot(c) in u.index[u.chain[c]]
      ensures u.index[u.chain[c]][u.Slot(c)] == c
    {
      EvictFindsCommitment(t, s, c);
    }
    forall x, n | x in u.index && n in u.index[x]
      ensures u.On(u.index[x][n], x) && u.index[x][n] in u.live && u.Slot(u.index[x][n]) == n
    {
      EvictEntryIsCommitment(t, s, x, n);
    }
  }

  lemma EvictPartition(t: Tree, s: nat, c: Id)
    requires Evictable(t) && t.MainChildren() && c in Evict(t, s).parent && t.PartitionedAt(c)
    ensures Evict(t, s).PartitionedAt(c)
  {
  }

  // ----- what moving the root keeps

  lemma ChainedEvictable(t: Tree)
    requires t.Chained()
    ensures Evictable(t)
  {
    hide Tree.Partitioned, Tree.Indexed;
    assert forall p | p in t.mainChild :: t.parent[t.mainChild[p]] in t.live;
  }

  lemma MoveRootEvictable(t: Tree, main: ChainId, r: Id)
    requires CanMoveRoot(t, main, r)
    ensures Evictable(MoveRoot(t, main, r))
  {
    hide Tree.Chained, Tree.Indexed;
    ChainedEvictable(t);
  }

  lemma SameIndex(t: Tree, m: Tree)
    requires t.live <= t.header.Keys && t.Indexed()
    requires m.header == t.header && m.live == t.live && m.chain == t.chain && m.index == t.index
    requires m.forkingPoint.Keys == t.forkingPoint.Keys
    ensures m.Indexed()
  {
  }

  lemma MoveRootIndexed(t: Tree, main: ChainId, r: Id)
    requires CanMoveRoot(t, main, r) && t.Indexed()
    ensures MoveRoot(t, main, r).Indexed()
  {
    hide Tree.Partitioned, Tree.Grounded, Tree.MainChildren, Tree.Linked, Tree.Indexed;
    SameIndex(t, MoveRoot(t, main, r));
  }

  lemma MoveRootPartition(t: Tree, main: ChainId, r: Id, c: Id)
    requires CanMoveRoot(t, main, r) && c in t.parent && t.Slot(c) > t.Slot(r)
    ensures MoveRoot(t, main, r).PartitionedAt(c)
  {
    hide Tree.Indexed, Tree.MainChildren;
    assert t.PartitionedAt(c);
  }

  /** A commitment that is connected to the root is based. */
  lemma SolidBased(t: Tree, main: ChainId, r: Id)
    requires CanMoveRoot(t, main, r) && t.Solid(r)
    ensures Based(t, main, r)
  {
    hide Tree.Indexed, Tree.MainChildren;
    SolidOnChain(t, r);
    if r != t.root {
      assert t.PartitionedAt(r);
    }
  }

  lemma MoveRootGrounded(t: Tree, main: ChainId, r: Id, c: Id)
    requires CanMoveRoot(t, main, r) && c in t.chain && t.Slot(c) >= t.Slot(r)
    ensures var m := MoveRoot(t, main, r);
            && m.chain[c] in m.forkingPoint && m.forkingPoint[m.chain[c]] in m.header
            && m.Slot(m.forkingPoint[m.chain[c]]) <= m.Slot(c)
            && (c in t.parent || t.Slot(c) == t.Slot(r))
  {
    hide Tree.MainChildren, Tree.Partitioned, Tree.Linked;
  }

  /** Commitments are grounded once everything below the root is gone. */
  lemma EvictGrounded(m: Tree)
    requires Evictable(m) && Evict(m, m.Slot(m.root)).Known()
    requires m.root in m.chain && m.chain[m.root] in m.forkingPoint
    requires m.Slot(m.forkingPoint[m.chain[m.root]]) == m.Slot(m.root) ==> m.forkingPoint[m.chain[m.root]] == m.root
    requires forall c | c in m.chain && m.Slot(c) >= m.Slot(m.root) ::
               && m.chain[c] in m.forkingPoint && m.Slot(m.forkingPoint[m.chain[c]]) <= m.Slot(c)
               && (c in m.parent || m.Slot(c) == m.Slot(m.root))
    ensures Evict(m, m.Slot(m.root)).Grounded()
  {
  }

  lemma AdvanceGrounded(t: Tree, main: ChainId, r: Id)
    requires CanAdvance(t, main, r) && Evictable(MoveRoot(t, main, r)) && AdvanceRoot(t, main, r).Known()
    ensures AdvanceRoot(t, main, r).Grounded()
  {
    hide Evict, Tree.Known, Tree.Linked, Tree.MainChildren, Tree.Partitioned, Tree.Grounded, Tree.Indexed;
    var m := MoveRoot(t, main, r);
    MoveRootGrounded(t, main, r, r);
    forall c | c in m.chain && m.Slot(c) >= m.Slot(m.root)
      ensures m.chain[c] in m.forkingPoint && m.Slot(m.forkingPoint[m.chain[c]]) <= m.Slot(c)
      ensures c in m.parent || m.Slot(c) == m.Slot(m.root)
    {
      MoveRootGrounded(t, main, r, c);
    }
    EvictGrounded(m);
  }

  lemma AdvancePartition(t: Tree, main: ChainId, r: Id)
    requires CanMoveRoot(t, main, r) && Evictable(MoveRoot(t, main, r))
    ensures AdvanceRoot(t, main, r).Partitioned()
  {
    hide Tree.Grounded, Tree.Indexed, Tree.Partitioned, Tree.PartitionedAt;
    var u := AdvanceRoot(t, main, r);
    forall c | c in u.parent
      ensures u.PartitionedAt(c)
    {
      MoveRootPartition(t, main, r, c);
      EvictPartition(MoveRoot(t, main, r), t.Slot(r), c);
    }
    PartitionedEverywhere(u);
  }

  lemma PartitionedEverywhere(t: Tree)
    requires forall c | c in t.parent :: t.PartitionedAt(c)
    ensures t.Partitioned()
  {
  }

  lemma AdvanceInv(t: Tree, main: ChainId, r: Id)
    requires t.Inv() && CanAdvance(t, main, r)
    ensures AdvanceRoot(t, main, r).Inv()
  {
    var m, s := MoveRoot(t, main, r), t.Slot(r);
    hide Tree.Known, Tree.Linked, Tree.Partitioned, Tree.Grounded, Tree.Indexed, Evictable, Evict;
    MoveRootEvictable(t, main, r);
    MoveRootIndexed(t, main, r);
    EvictLinks(m);
    EvictMainChildren(m, s);
    EvictIndexed(m, s);
    AdvancePartition(t, main, r);
    AdvanceGrounded(t, main, r);
  }

  lemma AdvanceNeeds(t: Tree, main: ChainId, r: Id)
    requires CanMoveRoot(t, main, r) && AdvanceRoot(t, main, r).Chained()
    ensures Based(t, main, r)
  {
    hide Tree.Linked, Tree.MainChildren, Tree.Partitioned, Tree.Grounded, Evictable, Evict;
    MoveRootEvictable(t, main, r);
    EvictedRoot(MoveRoot(t, main, r));
    RootGrounded(AdvanceRoot(t, main, r));
  }

  lemma RootGrounded(t: Tree)
    requires t.Known() && t.Grounded()
    ensures t.root in t.chain && t.chain[t.root] in t.forkingPoint && t.forkingPoint[t.chain[t.root]] in t.header
    ensures t.Slot(t.forkingPoint[t.chain[t.root]]) == t.Slot(t.root) ==> t.forkingPoint[t.chain[t.root]] == t.root
  {
  }

  lemma EvictedRoot(m: Tree)
    requires Evictable(m)
    ensures var u := Evict(m, m.Slot(m.root));
            u.ChainOf(m.root) == m.ChainOf(m.root) && u.root == m.root && u.forkingPoint == m.forkingPoint && u.header == m.header
  {
  }

  /** Advancing the root keeps the invariants exactly if the new root is based. */
  lemma AdvanceIff(t: Tree, main: ChainId, r: Id)
    requires t.Inv() && CanMoveRoot(t, main, r)
    ensures AdvanceRoot(t, main, r).Inv() <==> Based(t, main, r)
  {
    hide Tree.Chained, Tree.Indexed, AdvanceRoot, Based;
    if Based(t, main, r) {
      AdvanceInv(t, main, r);
    }
    if AdvanceRoot(t, main, r).Inv() {
      AdvanceNeeds(t, main, r);
    }
  }
}

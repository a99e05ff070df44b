/**
 The flags and weights of commitments: which are attested, synced and verified,
 how much of its claimed weight each has had attested, and what that adds up to
 along a chain.
 */
module AttestedWeights {
  import opened Collections
  import opened CommitmentTree
  import opened ChainSteps
  import opened TreeSteps
  import opened ForceChain
  import opened LinkSteps
  import opened RootSteps
  import opened FreshRoot
  import opened TreeRuns
  import opened IndexFree
  import opened ReactionOrder

  datatype Status = Status(
    attestedWeight: map<Id, uint64>,   // missing: 0
    attested: set<Id>,
    synced: set<Id>,
    verified: set<Id>,
    zeroWeight: set<Id>,               // queued to be marked attested without a request
    syncing: set<Id>,                  // a warp sync response was accepted
    requestAttestations: set<ChainId>,
    startEngine: set<ChainId>,
    warpSyncMode: set<ChainId>)

  /** The tree, with the order in which commitments were linked, and the status of its commitments. */
  datatype Node = Node(tree: Tree, joined: map<Id, nat>, clock: nat, status: Status) {
    function Order(): (s: Ordered) {
      Ordered(tree, joined, clock)
    }
  }

  function NodeOf(s: Ordered, status: Status): (n: Node) {
    Node(s.tree, s.joined, s.clock, status)
  }

  // ----- derived properties

  function Attested(s: Status, c: Id): (w: uint64) {
    if c in s.attestedWeight then s.attestedWeight[c] else 0
  }

  /** The claimed weight does not fall from the parent to c. */
  predicate Rises(t: Tree, c: Id)
    requires c in t.header && c in t.parent && t.parent[c] in t.header
  {
    t.header[t.parent[c]].cumulativeWeight <= t.header[c].cumulativeWeight
  }

  /** `Weight`: what a commitment adds to its parent's claim; it stays 0 if the claim falls. */
  function Weight(t: Tree, c: Id): (w: uint64)
    requires c in t.header && (c in t.parent ==> t.parent[c] in t.header)
  {
    if c in t.parent && Rises(t, c)
    then t.header[c].cumulativeWeight - t.header[t.parent[c]].cumulativeWeight
    else 0
  }

  /** `CumulativeWeight`: the claim, once it is known not to fall. */
  function CumulativeWeight(t: Tree, c: Id): (w: uint64)
    requires c in t.header && (c in t.parent ==> t.parent[c] in t.header)
  {
    if c in t.parent && Rises(t, c) then t.header[c].cumulativeWeight else 0
  }

  /** `RequestAttestations` of a commitment. */
  predicate Requests(n: Node, c: Id) {
    && c in n.tree.parent && c in n.tree.chain
    && n.tree.chain[c] !in n.status.startEngine && n.tree.chain[c] in n.status.requestAttestations
    && n.tree.parent[c] in n.status.attested && c !in n.status.attested
  }

  /** `WarpSyncBlocks` of a commitment. */
  predicate WarpSyncs(n: Node, c: Id) {
    && c in n.tree.parent && c in n.tree.chain
    && n.tree.chain[c] in n.status.warpSyncMode
    && n.tree.parent[c] in n.status.synced && c !in n.status.synced
  }

  // ----- steps

  datatype Event =
    | TreeEvent(action: Action)
    | EngineCommits(id: Id, target: ChainId)           // publishEngineCommitments, one slot
    | AttestationsVerified(id: Id, seats: uint64)      // processResponse with a verified response
    | QueueZeroWeight(id: Id)
    | MarkZeroWeight(id: Id)
    | WarpSyncAccepted(id: Id)
    | WarpSyncDone(id: Id)
    | SetChainFlags(requestAttestations: set<ChainId>, startEngine: set<ChainId>, warpSyncMode: set<ChainId>)

  predicate Possible(n: Node, e: Event) {
    n.tree.Consistent() &&
    match e
    // an engine's own commitments go through EngineCommits
    case TreeEvent(a) => Applicable(n.tree, a) && !a.LinkFromEngine?
    // an engine commits slot by slot, so the parent was committed and published before
    case EngineCommits(c, target) =>
      c in n.tree.header && n.tree.header[c].previous in n.status.verified
      && (CanLink(n.tree, c) || (c in n.tree.live && c in n.tree.parent))
    case AttestationsVerified(c, seats) =>
      c in n.tree.live && c in n.tree.header && (c in n.tree.parent ==> n.tree.parent[c] in n.tree.header)
      && seats <= Weight(n.tree, c)
    case QueueZeroWeight(c) =>
      c in n.tree.header && (c in n.tree.parent ==> n.tree.parent[c] in n.tree.header)
      && Requests(n, c) && CumulativeWeight(n.tree, c) == 0
    case MarkZeroWeight(c) => c in n.status.zeroWeight
    case WarpSyncAccepted(c) => WarpSyncs(n, c)
    case WarpSyncDone(c) => c in n.status.syncing
    // an engine that was started stays started
    case SetChainFlags(r, s, w) => n.status.startEngine <= s
  }

  /** `IsVerified.Set(true)`, and with it attested and synced. */
  function Verify(s: Status, c: Id): (r: Status) {
    s.(verified := s.verified + {c}, attested := s.attested + {c}, synced := s.synced + {c})
  }

  /** `AttestedWeight` never falls: setting it takes the maximum. */
  function Attest(s: Status, c: Id, w: uint64): (r: Status) {
    s.(attestedWeight := s.attestedWeight[c := if Attested(s, c) < w then w else Attested(s, c)])
  }

  function EngineTree(t: Tree, c: Id, target: ChainId): (u: Tree)
    requires t.Chained() && c in t.header && (CanLink(t, c) || (c in t.live && c in t.parent))
  {
    if CanLink(t, c) then LinkForced(t, c, target) else Force(t, c, target)
  }

  /** What forcing and linking do for a commitment of an engine, whether or not it is linked already. */
  function EngineAction(t: Tree, c: Id, target: ChainId): (a: Action) {
    if CanLink(t, c) then LinkFromEngine(c, target) else ForceOnto(c, target)
  }

  function Next(n: Node, e: Event): (m: Node)
    requires Possible(n, e)
  {
    var t, s := n.tree, n.status;
    match e
    case TreeEvent(a) =>
      NodeOf(Do(n.Order(), a), if a.MoveRootTo? || a.EnterRootTo? then Verify(s, a.id) else s)
    case EngineCommits(c, target) =>
      EngineShape(n.Order(), c, target);
      var r := Do(n.Order(), EngineAction(t, c, target));
      NodeOf(r, Verify(Attest(s, c, Weight(r.tree, c)), c))
    case AttestationsVerified(c, seats) =>
      if !Requests(n, c) then n
      else
        var r := Attest(s, c, seats);
        n.(status := if seats >= Attested(s, c) then r.(attested := r.attested + {c}) else r)
    case QueueZeroWeight(c) => n.(status := s.(zeroWeight := s.zeroWeight + {c}))
    case MarkZeroWeight(c) => n.(status := s.(attested := s.attested + {c}))
    case WarpSyncAccepted(c) => n.(status := s.(syncing := s.syncing + {c}))
    case WarpSyncDone(c) => n.(status := s.(synced := s.synced + {c}))
    case SetChainFlags(r, g, w) => n.(status := s.(requestAttestations := r, startEngine := g, warpSyncMode := w))
  }

  // ----- how the tree steps change the links

  lemma PromoteShape(t: Tree, c: Id)
    requires Promotable(t, c)
    ensures var u := Promote(t, c); u.header == t.header && u.live == t.live && u.root == t.root && u.parent == t.parent
  {
  }

  lemma SpawnShape(t: Tree, c: Id)
    requires t.Known() && t.Linked() && t.MainChildren() && Indexable(t) && c in t.live
    ensures var u := Spawn(t, c); u.header == t.header && u.live == t.live && u.root == t.root && u.parent == t.parent
  {
  }

  lemma LinkShape(t: Tree, c: Id)
    requires t.Chained() && CanLink(t, c)
    ensures var u := Link(t, c); u.header == t.header && u.live == t.live && u.root == t.root
    ensures Link(t, c).parent == t.parent[c := t.header[c].previous]
  {
    hide Tree.Chained, Tree.Single, Tree.EntriesRight, Tree.Known, Tree.Linked, Tree.MainChildren, Indexable, Promotable, Spawn, Promote;
    LinkPromotable(t, c);
    if t.header[c].previous in t.mainChild {
      SpawnShape(WithParent(t, c), c);
    } else if t.header[c].previous in t.chain {
      PromoteShape(WithParent(t, c), c);
    }
  }

  lemma EngineTreeShape(t: Tree, c: Id, target: ChainId)
    requires t.Chained() && c in t.header && (CanLink(t, c) || (c in t.live && c in t.parent))
    ensures var u := EngineTree(t, c, target); u.header == t.header && u.live == t.live && u.root == t.root
    ensures EngineTree(t, c, target).parent == t.parent[c := t.header[c].previous]
    ensures t.header[c].previous in t.header
  {
    hide Tree.MainChildren, Tree.Partitioned, Tree.Grounded, Tree.Single, Tree.EntriesRight;
    assert c in t.parent ==> t.parent[c] == t.header[c].previous;
    assert t.header[c].previous in t.header;
    if CanLink(t, c) {
      LinkPromotable(t, c);
      if t.ChainOf(t.header[c].previous) == Some(target) {
        PromoteShape(WithParent(t, c), c);
      } else {
        LinkShape(t, c);
      }
    } else if Force(t, c, target) != t {
      ForcePromotable(t, c);
      PromoteShape(t, c);
    }
  }

  lemma ForceShape(t: Tree, c: Id, target: ChainId)
    requires t.Chained() && c in t.live
    ensures var u := Force(t, c, target);
            u.header == t.header && u.live == t.live && u.root == t.root && u.parent == t.parent
  {
    hide Tree.Chained, Tree.Single, Tree.EntriesRight, Promote;
    if Force(t, c, target) != t {
      ForcePromotable(t, c);
      PromoteShape(t, c);
    }
  }

  /** The order of reactions does not touch the links. */
  lemma ForceInOrderShape(s: Ordered, c: Id, target: ChainId)
    requires s.tree.Chained() && c in s.tree.live
    ensures var t, u := s.tree, ForceInOrder(s, c, target);
            u.header == t.header && u.live == t.live && u.root == t.root && u.parent == t.parent
  {
    hide Tree.Chained, Force, ForceInOrder;
    ForceShape(s.tree, c, target);
    ForceInOrderAlike(s, c, target);
  }

  lemma EngineShape(s: Ordered, c: Id, target: ChainId)
    requires s.tree.Chained() && c in s.tree.header && (CanLink(s.tree, c) || (c in s.tree.live && c in s.tree.parent))
    ensures Applicable(s.tree, EngineAction(s.tree, c, target)) && s.tree.header[c].previous in s.tree.header
    ensures var t, u := s.tree, Do(s, EngineAction(s.tree, c, target)).tree;
            && u.header == t.header && u.live == t.live && u.root == t.root
            && u.parent == t.parent[c := t.header[c].previous]
  {
    hide Tree.MainChildren, Tree.Partitioned, Tree.Grounded, ForceInOrder, LinkForced, Force;
    EngineTreeShape(s.tree, c, target);
    if !CanLink(s.tree, c) {
      ForceInOrderShape(s, c, target);
      SameParents(s.tree.parent, c, s.tree.header[c].previous);
    }
  }

  lemma AdvanceShape(t: Tree, main: ChainId, r: Id)
    requires CanMoveRoot(t, main, r)
    ensures var u := AdvanceRoot(t, main, r);
            && u.header == t.header && u.root == r
            && u.live == LiveFrom(t.header, t.live, t.Slot(r))
            && u.parent == ParentsFrom(t.header, t.parent, t.Slot(r))
  {
    hide Tree.MainChildren, Tree.Partitioned, Tree.Grounded, Tree.Single, Tree.EntriesRight, Evictable;
    MoveRootEvictable(t, main, r);
  }

  // ----- what every reachable node satisfies

  /** Flags are raised for published commitments only, and verified ones have all three. */
  predicate Recorded(n: Node) {
    && n.status.attested <= n.tree.header.Keys && n.status.synced <= n.tree.header.Keys
    && n.status.zeroWeight <= n.tree.header.Keys && n.status.syncing <= n.tree.header.Keys
    && n.status.attestedWeight.Keys <= n.tree.header.Keys
    && n.tree.root in n.status.verified
    && n.status.verified <= n.status.attested && n.status.verified <= n.status.synced
  }

  /** Attested, synced and verified are closed under parents, and work in progress is above them. */
  predicate Closed(n: Node) {
    forall c | c in n.tree.parent ::
      var p := n.tree.parent[c];
      && (c in n.status.attested ==> p in n.status.attested)
      && (c in n.status.synced ==> p in n.status.synced)
      && (c in n.status.verified ==> p in n.status.verified)
      && (c in n.status.zeroWeight ==> p in n.status.attested)
      && (c in n.status.syncing ==> p in n.status.synced)
  }

  /** Nothing has happened yet to a commitment that still waits for its parent. */
  predicate Untouched(s: Status, c: Id) {
    c !in s.attested && c !in s.synced && c !in s.verified && c !in s.zeroWeight && c !in s.syncing && Attested(s, c) == 0
  }

  predicate Waiting(n: Node)
    requires n.tree.Known()
  {
    forall c | c in n.tree.live && c !in n.tree.parent && n.tree.Slot(c) > n.tree.Slot(n.tree.root) ::
      Untouched(n.status, c)
  }

  /** No commitment has more weight attested than it claims. */
  predicate Bounded(n: Node)
    requires n.tree.Known() && n.tree.Linked()
  {
    forall c | c in n.tree.parent :: Attested(n.status, c) <= Weight(n.tree, c)
  }

  predicate NodeInv(n: Node) {
    n.tree.Consistent() && Recorded(n) && Closed(n) && Waiting(n) && Bounded(n)
  }

  lemma TreeStaysConsistent(n: Node, e: Event)
    requires Possible(n, e)
    ensures Next(n, e).tree.Consistent()
  {
    hide Tree.Consistent, Do;
    match e
    case TreeEvent(a) => DoConsistent(n.Order(), a);
    case EngineCommits(c, target) => EngineConsistent(n.Order(), c, target);
    case _ =>
  }

  lemma EngineConsistent(s: Ordered, c: Id, target: ChainId)
    requires s.tree.Consistent() && c in s.tree.header && (CanLink(s.tree, c) || (c in s.tree.live && c in s.tree.parent))
    ensures Applicable(s.tree, EngineAction(s.tree, c, target))
    ensures Do(s, EngineAction(s.tree, c, target)).tree.Consistent()
  {
    hide Do, Tree.Known, Tree.Linked, Tree.MainChildren, Tree.Partitioned, Tree.Grounded, Tree.Single, Tree.EntriesRight;
    EngineShape(s, c, target);
    DoConsistent(s, EngineAction(s.tree, c, target));
  }

  // ----- every event keeps it

  lemma StatusOnly(n: Node, m: Node)
    requires NodeInv(n) && m.tree.Consistent()
    requires m.tree.header == n.tree.header && m.tree.live == n.tree.live && m.tree.root == n.tree.root
    requires m.tree.parent == n.tree.parent && m.status == n.status
    ensures NodeInv(m)
  {
    hide Tree.Partitioned, Tree.Grounded, Tree.Single, Tree.EntriesRight, Tree.MainChildren;
  }

  lemma PublishNode(n: Node, c: Id, h: Header)
    requires NodeInv(n) && CanPublish(n.tree, c, h) && Publish(n.tree, c, h).Consistent()
    ensures NodeInv(n.(tree := Publish(n.tree, c, h)))
  {
    hide Tree.Partitioned, Tree.Grounded, Tree.Single, Tree.EntriesRight, Tree.MainChildren;
  }

  lemma LinkNode(n: Node, c: Id, u: Tree)
    requires NodeInv(n) && CanLink(n.tree, c) && u.Consistent()
    requires u.header == n.tree.header && u.live == n.tree.live && u.root == n.tree.root
    requires u.parent == n.tree.parent[c := n.tree.header[c].previous]
    ensures NodeInv(n.(tree := u)) && Untouched(n.status, c)
  {
    hide Tree.Partitioned, Tree.Grounded, Tree.Single, Tree.EntriesRight, Tree.MainChildren;
    assert Untouched(n.status, c);
  }

  /** u has what is left of the tree of n when r becomes the root. */
  predicate Rooted(n: Node, u: Tree, r: Id) {
    && n.tree.Known() && n.tree.Linked() && r in n.tree.live && u.Known() && u.Linked() && u.header == n.tree.header && u.root == r
    && u.live == LiveFrom(n.tree.header, n.tree.live, n.tree.Slot(r))
    && u.parent == ParentsFrom(n.tree.header, n.tree.parent, n.tree.Slot(r))
  }

  lemma RootClosed(n: Node, u: Tree, r: Id)
    requires Rooted(n, u, r) && Recorded(n) && Closed(n)
    ensures Recorded(n.(tree := u, status := Verify(n.status, r))) && Closed(n.(tree := u, status := Verify(n.status, r)))
  {
  }

  lemma RootWaiting(n: Node, u: Tree, r: Id)
    requires Rooted(n, u, r) && Waiting(n)
    ensures Waiting(n.(tree := u, status := Verify(n.status, r)))
  {
    forall c | c in u.live && c !in u.parent && u.Slot(c) > u.Slot(u.root)
      ensures Untouched(Verify(n.status, r), c)
    {
      assert c !in n.tree.parent;
      assert Untouched(n.status, c);
    }
  }

  lemma RootBounded(n: Node, u: Tree, r: Id)
    requires Rooted(n, u, r) && Bounded(n)
    ensures Bounded(n.(tree := u, status := Verify(n.status, r)))
  {
    forall c | c in u.parent
      ensures Attested(Verify(n.status, r), c) <= Weight(u, c)
    {
      assert Attested(n.status, c) <= Weight(n.tree, c);
    }
  }

  lemma RootNode(n: Node, u: Tree, r: Id)
    requires NodeInv(n) && u.Consistent() && Rooted(n, u, r)
    ensures NodeInv(n.(tree := u, status := Verify(n.status, r)))
  {
    hide Rooted, Recorded, Closed, Waiting, Bounded, Tree.Partitioned, Tree.Grounded, Tree.Single, Tree.EntriesRight, Tree.MainChildren;
    RootClosed(n, u, r);
    RootWaiting(n, u, r);
    RootBounded(n, u, r);
  }

  lemma AdvanceNode(n: Node, main: ChainId, r: Id)
    requires NodeInv(n) && CanAdvance(n.tree, main, r) && AdvanceRoot(n.tree, main, r).Consistent()
    ensures NodeInv(n.(tree := AdvanceRoot(n.tree, main, r), status := Verify(n.status, r)))
  {
    hide Tree.Partitioned, Tree.Grounded, Tree.Single, Tree.EntriesRight, Tree.MainChildren, AdvanceRoot, Recorded, Closed, Waiting, Bounded;
    AdvanceShape(n.tree, main, r);
    RootNode(n, AdvanceRoot(n.tree, main, r), r);
  }

  lemma EnterNode(n: Node, main: ChainId, r: Id)
    requires NodeInv(n) && CanEnterRoot(n.tree, main, r) && PublishRoot(n.tree, main, r).Consistent()
    ensures NodeInv(n.(tree := PublishRoot(n.tree, main, r), status := Verify(n.status, r)))
  {
    hide Tree.Partitioned, Tree.Grounded, Tree.Single, Tree.EntriesRight, Tree.MainChildren, PublishRoot, Recorded, Closed, Waiting, Bounded;
    PublishRootShape(n.tree, main, r);
    RootNode(n, PublishRoot(n.tree, main, r), r);
  }

  /** Raising flags and weight of one commitment whose parent is far enough. */
  lemma RaiseNode(n: Node, c: Id, s: Status)
    requires NodeInv(n) && c in n.tree.parent && Recorded(n.(status := s))
    requires n.status.attested <= s.attested <= n.status.attested + {c}
    requires n.status.synced <= s.synced <= n.status.synced + {c}
    requires n.status.verified <= s.verified <= n.status.verified + {c}
    requires s.zeroWeight <= n.status.zeroWeight + {c} && s.syncing <= n.status.syncing + {c}
    requires forall d | d != c :: Attested(s, d) == Attested(n.status, d)
    requires var p := n.tree.parent[c];
             && (c in s.attested || c in s.zeroWeight ==> p in n.status.attested)
             && (c in s.synced || c in s.syncing ==> p in n.status.synced)
             && (c in s.verified ==> p in n.status.verified)
    requires c in n.tree.header && n.tree.parent[c] in n.tree.header && Attested(s, c) <= Weight(n.tree, c)
    ensures NodeInv(n.(status := s))
  {
    hide Tree.Partitioned, Tree.Grounded, Tree.Single, Tree.EntriesRight, Tree.MainChildren;
    forall d | d in n.tree.parent
      ensures Attested(s, d) <= Weight(n.tree, d)
    {
      if d != c { assert Attested(n.status, d) <= Weight(n.tree, d); }
    }
  }

  /** Finishing queued work on a commitment. */
  lemma FinishNode(n: Node, c: Id, s: Status)
    requires NodeInv(n) && (c in n.status.zeroWeight || c in n.status.syncing)
    requires s == n.status.(attested := s.attested, synced := s.synced)
    requires s.attested == n.status.attested || (c in n.status.zeroWeight && s.attested == n.status.attested + {c})
    requires s.synced == n.status.synced || (c in n.status.syncing && s.synced == n.status.synced + {c})
    ensures NodeInv(n.(status := s))
  {
    hide Tree.Partitioned, Tree.Grounded, Tree.Single, Tree.EntriesRight, Tree.MainChildren;
    forall d | d in n.tree.live && d !in n.tree.parent && n.tree.Slot(d) > n.tree.Slot(n.tree.root)
      ensures Untouched(s, d)
    {
      assert Untouched(n.status, d);
    }
    forall d | d in n.tree.parent
      ensures Attested(s, d) <= Weight(n.tree, d)
    {
      assert Attested(n.status, d) <= Weight(n.tree, d);
    }
  }

  lemma EngineNode(n: Node, c: Id, target: ChainId)
    requires NodeInv(n) && Possible(n, EngineCommits(c, target)) && Next(n, EngineCommits(c, target)).tree.Consistent()
    ensures NodeInv(Next(n, EngineCommits(c, target)))
  {
    hide Do, Tree.Known, Tree.Linked, Tree.MainChildren, Tree.Partitioned, Tree.Grounded, Tree.Single, Tree.EntriesRight;
    hide Recorded, Closed, Waiting, Bounded;
    EngineShape(n.Order(), c, target);
    var r := Do(n.Order(), EngineAction(n.tree, c, target));
    var u, m := r.tree, NodeOf(r, n.status);
    if CanLink(n.tree, c) {
      LinkNode(n, c, u);
      StatusOnly(n.(tree := u), m);
    } else {
      EngineParent(n.tree, c);
      SameParents(n.tree.parent, c, n.tree.header[c].previous);
      StatusOnly(n, m);
    }
    EngineRaise(m, c);
  }

  lemma SameParents(parent: map<Id, Id>, c: Id, p: Id)
    requires c in parent && parent[c] == p
    ensures parent[c := p] == parent
  {
  }

  lemma EngineParent(t: Tree, c: Id)
    requires t.Chained() && c in t.parent
    ensures t.parent[c] == t.header[c].previous
  {
  }

  lemma EngineRaise(m: Node, c: Id)
    requires NodeInv(m) && c in m.tree.parent && m.tree.parent[c] in m.status.verified
    requires c in m.tree.header && m.tree.parent[c] in m.tree.header
    ensures NodeInv(m.(status := Verify(Attest(m.status, c, Weight(m.tree, c)), c)))
  {
    hide Tree.Partitioned, Tree.Grounded, Tree.Single, Tree.EntriesRight, Tree.MainChildren;
    assert Attested(m.status, c) <= Weight(m.tree, c);
    RaiseNode(m, c, Verify(Attest(m.status, c, Weight(m.tree, c)), c));
  }

  lemma TreeNode(n: Node, a: Action)
    requires NodeInv(n) && Possible(n, TreeEvent(a)) && Do(n.Order(), a).tree.Consistent()
    ensures NodeInv(Next(n, TreeEvent(a)))
  {
    hide Tree.Chained, Tree.Single, Tree.EntriesRight, Link, Force, ForceInOrder, AdvanceRoot, PublishRoot, Publish, Recorded,
         Closed, Waiting, Bounded;
    var m := Next(n, TreeEvent(a));
    match a
    case PublishCommitment(c, h) => PublishNode(n, c, h);
    case LinkParent(c) =>
      LinkShape(n.tree, c);
      LinkNode(n, c, Link(n.tree, c));
      StatusOnly(n.(tree := Link(n.tree, c)), m);
    case ForceOnto(c, target) =>
      ForceInOrderShape(n.Order(), c, target);
      StatusOnly(n, m);
    case MoveRootTo(main, r) => AdvanceNode(n, main, r);
    case EnterRootTo(main, r) => EnterNode(n, main, r);
  }

  lemma ResponseNode(n: Node, e: Event)
    requires NodeInv(n) && Possible(n, e) && (e.AttestationsVerified? || e.QueueZeroWeight? || e.WarpSyncAccepted?)
    ensures NodeInv(Next(n, e))
  {
    hide Tree.MainChildren, Tree.Partitioned, Tree.Grounded, Tree.Single, Tree.EntriesRight;
    var c := e.id;
    if c in n.tree.parent && Next(n, e) != n {
      assert Attested(n.status, c) <= Weight(n.tree, c);
      RaiseNode(n, c, Next(n, e).status);
    }
  }

  lemma FlagsNode(n: Node, s: Status)
    requires NodeInv(n)
    requires s == n.status.(requestAttestations := s.requestAttestations, startEngine := s.startEngine, warpSyncMode := s.warpSyncMode)
    ensures NodeInv(n.(status := s))
  {
    hide Tree.MainChildren, Tree.Partitioned, Tree.Grounded, Tree.Single, Tree.EntriesRight;
    forall d | d in n.tree.parent
      ensures Attested(s, d) <= Weight(n.tree, d)
    {
      assert Attested(n.status, d) <= Weight(n.tree, d);
    }
    forall d | d in n.tree.live && d !in n.tree.parent && n.tree.Slot(d) > n.tree.Slot(n.tree.root)
      ensures Untouched(s, d)
    {
      assert Untouched(n.status, d);
    }
  }

  lemma NextInv(n: Node, e: Event)
    requires NodeInv(n) && Possible(n, e)
    ensures NodeInv(Next(n, e))
  {
    hide NodeInv, Tree.Consistent, Do;
    TreeStaysConsistent(n, e);
    match e
    case TreeEvent(a) => TreeNode(n, a);
    case EngineCommits(c, target) => EngineNode(n, c, target);
    case AttestationsVerified(c, seats) => ResponseNode(n, e);
    case QueueZeroWeight(c) => ResponseNode(n, e);
    case MarkZeroWeight(c) => FinishNode(n, c, Next(n, e).status);
    case WarpSyncAccepted(c) => ResponseNode(n, e);
    case WarpSyncDone(c) => FinishNode(n, c, Next(n, e).status);
    case SetChainFlags(r, s, w) => FlagsNode(n, Next(n, e).status);
  }

  // ----- runs

  /** The engine of the first chain runs from the start. */
  function InitNode(root: Id, h: Header): (n: Node) {
    Node(Init(root, h), map[], 0, Status(map[], {root}, {root}, {root}, {}, {}, {}, {0}, {}))
  }

  lemma InitNodeInv(root: Id, h: Header)
    ensures NodeInv(InitNode(root, h))
  {
    InitInv(root, h);
    InvConsistent(Init(root, h));
  }

  ghost predicate IsNodeRun(nodes: seq<Node>, events: seq<Event>) {
    && |nodes| == |events| + 1
    && (exists root, h :: nodes[0] == InitNode(root, h))
    && (forall i | 0 <= i < |events| :: Possible(nodes[i], events[i]) && nodes[i + 1] == Next(nodes[i], events[i]))
  }

  lemma {:induction false} NodeRunInv(nodes: seq<Node>, events: seq<Event>, i: nat)
    requires IsNodeRun(nodes, events) && i < |nodes|
    ensures NodeInv(nodes[i])
    decreases i
  {
    hide NodeInv, Next, Possible, InitNode;
    if i == 0 {
      var root, h :| nodes[0] == InitNode(root, h);
      InitNodeInv(root, h);
    } else {
      NodeRunInv(nodes, events, i - 1);
      NextInv(nodes[i - 1], events[i - 1]);
    }
  }

  /** The attested weight of a commitment never falls, and no flag is ever lowered. */
  lemma NextMonotone(n: Node, e: Event, c: Id)
    requires NodeInv(n) && Possible(n, e)
    ensures Attested(n.status, c) <= Attested(Next(n, e).status, c)
    ensures n.status.attested <= Next(n, e).status.attested
    ensures n.status.synced <= Next(n, e).status.synced
    ensures n.status.verified <= Next(n, e).status.verified
  {
    hide NodeInv, Tree.Consistent, Do;
  }

  lemma {:induction false} NodeRunMonotone(nodes: seq<Node>, events: seq<Event>, i: nat, j: nat, c: Id)
    requires IsNodeRun(nodes, events) && i <= j < |nodes|
    ensures Attested(nodes[i].status, c) <= Attested(nodes[j].status, c)
    ensures c in nodes[i].status.attested ==> c in nodes[j].status.attested
    ensures c in nodes[i].status.synced ==> c in nodes[j].status.synced
    ensures c in nodes[i].status.verified ==> c in nodes[j].status.verified
    decreases j - i
  {
    hide NodeInv, Next, Possible, InitNode;
    if i < j {
      NodeRunInv(nodes, events, i);
      NextMonotone(nodes[i], events[i], c);
      NodeRunMonotone(nodes, events, i + 1, j, c);
    }
  }
}

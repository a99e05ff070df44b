/**
 Small trees on which the promises fail that do not hold in general: a claim
 that falls, a lookup and a comparison before eviction has caught up, and the
 other order of reactions when a child is promoted.
 */
module Counterexamples {
  import opened Collections
  import opened CommitmentTree
  import opened ChainSteps
  import opened TreeSteps
  import opened ForceChain
  import opened LinkSteps
  import opened RootSteps
  import opened FreshRoot
  import opened MovedRoot
  import MovedLess
  import opened TreeRuns
  import opened AttestedWeights
  import opened WeightClaims
  import opened ForkChoice
  import ForkOrder
  import IndexFree
  import opened ReactionOrder
  import EngineCommitments

  /** Commitment 1 on top of the root 0, both on chain 0; the claim falls from 10 to 4. */
  function OneChild(): (t: Tree) {
    Tree(map[0 := Header(5, 9, 10), 1 := Header(6, 0, 4)], {0, 1}, map[1 := 0], map[0 := 1],
         map[0 := 0, 1 := 0], map[0 := 0], map[0 := map[5 := 0, 6 := 1]], 1, 0)
  }

  /** Another child, 2, with a chain of its own. */
  function TwoChildren(): (t: Tree) {
    Tree(map[0 := Header(5, 9, 10), 1 := Header(6, 0, 11), 2 := Header(6, 0, 12)], {0, 1, 2}, map[1 := 0, 2 := 0], map[0 := 1],
         map[0 := 0, 1 := 0, 2 := 1], map[0 := 0, 1 := 2], map[0 := map[5 := 0, 6 := 1], 1 := map[6 := 2]], 2, 0)
  }

  lemma OneChildLinks()
    ensures var t := OneChild(); t.Known() && t.Linked() && t.MainChildren() && t.Partitioned() && t.Grounded()
  {
  }

  lemma OneChildIndexed()
    ensures OneChild().live <= OneChild().header.Keys && OneChild().Indexed()
  {
  }

  lemma OneChildInv()
    ensures OneChild().Inv() && OneChild().Solid(1)
  {
    hide Tree.Known, Tree.Linked, Tree.MainChildren, Tree.Partitioned, Tree.Grounded, Tree.Indexed;
    OneChildLinks();
    OneChildIndexed();
  }

  // ----- a claim that falls

  const GENESIS := Header(5, 9, 10)
  const FALLING := Header(6, 0, 4)

  /** 2 continues chain 0; 1, with the falling claim, starts a chain x of its own. */
  predicate Fallen(t: Tree, x: ChainId) {
    && t.Inv() && t.header == map[0 := GENESIS, 1 := FALLING, 2 := SECOND] && t.root == 0
    && t.parent == map[1 := 0, 2 := 0] && t.On(1, x) && x > 0
  }

  lemma FallingPublished(t: Tree)
    requires Siblings(t, 2, map[2 := 0], {0, 2}) && t.header == map[0 := GENESIS, 2 := SECOND]
    ensures var u := Publish(t, 1, FALLING);
            CanPublish(t, 1, FALLING) && u.Inv() && CanLink(u, 1) && u.mainChild == map[0 := 2] && u.parent == map[2 := 0]
  {
    hide Tree.MainChildren, Tree.Partitioned, Tree.Grounded, Tree.Indexed;
    PublishInv(t, 1, FALLING);
  }

  lemma FallingLinked(t: Tree)
    requires t.Inv() && CanLink(t, 1) && t.mainChild == map[0 := 2] && t.parent == map[2 := 0] && t.root == 0
    requires t.header == map[0 := GENESIS, 1 := FALLING, 2 := SECOND]
    ensures Fallen(Link(t, 1), t.nextChain)
  {
    hide Tree.Chained, Tree.Indexed, Spawn, Tree.OnMainPath, Tree.Known, Tree.Linked, Tree.MainChildren, Indexable;
    LinkInv(t, 1);
    LinkShape(t, 1);
    LinkPromotable(t, 1);
    ChainsLive(t);
    PathStart(WithParent(t, 1), 1);
    SpawnChains(WithParent(t, 1), 1, 1);
  }

  const START := Status(map[], {0}, {0}, {0}, {}, {}, {}, {0}, {})

  function Asked(x: ChainId): (s: Status) {
    START.(requestAttestations := {x})
  }

  function Queued(x: ChainId): (s: Status) {
    Asked(x).(zeroWeight := {1})
  }

  function Marked(x: ChainId): (s: Status) {
    Queued(x).(attested := {0, 1})
  }

  /** Publishing and linking do not touch the flags. */
  lemma TreeOnly(n: Node, a: Action)
    requires n.tree.Inv() && Applicable(n.tree, a) && (a.PublishCommitment? || a.LinkParent?)
    ensures Possible(n, TreeEvent(a))
    ensures var m := Next(n, TreeEvent(a)); m.tree == Step(n.tree, a) && m.status == n.status
  {
    hide Tree.Chained, Tree.Indexed, Tree.Single, Tree.EntriesRight, Step;
    InvConsistent(n.tree);
  }

  /** Commitment 1 asks for attestations although it has nothing to attest, and is marked attested. */
  lemma MarkingRun(n: Node, x: ChainId)
    requires Fallen(n.tree, x) && n.status == START
    ensures var asked, queued := n.(status := Asked(x)), n.(status := Queued(x));
            && Possible(n, SetChainFlags({x}, {0}, {})) && Next(n, SetChainFlags({x}, {0}, {})) == asked
            && Possible(asked, QueueZeroWeight(1)) && Next(asked, QueueZeroWeight(1)) == queued
            && Possible(queued, MarkZeroWeight(1)) && Next(queued, MarkZeroWeight(1)) == n.(status := Marked(x))
  {
    hide Tree.Chained, Tree.Indexed, Tree.Single, Tree.EntriesRight;
    InvConsistent(n.tree);
  }

  lemma LinkingRun() returns (trees: seq<Tree>, actions: seq<Action>)
    ensures |trees| == 5 && trees[0] == Init(0, GENESIS) && Fallen(trees[4], trees[3].nextChain)
    ensures actions == [PublishCommitment(2, SECOND), LinkParent(2), PublishCommitment(1, FALLING), LinkParent(1)]
    ensures forall i | 0 <= i < 4 :: trees[i].Inv() && Applicable(trees[i], actions[i]) && trees[i + 1] == Step(trees[i], actions[i])
  {
    hide Tree.Chained, Tree.Indexed, Link;
    FirstChild(2, SECOND);
    InitInv(0, GENESIS);
    var a := Publish(Init(0, GENESIS), 2, SECOND);
    var b := Link(a, 2);
    FallingPublished(b);
    var c := Publish(b, 1, FALLING);
    FallingLinked(c);
    trees := [Init(0, GENESIS), a, b, c, Link(c, 1)];
    actions := [PublishCommitment(2, SECOND), LinkParent(2), PublishCommitment(1, FALLING), LinkParent(1)];
  }

  lemma FallingRun() returns (nodes: seq<Node>, events: seq<Event>, x: ChainId)
    ensures IsNodeRun(nodes, events) && |events| == 7
    ensures Fallen(nodes[7].tree, x) && nodes[7].status == Marked(x)
  {
    hide Tree.Chained, Tree.Indexed, Step, Next, Possible, Fallen, Applicable;
    var trees, actions := LinkingRun();
    var m := InitNode(0, GENESIS);
    TreeOnly(m, actions[0]);
    var n := Next(m, TreeEvent(actions[0]));
    TreeOnly(n, actions[1]);
    var o := Next(n, TreeEvent(actions[1]));
    TreeOnly(o, actions[2]);
    var p := Next(o, TreeEvent(actions[2]));
    TreeOnly(p, actions[3]);
    var q := Next(p, TreeEvent(actions[3]));
    x := trees[3].nextChain;
    MarkingRun(q, x);
    events := [TreeEvent(actions[0]), TreeEvent(actions[1]), TreeEvent(actions[2]), TreeEvent(actions[3]),
               SetChainFlags({x}, {0}, {}), QueueZeroWeight(1), MarkZeroWeight(1)];
    nodes := [m, n, o, p, q, q.(status := Asked(x)), q.(status := Queued(x)), q.(status := Marked(x))];
  }

  /** After that run 10 is attested for commitment 1, and it claims 4. */
  lemma ClaimExceeded(cumulative: map<Id, uint64>) returns (nodes: seq<Node>, events: seq<Event>)
    ensures IsNodeRun(nodes, events)
    ensures var n := nodes[|events|];
            && n.tree.Inv() && SolidId(n.tree, 1) && 1 in n.status.attested && n.tree.header[1].cumulativeWeight == 4
            && Settled(n, map[0 := 10, 1 := 10])
            && (Settled(n, cumulative) ==> 1 in cumulative && cumulative[1] == 10)
  {
    hide Tree.MainChildren, Tree.Partitioned, Tree.Grounded, Tree.Indexed, Next, Possible;
    var x;
    nodes, events, x := FallingRun();
    FallenSolid(nodes[7].tree, x);
  }

  lemma FallenSolid(t: Tree, x: ChainId)
    requires Fallen(t, x)
    ensures SolidId(t, 1)
  {
    hide Tree.MainChildren, Tree.Partitioned, Tree.Grounded, Tree.Indexed;
    assert t.Solid(0);
  }

  // ----- a lookup before eviction

  /** When 1 becomes the root, looking up slot 5 goes from chain 0 to chain 0 for ever; slot 6 is found at once. */
  lemma LookupNeverEnds()
    ensures Connected(OneChild(), 0, 1) && Walkable(MoveRoot(OneChild(), 0, 1))
    ensures !Ends(MoveRoot(OneChild(), 0, 1), 0, 5) && Ends(MoveRoot(OneChild(), 0, 1), 0, 6)
  {
    OneChildInv();
    LookupEndsIff(OneChild(), 0, 1, 0, 5);
    LookupEndsIff(OneChild(), 0, 1, 0, 6);
  }

  /** The same happens when the new root is not on the main chain. */
  lemma LookupNeverEndsOffMain()
    ensures Connected(TwoChildren(), 0, 2) && Walkable(MoveRoot(TwoChildren(), 0, 2)) && !TwoChildren().On(2, 0)
    ensures !Ends(MoveRoot(TwoChildren(), 0, 2), 0, 5) && Ends(MoveRoot(TwoChildren(), 0, 2), 0, 6)
  {
    TwoChildrenInv();
    LookupEndsIff(TwoChildren(), 0, 2, 0, 5);
    LookupEndsIff(TwoChildren(), 0, 2, 0, 6);
  }

  lemma TwoChildrenLinks()
    ensures var t := TwoChildren(); t.Known() && t.Linked() && t.MainChildren()
  {
  }

  lemma TwoChildrenChains()
    ensures var t := TwoChildren(); t.Known() && t.Partitioned() && t.Grounded()
  {
  }

  lemma TwoChildrenIndexed()
    ensures TwoChildren().live <= TwoChildren().header.Keys && TwoChildren().Indexed()
  {
    var t := TwoChildren();
    forall x, s | x in t.index && s in t.index[x]
      ensures t.On(t.index[x][s], x) && t.index[x][s] in t.live && t.Slot(t.index[x][s]) == s
    {
      TwoChildrenEntry(x, s);
    }
  }

  lemma TwoChildrenEntry(x: ChainId, s: nat)
    requires x in TwoChildren().index && s in TwoChildren().index[x]
    ensures var t := TwoChildren(); t.On(t.index[x][s], x) && t.index[x][s] in t.live && t.Slot(t.index[x][s]) == s
  {
    assert (x == 0 && (s == 5 || s == 6)) || (x == 1 && s == 6);
  }

  lemma TwoChildrenInv()
    ensures TwoChildren().Inv() && TwoChildren().Solid(2) && TwoChildren().Solid(1)
  {
    hide Tree.Known, Tree.Linked, Tree.MainChildren, Tree.Partitioned, Tree.Grounded, Tree.Indexed;
    TwoChildrenLinks();
    TwoChildrenChains();
    TwoChildrenIndexed();
  }

  // ----- the other order of reactions

  const FIRST := Header(6, 0, 11)
  const SECOND := Header(6, 0, 12)

  /** The root 0 on chain 0 and its main child m, and whoever else was linked. */
  predicate Siblings(t: Tree, m: Id, parent: map<Id, Id>, live: set<Id>) {
    && t.Inv() && t.root == 0 && t.live == live && t.parent == parent && t.mainChild == map[0 := m]
    && t.On(0, 0) && t.On(m, 0)
  }

  lemma PromotedMain(t: Tree, c: Id)
    requires Promotable(t, c)
    ensures Promote(t, c).mainChild == t.mainChild[t.parent[c] := c]
  {
    hide MovePath, Tree.Known, Tree.Linked, Tree.MainChildren;
  }

  /** A child of 0 that is promoted takes the chain of 0. */
  lemma PromotedSibling(t: Tree, c: Id)
    requires Promotable(t, c) && t.parent[c] == 0 && t.On(0, 0) && 0 in t.live
    ensures var u := Promote(t, c);
            && u.header == t.header && u.live == t.live && u.root == t.root && u.parent == t.parent
            && u.mainChild == t.mainChild[0 := c] && u.On(c, 0) && u.On(0, 0)
  {
    hide MovePath, Spawn, Promote;
    PromoteShape(t, c);
    PromotedMain(t, c);
    PathStart(t, c);
    PromotePath(t, c, c);
    EngineCommitments.PromoteKeepsLower(t, c, 0);
  }

  /** The displaced one leaves it. */
  lemma DisplacedSibling(t: Tree, c: Id)
    requires Promotable(t, c) && t.parent[c] == 0 && t.On(0, 0) && 0 in t.live && 0 in t.mainChild && t.nextChain > 0
    ensures !Promote(t, c).On(t.mainChild[0], 0)
  {
    hide MovePath, Spawn;
    var w, a := Displace(t, c), t.mainChild[0];
    SetMainChildLinks(t, c);
    PathStart(t, a);
    DisplaceChains(t, c, a);
    MovePathChains(w, c, 0, a);
    if w.OnMainPath(c, a) {
      MainPathSlot(w, c, a);
    }
  }

  /** The first child of the root, as it is published and linked. */
  lemma FirstChild(c: Id, h: Header)
    requires c != 0 && h.slot == 6 && h.previous == 0
    ensures var t := Publish(Init(0, GENESIS), c, h);
            && CanPublish(Init(0, GENESIS), c, h) && Init(0, GENESIS).Inv() && t.Inv() && CanLink(t, c)
            && Siblings(Link(t, c), c, map[c := 0], {0, c}) && Link(t, c).header == map[0 := GENESIS, c := h]
  {
    hide Tree.MainChildren, Tree.Partitioned, Tree.Grounded, Tree.Indexed, Promotable, Promote;
    InitInv(0, GENESIS);
    PublishInv(Init(0, GENESIS), c, h);
    var t := Publish(Init(0, GENESIS), c, h);
    LinkInv(t, c);
    LinkPromotable(t, c);
    PromotedSibling(WithParent(t, c), c);
  }

  /** The second child, as it is published. */
  lemma SecondChild(t: Tree, m: Id, c: Id, h: Header)
    requires Siblings(t, m, map[m := 0], {0, m}) && t.header.Keys == {0, m} && t.header[0] == GENESIS
    requires c != 0 && c != m && h.slot == 6 && h.previous == 0
    ensures CanPublish(t, c, h) && Publish(t, c, h).Inv() && CanLink(Publish(t, c, h), c)
  {
    hide Tree.MainChildren, Tree.Partitioned, Tree.Grounded, Tree.Indexed;
    PublishInv(t, c, h);
  }

  lemma YoungerLinked(t: Tree)
    requires Siblings(t, 2, map[2 := 0], {0, 1, 2}) && CanLink(t, 1) && t.header[1] == FIRST
    ensures Siblings(LinkForced(t, 1, 0), 1, map[1 := 0, 2 := 0], {0, 1, 2})
    ensures LinkForced(t, 1, 0).header == t.header && !LinkForced(t, 1, 0).On(2, 0)
  {
    hide Tree.Linked, Tree.MainChildren, Tree.Partitioned, Tree.Grounded, Tree.Indexed, Promotable, Promote;
    LinkForcedInv(t, 1, 0);
    LinkPromotable(t, 1);
    ChainsLive(t);
    PromotedSibling(WithParent(t, 1), 1);
    DisplacedSibling(WithParent(t, 1), 1);
  }

  /** 2 is linked, then an engine of chain 0 links 1 instead. */
  lemma Overtaken() returns (a: Tree, b: Tree, c: Tree, d: Tree)
    ensures Applicable(Init(0, GENESIS), PublishCommitment(2, SECOND)) && Step(Init(0, GENESIS), PublishCommitment(2, SECOND)) == a
    ensures Applicable(a, LinkParent(2)) && Step(a, LinkParent(2)) == b
    ensures Applicable(b, PublishCommitment(1, FIRST)) && Step(b, PublishCommitment(1, FIRST)) == c
    ensures Applicable(c, LinkFromEngine(1, 0)) && Step(c, LinkFromEngine(1, 0)) == d
    ensures Siblings(d, 1, map[1 := 0, 2 := 0], {0, 1, 2}) && !d.On(2, 0)
    ensures d.header == map[0 := GENESIS, 1 := FIRST, 2 := SECOND]
  {
    hide Tree.Chained, Tree.Indexed, Link, LinkForced;
    FirstChild(2, SECOND);
    a := Publish(Init(0, GENESIS), 2, SECOND);
    b := Link(a, 2);
    SecondChild(b, 2, 1, FIRST);
    c := Publish(b, 1, FIRST);
    YoungerLinked(c);
    d := LinkForced(c, 1, 0);
  }

  lemma ChainsLive(t: Tree)
    requires t.Chained()
    ensures t.chain.Keys <= t.live && t.nextChain > 0
  {
  }

  /** 2, which joined first, is forced back. */
  lemma ForcedBack(s: Ordered)
    requires Siblings(s.tree, 1, map[1 := 0, 2 := 0], {0, 1, 2}) && !s.tree.On(2, 0) && s.joined == map[2 := 0, 1 := 1]
    requires s.tree.header == map[0 := GENESIS, 1 := FIRST, 2 := SECOND]
    ensures Applicable(s.tree, ForceOnto(2, 0)) && Harmful(s, ForceOnto(2, 0))
    ensures var t := Do(s, ForceOnto(2, 0)).tree;
            && t.header == s.tree.header && t.live == s.tree.live && t.root == 0 && t.parent == s.tree.parent
            && t.mainChild == map[0 := 2] && t.On(2, 0) && 0 in t.index && 6 !in t.index[0] && !t.Inv()
  {
    hide Tree.Chained, Tree.Indexed, PromotedFirst, Promote, Force, Promotable;
    ForcePromotable(s.tree, 2);
    PromotedFirstLosesIndex(s.tree, 2);
    PromotedSibling(s.tree, 2);
    ChainsLive(s.tree);
    IndexFree.OrdersAlike(s.tree, 2);
    HarmIff(s, ForceOnto(2, 0));
  }

  /**
   Commitment 2 is linked, then an engine of chain 0 links 1 instead, then 2 is
   forced back. 2 joined first and moves in first; then 1 moves out and deletes
   the entry of slot 6. Chain 0 has 2 at that slot and does not find it.
   */
  lemma IndexLost() returns (states: seq<Ordered>, actions: seq<Action>)
    ensures ReactionOrder.IsRun(states, actions) && |actions| == 5 && |states| == 6
    ensures states[4].tree.Inv() && actions[4] == ForceOnto(2, 0) && Harmful(states[4], actions[4])
    ensures var t := states[5].tree;
            && t.header == map[0 := GENESIS, 1 := FIRST, 2 := SECOND] && t.live == {0, 1, 2} && t.root == 0
            && t.parent == map[1 := 0, 2 := 0] && t.mainChild == map[0 := 2]
            && t.On(2, 0) && 0 in t.index && 6 !in t.index[0] && !t.Inv()
  {
    hide Tree.Inv, Applicable, Step, ForceInOrder, Init, Harmful;
    var a, b, c, d := Overtaken();
    var s := Ordered(d, map[2 := 0, 1 := 1], 2);
    ForcedBack(s);
    actions := [PublishCommitment(2, SECOND), LinkParent(2), PublishCommitment(1, FIRST), LinkFromEngine(1, 0), ForceOnto(2, 0)];
    states := [Ordered(Init(0, GENESIS), map[], 0), Ordered(a, map[], 0), Ordered(b, map[2 := 0], 1),
               Ordered(c, map[2 := 0], 1), s, Do(s, ForceOnto(2, 0))];
  }

  // ----- two nodes that disagree

  /** 1 is linked before 2, and stays the main child. */
  lemma InOrder() returns (a: Tree, b: Tree, c: Tree, d: Tree)
    ensures Applicable(Init(0, GENESIS), PublishCommitment(1, FIRST)) && Step(Init(0, GENESIS), PublishCommitment(1, FIRST)) == a
    ensures Applicable(a, LinkParent(1)) && Step(a, LinkParent(1)) == b
    ensures Applicable(b, PublishCommitment(2, SECOND)) && Step(b, PublishCommitment(2, SECOND)) == c
    ensures Applicable(c, LinkParent(2)) && Step(c, LinkParent(2)) == d
    ensures d.Inv() && d.live == {0, 1, 2} && d.root == 0 && d.parent == map[1 := 0, 2 := 0]
    ensures d.header == map[0 := GENESIS, 1 := FIRST, 2 := SECOND]
  {
    hide Tree.Chained, Tree.Indexed, Link, LinkForced;
    FirstChild(1, FIRST);
    a := Publish(Init(0, GENESIS), 1, FIRST);
    b := Link(a, 1);
    SecondChild(b, 1, 2, SECOND);
    c := Publish(b, 2, SECOND);
    LinkInv(c, 2);
    LinkShape(c, 2);
    d := Link(c, 2);
  }

  lemma OtherArrival() returns (states: seq<Ordered>, actions: seq<Action>)
    ensures ReactionOrder.IsRun(states, actions) && |actions| == 4 && |states| == 5
    ensures forall k | 0 <= k < 4 :: !Harmful(states[k], actions[k])
    ensures var t := states[4].tree;
            && t.Inv() && t.header == map[0 := GENESIS, 1 := FIRST, 2 := SECOND] && t.live == {0, 1, 2} && t.root == 0
            && t.parent == map[1 := 0, 2 := 0]
  {
    hide Tree.Inv, Applicable, Step, ForceInOrder, Init;
    var a, b, c, d := InOrder();
    actions := [PublishCommitment(1, FIRST), LinkParent(1), PublishCommitment(2, SECOND), LinkParent(2)];
    states := [Ordered(Init(0, GENESIS), map[], 0), Ordered(a, map[], 0), Ordered(b, map[1 := 0], 1),
               Ordered(c, map[1 := 0], 1), Ordered(d, map[1 := 0, 2 := 1], 2)];
  }

  lemma SiblingsSolid(t: Tree)
    requires t.Known() && t.Linked() && t.root == 0 && t.live == {0, 1, 2} && t.parent == map[1 := 0, 2 := 0]
    requires t.header == map[0 := GENESIS, 1 := FIRST, 2 := SECOND]
    ensures ForkOrder.SlotMembers(t, {1, 2}, map[1 := 11, 2 := 11], 6) && TreeLess(t, 1, 2) && !TreeLess(t, 2, 1)
  {
    assert t.Solid(0);
  }

  /**
   Two nodes with the same two commitments of equal weight. The one on which 2
   was forced back takes 2 to be less than 1, and picks 1; the one on which they
   arrived in the other order picks 2.
   */
  lemma ArrivalMatters()
    returns (states: seq<Ordered>, actions: seq<Action>, others: seq<Ordered>, moves: seq<Action>)
    ensures ReactionOrder.IsRun(states, actions) && |states| == 6 && ReactionOrder.IsRun(others, moves) && |others| == 5
    ensures var t, u, weight := states[5].tree, others[4].tree, map[1 := 11, 2 := 11];
            && t.Consistent() && u.Inv() && t.header == u.header
            && ForkOrder.SlotMembers(t, {1, 2}, weight, 6) && ForkOrder.SlotMembers(u, {1, 2}, weight, 6)
            && NodeLess(t, 2, 1) && TreeLess(t, 1, 2)
            && ForkOrder.IsHeaviest(t, {1, 2}, weight, 1) && ForkOrder.IsHeaviest(u, {1, 2}, weight, 2)
  {
    hide ReactionOrder.IsRun, Harmful, Tree.MainChildren, Tree.Partitioned, Tree.Grounded, Tree.Indexed, Tree.Single,
         Tree.EntriesRight, TreeLess;
    states, actions := IndexLost();
    others, moves := OtherArrival();
    var t, u := states[5].tree, others[4].tree;
    RunConsistent(states, actions, 5);
    SiblingsSolid(t);
    SiblingsSolid(u);
    assert t.Unlisted(2);
    ForkOrder.NothingMissing(u, 1, 2);
  }

  // ----- an engine that does not continue its chain

  /** Commitment 3 is another child of the root, not linked to it yet. */
  function ThirdChild(): (t: Tree) {
    Publish(TwoChildren(), 3, Header(6, 0, 13))
  }

  /**
   The engine of chain 1 was expected to produce commitment 2, the forking point
   of chain 1, and produces 3 instead. Forcing has no effect, because the parent
   is on chain 0, and 3 starts a chain of its own.
   */
  lemma EngineLeavesChain()
    ensures ThirdChild().Inv() && CanLink(ThirdChild(), 3) && ThirdChild().forkingPoint[1] == 2
    ensures LinkForced(ThirdChild(), 3, 1).ChainOf(3) == Some(2)
  {
    hide Tree.MainChildren, Tree.Partitioned, Tree.Grounded, Tree.Indexed, Tree.OnMainPath, Spawn;
    TwoChildrenInv();
    PublishInv(TwoChildren(), 3, Header(6, 0, 13));
    LinkPromotable(ThirdChild(), 3);
    PathStart(WithParent(ThirdChild(), 3), 3);
    SpawnChains(WithParent(ThirdChild(), 3), 3, 3);
  }

  // ----- a root beside the main chain

  /** Commitment 2 becomes the root and is put onto chain 0, which has commitment 1 at the same slot. */
  lemma RootBeside()
    ensures CanPublishRoot(TwoChildren(), 0, 2) && !PublishRoot(TwoChildren(), 0, 2).Inv()
  {
    hide Tree.MainChildren, Tree.Partitioned, Tree.Grounded, Tree.Indexed, PublishRoot;
    TwoChildrenInv();
    PublishRootIff(TwoChildren(), 0, 2);
    assert TwoChildren().On(1, 0) && !TwoChildren().OnMainPath(2, 1);
  }

  /** Commitment 3 waits for its parent and is on no chain. As the root it leaves chain 0 without it. */
  lemma RootWaits()
    ensures var t := Publish(OneChild(), 3, Header(7, 8, 12));
            t.Inv() && CanMoveRoot(t, 0, 3) && !AdvanceRoot(t, 0, 3).Inv()
  {
    hide Tree.MainChildren, Tree.Partitioned, Tree.Grounded, Tree.Indexed, AdvanceRoot;
    OneChildInv();
    PublishInv(OneChild(), 3, Header(7, 8, 12));
    AdvanceIff(Publish(OneChild(), 3, Header(7, 8, 12)), 0, 3);
  }

  // ----- a second generation

  /** Another commitment on top of p, which has none so far. */
  predicate CanExtend(t: Tree, c: Id, h: Header) {
    && t.Inv() && CanPublish(t, c, h) && h.previous in t.live && h.previous in t.chain && h.slot == t.Slot(h.previous) + 1
    && c !in t.live && c != t.root && (forall d | d in t.parent :: t.parent[d] != h.previous)
  }

  lemma Extendable(t: Tree, c: Id, h: Header)
    requires CanExtend(t, c, h)
    ensures var w := Publish(t, c, h); w.Inv() && CanLink(w, c) && h.previous !in w.mainChild && w.chain == t.chain
  {
    hide Tree.Partitioned, Tree.Grounded, Tree.Indexed;
    PublishInv(t, c, h);
  }

  function Extended(t: Tree, c: Id, h: Header): (u: Tree)
    requires CanExtend(t, c, h)
  {
    Extendable(t, c, h);
    Link(Publish(t, c, h), c)
  }

  /** It is on the same chain, and moves nothing below it or beside it. */
  lemma ExtendedFacts(t: Tree, c: Id, h: Header)
    requires CanExtend(t, c, h)
    ensures var u := Extended(t, c, h);
            && u.Inv() && u.header == t.header[c := h] && u.live == t.live + {c} && u.root == t.root
            && u.parent == t.parent[c := h.previous] && u.ChainOf(c) == t.ChainOf(h.previous)
  {
    hide Tree.Chained, Tree.Indexed, Tree.OnMainPath, Link, Promote, Promotable;
    Extendable(t, c, h);
    var w := Publish(t, c, h);
    LinkInv(w, c);
    LinkShape(w, c);
    ExtendedChain(t, c, h);
  }

  lemma ExtendedChain(t: Tree, c: Id, h: Header)
    requires CanExtend(t, c, h)
    ensures Extended(t, c, h).ChainOf(c) == t.ChainOf(h.previous)
  {
    hide Tree.Chained, Tree.Indexed, Tree.OnMainPath, Promote, Promotable;
    Extendable(t, c, h);
    var w := Publish(t, c, h);
    LinkPromotable(w, c);
    PathStart(WithParent(w, c), c);
    PromotePath(WithParent(w, c), c, c);
  }

  lemma ExtendedOthers(t: Tree, c: Id, h: Header, d: Id)
    requires CanExtend(t, c, h) && d in t.live && d in t.header && t.Slot(d) <= h.slot
    ensures Extended(t, c, h).ChainOf(d) == t.ChainOf(d)
  {
    hide Tree.Chained, Tree.Indexed, Tree.OnMainPath, Promotable;
    Extendable(t, c, h);
    var w := WithParent(Publish(t, c, h), c);
    LinkPromotable(Publish(t, c, h), c);
    DisplaceChains(w, c, d);
    var u := Displace(w, c);
    if u.OnMainPath(c, d) {
      MainPathSlot(u, c, d);
    }
    MovePathChains(u, c, w.chain[h.previous], d);
  }

  predicate OnlyFive(u: Tree) {
    && u.Inv() && u.header == TwoChildren().header[5 := Header(7, 1, 14)]
    && u.root == 0 && u.live == {0, 1, 2, 5} && u.parent == map[1 := 0, 2 := 0, 5 := 1]
    && u.On(0, 0) && u.On(1, 0) && u.On(2, 1) && u.On(5, 0)
  }

  lemma OneGrandchild() returns (u: Tree)
    ensures OnlyFive(u)
  {
    hide Tree.Chained, Tree.Indexed, Extended;
    var t, h := TwoChildren(), Header(7, 1, 14);
    assert CanExtend(t, 5, h) by { TwoExtendable(); }
    u := Extended(t, 5, h);
    ExtendedFacts(t, 5, h);
    ExtendedOthers(t, 5, h, 0);
    ExtendedOthers(t, 5, h, 1);
    ExtendedOthers(t, 5, h, 2);
  }

  lemma TwoExtendable()
    ensures CanExtend(TwoChildren(), 5, Header(7, 1, 14))
  {
    hide Tree.MainChildren, Tree.Partitioned, Tree.Grounded, Tree.Indexed;
    TwoChildrenInv();
  }

  // ----- a comparison before eviction

  /** When 5 becomes the root, comparing chains 1 and 0 goes from chain 0 to chain 0 for ever. */
  lemma LessNeverEnds() returns (t: Tree)
    ensures OnlyFive(t) && Connected(t, 0, 5) && 1 in t.forkingPoint && Walkable(MoveRoot(t, 0, 5))
    ensures var f := MovedLess.ForksOf(MoveRoot(t, 0, 5));
            && MovedLess.Standing(f, MovedLess.At(1, 0)) && !MovedLess.LessEnds(f, MovedLess.At(1, 0))
  {
    hide Tree.Chained, Tree.Indexed, MoveRoot, MovedLess.LessEnds, MovedLess.Circle, MovedLess.ForksOf, Tree.Single, Tree.EntriesRight;
    t := OneGrandchild();
    FiveCircular(t);
    InvConsistent(t);
    MovedLess.LessEndsIff(t, 0, 5, 1, 0);
    MovedLess.MovedForks(t, 0, 5, 1);
  }

  lemma FiveAdvances(t: Tree)
    requires OnlyFive(t)
    ensures Connected(t, 0, 5) && t.forkingPoint[0] != 5
  {
    hide Tree.MainChildren, Tree.Partitioned, Tree.Indexed;
    assert t.Solid(0) && t.Solid(1);
  }

  lemma TwoForks(t: Tree)
    requires OnlyFive(t)
    ensures 1 in t.forkingPoint && t.forkingPoint[1] == 2 && t.Slot(2) == 6
  {
    hide Tree.MainChildren, Tree.Grounded, Tree.Indexed;
    assert t.PartitionedAt(2);
  }

  lemma FiveCircular(t: Tree)
    requires OnlyFive(t)
    ensures Connected(t, 0, 5) && Circular(t, 0, 5) && 0 in t.forkingPoint && 1 in t.forkingPoint
    ensures t.Slot(t.forkingPoint[1]) == 6
    ensures MovedLess.RingOf(t, 0, 5) == MovedLess.Ring(0, {0}, 7, Some(1))
  {
    hide Tree.Chained, Tree.Indexed, MovedLess.ChainsDown;
    FiveAdvances(t);
    TwoForks(t);
    MovedLess.RingDown(t, 0, 5);
  }
}

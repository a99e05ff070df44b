/**
 The order in which children react. Every child of a commitment subscribes to
 the main child of its parent when it is linked, and the subscribers are called
 in that order. When a child is promoted, a displaced child that joined before
 it leaves the chain first; one that joined later leaves when the promoted child
 is already there, and deletes the slot entry of its successor.
 */
module ReactionOrder {
  import opened Collections
  import opened CommitmentTree
  import opened ChainLookup
  import opened ChainSteps
  import opened ForceChain
  import opened LinkSteps
  import opened RootSteps
  import opened FreshRoot
  import opened TreeRuns
  import opened IndexFree

  /** joined: when a commitment was linked to its parent. */
  datatype Ordered = Ordered(tree: Tree, joined: map<Id, nat>, clock: nat)

  /** Forcing c onto the target changes something: its parent is there, and c is not. */
  predicate Effective(t: Tree, c: Id, target: ChainId) {
    t.ChainOf(c) != Some(target) && c in t.parent && t.ChainOf(t.parent[c]) == Some(target)
  }

  /** c joined before the main child that it displaces. */
  predicate Overtakes(s: Ordered, c: Id)
    requires c in s.tree.parent
  {
    s.tree.parent[c] in s.tree.mainChild &&
    var a := s.tree.mainChild[s.tree.parent[c]];
    c in s.joined && a in s.joined && s.joined[c] < s.joined[a]
  }

  /** `forceChain`, with the reactions in the order of the subscriptions. */
  function ForceInOrder(s: Ordered, c: Id, target: ChainId): (u: Tree)
    requires s.tree.Chained() && c in s.tree.live
  {
    if Effective(s.tree, c, target) && Overtakes(s, c) then
      ForcePromotable(s.tree, c);
      PromotedFirst(s.tree, c)
    else Force(s.tree, c, target)
  }

  function Do(s: Ordered, a: Action): (r: Ordered)
    requires Applicable(s.tree, a)
  {
    match a
    case ForceOnto(c, target) => s.(tree := ForceInOrder(s, c, target))
    case LinkParent(c) => Ordered(Step(s.tree, a), s.joined[c := s.clock], s.clock + 1)
    case LinkFromEngine(c, target) => Ordered(Step(s.tree, a), s.joined[c := s.clock], s.clock + 1)
    case _ => s.(tree := Step(s.tree, a))
  }

  // ----- one forced commitment

  /** Forcing keeps the invariants exactly unless c joined before the child that it displaces. */
  lemma ForceIff(s: Ordered, c: Id, target: ChainId)
    requires s.tree.Inv() && c in s.tree.live
    ensures ForceInOrder(s, c, target).Inv() <==> !(Effective(s.tree, c, target) && Overtakes(s, c))
  {
    hide Tree.MainChildren, Tree.Grounded, Tree.Indexed, PromotedFirst, Force;
    ForceInv(s.tree, c, target);
    if Effective(s.tree, c, target) && Overtakes(s, c) {
      ForcePromotable(s.tree, c);
      var a := s.tree.mainChild[s.tree.parent[c]];
      DisplacedOnChain(s.tree, s.tree.parent[c]);
      PromotedFirstLosesIndex(s.tree, c);
    }
  }

  lemma DisplacedOnChain(t: Tree, p: Id)
    requires t.Chained() && p in t.mainChild && p in t.chain
    ensures t.On(t.mainChild[p], t.chain[p])
  {
    hide Tree.Grounded, Tree.Indexed;
    assert t.PartitionedAt(t.mainChild[p]);
  }

  /** In either order links and chains come out as if the displaced child had left first. */
  lemma ForceInOrderAlike(s: Ordered, c: Id, target: ChainId)
    requires s.tree.Chained() && c in s.tree.live
    ensures Alike(Force(s.tree, c, target), ForceInOrder(s, c, target))
  {
    hide Tree.MainChildren, Tree.Partitioned, Tree.Indexed, PromotedFirst, Promote, Promotable;
    if Effective(s.tree, c, target) && Overtakes(s, c) {
      ForcePromotable(s.tree, c);
      OrdersAlike(s.tree, c);
    }
  }

  lemma ForceInOrderRight(s: Ordered, c: Id, target: ChainId)
    requires s.tree.Chained() && c in s.tree.live && s.tree.live <= s.tree.header.Keys && s.tree.EntriesRight()
    ensures var u := ForceInOrder(s, c, target); u.live <= u.header.Keys && u.EntriesRight()
  {
    hide Tree.MainChildren, Tree.Partitioned, Tree.Indexed, PromotedFirst, Promote, Promotable, Tree.EntriesRight;
    if Effective(s.tree, c, target) {
      ForcePromotable(s.tree, c);
      PromoteRight(s.tree, c);
      if Overtakes(s, c) {
        PromotedFirstRight(s.tree, c);
      }
    }
  }

  // ----- what every order keeps

  lemma DoRight(s: Ordered, a: Action)
    requires Applicable(s.tree, a) && s.tree.live <= s.tree.header.Keys && s.tree.EntriesRight()
    ensures Do(s, a).tree.live <= Do(s, a).tree.header.Keys && Do(s, a).tree.EntriesRight()
  {
    hide Tree.Chained, Link, LinkForced, AdvanceRoot, PublishRoot, ForceInOrder, Based, Continued;
    match a
    case PublishCommitment(c, h) =>
    case LinkParent(c) => LinkRight(s.tree, c);
    case LinkFromEngine(c, target) => LinkForcedRight(s.tree, c, target);
    case ForceOnto(c, target) => ForceInOrderRight(s, c, target);
    case MoveRootTo(main, r) => AdvanceRight(s.tree, main, r);
    case EnterRootTo(main, r) => PublishRootRight(s.tree, main, r);
  }

  lemma LinkForcedRight(t: Tree, c: Id, target: ChainId)
    requires t.Chained() && CanLink(t, c) && t.live <= t.header.Keys && t.EntriesRight()
    ensures LinkForced(t, c, target).live <= LinkForced(t, c, target).header.Keys && LinkForced(t, c, target).EntriesRight()
  {
    hide Tree.Chained, Promotable, Promote, Link, Tree.Known, Tree.Linked;
    LinkPromotable(t, c);
    LinkRight(t, c);
    if t.ChainOf(t.header[c].previous) == Some(target) {
      PromoteRight(WithParent(t, c), c);
    }
  }

  /** The same action on a tree with a complete index leads to a tree with a complete index, alike the real one. */
  lemma DoAlike(t: Tree, s: Ordered, a: Action)
    requires t.Inv() && Alike(t, s.tree) && Applicable(s.tree, a)
    ensures Applicable(t, a) && Step(t, a).Inv() && Alike(Step(t, a), Do(s, a).tree)
  {
    hide Tree.Chained, Tree.Indexed, Step, ForceInOrder;
    AlikeBack(t, s.tree);
    ApplicableAlike(s.tree, t, a);
    StepInv(t, a);
    StepAlike(t, s.tree, a);
    if a.ForceOnto? {
      StepIsForce(s.tree, a);
      ForceInOrderAlike(s, a.id, a.target);
      AlikeOn(Step(t, a), Step(s.tree, a), Do(s, a).tree);
    }
  }

  lemma StepIsForce(t: Tree, a: Action)
    requires Applicable(t, a) && a.ForceOnto?
    ensures Step(t, a) == Force(t, a.id, a.target)
  {
  }

  lemma AlikeBack(t: Tree, u: Tree)
    requires Alike(t, u)
    ensures Alike(u, t)
  {
  }

  lemma AlikeOn(t: Tree, u: Tree, v: Tree)
    requires Alike(t, u) && Alike(u, v)
    ensures Alike(t, v)
  {
  }

  lemma DoConsistent(s: Ordered, a: Action)
    requires s.tree.Consistent() && Applicable(s.tree, a)
    ensures Do(s, a).tree.Consistent()
  {
    hide Tree.Chained, Tree.Indexed, Tree.Single, Do, Step, Applicable, Tree.EntriesRight;
    CompletedInv(s.tree);
    var t := Completed(s.tree);
    DoAlike(t, s, a);
    DoRight(s, a);
    AlikeConsistent(Step(t, a), Do(s, a).tree);
  }

  // ----- new roots that leave the tree inconsistent

  /** Up to missing index entries, a known root keeps the invariants exactly if it is based. */
  lemma AdvanceConsistentIff(t: Tree, main: ChainId, r: Id)
    requires t.Consistent() && CanMoveRoot(t, main, r)
    ensures AdvanceRoot(t, main, r).Consistent() <==> Based(t, main, r)
  {
    hide Tree.Chained, Tree.Single, Tree.EntriesRight, AdvanceRoot, Based;
    if Based(t, main, r) {
      DoConsistent(Ordered(t, map[], 0), MoveRootTo(main, r));
    }
    if AdvanceRoot(t, main, r).Consistent() {
      AdvanceNeeds(t, main, r);
    }
  }

  /** And a first-time root exactly if the main chain has nothing beside it. */
  lemma PublishRootConsistentIff(t: Tree, main: ChainId, r: Id)
    requires t.Consistent() && CanPublishRoot(t, main, r)
    ensures PublishRoot(t, main, r).Consistent() <==> Continued(t, main, r)
  {
    hide Tree.MainChildren, Tree.Partitioned, Tree.Grounded, Tree.Single, Tree.EntriesRight, PublishRoot, Tree.OnMainPath;
    if Continued(t, main, r) {
      DoConsistent(Ordered(t, map[], 0), EnterRootTo(main, r));
    }
    if PublishRoot(t, main, r).Consistent() {
      forall c | c in t.live && t.On(c, main) && t.Slot(c) >= t.Slot(r)
        ensures t.OnMainPath(r, c)
      {
        PublishRootNeeds(t, main, r, c);
      }
    }
  }

  // ----- runs

  ghost predicate IsRun(states: seq<Ordered>, actions: seq<Action>) {
    && |states| == |actions| + 1
    && (exists root, h :: states[0] == Ordered(Init(root, h), map[], 0))
    && (forall i | 0 <= i < |actions| :: Applicable(states[i].tree, actions[i]) && states[i + 1] == Do(states[i], actions[i]))
  }

  /** The action forces a commitment that joined before the child that it displaces. */
  predicate Harmful(s: Ordered, a: Action) {
    a.ForceOnto? && Effective(s.tree, a.id, a.target) && Overtakes(s, a.id)
  }

  lemma {:induction false} RunConsistent(states: seq<Ordered>, actions: seq<Action>, i: nat)
    requires IsRun(states, actions) && i < |states|
    ensures states[i].tree.Consistent()
    decreases i
  {
    hide Tree.Consistent, Do, Applicable;
    if i == 0 {
      var root, h :| states[0] == Ordered(Init(root, h), map[], 0);
      InitInv(root, h);
      InvConsistent(Init(root, h));
    } else {
      RunConsistent(states, actions, i - 1);
      DoConsistent(states[i - 1], actions[i - 1]);
    }
  }

  lemma SplitAlike(t: Tree, u: Tree)
    requires Alike(t, u) && Split(t)
    ensures Split(u)
  {
  }

  /** Over every run, in whatever order children react, the tree is split into chains. */
  lemma RunKeepsPartition(states: seq<Ordered>, actions: seq<Action>, i: nat)
    requires IsRun(states, actions) && i < |states|
    ensures Split(states[i].tree)
  {
    hide Do, Applicable, IsRun, Tree.EntriesRight, Tree.Single, Split, Tree.Chained, Tree.Indexed;
    RunConsistent(states, actions, i);
    CompletedInv(states[i].tree);
    var t := Completed(states[i].tree);
    InvSplit(t);
    SplitAlike(t, states[i].tree);
  }

  /** All trees of a run have complete indexes exactly if no action of the run is harmful. */
  lemma RunInvIff(states: seq<Ordered>, actions: seq<Action>)
    requires IsRun(states, actions)
    ensures (forall i | 0 <= i < |states| :: states[i].tree.Inv()) <==>
            (forall i | 0 <= i < |actions| :: !Harmful(states[i], actions[i]))
  {
    hide Tree.Chained, Tree.Indexed;
    if forall i | 0 <= i < |actions| :: !Harmful(states[i], actions[i]) {
      forall i | 0 <= i < |states|
        ensures states[i].tree.Inv()
      {
        GuardedInv(states, actions, i);
      }
    }
    if forall i | 0 <= i < |states| :: states[i].tree.Inv() {
      forall i | 0 <= i < |actions|
        ensures !Harmful(states[i], actions[i])
      {
        assert states[i].tree.Inv() && states[i + 1].tree.Inv();
        HarmIff(states[i], actions[i]);
      }
    }
  }

  lemma HarmIff(s: Ordered, a: Action)
    requires s.tree.Inv() && Applicable(s.tree, a)
    ensures Do(s, a).tree.Inv() <==> !Harmful(s, a)
  {
    hide Tree.Chained, Tree.Indexed, ForceInOrder, Overtakes, Step;
    if a.ForceOnto? {
      ForceIff(s, a.id, a.target);
    } else {
      StepInv(s.tree, a);
    }
  }

  lemma {:induction false} GuardedInv(states: seq<Ordered>, actions: seq<Action>, i: nat)
    requires IsRun(states, actions) && i < |states|
    requires forall k | 0 <= k < i :: !Harmful(states[k], actions[k])
    ensures states[i].tree.Inv()
    decreases i
  {
    hide Tree.Chained, Tree.Indexed, Do, Applicable, Harmful;
    if i == 0 {
      var root, h :| states[0] == Ordered(Init(root, h), map[], 0);
      InitInv(root, h);
    } else {
      GuardedInv(states, actions, i - 1);
      HarmIff(states[i - 1], actions[i - 1]);
    }
  }

  // ----- lookups

  lemma ForkKnown(t: Tree, c: Id)
    requires t.Chained() && c in t.chain
    ensures t.chain[c] in t.forkingPoint
  {
  }

  /**
   Over every run the lookup of a slot on the chain of a solid commitment finds
   the ancestor that the parent links lead to if its slot index has it, and
   nothing otherwise; and it finds the ancestor if no action before was harmful.
   */
  lemma RunLookup(states: seq<Ordered>, actions: seq<Action>, i: nat, c: Id, s: nat)
    requires IsRun(states, actions) && i < |states|
    requires states[i].tree.Chained() ==>
               && c in states[i].tree.live && states[i].tree.Solid(c)
               && states[i].tree.Slot(states[i].tree.root) <= s <= states[i].tree.Slot(c)
    ensures states[i].tree.Chained() && c in states[i].tree.chain
    ensures var t := states[i].tree;
            var found, a := Lookup(t, t.chain[c], s), t.AncestorAt(c, s);
            && found == (if Findable(t, a) then Some(a) else None)
            && ((forall k | 0 <= k < i :: !Harmful(states[k], actions[k])) ==> found == Some(a))
  {
    hide Do, Applicable, Harmful, Tree.EntriesRight, Tree.MainChildren, Tree.Partitioned, Tree.Grounded, Tree.Indexed, Lookup, Findable;
    RunConsistent(states, actions, i);
    var t := states[i].tree;
    SolidOnChain(t, c);
    ForkKnown(t, c);
    LookupFinds(t, c, s);
    if forall k | 0 <= k < i :: !Harmful(states[k], actions[k]) {
      GuardedInv(states, actions, i);
      LookupIsAncestor(t, c, s);
    }
  }

  // ----- who joined when

  /** Every linked commitment has joined, each at another time. */
  predicate Timed(s: Ordered) {
    && (forall c | c in s.tree.parent :: c in s.joined)
    && (forall c | c in s.joined :: s.joined[c] < s.clock)
    && (forall c, d | c in s.joined && d in s.joined && s.joined[c] == s.joined[d] :: c == d)
  }

  lemma StepParents(t: Tree, a: Action)
    requires Applicable(t, a)
    ensures Step(t, a).parent.Keys <= t.parent.Keys + if a.LinkParent? || a.LinkFromEngine? then {a.id} else {}
  {
    hide Tree.MainChildren, Tree.Partitioned, Tree.Grounded, Tree.Indexed, MovePath;
    match a
    case LinkParent(c) => LinkPromotable(t, c);
    case LinkFromEngine(c, target) => LinkPromotable(t, c);
    case MoveRootTo(main, r) => MoveRootEvictable(t, main, r);
    case EnterRootTo(main, r) => EnterRootEvictable(t, main, r);
    case _ =>
  }

  lemma DoTimed(s: Ordered, a: Action)
    requires Timed(s) && Applicable(s.tree, a)
    ensures Timed(Do(s, a))
  {
    hide Tree.Chained, Step, ForceInOrder, Force;
    StepParents(s.tree, a);
    if a.ForceOnto? {
      StepIsForce(s.tree, a);
      ForceInOrderAlike(s, a.id, a.target);
    }
  }

  lemma {:induction false} RunTimed(states: seq<Ordered>, actions: seq<Action>, i: nat)
    requires IsRun(states, actions) && i < |states|
    ensures Timed(states[i])
    decreases i
  {
    hide Tree.Chained, Do, Applicable;
    if i > 0 {
      RunTimed(states, actions, i - 1);
      DoTimed(states[i - 1], actions[i - 1]);
    }
  }

  /** So over every run, forcing keeps the invariants exactly if a displaced child joined before the promoted one. */
  lemma RunForceIff(states: seq<Ordered>, actions: seq<Action>, i: nat, c: Id, target: ChainId)
    requires IsRun(states, actions) && i < |states| && states[i].tree.Inv() && c in states[i].tree.live
    requires Effective(states[i].tree, c, target)
    ensures var t, joined := states[i].tree, states[i].joined;
            && t.parent[c] in t.mainChild && c in joined && t.mainChild[t.parent[c]] in joined
            && (ForceInOrder(states[i], c, target).Inv() <==> joined[t.mainChild[t.parent[c]]] < joined[c])
  {
    hide Do, Applicable, ForceInOrder, Tree.Grounded, Tree.Indexed;
    RunTimed(states, actions, i);
    ForceIff(states[i], c, target);
    DisplacedOther(states[i].tree, c);
  }

  lemma DisplacedOther(t: Tree, c: Id)
    requires t.Chained() && c in t.parent && t.parent[c] in t.chain && t.ChainOf(c) != t.ChainOf(t.parent[c])
    ensures t.parent[c] in t.mainChild && t.mainChild[t.parent[c]] in t.parent && t.mainChild[t.parent[c]] != c
  {
    assert t.PartitionedAt(c);
  }
}

/**
 The commitments and chains of a node as one mutable object, updated the way
 the reactive variables of the protocol are: field by field, one commitment at
 a time along main children. Every method is proved against the step function
 that the run theorems are about.
 */
module Commitments {
  import opened Collections
  import opened CommitmentTree
  import Steps = ChainSteps
  import opened TreeSteps
  import opened ForceChain
  import opened LinkSteps
  import opened RootSteps
  import FreshRoot
  import opened TreeRuns
  import opened ReactionOrder
  import opened TreeEffects

  lemma DoRoot(s: Ordered, main: ChainId, r: Id)
    requires CanAdvance(s.tree, main, r)
    ensures Applicable(s.tree, MoveRootTo(main, r))
    ensures Do(s, MoveRootTo(main, r)) == s.(tree := RootSteps.AdvanceRoot(s.tree, main, r))
  {
  }

  lemma DoEnter(s: Ordered, main: ChainId, r: Id)
    requires FreshRoot.CanEnterRoot(s.tree, main, r)
    ensures Applicable(s.tree, EnterRootTo(main, r))
    ensures Do(s, EnterRootTo(main, r)) == s.(tree := FreshRoot.PublishRoot(s.tree, main, r))
  {
  }

  /** What forcing does to c itself. */
  lemma Forced(s: Ordered, c: Id, target: ChainId)
    requires s.tree.Chained() && c in s.tree.live
    ensures var t, u := s.tree, ForceInOrder(s, c, target);
            if t.On(c, target) || c !in t.parent || !t.On(t.parent[c], target) then u == t
            else u.mainChild == t.mainChild[t.parent[c] := c] && u.On(c, target)
  {
    hide ForceInOrder, Tree.MainChildren, Tree.Partitioned, Tree.Grounded;
    ForceEffect(s, c, target, c);
    PathStart(s.tree, c);
  }

  class Commitments {
    var header: map<Id, Header>
    var live: set<Id>
    var parent: map<Id, Id>
    var mainChild: map<Id, Id>
    var chain: map<Id, ChainId>
    var forkingPoint: map<ChainId, Id>
    var index: map<ChainId, map<nat, Id>>
    var nextChain: ChainId
    var root: Id
    var joined: map<Id, nat>           // the order in which children subscribed
    var clock: nat

    ghost function State(): (t: Tree)
      reads this
    {
      Tree(header, live, parent, mainChild, chain, forkingPoint, index, nextChain, root)
    }

    ghost function Contents(): (s: Ordered)
      reads this
    {
      Ordered(State(), joined, clock)
    }

    /** All invariants hold, except that entries may be missing from the slot indexes. */
    ghost predicate Valid()
      reads this
    {
      State().Consistent()
    }

    /** The main engine publishes its first root commitment. */
    constructor (first: Id, content: Header)
      ensures Valid() && State().Inv() && Contents() == Ordered(Init(first, content), map[], 0)
    {
      header, live, parent, mainChild := map[first := content], {first}, map[], map[];
      chain, forkingPoint, index := map[first := 0], map[0 := first], map[0 := map[content.slot := first]];
      nextChain, root, joined, clock := 1, first, map[], 0;
      new;
      InitInv(first, content);
      InvConsistent(State());
    }

    /** `publishCommitment` for an ID that was not published before. */
    method PublishCommitment(c: Id, content: Header)
      requires Valid() && CanPublish(State(), c, content)
      modifies this`header, this`live
      ensures Valid() && Applicable(old(State()), Action.PublishCommitment(c, content))
      ensures Contents() == Do(old(Contents()), Action.PublishCommitment(c, content))
    {
      hide Tree.Chained, Tree.Indexed;
      DoConsistent(Contents(), Action.PublishCommitment(c, content));
      header := header[c := content];
      live := live + {c};
    }

    /** `newChain`: a chain without commitments that forks at f. */
    method NewChain(f: Id) returns (x: ChainId)
      modifies this`forkingPoint, this`index, this`nextChain
      ensures x == old(nextChain) && State() == TreeSteps.NewChain(old(State()), f)
    {
      x := nextChain;
      forkingPoint := forkingPoint[x := f];
      index := index[x := map[]];
      nextChain := x + 1;
    }

    /** `Chain.Set` on a commitment: tear down the old index entry, then `addCommitment` to the new chain. */
    method SetChain(c: Id, x: ChainId)
      requires State().Known() && Steps.Indexable(State()) && c in live && x in forkingPoint
      modifies this`chain, this`index
      ensures State() == Steps.SetChain(old(State()), c, x)
    {
      if c in chain {
        index := index[chain[c] := index[chain[c]] - {header[c].slot}];
      }
      chain := chain[c := x];
      index := index[x := index[x][header[c].slot := c]];
    }

    /** A chain value propagates from commitment to main child until the path ends. */
    method MovePath(c: Id, x: ChainId)
      requires State().Known() && State().Linked() && State().MainChildren() && Steps.Indexable(State())
      requires c in live && x in forkingPoint
      modifies this`chain, this`index
      ensures State() == Steps.MovePath(old(State()), c, x)
    {
      hide Tree.Known, Tree.Linked, Tree.MainChildren, Steps.Indexable, Tree.Higher, Steps.SetChain;
      var current := c;
      ghost var before := State();
      SetChain(c, x);
      while current in mainChild
        invariant before.Known() && before.Linked() && before.MainChildren() && Steps.Indexable(before)
        invariant Steps.SameShape(old(State()), before) && current in live
        invariant State() == Steps.SetChain(before, current, x)
        invariant Steps.MovePath(before, current, x) == Steps.MovePath(old(State()), c, x)
        decreases old(State()).Higher(current)
      {
        Steps.ShapeKeepsLinks(before, State());
        Steps.MainChildHigher(old(State()), current);
        before := State();
        current := mainChild[current];
        SetChain(current, x);
      }
    }

    /** c becomes the forking point of a new chain that takes c's main path along. */
    method Spawn(c: Id)
      requires State().Known() && State().Linked() && State().MainChildren() && Steps.Indexable(State()) && c in live
      modifies this`chain, this`index, this`forkingPoint, this`nextChain
      ensures State() == TreeSteps.Spawn(old(State()), c)
    {
      var x := NewChain(c);
      MovePath(c, x);
    }

    /** `parent.MainChild.Set(c)`: the displaced child moves out, then c moves in. */
    method PromoteChild(c: Id)
      requires Promotable(State(), c)
      modifies this`mainChild, this`chain, this`index, this`forkingPoint, this`nextChain
      ensures State() == Promote(old(State()), c)
    {
      var p := parent[c];
      var target := chain[p];
      var displaced := if p in mainChild then Some(mainChild[p]) else None;
      mainChild := mainChild[p := c];
      if displaced.Some? {
        Spawn(displaced.value);
      }
      assert State() == Displace(old(State()), c);
      MovePath(c, target);
    }

    /** The other order: c moves in, then the displaced child moves out. */
    method PromoteChildFirst(c: Id)
      requires Promotable(State(), c) && parent[c] in mainChild
      modifies this`mainChild, this`chain, this`index, this`forkingPoint, this`nextChain
      ensures State() == PromotedFirst(old(State()), c)
    {
      hide Steps.MovePath, TreeSteps.Spawn;
      var p := parent[c];
      var target, displaced := chain[p], mainChild[p];
      SetMainChildLinks(State(), c);
      mainChild := mainChild[p := c];
      ghost var chosen := State();
      MovePath(c, target);
      Steps.ShapeKeepsLinks(chosen, State());
      Spawn(displaced);
    }

    /** Register c as a child of its parent and derive c's chain. */
    method RegisterChild(c: Id)
      requires State().Chained() && CanLink(State(), c)
      modifies this`parent, this`mainChild, this`chain, this`index, this`forkingPoint, this`nextChain
      ensures State() == Link(old(State()), c)
    {
      hide Tree.Chained, Tree.Known, Tree.Linked, Tree.MainChildren, Promotable, Steps.Indexable;
      var p := header[c].previous;
      LinkPromotable(State(), c);
      parent := parent[c := p];
      if p in mainChild {
        Spawn(c);
      } else if p in chain {
        PromoteChild(c);
      } else {
        mainChild := mainChild[p := c];
      }
    }

    /** The parent of c is known. */
    method LinkParent(c: Id)
      requires Valid() && CanLink(State(), c)
      modifies this
      ensures Valid() && Applicable(old(State()), Action.LinkParent(c))
      ensures Contents() == Do(old(Contents()), Action.LinkParent(c))
    {
      hide Tree.Chained, Tree.Indexed, Link;
      DoConsistent(Contents(), Action.LinkParent(c));
      RegisterChild(c);
      joined, clock := joined[c := clock], clock + 1;
    }

    /** An engine published c: force its chain before c subscribes, then derive it. */
    method LinkFromEngine(c: Id, target: ChainId)
      requires Valid() && CanLink(State(), c)
      modifies this
      ensures Valid() && Applicable(old(State()), Action.LinkFromEngine(c, target))
      ensures Contents() == Do(old(Contents()), Action.LinkFromEngine(c, target))
    {
      hide Tree.Chained, Tree.Indexed, Tree.Known, Tree.Linked, Tree.MainChildren, Promotable, Promote, Link, Steps.Indexable;
      var p := header[c].previous;
      DoConsistent(Contents(), Action.LinkFromEngine(c, target));
      LinkPromotable(State(), c);
      if p in chain && chain[p] == target {
        parent := parent[c := p];
        PromoteChild(c);
      } else {
        RegisterChild(c);
      }
      joined, clock := joined[c := clock], clock + 1;
    }

    /** `forceChain`: the children of the parent react in the order in which they joined. */
    method ForceChain(c: Id, target: ChainId)
      requires Valid() && c in live
      modifies this`mainChild, this`chain, this`index, this`forkingPoint, this`nextChain
      ensures Valid() && Applicable(old(State()), ForceOnto(c, target))
      ensures Contents() == Do(old(Contents()), ForceOnto(c, target))
      ensures old(State()).Inv() ==> (State().Inv() <==> !Harmful(old(Contents()), ForceOnto(c, target)))
      ensures if c in old(parent) && old(parent)[c] in old(chain) && old(chain)[old(parent)[c]] == target
                 && !(c in old(chain) && old(chain)[c] == target)
              then mainChild == old(mainChild)[old(parent)[c] := c] && c in chain && chain[c] == target
              else State() == old(State())
    {
      hide Tree.Chained, Tree.Indexed, Promotable, Promote, PromotedFirst;
      DoConsistent(Contents(), ForceOnto(c, target));
      Forced(Contents(), c, target);
      if State().Inv() {
        HarmIff(Contents(), ForceOnto(c, target));
      }
      if !(c in chain && chain[c] == target) {
        if c in parent && parent[c] in chain && chain[parent[c]] == target {
          ForcePromotable(State(), c);
          var p := parent[c];
          if p in mainChild && c in joined && mainChild[p] in joined && joined[c] < joined[mainChild[p]] {
            PromoteChildFirst(c);
          } else {
            PromoteChild(c);
          }
        }
      }
    }

    /** `publishRootCommitment` for a known commitment. */
    method MoveRoot(main: ChainId, r: Id)
      requires CanMoveRoot(State(), main, r)
      modifies this`forkingPoint, this`root
      ensures Evictable(State()) && State() == RootSteps.MoveRoot(old(State()), main, r)
    {
      hide Tree.Chained, Tree.Indexed, Evictable;
      MoveRootEvictable(State(), main, r);
      if (root in chain && chain[root] == main) || (r in chain && chain[r] == main) {
        forkingPoint := forkingPoint[main := r];
      }
      root := r;
    }

    /** The eviction event of one slot. */
    method EvictSlot(k: nat)
      requires Removable(State())
      modifies this`live, this`parent, this`mainChild, this`chain, this`index
      ensures State() == RootSteps.EvictSlot(old(State()), k)
    {
      live := set c | c in live && header[c].slot != k;
      parent := WithoutParents(header, parent, k);
      mainChild := WithoutSlot(header, mainChild, k);
      chain := WithoutSlot(header, chain, k);
      index := WithoutEntry(index, k);
    }

    /** Slot by slot, every commitment below slot s is evicted. */
    method Evict(s: nat)
      requires Evictable(State())
      modifies this`live, this`parent, this`mainChild, this`chain, this`index
      ensures State() == RootSteps.Evict(old(State()), s)
    {
      hide Evictable, Removable, RootSteps.Evict, RootSteps.EvictSlot;
      ghost var start := State();
      EvictNothing(start);
      for k := 0 to s
        invariant State() == RootSteps.Evict(start, k)
      {
        EvictNext(start, k);
        EvictSlot(k);
      }
    }

    method MoveRootAndEvict(main: ChainId, r: Id)
      requires CanMoveRoot(State(), main, r)
      modifies this`forkingPoint, this`root, this`live, this`parent, this`mainChild, this`chain, this`index
      ensures State() == RootSteps.AdvanceRoot(old(State()), main, r)
    {
      hide Tree.MainChildren, Tree.Partitioned, Tree.Grounded, Tree.Indexed, Evictable, RootSteps.Evict, RootSteps.MoveRoot;
      MoveRootEvictable(State(), main, r);
      var s := header[r].slot;
      MoveRoot(main, r);
      Evict(s);
    }

    /** Advancing the root, with the eviction it causes. */
    method AdvanceRoot(main: ChainId, r: Id)
      requires Valid() && CanMoveRoot(State(), main, r)
      modifies this
      ensures State() == RootSteps.AdvanceRoot(old(State()), main, r) && joined == old(joined) && clock == old(clock)
      ensures Valid() <==> Based(old(State()), main, r)
      ensures Valid() ==> Applicable(old(State()), MoveRootTo(main, r)) && Contents() == Do(old(Contents()), MoveRootTo(main, r))
    {
      hide Tree.Consistent, Do, Based, Tree.Chained, RootSteps.AdvanceRoot;
      if Based(State(), main, r) {
        DoRoot(Contents(), main, r);
      }
      AdvanceConsistentIff(State(), main, r);
      MoveRootAndEvict(main, r);
    }

    /** `publishRootCommitment` for a commitment that it has published itself. */
    method EnterRoot(main: ChainId, r: Id)
      requires FreshRoot.CanPublishRoot(State(), main, r)
      modifies this`chain, this`index, this`forkingPoint, this`root
      ensures State() == FreshRoot.EnterRoot(old(State()), main, r)
    {
      hide Tree.Partitioned, Tree.Grounded, Tree.Indexed, Steps.MovePath;
      ChainedIndexable(State());
      if r !in chain || chain[r] != main {
        MovePath(r, main);
      }
      forkingPoint := forkingPoint[main := r];
      root := r;
    }

    method EnterRootAndEvict(main: ChainId, r: Id)
      requires FreshRoot.CanPublishRoot(State(), main, r)
      modifies this`forkingPoint, this`root, this`live, this`parent, this`mainChild, this`chain, this`index
      ensures State() == FreshRoot.PublishRoot(old(State()), main, r)
    {
      hide Tree.MainChildren, Tree.Partitioned, Tree.Grounded, Tree.Indexed, FreshRoot.EnterRoot, Evictable, RootSteps.Evict;
      FreshRoot.EnterRootEvictable(State(), main, r);
      var s := header[r].slot;
      EnterRoot(main, r);
      Evict(s);
    }

    /** The same with the eviction it causes. */
    method PublishRoot(main: ChainId, r: Id)
      requires Valid() && FreshRoot.CanPublishRoot(State(), main, r)
      modifies this
      ensures State() == FreshRoot.PublishRoot(old(State()), main, r) && joined == old(joined) && clock == old(clock)
      ensures Valid() <==> FreshRoot.Continued(old(State()), main, r)
      ensures Valid() ==> Applicable(old(State()), EnterRootTo(main, r)) && Contents() == Do(old(Contents()), EnterRootTo(main, r))
    {
      hide Tree.Consistent, Do, FreshRoot.Continued, Tree.Chained, FreshRoot.PublishRoot;
      if FreshRoot.Continued(State(), main, r) {
        DoEnter(Contents(), main, r);
      }
      PublishRootConsistentIff(State(), main, r);
      EnterRootAndEvict(main, r);
    }
  }
}

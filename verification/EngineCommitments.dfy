/**
 Publishing what an engine committed: the loop of `publishEngineCommitments`.
 A commitment is forced onto the chain of its engine if its parent is there. The
 loop starts at the last slot that the chain shares with its parent chain, so
 everything depends on the first commitment.
 */
module EngineCommitments {
  import opened Collections
  import opened CommitmentTree
  import opened ChainSteps
  import opened TreeSteps
  import opened ForceChain
  import opened LinkSteps
  import opened TreeRuns
  import opened AttestedWeights
  import opened IndexFree
  import opened ReactionOrder
  import Node = Commitments

  /** Promoting a commitment does not move anything below it. */
  lemma PromoteKeepsLower(t: Tree, c: Id, d: Id)
    requires Promotable(t, c) && d in t.live && t.Slot(d) < t.Slot(c)
    ensures Promote(t, c).ChainOf(d) == t.ChainOf(d)
  {
    var u, p := Displace(t, c), t.parent[c];
    DisplaceChains(t, c, d);
    if p in t.mainChild && t.OnMainPath(t.mainChild[p], d) {
      MainPathSlot(t, t.mainChild[p], d);
    }
    if u.OnMainPath(c, d) {
      MainPathSlot(u, c, d);
    }
    MovePathChains(u, c, t.chain[p], d);
  }

  predicate Engineable(t: Tree, c: Id) {
    t.Inv() && c in t.header && (CanLink(t, c) || (c in t.live && c in t.parent))
  }

  lemma EngineInv(t: Tree, c: Id, target: ChainId)
    requires Engineable(t, c)
    ensures EngineTree(t, c, target).Inv()
  {
    hide Tree.Chained, Tree.Indexed;
    if CanLink(t, c) {
      LinkForcedInv(t, c, target);
    } else {
      ForceInv(t, c, target);
    }
  }

  /** On top of its own chain, an engine puts its commitment onto the chain. */
  lemma EnginePromotes(t: Tree, c: Id, target: ChainId)
    requires Engineable(t, c) && t.ChainOf(t.header[c].previous) == Some(target)
    ensures EngineTree(t, c, target).On(c, target)
  {
    if CanLink(t, c) {
      hide Tree.Partitioned, Tree.Grounded, Tree.Indexed;
      LinkPromotable(t, c);
      PromotePath(WithParent(t, c), c, c);
    } else {
      EngineParent(t, c);
      ForceReaches(t, c, target, c);
    }
  }

  /** Elsewhere its commitment stays where it is, or takes the chain that linking gives it. */
  lemma EngineElsewhere(t: Tree, c: Id, target: ChainId)
    requires Engineable(t, c) && t.ChainOf(t.header[c].previous) != Some(target) && target in t.forkingPoint
    ensures EngineTree(t, c, target).On(c, target) <==> t.On(c, target)
  {
    if CanLink(t, c) {
      hide Tree.Partitioned, Tree.Indexed;
      LinkPromotable(t, c);
      LinkElsewhere(t, c, target);
    } else {
      EngineParent(t, c);
    }
  }

  lemma LinkElsewhere(t: Tree, c: Id, target: ChainId)
    requires t.Inv() && CanLink(t, c) && t.ChainOf(t.header[c].previous) != Some(target) && target in t.forkingPoint
    ensures !Link(t, c).On(c, target) && !t.On(c, target)
  {
    hide Tree.Partitioned, Tree.Indexed, Tree.OnMainPath, Spawn, Promote;
    LinkPromotable(t, c);
    var u := WithParent(t, c);
    PathStart(u, c);
    if t.header[c].previous in t.mainChild {
      SpawnChains(u, c, c);
    } else if t.header[c].previous in t.chain {
      PromotePath(u, c, c);
    }
  }

  /** A commitment of an engine is on its chain exactly if it was, or if its parent is. */
  lemma EngineReaches(t: Tree, c: Id, target: ChainId)
    requires Engineable(t, c) && target in t.forkingPoint
    ensures EngineTree(t, c, target).On(c, target) <==>
            t.On(c, target) || t.ChainOf(t.header[c].previous) == Some(target)
  {
    hide Tree.MainChildren, Tree.Partitioned, Tree.Grounded, Tree.Indexed, EngineTree;
    if t.ChainOf(t.header[c].previous) == Some(target) {
      EnginePromotes(t, c, target);
    } else {
      EngineElsewhere(t, c, target);
    }
  }

  lemma SpawnKeepsLower(t: Tree, c: Id, d: Id)
    requires t.Known() && t.Linked() && t.MainChildren() && Indexable(t) && c in t.live && d in t.live
    requires t.Slot(d) < t.Slot(c)
    ensures Spawn(t, c).ChainOf(d) == t.ChainOf(d)
  {
    SpawnChains(t, c, d);
    if t.OnMainPath(c, d) {
      MainPathSlot(t, c, d);
    }
  }

  lemma LinkKeepsLower(t: Tree, c: Id, d: Id)
    requires t.Inv() && CanLink(t, c) && d in t.live && d in t.header && t.Slot(d) < t.Slot(c)
    ensures Link(t, c).ChainOf(d) == t.ChainOf(d)
  {
    hide Tree.Partitioned, Tree.Grounded, Tree.Indexed, Spawn, Promote;
    LinkPromotable(t, c);
    if t.header[c].previous in t.mainChild {
      SpawnKeepsLower(WithParent(t, c), c, d);
    } else if t.header[c].previous in t.chain {
      PromoteKeepsLower(WithParent(t, c), c, d);
    }
  }

  lemma EngineKeepsLower(t: Tree, c: Id, target: ChainId, d: Id)
    requires Engineable(t, c) && d in t.live && d in t.header && t.Slot(d) < t.Slot(c)
    ensures EngineTree(t, c, target).ChainOf(d) == t.ChainOf(d)
  {
    if CanLink(t, c) {
      hide Tree.Partitioned, Tree.Grounded, Tree.Indexed;
      LinkPromotable(t, c);
      if t.ChainOf(t.header[c].previous) == Some(target) {
        PromoteKeepsLower(WithParent(t, c), c, d);
      } else {
        LinkKeepsLower(t, c, d);
      }
    } else if Force(t, c, target) != t {
      ForcePromotable(t, c);
      PromoteKeepsLower(t, c, d);
    }
  }

  /** The i-th commitment continues the previous one; if it is known, it is known like this. */
  predicate Continues(t: Tree, prev: Id, made: seq<(Id, Header)>, i: nat)
    requires prev in t.header && i < |made|
  {
    && made[i].1.slot == t.Slot(prev) + 1 + i
    && made[i].1.previous == Latest(prev, made, i)
    && made[i].0 !in Ids(made, i)
    && (made[i].0 in t.header ==> t.header[made[i].0] == made[i].1 && made[i].0 in t.live && made[i].0 != t.root)
  }

  /** Commitments an engine produced one after the other, the first on top of prev. */
  predicate Segment(t: Tree, prev: Id, made: seq<(Id, Header)>)
    requires prev in t.header
  {
    forall i: nat | i < |made| :: Continues(t, prev, made, i)
  }

  function Ids(made: seq<(Id, Header)>, i: nat): (r: set<Id>)
    requires i <= |made|
  {
    set k | 0 <= k < i :: made[k].0
  }

  function Latest(prev: Id, made: seq<(Id, Header)>, i: nat): (c: Id)
    requires i <= |made|
  {
    if i == 0 then prev else made[i - 1].0
  }

  /** Of what start did not know, t only knows the first i commitments. */
  ghost predicate Knows(start: Tree, t: Tree, made: seq<(Id, Header)>, i: nat)
    requires i <= |made|
  {
    && start.header.Keys <= t.header.Keys && start.live <= t.live && t.root == start.root && t.live <= t.header.Keys
    && (forall c | c in start.header :: t.header[c] == start.header[c])
    && (forall c | c in t.header && c !in start.header :: c in Ids(made, i))
  }

  /** The loop starts on the chain, or with a commitment that is on the chain. */
  predicate Joins(start: Tree, target: ChainId, prev: Id, made: seq<(Id, Header)>) {
    start.On(prev, target) || (made != [] && start.On(made[0].0, target))
  }

  /** The first i commitments are on the chain if the loop joins it, and the first of them is not otherwise. */
  ghost predicate Outcome(start: Tree, t: Tree, target: ChainId, prev: Id, made: seq<(Id, Header)>, i: nat)
    requires i <= |made|
  {
    if i == 0 then t.chain == start.chain && t.forkingPoint == start.forkingPoint
    else if Joins(start, target, prev, made) then forall k | 0 <= k < i :: t.On(made[k].0, target)
    else !t.On(made[0].0, target)
  }

  /** The first i commitments are in place, and what was at or below prev has not moved. */
  ghost predicate Placed(start: Tree, t: Tree, target: ChainId, prev: Id, made: seq<(Id, Header)>, i: nat)
    requires prev in start.header && start.live <= start.header.Keys && t.live <= t.header.Keys && i <= |made|
  {
    var s := start.Slot(prev);
    && Latest(prev, made, i) in t.live && t.Slot(Latest(prev, made, i)) == s + i
    && (forall k | 0 <= k < i :: made[k].0 in t.live && t.Slot(made[k].0) == s + 1 + k)
    && (forall d | d in start.live && start.Slot(d) <= s :: t.ChainOf(d) == start.ChainOf(d))
    && Outcome(start, t, target, prev, made, i)
  }

  ghost predicate Underway(start: Tree, t: Tree, target: ChainId, prev: Id, made: seq<(Id, Header)>, i: nat)
    requires i <= |made|
  {
    && prev in start.header && prev in start.live && start.live <= start.header.Keys && start.root in start.header
    && t.live <= t.header.Keys && t.Inv() && Knows(start, t, made, i) && Placed(start, t, target, prev, made, i)
  }

  lemma UnderwayStart(start: Tree, target: ChainId, prev: Id, made: seq<(Id, Header)>)
    requires start.Inv() && prev in start.live
    ensures Underway(start, start, target, prev, made, 0)
  {
    hide Tree.MainChildren, Tree.Partitioned, Tree.Grounded, Tree.Indexed, Tree.Linked;
  }

  /** The next commitment can be published if it is not known yet. */
  lemma NextPublish(start: Tree, t: Tree, target: ChainId, prev: Id, made: seq<(Id, Header)>, i: nat)
    requires i < |made| && Underway(start, t, target, prev, made, i) && Continues(start, prev, made, i)
    requires made[i].0 !in t.header
    ensures CanPublish(t, made[i].0, made[i].1)
  {
    hide Tree.MainChildren, Tree.Partitioned, Tree.Grounded, Tree.Indexed, Tree.Linked;
  }

  /** t, with the commitment published if it was not known. */
  function Published(t: Tree, id: Id, h: Header): (u: Tree) {
    if id in t.header then t else Publish(t, id, h)
  }

  lemma PublishedKnows(start: Tree, t: Tree, prev: Id, made: seq<(Id, Header)>, i: nat)
    requires i < |made| && prev in start.header && start.root in start.header
    requires Knows(start, t, made, i) && Continues(start, prev, made, i)
    ensures var u := Published(t, made[i].0, made[i].1);
            && Knows(start, u, made, i + 1)
            && made[i].0 in u.live && u.header[made[i].0] == made[i].1 && made[i].0 != u.root
  {
    var u := Published(t, made[i].0, made[i].1);
    IdsGrow(made, i);
    forall c | c in u.header && c !in start.header
      ensures c in Ids(made, i + 1)
    {
      if c != made[i].0 {
        assert c in t.header;
      }
    }
  }

  lemma IdsGrow(made: seq<(Id, Header)>, i: nat)
    requires i < |made|
    ensures Ids(made, i + 1) == Ids(made, i) + {made[i].0}
  {
    assert forall c | c in Ids(made, i + 1) :: c in Ids(made, i) + {made[i].0};
    assert forall c | c in Ids(made, i) :: c in Ids(made, i + 1);
    assert made[i].0 in Ids(made, i + 1);
  }

  lemma PublishedPlaced(start: Tree, t: Tree, target: ChainId, prev: Id, made: seq<(Id, Header)>, i: nat)
    requires prev in start.header && start.live <= start.header.Keys && t.live <= t.header.Keys && i < |made|
    requires Placed(start, t, target, prev, made, i)
    ensures var u := Published(t, made[i].0, made[i].1);
            u.live <= u.header.Keys && Placed(start, u, target, prev, made, i)
  {
    var u := Published(t, made[i].0, made[i].1);
    assert u.chain == t.chain && t.live <= u.live;
    assert forall c | c in t.header :: u.header[c] == t.header[c];
  }

  /** Once it is known, it can be linked or forced onto the chain. */
  lemma NextEngineable(start: Tree, u: Tree, target: ChainId, prev: Id, made: seq<(Id, Header)>, i: nat)
    requires prev in start.header && start.live <= start.header.Keys && i < |made| && Continues(start, prev, made, i)
    requires u.Inv() && u.live <= u.header.Keys && Placed(start, u, target, prev, made, i)
    requires made[i].0 in u.live && u.header[made[i].0] == made[i].1 && made[i].0 != u.root
    ensures Engineable(u, made[i].0) && (made[i].0 !in u.parent <==> CanLink(u, made[i].0))
  {
    hide Tree.MainChildren, Tree.Partitioned, Tree.Grounded, Tree.Indexed, Tree.Linked;
  }

  lemma EngineKnows(start: Tree, u: Tree, target: ChainId, prev: Id, made: seq<(Id, Header)>, i: nat)
    requires prev in start.header && start.live <= start.header.Keys && i < |made| && Knows(start, u, made, i + 1)
    requires made[i].0 in u.header && Engineable(u, made[i].0)
    ensures Knows(start, EngineTree(u, made[i].0, target), made, i + 1)
  {
    hide EngineTree, Engineable, Ids, Tree.Inv;
    EngineDone(u, made[i].0, target);
  }

  /** v is u with the i-th commitment linked or forced. */
  ghost predicate Engined(u: Tree, v: Tree, c: Id, target: ChainId)
    requires c in u.header
  {
    && v.header == u.header && v.live == u.live && v.root == u.root
    && (forall d | d in u.live && d in u.header && u.Slot(d) < u.Slot(c) :: v.ChainOf(d) == u.ChainOf(d))
    && (u.ChainOf(u.header[c].previous) == Some(target) ==> v.On(c, target))
    && (target in u.forkingPoint ==>
          (v.On(c, target) <==> u.On(c, target) || u.ChainOf(u.header[c].previous) == Some(target)))
  }

  lemma EngineOutcome(start: Tree, u: Tree, target: ChainId, prev: Id, made: seq<(Id, Header)>, i: nat, v: Tree)
    requires prev in start.header && start.live <= start.header.Keys && u.live <= u.header.Keys && i < |made|
    requires target in start.forkingPoint && Continues(start, prev, made, i) && Placed(start, u, target, prev, made, i)
    requires made[i].0 in u.live && u.header[made[i].0] == made[i].1 && Engined(u, v, made[i].0, target)
    ensures Outcome(start, v, target, prev, made, i + 1)
  {
    hide Ids;
    if i > 0 {
      assert u.Slot(made[0].0) < u.Slot(made[i].0);
      if Joins(start, target, prev, made) {
        forall k | 0 <= k < i + 1
          ensures v.On(made[k].0, target)
        {
          if k < i {
            assert u.On(made[k].0, target) && u.Slot(made[k].0) < u.Slot(made[i].0);
          }
        }
      }
    }
  }

  lemma EnginePlaced(start: Tree, u: Tree, target: ChainId, prev: Id, made: seq<(Id, Header)>, i: nat, v: Tree)
    requires prev in start.header && start.live <= start.header.Keys && u.live <= u.header.Keys && i < |made|
    requires target in start.forkingPoint && Continues(start, prev, made, i) && Placed(start, u, target, prev, made, i)
    requires made[i].0 in u.live && u.header[made[i].0] == made[i].1 && Engined(u, v, made[i].0, target)
    requires forall d | d in start.live :: d in u.live && u.header[d] == start.header[d]
    ensures v.live <= v.header.Keys && Placed(start, v, target, prev, made, i + 1)
  {
    EngineOutcome(start, u, target, prev, made, i, v);
    hide Ids, Outcome;
    var s := start.Slot(prev);
    forall d | d in start.live && start.Slot(d) <= s
      ensures v.ChainOf(d) == start.ChainOf(d)
    {
      assert u.Slot(d) < u.Slot(made[i].0);
    }
  }

  lemma EngineNext(start: Tree, u: Tree, target: ChainId, prev: Id, made: seq<(Id, Header)>, i: nat)
    requires prev in start.live && start.live <= start.header.Keys && i < |made| && Continues(start, prev, made, i)
    requires start.root in start.header && Knows(start, u, made, i + 1) && Placed(start, u, target, prev, made, i)
    requires made[i].0 in u.live && u.header[made[i].0] == made[i].1 && Engineable(u, made[i].0)
    requires target in start.forkingPoint
    ensures Underway(start, EngineTree(u, made[i].0, target), target, prev, made, i + 1)
  {
    hide EngineTree, Placed, Continues, Ids, Tree.Chained, Tree.Indexed;
    EngineDone(u, made[i].0, target);
    EngineKnows(start, u, target, prev, made, i);
    EnginePlaced(start, u, target, prev, made, i, EngineTree(u, made[i].0, target));
  }

  /**
   `publishEngineCommitments`: publish, force and link slot by slot. Every
   commitment the engine made is on its chain afterwards exactly if the loop
   starts on the chain, or with a commitment that is on the chain already.
   Nothing at or below the slot it started from has moved.
   */
  method PublishEngineCommitments(node: Node.Commitments, target: ChainId, prev: Id, made: seq<(Id, Header)>)
    requires node.Valid() && prev in node.live && prev in node.header && target in node.forkingPoint
    requires Segment(node.State(), prev, made)
    modifies node
    ensures node.Valid()
    ensures (forall i | 0 <= i < |made| :: node.State().On(made[i].0, target)) <==>
            made == [] || old(node.State()).On(prev, target) || old(node.State()).On(made[0].0, target)
    ensures forall d | d in old(node.live) && d in old(node.header) && old(node.header)[d].slot <= old(node.header)[prev].slot ::
              node.State().ChainOf(d) == old(node.State()).ChainOf(d)
  {
    hide Tree.Chained, Tree.Indexed, Continues, Knows, Placed, Engineable, EngineTree, Step, Do, Applicable, Tree.EntriesRight, Tree.Consistent,
         Joins;
    ghost var start := CompleteTree(node.State());
    ghost var ideal := start;        // the tree with complete indexes
    UnderwayStart(start, target, prev, made);
    SegmentAlike(start, node.State(), prev, made);
    var i := 0;
    while i < |made|
      invariant 0 <= i <= |made| && node.Valid() && Alike(ideal, node.State())
      invariant Underway(start, ideal, target, prev, made, i)
    {
      var id, h := made[i].0, made[i].1;
      assert Continues(start, prev, made, i);
      PublishedKnows(start, ideal, prev, made, i);
      PublishedPlaced(start, ideal, target, prev, made, i);
      ghost var known := Published(ideal, id, h);
      if id !in node.header {
        NextPublish(start, ideal, target, prev, made, i);
        PublishAlike(ideal, node.State(), id, h);
        node.PublishCommitment(id, h);
      }
      NextEngineable(start, known, target, prev, made, i);
      EngineNext(start, known, target, prev, made, i);
      EngineAlike(known, node.Contents(), id, target);
      if id !in node.parent {
        node.LinkFromEngine(id, target);
      } else {
        node.ForceChain(id, target);
      }
      ideal := EngineTree(known, id, target);
      i := i + 1;
    }
    UnderwayEnd(start, ideal, target, prev, made);
  }

  lemma CompleteTree(u: Tree) returns (t: Tree)
    requires u.Consistent()
    ensures t.Inv() && Alike(t, u)
  {
    CompletedInv(u);
    t := Completed(u);
  }

  lemma SegmentAlike(t: Tree, u: Tree, prev: Id, made: seq<(Id, Header)>)
    requires Alike(t, u) && prev in u.header && Segment(u, prev, made)
    ensures prev in t.header && Segment(t, prev, made)
  {
    forall i: nat | i < |made|
      ensures Continues(t, prev, made, i)
    {
      assert Continues(u, prev, made, i);
    }
  }

  lemma PublishAlike(t: Tree, u: Tree, id: Id, h: Header)
    requires Alike(t, u) && CanPublish(t, id, h) && t.Inv() && u.Consistent()
    ensures CanPublish(u, id, h) && Publish(t, id, h).Inv()
    ensures Applicable(u, PublishCommitment(id, h))
    ensures forall joined, clock ::
              Alike(Publish(t, id, h), Do(Ordered(u, joined, clock), PublishCommitment(id, h)).tree)
  {
    hide Tree.Linked, Tree.MainChildren, Tree.Partitioned, Tree.Grounded, Tree.Indexed, Tree.EntriesRight;
    PublishInv(t, id, h);
  }

  /** What the loop does to the real tree is alike what it does to the one with complete indexes. */
  lemma EngineAlike(t: Tree, s: Ordered, c: Id, target: ChainId)
    requires Alike(t, s.tree) && Engineable(t, c) && s.tree.Consistent() && (c !in t.parent <==> CanLink(t, c))
    ensures c in s.tree.live && (c !in s.tree.parent ==> CanLink(s.tree, c))
    ensures var a := if c !in s.tree.parent then LinkFromEngine(c, target) else ForceOnto(c, target);
            Applicable(s.tree, a) && Alike(EngineTree(t, c, target), Do(s, a).tree)
  {
    hide Tree.Linked, Tree.MainChildren, Tree.Partitioned, Tree.Grounded, Tree.Indexed, Tree.EntriesRight, Step, ForceInOrder, LinkForced, Force;
    var a := if c !in s.tree.parent then LinkFromEngine(c, target) else ForceOnto(c, target);
    DoAlike(t, s, a);
    EngineTreeIs(t, c, target);
    EngineStep(t, c, target);
  }

  lemma EngineStep(t: Tree, c: Id, target: ChainId)
    requires Engineable(t, c)
    ensures CanLink(t, c) && Applicable(t, LinkFromEngine(c, target)) ==>
              Step(t, LinkFromEngine(c, target)) == LinkForced(t, c, target)
    ensures Applicable(t, ForceOnto(c, target)) ==> Step(t, ForceOnto(c, target)) == Force(t, c, target)
  {
  }

  lemma EngineTreeIs(t: Tree, c: Id, target: ChainId)
    requires Engineable(t, c) && (c !in t.parent <==> CanLink(t, c))
    ensures EngineTree(t, c, target) == if c !in t.parent then LinkForced(t, c, target) else Force(t, c, target)
  {
  }

  lemma UnderwayEnd(start: Tree, t: Tree, target: ChainId, prev: Id, made: seq<(Id, Header)>)
    requires Underway(start, t, target, prev, made, |made|)
    ensures (forall i | 0 <= i < |made| :: t.On(made[i].0, target)) <==>
            made == [] || start.On(prev, target) || start.On(made[0].0, target)
    ensures forall d | d in start.live && d in start.header && start.header[d].slot <= start.header[prev].slot ::
              t.ChainOf(d) == start.ChainOf(d)
  {
    hide Tree.Chained, Tree.Indexed;
  }

  lemma EngineDone(t: Tree, c: Id, target: ChainId)
    requires Engineable(t, c)
    ensures EngineTree(t, c, target).Inv() && Engined(t, EngineTree(t, c, target), c, target)
  {
    hide Tree.Chained, Tree.Indexed, EngineTree;
    EngineInv(t, c, target);
    EngineTreeShape(t, c, target);
    forall d | d in t.live && d in t.header && t.Slot(d) < t.Slot(c)
      ensures EngineTree(t, c, target).ChainOf(d) == t.ChainOf(d)
    {
      EngineKeepsLower(t, c, target, d);
    }
    if t.ChainOf(t.header[c].previous) == Some(target) {
      EnginePromotes(t, c, target);
    }
    if target in t.forkingPoint {
      EngineReaches(t, c, target);
    }
  }
}

/**
 `Less` and the heaviest commitment over every run, in whatever order children
 react.
 */
module ForkRuns {
  import opened CommitmentTree
  import opened ForkChoice
  import opened ForkOrder
  import opened TreeRuns
  import opened ReactionOrder

  /** No action before the i-th state was harmful. */
  ghost predicate Harmless(states: seq<Ordered>, actions: seq<Action>, i: nat)
    requires ReactionOrder.IsRun(states, actions) && i < |states|
  {
    forall k | 0 <= k < i :: !Harmful(states[k], actions[k])
  }

  /**
   Over every run, `Less` on two commitments of one slot is their order by parent
   links and IDs if no action before was harmful, and otherwise if and only if no
   commitment that is missing from its slot index at their first difference has
   the larger ID.
   */
  lemma RunLess(states: seq<Ordered>, actions: seq<Action>, i: nat, c: Id, o: Id)
    requires ReactionOrder.IsRun(states, actions) && i < |states|
    requires states[i].tree.Consistent() ==>
               && SolidId(states[i].tree, c) && SolidId(states[i].tree, o)
               && states[i].tree.Slot(c) == states[i].tree.Slot(o) && c != o
    ensures states[i].tree.Consistent()
    ensures Harmless(states, actions, i) ==> NodeLess(states[i].tree, c, o) == TreeLess(states[i].tree, c, o)
    ensures exists d, x, y :: FirstDifference(states[i].tree, c, o, d, x, y)
    ensures forall d, x, y | FirstDifference(states[i].tree, c, o, d, x, y) ::
              && x in states[i].tree.header && y in states[i].tree.header
              && (NodeLess(states[i].tree, c, o) == TreeLess(states[i].tree, c, o) <==>
                    (states[i].tree.Unlisted(x) ==> x < y) && (states[i].tree.Unlisted(y) ==> y < x))
  {
    hide ReactionOrder.IsRun, Harmful, NodeLess, TreeLess, FirstDifference, Tree.MainChildren, Tree.Partitioned, Tree.Grounded,
         Tree.Indexed, Tree.Single, Tree.EntriesRight;
    RunConsistent(states, actions, i);
    var t := states[i].tree;
    if Harmless(states, actions, i) {
      GuardedInv(states, actions, i);
      NothingMissing(t, c, o);
    }
    var d, x, y := FirstDifferenceExists(t, c, o);
    forall d, x, y | FirstDifference(t, c, o, d, x, y)
      ensures && x in t.header && y in t.header
              && (NodeLess(t, c, o) == TreeLess(t, c, o) <==> (t.Unlisted(x) ==> x < y) && (t.Unlisted(y) ==> y < x))
    {
      AgreesIff(t, c, o, d, x, y);
    }
  }

  /** Any two nodes without a harmful action so far pick the same heaviest commitment. */
  lemma RunHeaviestAgrees(
    states: seq<Ordered>, actions: seq<Action>, i: nat, others: seq<Ordered>, moves: seq<Action>, j: nat,
    members: set<Id>, weight: map<Id, nat>, slot: nat, h: Id, k: Id)
    requires ReactionOrder.IsRun(states, actions) && i < |states| && Harmless(states, actions, i)
    requires ReactionOrder.IsRun(others, moves) && j < |others| && Harmless(others, moves, j)
    requires SameContents(states[i].tree, others[j].tree)
    requires states[i].tree.Inv() ==>
               && SlotMembers(states[i].tree, members, weight, slot) && IsHeaviest(states[i].tree, members, weight, h)
    requires others[j].tree.Inv() ==>
               && SlotMembers(others[j].tree, members, weight, slot) && IsHeaviest(others[j].tree, members, weight, k)
    ensures h == k
  {
    hide ReactionOrder.IsRun, Harmful, IsHeaviest, Tree.MainChildren, Tree.Partitioned, Tree.Grounded, Tree.Indexed;
    GuardedInv(states, actions, i);
    GuardedInv(others, moves, j);
    CompleteHeaviest(states[i].tree, members, weight, slot, h);
    CompleteHeaviest(others[j].tree, members, weight, slot, k);
    TreeHeaviestAgrees(states[i].tree, others[j].tree, members, weight, slot, h, k);
  }
}

/**
 What the flags and weights of a reachable node add up to along a chain.
 */
module WeightClaims {
  import opened CommitmentTree
  import opened AttestedWeights
  import opened ForkChoice

  // ----- the flags along a path

  /** Attested, synced and verified commitments have only such ancestors. */
  lemma {:induction false} AncestorsFlagged(n: Node, c: Id, s: nat)
    requires NodeInv(n) && c in n.tree.live
    ensures c in n.status.attested ==> n.tree.AncestorAt(c, s) in n.status.attested
    ensures c in n.status.synced ==> n.tree.AncestorAt(c, s) in n.status.synced
    ensures c in n.status.verified ==> n.tree.AncestorAt(c, s) in n.status.verified
    decreases n.tree.Slot(c)
  {
    hide Tree.MainChildren, Tree.Partitioned, Tree.Grounded, Tree.Single, Tree.EntriesRight, Recorded, Waiting, Bounded;
    if c in n.tree.parent && s < n.tree.Slot(c) {
      AncestorsFlagged(n, n.tree.parent[c], s);
    }
  }

  /** Of two commitments on one chain, the lower one is an ancestor of the parent of the higher one. */
  lemma LowerIsBelowParent(t: Tree, c: Id, d: Id)
    requires t.Chained() && t.Single() && c in t.chain && d in t.chain && t.chain[c] == t.chain[d] && t.Slot(c) < t.Slot(d)
    requires d in t.parent
    ensures t.parent[d] in t.live && t.AncestorAt(t.parent[d], t.Slot(c)) == c
  {
    SameChainAncestor(t, c, d);
  }

  lemma RequesterIsLowest(n: Node, c: Id, d: Id)
    requires NodeInv(n) && Requests(n, d) && c in n.tree.chain && n.tree.chain[c] == n.tree.chain[d]
    requires c in n.tree.header && d in n.tree.header && n.tree.Slot(c) < n.tree.Slot(d)
    ensures c in n.status.attested
  {
    LowerIsBelowParent(n.tree, c, d);
    AncestorsFlagged(n, n.tree.parent[d], n.tree.Slot(c));
  }

  /** On each chain at most one commitment requests attestations. */
  lemma OneRequesterPerChain(n: Node, c: Id, d: Id)
    requires NodeInv(n) && Requests(n, c) && Requests(n, d) && n.tree.chain[c] == n.tree.chain[d]
    ensures c == d
  {
    if c != d {
      OnePerSlotApart(n.tree, c, d);
      if n.tree.Slot(c) < n.tree.Slot(d) {
        RequesterIsLowest(n, c, d);
      } else {
        RequesterIsLowest(n, d, c);
      }
    }
  }

  lemma OnePerSlotApart(t: Tree, c: Id, d: Id)
    requires t.Chained() && t.Single() && c in t.chain && d in t.chain && t.chain[c] == t.chain[d] && c != d
    ensures c in t.header && d in t.header && t.Slot(c) != t.Slot(d)
  {
    if t.Slot(c) == t.Slot(d) {
      SameSlot(t, c, d);
    }
  }

  lemma SyncerIsLowest(n: Node, c: Id, d: Id)
    requires NodeInv(n) && WarpSyncs(n, d) && c in n.tree.chain && n.tree.chain[c] == n.tree.chain[d]
    requires c in n.tree.header && d in n.tree.header && n.tree.Slot(c) < n.tree.Slot(d)
    ensures c in n.status.synced
  {
    LowerIsBelowParent(n.tree, c, d);
    AncestorsFlagged(n, n.tree.parent[d], n.tree.Slot(c));
  }

  /** On each chain at most one commitment requests its blocks by warp sync. */
  lemma OneWarpSyncPerChain(n: Node, c: Id, d: Id)
    requires NodeInv(n) && WarpSyncs(n, c) && WarpSyncs(n, d) && n.tree.chain[c] == n.tree.chain[d]
    ensures c == d
  {
    if c != d {
      OnePerSlotApart(n.tree, c, d);
      if n.tree.Slot(c) < n.tree.Slot(d) {
        SyncerIsLowest(n, c, d);
      } else {
        SyncerIsLowest(n, d, c);
      }
    }
  }

  /** So over every run each chain has at most one commitment that asks for attestations, and one for blocks. */
  lemma RunOneRequest(nodes: seq<Node>, events: seq<Event>, i: nat, c: Id, d: Id)
    requires IsNodeRun(nodes, events) && i < |nodes| && c in nodes[i].tree.chain && d in nodes[i].tree.chain
    requires nodes[i].tree.chain[c] == nodes[i].tree.chain[d] && c != d
    ensures !(Requests(nodes[i], c) && Requests(nodes[i], d)) && !(WarpSyncs(nodes[i], c) && WarpSyncs(nodes[i], d))
  {
    hide NodeInv, IsNodeRun;
    NodeRunInv(nodes, events, i);
    if Requests(nodes[i], c) && Requests(nodes[i], d) {
      OneRequesterPerChain(nodes[i], c, d);
    }
    if WarpSyncs(nodes[i], c) && WarpSyncs(nodes[i], d) {
      OneWarpSyncPerChain(nodes[i], c, d);
    }
  }

  // ----- above the latest verified commitment

  /** `IsAboveLatestVerifiedCommitment`, as it is derived from the parent. */
  predicate IsAbove(n: Node, c: Id)
    requires n.tree.Known() && n.tree.Linked() && c in n.tree.live
    decreases n.tree.Slot(c)
  {
    c in n.tree.parent &&
    (IsAbove(n, n.tree.parent[c]) || (n.tree.parent[c] in n.status.verified && c !in n.status.verified))
  }

  /** A solid commitment is above the latest verified one exactly when it is not verified itself. */
  lemma {:induction false} AboveMeansUnverified(n: Node, c: Id)
    requires NodeInv(n) && SolidId(n.tree, c)
    ensures IsAbove(n, c) <==> c !in n.status.verified
    decreases n.tree.Slot(c)
  {
    hide Tree.MainChildren, Tree.Partitioned, Tree.Grounded, Tree.Single, Tree.EntriesRight, Waiting, Bounded;
    if c != n.tree.root {
      AboveMeansUnverified(n, n.tree.parent[c]);
    }
  }

  // ----- cumulative attested weight

  /** The values the derived variable `CumulativeAttestedWeight` settles on, with uint64 addition. */
  ghost predicate Settled(n: Node, cumulative: map<Id, uint64>)
    requires n.tree.Known() && n.tree.Linked()
  {
    && n.tree.root in cumulative
    && cumulative[n.tree.root] == n.tree.header[n.tree.root].cumulativeWeight
    && (forall c | c in n.tree.parent && c in n.status.attested && c != n.tree.root ::
          && c in cumulative && n.tree.parent[c] in cumulative
          && cumulative[c] == (cumulative[n.tree.parent[c]] + Attested(n.status, c)) % 0x1_0000_0000_0000_0000)
  }

  /** The claimed weight never falls on the way from the root to c. */
  predicate NeverFalls(t: Tree, c: Id)
    requires t.Known() && t.Linked() && c in t.live
    decreases t.Slot(c)
  {
    c == t.root || c !in t.parent || (Rises(t, c) && NeverFalls(t, t.parent[c]))
  }

  /**
   As long as claims do not fall, the attested weight stays below the claim, so
   the addition never wraps around.
   */
  lemma {:induction false} AttestedBelowClaim(n: Node, cumulative: map<Id, uint64>, c: Id)
    requires NodeInv(n) && Settled(n, cumulative) && SolidId(n.tree, c) && c in n.status.attested
    requires NeverFalls(n.tree, c)
    ensures c in cumulative && cumulative[c] <= n.tree.header[c].cumulativeWeight
    ensures c != n.tree.root ==> n.tree.parent[c] in cumulative
                                 && cumulative[c] == cumulative[n.tree.parent[c]] + Attested(n.status, c)
    decreases n.tree.Slot(c)
  {
    hide Tree.MainChildren, Tree.Partitioned, Tree.Grounded, Tree.Single, Tree.EntriesRight, Waiting, Recorded;
    if c != n.tree.root {
      AttestedBelowClaim(n, cumulative, n.tree.parent[c]);
      assert Attested(n.status, c) <= Weight(n.tree, c);
    }
  }

  // ----- without the condition on claims

  /** The cumulative attested weight as an unbounded sum. */
  function Sum(n: Node, c: Id): (w: nat)
    requires n.tree.Known() && n.tree.Linked() && SolidId(n.tree, c)
    decreases n.tree.Slot(c)
  {
    if c == n.tree.root then n.tree.header[c].cumulativeWeight
    else Sum(n, n.tree.parent[c]) + Attested(n.status, c)
  }

  /** How much the claims fall in total on the way from the root to c. */
  function Falls(t: Tree, c: Id): (w: nat)
    requires t.Known() && t.Linked() && SolidId(t, c)
    decreases t.Slot(c)
  {
    if c == t.root then 0
    else Falls(t, t.parent[c])
         + if Rises(t, c) then 0 else t.header[t.parent[c]].cumulativeWeight - t.header[c].cumulativeWeight
  }

  /** How much of the weight claimed on the way from the root to c has not been attested. */
  function Missing(n: Node, c: Id): (w: int)
    requires n.tree.Known() && n.tree.Linked() && SolidId(n.tree, c)
    decreases n.tree.Slot(c)
  {
    if c == n.tree.root then 0
    else Missing(n, n.tree.parent[c]) + Weight(n.tree, c) - Attested(n.status, c)
  }

  /** Every commitment on the way from the root to c has its whole weight attested. */
  predicate FullyAttested(n: Node, c: Id)
    requires n.tree.Known() && n.tree.Linked() && SolidId(n.tree, c)
    decreases n.tree.Slot(c)
  {
    c == n.tree.root || (Attested(n.status, c) == Weight(n.tree, c) && FullyAttested(n, n.tree.parent[c]))
  }

  /** For an attested commitment, the derived variable is the sum in 64 bits. */
  lemma {:induction false} SettledIsSum(n: Node, cumulative: map<Id, uint64>, c: Id)
    requires NodeInv(n) && Settled(n, cumulative) && SolidId(n.tree, c) && c in n.status.attested
    ensures c in cumulative && cumulative[c] == Sum(n, c) % 0x1_0000_0000_0000_0000
    decreases n.tree.Slot(c)
  {
    hide Tree.MainChildren, Tree.Partitioned, Tree.Grounded, Tree.Single, Tree.EntriesRight, Waiting, Recorded, Bounded;
    if c != n.tree.root {
      SettledIsSum(n, cumulative, n.tree.parent[c]);
      WrapOnce(Sum(n, n.tree.parent[c]), Attested(n.status, c));
    }
  }

  /** Wrapping around before an addition makes no difference. */
  lemma WrapOnce(a: nat, b: nat)
    ensures (a % 0x1_0000_0000_0000_0000 + b) % 0x1_0000_0000_0000_0000 == (a + b) % 0x1_0000_0000_0000_0000
  {
  }

  /** Whatever is claimed and attested, the sum is the claim, plus what claims fell, minus what is missing. */
  lemma {:induction false} SumBalance(n: Node, c: Id)
    requires NodeInv(n) && SolidId(n.tree, c)
    ensures Sum(n, c) + Missing(n, c) == n.tree.header[c].cumulativeWeight + Falls(n.tree, c)
    ensures Missing(n, c) >= 0 && (Missing(n, c) == 0 <==> FullyAttested(n, c))
    decreases n.tree.Slot(c)
  {
    hide Tree.MainChildren, Tree.Partitioned, Tree.Grounded, Tree.Single, Tree.EntriesRight, Waiting, Recorded, Closed;
    if c != n.tree.root {
      SumBalance(n, n.tree.parent[c]);
      assert Attested(n.status, c) <= Weight(n.tree, c);
    }
  }

  lemma {:induction false} FallsNever(t: Tree, c: Id)
    requires t.Known() && t.Linked() && SolidId(t, c)
    ensures Falls(t, c) == 0 <==> NeverFalls(t, c)
    decreases t.Slot(c)
  {
    if c != t.root {
      FallsNever(t, t.parent[c]);
    }
  }

  /**
   The cumulative attested weight of an attested commitment is the true sum and
   within the claim exactly when claims fell by no more than what is missing.
   */
  lemma WithinClaim(n: Node, cumulative: map<Id, uint64>, c: Id)
    requires NodeInv(n) && Settled(n, cumulative) && SolidId(n.tree, c) && c in n.status.attested
    ensures c in cumulative
    ensures cumulative[c] == (n.tree.header[c].cumulativeWeight + Falls(n.tree, c) - Missing(n, c)) % 0x1_0000_0000_0000_0000
    ensures cumulative[c] == Sum(n, c) <= n.tree.header[c].cumulativeWeight <==> Falls(n.tree, c) <= Missing(n, c)
  {
    hide Tree.MainChildren, Tree.Partitioned, Tree.Grounded, Tree.Single, Tree.EntriesRight, Waiting, Recorded, Closed, Bounded;
    SettledIsSum(n, cumulative, c);
    SumBalance(n, c);
    FitsClaim(Sum(n, c), n.tree.header[c].cumulativeWeight);
  }

  lemma FitsClaim(sum: nat, claim: uint64)
    ensures sum <= claim ==> sum % 0x1_0000_0000_0000_0000 == sum
  {
  }

  /** With everything attested, that means that no claim on the path fell. */
  lemma FullyAttestedWithinClaim(n: Node, cumulative: map<Id, uint64>, c: Id)
    requires NodeInv(n) && Settled(n, cumulative) && SolidId(n.tree, c) && c in n.status.attested && FullyAttested(n, c)
    ensures c in cumulative
    ensures cumulative[c] == Sum(n, c) <= n.tree.header[c].cumulativeWeight <==> NeverFalls(n.tree, c)
  {
    hide Tree.MainChildren, Tree.Partitioned, Tree.Grounded, Tree.Single, Tree.EntriesRight, Waiting, Recorded, Closed, Bounded, Settled, Sum;
    WithinClaim(n, cumulative, c);
    SumBalance(n, c);
    FallsNever(n.tree, c);
  }
}

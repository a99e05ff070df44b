/**
 What each event does to the flags and weights of every commitment.
 */
module StatusEffects {
  import opened CommitmentTree
  import opened TreeRuns
  import opened ReactionOrder
  import opened AttestedWeights

  /** The flags and the weight of d stay what they are. */
  predicate Kept(s: Status, r: Status, d: Id) {
    && Attested(r, d) == Attested(s, d)
    && (d in r.attested <==> d in s.attested) && (d in r.synced <==> d in s.synced) && (d in r.verified <==> d in s.verified)
    && (d in r.zeroWeight <==> d in s.zeroWeight) && (d in r.syncing <==> d in s.syncing)
  }

  predicate SameModes(s: Status, r: Status) {
    && r.requestAttestations == s.requestAttestations && r.startEngine == s.startEngine && r.warpSyncMode == s.warpSyncMode
  }

  /**
   Verified attestations for c. If c did not ask for them nothing happens.
   Otherwise its attested weight is the larger one of what it was and what was
   verified, and it is attested, and asks no more, if and only if no less was
   verified than before.
   */
  lemma AttestationsEffect(n: Node, c: Id, seats: uint64, d: Id)
    requires Possible(n, AttestationsVerified(c, seats))
    ensures var m, former := Next(n, AttestationsVerified(c, seats)), Attested(n.status, c);
            && m.tree == n.tree && m.joined == n.joined && m.clock == n.clock && SameModes(n.status, m.status)
            && (!Requests(n, c) ==> m == n)
            && (Requests(n, c) ==>
                  && Attested(m.status, c) >= seats && Attested(m.status, c) >= former
                  && (Attested(m.status, c) == seats || Attested(m.status, c) == former)
                  && (c in m.status.attested <==> seats >= former)
                  && (Requests(m, c) <==> seats < former)
                  && (c in m.status.synced <==> c in n.status.synced) && (c in m.status.verified <==> c in n.status.verified))
            && (d != c ==> Kept(n.status, m.status, d))
  {
    hide Tree.Consistent;
  }

  /** An engine commits c: all its weight is attested, it is verified, and it asks for nothing any more. */
  lemma EngineEffect(n: Node, c: Id, target: ChainId, d: Id)
    requires NodeInv(n) && Possible(n, EngineCommits(c, target))
    ensures var m := Next(n, EngineCommits(c, target));
            && c in m.tree.parent && m.tree.parent[c] == n.tree.header[c].previous && m.tree.header == n.tree.header
            && c in m.tree.header && m.tree.parent[c] in m.tree.header
            && Attested(m.status, c) == Weight(m.tree, c)
            && c in m.status.verified && c in m.status.attested && c in m.status.synced
            && !Requests(m, c) && !WarpSyncs(m, c) && SameModes(n.status, m.status)
            && (d != c ==> Kept(n.status, m.status, d))
  {
    hide Do, Tree.MainChildren, Tree.Partitioned, Tree.Grounded, Tree.Single, Tree.EntriesRight;
    EngineShape(n.Order(), c, target);
    if c in n.tree.parent {
      assert Attested(n.status, c) <= Weight(n.tree, c);
    } else {
      assert Untouched(n.status, c);
    }
  }

  /** A queued commitment without weight is marked attested, and asks no more. */
  lemma MarkEffect(n: Node, c: Id, d: Id)
    requires Possible(n, MarkZeroWeight(c))
    ensures var m := Next(n, MarkZeroWeight(c));
            && m.tree == n.tree && c in m.status.attested && !Requests(m, c) && SameModes(n.status, m.status)
            && Attested(m.status, c) == Attested(n.status, c)
            && (c in m.status.synced <==> c in n.status.synced) && (c in m.status.verified <==> c in n.status.verified)
            && (d != c ==> Kept(n.status, m.status, d))
  {
    hide Tree.Consistent;
  }

  /** A finished warp sync marks c synced, and c asks for its blocks no more. */
  lemma SyncEffect(n: Node, c: Id, d: Id)
    requires Possible(n, WarpSyncDone(c))
    ensures var m := Next(n, WarpSyncDone(c));
            && m.tree == n.tree && c in m.status.synced && !WarpSyncs(m, c) && SameModes(n.status, m.status)
            && Attested(m.status, c) == Attested(n.status, c)
            && (c in m.status.attested <==> c in n.status.attested) && (c in m.status.verified <==> c in n.status.verified)
            && (d != c ==> Kept(n.status, m.status, d))
  {
    hide Tree.Consistent;
  }

  /** Queueing work on c changes nothing but the queue. */
  lemma QueueEffect(n: Node, e: Event, d: Id)
    requires Possible(n, e) && (e.QueueZeroWeight? || e.WarpSyncAccepted?)
    ensures var m := Next(n, e);
            && m.tree == n.tree && SameModes(n.status, m.status) && (d != e.id ==> Kept(n.status, m.status, d))
            && (e.QueueZeroWeight? ==> e.id in m.status.zeroWeight) && (e.WarpSyncAccepted? ==> e.id in m.status.syncing)
            && m.status == n.status.(zeroWeight := m.status.zeroWeight, syncing := m.status.syncing)
  {
    hide Tree.Consistent;
  }

  /** A tree action raises the flags of a new root and nothing else. */
  lemma TreeEventEffect(n: Node, a: Action, d: Id)
    requires Possible(n, TreeEvent(a))
    ensures var m := Next(n, TreeEvent(a));
            && m.Order() == Do(n.Order(), a) && SameModes(n.status, m.status)
            && (a.MoveRootTo? || a.EnterRootTo? ==>
                  a.id in m.status.verified && a.id in m.status.attested && a.id in m.status.synced
                  && Attested(m.status, a.id) == Attested(n.status, a.id))
            && (!(a.MoveRootTo? || a.EnterRootTo?) || d != a.id ==> Kept(n.status, m.status, d))
  {
    hide Tree.Consistent, Do;
  }

  /** Chain flags are set as given. */
  lemma ModesEffect(n: Node, r: set<ChainId>, s: set<ChainId>, w: set<ChainId>, d: Id)
    requires Possible(n, SetChainFlags(r, s, w))
    ensures var m := Next(n, SetChainFlags(r, s, w));
            && m.tree == n.tree && Kept(n.status, m.status, d)
            && m.status.requestAttestations == r && m.status.startEngine == s && m.status.warpSyncMode == w
  {
    hide Tree.Consistent;
  }

  /** A commitment asks for attestations or blocks exactly when its parent is far enough, it is not, and its chain wants it. */
  lemma AsksIff(n: Node, c: Id)
    requires c in n.tree.parent && c in n.tree.chain
    ensures Requests(n, c) <==>
            && n.tree.parent[c] in n.status.attested && c !in n.status.attested
            && n.tree.chain[c] in n.status.requestAttestations - n.status.startEngine
    ensures WarpSyncs(n, c) <==>
            n.tree.parent[c] in n.status.synced && c !in n.status.synced && n.tree.chain[c] in n.status.warpSyncMode
  {
  }

  // ----- runs

  lemma EnginesStay(n: Node, e: Event)
    requires Possible(n, e)
    ensures n.status.startEngine <= Next(n, e).status.startEngine
  {
    hide Tree.Consistent, Do;
  }

  /** Once its engine is started, no commitment of a chain asks for attestations any more. */
  lemma NoRequestsWithEngine(nodes: seq<Node>, events: seq<Event>, i: nat, j: nat, x: ChainId, c: Id)
    requires IsNodeRun(nodes, events) && i <= j < |nodes| && x in nodes[i].status.startEngine && nodes[j].tree.On(c, x)
    ensures !Requests(nodes[j], c)
  {
    hide Next, Possible, InitNode;
    EnginesRemain(nodes, events, i, j, x);
  }

  lemma {:induction false} EnginesRemain(nodes: seq<Node>, events: seq<Event>, i: nat, j: nat, x: ChainId)
    requires IsNodeRun(nodes, events) && i <= j < |nodes| && x in nodes[i].status.startEngine
    ensures x in nodes[j].status.startEngine
    decreases j
  {
    hide Next, Possible, InitNode;
    if i < j {
      EnginesRemain(nodes, events, i, j - 1, x);
      EnginesStay(nodes[j - 1], events[j - 1]);
    }
  }
}

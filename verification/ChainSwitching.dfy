/**
 Measuring the heaviest chain and switching to it: `ChainsCandidate.measureAt`,
 `Chain.CumulativeVerifiedWeightAt` and `Chains.initChainSwitching`.
 */
module ChainSwitching {
  import opened Collections
  import opened CommitmentTree
  import opened ChainLookup
  import opened ForkChoice
  import opened ForkOrder

  /**
   The commitments that were registered per slot, and the weight they are
   compared by, on any tree that a run leads to, with or without missing entries
   of slot indexes.
   */
  datatype Candidates = Candidates(tree: Tree, bySlot: map<nat, set<Id>>, weight: map<Id, nat>) {
    ghost predicate Valid() {
      tree.Consistent() && forall s | s in bySlot :: SlotMembers(tree, bySlot[s], weight, s)
    }

    /** h is the heaviest commitment that was registered at slot s. */
    ghost predicate Tops(s: nat, h: Id)
      requires Valid()
    {
      s in bySlot && SlotMembers(tree, bySlot[s], weight, s) && IsHeaviest(tree, bySlot[s], weight, h)
    }

    /** The heaviest commitment of slot s is on chain x. */
    ghost predicate Leads(s: nat, x: ChainId)
      requires Valid()
    {
      exists h :: Tops(s, h) && tree.On(h, x)
    }

    /** x leads at slot and at each of the threshold - 1 slots before it. */
    ghost predicate LeadsFor(slot: nat, threshold: nat, x: ChainId)
      requires Valid()
    {
      forall s: nat | s <= slot && slot < s + threshold :: Leads(s, x)
    }

    /** x leads at one of the threshold - 1 slots before slot. */
    ghost predicate LedBefore(slot: nat, threshold: nat, x: ChainId)
      requires Valid()
    {
      exists s: nat | s < slot && slot < s + threshold :: Leads(s, x)
    }

    /** No more than the weight of the heaviest commitment of the slot. */
    ghost predicate Covers(slot: nat, w: nat)
      requires Valid()
    {
      exists h :: Tops(slot, h) && h in weight && w <= weight[h]
    }
  }

  lemma TopsFacts(m: Candidates, s: nat, h: Id)
    requires m.Valid() && m.Tops(s, h)
    ensures h in m.bySlot[s] && h in m.weight && h in m.tree.chain && h in m.tree.header && m.tree.Slot(h) == s
  {
    SolidOnChain(m.tree, h);
  }

  lemma TopsUnique(m: Candidates, s: nat, h: Id, k: Id)
    requires m.Valid() && m.Tops(s, h) && m.Tops(s, k)
    ensures h == k
  {
    HeaviestUnique(m.tree, m.bySlot[s], m.weight, s, h, k);
  }

  lemma LeadsIff(m: Candidates, s: nat, h: Id, x: ChainId)
    requires m.Valid() && m.Tops(s, h)
    ensures m.Leads(s, x) <==> m.tree.On(h, x)
  {
    hide Candidates.Tops;
    if m.Leads(s, x) {
      var k :| m.Tops(s, k) && m.tree.On(k, x);
      TopsUnique(m, s, h, k);
    }
  }

  lemma CoversIff(m: Candidates, s: nat, h: Id, w: nat)
    requires m.Valid() && m.Tops(s, h)
    ensures h in m.weight && (m.Covers(s, w) <==> w <= m.weight[h])
  {
    TopsFacts(m, s, h);
    hide Candidates.Tops;
    if m.Covers(s, w) {
      var k :| m.Tops(s, k) && k in m.weight && w <= m.weight[k];
      TopsUnique(m, s, h, k);
    }
  }

  /** `sortedCommitments.HeaviestElement()`. */
  method HeaviestAt(m: Candidates, s: nat) returns (h: Option<Id>)
    requires m.Valid()
    ensures h.Some? ==> m.Tops(s, h.value)
    ensures h.None? ==> forall x :: !m.Leads(s, x)
    ensures h.None? ==> forall w :: !m.Covers(s, w)
  {
    if s !in m.bySlot {
      return None;
    }
    assert SlotMembers(m.tree, m.bySlot[s], m.weight, s);
    h := Heaviest(m.tree, m.bySlot[s], m.weight, s);
  }

  // ----- one evaluation

  /** The n slots before slot. */
  function Earlier(slot: nat, n: nat): (r: set<nat>)
    requires n <= slot
    ensures forall k: nat :: k in r <==> slot - n <= k < slot
    ensures |r| == n
  {
    if n == 0 then {} else Earlier(slot, n - 1) + {slot - n}
  }

  /** A running measurement: for each monitored slot, whether its heaviest commitment was last seen on the chain. */
  datatype Running = Running(slot: nat, threshold: nat, chain: ChainId, leads: map<nat, bool>)

  /** Only slots for which commitments were registered before are monitored. */
  ghost function Monitored(m: Candidates, slot: nat, n: nat, x: ChainId): (leads: map<nat, bool>)
    requires m.Valid() && n <= slot
  {
    map k | k in Earlier(slot, n) && k in m.bySlot :: m.Leads(k, x)
  }

  /** The measurement that is set up if the leader of the slot is not the main chain, and that is not heavier. */
  ghost function Started(m: Candidates, slot: nat, threshold: nat, main: ChainId, mainWeight: nat): (r: Option<Running>)
    requires m.Valid()
    ensures r.Some? ==> r.value.slot == slot && r.value.threshold == threshold && r.value.chain != main
  {
    if threshold <= slot && m.Covers(slot, mainWeight) && exists x :: x != main && m.Leads(slot, x) then
      var x :| x != main && m.Leads(slot, x);
      Some(Running(slot, threshold, x, Monitored(m, slot, if threshold == 0 then 0 else threshold - 1, x)))
    else None
  }

  function Flagged(leads: map<nat, bool>): (r: set<nat>) {
    set k | k in leads && leads[k]
  }

  lemma MonitoredNext(m: Candidates, slot: nat, n: nat, x: ChainId)
    requires m.Valid() && n < slot
    ensures var k := slot - n - 1;
            && k !in Monitored(m, slot, n, x)
            && Monitored(m, slot, n + 1, x) ==
               if k in m.bySlot then Monitored(m, slot, n, x)[k := m.Leads(k, x)] else Monitored(m, slot, n, x)
  {
    hide Candidates.Valid, Candidates.Leads;
  }

  lemma FlaggedNext(leads: map<nat, bool>, k: nat, b: bool)
    ensures Flagged(leads[k := b]) == if b then Flagged(leads) + {k} else Flagged(leads) - {k}
    ensures k in leads ==> (leads[k] <==> k in Flagged(leads))
    ensures k !in leads ==> k !in Flagged(leads)
  {
  }

  /** What a measurement does to a candidate variable. */
  datatype Measured = Unchanged | SetTo(chain: Option<ChainId>)

  /**
   `measureAt` up to the point where it waits for changes. mainWeight is what the
   main chain has verified at the slot.

   A candidate is set to a chain exactly when that chain is not the main one,
   leads at the measured slot and the threshold - 1 slots before, and the main
   chain is not heavier. It is withdrawn exactly when such a chain led at some
   but not all of those slots; where it led at none, the counter stays at its
   initial zero, nobody is notified, and the candidate remains what it was.
   */
  method MeasureAt(m: Candidates, slot: nat, threshold: nat, main: ChainId, mainWeight: nat)
    returns (r: Measured, running: Option<Running>)
    requires m.Valid()
    ensures forall x ::
              r == SetTo(Some(x)) <==>
              2 <= threshold <= slot && x != main && m.Covers(slot, mainWeight) && m.LeadsFor(slot, threshold, x)
    ensures r == SetTo(None) <==>
              threshold <= slot && m.Covers(slot, mainWeight)
              && exists x :: x != main && m.Leads(slot, x) && m.LedBefore(slot, threshold, x) && !m.LeadsFor(slot, threshold, x)
    ensures running == Started(m, slot, threshold, main, mainWeight)
    ensures r == if running.None? || Flagged(running.value.leads) == {} then Unchanged
                 else SetTo(if |Flagged(running.value.leads)| >= threshold - 1 then Some(running.value.chain) else None)
  {
    hide Candidates.Valid, Candidates.Tops, Candidates.Leads, Candidates.Covers, Candidates.LeadsFor, Candidates.LedBefore,
         Monitored, Flagged;
    NotLeading(m, slot, threshold);
    if slot < threshold {
      return Unchanged, None;
    }
    var heaviest := HeaviestAt(m, slot);
    if heaviest.None? {
      return Unchanged, None;
    }
    var h := heaviest.value;
    TopsFacts(m, slot, h);
    var x := m.tree.chain[h];
    forall y { LeadsIff(m, slot, h, y); }
    CoversIff(m, slot, h, mainWeight);
    if x == main {
      return Unchanged, None;
    }
    if mainWeight > m.weight[h] {
      return Unchanged, None;
    }
    assert m.Leads(slot, x);

    var count, leads := CountEarlier(m, slot, threshold, x);
    running := Some(Running(slot, threshold, x, leads));
    LedThroughout(m, slot, threshold, x);
    if count == 0 {
      return Unchanged, running;
    }
    if count >= threshold - 1 {
      return SetTo(Some(x)), running;
    }
    return SetTo(None), running;
  }

  /** The loop that monitors the earlier slots. */
  method CountEarlier(m: Candidates, slot: nat, threshold: nat, x: ChainId) returns (count: nat, leads: map<nat, bool>)
    requires m.Valid() && threshold <= slot && m.Leads(slot, x)
    ensures leads == Monitored(m, slot, if threshold == 0 then 0 else threshold - 1, x)
    ensures count == |Flagged(leads)| && (count == 0 <==> Flagged(leads) == {})
    ensures count > 0 <==> m.LedBefore(slot, threshold, x)
    ensures 1 <= threshold ==> (count >= threshold - 1 <==> m.LeadsFor(slot, threshold, x))
  {
    hide Candidates.Valid, Candidates.Tops, Candidates.Leads, Candidates.Covers, Candidates.LeadsFor, Candidates.LedBefore,
         Monitored, Flagged;
    NotLeading(m, slot, threshold);
    NothingMonitored(m, slot, x);
    count, leads := 0, map[];
    var i := 1;
    while i < threshold
      invariant 1 <= i && (i <= threshold || i == 1) && 0 <= count <= i - 1
      invariant count == i - 1 <==> m.LeadsFor(slot, i, x)
      invariant count > 0 <==> m.LedBefore(slot, i, x)
      invariant i <= slot + 1 && leads == Monitored(m, slot, i - 1, x) && count == |Flagged(leads)|
    {
      var k := slot - i;
      var earlier := HeaviestAt(m, k);
      LeadsForNext(m, slot, i, x);
      LedBeforeNext(m, slot, i, x);
      MonitoredNext(m, slot, i - 1, x);
      var onChain := false;
      if earlier.Some? {
        TopsFacts(m, k, earlier.value);
        LeadsIff(m, k, earlier.value, x);
        onChain := m.tree.chain[earlier.value] == x;
      }
      LeadsRegistered(m, k, x);
      if k in m.bySlot {
        FlaggedNext(leads, k, onChain);
        leads := leads[k := onChain];
        if onChain {
          count := count + 1;
        }
      }
      i := i + 1;
    }
    LedThroughout(m, slot, threshold, x);
  }

  lemma NothingMonitored(m: Candidates, slot: nat, x: ChainId)
    requires m.Valid()
    ensures Monitored(m, slot, 0, x) == map[] && Flagged(map[]) == {}
  {
  }

  lemma LeadsRegistered(m: Candidates, s: nat, x: ChainId)
    requires m.Valid()
    ensures m.Leads(s, x) ==> s in m.bySlot
  {
  }

  lemma NotLeading(m: Candidates, slot: nat, threshold: nat)
    requires m.Valid()
    ensures 1 <= threshold ==> forall x | !m.Leads(slot, x) :: !m.LeadsFor(slot, threshold, x)
    ensures forall x | m.Leads(slot, x) :: m.LeadsFor(slot, 1, x)
    ensures forall x :: !m.LedBefore(slot, 1, x)
  {
    hide Candidates.Valid, Candidates.Tops, Candidates.Leads;
    forall x | m.Leads(slot, x)
      ensures m.LeadsFor(slot, 1, x)
    {
      forall s: nat | s <= slot && slot < s + 1
        ensures m.Leads(s, x)
      {
        assert s == slot;
      }
    }
  }

  lemma LeadsForNext(m: Candidates, slot: nat, i: nat, x: ChainId)
    requires m.Valid() && i <= slot
    ensures m.LeadsFor(slot, i + 1, x) <==> m.LeadsFor(slot, i, x) && m.Leads(slot - i, x)
  {
    hide Candidates.Valid, Candidates.Tops, Candidates.Leads;
    if m.LeadsFor(slot, i, x) && m.Leads(slot - i, x) {
      forall s: nat | s <= slot && slot < s + (i + 1)
        ensures m.Leads(s, x)
      {
        if slot >= s + i {
          assert s == slot - i;
        }
      }
    }
  }

  lemma LedBeforeNext(m: Candidates, slot: nat, i: nat, x: ChainId)
    requires m.Valid() && 1 <= i <= slot
    ensures m.LedBefore(slot, i + 1, x) <==> m.LedBefore(slot, i, x) || m.Leads(slot - i, x)
  {
    hide Candidates.Valid, Candidates.Tops, Candidates.Leads;
    if m.LedBefore(slot, i + 1, x) {
      var s: nat :| s < slot && slot < s + (i + 1) && m.Leads(s, x);
      if slot >= s + i {
        assert s == slot - i;
      }
    }
  }

  /** Leading throughout includes an earlier slot, unless the threshold is below 2. */
  lemma LedThroughout(m: Candidates, slot: nat, threshold: nat, x: ChainId)
    requires m.Valid()
    ensures threshold < 2 ==> !m.LedBefore(slot, threshold, x)
    ensures 2 <= threshold <= slot && m.LeadsFor(slot, threshold, x) ==> m.LedBefore(slot, threshold, x)
  {
    hide Candidates.Valid, Candidates.Tops, Candidates.Leads;
    if 2 <= threshold <= slot && m.LeadsFor(slot, threshold, x) {
      assert m.Leads(slot - 1, x);
    }
  }

  // ----- the main chain

  /** `CumulativeVerifiedWeightAt`: at the slot if that is verified, else what the chain produced last. */
  function VerifiedWeightAt(
    t: Tree, x: ChainId, slot: nat, verified: set<Id>, weight: map<Id, nat>, latestProduced: Option<Id>): (w: nat)
    requires t.Chained() && x in t.forkingPoint && verified <= weight.Keys
    requires latestProduced.Some? ==> latestProduced.value in weight
  {
    var c := Lookup(t, x, slot);
    if c.Some? && c.value in verified then weight[c.value]
    else if latestProduced.Some? then weight[latestProduced.value]
    else 0
  }

  /** The chain of a solid commitment c has a verified commitment at the slot, as the parent links have it. */
  ghost predicate VerifiedAt(t: Tree, c: Id, slot: nat, verified: set<Id>)
    requires t.Known() && t.Linked() && t.MainChildren() && c in t.live
  {
    slot <= t.Slot(Tip(t, c)) && var a := t.AncestorAt(Tip(t, c), slot); a in verified && Findable(t, a)
  }

  /**
   The weight at a slot is that of the ancestor of the chain's tip there if it
   is verified. If it is not, or the slot is above the tip, it is the weight of
   what the chain produced last, 0 if that is nothing. An ancestor that the slot
   indexes lack counts as not verified.
   */
  lemma VerifiedWeightIs(
    t: Tree, c: Id, slot: nat, verified: set<Id>, weight: map<Id, nat>, latestProduced: Option<Id>)
    requires t.Consistent() && SolidId(t, c) && c in t.chain && t.chain[c] in t.forkingPoint && t.Slot(t.root) <= slot
    requires verified <= weight.Keys && (latestProduced.Some? ==> latestProduced.value in weight)
    ensures VerifiedWeightAt(t, t.chain[c], slot, verified, weight, latestProduced) ==
            if VerifiedAt(t, c, slot, verified) then weight[t.AncestorAt(Tip(t, c), slot)]
            else if latestProduced.Some? then weight[latestProduced.value]
            else 0
  {
    hide Tree.Partitioned, Tree.Grounded, Tree.Single, Tree.EntriesRight, Lookup, Tip, Findable;
    LookupFromTip(t, c, slot);
  }
}

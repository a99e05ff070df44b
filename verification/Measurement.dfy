/**
 A measurement goes on after its first evaluation: the heaviest commitments of
 the earlier slots stay monitored, and every change of the counter sets or
 withdraws the candidate again. The comparison with the main chain is not
 repeated.
 */
module Measurement {
  import opened Collections
  import opened CommitmentTree
  import opened ForkChoice
  import opened ChainSwitching

  /** decides: the candidate is the one on verified weights, which becomes the main chain. */
  datatype State = State(
    main: ChainId, candidate: Option<ChainId>, running: Option<Running>, notified: bool, decides: bool)

  datatype Event =
    | Measure(m: Candidates, slot: nat, threshold: nat, mainWeight: nat)   // the leader of the slot or its weight changed
    | Changed(m: Candidates, slot: nat)                                    // a monitored slot has another heaviest commitment
    | Stop                                                                 // another slot is measured from now on
    | MainMoved(main: ChainId, weight: nat)                                // by the candidate on verified weights
    | MainWeighs(weight: nat)                                              // the main chain has verified more at the slot

  ghost predicate Enabled(s: State, e: Event) {
    match e
    case Measure(m, slot, threshold, mainWeight) => m.Valid()
    case Changed(m, slot) => m.Valid() && s.running.Some? && slot in s.running.value.leads
    case Stop => true
    case MainMoved(x, weight) => !s.decides
    case MainWeighs(weight) => true
  }

  /** The chain if it was last seen leading at all threshold - 1 earlier slots. */
  function Verdict(r: Running): (c: Option<ChainId>) {
    if |Flagged(r.leads)| >= r.threshold - 1 then Some(r.chain) else None
  }

  /** The counter has changed. */
  function Notify(s: State, r: Running): (t: State) {
    var c := Verdict(r);
    s.(running := Some(r), notified := true, candidate := c,
       main := if s.decides && c.Some? && c != s.candidate then c.value else s.main)
  }

  ghost function Step(s: State, e: Event): (t: State)
    requires Enabled(s, e)
  {
    match e
    case Measure(m, slot, threshold, mainWeight) =>
      var r := Started(m, slot, threshold, s.main, mainWeight);
      if r.None? || Flagged(r.value.leads) == {} then s.(running := r, notified := false)
      else Notify(s, r.value)
    case Changed(m, slot) =>
      var r := s.running.value;
      var b := m.Leads(slot, r.chain);
      if r.leads[slot] == b then s else Notify(s, r.(leads := r.leads[slot := b]))
    case Stop => s.(running := None, notified := false)
    case MainMoved(x, weight) => s.(main := x)
    case MainWeighs(weight) => s
  }

  // ----- the same with a counter

  class Chains {
    var main: ChainId
    var heaviestVerified: Option<ChainId>
    var running: Option<Running>
    var count: nat                   // slotsWithSameChain
    ghost var notified: bool

    ghost predicate Valid()
      reads this
    {
      running.Some? ==> count == |Flagged(running.value.leads)|
    }

    ghost function Contents(): (s: State)
      reads this
    {
      State(main, heaviestVerified, running, notified, true)
    }

    constructor (first: ChainId)
      ensures Valid() && Contents() == State(first, None, None, false, true)
    {
      main, heaviestVerified, running, count, notified := first, None, None, 0, false;
    }

    /** `Set` on the candidate: the main chain follows if the candidate changes to a chain. */
    method SetCandidate(c: Option<ChainId>)
      modifies this`main, this`heaviestVerified
      ensures heaviestVerified == c
      ensures main == if c.Some? && c != old(heaviestVerified) then c.value else old(main)
    {
      if c != heaviestVerified && c.Some? {
        main := c.value;
      }
      heaviestVerified := c;
    }

    /**
     The first evaluation of a measurement. The main chain only moves to a chain
     that leads for the whole threshold and is not outweighed by the main chain
     it replaces, and moves to such a chain unless that is the candidate already.
     */
    method MeasureFor(m: Candidates, slot: nat, threshold: nat, mainWeight: nat)
      requires Valid() && m.Valid()
      modifies this
      ensures Valid() && Contents() == Step(old(Contents()), Measure(m, slot, threshold, mainWeight))
      ensures main != old(main) ==>
                && 2 <= threshold <= slot && m.LeadsFor(slot, threshold, main) && m.Covers(slot, mainWeight)
                && heaviestVerified == Some(main)
      ensures forall x ::
                2 <= threshold <= slot && x != old(main) && m.LeadsFor(slot, threshold, x) && m.Covers(slot, mainWeight)
                ==> heaviestVerified == Some(x) && (old(heaviestVerified) != Some(x) ==> main == x)
    {
      hide Candidates.Valid, Candidates.Tops, Candidates.Leads, Candidates.LeadsFor, Candidates.LedBefore, Candidates.Covers,
           Started, Flagged;
      var r, started := MeasureAt(m, slot, threshold, main, mainWeight);
      running, notified := started, r.SetTo?;
      count := if started.Some? then |Flagged(started.value.leads)| else 0;
      if r.SetTo? {
        SetCandidate(r.chain);
      }
    }

    /** A measurement on verified weights compares with what the main chain has verified at the slot. */
    method MeasureVerified(
        m: Candidates, slot: nat, threshold: nat, verified: set<Id>, weight: map<Id, nat>, latestProduced: Option<Id>)
      returns (mainWeight: nat)
      requires Valid() && m.Valid() && main in m.tree.forkingPoint && verified <= weight.Keys
      requires latestProduced.Some? ==> latestProduced.value in weight
      modifies this
      ensures Valid() && Contents() == Step(old(Contents()), Measure(m, slot, threshold, mainWeight))
      ensures forall c | c in m.tree.live && m.tree.Solid(c) && m.tree.On(c, old(main)) && m.tree.Slot(m.tree.root) <= slot ::
                mainWeight == if VerifiedAt(m.tree, c, slot, verified) then weight[m.tree.AncestorAt(Tip(m.tree, c), slot)]
                              else if latestProduced.Some? then weight[latestProduced.value]
                              else 0
      ensures main != old(main) ==>
                && 2 <= threshold <= slot && m.LeadsFor(slot, threshold, main) && m.Covers(slot, mainWeight)
                && heaviestVerified == Some(main)
      ensures forall x ::
                2 <= threshold <= slot && x != old(main) && m.LeadsFor(slot, threshold, x) && m.Covers(slot, mainWeight)
                ==> heaviestVerified == Some(x) && (old(heaviestVerified) != Some(x) ==> main == x)
    {
      hide Candidates.Tops, Candidates.Leads, Candidates.LeadsFor, Candidates.LedBefore, Candidates.Covers, Step, Tip,
           VerifiedWeightAt, Tree.AncestorAt, Tree.Partitioned, Tree.Grounded, Tree.Single, Tree.EntriesRight;
      mainWeight := VerifiedWeightAt(m.tree, main, slot, verified, weight, latestProduced);
      forall c | c in m.tree.live && m.tree.Solid(c) && m.tree.On(c, main) && m.tree.Slot(m.tree.root) <= slot
        ensures mainWeight == if VerifiedAt(m.tree, c, slot, verified) then weight[m.tree.AncestorAt(Tip(m.tree, c), slot)]
                              else if latestProduced.Some? then weight[latestProduced.value]
                              else 0
      {
        VerifiedWeightIs(m.tree, c, slot, verified, weight, latestProduced);
      }
      MeasureFor(m, slot, threshold, mainWeight);
    }

    /** The heaviest commitment of a monitored slot has changed. */
    method HeaviestChanged(m: Candidates, slot: nat)
      requires Valid() && m.Valid() && running.Some? && slot in running.value.leads
      modifies this
      ensures Valid() && Contents() == Step(old(Contents()), Changed(m, slot))
    {
      hide Candidates.Valid, Candidates.Tops, Candidates.Leads, Flagged;
      var r := running.value;
      var heaviest := HeaviestAt(m, slot);
      var onChain := false;
      if heaviest.Some? {
        TopsFacts(m, slot, heaviest.value);
        LeadsIff(m, slot, heaviest.value, r.chain);
        onChain := m.tree.chain[heaviest.value] == r.chain;
      }
      if onChain != r.leads[slot] {
        FlaggedNext(r.leads, slot, onChain);
        running := Some(r.(leads := r.leads[slot := onChain]));
        count := if onChain then count + 1 else count - 1;
        notified := true;
        SetCandidate(if count >= r.threshold - 1 then Some(r.chain) else None);
      }
    }

    /** Another slot is measured from now on. */
    method StopMeasuring()
      requires Valid()
      modifies this`running, this`notified
      ensures Valid() && Contents() == Step(old(Contents()), Stop)
      ensures main == old(main) && heaviestVerified == old(heaviestVerified) && running == None
    {
      running, notified := None, false;
    }
  }

  // ----- runs

  ghost predicate IsRun(states: seq<State>, events: seq<Event>) {
    && |states| == |events| + 1
    && (forall i | 0 <= i < |events| :: Enabled(states[i], events[i]) && states[i + 1] == Step(states[i], events[i]))
  }

  /** The measurement that the i-th event sets up on the i-th state. */
  ghost function StartedAt(s: State, e: Event): (r: Option<Running>)
    requires Enabled(s, e)
  {
    if e.Measure? then Started(e.m, e.slot, e.threshold, s.main, e.mainWeight) else None
  }

  /** The measurement that was set up by event i is still running before event j. */
  ghost predicate Runs(states: seq<State>, events: seq<Event>, i: nat, j: nat) {
    && IsRun(states, events) && i < j <= |events| && StartedAt(states[i], events[i]).Some?
    && (forall l | i < l < j :: !events[l].Measure? && !events[l].Stop?)
  }

  /** Was the measured chain seen leading at slot k when that was last looked at? */
  ghost predicate LastSeen(states: seq<State>, events: seq<Event>, i: nat, j: nat, k: nat)
    requires Runs(states, events, i, j)
    decreases j
  {
    var x := StartedAt(states[i], events[i]).value.chain;
    if j == i + 1 then k in events[i].m.bySlot && events[i].m.Leads(k, x)
    else if events[j - 1].Changed? && events[j - 1].slot == k then
      assert Enabled(states[j - 1], events[j - 1]);
      events[j - 1].m.Leads(k, x)
    else LastSeen(states, events, i, j - 1, k)
  }

  /** Was it last seen leading at every earlier slot? */
  ghost predicate AllSeen(states: seq<State>, events: seq<Event>, i: nat, j: nat)
    requires Runs(states, events, i, j)
  {
    var e := events[i];
    forall k: nat | k < e.slot < k + e.threshold :: k in e.m.bySlot && LastSeen(states, events, i, j, k)
  }

  /** Was it seen leading at any of the monitored slots since the measurement was set up? */
  ghost predicate EverSeen(states: seq<State>, events: seq<Event>, i: nat, j: nat)
    requires Runs(states, events, i, j)
  {
    exists l, k | i < l <= j && k in StartedAt(states[i], events[i]).value.leads :: LastSeen(states, events, i, l, k)
  }

  /** The flags of a running measurement are what was last seen, and it has notified if there was anything to see. */
  ghost predicate Tracked(states: seq<State>, events: seq<Event>, i: nat, j: nat)
    requires Runs(states, events, i, j)
  {
    var r := StartedAt(states[i], events[i]).value;
    && states[j].running.Some? && states[j].running.value == r.(leads := states[j].running.value.leads)
    && states[j].running.value.leads.Keys == r.leads.Keys
    && (forall k | k in r.leads :: states[j].running.value.leads[k] == LastSeen(states, events, i, j, k))
    && (states[j].notified <==> EverSeen(states, events, i, j))
    && states[j].candidate == if states[j].notified then Verdict(states[j].running.value) else states[i].candidate
  }

  lemma StartedFacts(s: State, e: Event)
    requires Enabled(s, e) && StartedAt(s, e).Some?
    ensures var r := StartedAt(s, e).value;
            && r == Running(e.slot, e.threshold, r.chain, r.leads) && r.threshold <= r.slot
            && r.chain != s.main && e.m.Leads(r.slot, r.chain) && e.m.Covers(r.slot, e.mainWeight)
            && r.leads.Keys <= Earlier(r.slot, if r.threshold == 0 then 0 else r.threshold - 1)
            && (forall k: nat | k < r.slot < k + r.threshold :: k in r.leads <==> k in e.m.bySlot)
            && (forall k | k in r.leads :: k in e.m.bySlot && r.leads[k] == e.m.Leads(k, r.chain))
  {
    hide Candidates.Valid, Candidates.Leads, Candidates.Covers;
  }

  lemma TrackStart(states: seq<State>, events: seq<Event>, i: nat)
    requires Runs(states, events, i, i + 1)
    ensures Tracked(states, events, i, i + 1)
  {
    hide Candidates.Valid, Candidates.Leads, Candidates.Covers, Started;
    StartedFacts(states[i], events[i]);
    var r := StartedAt(states[i], events[i]).value;
    if Flagged(r.leads) != {} {
      var k :| k in Flagged(r.leads);
      assert LastSeen(states, events, i, i + 1, k);
    }
  }

  lemma Seen(states: seq<State>, events: seq<Event>, i: nat, j: nat)
    requires Runs(states, events, i, j) && j < |events| && !events[j].Measure? && !events[j].Stop?
    ensures Runs(states, events, i, j + 1)
    ensures EverSeen(states, events, i, j + 1) <==>
            || EverSeen(states, events, i, j)
            || exists k | k in StartedAt(states[i], events[i]).value.leads :: LastSeen(states, events, i, j + 1, k)
  {
    hide LastSeen, StartedAt, Enabled, Step;
  }

  /** Another monitored slot, or the main chain, has changed. */
  lemma TrackNext(states: seq<State>, events: seq<Event>, i: nat, j: nat)
    requires Runs(states, events, i, j) && Tracked(states, events, i, j)
    requires j < |events| && !events[j].Measure? && !events[j].Stop?
    ensures Runs(states, events, i, j + 1) && Tracked(states, events, i, j + 1)
  {
    hide Candidates.Valid, Candidates.Leads, Candidates.Covers, StartedAt, EverSeen, Verdict;
    Seen(states, events, i, j);
    assert Enabled(states[j], events[j]) && states[j + 1] == Step(states[j], events[j]);
    var leads := StartedAt(states[i], events[i]).value.leads;
    if states[j].notified {
    } else {
      forall k | k in leads
        ensures !LastSeen(states, events, i, j, k)
      {
        NotSeen(states, events, i, j, k);
      }
    }
  }

  lemma NotSeen(states: seq<State>, events: seq<Event>, i: nat, j: nat, k: nat)
    requires Runs(states, events, i, j) && !EverSeen(states, events, i, j)
    requires k in StartedAt(states[i], events[i]).value.leads
    ensures !LastSeen(states, events, i, j, k)
  {
  }

  lemma {:induction false} RunTracked(states: seq<State>, events: seq<Event>, i: nat, j: nat)
    requires Runs(states, events, i, j)
    ensures Tracked(states, events, i, j)
    decreases j
  {
    hide Tracked, Enabled, Step, StartedAt;
    if j == i + 1 {
      TrackStart(states, events, i);
    } else {
      RunTracked(states, events, i, j - 1);
      TrackNext(states, events, i, j - 1);
    }
  }

  /** The counter has reached the threshold exactly when all earlier slots are flagged. */
  lemma VerdictIff(r: Running)
    requires 2 <= r.threshold <= r.slot && r.leads.Keys <= Earlier(r.slot, r.threshold - 1)
    ensures Verdict(r) == Some(r.chain) <==> forall k: nat | k < r.slot < k + r.threshold :: k in r.leads && r.leads[k]
  {
    var window := Earlier(r.slot, r.threshold - 1);
    if forall k: nat | k < r.slot < k + r.threshold :: k in r.leads && r.leads[k] {
      assert Flagged(r.leads) == window;
    }
    if Verdict(r) == Some(r.chain) {
      SameSize(Flagged(r.leads), window);
      forall k: nat | k < r.slot < k + r.threshold
        ensures k in r.leads && r.leads[k]
      {
        assert k in window;
      }
    }
  }

  lemma AllFlagged(states: seq<State>, events: seq<Event>, i: nat, j: nat)
    requires Runs(states, events, i, j) && Tracked(states, events, i, j) && EverSeen(states, events, i, j)
    ensures Verdict(states[j].running.value) == Some(states[j].running.value.chain) <==> AllSeen(states, events, i, j)
  {
    hide Candidates.Valid, Candidates.Leads, Candidates.Covers, StartedAt, LastSeen, EverSeen, Verdict, Enabled, Step;
    NothingToSee(states, events, i, j);
    StartedFacts(states[i], events[i]);
    VerdictIff(states[j].running.value);
  }

  /**
   Over every run, what a measurement does to the candidate. It starts for a
   chain that is not the main one, leads at the measured slot and is not
   outweighed. From then on the candidate is that chain exactly while it was last
   seen leading at every earlier slot, and nil once it has led at one of them and
   does not lead at all of them; before that it remains what it was. Slots
   without commitments at the start are never looked at again.
   */
  lemma MeasurementDecides(states: seq<State>, events: seq<Event>, i: nat, j: nat)
    requires Runs(states, events, i, j)
    ensures var e, x := events[i], StartedAt(states[i], events[i]).value.chain;
            && e.Measure? && x != states[i].main && e.m.Leads(e.slot, x) && e.m.Covers(e.slot, e.mainWeight)
            && states[j].candidate ==
               if !EverSeen(states, events, i, j) then states[i].candidate
               else if AllSeen(states, events, i, j) then Some(x)
               else None
  {
    hide Candidates.Valid, Candidates.Leads, Candidates.Covers, StartedAt, AllSeen, EverSeen, Verdict, Enabled, Step;
    RunTracked(states, events, i, j);
    StartedFacts(states[i], events[i]);
    StartedByMeasure(states[i], events[i]);
    if EverSeen(states, events, i, j) {
      AllFlagged(states, events, i, j);
      VerdictValues(states[j].running.value);
    }
  }

  lemma StartedByMeasure(s: State, e: Event)
    requires Enabled(s, e) && StartedAt(s, e).Some?
    ensures e.Measure?
  {
  }

  lemma VerdictValues(r: Running)
    ensures Verdict(r) == Some(r.chain) || Verdict(r) == None
  {
  }

  // ----- the comparison with the main chain is out of date

  lemma DecidingStep(s: State, e: Event)
    requires Enabled(s, e) && s.decides && (s.candidate.Some? ==> s.candidate.value == s.main)
    ensures var t := Step(s, e); t.decides && (t.candidate.Some? ==> t.candidate.value == t.main)
  {
    hide Candidates.Valid, Candidates.Leads, Started, Flagged, Verdict;
  }

  /** Over every run that starts without a candidate, the candidate on verified weights is the main chain. */
  lemma {:induction false} CandidateIsMain(states: seq<State>, events: seq<Event>, j: nat)
    requires IsRun(states, events) && j <= |events| && states[0].decides && states[0].candidate == None
    ensures states[j].decides && (states[j].candidate.Some? ==> states[j].candidate.value == states[j].main)
  {
    hide Enabled, Step;
    if j > 0 {
      CandidateIsMain(states, events, j - 1);
      DecidingStep(states[j - 1], events[j - 1]);
    }
  }

  /** During a measurement the main chain can only move to the measured chain. */
  lemma MovesToMeasured(states: seq<State>, events: seq<Event>, i: nat, j: nat)
    requires Runs(states, events, i, j) && states[j - 1].decides
    ensures var x := StartedAt(states[i], events[i]).value.chain;
            states[j].main == states[j - 1].main || (states[j].main == x && states[j].candidate == Some(x))
  {
    hide Candidates.Valid, Candidates.Leads, Candidates.Covers, Started, Flagged, LastSeen, EverSeen;
    assert Enabled(states[j - 1], events[j - 1]) && states[j] == Step(states[j - 1], events[j - 1]);
    if j > i + 1 {
      RunTracked(states, events, i, j - 1);
    }
  }

  /**
   The candidate on verified weights can thus be set to a chain that is the main
   chain by then, but only again: during a measurement, the measured chain is the
   main chain if and only if the same measurement has set the candidate to it.
   */
  lemma {:induction false} OnlyAgain(states: seq<State>, events: seq<Event>, i: nat, j: nat)
    requires Runs(states, events, i, j) && states[0].decides && states[0].candidate == None
    ensures var x := StartedAt(states[i], events[i]).value.chain;
            states[j].main == x <==> exists l | i < l <= j :: states[l].candidate == Some(x)
    decreases j
  {
    hide Enabled, Step, StartedAt;
    CandidateIsMain(states, events, j - 1);
    CandidateIsMain(states, events, j);
    MovesToMeasured(states, events, i, j);
    StartedFacts(states[i], events[i]);
    if j > i + 1 {
      OnlyAgain(states, events, i, j - 1);
    }
  }

  /** The chain that the main chain was last moved to since event i. */
  function LastMoved(events: seq<Event>, i: nat, j: nat): (x: Option<ChainId>)
    requires i < j <= |events|
  {
    if j == i + 1 then None
    else if events[j - 1].MainMoved? then Some(events[j - 1].main)
    else LastMoved(events, i, j - 1)
  }

  /** What the main chain was last reported to weigh at the measured slot since event i. */
  function LastWeighed(events: seq<Event>, i: nat, j: nat): (w: Option<nat>)
    requires i < j <= |events|
  {
    if j == i + 1 then None
    else if events[j - 1].MainMoved? || events[j - 1].MainWeighs? then Some(events[j - 1].weight)
    else LastWeighed(events, i, j - 1)
  }

  lemma {:induction false} MainIsLastMoved(states: seq<State>, events: seq<Event>, i: nat, j: nat)
    requires Runs(states, events, i, j) && !states[i].decides
    ensures !states[j].decides
    ensures states[j].main == if LastMoved(events, i, j).Some? then LastMoved(events, i, j).value else states[i].main
    decreases j
  {
    hide Candidates.Valid, Candidates.Leads, Candidates.Covers, Started, Flagged, Verdict;
    assert Enabled(states[j - 1], events[j - 1]) && states[j] == Step(states[j - 1], events[j - 1]);
    if j > i + 1 {
      MainIsLastMoved(states, events, i, j - 1);
    }
  }

  /**
   Any other candidate is the main chain if and only if the measured chain was
   last seen leading at every earlier slot and the main chain has last moved to
   it; or, as long as the measurement has said nothing, if it was before.
   */
  lemma IsMainIff(states: seq<State>, events: seq<Event>, i: nat, j: nat)
    requires Runs(states, events, i, j) && !states[i].decides
    ensures states[j].candidate == Some(states[j].main) <==>
            if EverSeen(states, events, i, j)
            then AllSeen(states, events, i, j)
                 && LastMoved(events, i, j) == Some(StartedAt(states[i], events[i]).value.chain)
            else states[i].candidate == Some(states[j].main)
  {
    hide EverSeen, AllSeen, StartedAt, Enabled, Step;
    MeasurementDecides(states, events, i, j);
    MainIsLastMoved(states, events, i, j);
  }

  lemma NothingToSee(states: seq<State>, events: seq<Event>, i: nat, j: nat)
    requires Runs(states, events, i, j)
    ensures EverSeen(states, events, i, j) ==> events[i].threshold >= 2
    ensures events[i].threshold >= 2 && AllSeen(states, events, i, j) ==> EverSeen(states, events, i, j)
  {
    hide LastSeen, Started, Candidates.Valid, Candidates.Leads, Candidates.Covers, Step;
    StartedFacts(states[i], events[i]);
    var e := events[i];
    if e.threshold >= 2 && AllSeen(states, events, i, j) {
      var k: nat := e.slot - 1;
      assert k < e.slot < k + e.threshold;
      assert k in StartedAt(states[i], e).value.leads && LastSeen(states, events, i, j, k);
    }
  }

  /** What the main chain weighs at the measured slot, as far as it was reported. */
  function MainWeight(events: seq<Event>, i: nat, j: nat): (w: nat)
    requires i < j <= |events| && events[i].Measure?
  {
    var last := LastWeighed(events, i, j);
    if last.Some? then last.value else events[i].mainWeight
  }

  /** The measured chain weighs less than w. */
  ghost predicate Below(states: seq<State>, events: seq<Event>, i: nat, w: nat)
    requires IsRun(states, events) && i < |events| && events[i].Measure?
  {
    assert Enabled(states[i], events[i]);
    !events[i].m.Covers(events[i].slot, w)
  }

  /** Event j sets the candidate to the measured chain. */
  ghost predicate Sets(states: seq<State>, events: seq<Event>, i: nat, j: nat)
    requires i < j && Runs(states, events, i, j + 1)
  {
    var x := Some(StartedAt(states[i], events[i]).value.chain);
    states[j].candidate != x && states[j + 1].candidate == x
  }

  /**
   A later event sets the candidate to a chain that the main chain outweighs by
   then if and only if the chain is seen leading at every earlier slot now, and
   what the main chain was last reported to weigh since the start is more.
   */
  lemma OutweighedIff(states: seq<State>, events: seq<Event>, i: nat, j: nat)
    requires i < j && Runs(states, events, i, j + 1)
    ensures events[i].Measure?
    ensures Sets(states, events, i, j) && Below(states, events, i, MainWeight(events, i, j)) <==>
            && states[j].candidate != Some(StartedAt(states[i], events[i]).value.chain)
            && events[i].threshold >= 2 && AllSeen(states, events, i, j + 1)
            && LastWeighed(events, i, j).Some? && Below(states, events, i, LastWeighed(events, i, j).value)
  {
    hide EverSeen, AllSeen, StartedAt, Enabled, Step, Candidates.Covers;
    MeasurementDecides(states, events, i, j);
    MeasurementDecides(states, events, i, j + 1);
    NothingToSee(states, events, i, j + 1);
    Seen(states, events, i, j);
  }
}

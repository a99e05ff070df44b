/**
 Inputs on which the candidate for a switch is not what the comment on
 `measureAt` leads to expect: it stays although another chain leads, and it is
 set to a chain that is the main chain, or lighter than the main chain, by then.
 */
module StaleCandidates {
  import opened Collections
  import opened CommitmentTree
  import opened ChainLookup
  import opened ForkOrder
  import opened ForkChoice
  import opened ChainSwitching
  import opened Measurement
  import opened Counterexamples

  // ----- a leader that led at no earlier slot

  /** The two children of the root, of which 2 is heavier and on chain 1. */
  function TwoLeaders(): (m: Candidates) {
    Candidates(TwoChildren(), map[6 := {1, 2}], map[1 := 11, 2 := 12])
  }

  lemma TwoLeadersMembers()
    ensures TwoChildren().Consistent() && SlotMembers(TwoChildren(), {1, 2}, TwoLeaders().weight, 6) && TwoChildren().On(2, 1)
  {
    hide Tree.MainChildren, Tree.Partitioned, Tree.Grounded, Tree.Indexed, Tree.Single, Tree.EntriesRight;
    TwoChildrenInv();
    InvConsistent(TwoChildren());
  }

  lemma TwoLeadersTop()
    ensures TwoLeaders().Valid() && TwoLeaders().Tops(6, 2)
    ensures TwoLeaders().Leads(6, 1) && TwoLeaders().Covers(6, 11)
    ensures forall x :: !TwoLeaders().Leads(5, x)
  {
    hide Tree.Chained, Tree.Single, Tree.EntriesRight, SlotMembers, TwoChildren, NodeLess;
    TwoLeadersMembers();
    assert TwoLeaders().Tops(6, 2);
  }

  /**
   Chain 1 leads at the measured slot and is heavier than the main chain 0, but
   led at no earlier slot: the candidate is neither set nor withdrawn. With a
   threshold of 1 there is no earlier slot to lead at, with the same effect.
   */
  method CandidateStays(threshold: nat) returns (r: Measured)
    requires 1 <= threshold <= 2
    ensures TwoLeaders().Valid() && TwoLeaders().Leads(6, 1) && TwoLeaders().Covers(6, 11)
    ensures threshold == 1 ==> TwoLeaders().LeadsFor(6, threshold, 1)
    ensures r == Unchanged
  {
    hide Candidates.Valid, Candidates.Tops, Candidates.Leads, Candidates.Covers, TwoLeaders;
    TwoLeadersTop();
    forall x
      ensures !TwoLeaders().LedBefore(6, threshold, x) && (threshold == 2 ==> !TwoLeaders().LeadsFor(6, threshold, x))
    {
      assert !TwoLeaders().Leads(5, x);
    }
    var running;
    r, running := MeasureAt(TwoLeaders(), 6, threshold, 0, 11);
  }

  // ----- the chains at slots 6 and 7

  /** 5 is on top of 1, and 4 on top of 2. */
  predicate Grandchildren(t: Tree) {
    && t.Inv() && t.header == TwoChildren().header[5 := Header(7, 1, 14)][4 := Header(7, 2, 13)]
    && t.root == 0 && t.live == {0, 1, 2, 4, 5} && t.parent == map[1 := 0, 2 := 0, 5 := 1, 4 := 2]
    && t.On(1, 0) && t.On(2, 1) && t.On(4, 1) && t.On(5, 0)
  }

  lemma GrandchildrenExist() returns (t: Tree)
    ensures Grandchildren(t)
  {
    hide Tree.Chained, Tree.Indexed, Extended;
    var u := OneGrandchild();
    assert CanExtend(u, 4, Header(7, 2, 13)) by { OneExtendable(u); }
    t := Extended(u, 4, Header(7, 2, 13));
    ExtendedFacts(u, 4, Header(7, 2, 13));
    ExtendedOthers(u, 4, Header(7, 2, 13), 1);
    ExtendedOthers(u, 4, Header(7, 2, 13), 2);
    ExtendedOthers(u, 4, Header(7, 2, 13), 5);
  }

  lemma OneExtendable(u: Tree)
    requires OnlyFive(u)
    ensures CanExtend(u, 4, Header(7, 2, 13))
  {
    hide Tree.MainChildren, Tree.Partitioned, Tree.Grounded, Tree.Indexed;
  }

  /**
   The candidates on attested weights at slots 6 and 7, with the weights that
   commitments 1 and 2 have so far. Nobody has attested 5, and the weight of 4
   follows that of 2 only later.
   */
  function Grown(t: Tree, w: nat, v: nat): (m: Candidates) {
    Candidates(t, map[6 := {1, 2}, 7 := {4}], map[1 := w, 2 := v, 4 := 11])
  }

  lemma GrandchildrenSolid(t: Tree)
    requires Grandchildren(t)
    ensures SolidId(t, 1) && SolidId(t, 2) && SolidId(t, 4) && t.Slot(1) == t.Slot(2) == 6 && t.Slot(4) == 7
  {
    hide Tree.MainChildren, Tree.Partitioned, Tree.Grounded, Tree.Indexed;
    assert t.Solid(0) && t.Solid(2);
  }

  lemma GrandchildrenLive(t: Tree)
    requires Grandchildren(t)
    ensures {1, 2, 4} <= t.live && t.live <= t.header.Keys
  {
    hide Tree.MainChildren, Tree.Partitioned, Tree.Grounded, Tree.Indexed;
  }

  lemma GrownMembers(t: Tree, w: nat, v: nat)
    requires Grandchildren(t)
    ensures SlotMembers(t, {1, 2}, Grown(t, w, v).weight, 6) && SlotMembers(t, {4}, Grown(t, w, v).weight, 7)
  {
    hide Tree.MainChildren, Tree.Partitioned, Tree.Grounded, Tree.Indexed, SolidId;
    GrandchildrenSolid(t);
  }

  lemma GrownTops(t: Tree, w: nat, v: nat)
    requires Grandchildren(t) && w != v
    ensures Grown(t, w, v).Valid() && Grown(t, w, v).Tops(7, 4) && Grown(t, w, v).Tops(6, if w < v then 2 else 1)
  {
    hide Tree.MainChildren, Tree.Partitioned, Tree.Grounded, Tree.Indexed, Tree.Single, Tree.EntriesRight, SlotMembers, NodeLess;
    InvConsistent(t);
    GrownMembers(t, w, v);
    GrandchildrenLive(t);
  }

  lemma GrownLeads(t: Tree, w: nat, v: nat)
    requires Grandchildren(t) && w != v
    ensures Grown(t, w, v).Valid() && Grown(t, w, v).Covers(7, 11) && !Grown(t, w, v).Covers(7, 14)
    ensures forall x :: Grown(t, w, v).Leads(7, x) <==> x == 1
    ensures Grown(t, w, v).Leads(6, 1) <==> w < v
  {
    hide Candidates.Valid, Candidates.Tops, Candidates.Leads, Candidates.Covers, Tree.Inv;
    GrownTops(t, w, v);
    forall x { LeadsIff(Grown(t, w, v), 7, 4, x); }
    LeadsIff(Grown(t, w, v), 6, if w < v then 2 else 1, 1);
    CoversIff(Grown(t, w, v), 7, 4, 11);
    CoversIff(Grown(t, w, v), 7, 4, 14);
  }

  /** The measurement of chain 1 at slot 7 with threshold 2, and whether chain 1 was last seen leading at slot 6. */
  function Measuring(leads: bool): (r: Running) {
    Running(7, 2, 1, map[6 := leads])
  }

  /** Chain 1 weighs as much as the main chain 0, which has verified commitment 1. */
  lemma MeasuringStarts(t: Tree, w: nat, v: nat)
    requires Grandchildren(t) && w != v
    ensures Grown(t, w, v).Valid() && Started(Grown(t, w, v), 7, 2, 0, 11) == Some(Measuring(w < v))
  {
    hide Candidates.Valid, Candidates.Leads, Candidates.Covers, Grandchildren;
    GrownLeads(t, w, v);
    var m := Grown(t, w, v);
    assert m.Leads(7, 1);
    assert Earlier(7, 1) == {6};
    assert Monitored(m, 7, 1, 1) == map[6 := w < v];
  }

  lemma MeasuringVerdicts()
    ensures Verdict(Measuring(true)) == Some(1) && Flagged(Measuring(true).leads) != {}
    ensures Verdict(Measuring(false)) == None && Flagged(Measuring(false).leads) == {}
  {
    assert Flagged(Measuring(true).leads) == {6};
    assert Flagged(Measuring(false).leads) == {};
  }

  // ----- a candidate that is the main chain

  /**
   For a candidate on attested weights: chain 1 leads at slots 6 and 7 and is the
   candidate, and becomes the main chain. Then commitment 1 overtakes at slot 6,
   the counter falls back to zero, and chain 1 is withdrawn. Then commitment 2
   overtakes in turn, and the candidate is set to chain 1, which is the main
   chain by now.
   */
  lemma SetToMain() returns (states: seq<State>, events: seq<Event>)
    ensures IsRun(states, events) && |events| == 4 && states[0] == State(0, None, None, false, false)
    ensures states[1].candidate == Some(1) && states[1].main == 0
    ensures states[2].candidate == Some(1) && states[2].main == 1
    ensures states[3].candidate == None && states[3].main == 1
    ensures states[4].candidate == Some(1) && states[4].main == 1
  {
    hide Candidates.Valid, Candidates.Leads, Candidates.Covers, Grandchildren, Started, Verdict, Flagged, Grown;
    var t := GrandchildrenExist();
    GrownLeads(t, 11, 10);
    GrownLeads(t, 11, 12);
    MeasuringStarts(t, 0, 10);
    MeasuringVerdicts();
    events := [Measure(Grown(t, 0, 10), 7, 2, 11), MainMoved(1, 13), Changed(Grown(t, 11, 10), 6), Changed(Grown(t, 11, 12), 6)];
    states := [State(0, None, None, false, false),
               State(0, Some(1), Some(Measuring(true)), true, false),
               State(1, Some(1), Some(Measuring(true)), true, false),
               State(1, None, Some(Measuring(false)), true, false),
               State(1, Some(1), Some(Measuring(true)), true, false)];
    assert Measuring(true).leads[6 := false] == Measuring(false).leads;
    assert Measuring(false).leads[6 := true] == Measuring(true).leads;
  }

  // ----- a candidate that is lighter than the main chain

  /** What the main chain weighs at slot 7 before and after commitment 5 is verified. */
  lemma MainCatchesUp(t: Tree)
    requires Grandchildren(t)
    ensures 0 in t.forkingPoint && VerifiedWeightAt(t, 0, 7, {1}, map[1 := 11], Some(1)) == 11
    ensures VerifiedWeightAt(t, 0, 7, {1, 5}, map[1 := 11, 5 := 14], Some(5)) == 14
  {
    hide Tree.MainChildren, Tree.Partitioned, Tree.Grounded;
    FiveSolid(t);
    LookupIsAncestor(t, 5, 7);
  }

  lemma FiveSolid(t: Tree)
    requires Grandchildren(t)
    ensures t.Solid(5) && t.Slot(5) == 7 && t.Slot(t.root) == 5 && t.AncestorAt(5, 7) == 5
  {
    hide Tree.MainChildren, Tree.Partitioned, Tree.Grounded, Tree.Indexed;
    assert t.Solid(0) && t.Solid(1);
  }

  /**
   For a candidate on attested weights: chain 1 weighs as much as the main chain
   at slot 7 but does not lead at slot 6. Then the main chain verifies commitment
   5, which is heavier than anything chain 1 claims at slot 7. Then commitment 2
   overtakes at slot 6, and chain 1 becomes the candidate.
   */
  lemma SetToLighter() returns (t: Tree, states: seq<State>, events: seq<Event>)
    ensures Grandchildren(t) && t.header[4].cumulativeWeight < 14
    ensures IsRun(states, events) && |events| == 3 && states[0] == State(0, None, None, false, false)
    ensures events[0] == Measure(Grown(t, 11, 10), 7, 2, 11) && events[1] == MainWeighs(14)
    ensures 0 in t.forkingPoint && VerifiedWeightAt(t, 0, 7, {1}, map[1 := 11], Some(1)) == 11
    ensures VerifiedWeightAt(t, 0, 7, {1, 5}, map[1 := 11, 5 := 14], Some(5)) == 14
    ensures states[2].candidate == None && states[3].candidate == Some(1) && states[3].main == 0
  {
    hide Candidates.Valid, Candidates.Leads, Candidates.Covers, Grandchildren, Started, Verdict, Flagged, Grown,
         VerifiedWeightAt, Tree.Chained, Tree.Indexed;
    t := GrandchildrenExist();
    HeavierClaim(t);
    MainCatchesUp(t);
    GrownLeads(t, 11, 12);
    MeasuringStarts(t, 11, 10);
    MeasuringVerdicts();
    events := [Measure(Grown(t, 11, 10), 7, 2, 11), MainWeighs(14), Changed(Grown(t, 11, 12), 6)];
    states := [State(0, None, None, false, false),
               State(0, None, Some(Measuring(false)), false, false),
               State(0, None, Some(Measuring(false)), false, false),
               State(0, Some(1), Some(Measuring(true)), true, false)];
    assert Measuring(false).leads[6 := true] == Measuring(true).leads;
  }

  lemma HeavierClaim(t: Tree)
    requires Grandchildren(t)
    ensures 4 in t.header && t.header[4].cumulativeWeight < 14
  {
    hide Tree.Chained, Tree.Indexed;
  }
}

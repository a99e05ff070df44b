/**
 Warp sync: what `WarpSync.ProcessResponse` sets in motion. Its callbacks run
 when blocks and commitments make progress, in any order, so it is a state
 machine over those events. The Merkle proofs of a response are checked before.
 */
module WarpSync {
  import opened Collections

  type Id = nat
  type BlockId = nat

  // ----- counting callbacks

  /** How many of the listed blocks are in s, counting a block as often as it is listed. */
  function CountIn(w: seq<BlockId>, s: set<BlockId>): (n: nat)
    ensures n <= |w|
  {
    if w == [] then 0 else CountIn(w[..|w| - 1], s) + if w[|w| - 1] in s then 1 else 0
  }

  function Occurrences(w: seq<BlockId>, b: BlockId): (n: nat) {
    CountIn(w, {b})
  }

  /** One event per block moves the count by the number of its callbacks. */
  lemma {:induction false} CountNext(w: seq<BlockId>, s: set<BlockId>, b: BlockId)
    requires b !in s
    ensures CountIn(w, s + {b}) == CountIn(w, s) + Occurrences(w, b)
  {
    if w != [] {
      CountNext(w[..|w| - 1], s, b);
    }
  }

  /** The count is complete exactly when every block is in. */
  lemma {:induction false} CountFull(w: seq<BlockId>, s: set<BlockId>)
    ensures CountIn(w, s) == |w| <==> forall b | b in w :: b in s
  {
    if w != [] {
      var init, last := w[..|w| - 1], w[|w| - 1];
      CountFull(init, s);
      assert forall b :: b in w <==> b in init || b == last;
    }
  }

  /** The listed blocks that are available, in order. */
  function Available(w: seq<BlockId>, missing: set<BlockId>): (r: seq<BlockId>)
    ensures |r| <= |w| && (|r| == |w| <==> r == w)
    ensures r == w <==> forall b | b in w :: b !in missing
    ensures forall b :: b in r <==> b in w && b !in missing
  {
    if w == [] then []
    else
      assert w == w[..|w| - 1] + [w[|w| - 1]];
      Available(w[..|w| - 1], missing) + if w[|w| - 1] in missing then [] else [w[|w| - 1]]
  }

  lemma AvailableNext(blocks: seq<BlockId>, missing: set<BlockId>, i: nat)
    requires i < |blocks|
    ensures Available(blocks[..i + 1], missing) ==
            Available(blocks[..i], missing) + if blocks[i] in missing then [] else [blocks[i]]
  {
    assert blocks[..i + 1][..i] == blocks[..i];
  }

  lemma CountAppend(w: seq<BlockId>, b: BlockId, s: set<BlockId>)
    ensures CountIn(w + [b], s) == CountIn(w, s) + if b in s then 1 else 0
  {
    assert (w + [b])[..|w|] == w;
  }

  /** The callback count reaches the number of listed blocks exactly when all are there and have propagated. */
  lemma AllBooked(blocks: seq<BlockId>, missing: set<BlockId>, propagated: set<BlockId>)
    ensures CountIn(Available(blocks, missing), propagated) == |blocks|
            <==> forall b | b in blocks :: b !in missing && b in propagated
  {
    CountFull(Available(blocks, missing), propagated);
  }

  /** The loop that requests the listed blocks and subscribes to those that it got. */
  method Subscribe(blocks: seq<BlockId>, missing: set<BlockId>, propagated: set<BlockId>)
    returns (toSync: set<BlockId>, watched: seq<BlockId>, booked: nat, full: bool)
    ensures forall b :: b in toSync <==> b in blocks
    ensures watched == Available(blocks, missing) && booked == CountIn(watched, propagated)
    ensures full <==> blocks != [] && forall b | b in blocks :: b !in missing && b in propagated
  {
    hide Available, CountIn;
    toSync, watched, booked, full := {}, [], 0, false;
    assert Available(blocks[..0], missing) == [] && CountIn([], propagated) == 0 by { NothingYet(blocks, missing, propagated); }
    for i := 0 to |blocks|
      invariant forall b :: b in toSync <==> b in blocks[..i]
      invariant watched == Available(blocks[..i], missing) && booked == CountIn(watched, propagated)
      invariant full <==> i > 0 && booked == |blocks|
    {
      AvailableNext(blocks, missing, i);
      toSync := toSync + {blocks[i]};
      if blocks[i] !in missing {
        CountAppend(watched, blocks[i], propagated);
        watched := watched + [blocks[i]];
        if blocks[i] in propagated {
          booked := booked + 1;
          if booked == |blocks| {
            full := true;
          }
        }
      }
    }
    assert blocks[..|blocks|] == blocks;
    AllBooked(blocks, missing, propagated);
  }

  lemma NothingYet(blocks: seq<BlockId>, missing: set<BlockId>, propagated: set<BlockId>)
    ensures Available(blocks[..0], missing) == [] && CountIn([], propagated) == 0
  {
  }

  // ----- the state

  /**
   An accepted response for a commitment: the listed blocks, those whose weight
   propagation is watched and how often it was seen, and, once the commit was
   started, the same for notarization.
   */
  datatype Job = Job(
    blocks: seq<BlockId>, watched: seq<BlockId>, booked: nat, committing: Option<seq<BlockId>>, notarizedCount: nat)

  datatype State = State(
    lag: nat,                   // MinCommittableAge - 1
    parent: map<Id, Id>,
    jobs: map<Id, Job>,
    synced: set<Id>,            // raised by warp sync or with verified
    committable: set<Id>,
    verified: set<Id>,
    ready: set<Id>,             // all blocks are notarized
    forced: seq<Id>,            // forced commits, in order
    propagated: set<BlockId>,
    notarized: set<BlockId>)

  datatype Event =
    | Response(id: Id, blocks: seq<BlockId>, missing: set<BlockId>)
    | WeightPropagated(block: BlockId)
    | MarkCommittable(id: Id)                      // id is synced: the commitment lag slots below it is committable
    | StartCommit(id: Id, cached: set<BlockId>)    // parent verified and committable: commitmentFunc runs
    | Notarized(block: BlockId)
    | ForceCommit(id: Id)
    | Verified(id: Id)                             // the engine committed it, forced or not

  /** The commitment k slots below c on its chain. */
  function Back(parent: map<Id, Id>, c: Id, k: nat): (d: Option<Id>)
    decreases k
  {
    if k == 0 then Some(c) else if c in parent then Back(parent, parent[c], k - 1) else None
  }

  predicate Enabled(s: State, e: Event) {
    match e
    // no response is accepted for a commitment that has one or is synced
    case Response(c, blocks, missing) =>
      c in s.parent && c !in s.jobs && c !in s.synced
    case WeightPropagated(b) => b !in s.propagated
    case MarkCommittable(c) => c in s.jobs && c in s.synced && Back(s.parent, c, s.lag).Some?
    case StartCommit(c, cached) =>
      c in s.jobs && c in s.parent && s.parent[c] in s.verified && c in s.committable && s.jobs[c].committing.None?
    case Notarized(b) => b !in s.notarized
    // the event that all blocks are notarized triggers once
    case ForceCommit(c) => c in s.ready && c !in s.forced
    // an engine commits slot by slot
    case Verified(c) => c in s.parent ==> s.parent[c] in s.verified
  }

  function Booked(job: Job, b: BlockId): (j: Job) {
    job.(booked := job.booked + Occurrences(job.watched, b))
  }

  function SeenNotarized(job: Job, b: BlockId): (j: Job) {
    if job.committing.None? then job
    else job.(notarizedCount := job.notarizedCount + Occurrences(job.committing.value, b))
  }

  function Step(s: State, e: Event): (r: State)
    requires Enabled(s, e)
  {
    match e
    case Response(c, blocks, missing) =>
      var watched := Available(blocks, missing);
      var job := Job(blocks, watched, CountIn(watched, s.propagated), None, 0);
      if blocks == [] then s.(jobs := s.jobs[c := job], committable := s.committable + {c}, synced := s.synced + {c})
      else s.(jobs := s.jobs[c := job], synced := if job.booked == |blocks| then s.synced + {c} else s.synced)
    case WeightPropagated(b) =>
      s.(propagated := s.propagated + {b},
         jobs := (map c | c in s.jobs :: Booked(s.jobs[c], b)),
         synced := s.synced + set c | c in s.jobs && Occurrences(s.jobs[c].watched, b) > 0
                                      && Booked(s.jobs[c], b).booked == |s.jobs[c].blocks|)
    case MarkCommittable(c) => s.(committable := s.committable + {Back(s.parent, c, s.lag).value})
    case StartCommit(c, cached) =>
      var job := s.jobs[c];
      var seen := Available(job.blocks, (set b | b in job.blocks && b !in cached));
      var count := CountIn(seen, s.notarized);
      s.(jobs := s.jobs[c := job.(committing := Some(seen), notarizedCount := count)],
         ready := if count == |job.blocks| then s.ready + {c} else s.ready)
    case Notarized(b) =>
      s.(notarized := s.notarized + {b},
         jobs := (map c | c in s.jobs :: SeenNotarized(s.jobs[c], b)),
         ready := s.ready + set c | c in s.jobs && s.jobs[c].committing.Some?
                                    && Occurrences(s.jobs[c].committing.value, b) > 0
                                    && SeenNotarized(s.jobs[c], b).notarizedCount == |s.jobs[c].blocks|)
    case ForceCommit(c) => s.(forced := s.forced + [c])
    case Verified(c) => s.(verified := s.verified + {c}, synced := s.synced + {c})
  }

  function Init(lag: nat, parent: map<Id, Id>, root: Id): (s: State)
    requires root !in parent
  {
    State(lag, parent, map[], {root}, {}, {root}, {}, [], {}, {})
  }

  // ----- the invariant

  predicate Counts(s: State, c: Id)
    requires c in s.jobs
  {
    var job := s.jobs[c];
    && |job.watched| <= |job.blocks| && (|job.watched| == |job.blocks| ==> job.watched == job.blocks)
    && job.booked == CountIn(job.watched, s.propagated)
    && (c in s.synced <==> c in s.verified || job.booked == |job.blocks|)
    && (job.committing.Some? ==>
          && |job.committing.value| <= |job.blocks|
          && (|job.committing.value| == |job.blocks| ==> job.committing.value == job.blocks)
          && job.notarizedCount == CountIn(job.committing.value, s.notarized)
          && c in s.parent && s.parent[c] in s.verified && c in s.committable)
    && (c in s.ready <==> job.committing.Some? && job.notarizedCount == |job.blocks|)
  }

  /** d is committable because it is empty, or because the commitment lag slots above it is synced. */
  ghost predicate Justified(s: State, d: Id) {
    || (d in s.jobs && s.jobs[d].blocks == [])
    || (exists c :: c in s.synced && Back(s.parent, c, s.lag) == Some(d))
  }

  ghost predicate Inv(s: State) {
    && (forall c | c in s.jobs :: Counts(s, c))
    && (forall d | d in s.committable :: Justified(s, d))
    && s.ready <= s.jobs.Keys && s.verified <= s.synced
    && (forall c | c in s.parent && c in s.verified :: s.parent[c] in s.verified)
    && (forall c | c in s.forced :: c in s.ready)
  }

  lemma ResponseInv(s: State, c: Id, blocks: seq<BlockId>, missing: set<BlockId>)
    requires Inv(s) && Enabled(s, Response(c, blocks, missing))
    ensures Inv(Step(s, Response(c, blocks, missing)))
  {
    var r := Step(s, Response(c, blocks, missing));
    forall d | d in r.jobs
      ensures Counts(r, d)
    {
      if d != c {
        assert Counts(s, d);
      }
    }
  }

  lemma PropagatedInv(s: State, b: BlockId)
    requires Inv(s) && Enabled(s, WeightPropagated(b))
    ensures Inv(Step(s, WeightPropagated(b)))
  {
    var r := Step(s, WeightPropagated(b));
    forall d | d in r.jobs
      ensures Counts(r, d)
    {
      assert Counts(s, d);
      CountNext(s.jobs[d].watched, s.propagated, b);
    }
  }

  lemma CommittableInv(s: State, c: Id)
    requires Inv(s) && Enabled(s, MarkCommittable(c))
    ensures Inv(Step(s, MarkCommittable(c)))
  {
    var r := Step(s, MarkCommittable(c));
    forall d | d in r.jobs
      ensures Counts(r, d)
    {
      assert Counts(s, d);
    }
  }

  lemma StartInv(s: State, c: Id, cached: set<BlockId>)
    requires Inv(s) && Enabled(s, StartCommit(c, cached))
    ensures Inv(Step(s, StartCommit(c, cached)))
  {
    var r := Step(s, StartCommit(c, cached));
    forall d | d in r.jobs
      ensures Counts(r, d)
    {
      assert Counts(s, d);
    }
  }

  lemma NotarizedInv(s: State, b: BlockId)
    requires Inv(s) && Enabled(s, Notarized(b))
    ensures Inv(Step(s, Notarized(b)))
  {
    var r := Step(s, Notarized(b));
    forall d | d in r.jobs
      ensures Counts(r, d)
    {
      assert Counts(s, d);
      if s.jobs[d].committing.Some? {
        CountNext(s.jobs[d].committing.value, s.notarized, b);
      }
    }
  }

  lemma VerifiedInv(s: State, c: Id)
    requires Inv(s) && Enabled(s, Verified(c))
    ensures Inv(Step(s, Verified(c)))
  {
    var r := Step(s, Verified(c));
    forall d | d in r.jobs
      ensures Counts(r, d)
    {
      assert Counts(s, d);
    }
  }

  lemma ForceInv(s: State, c: Id)
    requires Inv(s) && Enabled(s, ForceCommit(c))
    ensures Inv(Step(s, ForceCommit(c)))
  {
    var r := Step(s, ForceCommit(c));
    forall d | d in r.jobs
      ensures Counts(r, d)
    {
      assert Counts(s, d);
    }
  }

  lemma StepInv(s: State, e: Event)
    requires Inv(s) && Enabled(s, e)
    ensures Inv(Step(s, e))
  {
    hide Inv, Step;
    match e
    case Response(c, blocks, missing) => ResponseInv(s, c, blocks, missing);
    case WeightPropagated(b) => PropagatedInv(s, b);
    case MarkCommittable(c) => CommittableInv(s, c);
    case StartCommit(c, cached) => StartInv(s, c, cached);
    case Notarized(b) => NotarizedInv(s, b);
    case ForceCommit(c) => ForceInv(s, c);
    case Verified(c) => VerifiedInv(s, c);
  }

  // ----- runs

  ghost predicate IsRun(states: seq<State>, events: seq<Event>) {
    && |states| == |events| + 1
    && (exists lag, parent, root :: root !in parent && states[0] == Init(lag, parent, root))
    && (forall i | 0 <= i < |events| :: Enabled(states[i], events[i]) && states[i + 1] == Step(states[i], events[i]))
  }

  lemma {:induction false} RunInv(states: seq<State>, events: seq<Event>, i: nat)
    requires IsRun(states, events) && i < |states|
    ensures Inv(states[i])
    decreases i
  {
    if i > 0 {
      hide Inv, Step, Enabled;
      RunInv(states, events, i - 1);
      StepInv(states[i - 1], events[i - 1]);
    }
  }

  /**
   A slot is only ever force-committed after its parent was verified, every block
   that its response listed was notarized, and either it has no blocks or the
   commitment MinCommittableAge - 1 slots above it was synced.
   */
  lemma ForcedOnlyWhenReady(states: seq<State>, events: seq<Event>, i: nat, c: Id)
    requires IsRun(states, events) && i < |states| && c in states[i].forced
    ensures var s := states[i];
            && c in s.parent && s.parent[c] in s.verified
            && c in s.jobs && (forall b | b in s.jobs[c].blocks :: b in s.notarized)
            && (s.jobs[c].blocks == [] || exists d :: d in s.synced && Back(s.parent, d, s.lag) == Some(c))
  {
    RunInv(states, events, i);
    var s := states[i];
    assert c in s.ready && Counts(s, c);
    CountFull(s.jobs[c].committing.value, s.notarized);
  }

  /**
   A commitment with a response is synced exactly when it is verified, or when
   every block of the response was available and has propagated its weight.
   */
  lemma SyncedWhenPropagated(states: seq<State>, events: seq<Event>, i: nat, c: Id)
    requires IsRun(states, events) && i < |states| && c in states[i].jobs
    ensures var s, job := states[i], states[i].jobs[c];
            c in s.synced <==>
            c in s.verified || (job.watched == job.blocks && forall b | b in job.blocks :: b in s.propagated)
  {
    RunInv(states, events, i);
    var s := states[i];
    assert Counts(s, c);
    CountFull(s.jobs[c].watched, s.propagated);
  }

  // ----- the order of forced commits

  /** d is reached from c by following one or more parent links. */
  least predicate IsAncestor[nat](parent: map<Id, Id>, d: Id, c: Id) {
    c in parent && (parent[c] == d || IsAncestor(parent, d, parent[c]))
  }

  least lemma AncestorsVerified[nat](s: State, d: Id, c: Id)
    requires Inv(s) && c in s.parent && s.parent[c] in s.verified && IsAncestor(s.parent, d, c)
    ensures d in s.verified
  {
    if s.parent[c] != d {
      AncestorsVerified(s, d, s.parent[c]);
    }
  }

  /** Whatever else has happened, all ancestors of a forced slot are verified. */
  lemma ForcedAboveVerified(states: seq<State>, events: seq<Event>, i: nat, c: Id, d: Id)
    requires IsRun(states, events) && i < |states| && c in states[i].forced && IsAncestor(states[i].parent, d, c)
    ensures d in states[i].verified
  {
    RunInv(states, events, i);
    var s := states[i];
    assert c in s.ready && Counts(s, c);
    AncestorsVerified(s, d, c);
  }

  /** So a slot that is not committed yet is forced before all of its descendants. */
  lemma ForcedInSlotOrder(states: seq<State>, events: seq<Event>, i: nat, c: Id, d: Id)
    requires IsRun(states, events) && i < |events| && events[i] == ForceCommit(d) && d !in states[i].verified
    requires c in states[i].forced
    ensures !IsAncestor(states[i].parent, d, c)
  {
    if IsAncestor(states[i].parent, d, c) {
      ForcedAboveVerified(states, events, i, c, d);
    }
  }

  // ----- the order without that condition

  const PARENTS: map<Id, Id> := map[1 := 0, 2 := 1]

  /** Slot 1 with block 7, synced; slot 2 is empty. The root is 0, and MinCommittableAge is 2. */
  function Full(committing: Option<seq<BlockId>>, notarized: nat): (j: Job) {
    Job([7], [7], 1, committing, notarized)
  }

  function Empty(committing: Option<seq<BlockId>>): (j: Job) {
    Job([], [], 0, committing, 0)
  }

  function OneSlot(verified: set<Id>, notarized: set<BlockId>): (s: State) {
    State(1, PARENTS, map[1 := Full(None, 0)], {0, 1}, {}, verified, {}, [], {7}, notarized)
  }

  function TwoSlots(one: Job, two: Job, committable: set<Id>, ready: set<Id>, forced: seq<Id>): (s: State) {
    State(1, PARENTS, map[1 := one, 2 := two], {0, 1, 2}, committable, {0, 1}, ready, forced, {7}, {7})
  }

  lemma FirstResponse()
    ensures Enabled(Init(1, PARENTS, 0), Response(1, [7], {}))
    ensures Step(Init(1, PARENTS, 0), Response(1, [7], {})) == State(1, PARENTS, map[1 := Job([7], [7], 0, None, 0)], {0}, {}, {0}, {}, [], {}, {})
  {
    assert Available([7], {}) == [7];
  }

  lemma FirstPropagated()
    ensures var s := State(1, PARENTS, map[1 := Job([7], [7], 0, None, 0)], {0}, {}, {0}, {}, [], {}, {});
            Enabled(s, WeightPropagated(7)) && Step(s, WeightPropagated(7)) == OneSlot({0}, {})
  {
    assert Occurrences([7], 7) == 1;
    var s := State(1, PARENTS, map[1 := Job([7], [7], 0, None, 0)], {0}, {}, {0}, {}, [], {}, {});
    assert Booked(s.jobs[1], 7) == Full(None, 0);
  }

  lemma FirstNotarized()
    ensures Enabled(OneSlot({0}, {}), Notarized(7)) && Step(OneSlot({0}, {}), Notarized(7)) == OneSlot({0}, {7})
  {
    hide Occurrences, Available, CountIn, Back;
  }

  lemma FirstVerified()
    ensures Enabled(OneSlot({0}, {7}), Verified(1)) && Step(OneSlot({0}, {7}), Verified(1)) == OneSlot({0, 1}, {7})
  {
  }

  lemma SecondSlot()
    ensures var s := OneSlot({0, 1}, {7});
            && Enabled(s, Response(2, [], {}))
            && Step(s, Response(2, [], {})) == TwoSlots(Full(None, 0), Empty(None), {2}, {}, [])
    ensures var s := TwoSlots(Full(None, 0), Empty(None), {2}, {}, []);
            && Enabled(s, StartCommit(2, {}))
            && Step(s, StartCommit(2, {})) == TwoSlots(Full(None, 0), Empty(Some([])), {2}, {2}, [])
    ensures var s := TwoSlots(Full(None, 0), Empty(Some([])), {2}, {2}, []);
            && Enabled(s, ForceCommit(2))
            && Step(s, ForceCommit(2)) == TwoSlots(Full(None, 0), Empty(Some([])), {2}, {2}, [2])
  {
  }

  lemma FirstCommittable()
    ensures var s := TwoSlots(Full(None, 0), Empty(Some([])), {2}, {2}, [2]);
            && Enabled(s, MarkCommittable(2))
            && Step(s, MarkCommittable(2)) == TwoSlots(Full(None, 0), Empty(Some([])), {1, 2}, {2}, [2])
  {
    assert Back(PARENTS, 1, 0) == Some(1);
    assert Back(PARENTS, 2, 1) == Some(1);
  }

  lemma FirstStarted()
    ensures var s := TwoSlots(Full(None, 0), Empty(Some([])), {1, 2}, {2}, [2]);
            && Enabled(s, StartCommit(1, {7}))
            && Step(s, StartCommit(1, {7})) == TwoSlots(Full(Some([7]), 1), Empty(Some([])), {1, 2}, {1, 2}, [2])
  {
    hide Occurrences, Available, CountIn, Back;
    SevenAvailable();
  }

  lemma SevenAvailable()
    ensures Available([7], set b | b in [7] && b !in {7}) == [7] && CountIn([7], {7}) == 1
  {
    var missing := set b | b in [7] && b !in {7};
    assert missing == {};
  }

  lemma FirstForced()
    ensures var s := TwoSlots(Full(Some([7]), 1), Empty(Some([])), {1, 2}, {1, 2}, [2]);
            && Enabled(s, ForceCommit(1))
            && Step(s, ForceCommit(1)) == TwoSlots(Full(Some([7]), 1), Empty(Some([])), {1, 2}, {1, 2}, [2, 1])
  {
  }

  /**
   Slot 1 is synced and the engine commits it; slot 2 is empty and forced at once.
   That slot 2 is synced makes slot 1 committable, which is then forced as well.
   */
  lemma ForcedLate() returns (states: seq<State>, events: seq<Event>)
    ensures IsRun(states, events) && states[|events|].parent == map[1 := 0, 2 := 1]
    ensures states[|events|].forced == [2, 1]
  {
    hide Step, Enabled;
    FirstResponse();
    FirstPropagated();
    FirstNotarized();
    FirstVerified();
    SecondSlot();
    FirstCommittable();
    FirstStarted();
    FirstForced();
    events := [Response(1, [7], {}), WeightPropagated(7), Notarized(7), Verified(1), Response(2, [], {}), StartCommit(2, {}),
               ForceCommit(2), MarkCommittable(2), StartCommit(1, {7}), ForceCommit(1)];
    var a := Init(1, PARENTS, 0);
    var none, done := Empty(None), Empty(Some([]));
    states := [a, Step(a, events[0]), OneSlot({0}, {}), OneSlot({0}, {7}), OneSlot({0, 1}, {7}),
               TwoSlots(Full(None, 0), none, {2}, {}, []),
               TwoSlots(Full(None, 0), done, {2}, {2}, []),
               TwoSlots(Full(None, 0), done, {2}, {2}, [2]),
               TwoSlots(Full(None, 0), done, {1, 2}, {2}, [2]),
               TwoSlots(Full(Some([7]), 1), done, {1, 2}, {1, 2}, [2]),
               TwoSlots(Full(Some([7]), 1), done, {1, 2}, {1, 2}, [2, 1])];
  }
}

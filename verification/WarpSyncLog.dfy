/**
 The state of a warp sync in terms of the events so far: who is synced, who may
 be committed, and which commits were forced.
 */
module WarpSyncLog {
  import opened Collections
  import opened WarpSync

  /** The forced commits among the events, in order. */
  function Forces(events: seq<Event>): (ids: seq<Id>) {
    if events == [] then []
    else
      var last := events[|events| - 1];
      Forces(events[..|events| - 1]) + if last.ForceCommit? then [last.id] else []
  }

  // ----- what the fields hold

  ghost predicate Flags(start: State, s: State, events: seq<Event>) {
    && s.parent == start.parent && s.lag == start.lag
    && (forall b :: b in s.propagated <==> b in start.propagated || WeightPropagated(b) in events)
    && (forall b :: b in s.notarized <==> b in start.notarized || Notarized(b) in events)
    && (forall c :: c in s.verified <==> c in start.verified || Verified(c) in events)
  }

  lemma FlagsNext(start: State, s: State, events: seq<Event>, e: Event)
    requires Flags(start, s, events) && Enabled(s, e)
    ensures Flags(start, Step(s, e), events + [e])
  {
    hide CountIn, Available, Occurrences, Back;
  }

  ghost predicate Responded(events: seq<Event>, c: Id) {
    exists blocks, missing :: Response(c, blocks, missing) in events
  }

  /** There is a job for each response, which watches the blocks that could be requested. */
  ghost predicate Jobs(s: State, events: seq<Event>) {
    && (forall c | c in s.jobs :: Responded(events, c))
    && (forall c, blocks, missing | Response(c, blocks, missing) in events ::
          c in s.jobs && s.jobs[c].blocks == blocks && s.jobs[c].watched == Available(blocks, missing))
  }

  lemma JobsNext(s: State, events: seq<Event>, e: Event)
    requires Jobs(s, events) && Enabled(s, e)
    ensures Jobs(Step(s, e), events + [e])
  {
    hide CountIn, Available, Occurrences, Back;
    var r := Step(s, e);
    forall c | c in r.jobs
      ensures Responded(events + [e], c)
    {
      if c in s.jobs {
        var blocks, missing :| Response(c, blocks, missing) in events;
        assert Response(c, blocks, missing) in events + [e];
      } else {
        assert Response(c, e.blocks, e.missing) in events + [e];
      }
    }
    forall c, blocks, missing | Response(c, blocks, missing) in events + [e]
      ensures c in r.jobs && r.jobs[c].blocks == blocks && r.jobs[c].watched == Available(blocks, missing)
    {
      if Response(c, blocks, missing) in events {
        assert c in s.jobs;
      }
    }
  }

  /** Once a commit is started, the job watches those blocks that are cached. */
  ghost predicate Commits(s: State, events: seq<Event>) {
    forall c, cached | StartCommit(c, cached) in events ::
      && c in s.jobs && s.jobs[c].committing.Some?
      && (forall b :: b in s.jobs[c].committing.value <==> b in s.jobs[c].blocks && b in cached)
      && ((forall b | b in s.jobs[c].blocks :: b in cached) ==> s.jobs[c].committing.value == s.jobs[c].blocks)
  }

  lemma CommitsNext(s: State, events: seq<Event>, e: Event)
    requires Commits(s, events) && Enabled(s, e)
    ensures Commits(Step(s, e), events + [e])
  {
    hide CountIn, Occurrences, Back;
    var r := Step(s, e);
    forall c, cached | StartCommit(c, cached) in events + [e]
      ensures c in r.jobs && r.jobs[c].committing.Some?
      ensures forall b :: b in r.jobs[c].committing.value <==> b in r.jobs[c].blocks && b in cached
      ensures (forall b | b in r.jobs[c].blocks :: b in cached) ==> r.jobs[c].committing.value == r.jobs[c].blocks
    {
      if StartCommit(c, cached) in events {
        assert c in s.jobs && s.jobs[c].committing.Some?;
      }
    }
  }

  /** What makes d committable: it is empty, or the commitment lag slots above it is synced. */
  ghost predicate Allowed(start: State, events: seq<Event>, d: Id) {
    || (exists missing :: Response(d, [], missing) in events)
    || (exists c :: MarkCommittable(c) in events && Back(start.parent, c, start.lag) == Some(d))
  }

  ghost predicate Committables(start: State, s: State, events: seq<Event>) {
    && s.parent == start.parent && s.lag == start.lag
    && (forall d :: d in s.committable <==> d in start.committable || Allowed(start, events, d))
  }

  lemma AllowedNext(start: State, events: seq<Event>, e: Event, d: Id)
    ensures Allowed(start, events + [e], d) <==>
            || Allowed(start, events, d)
            || (e.Response? && e.id == d && e.blocks == [])
            || (e.MarkCommittable? && Back(start.parent, e.id, start.lag) == Some(d))
  {
    hide Back;
    if Allowed(start, events, d) {
      if missing :| Response(d, [], missing) in events {
        assert Response(d, [], missing) in events + [e];
      } else {
        var c :| MarkCommittable(c) in events && Back(start.parent, c, start.lag) == Some(d);
        assert MarkCommittable(c) in events + [e];
      }
    }
    if e.Response? && e.id == d && e.blocks == [] {
      assert Response(d, [], e.missing) in events + [e];
    }
    if e.MarkCommittable? && Back(start.parent, e.id, start.lag) == Some(d) {
      assert MarkCommittable(e.id) in events + [e];
    }
  }

  lemma CommittablesNext(start: State, s: State, events: seq<Event>, e: Event)
    requires Committables(start, s, events) && Enabled(s, e)
    ensures Committables(start, Step(s, e), events + [e])
  {
    hide CountIn, Available, Occurrences, Back, Allowed;
    forall d {
      AllowedNext(start, events, e, d);
    }
  }

  /** Without a response only a verified commitment is synced. */
  predicate Others(s: State) {
    forall c | c in s.synced && c !in s.jobs :: c in s.verified
  }

  lemma OthersNext(s: State, e: Event)
    requires Others(s) && Enabled(s, e)
    ensures Others(Step(s, e))
  {
    hide CountIn, Available, Occurrences, Back;
  }

  // ----- runs

  ghost predicate Logged(start: State, s: State, events: seq<Event>) {
    && Flags(start, s, events) && Jobs(s, events) && Commits(s, events) && Committables(start, s, events) && Others(s)
    && s.forced == start.forced + Forces(events)
  }

  lemma LoggedNext(start: State, s: State, events: seq<Event>, e: Event)
    requires Logged(start, s, events) && Enabled(s, e)
    ensures Logged(start, Step(s, e), events + [e])
  {
    hide Flags, Jobs, Commits, Committables, Others, Step;
    FlagsNext(start, s, events, e);
    JobsNext(s, events, e);
    CommitsNext(s, events, e);
    CommittablesNext(start, s, events, e);
    OthersNext(s, e);
    ForcedNext(s, e);
    assert (events + [e])[..|events|] == events;
  }

  lemma ForcedNext(s: State, e: Event)
    requires Enabled(s, e)
    ensures Step(s, e).forced == s.forced + if e.ForceCommit? then [e.id] else []
  {
    hide CountIn, Available, Occurrences, Back;
  }

  /** Over every run the state is what the events so far have made it. */
  lemma {:induction false} RunLogged(states: seq<State>, events: seq<Event>, i: nat)
    requires IsRun(states, events) && i < |states|
    ensures Logged(states[0], states[i], events[..i])
    ensures states[i].forced == Forces(events[..i])
    decreases i
  {
    hide Logged, Step, Enabled;
    if i == 0 {
      StartLogged(states, events);
    } else {
      RunLogged(states, events, i - 1);
      LoggedNext(states[0], states[i - 1], events[..i - 1], events[i - 1]);
      assert events[..i - 1] + [events[i - 1]] == events[..i];
      ForcedNext(states[i - 1], events[i - 1]);
      assert events[..i][..i - 1] == events[..i - 1];
    }
  }

  lemma StartLogged(states: seq<State>, events: seq<Event>)
    requires IsRun(states, events)
    ensures Logged(states[0], states[0], events[..0]) && states[0].forced == [] && Forces(events[..0]) == []
  {
    hide Step, Enabled;
  }

  /**
   A commitment with a response is synced if and only if it was verified, or all
   the blocks of the response could be requested and have propagated their
   weight since; one without a response if and only if it was verified.
   */
  lemma SyncedIff(states: seq<State>, events: seq<Event>, i: nat, c: Id)
    requires IsRun(states, events) && i < |states| && c in states[0].parent
    ensures forall blocks, missing | Response(c, blocks, missing) in events[..i] ::
              c in states[i].synced <==>
              || Verified(c) in events[..i] || c in states[0].verified
              || (forall b | b in blocks :: b !in missing && WeightPropagated(b) in events[..i])
    ensures !Responded(events[..i], c) ==>
              (c in states[i].synced <==> Verified(c) in events[..i] || c in states[0].verified)
  {
    hide Step, Enabled, Available;
    RunLogged(states, events, i);
    RunInv(states, events, i);
    var s := states[i];
    StartEmpty(states, events);
    forall blocks, missing | Response(c, blocks, missing) in events[..i]
      ensures c in s.synced <==>
              || Verified(c) in events[..i] || c in states[0].verified
              || (forall b | b in blocks :: b !in missing && WeightPropagated(b) in events[..i])
    {
      SyncedWhenPropagated(states, events, i, c);
      assert s.jobs[c].watched == Available(blocks, missing) && s.jobs[c].blocks == blocks;
      AllAvailable(blocks, missing);
    }
  }

  lemma AllAvailable(blocks: seq<BlockId>, missing: set<BlockId>)
    ensures Available(blocks, missing) == blocks <==> forall b | b in blocks :: b !in missing
  {
  }

  lemma StartEmpty(states: seq<State>, events: seq<Event>)
    requires IsRun(states, events)
    ensures states[0].propagated == {} && states[0].notarized == {} && states[0].jobs == map[] && states[0].committable == {}
  {
    hide Step, Enabled;
  }

  /**
   A slot whose commit was started can be forced if and only if all its blocks
   were cached then and are notarized by now.
   */
  lemma ReadyIff(states: seq<State>, events: seq<Event>, i: nat, c: Id, cached: set<BlockId>)
    requires IsRun(states, events) && i < |states| && StartCommit(c, cached) in events[..i]
    ensures c in states[i].jobs
    ensures c in states[i].ready <==>
            forall b | b in states[i].jobs[c].blocks :: b in cached && Notarized(b) in events[..i]
  {
    hide Step, Enabled, CountIn;
    RunLogged(states, events, i);
    RunInv(states, events, i);
    StartEmpty(states, events);
    var s := states[i];
    assert Counts(s, c);
    var job := s.jobs[c];
    CountFull(job.committing.value, s.notarized);
  }

  /** A slot is committable if and only if it is empty or the commitment lag slots above it was found synced. */
  lemma CommittableIff(states: seq<State>, events: seq<Event>, i: nat, d: Id)
    requires IsRun(states, events) && i < |states|
    ensures d in states[i].committable <==> Allowed(states[0], events[..i], d)
  {
    hide Step, Enabled, Allowed;
    RunLogged(states, events, i);
    StartEmpty(states, events);
  }
}

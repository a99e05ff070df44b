/**
 Streaming commitments of a slot range to a client: the stream set-up of
 `ListenToCommitments` and `handleRangedSend1`. Sends do not fail here; what was
 sent is recorded.
 */
module RangeStream {
  /** Slots are 32-bit numbers; the loops over them need room for one more. */
  type Slot = n: nat | n < 0xFFFF_FFFF

  /** start 0 means that no range was requested, end 0 that there is no end. */
  datatype Stream = Stream(start: Slot, end: Slot, lastSent: Slot, sent: seq<Slot>) {
    predicate RangeRequested() {
      start > 0
    }

    predicate Bounded() {
      end > 0
    }

    /** The highest slot that may be sent once slot n is known. */
    function Limit(n: Slot): (m: Slot)
      ensures m <= n
    {
      if Bounded() && n > end then end else n
    }
  }

  /** The slots from a to b, none if b is below a. */
  function Slots(a: Slot, b: Slot): (r: seq<Slot>)
    ensures |r| == (if b < a then 0 else b - a + 1) && forall i | 0 <= i < |r| :: r[i] == a + i
  {
    if b < a then [] else if b == a then [a] else Slots(a, b - 1) + [b]
  }

  lemma SlotsJoin(a: Slot, b: Slot, c: Slot)
    requires a <= b + 1 && b <= c && b + 1 < 0xFFFF_FFFF
    ensures Slots(a, b) + Slots(b + 1, c) == Slots(a, c)
  {
  }

  // ----- one event

  /** `handleRangedSend1`: the stream afterwards, and whether it is finished. */
  function Handle(s: Stream, index: Slot): (r: (Stream, bool)) {
    if s.RangeRequested() && index < s.start then (s, false)
    else
      var caughtUp :=
        if s.RangeRequested() && index - 1 > s.lastSent then
          var from := if s.start < s.lastSent + 1 then s.lastSent + 1 else s.start;
          s.(sent := s.sent + Slots(from, s.Limit(index - 1)), lastSent := s.Limit(index - 1))
        else s;
      if s.Bounded() && index > s.end then (caughtUp, true)
      else (caughtUp.(sent := caughtUp.sent + [index], lastSent := index), s.Bounded() && index >= s.end)
  }

  /** Everything from start to lastSent was sent, once and in order, and nothing beyond the end. */
  predicate Gapless(s: Stream) {
    && s.RangeRequested()
    && s.sent == Slots(s.start, s.lastSent)
    && (s.lastSent != 0 ==> s.lastSent >= s.start || (s.Bounded() && s.end < s.start))
    && (s.Bounded() ==> s.lastSent <= s.end)
  }

  /** Catching up to the slot before the event. */
  lemma CatchUp(s: Stream, index: Slot)
    requires Gapless(s) && s.start <= index && index - 1 > s.lastSent
    ensures var from := if s.start < s.lastSent + 1 then s.lastSent + 1 else s.start;
            s.sent + Slots(from, s.Limit(index - 1)) == Slots(s.start, s.Limit(index - 1))
  {
    if s.lastSent >= s.start {
      SlotsJoin(s.start, s.lastSent, s.Limit(index - 1));
    }
  }

  lemma OneMore(start: Slot, index: Slot)
    requires 0 < start <= index
    ensures Slots(start, index - 1) + [index] == Slots(start, index)
  {
  }

  /** An event above the last sent slot extends the stream without a gap, up to the event or the end. */
  lemma HandleGapless(s: Stream, index: Slot)
    requires Gapless(s) && index > s.lastSent
    ensures Gapless(Handle(s, index).0)
    ensures index >= s.start ==> Handle(s, index).0.lastSent == s.Limit(index)
    ensures index < s.start ==> Handle(s, index).0 == s
    ensures Handle(s, index).1 <==> index >= s.start && s.Bounded() && index >= s.end
  {
    hide Slots;
    if index >= s.start {
      OneMore(s.start, index);
      if index - 1 > s.lastSent {
        CatchUp(s, index);
      }
    }
  }

  /** An event that was sent already is sent again. */
  lemma HandleRepeats(s: Stream, index: Slot)
    requires Gapless(s) && s.start <= index && !(s.Bounded() && index > s.end)
    ensures (forall i, j | 0 <= i < j < |Handle(s, index).0.sent| ::
               Handle(s, index).0.sent[i] != Handle(s, index).0.sent[j]) <==> index > s.lastSent
  {
    var sent := Handle(s, index).0.sent;
    if index > s.lastSent {
      HandleGapless(s, index);
    } else {
      assert sent == s.sent + [index];
      assert sent[index - s.start] == sent[|s.sent|];
    }
  }

  /** After such a repeat the stream goes on from the repeated slot. */
  lemma HandleGoesBack(s: Stream, index: Slot)
    requires Gapless(s) && s.start <= index <= s.lastSent
    ensures Handle(s, index).0 == s.(sent := s.sent + [index], lastSent := index)
    ensures Handle(s, index).1 <==> s.Bounded() && index == s.end
  {
  }

  /** For example, after slots 1 to 3 an event for slot 2 sends slot 2 again. */
  lemma SentAgain()
    ensures Gapless(Stream(1, 0, 3, [1, 2, 3])) && Handle(Stream(1, 0, 3, [1, 2, 3]), 2).0.sent == [1, 2, 3, 2]
  {
    assert Slots(1, 3) == [1, 2, 3];
  }

  // ----- a whole stream

  /** The stream after a sequence of events. */
  function HandleAll(s: Stream, events: seq<Slot>): (r: Stream) {
    if events == [] then s
    else Handle(HandleAll(s, events[..|events| - 1]), events[|events| - 1]).0
  }

  predicate Increasing(low: Slot, events: seq<Slot>) {
    && (forall i | 0 <= i < |events| :: low < events[i])
    && (forall i, j | 0 <= i < j < |events| :: events[i] < events[j])
  }

  lemma {:induction false} HandleAllGapless(s: Stream, events: seq<Slot>)
    requires Gapless(s) && Increasing(s.lastSent, events)
    ensures Gapless(HandleAll(s, events))
    ensures HandleAll(s, events).start == s.start && HandleAll(s, events).end == s.end
    ensures events != [] ==> HandleAll(s, events).lastSent <= events[|events| - 1]
    ensures HandleAll(s, events).lastSent ==
            if events == [] || events[|events| - 1] < s.start then s.lastSent else s.Limit(events[|events| - 1])
    decreases |events|
  {
    if events != [] {
      var init, last := events[..|events| - 1], events[|events| - 1];
      HandleAllGapless(s, init);
      var before := HandleAll(s, init);
      assert before.lastSent < last;
      HandleGapless(before, last);
    }
  }

  /**
   The slots sent are start, start + 1, ... up to the smaller of the end and the
   newest slot, without a gap or a repeat; nothing at all if the end is below
   the start.
   */
  lemma StreamSends(s: Stream, events: seq<Slot>)
    requires Gapless(s) && Increasing(s.lastSent, events)
    ensures var newest := if events == [] || events[|events| - 1] < s.start then s.lastSent else events[|events| - 1];
            HandleAll(s, events).sent == Slots(s.start, s.Limit(newest))
    ensures s.Bounded() && s.end < s.start ==> HandleAll(s, events).sent == []
  {
    HandleAllGapless(s, events);
  }

  /** Once a stream is finished no later event sends anything. */
  lemma {:induction false} FinishedStaysSilent(s: Stream, events: seq<Slot>)
    requires Gapless(s) && s.Bounded() && s.lastSent == s.end && Increasing(s.lastSent, events)
    ensures HandleAll(s, events).sent == s.sent
  {
    HandleAllGapless(s, events);
  }

  // ----- without a range

  /** Without a start slot just the events are sent, up to the end. */
  lemma {:induction false} UnrangedSends(s: Stream, events: seq<Slot>)
    requires !s.RangeRequested() && s.sent == []
    ensures HandleAll(s, events).start == 0 && HandleAll(s, events).end == s.end
    ensures HandleAll(s, events).sent == UpToEnd(s, events)
    ensures forall index: Slot :: Handle(HandleAll(s, events), index).1 <==> s.Bounded() && index >= s.end
    decreases |events|
  {
    if events != [] {
      UnrangedSends(s, events[..|events| - 1]);
    }
  }

  function UpToEnd(s: Stream, events: seq<Slot>): (r: seq<Slot>) {
    if events == [] then []
    else
      var last := events[|events| - 1];
      UpToEnd(s, events[..|events| - 1]) + if s.Bounded() && last > s.end then [] else [last]
  }

  // ----- the object

  datatype Opened = Listening | Finished | Pruned

  class Server {
    var stream: Stream

    constructor (start: Slot, end: Slot)
      ensures stream == Stream(start, end, 0, [])
    {
      stream := Stream(start, end, 0, []);
    }

    /** `sendSlotsRange`. */
    method SendSlots(from: Slot, to: Slot)
      modifies this
      ensures stream == old(stream).(sent := old(stream).sent + Slots(from, to))
    {
      var current: nat := from;
      while current <= to
        invariant from <= current && (to >= from ==> current <= to + 1) && (to < from ==> current == from)
        invariant stream == old(stream).(sent := old(stream).sent + (if current == from then [] else Slots(from, current - 1)))
      {
        if current > from {
          SlotsJoin(from, current - 1, current);
        }
        assert Slots(current, current) == [current];
        stream := stream.(sent := stream.sent + [current]);
        current := current + 1;
      }
    }

    /** Send what is there already; prunedUntil is the last pruned slot, if any. */
    method Open(latest: Slot, prunedUntil: int) returns (r: Opened)
      requires stream.lastSent == 0 && stream.sent == [] && prunedUntil >= -1
      modifies this
      ensures r == Pruned <==> 0 < stream.start <= latest && stream.start <= prunedUntil
      ensures r == Pruned ==> stream == old(stream)
      ensures r != Pruned && stream.RangeRequested() ==> Gapless(stream)
      ensures stream.start == old(stream).start && stream.end == old(stream).end
      ensures r != Pruned && 0 < stream.start <= latest ==> stream.lastSent == stream.Limit(latest)
      ensures r != Pruned && !(0 < stream.start <= latest) ==> stream == old(stream)
      ensures r == Finished <==> r != Pruned && stream.Bounded() && stream.lastSent >= stream.end
    {
      if stream.start == 0 || stream.start > latest {
        r := if stream.Bounded() && stream.lastSent >= stream.end then Finished else Listening;
        return;
      }
      if stream.start <= prunedUntil {
        return Pruned;
      }
      var to := stream.end;
      if to == 0 || to > latest {
        to := latest;
      }
      SendSlots(stream.start, to);
      stream := stream.(lastSent := to);
      r := if stream.Bounded() && stream.lastSent >= stream.end then Finished else Listening;
    }

    /** `handleRangedSend1`. */
    method HandleRangedSend(index: Slot) returns (done: bool)
      modifies this
      ensures (stream, done) == Handle(old(stream), index)
    {
      if stream.RangeRequested() && index < stream.start {
        return false;
      }
      if stream.RangeRequested() && index - 1 > stream.lastSent {
        var from := stream.start;
        if from < stream.lastSent + 1 {
          from := stream.lastSent + 1;
        }
        var to := index - 1;
        if stream.Bounded() && to > stream.end {
          to := stream.end;
        }
        SendSlots(from, to);
        stream := stream.(lastSent := to);
      }
      if stream.Bounded() && index > stream.end {
        return true;
      }
      stream := stream.(sent := stream.sent + [index], lastSent := index);
      if stream.Bounded() && index >= stream.end {
        return true;
      }
      return false;
    }
  }
}

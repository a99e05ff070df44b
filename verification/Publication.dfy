/**
 Publishing commitments from many goroutines: `publishCommitment` on top of one
 promise per commitment ID. A caller first looks up the promise and checks that
 it was not rejected, and later resolves it and reads the result; anything can
 happen in between, including the eviction of the slot.
 */
module Publication {
  import opened Collections

  type Id = nat
  type Instance = nat
  type Caller = nat

  datatype Promised = Pending | Resolved(instance: Instance) | Rejected

  datatype Progress =
    | Holding(id: Id)                                               // between the two halves of the call
    | Returned(id: Id, result: Option<Instance>, published: bool)   // without an error
    | Failed(id: Id)                                                // the promise was rejected

  /** slot gives the slot of every ID; everything up to evicted - 1 is evicted. */
  datatype State = State(
    slot: Id -> nat, promises: map<Id, Promised>, callers: map<Caller, Progress>, evicted: nat, nextInstance: Instance)

  predicate IsEvicted(s: State, id: Id) {
    s.slot(id) < s.evicted
  }

  datatype Op =
    | Request(id: Id)                 // some other part of the node asks for the promise
    | Begin(caller: Caller, id: Id)
    | Conclude(caller: Caller)
    | Evict(until: nat)

  predicate Enabled(s: State, op: Op) {
    match op
    case Request(id) => true
    case Begin(caller, id) => caller !in s.callers
    case Conclude(caller) =>
      caller in s.callers && s.callers[caller].Holding? && s.callers[caller].id in s.promises
    case Evict(until) => until >= s.evicted
  }

  /** `cachedRequest`: evicted slots have no promise any more. */
  function Cached(s: State, id: Id): (r: State) {
    if IsEvicted(s, id) || id in s.promises then s else s.(promises := s.promises[id := Pending])
  }

  function Step(s: State, op: Op): (r: State)
    requires Enabled(s, op)
  {
    match op
    case Request(id) => Cached(s, id)
    case Begin(caller, id) =>
      var t := Cached(s, id);
      if IsEvicted(s, id) || t.promises[id].Rejected?
      then t.(callers := t.callers[caller := Failed(id)])
      else t.(callers := t.callers[caller := Holding(id)])
    case Conclude(caller) =>
      var id := s.callers[caller].id;
      (match s.promises[id]
       case Pending =>
         s.(promises := s.promises[id := Resolved(s.nextInstance)],
            callers := s.callers[caller := Returned(id, Some(s.nextInstance), true)],
            nextInstance := s.nextInstance + 1)
       case Resolved(k) => s.(callers := s.callers[caller := Returned(id, Some(k), false)])
       case Rejected => s.(callers := s.callers[caller := Returned(id, None, false)]))
    case Evict(until) =>
      s.(evicted := until,
         promises := map id | id in s.promises ::
           if s.promises[id].Pending? && s.slot(id) < until then Rejected else s.promises[id])
  }

  function Init(slot: Id -> nat): (s: State) {
    State(slot, map[], map[], 0, 0)
  }

  /** What every caller knows about the promise of its ID. */
  predicate Honest(s: State, c: Caller)
    requires c in s.callers
  {
    match s.callers[c]
    case Holding(id) => id in s.promises
    case Returned(id, Some(k), p) => id in s.promises && s.promises[id] == Resolved(k)
    case Returned(id, None, p) => id in s.promises && s.promises[id] == Rejected && !p
    case Failed(id) => IsEvicted(s, id)
  }

  predicate IsPublisher(s: State, c: Caller, id: Id) {
    c in s.callers && s.callers[c].Returned? && s.callers[c].id == id && s.callers[c].published
  }

  ghost predicate Published(s: State, id: Id) {
    exists c :: IsPublisher(s, c, id)
  }

  ghost predicate Inv(s: State) {
    && (forall c | c in s.callers :: Honest(s, c))
    && (forall id | id in s.promises && s.promises[id].Rejected? :: IsEvicted(s, id))
    && (forall id | id in s.promises && s.promises[id].Resolved? :: s.promises[id].instance < s.nextInstance)
    && (forall c, d, id | IsPublisher(s, c, id) && IsPublisher(s, d, id) :: c == d)
    && (forall id | id in s.promises && s.promises[id].Resolved? :: Published(s, id))
    && (forall i, j | i in s.promises && j in s.promises && s.promises[i].Resolved? && s.promises[i] == s.promises[j] :: i == j)
  }

  lemma CachedInv(s: State, id: Id)
    requires Inv(s)
    ensures Inv(Cached(s, id))
  {
    var t := Cached(s, id);
    forall c | c in t.callers
      ensures Honest(t, c)
    {
      assert Honest(s, c);
    }
    forall c, d, i | IsPublisher(t, c, i) && IsPublisher(t, d, i)
      ensures c == d
    {
      assert IsPublisher(s, c, i) && IsPublisher(s, d, i);
    }
    forall i | i in t.promises && t.promises[i].Resolved?
      ensures Published(t, i)
    {
      var c :| IsPublisher(s, c, i);
      assert IsPublisher(t, c, i);
    }
  }

  /** A caller that has not returned changes nothing for the others. */
  lemma NewCallerInv(t: State, caller: Caller, p: Progress)
    requires Inv(t) && caller !in t.callers && !p.Returned?
    requires p.Holding? ==> p.id in t.promises
    requires p.Failed? ==> IsEvicted(t, p.id)
    ensures Inv(t.(callers := t.callers[caller := p]))
  {
    var u := t.(callers := t.callers[caller := p]);
    forall c | c in u.callers
      ensures Honest(u, c)
    {
      if c != caller {
        assert Honest(t, c);
      }
    }
    forall c, d, i | IsPublisher(u, c, i) && IsPublisher(u, d, i)
      ensures c == d
    {
      assert IsPublisher(t, c, i) && IsPublisher(t, d, i);
    }
    forall i | i in u.promises && u.promises[i].Resolved?
      ensures Published(u, i)
    {
      var c :| IsPublisher(t, c, i);
      assert IsPublisher(u, c, i);
    }
  }

  lemma BeginInv(s: State, caller: Caller, id: Id)
    requires Inv(s) && Enabled(s, Begin(caller, id))
    ensures Inv(Step(s, Begin(caller, id)))
  {
    hide Inv;
    CachedInv(s, id);
    var t := Cached(s, id);
    if IsEvicted(s, id) || t.promises[id].Rejected? {
      RejectedEvicted(t, id);
      NewCallerInv(t, caller, Failed(id));
    } else {
      NewCallerInv(t, caller, Holding(id));
    }
  }

  lemma RejectedEvicted(s: State, id: Id)
    requires Inv(s)
    ensures id in s.promises && s.promises[id].Rejected? ==> IsEvicted(s, id)
  {
  }

  lemma ConcludeInv(s: State, caller: Caller)
    requires Inv(s) && Enabled(s, Conclude(caller))
    ensures Inv(Step(s, Conclude(caller)))
  {
    var u, id := Step(s, Conclude(caller)), s.callers[caller].id;
    forall c | c in u.callers
      ensures Honest(u, c)
    {
      assert Honest(s, c);
    }
    forall c, d, i | IsPublisher(u, c, i) && IsPublisher(u, d, i)
      ensures c == d
    {
      PublisherBefore(s, caller, c, i);
      PublisherBefore(s, caller, d, i);
    }
    forall i | i in u.promises && u.promises[i].Resolved?
      ensures Published(u, i)
    {
      PublisherAfter(s, caller, i);
    }
  }

  /** Whoever published still counts as the publisher, and the caller that resolves the promise does now. */
  lemma PublisherAfter(s: State, caller: Caller, i: Id)
    requires Inv(s) && Enabled(s, Conclude(caller)) && i in Step(s, Conclude(caller)).promises
    requires Step(s, Conclude(caller)).promises[i].Resolved?
    ensures Published(Step(s, Conclude(caller)), i)
  {
    var u := Step(s, Conclude(caller));
    if s.promises[i].Pending? {
      assert IsPublisher(u, caller, i);
    } else {
      var c :| IsPublisher(s, c, i);
      assert IsPublisher(u, c, i);
    }
  }

  /** Whoever else published that ID did so before, and then the promise is not pending. */
  lemma PublisherBefore(s: State, caller: Caller, c: Caller, i: Id)
    requires Inv(s) && Enabled(s, Conclude(caller)) && IsPublisher(Step(s, Conclude(caller)), c, i)
    ensures c != caller ==> IsPublisher(s, c, i) && i in s.promises && s.promises[i].Resolved?
    ensures c == caller ==> i == s.callers[caller].id && s.promises[i].Pending?
  {
    if c != caller {
      assert IsPublisher(s, c, i) && Honest(s, c);
    }
  }

  lemma EvictInv(s: State, until: nat)
    requires Inv(s) && Enabled(s, Evict(until))
    ensures Inv(Step(s, Evict(until)))
  {
    var u := Step(s, Evict(until));
    forall c | c in u.callers
      ensures Honest(u, c)
    {
      assert Honest(s, c);
    }
    forall c, d, i | IsPublisher(u, c, i) && IsPublisher(u, d, i)
      ensures c == d
    {
      assert IsPublisher(s, c, i) && IsPublisher(s, d, i);
    }
    forall i | i in u.promises && u.promises[i].Resolved?
      ensures Published(u, i)
    {
      var c :| IsPublisher(s, c, i);
      assert IsPublisher(u, c, i);
    }
  }

  ghost predicate IsRun(states: seq<State>, ops: seq<Op>) {
    && |states| == |ops| + 1
    && (exists slot :: states[0] == Init(slot))
    && (forall i | 0 <= i < |ops| :: Enabled(states[i], ops[i]) && states[i + 1] == Step(states[i], ops[i]))
  }

  lemma {:induction false} RunInv(states: seq<State>, ops: seq<Op>, i: nat)
    requires IsRun(states, ops) && i < |states|
    ensures Inv(states[i])
    decreases i
  {
    hide Inv;
    if i == 0 {
      var slot :| states[0] == Init(slot);
      InitInv(slot);
    } else {
      RunInv(states, ops, i - 1);
      match ops[i - 1]
      case Request(id) => CachedInv(states[i - 1], id);
      case Begin(caller, id) => BeginInv(states[i - 1], caller, id);
      case Conclude(caller) => ConcludeInv(states[i - 1], caller);
      case Evict(until) => EvictInv(states[i - 1], until);
    }
  }

  lemma InitInv(slot: Id -> nat)
    ensures Inv(Init(slot))
  {
  }

  /**
   Over any interleaving: at most one caller is told that it published an ID,
   all callers of a commitment that is not evicted get the same instance, and
   different commitments have different instances.
   */
  lemma OneInstance(states: seq<State>, ops: seq<Op>, i: nat, c: Caller, d: Caller)
    requires IsRun(states, ops) && i < |states| && c in states[i].callers && d in states[i].callers
    requires states[i].callers[c].Returned? && states[i].callers[d].Returned?
    requires !IsEvicted(states[i], states[i].callers[c].id) && !IsEvicted(states[i], states[i].callers[d].id)
    ensures states[i].callers[c].result.Some? && states[i].callers[d].result.Some?
    ensures states[i].callers[c].result == states[i].callers[d].result <==>
            states[i].callers[c].id == states[i].callers[d].id
    ensures (states[i].callers[c].published && states[i].callers[d].published
             && states[i].callers[c].id == states[i].callers[d].id) ==> c == d
  {
    RunInv(states, ops, i);
    var s := states[i];
    assert Honest(s, c) && Honest(s, d);
    if s.callers[c].published && s.callers[d].published && s.callers[c].id == s.callers[d].id {
      assert IsPublisher(s, c, s.callers[c].id) && IsPublisher(s, d, s.callers[c].id);
    }
  }

  /**
   Over any interleaving, a commitment is published if and only if some caller
   was told that it published it, and got its instance; and that is one caller.
   */
  lemma OnePublisher(states: seq<State>, ops: seq<Op>, i: nat, id: Id, k: Instance)
    requires IsRun(states, ops) && i < |states|
    ensures id in states[i].promises && states[i].promises[id] == Resolved(k) <==>
            exists c | c in states[i].callers :: states[i].callers[c] == Returned(id, Some(k), true)
    ensures forall c, d | c in states[i].callers && d in states[i].callers ::
              states[i].callers[c] == Returned(id, Some(k), true) && states[i].callers[d] == Returned(id, Some(k), true) ==> c == d
  {
    RunInv(states, ops, i);
    var s := states[i];
    forall c | c in s.callers
      ensures Honest(s, c) && (s.callers[c] == Returned(id, Some(k), true) ==> IsPublisher(s, c, id))
    {
    }
    if id in s.promises && s.promises[id] == Resolved(k) {
      assert Published(s, id);
      var c :| IsPublisher(s, c, id);
      assert Honest(s, c);
    }
  }

  /** A call fails at once if and only if the slot is evicted, and otherwise gets past its first half. */
  lemma BeginFails(states: seq<State>, ops: seq<Op>, i: nat, c: Caller, id: Id)
    requires IsRun(states, ops) && i < |ops| && ops[i] == Begin(c, id)
    ensures c in states[i + 1].callers
    ensures states[i + 1].callers[c] == if IsEvicted(states[i], id) then Failed(id) else Holding(id)
  {
    RunInv(states, ops, i);
    assert Enabled(states[i], ops[i]) && states[i + 1] == Step(states[i], ops[i]);
  }

  /** The k-th step evicts the slot of id while nobody has published id yet. */
  predicate EvictsUnpublished(states: seq<State>, ops: seq<Op>, k: nat, id: Id)
    requires k < |states| && k < |ops|
  {
    && ops[k].Evict? && states[k].slot(id) < ops[k].until
    && id in states[k].promises && states[k].promises[id].Pending?
  }

  /** While a caller holds a promise, it is rejected exactly if the slot was evicted before anyone published. */
  lemma {:induction false} HeldPromise(states: seq<State>, ops: seq<Op>, i: nat, j: nat, c: Caller, id: Id)
    requires IsRun(states, ops) && i < j <= |ops| && ops[i] == Begin(c, id)
    requires c in states[i + 1].callers && states[i + 1].callers[c] == Holding(id)
    requires forall k | i < k < j :: ops[k] != Conclude(c)
    ensures c in states[j].callers && states[j].callers[c] == Holding(id) && id in states[j].promises
    ensures states[j].promises[id].Rejected? <==> exists k | i < k < j :: EvictsUnpublished(states, ops, k, id)
    decreases j
  {
    hide Step, Enabled;
    if j == i + 1 {
      BeginHolds(states[i], c, id);
    } else {
      HeldPromise(states, ops, i, j - 1, c, id);
      HolderNext(states[j - 1], ops[j - 1], c);
      RejectedNext(states[j - 1], ops[j - 1], id);
      assert states[j].promises[id].Rejected? <==>
             states[j - 1].promises[id].Rejected? || EvictsUnpublished(states, ops, j - 1, id);
    }
  }

  lemma BeginHolds(s: State, c: Caller, id: Id)
    requires Enabled(s, Begin(c, id)) && Step(s, Begin(c, id)).callers[c] == Holding(id)
    ensures id in Step(s, Begin(c, id)).promises && !Step(s, Begin(c, id)).promises[id].Rejected?
  {
  }

  lemma HolderNext(s: State, op: Op, c: Caller)
    requires Enabled(s, op) && c in s.callers && op != Conclude(c)
    ensures c in Step(s, op).callers && Step(s, op).callers[c] == s.callers[c]
  {
  }

  lemma RejectedNext(s: State, op: Op, id: Id)
    requires Enabled(s, op) && id in s.promises
    ensures id in Step(s, op).promises
    ensures Step(s, op).promises[id].Rejected? <==>
            s.promises[id].Rejected? || (op.Evict? && s.slot(id) < op.until && s.promises[id].Pending?)
  {
  }

  /** A call that has returned is over. */
  lemma {:induction false} StaysReturned(states: seq<State>, ops: seq<Op>, k: nat, j: nat, c: Caller)
    requires IsRun(states, ops) && k <= j <= |ops| && c in states[k].callers && states[k].callers[c].Returned?
    ensures c in states[j].callers && states[j].callers[c].Returned?
    decreases j
  {
    if j > k {
      StaysReturned(states, ops, k, j - 1, c);
      assert Enabled(states[j - 1], ops[j - 1]) && states[j] == Step(states[j - 1], ops[j - 1]);
    }
  }

  /**
   Over any interleaving, a call that got past its first half returns neither a
   commitment nor an error exactly when the slot was evicted between its two
   halves, before anyone published.
   */
  lemma ConcludeWithoutCommitment(states: seq<State>, ops: seq<Op>, i: nat, j: nat, c: Caller, id: Id)
    requires IsRun(states, ops) && i < j < |ops| && ops[i] == Begin(c, id) && ops[j] == Conclude(c)
    requires c in states[i + 1].callers && states[i + 1].callers[c] == Holding(id)
    ensures c in states[j + 1].callers && states[j + 1].callers[c].Returned? && states[j + 1].callers[c].id == id
    ensures states[j + 1].callers[c].result.None? <==> exists k | i < k < j :: EvictsUnpublished(states, ops, k, id)
  {
    assert Enabled(states[j], ops[j]) && states[j + 1] == Step(states[j], ops[j]);
    NotConcluded(states, ops, i, j, c, id);
    HeldPromise(states, ops, i, j, c, id);
  }

  lemma NotConcluded(states: seq<State>, ops: seq<Op>, i: nat, j: nat, c: Caller, id: Id)
    requires IsRun(states, ops) && i < j < |ops| && ops[i] == Begin(c, id) && ops[j] == Conclude(c)
    ensures forall k | i < k < j :: ops[k] != Conclude(c)
  {
    assert Enabled(states[j], ops[j]);
    forall k | i < k < j
      ensures ops[k] != Conclude(c)
    {
      if ops[k] == Conclude(c) {
        assert Enabled(states[k], ops[k]) && states[k + 1] == Step(states[k], ops[k]);
        StaysReturned(states, ops, k + 1, j, c);
      }
    }
  }

  /**
   A call is told that it published if and only if nobody was told so before it
   concluded, and the slot was not evicted between its two halves before anyone
   published.
   */
  lemma PublishedIff(states: seq<State>, ops: seq<Op>, i: nat, j: nat, c: Caller, id: Id)
    requires IsRun(states, ops) && i < j < |ops| && ops[i] == Begin(c, id) && ops[j] == Conclude(c)
    requires c in states[i + 1].callers && states[i + 1].callers[c] == Holding(id)
    ensures c in states[j + 1].callers && states[j + 1].callers[c].Returned?
    ensures states[j + 1].callers[c].published <==>
            && (forall d :: !IsPublisher(states[j], d, id))
            && !(exists k | i < k < j :: EvictsUnpublished(states, ops, k, id))
  {
    hide Inv, EvictsUnpublished;
    ConcludeWithoutCommitment(states, ops, i, j, c, id);
    RunInv(states, ops, j);
    assert Enabled(states[j], ops[j]) && states[j + 1] == Step(states[j], ops[j]);
    NotConcluded(states, ops, i, j, c, id);
    HeldPromise(states, ops, i, j, c, id);
    PublisherIff(states[j], id);
  }

  lemma PublisherIff(s: State, id: Id)
    requires Inv(s) && id in s.promises
    ensures s.promises[id].Resolved? <==> exists d :: IsPublisher(s, d, id)
  {
    if d :| IsPublisher(s, d, id) {
      assert Honest(s, d);
    }
    if s.promises[id].Resolved? {
      assert Published(s, id);
    }
  }

  /** For example, when the slot is evicted while a caller holds the promise. */
  lemma NothingPublished() returns (states: seq<State>, ops: seq<Op>)
    ensures IsRun(states, ops) && |states| == 4
    ensures 0 in states[3].callers && states[3].callers[0] == Returned(7, None, false)
  {
    ops := [Begin(0, 7), Evict(1), Conclude(0)];
    var a := Init(_ => 0);
    var b := Step(a, ops[0]);
    var c := Step(b, ops[1]);
    states := [a, b, c, Step(c, ops[2])];
  }
}

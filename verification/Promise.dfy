/**
 `promise.Promise`: callbacks that wait for a result, an error or either. A
 callback is named by a token, and running it means recording the token.
 */
module Promise {
  type Token = nat
  type Value = nat
  type Error = nat

  datatype Kind = OnSuccess | OnError | OnComplete

  datatype Outcome = Open | Resolved(value: Value) | Rejected(error: Error)

  predicate Matches(k: Kind, o: Outcome) {
    match k
    case OnSuccess => o.Resolved?
    case OnError => o.Rejected?
    case OnComplete => !o.Open?
  }

  /** The three ordered callback maps are kept as sequences of tokens. */
  datatype State = State(success: seq<Token>, error: seq<Token>, complete: seq<Token>, outcome: Outcome, ran: seq<Token>) {
    function Waiting(k: Kind): (w: seq<Token>) {
      match k
      case OnSuccess => success
      case OnError => error
      case OnComplete => complete
    }

    function WithWaiting(k: Kind, w: seq<Token>): (s: State) {
      match k
      case OnSuccess => this.(success := w)
      case OnError => this.(error := w)
      case OnComplete => this.(complete := w)
    }
  }

  const NEW := State([], [], [], Open, [])

  datatype Op =
    | Register(kind: Kind, token: Token)
    | Cancel(kind: Kind, token: Token)
    | Resolve(value: Value)
    | Reject(error: Error)

  function Without(w: seq<Token>, t: Token): (r: seq<Token>)
    ensures forall u :: u in r <==> u in w && u != t
    ensures forall u | u != t :: multiset(r)[u] == multiset(w)[u]
  {
    if w == [] then []
    else
      assert w == w[..|w| - 1] + [w[|w| - 1]];
      Without(w[..|w| - 1], t) + if w[|w| - 1] == t then [] else [w[|w| - 1]]
  }

  /** The first completion runs the matching callbacks and then those that wait for either. */
  function Finish(s: State, o: Outcome): (r: State) {
    if !s.outcome.Open? then s
    else State([], [], [], o, s.ran + (if o.Resolved? then s.success else s.error) + s.complete)
  }

  function Step(s: State, op: Op): (r: State) {
    match op
    case Register(k, t) =>
      if s.outcome.Open? then s.WithWaiting(k, s.Waiting(k) + [t])
      else if Matches(k, s.outcome) then s.(ran := s.ran + [t])
      else s
    case Cancel(k, t) =>
      if s.outcome.Open? then s.WithWaiting(k, Without(s.Waiting(k), t)) else s
    case Resolve(v) => Finish(s, Resolved(v))
    case Reject(e) => Finish(s, Rejected(e))
  }

  function Run(ops: seq<Op>): (s: State) {
    if ops == [] then NEW else Step(Run(ops[..|ops| - 1]), ops[|ops| - 1])
  }

  // ----- the outcome

  predicate Completes(op: Op) {
    op.Resolve? || op.Reject?
  }

  function OutcomeOf(op: Op): (o: Outcome)
    requires Completes(op)
  {
    if op.Resolve? then Resolved(op.value) else Rejected(op.error)
  }

  /** The promise is open as long as nothing completes it, and the first completion fixes its outcome. */
  lemma {:induction false} FirstCompletionDecides(ops: seq<Op>, c: nat)
    requires c <= |ops| && forall i | 0 <= i < c :: !Completes(ops[i])
    requires c < |ops| ==> Completes(ops[c])
    ensures Run(ops).outcome == if c < |ops| then OutcomeOf(ops[c]) else Open
    decreases |ops|
  {
    if ops != [] {
      var init := ops[..|ops| - 1];
      if c < |init| {
        FirstCompletionDecides(init, c);
      } else {
        FirstCompletionDecides(init, |init|);
      }
    }
  }

  // ----- the fate of one callback

  /** What happened to a callback so far. */
  datatype Fate = Unknown | Waits(kind: Kind) | Cancelled | Ran | Missed

  /** The view from one callback: it only sees its own registration, its cancellation and the completions. */
  function FateStep(f: Fate, o: Outcome, op: Op, t: Token): (g: Fate) {
    match op
    case Register(k, u) =>
      if u != t then f
      else if o.Open? then Waits(k)
      else if Matches(k, o) then Ran
      else Missed
    case Cancel(k, u) => if u == t && o.Open? && f == Waits(k) then Cancelled else f
    case Resolve(v) => if o.Open? && f.Waits? then (if Matches(f.kind, Resolved(v)) then Ran else Missed) else f
    case Reject(e) => if o.Open? && f.Waits? then (if Matches(f.kind, Rejected(e)) then Ran else Missed) else f
  }

  function FateOf(ops: seq<Op>, t: Token): (f: Fate) {
    if ops == [] then Unknown
    else FateStep(FateOf(ops[..|ops| - 1], t), Run(ops[..|ops| - 1]).outcome, ops[|ops| - 1], t)
  }

  /** Every callback is registered under a token of its own. */
  predicate DistinctTokens(ops: seq<Op>) {
    forall i, j | 0 <= i < j < |ops| && ops[i].Register? && ops[j].Register? :: ops[i].token != ops[j].token
  }

  lemma {:induction false} UnknownUntilRegistered(ops: seq<Op>, t: Token)
    requires forall i | 0 <= i < |ops| :: ops[i].Register? ==> ops[i].token != t
    ensures FateOf(ops, t) == Unknown
    decreases |ops|
  {
    if ops != [] {
      UnknownUntilRegistered(ops[..|ops| - 1], t);
    }
  }

  function Count(w: seq<Token>, t: Token): (n: nat) {
    multiset(w)[t]
  }

  /** A callback is in a waiting list exactly when it waits, and it ran exactly as often as its fate says. */
  predicate Tracks(s: State, f: Fate, t: Token) {
    && Count(s.success, t) == (if f == Waits(OnSuccess) then 1 else 0)
    && Count(s.error, t) == (if f == Waits(OnError) then 1 else 0)
    && Count(s.complete, t) == (if f == Waits(OnComplete) then 1 else 0)
    && (f.Waits? ==> s.outcome.Open?)
    && Count(s.ran, t) == if f == Ran then 1 else 0
  }

  lemma CountAppend(a: seq<Token>, b: seq<Token>, t: Token)
    ensures Count(a + b, t) == Count(a, t) + Count(b, t)
  {
  }

  lemma CountWithout(w: seq<Token>, u: Token, t: Token)
    ensures Count(Without(w, u), t) == if t == u then 0 else Count(w, t)
  {
  }

  lemma RegisterTracks(s: State, f: Fate, k: Kind, u: Token, t: Token)
    requires Tracks(s, f, t) && (u == t ==> f == Unknown)
    ensures Tracks(Step(s, Register(k, u)), FateStep(f, s.outcome, Register(k, u), t), t)
  {
    hide Count;
    CountAppend(s.Waiting(k), [u], t);
    CountAppend(s.ran, [u], t);
    CountOne(u, t);
  }

  lemma CountOne(u: Token, t: Token)
    ensures Count([u], t) == (if u == t then 1 else 0) && Count([], t) == 0
  {
  }

  lemma CancelTracks(s: State, f: Fate, k: Kind, u: Token, t: Token)
    requires Tracks(s, f, t)
    ensures Tracks(Step(s, Cancel(k, u)), FateStep(f, s.outcome, Cancel(k, u), t), t)
  {
    hide Count, Without;
    CountWithout(s.Waiting(k), u, t);
  }

  lemma CompleteTracks(s: State, f: Fate, op: Op, t: Token)
    requires Tracks(s, f, t) && Completes(op)
    ensures Tracks(Step(s, op), FateStep(f, s.outcome, op, t), t)
  {
    hide Count;
    var matching := if op.Resolve? then s.success else s.error;
    CountAppend(s.ran, matching, t);
    CountAppend(s.ran + matching, s.complete, t);
    CountOne(t, t);
  }

  lemma StepTracks(s: State, f: Fate, op: Op, t: Token)
    requires Tracks(s, f, t) && (op.Register? && op.token == t ==> f == Unknown)
    ensures Tracks(Step(s, op), FateStep(f, s.outcome, op, t), t)
  {
    hide Tracks;
    match op
    case Register(k, u) => RegisterTracks(s, f, k, u, t);
    case Cancel(k, u) => CancelTracks(s, f, k, u, t);
    case Resolve(v) => CompleteTracks(s, f, op, t);
    case Reject(e) => CompleteTracks(s, f, op, t);
  }

  /** Over any interleaving, every callback ran once if its fate is to have run, and never otherwise. */
  lemma {:induction false} RunTracks(ops: seq<Op>, t: Token)
    requires DistinctTokens(ops)
    ensures Tracks(Run(ops), FateOf(ops, t), t)
    decreases |ops|
  {
    if ops != [] {
      var init, last := ops[..|ops| - 1], ops[|ops| - 1];
      RunTracks(init, t);
      if last.Register? && last.token == t {
        UnknownUntilRegistered(init, t);
      }
      StepTracks(Run(init), FateOf(init, t), last, t);
    }
  }

  lemma FateNext(ops: seq<Op>, c: nat, t: Token)
    requires c < |ops|
    ensures FateOf(ops[..c + 1], t) == FateStep(FateOf(ops[..c], t), Run(ops[..c]).outcome, ops[c], t)
  {
    assert ops[..c + 1][..c] == ops[..c];
  }

  // ----- in terms of the operations

  lemma {:induction false} KeepsWaiting(ops: seq<Op>, i: nat, k: Kind, t: Token)
    requires DistinctTokens(ops) && i < |ops| && ops[i] == Register(k, t)
    requires forall j | 0 <= j < |ops| :: !Completes(ops[j])
    requires forall j | i < j < |ops| :: ops[j] != Cancel(k, t)
    ensures FateOf(ops, t) == Waits(k) && Run(ops).outcome == Open
    decreases |ops|
  {
    FirstCompletionDecides(ops, |ops|);
    var init, n := ops[..|ops| - 1], |ops| - 1;
    FirstCompletionDecides(init, n);
    if i < n {
      KeepsWaiting(init, i, k, t);
      if ops[n].Register? {
        assert ops[i].token != ops[n].token;
      }
    }
  }

  lemma {:induction false} FateSettled(ops: seq<Op>, c: nat, t: Token)
    requires DistinctTokens(ops) && c <= |ops| && !FateOf(ops[..c], t).Unknown? && !FateOf(ops[..c], t).Waits?
    requires exists i | 0 <= i < c :: ops[i].Register? && ops[i].token == t
    ensures FateOf(ops, t) == FateOf(ops[..c], t)
    decreases |ops|
  {
    if c < |ops| {
      var init := ops[..|ops| - 1];
      assert init[..c] == ops[..c];
      var i :| 0 <= i < c && ops[i].Register? && ops[i].token == t;
      assert init[i].Register? && init[i].token == t;
      FateSettled(init, c, t);
    } else {
      assert ops[..c] == ops;
    }
  }

  /**
   A callback that was registered before the first completion and not cancelled
   by then has run exactly once if it matches the outcome, and never otherwise.
   */
  lemma LiveCallbackRunsOnce(ops: seq<Op>, i: nat, c: nat, k: Kind, t: Token)
    requires DistinctTokens(ops) && i < c < |ops| && ops[i] == Register(k, t) && Completes(ops[c])
    requires forall j | 0 <= j < c :: !Completes(ops[j])
    requires forall j | i < j < c :: ops[j] != Cancel(k, t)
    ensures multiset(Run(ops).ran)[t] == if Matches(k, OutcomeOf(ops[c])) then 1 else 0
  {
    hide Run, FateOf;
    KeepsWaiting(ops[..c], i, k, t);
    FateNext(ops, c, t);
    assert ops[i].Register? && ops[i].token == t;
    FateSettled(ops, c + 1, t);
    RunTracks(ops, t);
  }

  /** A callback that was cancelled before the first completion never runs. */
  lemma CancelledCallbackNeverRuns(ops: seq<Op>, i: nat, j: nat, k: Kind, t: Token)
    requires DistinctTokens(ops) && i < j < |ops| && ops[i] == Register(k, t) && ops[j] == Cancel(k, t)
    requires forall m | 0 <= m < j :: !Completes(ops[m])
    requires forall m | i < m < j :: ops[m] != Cancel(k, t)
    ensures multiset(Run(ops).ran)[t] == 0
  {
    hide Run, FateOf;
    KeepsWaiting(ops[..j], i, k, t);
    FateNext(ops, j, t);
    assert ops[i].Register? && ops[i].token == t;
    FateSettled(ops, j + 1, t);
    RunTracks(ops, t);
  }

  /** A callback that is registered after completion runs at once if it matches, and it is not run again. */
  lemma LateCallback(ops: seq<Op>, i: nat, c: nat, k: Kind, t: Token)
    requires DistinctTokens(ops) && c < i < |ops| && ops[i] == Register(k, t) && Completes(ops[c])
    requires forall j | 0 <= j < c :: !Completes(ops[j])
    ensures multiset(Run(ops).ran)[t] == if Matches(k, OutcomeOf(ops[c])) then 1 else 0
  {
    hide Run, FateOf;
    FirstCompletionDecides(ops[..i], c);
    FateNext(ops, i, t);
    assert ops[i].Register? && ops[i].token == t;
    FateSettled(ops, i + 1, t);
    RunTracks(ops, t);
  }

  // ----- the order in which callbacks run

  /** The callbacks of one kind that were registered and not cancelled, in the order of their registration. */
  function Live(ops: seq<Op>, k: Kind): (w: seq<Token>) {
    if ops == [] then []
    else
      var init, last := Live(ops[..|ops| - 1], k), ops[|ops| - 1];
      if last.Register? && last.kind == k then init + [last.token]
      else if last.Cancel? && last.kind == k then Without(init, last.token)
      else init
  }

  lemma {:induction false} WaitingIsLive(ops: seq<Op>, k: Kind)
    requires forall i | 0 <= i < |ops| :: !Completes(ops[i])
    ensures Run(ops).Waiting(k) == Live(ops, k) && Run(ops).ran == [] && Run(ops).outcome == Open
    decreases |ops|
  {
    FirstCompletionDecides(ops, |ops|);
    if ops != [] {
      WaitingIsLive(ops[..|ops| - 1], k);
    }
  }

  /** The first completion runs what waits for its outcome, and then what waits for either; later registrations follow. */
  lemma {:induction false} CompletionOrder(ops: seq<Op>, c: nat)
    requires c < |ops| && Completes(ops[c]) && forall i | 0 <= i < c :: !Completes(ops[i])
    ensures Live(ops[..c], if ops[c].Resolve? then OnSuccess else OnError) + Live(ops[..c], OnComplete) <= Run(ops).ran
    decreases |ops|
  {
    hide Live, Step, Finish;
    var init, last := ops[..|ops| - 1], ops[|ops| - 1];
    if c == |init| {
      WaitingIsLive(init, OnSuccess);
      WaitingIsLive(init, OnError);
      WaitingIsLive(init, OnComplete);
      FirstRuns(Run(init), last);
    } else {
      CompletionOrder(init, c);
      assert init[..c] == ops[..c];
      FirstCompletionDecides(init, c);
      RanGrows(Run(init), last);
    }
  }

  lemma FirstRuns(s: State, op: Op)
    requires s.outcome == Open && s.ran == [] && Completes(op)
    ensures Step(s, op).ran == s.Waiting(if op.Resolve? then OnSuccess else OnError) + s.Waiting(OnComplete)
  {
  }

  lemma RanGrows(s: State, op: Op)
    ensures s.ran <= Step(s, op).ran
  {
  }

  /** t comes before u. */
  ghost predicate Precedes(w: seq<Token>, t: Token, u: Token) {
    exists p, q | 0 <= p < q < |w| :: w[p] == t && w[q] == u
  }

  lemma {:induction false} WithoutPrecedes(w: seq<Token>, v: Token, t: Token, u: Token)
    requires Precedes(w, t, u) && t != v && u != v
    ensures Precedes(Without(w, v), t, u)
    decreases |w|
  {
    var init, last := w[..|w| - 1], w[|w| - 1];
    assert w == init + [last];
    var p, q :| 0 <= p < q < |w| && w[p] == t && w[q] == u;
    var r := Without(init, v);
    if q < |init| {
      assert init[p] == t && init[q] == u;
      WithoutPrecedes(init, v, t, u);
      var a, b :| 0 <= a < b < |r| && r[a] == t && r[b] == u;
      assert Without(w, v)[a] == t && Without(w, v)[b] == u;
    } else {
      assert init[p] == t && t in r;
      var a :| 0 <= a < |r| && r[a] == t;
      assert Without(w, v)[a] == t && Without(w, v)[|r|] == u;
    }
  }

  lemma {:induction false} LiveHas(ops: seq<Op>, i: nat, k: Kind, t: Token)
    requires i < |ops| && ops[i] == Register(k, t) && forall j | i < j < |ops| :: ops[j] != Cancel(k, t)
    ensures t in Live(ops, k)
    decreases |ops|
  {
    if i < |ops| - 1 {
      LiveHas(ops[..|ops| - 1], i, k, t);
    }
  }

  lemma {:induction false} LiveInOrder(ops: seq<Op>, i: nat, j: nat, k: Kind, t: Token, u: Token)
    requires i < j < |ops| && ops[i] == Register(k, t) && ops[j] == Register(k, u)
    requires forall m | i < m < |ops| :: ops[m] != Cancel(k, t)
    requires forall m | j < m < |ops| :: ops[m] != Cancel(k, u)
    ensures Precedes(Live(ops, k), t, u)
    decreases |ops|
  {
    var init, last := ops[..|ops| - 1], ops[|ops| - 1];
    var w := Live(init, k);
    if j == |init| {
      LiveHas(init, i, k, t);
      var p :| 0 <= p < |w| && w[p] == t;
      assert Live(ops, k)[p] == t && Live(ops, k)[|w|] == u;
    } else {
      LiveInOrder(init, i, j, k, t, u);
      if last.Cancel? && last.kind == k {
        WithoutPrecedes(w, last.token, t, u);
      } else {
        var p, q :| 0 <= p < q < |w| && w[p] == t && w[q] == u;
        assert Live(ops, k)[p] == t && Live(ops, k)[q] == u;
      }
    }
  }

  /**
   Of two callbacks that wait for the outcome of the first completion, one comes
   before the other if both are of one kind and it was registered before, or if
   only the other one waits for either outcome.
   */
  lemma CallbackOrder(ops: seq<Op>, i: nat, j: nat, c: nat, k: Kind, l: Kind, t: Token, u: Token)
    requires i < c < |ops| && j < c && ops[i] == Register(k, t) && ops[j] == Register(l, u) && Completes(ops[c])
    requires forall m | 0 <= m < c :: !Completes(ops[m])
    requires forall m | i < m < c :: ops[m] != Cancel(k, t)
    requires forall m | j < m < c :: ops[m] != Cancel(l, u)
    requires Matches(k, OutcomeOf(ops[c])) && Matches(l, OutcomeOf(ops[c]))
    requires (k == l && i < j) || (k != OnComplete && l == OnComplete)
    ensures Precedes(Run(ops).ran, t, u)
  {
    hide Run, Live;
    CompletionOrder(ops, c);
    var before, first := ops[..c], if ops[c].Resolve? then OnSuccess else OnError;
    var a, b, ran := Live(before, first), Live(before, OnComplete), Run(ops).ran;
    LiveHas(before, i, k, t);
    LiveHas(before, j, l, u);
    if k == l {
      LiveInOrder(before, i, j, k, t, u);
      var p, q :| 0 <= p < q < |Live(before, k)| && Live(before, k)[p] == t && Live(before, k)[q] == u;
      var shift := if k == OnComplete then |a| else 0;
      assert (a + b)[p + shift] == t && (a + b)[q + shift] == u;
      assert ran[p + shift] == t && ran[q + shift] == u;
    } else {
      var p :| 0 <= p < |a| && a[p] == t;
      var q :| 0 <= q < |b| && b[q] == u;
      assert (a + b)[p] == t && (a + b)[|a| + q] == u;
      assert ran[p] == t && ran[|a| + q] == u;
    }
  }

  // ----- the object

  class Promise {
    var success: seq<Token>
    var error: seq<Token>
    var complete: seq<Token>
    var outcome: Outcome
    var ran: seq<Token>

    ghost function Contents(): (s: State)
      reads this
    {
      State(success, error, complete, outcome, ran)
    }

    constructor ()
      ensures Contents() == NEW
    {
      success, error, complete, outcome, ran := [], [], [], Open, [];
    }

    method RunAll(tokens: seq<Token>)
      modifies this`ran
      ensures ran == old(ran) + tokens
    {
      for i := 0 to |tokens|
        invariant ran == old(ran) + tokens[..i]
      {
        ran := ran + [tokens[i]];
      }
    }

    /** `Resolve` and `ResolveDynamically`. */
    method ResolveWith(v: Value)
      modifies this
      ensures Contents() == Step(old(Contents()), Resolve(v))
    {
      if !outcome.Open? {
        return;
      }
      RunAll(success);
      RunAll(complete);
      success, error, complete := [], [], [];
      outcome := Resolved(v);
    }

    method RejectWith(e: Error)
      modifies this
      ensures Contents() == Step(old(Contents()), Reject(e))
    {
      if !outcome.Open? {
        return;
      }
      RunAll(error);
      RunAll(complete);
      success, error, complete := [], [], [];
      outcome := Rejected(e);
    }

    /** `OnSuccess`, `OnError` and `OnComplete`. */
    method On(k: Kind, t: Token)
      modifies this
      ensures Contents() == Step(old(Contents()), Register(k, t))
    {
      if !outcome.Open? {
        if Matches(k, outcome) {
          ran := ran + [t];
        }
        return;
      }
      match k
      case OnSuccess => success := success + [t];
      case OnError => error := error + [t];
      case OnComplete => complete := complete + [t];
    }

    /**
     The function a registration returns. After completion it does nothing, except
     that for `OnComplete` it deletes from a map that completion has set to nil.
     */
    method CancelCallback(k: Kind, t: Token) returns (nilMap: bool)
      modifies this
      ensures Contents() == Step(old(Contents()), Cancel(k, t))
      ensures nilMap <==> k == OnComplete && !old(outcome).Open?
    {
      nilMap := false;
      match k
      case OnSuccess =>
        if outcome.Open? {
          success := Without(success, t);
        }
      case OnError =>
        if outcome.Open? {
          error := Without(error, t);
        }
      case OnComplete =>
        if outcome.Open? {
          complete := Without(complete, t);
        } else {
          nilMap := true;
        }
    }
  }
}

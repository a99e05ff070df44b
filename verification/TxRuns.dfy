/**
 Whole runs of the transaction retainer.
 */
module TxRuns {
  import opened Collections
  import opened TxMetadata
  import opened TxCache
  import opened TxRetainer

  datatype Retained = Retained(cache: Cache, rows: seq<Metadata>, lastCommitted: Slot)

  datatype Op =
    | UpdateMetadata(m: Metadata)
    | UpdateSlot(tx: TxId, slot: Slot)
    | Commit(slot: Slot)
    | ResetTo(slot: Slot)
    | PruneTo(slot: Slot)

  ghost predicate StepsTo(r: Retained, op: Op, q: Retained) {
    match op
    case UpdateMetadata(m) => q == r.(cache := Update(r.cache, m))
    case UpdateSlot(tx, s) => q == r.(cache := SetSlot(r.cache, tx, s))
    case Commit(s) =>
      && q.cache == After(r.cache, s)
      && q.lastCommitted == (if s > r.lastCommitted then s else r.lastCommitted)
      && exists order :: Inserted(r.rows, q.rows, UpTo(r.cache.byId, s), order)
    case ResetTo(s) => q == Retained(EMPTY, Rollback(r.rows, s), s)
    case PruneTo(s) => q == r.(rows := Unpruned(r.rows, s))
  }

  ghost predicate IsRun(states: seq<Retained>, ops: seq<Op>) {
    && |states| == |ops| + 1
    && states[0] == Retained(EMPTY, [], 0)
    && forall i | 0 <= i < |ops| :: StepsTo(states[i], ops[i], states[i + 1])
  }

  ghost predicate Consistent(r: Retained) {
    r.cache.Agrees() && forall m | m in r.rows :: m.slot <= r.lastCommitted
  }

  // ----- what a commit moves

  /** A row after a commit was a row before or is an entry that was committed. */
  lemma InsertedRow(before: seq<Metadata>, rows: seq<Metadata>, changes: map<TxId, Metadata>, order: seq<TxId>, m: Metadata)
    requires Inserted(before, rows, changes, order)
    ensures m in rows <==> m in before || (exists tx :: tx in changes && changes[tx] == m)
  {
    if m in rows {
      var i :| 0 <= i < |rows| && rows[i] == m;
      if i < |before| {
        assert m == rows[..|before|][i];
      } else {
        assert order[i - |before|] in order;
        assert changes[order[i - |before|]] == rows[|before| + (i - |before|)];
      }
    }
    if m in before {
      var i :| 0 <= i < |before| && before[i] == m;
      assert rows[..|before|][i] == m;
    }
    forall tx | tx in changes && changes[tx] == m
      ensures m in rows
    {
      var i :| 0 <= i < |order| && order[i] == tx;
      assert rows[|before| + i] == m;
    }
  }

  lemma StepConsistent(r: Retained, op: Op, q: Retained)
    requires Consistent(r) && StepsTo(r, op, q)
    ensures Consistent(q)
  {
    match op
    case UpdateMetadata(m) => UpdateAgrees(r.cache, m);
    case UpdateSlot(tx, s) => SetSlotAgrees(r.cache, tx, s);
    case Commit(s) =>
      AfterAgrees(r.cache, s);
      var order :| Inserted(r.rows, q.rows, UpTo(r.cache.byId, s), order);
      forall m | m in q.rows
        ensures m.slot <= q.lastCommitted
      {
        InsertedRow(r.rows, q.rows, UpTo(r.cache.byId, s), order, m);
      }
    case ResetTo(s) =>
    case PruneTo(s) =>
  }

  /** In every reachable state the two indexes agree and no row is above the last committed slot. */
  lemma {:induction false} RunConsistent(states: seq<Retained>, ops: seq<Op>, i: nat)
    requires IsRun(states, ops) && i < |states|
    ensures Consistent(states[i])
    decreases i
  {
    if i > 0 {
      RunConsistent(states, ops, i - 1);
      StepConsistent(states[i - 1], ops[i - 1], states[i]);
    }
  }

  /** A commit neither loses nor invents an entry of any transaction. */
  lemma CommitConserves(r: Retained, s: Slot, q: Retained, tx: TxId, e: Metadata)
    requires Consistent(r) && StepsTo(r, Commit(s), q)
    ensures IsEntry(r.cache, r.rows, tx, e) <==> IsEntry(q.cache, q.rows, tx, e)
  {
    var moved := UpTo(r.cache.byId, s);
    var order :| Inserted(r.rows, q.rows, moved, order);
    InsertedRow(r.rows, q.rows, moved, order, e);
    if r.cache.Get(tx) == Some(e) && e.slot <= s {
      assert tx in moved && moved[tx] == e;
    }
  }

  // ----- an accepted row stays visible

  /** Does op delete rows of slot s from the table? */
  predicate Deletes(op: Op, s: Slot) {
    (op.ResetTo? && op.slot < s) || (op.PruneTo? && op.slot >= s)
  }

  lemma {:induction false} RowStays(states: seq<Retained>, ops: seq<Op>, i: nat, j: nat, e: Metadata)
    requires IsRun(states, ops) && i <= j < |states| && e in states[i].rows
    requires forall k | i <= k < j :: !Deletes(ops[k], e.slot)
    ensures e in states[j].rows
    decreases j - i
  {
    if i < j {
      assert StepsTo(states[i], ops[i], states[i + 1]);
      if ops[i].Commit? {
        var changes := UpTo(states[i].cache.byId, ops[i].slot);
        var order :| Inserted(states[i].rows, states[i + 1].rows, changes, order);
        InsertedRow(states[i].rows, states[i + 1].rows, changes, order, e);
      }
      RowStays(states, ops, i + 1, j, e);
    }
  }

  /**
   Once an accepted entry is in the table, every read reports the transaction as
   accepted, committed or finalized, whatever is cached later, until a rollback
   below its slot or pruning of its slot.
   */
  lemma AcceptedStays(states: seq<Retained>, ops: seq<Op>, i: nat, j: nat, e: Metadata)
    requires IsRun(states, ops) && i <= j < |states| && e in states[i].rows && e.state == Accepted
    requires forall k | i <= k < j :: !Deletes(ops[k], e.slot)
    ensures AnyAccepted(states[j].cache, states[j].rows, e.id)
  {
    RowStays(states, ops, i, j, e);
    assert IsEntry(states[j].cache, states[j].rows, e.id, e);
  }

  // ----- the closed form of a cached entry

  /** The updates of tx among ops, in order. */
  function UpdatesOf(ops: seq<Op>, tx: TxId): (r: seq<Metadata>) {
    if ops == [] then []
    else
      var last := ops[|ops| - 1];
      UpdatesOf(ops[..|ops| - 1], tx) + if last.UpdateMetadata? && last.m.id == tx then [last.m] else []
  }

  /** Only updates of tx may touch its entry. */
  predicate LeavesAlone(op: Op, tx: TxId) {
    op.UpdateMetadata? || op.PruneTo? || (op.UpdateSlot? && op.tx != tx)
  }

  lemma StepEntry(r: Retained, op: Op, q: Retained, tx: TxId)
    requires Consistent(r) && StepsTo(r, op, q) && LeavesAlone(op, tx)
    ensures q.cache.Get(tx) ==
            if op.UpdateMetadata? && op.m.id == tx then Some(Merge(r.cache.Get(tx), op.m).0) else r.cache.Get(tx)
  {
    if op.UpdateMetadata? {
      UpdateEntry(r.cache, op.m, tx);
    }
  }

  lemma MergeAllNext(updates: seq<Metadata>, m: Metadata)
    ensures MergeAll(updates + [m]) == Some(Merge(MergeAll(updates), m).0)
  {
    assert (updates + [m])[..|updates|] == updates;
  }

  /**
   While tx is only touched by updates, its entry is what the updates merge to,
   no matter how those of other transactions are interleaved.
   */
  lemma {:induction false} EntryIsMerged(states: seq<Retained>, ops: seq<Op>, i: nat, j: nat, tx: TxId)
    requires IsRun(states, ops) && i <= j < |states| && states[i].cache.Get(tx).None?
    requires forall k | i <= k < j :: LeavesAlone(ops[k], tx)
    ensures states[j].cache.Get(tx) == MergeAll(UpdatesOf(ops[i..j], tx))
    decreases j - i
  {
    hide StepsTo, Consistent, MergeAll, Merge;
    if i < j {
      EntryIsMerged(states, ops, i, j - 1, tx);
      RunConsistent(states, ops, j - 1);
      var part, last := ops[i..j - 1], ops[j - 1];
      assert ops[i..j][..j - i - 1] == part;
      StepEntry(states[j - 1], last, states[j], tx);
      if last.UpdateMetadata? && last.m.id == tx {
        MergeAllNext(UpdatesOf(part, tx), last.m);
      } else {
        assert UpdatesOf(ops[i..j], tx) == UpdatesOf(part, tx);
      }
    } else {
      NothingMerged(ops, i, tx);
    }
  }

  lemma NothingMerged(ops: seq<Op>, i: nat, tx: TxId)
    requires i <= |ops|
    ensures MergeAll(UpdatesOf(ops[i..i], tx)) == None
  {
  }

  /** So it carries the last relevant update and the smallest relevant slot. */
  lemma CachedEntryClosedForm(states: seq<Retained>, ops: seq<Op>, i: nat, j: nat, tx: TxId)
    requires IsRun(states, ops) && i <= j < |states| && states[i].cache.Get(tx).None?
    requires forall k | i <= k < j :: LeavesAlone(ops[k], tx)
    ensures var updates := UpdatesOf(ops[i..j], tx);
            states[j].cache.Get(tx) ==
            if updates == [] then None
            else
              var r := Relevant(updates);
              if r == [] then None else Some(r[|r| - 1].(slot := EarliestSlot(r)))
  {
    EntryIsMerged(states, ops, i, j, tx);
    if UpdatesOf(ops[i..j], tx) != [] {
      MergeAllClosedForm(UpdatesOf(ops[i..j], tx));
    }
  }
}

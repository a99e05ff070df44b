/**
 The transaction retainer: committing cached entries to the database table,
 rolling the table back, pruning it, and the read that merges cache and table.
 */
module TxRetainer {
  import opened Collections
  import opened TxMetadata
  import opened TxCache

  // ----- the table

  /** The order of the query: accepted first, then valid signatures, then later slots. */
  predicate Before(a: Metadata, b: Metadata) {
    if (a.state == Accepted) != (b.state == Accepted) then a.state == Accepted
    else if a.validSignature != b.validSignature then a.validSignature
    else a.slot > b.slot
  }

  /** r is a row of tx that no other row of tx comes before. */
  predicate IsTop(rows: seq<Metadata>, tx: TxId, r: Metadata) {
    r in rows && r.id == tx && forall o | o in rows && o.id == tx :: !Before(o, r)
  }

  /** `Rollback`: the rows up to the target slot remain. */
  function Rollback(rows: seq<Metadata>, target: Slot): (r: seq<Metadata>)
    ensures forall m :: m in r <==> m in rows && m.slot <= target
    ensures forall m | m in r :: multiset(r)[m] == multiset(rows)[m]
  {
    if rows == [] then []
    else
      var init, last := rows[..|rows| - 1], rows[|rows| - 1];
      assert rows == init + [last];
      var rest := Rollback(init, target);
      if last.slot <= target then rest + [last] else rest
  }

  /** `Prune`: the rows above the target slot remain. */
  function Unpruned(rows: seq<Metadata>, target: Slot): (r: seq<Metadata>)
    ensures forall m :: m in r <==> m in rows && m.slot > target
    ensures forall m | m in r :: multiset(r)[m] == multiset(rows)[m]
  {
    if rows == [] then []
    else
      var init, last := rows[..|rows| - 1], rows[|rows| - 1];
      assert rows == init + [last];
      var rest := Unpruned(init, target);
      if last.slot > target then rest + [last] else rest
  }

  /** What the order of the query means: accepted if any row is, then valid if any of those is, then the latest of those. */
  ghost predicate IsFirst(rows: seq<Metadata>, tx: TxId, r: Metadata) {
    && r in rows && r.id == tx
    && (forall o | o in rows && o.id == tx :: o.state == Accepted ==> r.state == Accepted)
    && (forall o | o in rows && o.id == tx && (o.state == Accepted <==> r.state == Accepted) ::
          (o.validSignature ==> r.validSignature) && (o.validSignature == r.validSignature ==> o.slot <= r.slot))
  }

  lemma TopIsFirst(rows: seq<Metadata>, tx: TxId, r: Metadata)
    requires IsTop(rows, tx, r)
    ensures IsFirst(rows, tx, r)
  {
  }

  /** `TransactionMetadataByID`: the first row in query order, if there is any. */
  method Query(rows: seq<Metadata>, tx: TxId) returns (r: Option<Metadata>)
    ensures r.None? <==> forall o | o in rows :: o.id != tx
    ensures r.Some? ==> IsTop(rows, tx, r.value) && IsFirst(rows, tx, r.value)
  {
    r := None;
    for i := 0 to |rows|
      invariant r.None? <==> forall o | o in rows[..i] :: o.id != tx
      invariant r.Some? ==> IsTop(rows[..i], tx, r.value)
    {
      assert rows[..i + 1] == rows[..i] + [rows[i]];
      if rows[i].id == tx && (r.None? || Before(rows[i], r.value)) {
        r := Some(rows[i]);
      }
    }
    assert rows[..|rows|] == rows;
    if r.Some? {
      TopIsFirst(rows, tx, r.value);
    }
  }

  // ----- the merged read

  datatype Response = Response(id: TxId, state: State, slot: Slot, failure: nat, details: string)

  predicate Stored(s: State) {
    s == Pending || s == Accepted || s == Failed
  }

  /** An accepted entry is reported as committed or finalized once its slot is. */
  function Respond(m: Metadata, finalized: Slot, committed: Slot): (r: Response)
    ensures Stored(m.state) ==> (r.state in {Accepted, Committed, Finalized} <==> m.state == Accepted)
  {
    var state :=
      if m.state != Accepted then m.state
      else if m.slot <= finalized then Finalized
      else if m.slot <= committed then Committed
      else Accepted;
    Response(m.id, state, m.slot, m.failure, if m.message.Some? then m.message.value else "")
  }

  /** What is reported of an entry. */
  predicate Reports(m: Metadata, finalized: Slot, committed: Slot, r: Response) {
    && r.id == m.id && r.slot == m.slot && r.failure == m.failure
    && (m.message.Some? ==> r.details == m.message.value) && (m.message.None? ==> r.details == "")
    && (m.state != Accepted ==> r.state == m.state)
    && (r.state == Finalized <==> m.state == Accepted && m.slot <= finalized)
    && (r.state == Committed <==> m.state == Accepted && finalized < m.slot <= committed)
    && (r.state == Accepted <==> m.state == Accepted && finalized < m.slot && committed < m.slot)
  }

  lemma RespondReports(m: Metadata, finalized: Slot, committed: Slot)
    requires Stored(m.state)
    ensures Reports(m, finalized, committed, Respond(m, finalized, committed))
  {
  }

  /** The cached entry is the one to answer from: it is accepted, or no row is, and it is valid or no row is. */
  predicate CachePrevails(c: Cache, rows: seq<Metadata>, tx: TxId) {
    c.Get(tx).Some? &&
    var e := c.Get(tx).value;
    e.state == Accepted
    || ((forall o | o in rows && o.id == tx :: o.state != Accepted)
        && (e.validSignature || forall o | o in rows && o.id == tx :: !o.validSignature))
  }

  /** Is e the cached entry or a table row of tx? */
  predicate IsEntry(c: Cache, rows: seq<Metadata>, tx: TxId, e: Metadata) {
    c.Get(tx) == Some(e) || (e in rows && e.id == tx)
  }

  ghost predicate NoEntry(c: Cache, rows: seq<Metadata>, tx: TxId) {
    c.Get(tx).None? && forall e | e in rows :: e.id != tx
  }

  ghost predicate AnyAccepted(c: Cache, rows: seq<Metadata>, tx: TxId) {
    exists e :: IsEntry(c, rows, tx, e) && e.state == Accepted
  }

  ghost predicate AnyValidEntry(c: Cache, rows: seq<Metadata>, tx: TxId) {
    exists e :: IsEntry(c, rows, tx, e) && e.validSignature
  }

  /** The entry a read answers from: accepted if there is any, else valid if there is any. */
  ghost predicate IsAnswer(c: Cache, rows: seq<Metadata>, tx: TxId, e: Metadata) {
    && IsEntry(c, rows, tx, e)
    && (e.state == Accepted <==> AnyAccepted(c, rows, tx))
    && (e.state != Accepted ==> (e.validSignature <==> AnyValidEntry(c, rows, tx)))
  }

  /** rows is before, followed by one row for every entry of changes. */
  ghost predicate Inserted(before: seq<Metadata>, rows: seq<Metadata>, changes: map<TxId, Metadata>, order: seq<TxId>) {
    && (forall tx :: tx in order <==> tx in changes) && |order| == |changes|
    && |rows| == |before| + |order| && rows[..|before|] == before
    && (forall i | 0 <= i < |order| :: rows[|before| + i] == changes[order[i]])
  }

  /** New rows are entries of the slots being committed, the others were there before. */
  lemma RowsAfterInsert(
    before: seq<Metadata>, rows: seq<Metadata>, changes: map<TxId, Metadata>, order: seq<TxId>, last: Slot)
    requires forall r | r in before :: Stored(r.state) && r.slot <= last
    requires forall tx | tx in changes :: Stored(changes[tx].state) && changes[tx].slot <= last
    requires Inserted(before, rows, changes, order)
    ensures forall r | r in rows :: Stored(r.state) && r.slot <= last
  {
    forall i | 0 <= i < |rows|
      ensures Stored(rows[i].state) && rows[i].slot <= last
    {
      if i < |before| {
        assert rows[i] == rows[..|before|][i] && rows[i] in before;
      } else {
        assert rows[i] == rows[|before| + (i - |before|)] && order[i - |before|] in order;
      }
    }
  }

  lemma InsertedOrder(before: seq<Metadata>, rows: seq<Metadata>, changes: map<TxId, Metadata>, order: seq<TxId>)
    requires Inserted(before, rows, changes, order)
    ensures forall tx :: tx in order <==> tx in changes
  {
  }

  lemma NothingInserted(rows: seq<Metadata>)
    ensures Inserted(rows, rows, map[], [])
  {
    assert rows[..|rows|] == rows;
  }

  lemma EntriesAfter(c: Cache, s: Slot)
    requires forall tx | tx in c.byId :: Stored(c.byId[tx].state)
    ensures forall tx | tx in After(c, s).byId :: Stored(After(c, s).byId[tx].state)
  {
  }

  class TransactionRetainer {
    const cache: TransactionRetainerCache
    var rows: seq<Metadata>
    ghost var lastCommitted: Slot

    ghost predicate Valid()
      reads this, cache
    {
      && cache.Valid()
      && (forall tx | tx in cache.byId :: Stored(cache.byId[tx].state))
      && (forall r | r in rows :: Stored(r.state) && r.slot <= lastCommitted)
    }

    constructor ()
      ensures Valid() && fresh(cache) && cache.Contents() == EMPTY && rows == [] && lastCommitted == 0
    {
      cache := new TransactionRetainerCache();
      rows := [];
      lastCommitted := 0;
    }

    /** `UpdateTransactionMetadata`: the mempool only reports pending, accepted and failed. */
    method UpdateTransactionMetadata(m: Metadata)
      requires Valid() && Stored(m.state)
      modifies cache
      ensures Valid() && cache.Contents() == Update(old(cache.Contents()), m)
    {
      cache.UpdateTxMetadata(m);
    }

    method UpdateEarliestAttachmentSlot(tx: TxId, s: Slot)
      requires Valid()
      modifies cache
      ensures Valid() && cache.Contents() == SetSlot(old(cache.Contents()), tx, s)
    {
      cache.UpdateEarliestAttachmentSlot(tx, s);
    }

    /** `ApplyTxMetadataChanges`: one new row per entry, in whatever order. */
    method Insert(changes: map<TxId, Metadata>) returns (ghost order: seq<TxId>)
      modifies this`rows
      ensures Inserted(old(rows), rows, changes, order)
    {
      order := [];
      var rest := changes.Keys;
      while rest != {}
        invariant rest <= changes.Keys && |order| + |rest| == |changes|
        invariant forall tx :: tx in order <==> tx in changes && tx !in rest
        invariant |rows| == |old(rows)| + |order| && rows[..|old(rows)|] == old(rows)
        invariant forall i | 0 <= i < |order| :: rows[|old(rows)| + i] == changes[order[i]]
        decreases rest
      {
        var tx :| tx in rest;
        rows := rows + [changes[tx]];
        order := order + [tx];
        rest := rest - {tx};
      }
    }

    /**
     `CommitSlot`: exactly the entries up to the slot move from the cache to the
     table, each as one row.
     */
    method CommitSlot(s: Slot) returns (ghost order: seq<TxId>)
      requires Valid()
      modifies this`rows, this`lastCommitted, cache
      ensures Valid() && lastCommitted == if s > old(lastCommitted) then s else old(lastCommitted)
      ensures cache.Contents() == After(old(cache.Contents()), s)
      ensures Inserted(old(rows), rows, UpTo(old(cache.byId), s), order)
      ensures forall tx :: tx in order <==> tx in old(cache.byId) && old(cache.byId)[tx].slot <= s
      ensures forall tx :: tx in cache.byId <==> tx in old(cache.byId) && old(cache.byId)[tx].slot > s
      ensures forall tx | tx in cache.byId :: cache.byId[tx] == old(cache.byId)[tx]
    {
      hide After, Inserted;
      EntriesAfter(cache.Contents(), s);
      var changes := cache.DeleteAndReturn(s);
      order := [];
      if |changes| == 0 {
        NothingInserted(rows);
      } else {
        order := Insert(changes);
      }
      lastCommitted := if s > lastCommitted then s else lastCommitted;
      RowsAfterInsert(old(rows), rows, changes, order, lastCommitted);
      InsertedOrder(old(rows), rows, changes, order);
    }

    /** `Reset`: rows above the target slot are rolled back and the cache is emptied. */
    method Reset(target: Slot)
      requires Valid()
      modifies this`rows, this`lastCommitted, cache
      ensures Valid() && cache.Contents() == EMPTY && lastCommitted == target
      ensures forall m :: m in rows <==> m in old(rows) && m.slot <= target
      ensures forall m | m in rows :: multiset(rows)[m] == multiset(old(rows))[m]
    {
      rows := Rollback(rows, target);
      cache.Reset();
      lastCommitted := target;
    }

    /** `Prune`: rows up to the target slot go; the cache is not touched. */
    method Prune(target: Slot)
      requires Valid()
      modifies this`rows
      ensures Valid()
      ensures forall m :: m in rows <==> m in old(rows) && m.slot > target
      ensures forall m | m in rows :: multiset(rows)[m] == multiset(old(rows))[m]
    {
      rows := Unpruned(rows, target);
    }

    /**
     `TransactionMetadata`: the cached entry if it is accepted, else the better
     one of the cached entry and the first table row.
     */
    method ReadMetadata(tx: TxId, finalized: Slot, committed: Slot) returns (r: Option<Response>, ghost answer: Metadata)
      requires Valid()
      ensures r.None? <==> NoEntry(cache.Contents(), rows, tx)
      ensures r.Some? ==> IsAnswer(cache.Contents(), rows, tx, answer) && Reports(answer, finalized, committed, r.value)
      ensures r.Some? ==> if CachePrevails(cache.Contents(), rows, tx) then cache.Contents().Get(tx) == Some(answer)
                          else IsFirst(rows, tx, answer)
      ensures r.Some? ==>
                (r.value.state in {Accepted, Committed, Finalized} <==> AnyAccepted(cache.Contents(), rows, tx))
    {
      ghost var c := cache.Contents();
      var entry := if tx in cache.byId then Some(cache.byId[tx]) else None;
      var row := None;
      if entry.None? || entry.value.state != Accepted {
        row := Query(rows, tx);
        if row.Some? {
          if entry.None? || row.value.state == Accepted || (!entry.value.validSignature && row.value.validSignature) {
            entry := row;
          }
        }
      }
      if entry.None? {
        answer := Metadata(tx, false, 0, Pending, 0, None);
        return None, answer;
      }
      answer := entry.value;
      AnswerFound(c, rows, tx, answer, row);
      RespondReports(answer, finalized, committed);
      return Some(Respond(entry.value, finalized, committed)), answer;
    }
  }

  /** Whichever way the read took, its entry is the answer. */
  lemma AnswerFound(c: Cache, rows: seq<Metadata>, tx: TxId, e: Metadata, row: Option<Metadata>)
    requires IsEntry(c, rows, tx, e)
    requires row.Some? ==> IsTop(rows, tx, row.value)
    requires row.None? ==> c.Get(tx) == Some(e) && (e.state == Accepted || forall o | o in rows :: o.id != tx)
    requires row.Some? ==>
               var m := c.Get(tx);
               && (m.Some? ==> m.value.state != Accepted)
               && e == if m.None? || row.value.state == Accepted || (!m.value.validSignature && row.value.validSignature)
                       then row.value else m.value
    ensures IsAnswer(c, rows, tx, e)
  {
    if e.state == Accepted {
      assert IsEntry(c, rows, tx, e) && e.state == Accepted;
    }
    if e.validSignature {
      assert IsEntry(c, rows, tx, e) && e.validSignature;
    }
  }
}

/**
 The cache of uncommitted transaction metadata, with its index by slot:
 `transactionRetainerCache`.
 */
module TxCache {
  import opened Collections
  import opened TxMetadata

  type BySlot = map<Slot, set<TxId>>

  datatype Cache = Cache(byId: map<TxId, Metadata>, bySlot: BySlot) {
    function Get(tx: TxId): (m: Option<Metadata>) {
      if tx in byId then Some(byId[tx]) else None
    }

    /** A transaction is listed under slot s exactly when its entry has slot s. */
    predicate Agrees() {
      && (forall tx | tx in byId :: byId[tx].id == tx && byId[tx].slot in bySlot && tx in bySlot[byId[tx].slot])
      && (forall s, tx | s in bySlot && tx in bySlot[s] :: tx in byId && byId[tx].slot == s)
    }
  }

  function AddTo(bySlot: BySlot, tx: TxId, s: Slot): (r: BySlot) {
    bySlot[s := (if s in bySlot then bySlot[s] else {}) + {tx}]
  }

  function RemoveFrom(bySlot: BySlot, tx: TxId, s: Slot): (r: BySlot) {
    if s in bySlot then bySlot[s := bySlot[s] - {tx}] else bySlot
  }

  // ----- what the operations do

  function Update(c: Cache, m: Metadata): (r: Cache) {
    var (entry, updated) := Merge(c.Get(m.id), m);
    if !updated then c
    else
      Cache(c.byId[m.id := entry],
            if m.id !in c.byId then AddTo(c.bySlot, m.id, entry.slot)
            else if c.byId[m.id].slot != entry.slot
            then AddTo(RemoveFrom(c.bySlot, m.id, c.byId[m.id].slot), m.id, entry.slot)
            else c.bySlot)
  }

  function SetSlot(c: Cache, tx: TxId, s: Slot): (r: Cache) {
    if tx !in c.byId then c
    else
      Cache(c.byId[tx := c.byId[tx].(slot := s)],
            AddTo(RemoveFrom(c.bySlot, tx, c.byId[tx].slot), tx, s))
  }

  /** The entries that a commit of slot s takes. */
  function UpTo(byId: map<TxId, Metadata>, s: Slot): (r: map<TxId, Metadata>) {
    map tx | tx in byId && byId[tx].slot <= s :: byId[tx]
  }

  function After(c: Cache, s: Slot): (r: Cache) {
    Cache(map tx | tx in c.byId && c.byId[tx].slot > s :: c.byId[tx],
          map n | n in c.bySlot && n > s :: c.bySlot[n])
  }

  const EMPTY := Cache(map[], map[])

  lemma MergeKeepsId(former: Option<Metadata>, update: Metadata)
    requires former.Some? ==> former.value.id == update.id
    ensures Merge(former, update).0.id == update.id
  {
  }

  lemma UpdateAgrees(c: Cache, m: Metadata)
    requires c.Agrees()
    ensures Update(c, m).Agrees()
  {
    MergeKeepsId(c.Get(m.id), m);
  }

  lemma SetSlotAgrees(c: Cache, tx: TxId, s: Slot)
    requires c.Agrees()
    ensures SetSlot(c, tx, s).Agrees()
  {
  }

  lemma AfterAgrees(c: Cache, s: Slot)
    requires c.Agrees()
    ensures After(c, s).Agrees()
  {
  }

  /** Updates of one transaction leave every other entry alone and merge into its own. */
  lemma UpdateEntry(c: Cache, m: Metadata, tx: TxId)
    requires c.Agrees()
    ensures Update(c, m).Get(tx) == if tx == m.id then Some(Merge(c.Get(tx), m).0) else c.Get(tx)
  {
  }

  // ----- the object

  class TransactionRetainerCache {
    var byId: map<TxId, Metadata>
    var bySlot: BySlot

    function Contents(): (c: Cache)
      reads this
    {
      Cache(byId, bySlot)
    }

    ghost predicate Valid()
      reads this
    {
      Contents().Agrees()
    }

    constructor ()
      ensures Valid() && Contents() == EMPTY
    {
      byId, bySlot := map[], map[];
    }

    /** `Reset`. */
    method Reset()
      modifies this
      ensures Valid() && Contents() == EMPTY
    {
      byId, bySlot := map[], map[];
    }

    method AddEarliestAttachmentSlot(tx: TxId, s: Slot)
      modifies this`bySlot
      ensures bySlot == AddTo(old(bySlot), tx, s)
    {
      if s !in bySlot {
        bySlot := bySlot[s := {}];
      }
      bySlot := bySlot[s := bySlot[s] + {tx}];
    }

    method MoveEarliestAttachmentSlot(tx: TxId, from: Slot, to: Slot)
      modifies this`bySlot
      ensures bySlot == AddTo(RemoveFrom(old(bySlot), tx, from), tx, to)
    {
      if from in bySlot {
        bySlot := bySlot[from := bySlot[from] - {tx}];
      }
      AddEarliestAttachmentSlot(tx, to);
    }

    /** `UpdateTxMetadata`. */
    method UpdateTxMetadata(m: Metadata)
      requires Valid()
      modifies this
      ensures Valid() && Contents() == Update(old(Contents()), m)
    {
      UpdateAgrees(Contents(), m);
      var (entry, updated) := Merge(if m.id in byId then Some(byId[m.id]) else None, m);
      if !updated {
        return;
      }
      if m.id in byId {
        if byId[m.id].slot != entry.slot {
          MoveEarliestAttachmentSlot(m.id, byId[m.id].slot, entry.slot);
        }
      } else {
        AddEarliestAttachmentSlot(m.id, entry.slot);
      }
      byId := byId[m.id := entry];
    }

    /** `UpdateEarliestAttachmentSlot`: unknown transactions are ignored. */
    method UpdateEarliestAttachmentSlot(tx: TxId, s: Slot)
      requires Valid()
      modifies this
      ensures Valid() && Contents() == SetSlot(old(Contents()), tx, s)
      ensures byId == if tx in old(byId) then old(byId)[tx := old(byId)[tx].(slot := s)] else old(byId)
    {
      SetSlotAgrees(Contents(), tx, s);
      if tx !in byId {
        return;
      }
      MoveEarliestAttachmentSlot(tx, byId[tx].slot, s);
      byId := byId[tx := byId[tx].(slot := s)];
    }

    /** The slots up to target leave the index; their transactions are returned. */
    method DeleteSlots(target: Slot) returns (txs: set<TxId>)
      requires Valid()
      modifies this`bySlot
      ensures bySlot == After(old(Contents()), target).bySlot
      ensures txs == UpTo(byId, target).Keys
    {
      ghost var before := bySlot;
      var slots := set s | s in bySlot && s <= target;
      ghost var listed := slots;
      txs := {};
      while slots != {}
        invariant slots <= listed
        invariant bySlot == map s | s in before && (s !in listed || s in slots) :: before[s]
        invariant forall tx :: tx in txs <==> exists s :: s in listed && s !in slots && tx in before[s]
        decreases slots
      {
        var s :| s in slots;
        ghost var was := txs;
        txs := txs + bySlot[s];
        bySlot := bySlot - {s};
        slots := slots - {s};
        forall tx
          ensures tx in txs <==> exists n :: n in listed && n !in slots && tx in before[n]
        {
          if tx in before[s] {
            assert s in listed && s !in slots && tx in before[s];
          } else if tx in was {
            var n :| n in listed && n !in slots + {s} && tx in before[n];
            assert n in listed && n !in slots && tx in before[n];
          }
        }
      }
      forall tx
        ensures tx in txs <==> tx in byId && byId[tx].slot <= target
      {
        if tx in byId && byId[tx].slot <= target {
          assert byId[tx].slot in listed && tx in before[byId[tx].slot];
        }
      }
      assert UpTo(byId, target).Keys == txs;
    }

    /** The entries of the given transactions leave the map; the lookup that would panic never fails. */
    method DeleteEntries(txs: set<TxId>) returns (changes: map<TxId, Metadata>)
      requires txs <= byId.Keys
      modifies this`byId
      ensures byId == old(byId) - txs
      ensures changes == map tx | tx in txs :: old(byId)[tx]
    {
      var rest := txs;
      changes := map[];
      while rest != {}
        invariant rest <= txs && byId == old(byId) - (txs - rest)
        invariant changes == map tx | tx in txs - rest :: old(byId)[tx]
        decreases rest
      {
        var tx :| tx in rest;
        assert tx in byId;
        changes := changes[tx := byId[tx]];
        byId := byId - {tx};
        rest := rest - {tx};
      }
      assert txs - rest == txs;
    }

    /** `DeleteAndReturnTxMetadataChangesBySlot`. */
    method DeleteAndReturn(target: Slot) returns (changes: map<TxId, Metadata>)
      requires Valid()
      modifies this
      ensures Valid() && Contents() == After(old(Contents()), target)
      ensures changes == UpTo(old(byId), target)
      ensures forall tx :: tx in changes <==> tx in old(byId) && old(byId)[tx].slot <= target
      ensures forall tx :: tx in byId <==> tx in old(byId) && old(byId)[tx].slot > target
      ensures forall tx | tx in changes :: changes[tx] == old(byId)[tx]
      ensures forall tx | tx in byId :: byId[tx] == old(byId)[tx]
    {
      AfterAgrees(Contents(), target);
      var txs := DeleteSlots(target);
      changes := DeleteEntries(txs);
      assert byId == After(old(Contents()), target).byId;
    }
  }
}

/**
 The metadata the transaction retainer keeps per transaction, and the rule that
 merges an update into the cached entry.
 */
module TxMetadata {
  import opened Collections

  type TxId = nat
  type Slot = nat

  datatype State = Pending | Accepted | Committed | Finalized | Failed

  /** A table row or a cache entry; two of them are `Equal` when all of this agrees. */
  datatype Metadata = Metadata(
    id: TxId, validSignature: bool, slot: Slot, state: State, failure: nat, message: Option<string>)

  // ----- merging one update

  /** `defaultTxMetadataUpdateFunc`: the entry to keep, and whether it changed. */
  function Merge(former: Option<Metadata>, update: Metadata): (r: (Metadata, bool)) {
    if former.None? then (update, true)
    else if former.value == update then (former.value, false)
    else if former.value.validSignature && !update.validSignature then (former.value, false)
    else if !former.value.validSignature && update.validSignature then (update, true)
    else if update.slot == 0 || (former.value.slot != 0 && former.value.slot < update.slot)
    then (update.(slot := former.value.slot), true)
    else (update, true)
  }

  /** The cached entry after a sequence of updates of one transaction. */
  function MergeAll(updates: seq<Metadata>): (r: Option<Metadata>)
    ensures r.None? <==> updates == []
  {
    if updates == [] then None
    else Some(Merge(MergeAll(updates[..|updates| - 1]), updates[|updates| - 1]).0)
  }

  // ----- the closed form

  predicate AnyValid(updates: seq<Metadata>) {
    exists i | 0 <= i < |updates| :: updates[i].validSignature
  }

  /** The updates with a given validity, in order. */
  function WithValidity(updates: seq<Metadata>, valid: bool): (r: seq<Metadata>) {
    if updates == [] then []
    else
      WithValidity(updates[..|updates| - 1], valid)
      + if updates[|updates| - 1].validSignature == valid then [updates[|updates| - 1]] else []
  }

  /** The updates that count: those with a valid signature if there are any, else all. */
  function Relevant(updates: seq<Metadata>): (r: seq<Metadata>) {
    if AnyValid(updates) then WithValidity(updates, true) else updates
  }

  /** The smallest slot that is set, 0 if none is. */
  function EarliestSlot(updates: seq<Metadata>): (s: Slot) {
    if updates == [] then 0
    else
      var earlier, last := EarliestSlot(updates[..|updates| - 1]), updates[|updates| - 1].slot;
      if last == 0 || (earlier != 0 && earlier < last) then earlier else last
  }

  /** What `EarliestSlot` means. */
  lemma {:induction false} EarliestSlotIsLeast(updates: seq<Metadata>)
    ensures EarliestSlot(updates) == 0 <==> forall i | 0 <= i < |updates| :: updates[i].slot == 0
    ensures EarliestSlot(updates) != 0 ==> exists i | 0 <= i < |updates| :: updates[i].slot == EarliestSlot(updates)
    ensures forall i | 0 <= i < |updates| :: updates[i].slot != 0 ==> EarliestSlot(updates) <= updates[i].slot
  {
    if updates != [] {
      var init, k := updates[..|updates| - 1], |updates| - 1;
      EarliestSlotIsLeast(init);
      assert forall i | 0 <= i < k :: updates[i] == init[i];
      if EarliestSlot(updates) != 0 {
        if EarliestSlot(updates) != updates[k].slot {
          var i :| 0 <= i < |init| && init[i].slot == EarliestSlot(init);
          assert updates[i].slot == EarliestSlot(updates);
        }
      }
    }
  }

  lemma ValidSoFar(updates: seq<Metadata>)
    requires updates != []
    ensures AnyValid(updates) <==> AnyValid(updates[..|updates| - 1]) || updates[|updates| - 1].validSignature
  {
    var init, k := updates[..|updates| - 1], |updates| - 1;
    if AnyValid(init) {
      var i :| 0 <= i < |init| && init[i].validSignature;
      assert updates[i].validSignature;
    }
    if AnyValid(updates) && !updates[k].validSignature {
      var i :| 0 <= i < |updates| && updates[i].validSignature;
      assert init[i].validSignature;
    }
  }

  lemma {:induction false} NoneValid(updates: seq<Metadata>)
    requires !AnyValid(updates)
    ensures WithValidity(updates, true) == []
  {
    if updates != [] {
      ValidSoFar(updates);
      NoneValid(updates[..|updates| - 1]);
    }
  }

  /** Which updates count: those with a valid signature if there are any, else all; the last one is the last of these. */
  lemma {:induction false} RelevantMeans(updates: seq<Metadata>)
    ensures forall m :: m in Relevant(updates) <==> m in updates && (m.validSignature || !AnyValid(updates))
    ensures forall i | 0 <= i < |updates| && (updates[i].validSignature || !AnyValid(updates)) ::
              (forall j | i < j < |updates| :: AnyValid(updates) && !updates[j].validSignature)
              ==> Relevant(updates) != [] && Relevant(updates)[|Relevant(updates)| - 1] == updates[i]
    decreases |updates|
  {
    ValidMeans(updates);
    forall i | 0 <= i < |updates| && (updates[i].validSignature || !AnyValid(updates))
               && forall j | i < j < |updates| :: AnyValid(updates) && !updates[j].validSignature
      ensures Relevant(updates) != [] && Relevant(updates)[|Relevant(updates)| - 1] == updates[i]
    {
      if AnyValid(updates) {
        LastValid(updates, i);
      }
    }
  }

  lemma {:induction false} ValidMeans(updates: seq<Metadata>)
    ensures forall m :: m in WithValidity(updates, true) <==> m in updates && m.validSignature
    decreases |updates|
  {
    if updates != [] {
      var init, last := updates[..|updates| - 1], updates[|updates| - 1];
      assert updates == init + [last];
      ValidMeans(init);
    }
  }

  lemma {:induction false} LastValid(updates: seq<Metadata>, i: nat)
    requires i < |updates| && updates[i].validSignature && forall j | i < j < |updates| :: !updates[j].validSignature
    ensures var w := WithValidity(updates, true); w != [] && w[|w| - 1] == updates[i]
    decreases |updates|
  {
    if i < |updates| - 1 {
      LastValid(updates[..|updates| - 1], i);
      assert WithValidity(updates, true) == WithValidity(updates[..|updates| - 1], true);
    }
  }

  /** What one more update does to the updates that count. */
  lemma RelevantNext(updates: seq<Metadata>)
    requires updates != []
    ensures var init, last := updates[..|updates| - 1], updates[|updates| - 1];
            Relevant(updates) ==
            if AnyValid(init) && !last.validSignature then Relevant(init)
            else if !AnyValid(init) && last.validSignature then [last]
            else Relevant(init) + [last]
  {
    ValidSoFar(updates);
    var init, last := updates[..|updates| - 1], updates[|updates| - 1];
    assert updates == init + [last];
    if !AnyValid(init) {
      NoneValid(init);
    }
  }

  /**
   After any sequence of updates the entry carries the fields of the last update
   that counts and the smallest slot among all that count.
   */
  lemma {:induction false} MergeAllClosedForm(updates: seq<Metadata>)
    requires updates != []
    ensures Relevant(updates) != []
    ensures MergeAll(updates) ==
            Some(Relevant(updates)[|Relevant(updates)| - 1].(slot := EarliestSlot(Relevant(updates))))
    ensures MergeAll(updates).value.validSignature == AnyValid(updates)
    decreases |updates|
  {
    var init, last := updates[..|updates| - 1], updates[|updates| - 1];
    RelevantNext(updates);
    ValidSoFar(updates);
    if init == [] {
      assert Relevant(updates) == [last];
      assert EarliestSlot([last]) == last.slot;
    } else {
      MergeAllClosedForm(init);
      var r := Relevant(init);
      assert (r + [last])[..|r|] == r;
      assert EarliestSlot([last]) == last.slot;
    }
  }
}

/**
 Pruning epochs: `Storage.PruneByEpochIndex`, `PruneByDepth` and `PruneBySize`
 on top of `model.EvictionIndex`. Deleting an epoch does not fail here; which
 epochs were deleted, and in which order, is recorded.
 */
module Pruning {
  import opened Collections

  type Epoch = nat

  class EvictionIndex {
    var index: Option<Epoch>

    constructor ()
      ensures index == None
    {
      index := None;
    }

    method MarkEvicted(e: Epoch) returns (previous: Option<Epoch>)
      modifies this
      ensures index == Some(e) && previous == old(index)
    {
      previous := index;
      index := Some(e);
    }

    /** The first index that is not evicted. */
    function NextIndex(): (e: Epoch)
      reads this
    {
      if index.None? then 0 else index.value + 1
    }

    predicate IsEvicted(e: Epoch)
      reads this
      ensures IsEvicted(e) <==> e < NextIndex()
    {
      index.Some? && e <= index.value
    }

    predicate ShouldEvict(e: Epoch)
      reads this
      ensures ShouldEvict(e) <==> !IsEvicted(e)
    {
      index.None? || e > index.value
    }
  }

  /** At least one full epoch below the finalized one is kept, once there is one. */
  function LatestPrunable(finalized: Epoch): (e: Epoch) {
    if finalized < 2 then 0 else finalized - 2
  }

  /** The epochs from a up to but not including b. */
  function Epochs(a: Epoch, b: Epoch): (r: seq<Epoch>)
    requires a <= b
    ensures |r| == b - a && forall i | 0 <= i < |r| :: r[i] == a + i
  {
    if a == b then [] else Epochs(a, b - 1) + [b - 1]
  }

  datatype Outcome = Done | TooNew | TooOld | NotNeeded | DatabaseFull

  /** The estimated bytes that deleting the epochs from a up to but not including b frees. */
  function Freed(estimate: Epoch -> int, a: Epoch, b: Epoch): (n: int)
    requires a <= b
    decreases b - a
  {
    if a == b then 0 else Freed(estimate, a, b - 1) + estimate(b - 1)
  }

  class Storage {
    const lastPruned: EvictionIndex
    var finalized: Epoch          // the epoch of the latest finalized slot
    var deleted: seq<Epoch>       // every deletion there was, in order

    /** The epochs deleted so far are 0, 1, ... up to the last pruned one, each deleted once, and all were prunable. */
    ghost predicate Valid()
      reads this, lastPruned
    {
      && deleted == Epochs(0, lastPruned.NextIndex())
      && (lastPruned.index.Some? ==> lastPruned.index.value <= LatestPrunable(finalized))
    }

    constructor (epoch: Epoch)
      ensures Valid() && fresh(lastPruned) && lastPruned.index == None && finalized == epoch && deleted == []
    {
      lastPruned := new EvictionIndex();
      finalized, deleted := epoch, [];
    }

    /** Finalization only advances. */
    method Finalize(epoch: Epoch)
      requires Valid() && epoch >= finalized
      modifies this`finalized
      ensures Valid() && finalized == epoch
    {
      finalized := epoch;
    }

    /** `getPruningStart`. */
    method GetPruningStart(epoch: Epoch) returns (start: Epoch, canPrune: bool)
      ensures canPrune <==> epoch >= lastPruned.NextIndex()
      ensures canPrune ==> start == lastPruned.NextIndex()
    {
      if lastPruned.index.Some? && epoch <= lastPruned.index.value {
        return 0, false;
      }
      return lastPruned.NextIndex(), true;
    }

    /** `pruneUntilEpoch`. */
    method PruneUntil(start: Epoch, target: Epoch)
      requires Valid() && start == lastPruned.NextIndex() && start <= target <= LatestPrunable(finalized)
      modifies this`deleted, lastPruned
      ensures Valid() && lastPruned.index == Some(target)
    {
      var current := start;
      while current <= target
        invariant start <= current <= target + 1 && deleted == Epochs(0, current)
        invariant lastPruned.index == old(lastPruned.index)
      {
        deleted := deleted + [current];
        current := current + 1;
      }
      var _ := lastPruned.MarkEvicted(target);
    }

    /** `PruneByEpochIndex`. */
    method PruneByEpochIndex(epoch: Epoch) returns (r: Outcome)
      requires Valid()
      modifies this`deleted, lastPruned
      ensures Valid()
      ensures r == if epoch > LatestPrunable(finalized) then TooNew
                   else if epoch < old(lastPruned.NextIndex()) then TooOld else Done
      ensures lastPruned.index == if r == Done then Some(epoch) else old(lastPruned.index)
    {
      if epoch > LatestPrunable(finalized) {
        return TooNew;
      }
      var start, canPrune := GetPruningStart(epoch);
      if !canPrune {
        return TooOld;
      }
      PruneUntil(start, epoch);
      return Done;
    }

    /**
     `PruneByDepth`. The target never underflows, and at least one full epoch
     below the finalized one always remains.
     */
    method PruneByDepth(epochDepth: Epoch) returns (first: Epoch, last: Epoch, r: Outcome)
      requires Valid()
      modifies this`deleted, lastPruned
      ensures Valid()
      ensures var depth := if epochDepth == 0 then 1 else epochDepth;
              r == if depth > LatestPrunable(finalized) then NotNeeded
                   else if LatestPrunable(finalized) - (depth - 1) < old(lastPruned.NextIndex()) then TooOld else Done
      ensures r == Done ==>
                && first == old(lastPruned.NextIndex()) && lastPruned.index == Some(last)
                && 1 <= last && last + (if epochDepth == 0 then 1 else epochDepth) + 1 == finalized
      ensures r != Done ==> lastPruned.index == old(lastPruned.index)
    {
      var depth := epochDepth;
      if depth == 0 {
        depth := 1;
      }
      var latest := LatestPrunable(finalized);
      if depth > latest {
        return 0, 0, NotNeeded;
      }
      var end := latest - (depth - 1);
      var start, canPrune := GetPruningStart(end);
      if !canPrune {
        return 0, 0, TooOld;
      }
      PruneUntil(start, end);
      return start, end, Done;
    }

    /**
     `PruneBySize`: epochs go one by one until the estimate says that the target
     size is reached or nothing prunable is left.
     */
    method PruneBySize(
        enabled: bool, coolingDown: bool, size: int, maxSize: int, targetSize: int, estimate: Epoch -> int, sizeAfter: int)
      returns (r: Outcome)
      requires Valid()
      modifies this`deleted, lastPruned
      ensures Valid()
      ensures !enabled || coolingDown || size < maxSize ==> r == NotNeeded
      ensures enabled && !coolingDown && size >= maxSize ==>
                (r == TooOld <==> LatestPrunable(finalized) < old(lastPruned.NextIndex()))
      ensures r == NotNeeded || r == TooOld ==> lastPruned.index == old(lastPruned.index)
      ensures r == Done || r == DatabaseFull ==>
                var start, next := old(lastPruned.NextIndex()), lastPruned.NextIndex();
                && start < next <= LatestPrunable(finalized) + 1
                && (next <= LatestPrunable(finalized) ==> Freed(estimate, start, next) >= size - targetSize)
                && (forall k | start < k < next :: Freed(estimate, start, k) < size - targetSize)
      ensures enabled && !coolingDown && size >= maxSize ==>
                (r == DatabaseFull <==>
                   && old(lastPruned.NextIndex()) <= LatestPrunable(finalized)
                   && (forall k | old(lastPruned.NextIndex()) < k <= LatestPrunable(finalized) + 1 ::
                         Freed(estimate, old(lastPruned.NextIndex()), k) < size - targetSize)
                   && sizeAfter > maxSize)
    {
      if !enabled || coolingDown || size < maxSize {
        return NotNeeded;
      }
      var latest := LatestPrunable(finalized);
      var start, canPrune := GetPruningStart(latest);
      if !canPrune {
        return TooOld;
      }
      var bytes := size - targetSize;
      var epoch := start;
      while epoch <= latest
        invariant Valid() && start <= epoch <= latest + 1 && epoch == lastPruned.NextIndex()
        invariant bytes == size - targetSize - Freed(estimate, start, epoch)
        invariant forall k | start < k <= epoch :: Freed(estimate, start, k) < size - targetSize
      {
        bytes := bytes - estimate(epoch);
        PruneUntil(epoch, epoch);
        epoch := epoch + 1;
        if bytes <= 0 {
          return Done;
        }
      }
      if sizeAfter > maxSize {
        return DatabaseFull;
      }
      return Done;
    }
  }

  /**
   In a valid storage, a full epoch below the finalized one remains unless
   something was pruned before the second finalized epoch: until then epoch 0
   counts as prunable although it must not go.
   */
  lemma HistoryKept(next: Epoch, finalized: Epoch)
    requires next <= LatestPrunable(finalized) + 1
    ensures (forall e | e in Epochs(0, next) :: e + 2 <= finalized) <==> next == 0 || finalized >= 2
  {
    var epochs := Epochs(0, next);
    if next > 0 {
      assert epochs[0] == 0 && 0 in epochs;
    }
    forall e | e in epochs
      ensures e < next
    {
      var i :| 0 <= i < |epochs| && epochs[i] == e;
    }
  }

  /** For example, before any epoch is finalized epoch 0 can be deleted. */
  method PruneAtGenesis() returns (storage: Storage, r: Outcome)
    ensures r == Done && storage.finalized == 0 && storage.deleted == [0]
  {
    storage := new Storage(0);
    r := storage.PruneByEpochIndex(0);
    assert Epochs(0, 1) == [0];
  }
}

/**
 Checking the attestations of a commitment on another chain:
 `CommitmentVerifier.verifyCommitment` and `verifyAttestations`.

 Signature checks, Merkle proofs and the calculation of block IDs appear by
 their outcome.
 */
module CommitmentVerifier {
  import opened Collections

  type AccountId = nat
  type Key = nat
  type BlockId = nat

  /** blockId is None where it can not be calculated. */
  datatype Attestation = Attestation(
    issuer: AccountId, key: Key, signatureValid: bool, blockId: Option<BlockId>, slot: nat)

  datatype Error = InvalidProof | InvalidSignature | DuplicateIssuer | InvalidBlock | NoCommittee | TooHeavy

  datatype Result = Verified(blockIds: seq<BlockId>, seats: nat) | Failed(error: Error)

  /** Attestations by unknown issuers or with unknown keys are ignored. */
  predicate Counts(known: map<AccountId, set<Key>>, a: Attestation) {
    a.issuer in known && a.key in known[a.issuer]
  }

  /** The attestations that are not ignored, in order. */
  function Counted(known: map<AccountId, set<Key>>, atts: seq<Attestation>): (r: seq<Attestation>)
    ensures forall a | a in r :: Counts(known, a)
  {
    if atts == [] then []
    else
      var init, last := atts[..|atts| - 1], atts[|atts| - 1];
      Counted(known, init) + if Counts(known, last) then [last] else []
  }

  predicate Sound(committees: map<nat, set<AccountId>>, a: Attestation) {
    a.signatureValid && a.blockId.Some? && a.slot in committees
  }

  predicate DistinctIssuers(atts: seq<Attestation>) {
    forall i, j | 0 <= i < j < |atts| :: atts[i].issuer != atts[j].issuer
  }

  /** The issuers that held a seat in the slot of their attestation. */
  function Seated(committees: map<nat, set<AccountId>>, atts: seq<Attestation>): (r: set<AccountId>) {
    set a | a in atts && a.slot in committees && a.issuer in committees[a.slot] :: a.issuer
  }

  function Issuers(atts: seq<Attestation>): (r: set<AccountId>) {
    set a | a in atts :: a.issuer
  }

  /** The block IDs of attestations, where they have one. */
  function BlockIds(atts: seq<Attestation>): (r: seq<BlockId>) {
    if atts == [] then []
    else
      var init, last := atts[..|atts| - 1], atts[|atts| - 1];
      BlockIds(init) + if last.blockId.Some? then [last.blockId.value] else []
  }

  /** What a set of attestations must satisfy to be accepted. */
  predicate Acceptable(known: map<AccountId, set<Key>>, committees: map<nat, set<AccountId>>, atts: seq<Attestation>) {
    var counted := Counted(known, atts);
    DistinctIssuers(counted) && forall a | a in counted :: Sound(committees, a)
  }

  /** Acceptability is lost for good at the first offending attestation. */
  lemma CountedPrefix(known: map<AccountId, set<Key>>, atts: seq<Attestation>, i: nat)
    requires i <= |atts|
    ensures Counted(known, atts[..i]) <= Counted(known, atts)
    decreases |atts|
  {
    if i < |atts| {
      CountedPrefix(known, atts[..|atts| - 1], i);
      assert atts[..|atts| - 1][..i] == atts[..i];
    } else {
      assert atts[..i] == atts;
    }
  }

  lemma RejectedPrefix(known: map<AccountId, set<Key>>, committees: map<nat, set<AccountId>>, atts: seq<Attestation>, i: nat)
    requires i <= |atts| && !Acceptable(known, committees, atts[..i])
    ensures !Acceptable(known, committees, atts)
  {
    CountedPrefix(known, atts, i);
    var short, long := Counted(known, atts[..i]), Counted(known, atts);
    if DistinctIssuers(short) {
      var a :| a in short && !Sound(committees, a);
      assert a in long;
    } else {
      var j, k :| 0 <= j < k < |short| && short[j].issuer == short[k].issuer;
      assert long[j] == short[j] && long[k] == short[k];
    }
  }

  /** One attestation more that counts. */
  lemma CountedNext(known: map<AccountId, set<Key>>, atts: seq<Attestation>, i: nat)
    requires i < |atts|
    ensures Counted(known, atts[..i + 1]) ==
            Counted(known, atts[..i]) + if Counts(known, atts[i]) then [atts[i]] else []
  {
    assert atts[..i + 1][..i] == atts[..i];
  }

  lemma RejectUnsound(known: map<AccountId, set<Key>>, committees: map<nat, set<AccountId>>, atts: seq<Attestation>, i: nat)
    requires i < |atts| && Counts(known, atts[i]) && !Sound(committees, atts[i])
    ensures !Acceptable(known, committees, atts)
  {
    CountedNext(known, atts, i);
    assert atts[i] in Counted(known, atts[..i + 1]);
    RejectedPrefix(known, committees, atts, i + 1);
  }

  lemma RejectDuplicate(known: map<AccountId, set<Key>>, committees: map<nat, set<AccountId>>, atts: seq<Attestation>, i: nat)
    requires i < |atts| && Counts(known, atts[i]) && atts[i].issuer in Issuers(Counted(known, atts[..i]))
    ensures !Acceptable(known, committees, atts)
  {
    CountedNext(known, atts, i);
    var before, after := Counted(known, atts[..i]), Counted(known, atts[..i + 1]);
    var j :| 0 <= j < |before| && before[j].issuer == atts[i].issuer;
    assert after[j].issuer == after[|before|].issuer;
    RejectedPrefix(known, committees, atts, i + 1);
  }

  lemma AcceptNext(known: map<AccountId, set<Key>>, committees: map<nat, set<AccountId>>, atts: seq<Attestation>, i: nat)
    requires i < |atts| && Counts(known, atts[i]) && Sound(committees, atts[i])
    requires Acceptable(known, committees, atts[..i]) && atts[i].issuer !in Issuers(Counted(known, atts[..i]))
    ensures Acceptable(known, committees, atts[..i + 1])
  {
    CountedNext(known, atts, i);
    var before, after := Counted(known, atts[..i]), Counted(known, atts[..i + 1]);
    forall j, k | 0 <= j < k < |after|
      ensures after[j].issuer != after[k].issuer
    {
      assert after[j] == before[j] && before[j] in before;
    }
  }

  lemma GrowByOne(committees: map<nat, set<AccountId>>, before: seq<Attestation>, a: Attestation)
    requires Sound(committees, a) && a.issuer !in Issuers(before)
    ensures Issuers(before + [a]) == Issuers(before) + {a.issuer}
    ensures BlockIds(before + [a]) == BlockIds(before) + [a.blockId.value]
    ensures |Seated(committees, before + [a])| ==
            |Seated(committees, before)| + if a.issuer in committees[a.slot] then 1 else 0
  {
    assert (before + [a])[..|before|] == before;
    SeatedNext(committees, before, a);
  }

  lemma SeatedNext(committees: map<nat, set<AccountId>>, before: seq<Attestation>, a: Attestation)
    requires a.slot in committees && a.issuer !in Issuers(before)
    ensures |Seated(committees, before + [a])| ==
            |Seated(committees, before)| + if a.issuer in committees[a.slot] then 1 else 0
  {
    var s := Seated(committees, before);
    if a.issuer in committees[a.slot] {
      assert Seated(committees, before + [a]) == s + {a.issuer};
      assert a.issuer !in s;
    } else {
      assert Seated(committees, before + [a]) == s;
    }
  }

  /** Every attestation by a known issuer with one of its keys is in order, and no two of them are of one issuer. */
  predicate InOrder(known: map<AccountId, set<Key>>, committees: map<nat, set<AccountId>>, atts: seq<Attestation>) {
    && (forall i | 0 <= i < |atts| && atts[i].issuer in known && atts[i].key in known[atts[i].issuer] ::
          atts[i].signatureValid && atts[i].blockId.Some? && atts[i].slot in committees)
    && (forall i, j | 0 <= i < j < |atts| && atts[i].issuer == atts[j].issuer && atts[i].issuer in known ::
          atts[i].key !in known[atts[i].issuer] || atts[j].key !in known[atts[j].issuer])
  }

  /** The known issuers that held a seat in the slot of their attestation. */
  function SeatedIssuers(known: map<AccountId, set<Key>>, committees: map<nat, set<AccountId>>, atts: seq<Attestation>): (r: set<AccountId>) {
    set a | a in atts && a.issuer in known && a.key in known[a.issuer] && a.slot in committees && a.issuer in committees[a.slot] :: a.issuer
  }

  /** No two attestations that count are of one issuer. */
  predicate Apart(known: map<AccountId, set<Key>>, atts: seq<Attestation>) {
    forall i, j | 0 <= i < j < |atts| && Counts(known, atts[i]) && Counts(known, atts[j]) :: atts[i].issuer != atts[j].issuer
  }

  lemma ApartNext(known: map<AccountId, set<Key>>, init: seq<Attestation>, last: Attestation)
    ensures Apart(known, init + [last]) <==>
            Apart(known, init) && (Counts(known, last) ==> forall a | a in init && Counts(known, a) :: a.issuer != last.issuer)
  {
    var atts := init + [last];
    if Apart(known, atts) {
      forall i, j | 0 <= i < j < |init| && Counts(known, init[i]) && Counts(known, init[j])
        ensures init[i].issuer != init[j].issuer
      {
        assert atts[i] == init[i] && atts[j] == init[j];
      }
      forall a | a in init && Counts(known, a) && Counts(known, last)
        ensures a.issuer != last.issuer
      {
        var i :| 0 <= i < |init| && init[i] == a;
        assert atts[i] == a && atts[|init|] == last;
      }
    }
  }

  lemma {:induction false} CountedMeans(known: map<AccountId, set<Key>>, atts: seq<Attestation>)
    ensures forall a :: a in Counted(known, atts) <==> a in atts && Counts(known, a)
    ensures DistinctIssuers(Counted(known, atts)) <==> Apart(known, atts)
    decreases |atts|
  {
    hide Apart, DistinctIssuers;
    if atts != [] {
      var init, last := atts[..|atts| - 1], atts[|atts| - 1];
      assert atts == init + [last];
      CountedMeans(known, init);
      assert !Counts(known, last) ==> Counted(known, atts) == Counted(known, init);
      DistinctNext(Counted(known, init), last);
      ApartNext(known, init, last);
    } else {
      NothingCounted(known);
    }
  }

  lemma NothingCounted(known: map<AccountId, set<Key>>)
    ensures Counted(known, []) == [] && DistinctIssuers([]) && Apart(known, [])
  {
  }

  lemma DistinctNext(w: seq<Attestation>, last: Attestation)
    ensures DistinctIssuers(w + [last]) <==> DistinctIssuers(w) && forall a | a in w :: a.issuer != last.issuer
  {
    var long := w + [last];
    if DistinctIssuers(long) {
      forall i, j | 0 <= i < j < |w|
        ensures w[i].issuer != w[j].issuer
      {
        assert long[i] == w[i] && long[j] == w[j];
      }
      forall a | a in w
        ensures a.issuer != last.issuer
      {
        var i :| 0 <= i < |w| && w[i] == a;
        assert long[i] == a && long[|w|] == last;
      }
    }
  }

  lemma AcceptableMeans(known: map<AccountId, set<Key>>, committees: map<nat, set<AccountId>>, atts: seq<Attestation>)
    ensures Acceptable(known, committees, atts) <==> InOrder(known, committees, atts)
    ensures Seated(committees, Counted(known, atts)) == SeatedIssuers(known, committees, atts)
  {
    hide Counted, DistinctIssuers;
    CountedMeans(known, atts);
    var counted := Counted(known, atts);
    if forall a | a in counted :: Sound(committees, a) {
      forall i | 0 <= i < |atts| && Counts(known, atts[i])
        ensures Sound(committees, atts[i])
      {
        assert atts[i] in counted;
      }
    }
  }

  /** Attestation i is the one at which the loop stops with the error. */
  predicate Offends(
    known: map<AccountId, set<Key>>, committees: map<nat, set<AccountId>>, atts: seq<Attestation>, i: nat, error: Error)
    requires i < |atts|
  {
    && InOrder(known, committees, atts[..i]) && atts[i].issuer in known && atts[i].key in known[atts[i].issuer]
    && error == if !atts[i].signatureValid then InvalidSignature
                else if exists j | 0 <= j < i :: atts[j].issuer == atts[i].issuer && atts[j].key in known[atts[i].issuer] then DuplicateIssuer
                else if atts[i].blockId.None? then InvalidBlock
                else NoCommittee
  }

  lemma VisitedMeans(known: map<AccountId, set<Key>>, atts: seq<Attestation>, i: nat)
    requires i < |atts|
    ensures atts[i].issuer in Issuers(Counted(known, atts[..i])) <==>
            exists j | 0 <= j < i :: atts[j].issuer == atts[i].issuer && atts[j].issuer in known && atts[j].key in known[atts[j].issuer]
  {
    CountedMeans(known, atts[..i]);
    if j :| 0 <= j < i && Counts(known, atts[j]) && atts[j].issuer == atts[i].issuer {
      assert atts[..i][j] in Counted(known, atts[..i]);
    }
    if atts[i].issuer in Issuers(Counted(known, atts[..i])) {
      var a :| a in Counted(known, atts[..i]) && a.issuer == atts[i].issuer;
      var j :| 0 <= j < i && atts[..i][j] == a;
      assert Counts(known, atts[j]);
    }
  }

  /** The loop of `verifyAttestations`, and where it stops if it fails. */
  method VerifyAttestations(
      known: map<AccountId, set<Key>>, committees: map<nat, set<AccountId>>, atts: seq<Attestation>)
    returns (r: Result, ghost at: nat)
    ensures r.Verified? <==> InOrder(known, committees, atts)
    ensures r.Verified? ==> r.seats == |SeatedIssuers(known, committees, atts)|
    ensures r.Verified? ==> r.blockIds == BlockIds(Counted(known, atts))
    ensures r.Failed? ==> at < |atts| && Offends(known, committees, atts, at, r.error)
  {
    AcceptableMeans(known, committees, atts);
    at := 0;
    var visited: set<AccountId>, blockIds: seq<BlockId>, seats := {}, [], 0;
    for i := 0 to |atts|
      invariant Acceptable(known, committees, atts[..i])
      invariant visited == Issuers(Counted(known, atts[..i]))
      invariant blockIds == BlockIds(Counted(known, atts[..i]))
      invariant seats == |Seated(committees, Counted(known, atts[..i]))|
    {
      hide Counted, BlockIds, Seated, Issuers, DistinctIssuers, Acceptable, InOrder;
      AcceptableMeans(known, committees, atts[..i]);
      VisitedMeans(known, atts, i);
      at := i;
      var att := atts[i];
      CountedNext(known, atts, i);
      if !Counts(known, att) {
        IgnoreNext(known, committees, atts, i);
        continue;
      }
      if !att.signatureValid {
        RejectUnsound(known, committees, atts, i);
        return Failed(InvalidSignature), at;
      }
      if att.issuer in visited {
        RejectDuplicate(known, committees, atts, i);
        return Failed(DuplicateIssuer), at;
      }
      if att.blockId.None? {
        RejectUnsound(known, committees, atts, i);
        return Failed(InvalidBlock), at;
      }
      if att.slot !in committees {
        RejectUnsound(known, committees, atts, i);
        return Failed(NoCommittee), at;
      }
      AcceptNext(known, committees, atts, i);
      GrowByOne(committees, Counted(known, atts[..i]), att);
      if att.issuer in committees[att.slot] {
        seats := seats + 1;
      }
      visited := visited + {att.issuer};
      blockIds := blockIds + [att.blockId.value];
    }
    assert atts[..|atts|] == atts;
    return Verified(blockIds, seats), at;
  }

  lemma IgnoreNext(known: map<AccountId, set<Key>>, committees: map<nat, set<AccountId>>, atts: seq<Attestation>, i: nat)
    requires i < |atts| && !Counts(known, atts[i])
    ensures Counted(known, atts[..i + 1]) == Counted(known, atts[..i])
    ensures Acceptable(known, committees, atts[..i + 1]) == Acceptable(known, committees, atts[..i])
  {
    CountedNext(known, atts, i);
  }

  /** No more weight is verified than there are distinct known issuers. */
  lemma SeatsBelowKnown(known: map<AccountId, set<Key>>, committees: map<nat, set<AccountId>>, atts: seq<Attestation>)
    ensures |Seated(committees, Counted(known, atts))| <= |known.Keys|
  {
    assert Seated(committees, Counted(known, atts)) <= known.Keys;
    SubsetSize(Seated(committees, Counted(known, atts)), known.Keys);
  }

  class Verifier {
    var epoch: nat
    var known: map<AccountId, set<Key>>    // validatorAccountsData

    constructor (forkEpoch: nat, validators: map<AccountId, set<Key>>)
      ensures epoch == forkEpoch && known == validators
    {
      epoch, known := forkEpoch, validators;
    }

    /**
     `verifyCommitment`. latest is the accounts data of the committee of the
     commitment's epoch, None if it can not be determined.
     */
    method VerifyCommitment(
        commitmentEpoch: nat, latest: Option<map<AccountId, set<Key>>>, committees: map<nat, set<AccountId>>,
        proofValid: bool, atts: seq<Attestation>, weight: nat) returns (r: Result)
      modifies this
      ensures epoch == if proofValid && commitmentEpoch > old(epoch) then commitmentEpoch else old(epoch)
      ensures known == if proofValid && commitmentEpoch > old(epoch) && latest.Some? then latest.value else old(known)
      ensures var seated := SeatedIssuers(known, committees, atts);
              && (r.Verified? <==> proofValid && InOrder(known, committees, atts) && |seated| <= weight)
              && (r.Verified? ==> r.seats == |seated| && r.blockIds == BlockIds(Counted(known, atts)))
              && (r == Failed(TooHeavy) <==> proofValid && InOrder(known, committees, atts) && |seated| > weight)
      ensures r == Failed(InvalidProof) <==> !proofValid
    {
      if !proofValid {
        return Failed(InvalidProof);
      }
      if commitmentEpoch > epoch {
        epoch := commitmentEpoch;
        if latest.Some? {
          known := latest.value;
        }
      }
      ghost var at;
      r, at := VerifyAttestations(known, committees, atts);
      if r.Verified? && r.seats > weight {
        return Failed(TooHeavy);
      }
    }
  }
}

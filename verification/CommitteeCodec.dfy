/**
 The byte form of pools, accounts and committees: `Pool.Bytes`,
 `Accounts.Bytes`, `SeatedAccounts.Bytes` and the readers that invert them.
 */
module CommitteeCodec {
  import opened Accounts
  import opened CommitteeSeats
  import opened ByteCodec

  // ----- formats

  /** The IDs of a map in some order. */
  ghost predicate Enumerates(order: seq<AccountId>, ids: set<AccountId>) {
    && (forall id :: id in order <==> id in ids)
    && (forall i, j | 0 <= i < j < |order| :: order[i] != order[j])
  }

  function EncodePool(p: Pool): (b: seq<byte>)
    ensures |b| == 24
  {
    LittleEndian(p.poolStake, 8) + LittleEndian(p.validatorStake, 8) + LittleEndian(p.fixedCost, 8)
  }

  function EncodePools(order: seq<AccountId>, pools: Pools): (b: seq<byte>)
    requires forall id | id in order :: id in pools
  {
    if order == [] then []
    else BigEndian(order[0], 32) + EncodePool(pools[order[0]]) + EncodePools(order[1..], pools)
  }

  function EncodeSeats(order: seq<AccountId>, seats: map<AccountId, SeatIndex>): (b: seq<byte>)
    requires forall id | id in order :: id in seats
  {
    if order == [] then []
    else BigEndian(order[0], 32) + [seats[order[0]]] + EncodeSeats(order[1..], seats)
  }

  function EncodeAccounts(order: seq<AccountId>, pools: Pools): (b: seq<byte>)
    requires forall id | id in order :: id in pools
  {
    LittleEndian(|order|, 4) + EncodePools(order, pools)
  }

  function EncodeCommittee(
    order: seq<AccountId>, pools: Pools, seatOrder: seq<AccountId>, seats: map<AccountId, SeatIndex>, reused: bool): (b: seq<byte>)
    requires (forall id | id in order :: id in pools) && (forall id | id in seatOrder :: id in seats)
  {
    EncodeAccounts(order, pools)
    + LittleEndian(|seatOrder|, 4) + EncodeSeats(seatOrder, seats)
    + [if reused then 1 else 0]
  }

  // ----- parsing

  function ParseUint(b: seq<byte>, k: nat): (r: Parsed<nat>) {
    if |b| < k then Bad else Good(FromLittleEndian(b[..k]), b[k..])
  }

  function ParseUint64(b: seq<byte>): (r: Parsed<uint64>) {
    if |b| < 8 then Bad
    else
      FromLittleEndianBound(b[..8]);
      PowersOf256();
      Good(FromLittleEndian(b[..8]), b[8..])
  }

  function ParseId(b: seq<byte>): (r: Parsed<AccountId>) {
    if |b| < 32 then Bad
    else
      FromBigEndianBound(b[..32]);
      PowersOf256();
      Good(FromBigEndian(b[..32]), b[32..])
  }

  function ParsePool(b: seq<byte>): (r: Parsed<Pool>) {
    match ParseUint64(b)
    case Bad => Bad
    case Good(stake, b1) =>
      match ParseUint64(b1)
      case Bad => Bad
      case Good(validatorStake, b2) =>
        match ParseUint64(b2)
        case Bad => Bad
        case Good(cost, b3) => Good(Pool(stake, validatorStake, cost), b3)
  }

  function ParsePools(b: seq<byte>, n: nat): (r: Parsed<seq<(AccountId, Pool)>>)
    decreases n
  {
    if n == 0 then Good([], b)
    else
      match ParseId(b)
      case Bad => Bad
      case Good(id, b1) =>
        match ParsePool(b1)
        case Bad => Bad
        case Good(pool, b2) =>
          match ParsePools(b2, n - 1)
          case Bad => Bad
          case Good(entries, b3) => Good([(id, pool)] + entries, b3)
  }

  function ParseSeats(b: seq<byte>, n: nat): (r: Parsed<seq<(AccountId, SeatIndex)>>)
    decreases n
  {
    if n == 0 then Good([], b)
    else
      match ParseId(b)
      case Bad => Bad
      case Good(id, b1) =>
        if b1 == [] then Bad
        else
          match ParseSeats(b1[1..], n - 1)
          case Bad => Bad
          case Good(entries, b3) => Good([(id, b1[0])] + entries, b3)
  }

  // ----- round trips of the parts

  lemma Uint64RoundTrip(n: uint64, rest: seq<byte>)
    ensures ParseUint64(LittleEndian(n, 8) + rest) == Good(n, rest)
  {
    PowersOf256();
    LittleEndianRoundTrip(n, 8);
    assert (LittleEndian(n, 8) + rest)[..8] == LittleEndian(n, 8);
    assert (LittleEndian(n, 8) + rest)[8..] == rest;
  }

  lemma CountRoundTrip(n: nat, rest: seq<byte>)
    requires n < 0x1_0000_0000
    ensures ParseUint(LittleEndian(n, 4) + rest, 4) == Good(n, rest)
  {
    PowersOf256();
    LittleEndianRoundTrip(n, 4);
    assert (LittleEndian(n, 4) + rest)[..4] == LittleEndian(n, 4);
    assert (LittleEndian(n, 4) + rest)[4..] == rest;
  }

  lemma IdRoundTrip(id: AccountId, rest: seq<byte>)
    ensures ParseId(BigEndian(id, 32) + rest) == Good(id, rest)
  {
    PowersOf256();
    BigEndianRoundTrip(id, 32);
    assert (BigEndian(id, 32) + rest)[..32] == BigEndian(id, 32);
    assert (BigEndian(id, 32) + rest)[32..] == rest;
  }

  lemma PoolRoundTrip(p: Pool, rest: seq<byte>)
    ensures ParsePool(EncodePool(p) + rest) == Good(p, rest)
  {
    var a, b, c := LittleEndian(p.poolStake, 8), LittleEndian(p.validatorStake, 8), LittleEndian(p.fixedCost, 8);
    assert a + b + c + rest == a + (b + (c + rest));
    Uint64RoundTrip(p.poolStake, b + (c + rest));
    Uint64RoundTrip(p.validatorStake, c + rest);
    Uint64RoundTrip(p.fixedCost, rest);
  }

  /** The entries of a map, in the given order. */
  function Entries<V>(order: seq<AccountId>, m: map<AccountId, V>): (r: seq<(AccountId, V)>)
    requires forall id | id in order :: id in m
    ensures |r| == |order| && forall i | 0 <= i < |r| :: r[i] == (order[i], m[order[i]])
  {
    if order == [] then [] else [(order[0], m[order[0]])] + Entries(order[1..], m)
  }

  lemma {:induction false} PoolsRoundTrip(order: seq<AccountId>, pools: Pools, rest: seq<byte>)
    requires forall id | id in order :: id in pools
    ensures ParsePools(EncodePools(order, pools) + rest, |order|) == Good(Entries(order, pools), rest)
    decreases |order|
  {
    if order != [] {
      var id, tail := order[0], EncodePools(order[1..], pools) + rest;
      assert EncodePools(order, pools) + rest == BigEndian(id, 32) + (EncodePool(pools[id]) + tail);
      IdRoundTrip(id, EncodePool(pools[id]) + tail);
      PoolRoundTrip(pools[id], tail);
      PoolsRoundTrip(order[1..], pools, rest);
    } else {
      assert EncodePools(order, pools) + rest == rest;
    }
  }

  lemma {:induction false} SeatsRoundTrip(order: seq<AccountId>, seats: map<AccountId, SeatIndex>, rest: seq<byte>)
    requires forall id | id in order :: id in seats
    ensures ParseSeats(EncodeSeats(order, seats) + rest, |order|) == Good(Entries(order, seats), rest)
    decreases |order|
  {
    if order != [] {
      var id, tail := order[0], EncodeSeats(order[1..], seats) + rest;
      assert EncodeSeats(order, seats) + rest == BigEndian(id, 32) + ([seats[id]] + tail);
      IdRoundTrip(id, [seats[id]] + tail);
      SeatsRoundTrip(order[1..], seats, rest);
      assert ([seats[id]] + tail)[1..] == tail;
    } else {
      assert EncodeSeats(order, seats) + rest == rest;
    }
  }

  // ----- the layout

  /** A pool is its stake, the stake of the validator and the fixed cost. */
  lemma PoolLayout(p: Pool)
    ensures EncodePool(p)[..8] == LittleEndian(p.poolStake, 8)
    ensures EncodePool(p)[8..16] == LittleEndian(p.validatorStake, 8)
    ensures EncodePool(p)[16..] == LittleEndian(p.fixedCost, 8)
  {
  }

  /** Pools are listed in order, each as 32 bytes of the ID and 24 bytes of the pool. */
  lemma {:induction false} PoolsLayout(order: seq<AccountId>, pools: Pools, i: nat)
    requires (forall id | id in order :: id in pools) && i < |order|
    ensures |EncodePools(order, pools)| == 56 * |order|
    ensures EncodePools(order, pools)[56 * i..56 * i + 32] == BigEndian(order[i], 32)
    ensures EncodePools(order, pools)[56 * i + 32..56 * i + 56] == EncodePool(pools[order[i]])
    decreases |order|
  {
    hide BigEndian, EncodePool;
    var head, tail := BigEndian(order[0], 32) + EncodePool(pools[order[0]]), EncodePools(order[1..], pools);
    assert EncodePools(order, pools) == head + tail && |head| == 56;
    if |order| > 1 {
      PoolsLayout(order[1..], pools, if i > 0 then i - 1 else 0);
    }
    if i > 0 {
      assert (head + tail)[56 * i..56 * i + 32] == tail[56 * (i - 1)..56 * (i - 1) + 32];
      assert (head + tail)[56 * i + 32..56 * i + 56] == tail[56 * (i - 1) + 32..56 * (i - 1) + 56];
    }
  }

  /** Seats are listed in order, each as 32 bytes of the ID and one of the seat. */
  lemma {:induction false} SeatsLayout(order: seq<AccountId>, seats: map<AccountId, SeatIndex>, i: nat)
    requires (forall id | id in order :: id in seats) && i < |order|
    ensures |EncodeSeats(order, seats)| == 33 * |order|
    ensures EncodeSeats(order, seats)[33 * i..33 * i + 32] == BigEndian(order[i], 32)
    ensures EncodeSeats(order, seats)[33 * i + 32] == seats[order[i]]
    decreases |order|
  {
    hide BigEndian;
    var head, tail := BigEndian(order[0], 32) + [seats[order[0]]], EncodeSeats(order[1..], seats);
    assert EncodeSeats(order, seats) == head + tail && |head| == 33;
    if |order| > 1 {
      SeatsLayout(order[1..], seats, if i > 0 then i - 1 else 0);
    }
    if i > 0 {
      assert (head + tail)[33 * i..33 * i + 32] == tail[33 * (i - 1)..33 * (i - 1) + 32];
    }
  }

  lemma PartLengths(order: seq<AccountId>, pools: Pools, seatOrder: seq<AccountId>, seats: map<AccountId, SeatIndex>)
    requires (forall id | id in order :: id in pools) && (forall id | id in seatOrder :: id in seats)
    ensures |EncodePools(order, pools)| == 56 * |order| && |EncodeSeats(seatOrder, seats)| == 33 * |seatOrder|
  {
    if order != [] {
      PoolsLayout(order, pools, 0);
    }
    if seatOrder != [] {
      SeatsLayout(seatOrder, seats, 0);
    }
  }

  /** A committee is the number of pools, the pools, the number of seats, the seats and the reuse flag. */
  lemma CommitteeLayout(
    order: seq<AccountId>, pools: Pools, seatOrder: seq<AccountId>, seats: map<AccountId, SeatIndex>, reused: bool)
    requires (forall id | id in order :: id in pools) && (forall id | id in seatOrder :: id in seats)
    ensures var b, n, m := EncodeCommittee(order, pools, seatOrder, seats, reused), 56 * |order|, 33 * |seatOrder|;
            && |b| == n + m + 9
            && b[..4] == LittleEndian(|order|, 4) && b[4..n + 4] == EncodePools(order, pools)
            && b[n + 4..n + 8] == LittleEndian(|seatOrder|, 4) && b[n + 8..n + m + 8] == EncodeSeats(seatOrder, seats)
            && b[n + m + 8] == if reused then 1 else 0
  {
    hide EncodePools, EncodeSeats, LittleEndian;
    PartLengths(order, pools, seatOrder, seats);
  }

  /** A list of pools parses if and only if there are enough bytes, and what follows it is left. */
  lemma {:induction false} PoolsParse(b: seq<byte>, n: nat)
    ensures ParsePools(b, n).Good? <==> |b| >= 56 * n
    ensures ParsePools(b, n).Good? ==> |ParsePools(b, n).value| == n && ParsePools(b, n).rest == b[56 * n..]
    decreases n
  {
    if n > 0 && |b| >= 56 {
      PoolParses(b[32..]);
      PoolsParse(b[56..], n - 1);
    } else if n > 0 && |b| >= 32 {
      PoolParses(b[32..]);
    }
  }

  lemma PoolParses(b: seq<byte>)
    ensures ParsePool(b).Good? <==> |b| >= 24
    ensures ParsePool(b).Good? ==> ParsePool(b).rest == b[24..]
  {
  }

  lemma {:induction false} SeatsParse(b: seq<byte>, n: nat)
    ensures ParseSeats(b, n).Good? <==> |b| >= 33 * n
    ensures ParseSeats(b, n).Good? ==> |ParseSeats(b, n).value| == n && ParseSeats(b, n).rest == b[33 * n..]
    decreases n
  {
    if n > 0 && |b| >= 33 {
      assert b[32..][1..] == b[33..];
      SeatsParse(b[33..], n - 1);
    }
  }

  // ----- collecting entries

  /** The map that results from setting entry after entry. */
  function Collect<V>(entries: seq<(AccountId, V)>): (m: map<AccountId, V>) {
    if entries == [] then map[]
    else Collect(entries[..|entries| - 1])[entries[|entries| - 1].0 := entries[|entries| - 1].1]
  }

  /** Collecting the entries of a map, in any order, gives the map back. */
  lemma {:induction false} CollectEntries<V>(order: seq<AccountId>, m: map<AccountId, V>, entries: seq<(AccountId, V)>)
    requires |entries| == |order|
    requires forall i | 0 <= i < |order| :: order[i] in m && entries[i] == (order[i], m[order[i]])
    ensures forall id :: id in Collect(entries) <==> id in order
    ensures forall id | id in Collect(entries) :: id in m && Collect(entries)[id] == m[id]
    decreases |order|
  {
    if order != [] {
      var k := |order| - 1;
      CollectEntries(order[..k], m, entries[..k]);
      assert forall id :: id in order <==> id in order[..k] || id == order[k];
    }
  }

  lemma CollectAll<V>(order: seq<AccountId>, m: map<AccountId, V>, entries: seq<(AccountId, V)>)
    requires |entries| == |order| && (forall id :: id in order <==> id in m.Keys)
    requires forall i | 0 <= i < |order| :: order[i] in m && entries[i] == (order[i], m[order[i]])
    ensures Collect(entries) == m
  {
    hide Collect;
    CollectEntries(order, m, entries);
  }

  lemma CollectPrefix<V>(order: seq<AccountId>, m: map<AccountId, V>, entries: seq<(AccountId, V)>, k: nat)
    requires |entries| == |order| && k <= |order|
    requires forall i | 0 <= i < |order| :: order[i] in m && entries[i] == (order[i], m[order[i]])
    ensures Collect(entries[..k]).Keys <= m.Keys
    ensures forall id | id in Collect(entries[..k]) :: Collect(entries[..k])[id] == m[id]
  {
    hide Collect;
    CollectEntries(order[..k], m, entries[..k]);
  }

  lemma EnumeratesNext(order: seq<AccountId>, done: set<AccountId>, id: AccountId)
    requires Enumerates(order, done) && id !in done
    ensures Enumerates(order + [id], done + {id})
  {
  }

  lemma {:induction false} EnumeratesSize(order: seq<AccountId>, ids: set<AccountId>)
    requires Enumerates(order, ids)
    ensures |order| == |ids|
    decreases |order|
  {
    if order == [] {
      assert ids == {};
    } else {
      var last, init := order[|order| - 1], order[..|order| - 1];
      assert order == init + [last];
      assert forall id :: id in init <==> id in ids - {last};
      EnumeratesSize(init, ids - {last});
    }
  }
}

/**
 Reading and writing committees step by step, as `AccountsFromReader`,
 `SeatedAccountsFromReader` and the `Bytes` methods do.
 */
module CommitteeStream {
  import opened Accounts
  import opened CommitteeSeats
  import opened ByteCodec
  import opened CommitteeCodec

  const MAX: nat := 0x1_0000_0000_0000_0000

  class ByteReader {
    var rest: seq<byte>

    constructor (data: seq<byte>)
      ensures rest == data
    {
      rest := data;
    }
  }

  function ParseAccounts(b: seq<byte>): (r: Parsed<seq<(AccountId, Pool)>>) {
    match ParseUint(b, 4)
    case Bad => Bad
    case Good(n, b1) => ParsePools(b1, n)
  }

  datatype CommitteeData = CommitteeData(pools: seq<(AccountId, Pool)>, seats: seq<(AccountId, SeatIndex)>, reused: bool)

  function ParseCommittee(b: seq<byte>): (r: Parsed<CommitteeData>) {
    match ParseAccounts(b)
    case Bad => Bad
    case Good(pools, b1) =>
      match ParseUint(b1, 4)
      case Bad => Bad
      case Good(n, b2) =>
        match ParseSeats(b2, n)
        case Bad => Bad
        case Good(seats, b3) =>
          if b3 == [] then Bad else Good(CommitteeData(pools, seats, b3[0] != 0), b3[1..])
  }

  /** No total overflows while the entries are set one after the other. */
  ghost predicate NoOverflow(entries: seq<(AccountId, Pool)>) {
    forall k | 0 <= k <= |entries| ::
      SumStake(Collect(entries[..k])) < MAX && SumValidatorStake(Collect(entries[..k])) < MAX
  }

  // ----- reading

  /** Entries that were read already, put in front of the ones still to be read. */
  function Prepend<T>(read: seq<T>, p: Parsed<seq<T>>): (r: Parsed<seq<T>>) {
    match p
    case Bad => Bad
    case Good(more, rest) => Good(read + more, rest)
  }

  lemma PrependNext<T>(read: seq<T>, e: T, p: Parsed<seq<T>>)
    ensures Prepend(read, Prepend([e], p)) == Prepend(read + [e], p)
  {
    if p.Good? {
      assert read + ([e] + p.value) == read + [e] + p.value;
    }
  }

  lemma PrependNothing<T>(p: Parsed<seq<T>>)
    ensures Prepend([], p) == p
  {
    if p.Good? {
      assert [] + p.value == p.value;
    }
  }

  lemma OverflowFound(read: seq<(AccountId, Pool)>, e: (AccountId, Pool), p: Parsed<seq<(AccountId, Pool)>>)
    requires !(SumStake(Collect(read + [e])) < MAX && SumValidatorStake(Collect(read + [e])) < MAX)
    ensures Prepend(read + [e], p).Good? ==> !NoOverflow(Prepend(read + [e], p).value)
  {
    if p.Good? {
      assert (read + [e] + p.value)[..|read| + 1] == read + [e];
    }
  }

  lemma OneMore(read: seq<(AccountId, Pool)>, e: (AccountId, Pool))
    requires NoOverflow(read)
    requires SumStake(Collect(read + [e])) < MAX && SumValidatorStake(Collect(read + [e])) < MAX
    ensures NoOverflow(read + [e])
  {
    var all := read + [e];
    forall k | 0 <= k <= |all|
      ensures SumStake(Collect(all[..k])) < MAX && SumValidatorStake(Collect(all[..k])) < MAX
    {
      if k <= |read| {
        assert all[..k] == read[..k];
      } else {
        assert all[..k] == all;
      }
    }
  }

  /** `AccountsFromReader`: every entry goes through `Set`, which keeps the totals. */
  method ReadAccounts(reader: ByteReader) returns (accounts: Accounts, ok: bool)
    modifies reader
    ensures fresh(accounts)
    ensures ok <==> ParseAccounts(old(reader.rest)).Good? && NoOverflow(ParseAccounts(old(reader.rest)).value)
    ensures ok ==> accounts.Valid() && accounts.pools == Collect(ParseAccounts(old(reader.rest)).value)
    ensures ok ==> reader.rest == ParseAccounts(old(reader.rest)).rest
  {
    hide NoOverflow, ParseUint, ParseId, ParsePool, SumStake, SumValidatorStake;
    accounts := new Accounts();
    var count := ParseUint(reader.rest, 4);
    if count.Bad? {
      return accounts, false;
    }
    reader.rest := count.rest;
    ghost var read: seq<(AccountId, Pool)>, whole := [], ParsePools(count.rest, count.value);
    PrependNothing(whole);
    assert NoOverflow([]) by { NothingOverflows(); }
    var i := 0;
    while i < count.value
      invariant 0 <= i <= count.value && fresh(accounts) && accounts.Valid()
      invariant accounts.pools == Collect(read) && NoOverflow(read)
      invariant whole == Prepend(read, ParsePools(reader.rest, count.value - i))
    {
      var id := ParseId(reader.rest);
      if id.Bad? {
        return accounts, false;
      }
      var pool := ParsePool(id.rest);
      if pool.Bad? {
        return accounts, false;
      }
      ghost var e := (id.value, pool.value);
      assert ParsePools(reader.rest, count.value - i) == Prepend([e], ParsePools(pool.rest, count.value - i - 1));
      PrependNext(read, e, ParsePools(pool.rest, count.value - i - 1));
      assert (read + [e])[..|read|] == read;
      reader.rest := pool.rest;
      var r := accounts.Set(id.value, pool.value);
      if r != Ok {
        OverflowFound(read, e, ParsePools(pool.rest, count.value - i - 1));
        return accounts, false;
      }
      OneMore(read, e);
      read := read + [e];
      i := i + 1;
    }
    assert whole == Good(read, reader.rest) by { assert read + [] == read; }
    return accounts, true;
  }

  lemma NothingOverflows()
    ensures NoOverflow([])
  {
  }

  /** The seats that follow the accounts; a repeated account takes the last seat read. */
  method ReadSeats(reader: ByteReader) returns (seats: map<AccountId, SeatIndex>, ok: bool)
    modifies reader
    ensures ok <==> ParseUint(old(reader.rest), 4).Good?
                    && ParseSeats(ParseUint(old(reader.rest), 4).rest, ParseUint(old(reader.rest), 4).value).Good?
    ensures ok ==>
              var p := ParseSeats(ParseUint(old(reader.rest), 4).rest, ParseUint(old(reader.rest), 4).value);
              seats == Collect(p.value) && reader.rest == p.rest
  {
    seats := map[];
    var count := ParseUint(reader.rest, 4);
    if count.Bad? {
      return seats, false;
    }
    reader.rest := count.rest;
    ghost var read: seq<(AccountId, SeatIndex)>, whole := [], ParseSeats(count.rest, count.value);
    PrependNothing(whole);
    var i := 0;
    while i < count.value
      invariant 0 <= i <= count.value && seats == Collect(read)
      invariant whole == Prepend(read, ParseSeats(reader.rest, count.value - i))
    {
      var id := ParseId(reader.rest);
      if id.Bad? || id.rest == [] {
        return seats, false;
      }
      ghost var e := (id.value, id.rest[0]);
      assert ParseSeats(reader.rest, count.value - i) == Prepend([e], ParseSeats(id.rest[1..], count.value - i - 1));
      PrependNext(read, e, ParseSeats(id.rest[1..], count.value - i - 1));
      assert (read + [e])[..|read|] == read;
      reader.rest := id.rest[1..];
      seats := seats[id.value := id.rest[0]];
      read := read + [e];
      i := i + 1;
    }
    assert whole == Good(read, reader.rest) by { assert read + [] == read; }
    return seats, true;
  }

  /** `SeatedAccountsFromReader`. */
  method ReadCommittee(reader: ByteReader) returns (committee: SeatedAccounts, ok: bool)
    modifies reader
    ensures fresh(committee) && fresh(committee.accounts)
    ensures ok <==> ParseCommittee(old(reader.rest)).Good? && NoOverflow(ParseCommittee(old(reader.rest)).value.pools)
    ensures ok ==>
              var d := ParseCommittee(old(reader.rest)).value;
              && committee.accounts.Valid() && committee.accounts.pools == Collect(d.pools)
              && committee.seats == Collect(d.seats) && committee.reused == d.reused
    ensures ok ==> reader.rest == ParseCommittee(old(reader.rest)).rest
  {
    hide NoOverflow, ParsePools, ParseSeats, ParseUint, Collect;
    var accounts, accountsOk := ReadAccounts(reader);
    committee := new SeatedAccounts(accounts);
    if !accountsOk {
      return committee, false;
    }
    var seats, seatsOk := ReadSeats(reader);
    if !seatsOk || reader.rest == [] {
      return committee, false;
    }
    committee.seats := seats;
    committee.reused := reader.rest[0] != 0;
    reader.rest := reader.rest[1..];
    return committee, true;
  }

  // ----- writing

  lemma {:induction false} EncodePoolsNext(order: seq<AccountId>, pools: Pools, id: AccountId)
    requires (forall o | o in order :: o in pools) && id in pools
    ensures EncodePools(order + [id], pools) == EncodePools(order, pools) + BigEndian(id, 32) + EncodePool(pools[id])
    decreases |order|
  {
    hide BigEndian, EncodePool;
    if order == [] {
      assert (order + [id])[1..] == [];
    } else {
      EncodePoolsNext(order[1..], pools, id);
      assert (order + [id])[1..] == order[1..] + [id];
    }
  }

  lemma {:induction false} EncodeSeatsNext(order: seq<AccountId>, seats: map<AccountId, SeatIndex>, id: AccountId)
    requires (forall o | o in order :: o in seats) && id in seats
    ensures EncodeSeats(order + [id], seats) == EncodeSeats(order, seats) + BigEndian(id, 32) + [seats[id]]
    decreases |order|
  {
    hide BigEndian;
    if order == [] {
      assert (order + [id])[1..] == [];
    } else {
      EncodeSeatsNext(order[1..], seats, id);
      assert (order + [id])[1..] == order[1..] + [id];
    }
  }

  lemma EncodeNothing(pools: Pools, seats: map<AccountId, SeatIndex>)
    ensures EncodePools([], pools) == [] && EncodeSeats([], seats) == []
  {
  }

  /** `Accounts.Bytes`, in whatever order the map is walked; the count goes in front. */
  method WriteAccounts(accounts: Accounts) returns (b: seq<byte>)
    ensures exists order :: Enumerates(order, accounts.pools.Keys) && b == EncodeAccounts(order, accounts.pools)
  {
    hide EncodePools, EncodePool, BigEndian, LittleEndian;
    ghost var order := [];
    b := [];
    assert b == EncodePools(order, accounts.pools) by { EncodeNothing(accounts.pools, map[]); }
    var rest, count := accounts.pools.Keys, 0;
    while rest != {}
      invariant rest <= accounts.pools.Keys && Enumerates(order, accounts.pools.Keys - rest) && count == |order|
      invariant b == EncodePools(order, accounts.pools)
      decreases rest
    {
      var id :| id in rest;
      EncodePoolsNext(order, accounts.pools, id);
      EnumeratesNext(order, accounts.pools.Keys - rest, id);
      assert accounts.pools.Keys - rest + {id} == accounts.pools.Keys - (rest - {id});
      b := b + BigEndian(id, 32) + EncodePool(accounts.pools[id]);
      order := order + [id];
      rest := rest - {id};
      count := count + 1;
    }
    b := LittleEndian(count, 4) + b;
    assert accounts.pools.Keys - rest == accounts.pools.Keys;
    assert Enumerates(order, accounts.pools.Keys) && b == EncodeAccounts(order, accounts.pools);
  }

  /** `SeatedAccounts.Bytes`. */
  method WriteCommittee(committee: SeatedAccounts) returns (b: seq<byte>)
    ensures exists order, seatOrder ::
              && Enumerates(order, committee.accounts.pools.Keys) && Enumerates(seatOrder, committee.seats.Keys)
              && b == EncodeCommittee(order, committee.accounts.pools, seatOrder, committee.seats, committee.reused)
  {
    hide EncodeSeats, EncodePools, EncodePool, BigEndian, LittleEndian;
    b := WriteAccounts(committee.accounts);
    ghost var order :|
      Enumerates(order, committee.accounts.pools.Keys) && b == EncodeAccounts(order, committee.accounts.pools);
    ghost var seatOrder := [];
    EncodeNothing(committee.accounts.pools, committee.seats);
    var entries: seq<byte>, rest, count := [], committee.seats.Keys, 0;
    while rest != {}
      invariant rest <= committee.seats.Keys && Enumerates(seatOrder, committee.seats.Keys - rest) && count == |seatOrder|
      invariant entries == EncodeSeats(seatOrder, committee.seats)
      decreases rest
    {
      var id :| id in rest;
      EncodeSeatsNext(seatOrder, committee.seats, id);
      EnumeratesNext(seatOrder, committee.seats.Keys - rest, id);
      assert committee.seats.Keys - rest + {id} == committee.seats.Keys - (rest - {id});
      entries := entries + BigEndian(id, 32) + [committee.seats[id]];
      seatOrder := seatOrder + [id];
      rest := rest - {id};
      count := count + 1;
    }
    b := b + LittleEndian(count, 4) + entries;
    b := b + [if committee.reused then 1 else 0];
    assert committee.seats.Keys - rest == committee.seats.Keys;
    assert Enumerates(seatOrder, committee.seats.Keys)
           && b == EncodeCommittee(order, committee.accounts.pools, seatOrder, committee.seats, committee.reused);
  }

  // ----- the round trip

  /** Entries of distinct accounts never add up to more than the whole map does. */
  lemma {:induction false} EntriesNoOverflow(order: seq<AccountId>, pools: Pools)
    requires Enumerates(order, pools.Keys) && SumStake(pools) < MAX && SumValidatorStake(pools) < MAX
    ensures NoOverflow(Entries(order, pools)) && Collect(Entries(order, pools)) == pools
  {
    hide Collect, Entries, SumStake, SumValidatorStake;
    var entries := Entries(order, pools);
    forall k | 0 <= k <= |entries|
      ensures SumStake(Collect(entries[..k])) < MAX && SumValidatorStake(Collect(entries[..k])) < MAX
    {
      CollectPrefix(order, pools, entries, k);
      SumsOfPart(Collect(entries[..k]), pools);
    }
    CollectAll(order, pools, entries);
  }

  /**
   Whatever order the maps were written in, reading gives back the same pools,
   seats and reused flag, totals that fit, and the bytes that followed.
   */
  lemma CommitteeRoundTrip(
    order: seq<AccountId>, pools: Pools, seatOrder: seq<AccountId>, seats: map<AccountId, SeatIndex>, reused: bool,
    tail: seq<byte>)
    requires Enumerates(order, pools.Keys) && Enumerates(seatOrder, seats.Keys)
    requires SumStake(pools) < MAX && SumValidatorStake(pools) < MAX
    requires |order| < 0x1_0000_0000 && |seatOrder| < 0x1_0000_0000
    ensures var p := ParseCommittee(EncodeCommittee(order, pools, seatOrder, seats, reused) + tail);
            && p.Good? && p.rest == tail
            && NoOverflow(p.value.pools) && Collect(p.value.pools) == pools
            && Collect(p.value.seats) == seats && p.value.reused == reused
  {
    hide NoOverflow, EncodePools, EncodeSeats, ParsePools, ParseSeats, ParseUint, LittleEndian, Collect, Entries, SumStake,
         SumValidatorStake;
    var flag: seq<byte> := [if reused then 1 else 0];
    var n, m := LittleEndian(|order|, 4), LittleEndian(|seatOrder|, 4);
    var e, f := EncodePools(order, pools), EncodeSeats(seatOrder, seats);
    assert EncodeCommittee(order, pools, seatOrder, seats, reused) + tail == n + (e + (m + (f + (flag + tail))));
    CountRoundTrip(|order|, e + (m + (f + (flag + tail))));
    PoolsRoundTrip(order, pools, m + (f + (flag + tail)));
    CountRoundTrip(|seatOrder|, f + (flag + tail));
    SeatsRoundTrip(seatOrder, seats, flag + tail);
    assert (flag + tail)[1..] == tail;
    EntriesNoOverflow(order, pools);
    CollectSeats(seatOrder, seats);
  }

  lemma CollectSeats(order: seq<AccountId>, seats: map<AccountId, SeatIndex>)
    requires Enumerates(order, seats.Keys)
    ensures Collect(Entries(order, seats)) == seats
  {
    hide Collect, Entries;
    CollectAll(order, seats, Entries(order, seats));
  }

  /** Writing a committee and reading the bytes back gives a committee with the same contents. */
  method CopyCommittee(committee: SeatedAccounts) returns (copy: SeatedAccounts, ok: bool)
    requires committee.accounts.Valid()
    requires |committee.accounts.pools| < 0x1_0000_0000 && |committee.seats| < 0x1_0000_0000
    ensures ok && copy.accounts.Valid() && copy.accounts.pools == committee.accounts.pools
    ensures copy.seats == committee.seats && copy.reused == committee.reused
  {
    hide EncodeCommittee, ParseCommittee, NoOverflow, Collect;
    var b := WriteCommittee(committee);
    ghost var order, seatOrder :|
      && Enumerates(order, committee.accounts.pools.Keys) && Enumerates(seatOrder, committee.seats.Keys)
      && b == EncodeCommittee(order, committee.accounts.pools, seatOrder, committee.seats, committee.reused);
    EnumeratesSize(order, committee.accounts.pools.Keys);
    EnumeratesSize(seatOrder, committee.seats.Keys);
    CommitteeRoundTrip(order, committee.accounts.pools, seatOrder, committee.seats, committee.reused, []);
    assert b + [] == b;
    var reader := new ByteReader(b);
    copy, ok := ReadCommittee(reader);
  }
}

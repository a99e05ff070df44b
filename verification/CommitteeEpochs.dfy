/**
 Committees over many epochs: the seat assignment is determined, members keep
 their seats for as long as they are re-elected, and reusing a committee keeps
 everything.
 */
module CommitteeEpochs {
  import opened Collections
  import opened Accounts
  import opened CommitteeSeats

  /** What a proper assignment promises determines it completely. */
  lemma {:induction false} ProperSeatsUnique(
    members: set<AccountId>, previous: map<AccountId, SeatIndex>,
    a: map<AccountId, SeatIndex>, b: map<AccountId, SeatIndex>, m: AccountId)
    requires ProperSeats(members, previous, a) && ProperSeats(members, previous, b) && m in members
    ensures a[m] == b[m]
    decreases m
  {
    if m !in previous {
      if a[m] < b[m] {
        NotBelow(members, previous, b, a, m);
      } else if b[m] < a[m] {
        NotBelow(members, previous, a, b, m);
      }
    }
  }

  /** If b gave m a lower seat than a, that seat would belong to a smaller member in both. */
  lemma {:induction false} NotBelow(
    members: set<AccountId>, previous: map<AccountId, SeatIndex>,
    a: map<AccountId, SeatIndex>, b: map<AccountId, SeatIndex>, m: AccountId)
    requires ProperSeats(members, previous, a) && ProperSeats(members, previous, b)
    requires m in members && m !in previous
    ensures a[m] <= b[m]
    decreases m, 0
  {
    if b[m] < a[m] {
      var o :| o in a && o !in previous && o < m && a[o] == b[m];
      ProperSeatsUnique(members, previous, a, b, o);
    }
  }

  // ----- runs over epochs

  datatype Election =
    | Elect(members: set<AccountId>)    // a new committee is seated
    | ReuseCommittee                    // the previous committee stays

  /** seats[0] is the committee before the first epoch; every epoch elects up to 256 members or reuses. */
  ghost predicate IsHistory(seats: seq<map<AccountId, SeatIndex>>, elections: seq<Election>) {
    && |seats| == |elections| + 1
    && Injective(seats[0])
    && (forall i | 0 <= i < |elections| ::
          match elections[i]
          case Elect(members) => |members| <= 256 && Assigned(members, seats[i], seats[i + 1])
          case ReuseCommittee => seats[i + 1] == seats[i])
  }

  lemma KeptInjective(members: set<AccountId>, previous: map<AccountId, SeatIndex>)
    requires Injective(previous)
    ensures Injective(Kept(members, previous))
  {
  }

  /** In no epoch do two members share a seat, and every election is proper. */
  lemma {:induction false} NeverShared(seats: seq<map<AccountId, SeatIndex>>, elections: seq<Election>, i: nat)
    requires IsHistory(seats, elections) && i < |seats|
    ensures Injective(seats[i])
    ensures i > 0 && elections[i - 1].Elect? ==> ProperSeats(elections[i - 1].members, seats[i - 1], seats[i])
    decreases i
  {
    hide AllPlaced, Injective, ProperSeats, Kept;
    if i > 0 {
      NeverShared(seats, elections, i - 1);
      var e := elections[i - 1];
      if e.Elect? {
        KeptInjective(e.members, seats[i - 1]);
        ProperInjective(e.members, seats[i - 1], seats[i]);
      }
    }
  }

  lemma ProperInjective(members: set<AccountId>, previous: map<AccountId, SeatIndex>, seats: map<AccountId, SeatIndex>)
    ensures ProperSeats(members, previous, seats) ==> Injective(seats)
  {
  }

  /** Whoever is a member in every epoch from i to j has the same seat in i and in j. */
  lemma {:induction false} SeatKept(seats: seq<map<AccountId, SeatIndex>>, elections: seq<Election>, i: nat, j: nat, m: AccountId)
    requires IsHistory(seats, elections) && i <= j < |seats|
    requires forall k | i <= k <= j :: m in seats[k]
    ensures seats[j][m] == seats[i][m]
    decreases j
  {
    hide Injective, ProperSeats;
    if i < j {
      SeatKept(seats, elections, i, j - 1, m);
      var e := elections[j - 1];
      assert m in seats[j - 1] && m in seats[j];
    }
  }

  // ----- reusing a committee

  function Restrict(pools: Pools, ids: set<AccountId>): (r: Pools)
    requires ids <= pools.Keys
  {
    map id | id in ids :: pools[id]
  }

  /**
   `SeatedAccounts.Accounts`: rebuilding the accounts of the seated members.
   It can not overflow, because the pools it adds up were added up before.
   */
  method RebuildAccounts(s: SeatedAccounts) returns (accounts: Accounts, r: Outcome)
    requires s.accounts.Valid() && s.seats.Keys <= s.accounts.pools.Keys
    ensures r == Ok
    ensures fresh(accounts) && accounts.Valid() && accounts.pools == Restrict(s.accounts.pools, s.seats.Keys)
  {
    accounts := new Accounts();
    r := Ok;
    var rest := s.seats.Keys;
    while rest != {}
      invariant rest <= s.seats.Keys && r == Ok && fresh(accounts) && accounts.Valid()
      invariant accounts.pools == Restrict(s.accounts.pools, s.seats.Keys - rest)
      decreases rest
    {
      var id :| id in rest;
      r := accounts.Set(id, s.accounts.pools[id]);
      rest := rest - {id};
      assert accounts.pools == Restrict(s.accounts.pools, s.seats.Keys - rest);
      SumsOfPart(accounts.pools, s.accounts.pools);
    }
    assert s.seats.Keys - rest == s.seats.Keys;
  }

  /** `Reuse`: the same seats, for accounts that hold exactly the seated members. */
  method Reuse(s: SeatedAccounts) returns (committee: SeatedAccounts)
    requires s.accounts.Valid() && s.seats.Keys <= s.accounts.pools.Keys
    ensures fresh(committee) && committee.reused && committee.seats == s.seats
    ensures committee.accounts.Valid() && committee.accounts.pools == Restrict(s.accounts.pools, s.seats.Keys)
  {
    var accounts, r := RebuildAccounts(s);
    committee := new SeatedAccounts(accounts);
    committee.reused := true;
    var rest := s.seats.Keys;
    while rest != {}
      invariant rest <= s.seats.Keys && committee.accounts == accounts && committee.reused
      invariant accounts.Valid() && accounts.pools == Restrict(s.accounts.pools, s.seats.Keys)
      invariant committee.seats == map id | id in s.seats.Keys - rest :: s.seats[id]
      decreases rest
    {
      var id :| id in rest;
      var _ := committee.Set(s.seats[id], id);
      rest := rest - {id};
    }
  }

  // ----- the bound on the committee size

  /** With all 256 seats kept there is no free seat at which the search could end. */
  lemma FullCommittee(kept: map<AccountId, SeatIndex>)
    ensures |SeatsOf(kept)| < 256 <==> exists cursor: SeatIndex :: cursor !in SeatsOf(kept)
  {
    if |SeatsOf(kept)| < 256 {
      var cursor := FreeSeat(SeatsOf(kept));
    } else if cursor: SeatIndex :| cursor !in SeatsOf(kept) {
      SubsetSize(SeatsOf(kept) + {cursor}, Below(256));
    }
  }

  /** The accounts 0 to 255 on the seats 0 to 255. */
  function FullHouse(): (seats: map<AccountId, SeatIndex>)
    ensures forall id: AccountId :: id in seats <==> id < 256
    ensures forall id | id in seats :: seats[id] == id
  {
    map id: AccountId | id in Below(256) :: id
  }

  /** For example, when all of them are elected again. */
  lemma NoSeatFree(cursor: SeatIndex)
    ensures Injective(FullHouse()) && |SeatsOf(FullHouse())| == 256 && Kept(FullHouse().Keys, FullHouse()) == FullHouse()
    ensures cursor in SeatsOf(FullHouse())
  {
    hide FullHouse;
    forall seat: SeatIndex
      ensures seat in SeatsOf(FullHouse())
    {
      assert FullHouse()[seat] == seat;
    }
    FullCommittee(FullHouse());
    SubsetSize(SeatsOf(FullHouse()), Below(256));
  }
}

/**
 Seat assignment across epochs: `Accounts.SeatedAccounts`, and the class
 `account.SeatedAccounts` with `Set`, `Accounts` and `Reuse`.
 */
module CommitteeSeats {
  import opened Collections
  import opened Accounts

  type SeatIndex = n: nat | n < 256

  // ----- what a seat assignment must look like

  predicate Injective(seats: map<AccountId, SeatIndex>) {
    forall a, b | a in seats && b in seats && seats[a] == seats[b] :: a == b
  }

  /** The seats that re-elected members keep. */
  function Kept(members: set<AccountId>, previous: map<AccountId, SeatIndex>): (k: map<AccountId, SeatIndex>) {
    map id | id in members && id in previous :: previous[id]
  }

  function SeatsOf(seats: map<AccountId, SeatIndex>): (s: set<SeatIndex>) {
    set id | id in seats :: seats[id]
  }

  /** Below the seat of m everything is taken: kept by someone, or given to a fresh member with a smaller ID. */
  ghost predicate SmallestFree(
    taken: set<SeatIndex>, previous: map<AccountId, SeatIndex>, seats: map<AccountId, SeatIndex>, m: AccountId)
    requires m in seats
  {
    forall i: SeatIndex | i < seats[m] && i !in taken :: exists o :: o in seats && o !in previous && o < m && seats[o] == i
  }

  /**
   All members are seated, nobody shares a seat, re-elected members stay, and
   fresh ones take the smallest free seats in ID order.
   */
  ghost predicate ProperSeats(
    members: set<AccountId>, previous: map<AccountId, SeatIndex>, seats: map<AccountId, SeatIndex>)
  {
    var taken := SeatsOf(Kept(members, previous));
    && seats.Keys == members
    && Injective(seats)
    && (forall id | id in members && id in previous :: seats[id] == previous[id])
    && (forall m | m in members && m !in previous ::
          && seats[m] !in taken
          && SmallestFree(taken, previous, seats, m)
          && seats[m] < |members|)
    && (forall m, o | m in members && o in members && m !in previous && o !in previous && o < m ::
          seats[o] < seats[m])
  }

  // ----- sizes

  lemma {:induction false} SeatsOfSize(seats: map<AccountId, SeatIndex>)
    ensures |SeatsOf(seats)| <= |seats|
    decreases |seats|
  {
    if seats != map[] {
      var id :| id in seats;
      SeatsOfSize(seats - {id});
      var rest := seats - {id};
      assert forall o | o in seats && o != id :: o in rest && rest[o] == seats[o];
      assert SeatsOf(seats) <= SeatsOf(rest) + {seats[id]};
      assert SeatsOf(seats) == SeatsOf(rest) + {seats[id]};
    }
  }

  function Below(n: nat): (s: set<nat>)
    ensures forall i: nat :: i in s <==> i < n
    ensures |s| == n
  {
    if n == 0 then {} else Below(n - 1) + {n - 1}
  }

  // ----- sorting

  predicate Ascending(s: seq<AccountId>) {
    forall i, j | 0 <= i < j < |s| :: s[i] < s[j]
  }

  /** `sort.Slice` over the IDs of a committee. */
  method Sort(ids: set<AccountId>) returns (sorted: seq<AccountId>)
    ensures Ascending(sorted) && |sorted| == |ids| && forall id :: id in sorted <==> id in ids
  {
    sorted := [];
    var rest := ids;
    while rest != {}
      invariant rest <= ids && Ascending(sorted)
      invariant forall id :: id in sorted <==> id in ids && id !in rest
      invariant forall i, id | 0 <= i < |sorted| && id in rest :: sorted[i] < id
      invariant |sorted| + |rest| == |ids|
      decreases rest
    {
      var least := Least(rest);
      sorted := sorted + [least];
      rest := rest - {least};
    }
  }

  method Least(ids: set<AccountId>) returns (least: AccountId)
    requires ids != {}
    ensures least in ids && forall id | id in ids :: least <= id
  {
    least :| least in ids;
    var rest := ids - {least};
    while rest != {}
      invariant rest <= ids && least in ids && forall id | id in ids && id !in rest :: least <= id
      decreases rest
    {
      var id :| id in rest;
      if id < least {
        least := id;
      }
      rest := rest - {id};
    }
  }

  // ----- the loop over the sorted members

  /** Re-elected members and the fresh members in done are seated, apart and in ID order. */
  ghost predicate Handed(
    members: set<AccountId>, previous: map<AccountId, SeatIndex>, seats: map<AccountId, SeatIndex>, done: set<AccountId>)
  {
    && done <= members && done !! previous.Keys && seats.Keys == Kept(members, previous).Keys + done
    && Injective(seats)
    && (forall id | id in Kept(members, previous) :: seats[id] == previous[id])
    && (forall m, o | m in done && o in done && o < m :: seats[o] < seats[m])
  }

  /** The seats in done are the smallest free ones, and everything below cursor is taken. */
  ghost predicate Packed(
    taken: set<SeatIndex>, previous: map<AccountId, SeatIndex>, seats: map<AccountId, SeatIndex>,
    done: set<AccountId>, cursor: nat, size: nat)
  {
    && done <= seats.Keys
    && (forall m | m in done ::
          seats[m] !in taken && SmallestFree(taken, previous, seats, m) && seats[m] < size && seats[m] < cursor)
    && (forall i: SeatIndex | i < cursor && i !in taken :: exists o :: o in done && seats[o] == i)
  }

  /** Where the assignment stands. */
  ghost predicate Progress(
    members: set<AccountId>, previous: map<AccountId, SeatIndex>, seats: map<AccountId, SeatIndex>,
    done: set<AccountId>, cursor: nat)
  {
    && Handed(members, previous, seats, done)
    && Packed(SeatsOf(Kept(members, previous)), previous, seats, done, cursor, |members|)
  }

  /** The cursor never passes the number of seats handed out. */
  lemma CursorWithin(
    members: set<AccountId>, previous: map<AccountId, SeatIndex>, seats: map<AccountId, SeatIndex>,
    done: set<AccountId>, cursor: nat)
    requires Progress(members, previous, seats, done, cursor) && cursor <= 256
    ensures cursor <= |seats| <= |members|
  {
    forall i: nat | i < cursor
      ensures i in SeatsOf(seats)
    {
      var seat: SeatIndex := i;
      var kept := Kept(members, previous);
      if seat in SeatsOf(kept) {
        var id :| id in kept && kept[id] == seat;
        assert seats[id] == seat;
      }
    }
    SubsetSize(Below(cursor), SeatsOf(seats));
    SeatsOfSize(seats);
    assert |seats| == |seats.Keys|;
    SubsetSize(seats.Keys, members);
  }

  /** Skipping a taken seat. */
  lemma SkipSeat(
    members: set<AccountId>, previous: map<AccountId, SeatIndex>, seats: map<AccountId, SeatIndex>,
    done: set<AccountId>, cursor: SeatIndex)
    requires Progress(members, previous, seats, done, cursor) && cursor in SeatsOf(Kept(members, previous))
    ensures Progress(members, previous, seats, done, cursor + 1)
  {
  }

  /** Another fresh seat does not disturb what was smallest before. */
  lemma StillSmallest(
    taken: set<SeatIndex>, previous: map<AccountId, SeatIndex>, seats: map<AccountId, SeatIndex>,
    d: AccountId, m: AccountId, cursor: SeatIndex)
    requires d in seats && m !in seats && SmallestFree(taken, previous, seats, d)
    ensures SmallestFree(taken, previous, seats[m := cursor], d)
  {
    var next := seats[m := cursor];
    forall i: SeatIndex | i < next[d] && i !in taken
      ensures exists o :: o in next && o !in previous && o < d && next[o] == i
    {
      var o :| o in seats && o !in previous && o < d && seats[o] == i;
      assert o in next && next[o] == i;
    }
  }

  /** The seat under the cursor is the smallest free one. */
  lemma CursorIsSmallest(
    taken: set<SeatIndex>, previous: map<AccountId, SeatIndex>, seats: map<AccountId, SeatIndex>,
    done: set<AccountId>, m: AccountId, cursor: SeatIndex)
    requires done <= seats.Keys && done !! previous.Keys && m !in seats && (forall o | o in done :: o < m)
    requires forall i: SeatIndex | i < cursor && i !in taken :: exists o :: o in done && seats[o] == i
    ensures SmallestFree(taken, previous, seats[m := cursor], m)
  {
    var next := seats[m := cursor];
    forall i: SeatIndex | i < cursor && i !in taken
      ensures exists o :: o in next && o !in previous && o < m && next[o] == i
    {
      var o :| o in done && seats[o] == i;
      assert o in next && next[o] == i;
    }
  }

  lemma CursorAdvances(
    taken: set<SeatIndex>, seats: map<AccountId, SeatIndex>, done: set<AccountId>, m: AccountId, cursor: SeatIndex)
    requires done <= seats.Keys && m !in seats
    requires forall i: SeatIndex | i < cursor && i !in taken :: exists o :: o in done && seats[o] == i
    ensures var next := seats[m := cursor];
            forall i: SeatIndex | i < cursor + 1 && i !in taken :: exists o :: o in done + {m} && next[o] == i
  {
    var next := seats[m := cursor];
    forall i: SeatIndex | i < cursor + 1 && i !in taken
      ensures exists o :: o in done + {m} && next[o] == i
    {
      if i == cursor {
        assert m in done + {m} && next[m] == i;
      } else {
        var o :| o in done && seats[o] == i;
        assert o in done + {m} && next[o] == i;
      }
    }
  }

  lemma GiveInjective(
    members: set<AccountId>, previous: map<AccountId, SeatIndex>, seats: map<AccountId, SeatIndex>,
    done: set<AccountId>, m: AccountId, cursor: SeatIndex)
    requires seats.Keys == Kept(members, previous).Keys + done && Injective(seats) && m !in seats
    requires forall id | id in Kept(members, previous) :: seats[id] == previous[id]
    requires forall d | d in done :: seats[d] < cursor
    requires cursor !in SeatsOf(Kept(members, previous))
    ensures Injective(seats[m := cursor])
  {
    var kept := Kept(members, previous);
    forall id | id in seats
      ensures seats[id] != cursor
    {
      if id in kept {
        assert kept[id] in SeatsOf(kept);
      }
    }
  }

  lemma GiveHanded(
    members: set<AccountId>, previous: map<AccountId, SeatIndex>, seats: map<AccountId, SeatIndex>,
    done: set<AccountId>, cursor: SeatIndex, m: AccountId)
    requires Handed(members, previous, seats, done) && cursor !in SeatsOf(Kept(members, previous))
    requires m in members && m !in previous && m !in done
    requires forall o | o in done :: o < m && seats[o] < cursor
    ensures Handed(members, previous, seats[m := cursor], done + {m})
  {
    hide Injective, SeatsOf;
    GiveInjective(members, previous, seats, done, m, cursor);
  }

  lemma GivePacked(
    taken: set<SeatIndex>, previous: map<AccountId, SeatIndex>, seats: map<AccountId, SeatIndex>,
    done: set<AccountId>, cursor: SeatIndex, size: nat, m: AccountId)
    requires Packed(taken, previous, seats, done, cursor, size) && cursor !in taken && cursor < size
    requires done !! previous.Keys && m !in seats && (forall o | o in done :: o < m)
    ensures Packed(taken, previous, seats[m := cursor], done + {m}, cursor + 1, size)
  {
    hide SmallestFree;
    CursorIsSmallest(taken, previous, seats, done, m, cursor);
    CursorAdvances(taken, seats, done, m, cursor);
    forall d | d in done
      ensures SmallestFree(taken, previous, seats[m := cursor], d)
    {
      StillSmallest(taken, previous, seats, d, m, cursor);
    }
  }

  /** Giving the seat under the cursor to the next fresh member. */
  lemma GiveSeat(
    members: set<AccountId>, previous: map<AccountId, SeatIndex>, seats: map<AccountId, SeatIndex>,
    done: set<AccountId>, cursor: SeatIndex, m: AccountId)
    requires Progress(members, previous, seats, done, cursor) && cursor !in SeatsOf(Kept(members, previous))
    requires m in members && m !in previous && m !in done && (forall o | o in done :: o < m) && cursor < |members|
    ensures Progress(members, previous, seats[m := cursor], done + {m}, cursor + 1)
  {
    hide SmallestFree, Injective, SeatsOf;
    GiveHanded(members, previous, seats, done, cursor, m);
    GivePacked(SeatsOf(Kept(members, previous)), previous, seats, done, cursor, |members|, m);
  }

  lemma AllSeated(
    members: set<AccountId>, previous: map<AccountId, SeatIndex>, seats: map<AccountId, SeatIndex>,
    done: set<AccountId>, cursor: nat)
    requires Progress(members, previous, seats, done, cursor) && done == members - previous.Keys
    ensures ProperSeats(members, previous, seats)
  {
    hide SmallestFree, Injective, SeatsOf;
  }

  class SeatedAccounts {
    const accounts: Accounts
    var seats: map<AccountId, SeatIndex>
    var reused: bool

    constructor (accounts: Accounts)
      ensures this.accounts == accounts && seats == map[] && !reused
    {
      this.accounts, seats, reused := accounts, map[], false;
    }

    /** `Set`: an unknown account or one with another seat is refused. */
    method Set(seat: SeatIndex, id: AccountId) returns (added: bool)
      modifies this`seats
      ensures seats == if id in accounts.pools && (id in old(seats) ==> old(seats)[id] == seat)
                       then old(seats)[id := seat] else old(seats)
      ensures added <==> id in accounts.pools && id !in old(seats)
    {
      if id !in accounts.pools {
        return false;
      }
      if id in seats {
        if seats[id] != seat {
          return false;
        }
      }
      added := id !in seats;
      seats := seats[id := seat];
    }
  }

  /** Seat re-elected members, in whatever order the map of pools is walked. */
  method SeatReelected(committee: SeatedAccounts, previous: map<AccountId, SeatIndex>) returns (taken: set<SeatIndex>)
    requires committee.seats == map[]
    modifies committee`seats
    ensures committee.seats == Kept(committee.accounts.pools.Keys, previous)
    ensures taken == SeatsOf(committee.seats)
  {
    taken := {};
    var rest := committee.accounts.pools.Keys;
    while rest != {}
      invariant rest <= committee.accounts.pools.Keys
      invariant committee.seats == Kept(committee.accounts.pools.Keys - rest, previous)
      invariant taken == SeatsOf(committee.seats)
      decreases rest
    {
      var id :| id in rest;
      ghost var before := committee.seats;
      if id in previous {
        var _ := committee.Set(previous[id], id);
        assert SeatsOf(committee.seats) == SeatsOf(before) + {previous[id]} by {
          assert committee.seats[id] == previous[id];
          assert forall o | o in before :: committee.seats[o] == before[o];
        }
        taken := taken + {previous[id]};
      }
      rest := rest - {id};
    }
    assert committee.accounts.pools.Keys - rest == committee.accounts.pools.Keys;
  }

  /** The seat index is an unsigned byte. */
  function NextSeat(seat: SeatIndex): (next: SeatIndex) {
    if seat == 255 then 0 else seat + 1
  }

  /** Where the search for seats stands, before and after the index has wrapped around. */
  ghost predicate Searching(
    members: set<AccountId>, previous: map<AccountId, SeatIndex>, seats: map<AccountId, SeatIndex>,
    done: set<AccountId>, cursor: SeatIndex, wrapped: bool)
  {
    if wrapped then
      && Progress(members, previous, seats, done, 256) && done == members - previous.Keys
      && exists z: SeatIndex :: z !in SeatsOf(Kept(members, previous)) && cursor <= z
    else
      Progress(members, previous, seats, done, cursor)
  }

  lemma FreeSeat(taken: set<SeatIndex>) returns (z: SeatIndex)
    requires |taken| < 256
    ensures z !in taken
  {
    if forall i: SeatIndex :: i in taken {
      SubsetSize(Below(256), taken);
    }
    z :| z !in taken;
  }

  /** Once the index has been through all seats, everybody is seated and a fresh member has one of the seats. */
  lemma FullTurn(
    members: set<AccountId>, previous: map<AccountId, SeatIndex>, seats: map<AccountId, SeatIndex>, done: set<AccountId>)
    requires Progress(members, previous, seats, done, 256)
    requires |members| <= 256 && |SeatsOf(Kept(members, previous))| < 256
    ensures Searching(members, previous, seats, done, 0, true)
  {
    hide SmallestFree, Injective, SeatsOf, Packed;
    CursorWithin(members, previous, seats, done, 256);
    SameSize(seats.Keys, members);
    var z := FreeSeat(SeatsOf(Kept(members, previous)));
  }

  lemma SearchSkips(
    members: set<AccountId>, previous: map<AccountId, SeatIndex>, seats: map<AccountId, SeatIndex>,
    done: set<AccountId>, cursor: SeatIndex, wrapped: bool)
    requires Searching(members, previous, seats, done, cursor, wrapped) && cursor in SeatsOf(Kept(members, previous))
    requires |members| <= 256 && |SeatsOf(Kept(members, previous))| < 256
    ensures Searching(members, previous, seats, done, NextSeat(cursor), wrapped || cursor == 255)
    ensures wrapped ==> cursor < 255
  {
    hide Progress, SeatsOf, Kept;
    if !wrapped {
      SkipSeat(members, previous, seats, done, cursor);
      if cursor == 255 {
        FullTurn(members, previous, seats, done);
      }
    }
  }

  lemma SearchGives(
    members: set<AccountId>, previous: map<AccountId, SeatIndex>, seats: map<AccountId, SeatIndex>,
    done: set<AccountId>, cursor: SeatIndex, wrapped: bool, m: AccountId)
    requires Searching(members, previous, seats, done, cursor, wrapped) && cursor !in SeatsOf(Kept(members, previous))
    requires m in members && m !in previous && m !in done && (forall o | o in done :: o < m)
    requires |members| <= 256 && |SeatsOf(Kept(members, previous))| < 256
    ensures !wrapped && m !in seats
    ensures Searching(members, previous, seats[m := cursor], done + {m}, NextSeat(cursor), cursor == 255)
  {
    hide Progress, SeatsOf, Kept;
    FreeForNext(members, previous, seats, done, cursor, m);
    GiveSeat(members, previous, seats, done, cursor, m);
    if cursor == 255 {
      FullTurn(members, previous, seats[m := cursor], done + {m});
    }
  }

  /** done are the fresh members among the first k. */
  ghost predicate Reached(sorted: seq<AccountId>, k: nat, previous: map<AccountId, SeatIndex>, done: set<AccountId>)
    requires k <= |sorted|
  {
    forall id :: id in done <==> id in sorted[..k] && id !in previous
  }

  lemma ReachNext(sorted: seq<AccountId>, k: nat, previous: map<AccountId, SeatIndex>, done: set<AccountId>)
    requires k < |sorted| && Reached(sorted, k, previous, done)
    ensures Reached(sorted, k + 1, previous, if sorted[k] in previous then done else done + {sorted[k]})
  {
    assert sorted[..k + 1] == sorted[..k] + [sorted[k]];
  }

  lemma ReachedBefore(sorted: seq<AccountId>, k: nat, previous: map<AccountId, SeatIndex>, done: set<AccountId>)
    requires Ascending(sorted) && k < |sorted| && Reached(sorted, k, previous, done)
    ensures sorted[k] !in done && forall o | o in done :: o < sorted[k]
  {
    SortedBefore(sorted, k);
  }

  lemma AllReached(
    sorted: seq<AccountId>, members: set<AccountId>, previous: map<AccountId, SeatIndex>, done: set<AccountId>)
    requires Reached(sorted, |sorted|, previous, done) && forall id :: id in sorted <==> id in members
    ensures done == members - previous.Keys
  {
    assert sorted[..|sorted|] == sorted;
  }

  /** Re-elected members are on their seats, and the fresh members in done on others. */
  ghost predicate Placed(
    members: set<AccountId>, previous: map<AccountId, SeatIndex>, seats: map<AccountId, SeatIndex>, done: set<AccountId>)
  {
    var kept := Kept(members, previous);
    && seats.Keys == kept.Keys + done
    && (forall id | id in kept :: seats[id] == kept[id])
    && (forall id | id in done :: seats[id] !in SeatsOf(kept))
  }

  lemma PlaceNext(
    members: set<AccountId>, previous: map<AccountId, SeatIndex>, seats: map<AccountId, SeatIndex>,
    done: set<AccountId>, cursor: SeatIndex, m: AccountId)
    requires Placed(members, previous, seats, done) && cursor !in SeatsOf(Kept(members, previous))
    requires m in members && m !in previous && m !in done
    ensures m !in seats && Placed(members, previous, seats[m := cursor], done + {m})
  {
    hide SeatsOf;
  }

  /** How often the seat index is increased on the way from cursor to z. */
  function Distance(cursor: SeatIndex, z: SeatIndex): (d: nat) {
    if cursor <= z then z - cursor else z + 256 - cursor
  }

  lemma Closer(cursor: SeatIndex, z: SeatIndex)
    requires cursor != z
    ensures Distance(NextSeat(cursor), z) < Distance(cursor, z)
  {
  }

  /** Up to 256 members that keep seats of their own are on the way to a proper assignment. */
  ghost predicate OnTheWay(
    members: set<AccountId>, previous: map<AccountId, SeatIndex>, seats: map<AccountId, SeatIndex>,
    done: set<AccountId>, cursor: SeatIndex, wrapped: bool)
  {
    && Placed(members, previous, seats, done)
    && (|members| <= 256 && Injective(Kept(members, previous)) ==>
          Searching(members, previous, seats, done, cursor, wrapped))
  }

  lemma SkipOne(
    members: set<AccountId>, previous: map<AccountId, SeatIndex>, seats: map<AccountId, SeatIndex>,
    done: set<AccountId>, cursor: SeatIndex, wrapped: bool)
    requires OnTheWay(members, previous, seats, done, cursor, wrapped) && cursor in SeatsOf(Kept(members, previous))
    requires |SeatsOf(Kept(members, previous))| < 256
    ensures OnTheWay(members, previous, seats, done, NextSeat(cursor), wrapped || cursor == 255)
  {
    hide Placed, Searching, SeatsOf, Kept, Injective;
    if |members| <= 256 && Injective(Kept(members, previous)) {
      SearchSkips(members, previous, seats, done, cursor, wrapped);
    }
  }

  lemma GiveOne(
    members: set<AccountId>, previous: map<AccountId, SeatIndex>, seats: map<AccountId, SeatIndex>,
    done: set<AccountId>, cursor: SeatIndex, wrapped: bool, m: AccountId)
    requires OnTheWay(members, previous, seats, done, cursor, wrapped) && cursor !in SeatsOf(Kept(members, previous))
    requires m in members && m !in previous && m !in done && (forall o | o in done :: o < m)
    requires |SeatsOf(Kept(members, previous))| < 256
    ensures m !in seats && OnTheWay(members, previous, seats[m := cursor], done + {m}, NextSeat(cursor), cursor == 255)
  {
    hide Placed, Searching, SeatsOf, Kept, Injective;
    PlaceNext(members, previous, seats, done, cursor, m);
    if |members| <= 256 && Injective(Kept(members, previous)) {
      SearchGives(members, previous, seats, done, cursor, wrapped, m);
    }
  }

  /** All members are placed, re-elected ones where they were, and fresh ones on seats that nobody keeps. */
  ghost predicate AllPlaced(members: set<AccountId>, previous: map<AccountId, SeatIndex>, seats: map<AccountId, SeatIndex>) {
    && seats.Keys == members
    && (forall id | id in members && id in previous :: seats[id] == previous[id])
    && (forall id | id in members && id !in previous :: seats[id] !in SeatsOf(Kept(members, previous)))
  }

  /** What `Accounts.SeatedAccounts` leaves behind. */
  ghost predicate Assigned(members: set<AccountId>, previous: map<AccountId, SeatIndex>, seats: map<AccountId, SeatIndex>) {
    && AllPlaced(members, previous, seats)
    && (ProperSeats(members, previous, seats) <==> |members| <= 256 && Injective(Kept(members, previous)))
  }

  /**
   `Accounts.SeatedAccounts`, as long as not all 256 seats are kept: then the
   search for a free seat, which also runs for re-elected members, would not
   end. The seats are proper if and only if there are no more than 256 members
   and no two of them keep the same seat.
   */
  method AssignSeats(accounts: Accounts, previous: Option<SeatedAccounts>) returns (committee: SeatedAccounts)
    requires previous.Some? ==> |SeatsOf(Kept(accounts.pools.Keys, previous.value.seats))| < 256
    ensures fresh(committee) && committee.accounts == accounts && !committee.reused
    ensures Assigned(accounts.pools.Keys, if previous.Some? then previous.value.seats else map[], committee.seats)
  {
    hide Progress, Searching, SmallestFree, Injective, Kept, SeatsOf, Ascending, ProperSeats, Reached, OnTheWay, AllPlaced,
         Distance, NextSeat;
    var former := if previous.Some? then previous.value.seats else map[];
    NobodySeated(accounts.pools.Keys);
    committee := new SeatedAccounts(accounts);
    var taken := SeatReelected(committee, former);
    var sorted := Sort(accounts.pools.Keys);

    ghost var members, done, wrapped := accounts.pools.Keys, {}, false;
    ghost var z := FreeSeat(taken);
    var cursor: SeatIndex := 0;
    StartSearch(members, former);
    NobodyReached(sorted, former);
    for k := 0 to |sorted|
      invariant committee.accounts == accounts && fresh(committee) && !committee.reused
      invariant OnTheWay(members, former, committee.seats, done, cursor, wrapped)
      invariant Reached(sorted, k, former, done)
    {
      while cursor in taken
        invariant OnTheWay(members, former, committee.seats, done, cursor, wrapped) && !committee.reused
        decreases Distance(cursor, z)
      {
        SkipOne(members, former, committee.seats, done, cursor, wrapped);
        Closer(cursor, z);
        wrapped := wrapped || cursor == 255;
        cursor := NextSeat(cursor);
      }
      var id := sorted[k];
      ReachNext(sorted, k, former, done);
      if id !in former {
        ReachedBefore(sorted, k, former, done);
        GiveOne(members, former, committee.seats, done, cursor, wrapped, id);
        var _ := committee.Set(cursor, id);
        done := done + {id};
        wrapped := cursor == 255;
        cursor := NextSeat(cursor);
      }
    }
    AllReached(sorted, members, former, done);
    SeatingEnds(members, former, committee.seats, done, cursor, wrapped);
  }

  lemma SeatingEnds(
    members: set<AccountId>, previous: map<AccountId, SeatIndex>, seats: map<AccountId, SeatIndex>,
    done: set<AccountId>, cursor: SeatIndex, wrapped: bool)
    requires OnTheWay(members, previous, seats, done, cursor, wrapped) && done == members - previous.Keys
    ensures AllPlaced(members, previous, seats)
    ensures ProperSeats(members, previous, seats) <==> |members| <= 256 && Injective(Kept(members, previous))
  {
    hide Placed, Searching, ProperSeats, AllPlaced, Injective, Kept, SeatsOf;
    PlacedEnds(members, previous, seats, done);
    if |members| <= 256 && Injective(Kept(members, previous)) {
      SearchEnds(members, previous, seats, done, cursor, wrapped);
    }
    if ProperSeats(members, previous, seats) {
      SeatsSuffice(members, previous, seats);
    }
  }

  lemma PlacedEnds(
    members: set<AccountId>, previous: map<AccountId, SeatIndex>, seats: map<AccountId, SeatIndex>, done: set<AccountId>)
    requires Placed(members, previous, seats, done) && done == members - previous.Keys
    ensures AllPlaced(members, previous, seats)
  {
    hide SeatsOf;
  }

  lemma SearchEnds(
    members: set<AccountId>, previous: map<AccountId, SeatIndex>, seats: map<AccountId, SeatIndex>,
    done: set<AccountId>, cursor: SeatIndex, wrapped: bool)
    requires Searching(members, previous, seats, done, cursor, wrapped) && done == members - previous.Keys
    ensures ProperSeats(members, previous, seats)
  {
    hide Progress, ProperSeats, SeatsOf;
    AllSeated(members, previous, seats, done, if wrapped then 256 else cursor);
  }

  lemma NobodyReached(sorted: seq<AccountId>, previous: map<AccountId, SeatIndex>)
    ensures Reached(sorted, 0, previous, {})
  {
  }

  lemma NobodySeated(members: set<AccountId>)
    ensures |SeatsOf(Kept(members, map[]))| == 0
  {
    assert Kept(members, map[]) == map[];
    assert SeatsOf(map[]) == {};
  }

  lemma StartSearch(members: set<AccountId>, previous: map<AccountId, SeatIndex>)
    ensures OnTheWay(members, previous, Kept(members, previous), {}, 0, false)
  {
  }

  lemma SortedBefore(sorted: seq<AccountId>, k: nat)
    requires Ascending(sorted) && k < |sorted|
    ensures forall id | id in sorted[..k] :: id < sorted[k]
    ensures sorted[k] !in sorted[..k]
  {
  }

  lemma FreeForNext(
    members: set<AccountId>, previous: map<AccountId, SeatIndex>, seats: map<AccountId, SeatIndex>,
    done: set<AccountId>, cursor: SeatIndex, m: AccountId)
    requires Progress(members, previous, seats, done, cursor) && m in members && m !in previous && m !in done
    ensures m !in seats && cursor < |members|
  {
    CursorWithin(members, previous, seats, done, cursor);
    assert |seats.Keys| == |seats|;
    SubsetSize(seats.Keys + {m}, members);
  }

  // ----- the bound on the committee size

  /** A proper assignment needs re-elected members with seats of their own, and no more than 256 members. */
  lemma SeatsSuffice(members: set<AccountId>, previous: map<AccountId, SeatIndex>, seats: map<AccountId, SeatIndex>)
    requires ProperSeats(members, previous, seats)
    ensures |members| <= 256 && Injective(Kept(members, previous))
  {
    InjectiveSize(seats);
    SubsetSize(SeatsOf(seats), Below(256));
  }

  lemma {:induction false} InjectiveSize(seats: map<AccountId, SeatIndex>)
    requires Injective(seats)
    ensures |SeatsOf(seats)| == |seats|
    decreases |seats|
  {
    if seats != map[] {
      var id :| id in seats;
      var rest := seats - {id};
      InjectiveSize(rest);
      assert forall o | o in seats && o != id :: o in rest && rest[o] == seats[o];
      assert SeatsOf(seats) == SeatsOf(rest) + {seats[id]};
    }
  }
}

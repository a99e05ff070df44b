/**
 Pools of accounts with cached stake totals: `account.Accounts`.
 */
module Accounts {
  /** 32 bytes, compared bytewise: the big-endian numbers below 256^32. */
  type AccountId = n: nat |
    n < 0x1_0000000000000000_0000000000000000_0000000000000000_0000000000000000
  type uint64 = n: nat | n < 0x1_0000_0000_0000_0000

  datatype Pool = Pool(poolStake: uint64, validatorStake: uint64, fixedCost: uint64)

  type Pools = map<AccountId, Pool>

  // ----- sums over a map

  ghost function SumStake(pools: Pools): (s: nat)
    decreases |pools|
  {
    if pools == map[] then 0
    else
      var id :| id in pools;
      pools[id].poolStake + SumStake(pools - {id})
  }

  ghost function SumValidatorStake(pools: Pools): (s: nat)
    decreases |pools|
  {
    if pools == map[] then 0
    else
      var id :| id in pools;
      pools[id].validatorStake + SumValidatorStake(pools - {id})
  }

  lemma {:induction false} SumsWithout(pools: Pools, id: AccountId)
    requires id in pools
    ensures SumStake(pools) == pools[id].poolStake + SumStake(pools - {id})
    ensures SumValidatorStake(pools) == pools[id].validatorStake + SumValidatorStake(pools - {id})
    decreases |pools|
  {
    StakeWithout(pools, id);
    ValidatorStakeWithout(pools, id);
  }

  /** Which element a sum starts with does not matter. */
  lemma {:induction false} StakeWithout(pools: Pools, id: AccountId)
    requires id in pools
    ensures SumStake(pools) == pools[id].poolStake + SumStake(pools - {id})
    decreases |pools|
  {
    var first :| first in pools && SumStake(pools) == pools[first].poolStake + SumStake(pools - {first});
    if first != id {
      StakeWithout(pools - {first}, id);
      StakeWithout(pools - {id}, first);
      assert pools - {first} - {id} == pools - {id} - {first};
    }
  }

  lemma {:induction false} ValidatorStakeWithout(pools: Pools, id: AccountId)
    requires id in pools
    ensures SumValidatorStake(pools) == pools[id].validatorStake + SumValidatorStake(pools - {id})
    decreases |pools|
  {
    var first :| first in pools
                 && SumValidatorStake(pools) == pools[first].validatorStake + SumValidatorStake(pools - {first});
    if first != id {
      ValidatorStakeWithout(pools - {first}, id);
      ValidatorStakeWithout(pools - {id}, first);
      assert pools - {first} - {id} == pools - {id} - {first};
    }
  }

  lemma SumsWith(pools: Pools, id: AccountId, pool: Pool)
    ensures SumStake(pools[id := pool]) == pool.poolStake + SumStake(pools - {id})
    ensures SumValidatorStake(pools[id := pool]) == pool.validatorStake + SumValidatorStake(pools - {id})
  {
    SumsWithout(pools[id := pool], id);
    assert pools[id := pool] - {id} == pools - {id};
  }

  /** Some of the pools never add up to more than all of them. */
  lemma {:induction false} SumsOfPart(part: Pools, pools: Pools)
    requires part.Keys <= pools.Keys && forall id | id in part :: part[id] == pools[id]
    ensures SumStake(part) <= SumStake(pools) && SumValidatorStake(part) <= SumValidatorStake(pools)
    decreases |part|
  {
    if part != map[] {
      var id :| id in part;
      SumsWithout(part, id);
      SumsWithout(pools, id);
      SumsOfPart(part - {id}, pools - {id});
    }
  }

  datatype Outcome = Ok | Underflow | Overflow

  class Accounts {
    var pools: Pools
    var totalStake: uint64
    var totalValidatorStake: uint64

    /** The cached totals are the sums over the map. */
    ghost predicate Valid()
      reads this
    {
      totalStake == SumStake(pools) && totalValidatorStake == SumValidatorStake(pools)
    }

    constructor ()
      ensures Valid() && pools == map[]
    {
      pools, totalStake, totalValidatorStake := map[], 0, 0;
    }

    /**
     `Set`: the former pool of the account is subtracted from the totals before
     the new one is added. After a failed addition the totals are not the sums
     any more.
     */
    method Set(id: AccountId, pool: Pool) returns (r: Outcome)
      requires Valid()
      modifies this
      ensures pools == old(pools)[id := pool]
      ensures r != Underflow
      ensures r == Ok ==> Valid()
      ensures r == Ok <==> SumStake(pools) < 0x1_0000_0000_0000_0000 && SumValidatorStake(pools) < 0x1_0000_0000_0000_0000
      ensures r == Overflow ==>
                if SumStake(pools) >= 0x1_0000_0000_0000_0000
                then totalStake == 0 && totalValidatorStake == SumValidatorStake(pools - {id})
                else totalStake == SumStake(pools) && totalValidatorStake == 0
    {
      SumsWith(pools, id, pool);
      if id !in pools {
        assert pools - {id} == pools;
        pools := pools[id := pool];
      } else {
        SumsWithout(pools, id);
        var former := pools[id];
        if totalStake < former.poolStake {
          return Underflow;
        }
        totalStake := totalStake - former.poolStake;
        if totalValidatorStake < former.validatorStake {
          return Underflow;
        }
        totalValidatorStake := totalValidatorStake - former.validatorStake;
        pools := pools[id := pool];
      }

      assert pools - {id} == old(pools) - {id};
      if totalStake + pool.poolStake >= 0x1_0000_0000_0000_0000 {
        totalStake := 0;
        return Overflow;
      }
      totalStake := totalStake + pool.poolStake;
      if totalValidatorStake + pool.validatorStake >= 0x1_0000_0000_0000_0000 {
        totalValidatorStake := 0;
        return Overflow;
      }
      totalValidatorStake := totalValidatorStake + pool.validatorStake;
      return Ok;
    }
  }
}

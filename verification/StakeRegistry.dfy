/**
 Stake bookkeeping: stake transactions move balance into pending stake, and at an epoch boundary
 pending stake becomes the stake that makes a key a validator.
 */
module StakeRegistry {
  import opened Machine
  import opened Ledger
  import opened EpochMeta

  /** Fixed gas of a stake transaction. */
  const STAKE_GAS: int := 1000

  datatype StakeTx = StakeTx(pk: Key, gas: Word, gasPrice: Word, amount: Word, nonce: Word)

  /** Stake validation, apart from hashes and signatures. */
  predicate ValidateStake(stakeAmount: nat, m: Accounts, from: Address, tx: StakeTx) {
    var acc := Get(m, from);
    && tx.nonce == acc.nonce
    && (tx.amount == 0 || tx.amount >= stakeAmount)
    && acc.balance >= S64(tx.gas * tx.gasPrice + tx.amount)
    && tx.gas >= STAKE_GAS
  }

  /** The sender's account after the stake changes, before the minter is paid. */
  function StakedAccount(acc: Account, tx: StakeTx): Account {
    var amount := S64(tx.amount);
    Account(acc.balance - S64(tx.gas * tx.gasPrice) + acc.pending - amount
            + S64((tx.gas - STAKE_GAS) * tx.gasPrice),
            acc.stake, amount, acc.nonce + 1)
  }

  /** The accounts after a stake transaction. */
  function StakeEffect(m: Accounts, from: Address, minter: Address, tx: StakeTx): Accounts {
    AddBalance(m[from := StakedAccount(Get(m, from), tx)], minter, S64(STAKE_GAS * tx.gasPrice))
  }

  /**
   What a stake transaction does to every account, all amounts being signed words: the sender pays the
   fee, gets the old pending stake back, puts up the new one and is refunded the gas above 1000; the
   minter gets the fee of those 1000; and only the sender's nonce rises.
   */
  ghost predicate Charged(m: Accounts, from: Address, minter: Address, tx: StakeTx, m': Accounts) {
    && m'.Keys == m.Keys + {from, minter}
    && forall a ::
         var before, after := Get(m, a), Get(m', a);
         && after.balance == before.balance
                             + (if a != from then 0 else before.pending - S64(tx.amount) - S64(tx.gas * tx.gasPrice)
                                                         + S64((tx.gas - 1000) * tx.gasPrice))
                             + (if a != minter then 0 else S64(1000 * tx.gasPrice))
         && after.stake == before.stake
         && after.pending == (if a == from then S64(tx.amount) else before.pending)
         && after.nonce == before.nonce + (if a == from then 1 else 0)
  }

  lemma StakeCharges(m: Accounts, from: Address, minter: Address, tx: StakeTx)
    ensures Charged(m, from, minter, tx, StakeEffect(m, from, minter, tx))
  {
    hide S64;
  }

  /**
   In plain numbers, for a valid transaction whose fee is below 2^63: apart from the stake put up and
   given back it costs the sender 1000 times the price, which the minter gets; and if the amount fits
   into 2^63 beside the fee, the sender could afford it.
   */
  lemma StakeCosts(stakeAmount: nat, m: Accounts, from: Address, minter: Address, tx: StakeTx, m': Accounts)
    requires ValidateStake(stakeAmount, m, from, tx) && Charged(m, from, minter, tx, m')
    requires tx.gas * tx.gasPrice < TWO63
    ensures forall a ::
              Get(m', a).balance + Get(m', a).pending
              == Get(m, a).balance + Get(m, a).pending
                 - (if a == from then 1000 * tx.gasPrice else 0) + (if a == minter then 1000 * tx.gasPrice else 0)
    ensures tx.gas * tx.gasPrice + tx.amount < TWO63 ==>
              Get(m', from).pending == tx.amount && Get(m', from).balance >= Get(m, from).pending
  {
    hide S64;
    var fee := tx.gas * tx.gasPrice;
    SplitFee(tx.gas, tx.gasPrice);
    Small(fee);
    Small((tx.gas - 1000) * tx.gasPrice);
    Small(1000 * tx.gasPrice);
    if fee + tx.amount < TWO63 {
      Small(fee + tx.amount);
      Small(tx.amount);
    }
  }

  /** What a stake transaction adds to the supply: fee, refund and tip need not cancel in 64 bits. */
  function StakeResidue(tx: StakeTx): int {
    S64((tx.gas - STAKE_GAS) * tx.gasPrice) + S64(STAKE_GAS * tx.gasPrice) - S64(tx.gas * tx.gasPrice)
  }

  lemma StakeSupply(m: Accounts, from: Address, minter: Address, tx: StakeTx)
    ensures Supply(StakeEffect(m, from, minter, tx)) == Supply(m) + StakeResidue(tx)
  {
    SupplySet(m, from, StakedAccount(Get(m, from), tx));
    SupplyAdd(m[from := StakedAccount(Get(m, from), tx)], minter, S64(STAKE_GAS * tx.gasPrice));
  }

  /**
   A stake transaction conserves the supply, even when sender and minter are the same account,
   exactly if refund and tip together are a signed 64-bit amount.
   */
  lemma StakeConservesIff(m: Accounts, from: Address, minter: Address, tx: StakeTx)
    ensures Supply(StakeEffect(m, from, minter, tx)) == Supply(m) <==>
            -TWO63 <= S64((tx.gas - STAKE_GAS) * tx.gasPrice) + S64(STAKE_GAS * tx.gasPrice) < TWO63
  {
    hide S64, StakeEffect, Supply;
    StakeSupply(m, from, minter, tx);
    SplitFee(tx.gas, tx.gasPrice);
    S64Sum((tx.gas - STAKE_GAS) * tx.gasPrice, STAKE_GAS * tx.gasPrice);
  }

  /** In particular every fee below 2^63 is conserved. */
  lemma StakeConserves(m: Accounts, from: Address, minter: Address, tx: StakeTx)
    requires tx.gas >= STAKE_GAS && tx.gas * tx.gasPrice < TWO63
    ensures Supply(StakeEffect(m, from, minter, tx)) == Supply(m)
  {
    hide S64, StakeEffect, Supply;
    StakeConservesIff(m, from, minter, tx);
    SplitFee(tx.gas, tx.gasPrice);
    Small((tx.gas - STAKE_GAS) * tx.gasPrice);
    Small(STAKE_GAS * tx.gasPrice);
  }

  /** A fee that overflows: an empty account passes validation and 2^64 coins come out of nothing. */
  lemma StakeFeeOverflows()
    ensures var tx := StakeTx(3, 2000, 4611686018427388, 0, 0);
            ValidateStake(1, map[], 3, tx) && Supply(StakeEffect(map[], 3, 4, tx)) == Supply(map[]) + TWO64
  {
    hide Supply;
    var tx := StakeTx(3, 2000, 4611686018427388, 0, 0);
    StakeSupply(map[], 3, 4, tx);
    assert tx.gas * tx.gasPrice == 9223372036854776000;
    assert (tx.gas - STAKE_GAS) * tx.gasPrice == 4611686018427388000;
  }

  lemma SplitFee(gas: nat, price: nat)
    ensures (gas - STAKE_GAS) * price + STAKE_GAS * price == gas * price
    ensures gas >= STAKE_GAS ==> (gas - STAKE_GAS) * price >= 0
    ensures STAKE_GAS * price >= 0
  {
  }

  // ---------- epoch boundaries ----------

  /** big.Int.Uint64: the low word of the magnitude. */
  function Low64(x: int): nat { (if x < 0 then -x else x) % TWO64 }

  datatype Registry = Registry(accounts: Accounts, validators: seq<Key>)

  /** One key of the update list: it leaves with all its stake, or its pending stake takes effect. */
  function UpdateOne(addr: Key -> Address, r: Registry, k: Key): Registry {
    var a := addr(k);
    var acc := Get(r.accounts, a);
    if Low64(acc.pending) == 0 then
      Registry(r.accounts[a := acc.(balance := acc.balance + acc.stake, stake := 0)], Removed(r.validators, k))
    else
      Registry(r.accounts[a := acc.(balance := acc.balance + acc.stake, stake := acc.pending, pending := 0)],
               Added(r.validators, k))
  }

  function UpdateAll(addr: Key -> Address, r: Registry, keys: seq<Key>): Registry
    decreases |keys|
  {
    if keys == [] then r else UpdateAll(addr, UpdateOne(addr, r, keys[0]), keys[1..])
  }

  /** Stake moves between balance, stake and pending of one account: the supply does not change. */
  lemma {:induction false} UpdateConserves(addr: Key -> Address, r: Registry, keys: seq<Key>)
    ensures Supply(UpdateAll(addr, r, keys).accounts) == Supply(r.accounts)
    decreases |keys|
  {
    if keys != [] {
      var r' := UpdateOne(addr, r, keys[0]);
      SupplySet(r.accounts, addr(keys[0]), r'.accounts[addr(keys[0])]);
      UpdateConserves(addr, r', keys[1..]);
    }
  }

  /** It is the same for every account: stake comes back to the balance or takes the place of pending stake. */
  lemma {:induction false} UpdateAccount(addr: Key -> Address, r: Registry, keys: seq<Key>, a: Address)
    ensures var before, after := Get(r.accounts, a), Get(UpdateAll(addr, r, keys).accounts, a);
            && Worth(after) == Worth(before) && after.nonce == before.nonce
            && ((forall i :: 0 <= i < |keys| ==> addr(keys[i]) != a) ==> after == before)
    decreases |keys|
  {
    hide UpdateOne, Worth;
    if keys != [] {
      UpdateOneAccount(addr, r, keys[0], a);
      UpdateAccount(addr, UpdateOne(addr, r, keys[0]), keys[1..], a);
      assert forall i :: 0 <= i < |keys| - 1 ==> keys[1..][i] == keys[i + 1];
    }
  }

  lemma UpdateOneAccount(addr: Key -> Address, r: Registry, k: Key, a: Address)
    ensures var before, after := Get(r.accounts, a), Get(UpdateOne(addr, r, k).accounts, a);
            && Worth(after) == Worth(before) && after.nonce == before.nonce
            && (addr(k) != a ==> after == before)
  {
  }

  /** Epoch updates never list a validator twice. */
  lemma {:induction false} UpdateDistinct(addr: Key -> Address, r: Registry, keys: seq<Key>)
    requires Distinct(r.validators)
    ensures Distinct(UpdateAll(addr, r, keys).validators)
    decreases |keys|
  {
    hide Low64;
    if keys != [] {
      AddedKeeps(r.validators, keys[0]);
      RemovedKeeps(r.validators, keys[0]);
      UpdateDistinct(addr, UpdateOne(addr, r, keys[0]), keys[1..]);
    }
  }

  /** The account database as an object that the processor changes in place. */
  class StateDB {
    var accounts: Accounts

    constructor (accounts: Accounts)
      ensures this.accounts == accounts
    {
      this.accounts := accounts;
    }

    /** Applies pending stake changes to accounts and validator list, key by key. */
    method UpdateStakeValidators(keys: seq<Key>, addr: Key -> Address, meta: EpochMetaData)
      modifies `accounts, meta`validators
      ensures Registry(accounts, meta.validators)
              == UpdateAll(addr, old(Registry(accounts, meta.validators)), keys)
    {
      hide UpdateOne;
      assert keys[0..] == keys;
      for i := 0 to |keys|
        invariant UpdateAll(addr, Registry(accounts, meta.validators), keys[i..])
                  == UpdateAll(addr, old(Registry(accounts, meta.validators)), keys)
      {
        assert keys[i..][1..] == keys[i + 1..];
        UpdateStakeValidator(keys[i], addr(keys[i]), meta, addr);
      }
      assert keys[|keys|..] == [];
    }

    /** One turn of the loop. */
    method UpdateStakeValidator(k: Key, a: Address, meta: EpochMetaData, ghost addr: Key -> Address)
      requires a == addr(k)
      modifies `accounts, meta`validators
      ensures Registry(accounts, meta.validators) == UpdateOne(addr, old(Registry(accounts, meta.validators)), k)
    {
      var acc := Get(accounts, a);
      if Low64(acc.pending) == 0 {
        meta.RemoveValidators(k);
        accounts := accounts[a := acc.(balance := acc.balance + acc.stake, stake := 0)];
      } else {
        accounts := accounts[a := acc.(balance := acc.balance + acc.stake, stake := acc.pending, pending := 0)];
        meta.AddValidators(k);
      }
    }
  }

  // ---------- the registry invariant ----------

  ghost predicate Injective(addr: Key -> Address) {
    forall k, l :: addr(k) == addr(l) ==> k == l
  }

  /** Pending stake is nothing or a full stake, as a signed amount. */
  predicate PendingOk(stakeAmount: nat, pending: int) {
    pending == 0 || stakeAmount <= pending < TWO63
  }

  ghost predicate RegistryInv(stakeAmount: nat, addr: Key -> Address, r: Registry) {
    && Distinct(r.validators)
    && (forall a :: PendingOk(stakeAmount, Get(r.accounts, a).pending))
    && (forall k :: k in r.validators <==> Get(r.accounts, addr(k)).stake >= stakeAmount)
  }

  /** A validated stake transaction leaves the registry in order exactly if its amount is below 2^63. */
  lemma StakeKeepsIff(stakeAmount: nat, addr: Key -> Address, r: Registry, minter: Address, tx: StakeTx)
    requires 0 < stakeAmount && RegistryInv(stakeAmount, addr, r)
    requires ValidateStake(stakeAmount, r.accounts, addr(tx.pk), tx)
    ensures RegistryInv(stakeAmount, addr, r.(accounts := StakeEffect(r.accounts, addr(tx.pk), minter, tx)))
            <==> tx.amount < TWO63
  {
    hide S64;
    S64OfWord(tx.amount);
    var m' := StakeEffect(r.accounts, addr(tx.pk), minter, tx);
    forall a
      ensures Get(m', a).stake == Get(r.accounts, a).stake
      ensures Get(m', a).pending == if a == addr(tx.pk) then S64(tx.amount) else Get(r.accounts, a).pending
    {
    }
    assert Get(m', addr(tx.pk)).pending == S64(tx.amount);
  }

  lemma S64OfWord(x: Word)
    ensures S64(x) == if x < TWO63 then x else x - TWO64
  {
  }

  /** An amount of 2^63 passes validation for an empty account and leaves a negative pending stake. */
  lemma StakeAmountOverflows()
    ensures var tx := StakeTx(3, 1000, 0, TWO63, 0);
            var r := Registry(map[], []);
            && RegistryInv(1, k => k, r) && ValidateStake(1, r.accounts, 3, tx)
            && !RegistryInv(1, k => k, r.(accounts := StakeEffect(r.accounts, 3, 4, tx)))
  {
    StakeKeepsIff(1, k => k, Registry(map[], []), 4, StakeTx(3, 1000, 0, TWO63, 0));
  }

  lemma Small(x: int)
    requires 0 <= x < TWO63
    ensures S64(x) == x
  {
  }

  lemma UpdateKeeps(stakeAmount: nat, addr: Key -> Address, r: Registry, k: Key)
    requires 0 < stakeAmount && Injective(addr) && RegistryInv(stakeAmount, addr, r)
    ensures RegistryInv(stakeAmount, addr, UpdateOne(addr, r, k))
  {
    var r' := UpdateOne(addr, r, k);
    var a := addr(k);
    assert PendingOk(stakeAmount, Get(r.accounts, a).pending);
    AddedKeeps(r.validators, k);
    RemovedKeeps(r.validators, k);
    forall b
      ensures b != a ==> Get(r'.accounts, b) == Get(r.accounts, b)
      ensures PendingOk(stakeAmount, Get(r'.accounts, b).pending)
    {
      assert PendingOk(stakeAmount, Get(r.accounts, b).pending);
    }
    forall l
      ensures l in r'.validators <==> Get(r'.accounts, addr(l)).stake >= stakeAmount
    {
      if l != k {
        assert addr(l) != a;
        assert l in r.validators <==> Get(r.accounts, addr(l)).stake >= stakeAmount;
      }
    }
  }

  lemma {:induction false} UpdateAllKeeps(stakeAmount: nat, addr: Key -> Address, r: Registry, keys: seq<Key>)
    requires 0 < stakeAmount && Injective(addr) && RegistryInv(stakeAmount, addr, r)
    ensures RegistryInv(stakeAmount, addr, UpdateAll(addr, r, keys))
    decreases |keys|
  {
    if keys != [] {
      UpdateKeeps(stakeAmount, addr, r, keys[0]);
      UpdateAllKeeps(stakeAmount, addr, UpdateOne(addr, r, keys[0]), keys[1..]);
    }
  }

  /** What happens to the registry: stake transactions, epoch updates, and changes of balances only. */
  datatype Event =
    | Stake(tx: StakeTx, minter: Address)
    | EpochUpdate(keys: seq<Key>)
    | Balances(accounts: Accounts)

  /** Same stakes and pending stakes everywhere. */
  ghost predicate SameStakes(m: Accounts, m': Accounts) {
    forall a :: Get(m', a).stake == Get(m, a).stake && Get(m', a).pending == Get(m, a).pending
  }

  ghost function Next(stakeAmount: nat, addr: Key -> Address, r: Registry, e: Event): Registry {
    match e
    case Stake(tx, minter) =>
      if ValidateStake(stakeAmount, r.accounts, addr(tx.pk), tx)
      then r.(accounts := StakeEffect(r.accounts, addr(tx.pk), minter, tx)) else r
    case EpochUpdate(keys) => UpdateAll(addr, r, keys)
    case Balances(m) => if SameStakes(r.accounts, m) then r.(accounts := m) else r
  }

  ghost function Run(stakeAmount: nat, addr: Key -> Address, r: Registry, es: seq<Event>): Registry
    decreases |es|
  {
    if es == [] then r else Run(stakeAmount, addr, Next(stakeAmount, addr, r, es[0]), es[1..])
  }

  lemma {:induction false} RunAppend(stakeAmount: nat, addr: Key -> Address, r: Registry, es: seq<Event>, i: nat)
    requires i < |es|
    ensures Run(stakeAmount, addr, r, es[..i + 1]) == Next(stakeAmount, addr, Run(stakeAmount, addr, r, es[..i]), es[i])
    decreases |es|
  {
    hide Next;
    if i > 0 {
      RunAppend(stakeAmount, addr, Next(stakeAmount, addr, r, es[0]), es[1..], i - 1);
      assert es[..i + 1][1..] == es[1..][..i] && es[..i][1..] == es[1..][..i - 1];
    } else {
      assert es[..1][1..] == [];
    }
  }

  /** The stake transaction is applied, and its amount is not a signed word. */
  predicate Oversized(stakeAmount: nat, addr: Key -> Address, r: Registry, e: Event) {
    e.Stake? && ValidateStake(stakeAmount, r.accounts, addr(e.tx.pk), e.tx) && e.tx.amount >= TWO63
  }

  lemma NextKeepsIff(stakeAmount: nat, addr: Key -> Address, r: Registry, e: Event)
    requires 0 < stakeAmount && Injective(addr) && RegistryInv(stakeAmount, addr, r)
    ensures RegistryInv(stakeAmount, addr, Next(stakeAmount, addr, r, e)) <==> !Oversized(stakeAmount, addr, r, e)
  {
    hide StakeEffect, ValidateStake;
    match e {
      case Stake(tx, minter) =>
        if ValidateStake(stakeAmount, r.accounts, addr(tx.pk), tx) {
          StakeKeepsIff(stakeAmount, addr, r, minter, tx);
        }
      case EpochUpdate(keys) => UpdateAllKeeps(stakeAmount, addr, r, keys);
      case Balances(m) =>
    }
  }

  /**
   Over any sequence of stake transactions, epoch updates and balance changes the validators are
   at all times without duplicates and exactly the keys whose stake is a full one, if and only
   if no stake transaction that is applied has an amount of 2^63 or more.
   */
  lemma RunKeepsIff(stakeAmount: nat, addr: Key -> Address, r: Registry, es: seq<Event>)
    requires 0 < stakeAmount && Injective(addr) && RegistryInv(stakeAmount, addr, r)
    ensures (forall k :: 0 <= k <= |es| ==> RegistryInv(stakeAmount, addr, Run(stakeAmount, addr, r, es[..k])))
            <==> forall i :: 0 <= i < |es| ==> !Oversized(stakeAmount, addr, Run(stakeAmount, addr, r, es[..i]), es[i])
  {
    hide RegistryInv, Next, Oversized;
    if forall k :: 0 <= k <= |es| ==> RegistryInv(stakeAmount, addr, Run(stakeAmount, addr, r, es[..k])) {
      forall i | 0 <= i < |es|
        ensures !Oversized(stakeAmount, addr, Run(stakeAmount, addr, r, es[..i]), es[i])
      {
        RunAppend(stakeAmount, addr, r, es, i);
        NextKeepsIff(stakeAmount, addr, Run(stakeAmount, addr, r, es[..i]), es[i]);
      }
    } else if forall i :: 0 <= i < |es| ==> !Oversized(stakeAmount, addr, Run(stakeAmount, addr, r, es[..i]), es[i]) {
      forall k | 0 <= k <= |es|
        ensures RegistryInv(stakeAmount, addr, Run(stakeAmount, addr, r, es[..k]))
      {
        RunKeepsUpTo(stakeAmount, addr, r, es, k);
      }
    }
  }

  lemma {:induction false} RunKeepsUpTo(stakeAmount: nat, addr: Key -> Address, r: Registry, es: seq<Event>, k: nat)
    requires 0 < stakeAmount && Injective(addr) && RegistryInv(stakeAmount, addr, r) && k <= |es|
    requires forall i :: 0 <= i < |es| ==> !Oversized(stakeAmount, addr, Run(stakeAmount, addr, r, es[..i]), es[i])
    ensures RegistryInv(stakeAmount, addr, Run(stakeAmount, addr, r, es[..k]))
    decreases k
  {
    hide RegistryInv, Next, Oversized;
    if k == 0 {
      assert es[..0] == [];
    } else {
      RunKeepsUpTo(stakeAmount, addr, r, es, k - 1);
      RunAppend(stakeAmount, addr, r, es, k - 1);
      NextKeepsIff(stakeAmount, addr, Run(stakeAmount, addr, r, es[..k - 1]), es[k - 1]);
    }
  }

  // ---------- what holds for all amounts ----------

  /** Without duplicates, and exactly the keys that have any stake, which may be a negative one. */
  ghost predicate LooseInv(addr: Key -> Address, r: Registry) {
    && Distinct(r.validators)
    && (forall a :: -TWO63 <= Get(r.accounts, a).pending < TWO63)
    && (forall k :: k in r.validators <==> Get(r.accounts, addr(k)).stake != 0)
  }

  lemma LooseUpdateKeeps(addr: Key -> Address, r: Registry, k: Key)
    requires Injective(addr) && LooseInv(addr, r)
    ensures LooseInv(addr, UpdateOne(addr, r, k))
  {
    var r' := UpdateOne(addr, r, k);
    var a := addr(k);
    AddedKeeps(r.validators, k);
    RemovedKeeps(r.validators, k);
    forall b
      ensures b != a ==> Get(r'.accounts, b) == Get(r.accounts, b)
      ensures -TWO63 <= Get(r'.accounts, b).pending < TWO63
    {
    }
    forall l
      ensures l in r'.validators <==> Get(r'.accounts, addr(l)).stake != 0
    {
      if l != k {
        assert addr(l) != a;
      }
    }
  }

  lemma {:induction false} LooseUpdateAllKeeps(addr: Key -> Address, r: Registry, keys: seq<Key>)
    requires Injective(addr) && LooseInv(addr, r)
    ensures LooseInv(addr, UpdateAll(addr, r, keys))
    decreases |keys|
  {
    if keys != [] {
      LooseUpdateKeeps(addr, r, keys[0]);
      LooseUpdateAllKeeps(addr, UpdateOne(addr, r, keys[0]), keys[1..]);
    }
  }

  /** Over any sequence at all, whatever the amounts, the validators are exactly the keys with any stake. */
  lemma {:induction false} RunKeepsLoose(stakeAmount: nat, addr: Key -> Address, r: Registry, es: seq<Event>)
    requires Injective(addr) && LooseInv(addr, r)
    ensures LooseInv(addr, Run(stakeAmount, addr, r, es))
    decreases |es|
  {
    if es != [] {
      var r' := Next(stakeAmount, addr, r, es[0]);
      match es[0] {
        case Stake(tx, minter) => LooseStakeKeeps(addr, r, minter, tx);
        case EpochUpdate(keys) => LooseUpdateAllKeeps(addr, r, keys);
        case Balances(m) =>
      }
      RunKeepsLoose(stakeAmount, addr, r', es[1..]);
    }
  }

  lemma LooseStakeKeeps(addr: Key -> Address, r: Registry, minter: Address, tx: StakeTx)
    requires LooseInv(addr, r)
    ensures LooseInv(addr, r.(accounts := StakeEffect(r.accounts, addr(tx.pk), minter, tx)))
  {
    var m' := StakeEffect(r.accounts, addr(tx.pk), minter, tx);
    hide S64;
    forall a
      ensures Get(m', a).stake == Get(r.accounts, a).stake && -TWO63 <= Get(m', a).pending < TWO63
    {
    }
  }

  /**
   What processing a block does to stakes: none changes, and pending stake changes only for keys
   with a stake transaction in the block, to a signed word.
   */
  ghost predicate Sequel(addr: Key -> Address, before: Accounts, keys: seq<Key>, after: Accounts) {
    forall a ::
      && Get(after, a).stake == Get(before, a).stake
      && (Get(after, a).pending == Get(before, a).pending
          || (-TWO63 <= Get(after, a).pending < TWO63 && exists k :: k in keys && addr(k) == a))
  }

  lemma SequelLoose(addr: Key -> Address, before: Accounts, keys: seq<Key>, after: Accounts, validators: seq<Key>)
    requires LooseInv(addr, Registry(before, validators)) && Sequel(addr, before, keys, after)
    ensures LooseInv(addr, Registry(after, validators))
  {
  }

  /** The order of the validators does not matter. */
  lemma LoosePermuted(addr: Key -> Address, m: Accounts, s: seq<Key>, t: seq<Key>)
    requires LooseInv(addr, Registry(m, s)) && Permuted(s, t)
    ensures LooseInv(addr, Registry(m, t))
  {
    PermutedDistinct(s, t);
    forall k
      ensures k in t <==> k in s
    {
      assert k in multiset(s) <==> k in multiset(t);
    }
  }

  // ---------- what an epoch update does to a key ----------

  function Count(keys: seq<Key>, k: Key): nat {
    if keys == [] then 0 else Count(keys[1..], k) + if keys[0] == k then 1 else 0
  }

  /**
   A key's pending stake takes effect exactly if the key is listed once. Listed more than once,
   the second turn finds nothing pending and removes the validator again.
   */
  lemma {:induction false} UpdateOutcome(addr: Key -> Address, r: Registry, keys: seq<Key>, k: Key)
    requires Injective(addr) && LooseInv(addr, r)
    ensures var before := Get(r.accounts, addr(k));
            var r' := UpdateAll(addr, r, keys);
            var after := Get(r'.accounts, addr(k));
            match Count(keys, k)
            case 0 => after.stake == before.stake && after.pending == before.pending
                      && (k in r'.validators <==> k in r.validators)
            case 1 => after.stake == before.pending && after.pending == 0
                      && (k in r'.validators <==> before.pending != 0)
            case _ => after.stake == 0 && after.pending == 0 && k !in r'.validators
    decreases |keys|
  {
    hide LooseInv;
    if keys != [] {
      LooseUpdateKeeps(addr, r, keys[0]);
      UpdateOutcome(addr, UpdateOne(addr, r, keys[0]), keys[1..], k);
      UpdateOneAt(addr, r, keys[0], k);
    } else {
      LooseAt(addr, r, k);
    }
  }

  lemma LooseDistinct(addr: Key -> Address, r: Registry)
    requires LooseInv(addr, r)
    ensures Distinct(r.validators)
  {
  }

  lemma LooseAt(addr: Key -> Address, r: Registry, k: Key)
    requires LooseInv(addr, r)
    ensures k in r.validators <==> Get(r.accounts, addr(k)).stake != 0
  {
  }

  /** What one turn does to its own key, and that it leaves every other key alone. */
  lemma UpdateOneAt(addr: Key -> Address, r: Registry, j: Key, k: Key)
    requires Injective(addr) && LooseInv(addr, r)
    ensures var r' := UpdateOne(addr, r, j);
            var before, after := Get(r.accounts, addr(k)), Get(r'.accounts, addr(k));
            if j == k then after.stake == before.pending && after.pending == 0
                           && (k in r'.validators <==> before.pending != 0)
            else after == before && (k in r'.validators <==> k in r.validators)
  {
    LooseUpdateKeeps(addr, r, j);
    LooseAt(addr, UpdateOne(addr, r, j), k);
    LooseAt(addr, r, k);
    if j != k {
      assert addr(j) != addr(k);
    }
  }

  /** For example a key with stake 5 pending that is listed twice ends with no stake and no place. */
  lemma ListedTwiceIsRemoved()
    ensures var r := Registry(map[1 := Account(0, 0, 5, 0)], []);
            && LooseInv(k => k, r) && RegistryInv(5, k => k, r)
            && var r' := UpdateAll(k => k, r, [1, 1]);
               Get(r'.accounts, 1).stake == 0 && 1 !in r'.validators
  {
    var r := Registry(map[1 := Account(0, 0, 5, 0)], []);
    var id: Key -> Address := k => k;
    assert [1, 1][1..] == [1] && [1][1..] == [];
    assert Count([1], 1) == 1 && Count([1, 1], 1) == 2;
    UpdateOutcome(id, r, [1, 1], 1);
  }

  // ---------- the keys of several blocks ----------

  /** The keys without repetitions, each where it occurs first. */
  function Pending(keys: seq<Key>): seq<Key> {
    if keys == [] then []
    else Added(Pending(keys[..|keys| - 1]), keys[|keys| - 1])
  }

  lemma {:induction false} PendingDistinct(keys: seq<Key>)
    ensures Distinct(Pending(keys)) && forall k :: k in Pending(keys) <==> k in keys
    decreases |keys|
  {
    if keys != [] {
      var n := |keys| - 1;
      PendingDistinct(keys[..n]);
      AddedKeeps(Pending(keys[..n]), keys[n]);
      assert keys == keys[..n] + [keys[n]];
    }
  }

  lemma {:induction false} CountAppend(s: seq<Key>, t: seq<Key>, k: Key)
    ensures Count(s + t, k) == Count(s, k) + Count(t, k)
  {
    if s == [] {
      assert s + t == t;
    } else {
      CountAppend(s[1..], t, k);
      assert (s + t)[1..] == s[1..] + t;
    }
  }

  lemma {:induction false} CountNone(s: seq<Key>, k: Key)
    ensures Count(s, k) > 0 <==> k in s
  {
    if s != [] {
      CountNone(s[1..], k);
      assert s == [s[0]] + s[1..];
    }
  }

  /** A block lists each of its staking keys once and no other. */
  lemma {:induction false} PendingOnce(keys: seq<Key>, k: Key)
    ensures Count(Pending(keys), k) == if k in keys then 1 else 0
    decreases |keys|
  {
    if keys != [] {
      var n := |keys| - 1;
      PendingOnce(keys[..n], k);
      PendingOnce(keys[..n], keys[n]);
      assert keys == keys[..n] + [keys[n]];
      CountNone(Pending(keys[..n]), keys[n]);
      CountAppend(Pending(keys[..n]), [keys[n]], k);
      assert [keys[n]][1..] == [];
    }
  }
}

/**
 The protocol transactions of a block: one coinbase transaction and the attestations. Each marks
 its validator as processed for the slot, adds a stake to the block's total, and moves a reward
 out of the coinbase account.
 */
module ProtocolTxs {
  import opened Machine
  import opened Wrappers
  import opened Ledger
  import opened EpochMeta
  import opened StakeRegistry
  import opened SlotAllotment

  // ---------- who has been processed in a slot ----------

  /** The slot's validators, each with a flag that it has been processed, and the stake counted so far. */
  datatype Context = Context(slot: nat, leader: Key, flags: map<Key, bool>, total: nat)

  function Marked(stakeAmount: nat, c: Context, k: Key, stake: int): Option<Context> {
    if c.slot == 0 then Some(c)
    else if k !in c.flags || c.flags[k] || stake < stakeAmount then None
    else Some(c.(flags := c.flags[k := true], total := c.total + stakeAmount))
  }

  function ProposerMarked(stakeAmount: nat, c: Context, k: Key, stake: int): Option<Context> {
    if c.slot != 0 && k != c.leader then None else Marked(stakeAmount, c, k, stake)
  }

  class StateContext {
    const slot: nat
    const leader: Key
    const stakeAmount: nat
    var flags: map<Key, bool>
    var total: nat

    /** A fresh context: exactly the slot's leader and attestors, none processed. */
    constructor (stakeAmount: nat, slot: nat, validators: seq<Key>, info: SlotInfo)
      requires info.leader < |validators|
      requires forall t :: 0 <= t < |info.attestors| ==> info.attestors[t] < |validators|
      ensures this.stakeAmount == stakeAmount && this.slot == slot && leader == validators[info.leader] && total == 0
      ensures forall k :: k in flags <==> slot > 0 && (k == leader || Attests(validators, info, |info.attestors|, k))
      ensures forall k :: k in flags ==> !flags[k]
    {
      this.stakeAmount, this.slot, leader, total := stakeAmount, slot, validators[info.leader], 0;
      var m: map<Key, bool> := map[];
      if slot > 0 {
        for i := 0 to |info.attestors|
          invariant forall k :: k in m <==> Attests(validators, info, i, k)
          invariant forall k :: k in m ==> !m[k]
        {
          m := m[validators[info.attestors[i]] := false];
        }
        m := m[validators[info.leader] := false];
      }
      flags := m;
    }

    ghost function Value(): Context
      reads this
    {
      Context(slot, leader, flags, total)
    }

    method ProcessAttestorsFlag(k: Key, stake: int) returns (ok: bool)
      modifies this
      ensures var r := Marked(stakeAmount, old(Value()), k, stake);
              && ok == r.Some?
              && Value() == if ok then r.value else old(Value())
    {
      if slot == 0 {
        return true;
      }
      if k !in flags || flags[k] || stake < stakeAmount {
        return false;
      }
      total := total + stakeAmount;
      flags := flags[k := true];
      return true;
    }

    method ProcessBlockProposerFlag(k: Key, stake: int) returns (ok: bool)
      modifies this
      ensures var r := ProposerMarked(stakeAmount, old(Value()), k, stake);
              && ok == r.Some?
              && Value() == if ok then r.value else old(Value())
    {
      if slot == 0 {
        return true;
      }
      if k != leader || k !in flags || flags[k] || stake < stakeAmount {
        return false;
      }
      total := total + stakeAmount;
      flags := flags[k := true];
      return true;
    }
  }

  // ---------- rewards ----------

  datatype CoinBase = CoinBase(pk: Key, blockReward: Word, attestorReward: Word, feeReward: Word)

  /** A reward taken from the coinbase account; `extra` is paid out of nothing. */
  function Rewarded(m: Accounts, a: Address, bank: Address, reward: int, extra: int): Accounts {
    var acc := Get(m, a);
    AddBalance(m[a := acc.(balance := acc.balance + reward + extra, nonce := acc.nonce + 1)], bank, -reward)
  }

  /** Only the extra part is new money, also when the rewarded account is the coinbase account. */
  lemma RewardSupply(m: Accounts, a: Address, bank: Address, reward: int, extra: int)
    ensures Supply(Rewarded(m, a, bank, reward, extra)) == Supply(m) + extra
  {
    hide Supply;
    var acc := Get(m, a);
    var acc' := acc.(balance := acc.balance + reward + extra, nonce := acc.nonce + 1);
    SupplySet(m, a, acc');
    SupplyAdd(m[a := acc'], bank, -reward);
  }

  lemma RewardGet(m: Accounts, a: Address, bank: Address, reward: int, extra: int, b: Address)
    ensures Get(Rewarded(m, a, bank, reward, extra), b).balance
            == Get(m, b).balance + (if b == a then reward + extra else 0) - (if b == bank then reward else 0)
    ensures Get(Rewarded(m, a, bank, reward, extra), b).nonce == Get(m, b).nonce + if b == a then 1 else 0
    ensures Get(Rewarded(m, a, bank, reward, extra), b).stake == Get(m, b).stake
    ensures Get(Rewarded(m, a, bank, reward, extra), b).pending == Get(m, b).pending
  {
  }

  lemma RewardStakes(m: Accounts, a: Address, bank: Address, reward: int, extra: int)
    ensures SameStakes(m, Rewarded(m, a, bank, reward, extra))
  {
    hide Rewarded, Get;
    forall b {
      RewardGet(m, a, bank, reward, extra, b);
    }
  }

  datatype Config = Config(stakeAmount: nat, bank: Address, addr: Key -> Address)

  datatype Progress = Progress(accounts: Accounts, context: Context)

  function CoinBaseApplied(cfg: Config, p: Progress, cb: CoinBase): Option<Progress> {
    var a := cfg.addr(cb.pk);
    match ProposerMarked(cfg.stakeAmount, p.context, cb.pk, Get(p.accounts, a).stake)
    case None => None
    case Some(c) => Some(Progress(Rewarded(p.accounts, a, cfg.bank, S64(cb.blockReward), S64(cb.feeReward)), c))
  }

  function AttestApplied(cfg: Config, p: Progress, cb: CoinBase, k: Key): Option<Progress> {
    var a := cfg.addr(k);
    match Marked(cfg.stakeAmount, p.context, k, Get(p.accounts, a).stake)
    case None => None
    case Some(c) => Some(Progress(Rewarded(p.accounts, a, cfg.bank, S64(cb.attestorReward), 0), c))
  }

  /** The coinbase transaction and the given attestations, in order; none if one of them is refused. */
  function Protocol(cfg: Config, p: Progress, cb: CoinBase, attestors: seq<Key>): Option<Progress>
    decreases |attestors|
  {
    if attestors == [] then CoinBaseApplied(cfg, p, cb)
    else
      var n := |attestors| - 1;
      match Protocol(cfg, p, cb, attestors[..n])
      case None => None
      case Some(q) => AttestApplied(cfg, q, cb, attestors[n])
  }

  lemma ProtocolStep(cfg: Config, p: Progress, cb: CoinBase, attestors: seq<Key>, i: nat)
    requires i < |attestors| && Protocol(cfg, p, cb, attestors[..i]).Some?
    ensures Protocol(cfg, p, cb, attestors[..i + 1])
            == AttestApplied(cfg, Protocol(cfg, p, cb, attestors[..i]).value, cb, attestors[i])
  {
    assert attestors[..i + 1][..i] == attestors[..i];
  }

  /** Once an attestation is refused the block is. */
  lemma {:induction false} ProtocolStops(cfg: Config, p: Progress, cb: CoinBase, attestors: seq<Key>, i: nat)
    requires i <= |attestors| && Protocol(cfg, p, cb, attestors[..i]).None?
    ensures Protocol(cfg, p, cb, attestors).None?
    decreases |attestors|
  {
    if i == |attestors| {
      assert attestors[..i] == attestors;
    } else {
      var n := |attestors| - 1;
      assert attestors[..n][..i] == attestors[..i];
      ProtocolStops(cfg, p, cb, attestors[..n], i);
    }
  }

  // ---------- what they come to ----------

  /** The fee reward is the only new money, and no stake changes. */
  lemma {:induction false} ProtocolSupply(cfg: Config, p: Progress, cb: CoinBase, attestors: seq<Key>)
    requires Protocol(cfg, p, cb, attestors).Some?
    ensures Supply(Protocol(cfg, p, cb, attestors).value.accounts) == Supply(p.accounts) + S64(cb.feeReward)
    ensures SameStakes(p.accounts, Protocol(cfg, p, cb, attestors).value.accounts)
    decreases |attestors|
  {
    hide Supply, S64, Rewarded;
    if attestors == [] {
      RewardSupply(p.accounts, cfg.addr(cb.pk), cfg.bank, S64(cb.blockReward), S64(cb.feeReward));
      RewardStakes(p.accounts, cfg.addr(cb.pk), cfg.bank, S64(cb.blockReward), S64(cb.feeReward));
    } else {
      var n := |attestors| - 1;
      ProtocolSupply(cfg, p, cb, attestors[..n]);
      var q := Protocol(cfg, p, cb, attestors[..n]).value;
      RewardSupply(q.accounts, cfg.addr(attestors[n]), cfg.bank, S64(cb.attestorReward), 0);
      RewardStakes(q.accounts, cfg.addr(attestors[n]), cfg.bank, S64(cb.attestorReward), 0);
    }
  }

  /** How many of the keys have this address. */
  function Holders(addr: Key -> Address, keys: seq<Key>, a: Address): nat {
    if keys == [] then 0
    else Holders(addr, keys[..|keys| - 1], a) + if addr(keys[|keys| - 1]) == a then 1 else 0
  }

  function Times(n: int, x: int): int { n * x }

  lemma TimesNext(n: int, x: int)
    ensures Times(0, x) == 0 && Times(n + 1, x) == Times(n, x) + x
  {
  }

  /** What every account gains or loses, whichever of proposer, attestors and coinbase account coincide. */
  lemma {:induction false} ProtocolBalances(cfg: Config, p: Progress, cb: CoinBase, attestors: seq<Key>, a: Address)
    requires Protocol(cfg, p, cb, attestors).Some?
    ensures Get(Protocol(cfg, p, cb, attestors).value.accounts, a).balance
            == Get(p.accounts, a).balance
               + (if a == cfg.addr(cb.pk) then S64(cb.blockReward) + S64(cb.feeReward) else 0)
               + Times(Holders(cfg.addr, attestors, a), S64(cb.attestorReward))
               - (if a == cfg.bank then S64(cb.blockReward) + Times(|attestors|, S64(cb.attestorReward)) else 0)
    ensures Get(Protocol(cfg, p, cb, attestors).value.accounts, a).nonce
            == Get(p.accounts, a).nonce + (if a == cfg.addr(cb.pk) then 1 else 0) + Holders(cfg.addr, attestors, a)
    decreases |attestors|
  {
    hide Supply, S64, Times, Rewarded, Get, Marked, ProposerMarked;
    var x := S64(cb.attestorReward);
    if attestors == [] {
      RewardGet(p.accounts, cfg.addr(cb.pk), cfg.bank, S64(cb.blockReward), S64(cb.feeReward), a);
      TimesNext(0, x);
    } else {
      var n := |attestors| - 1;
      ProtocolBalances(cfg, p, cb, attestors[..n], a);
      RewardGet(Protocol(cfg, p, cb, attestors[..n]).value.accounts, cfg.addr(attestors[n]), cfg.bank, x, 0, a);
      TimesNext(Holders(cfg.addr, attestors[..n], a), x);
      TimesNext(n, x);
    }
  }

  /** The validators a block's protocol transactions speak for. */
  function Speakers(cb: CoinBase, attestors: seq<Key>): seq<Key> { [cb.pk] + attestors }

  /**
   The slot's leader proposes, proposer and attestors are different validators of the slot none of
   whom was processed before, and each holds a full stake.
   */
  ghost predicate Markable(cfg: Config, p: Progress, cb: CoinBase, attestors: seq<Key>) {
    var keys := Speakers(cb, attestors);
    && cb.pk == p.context.leader && Distinct(keys)
    && (forall k :: k in keys ==> k in p.context.flags && !p.context.flags[k])
    && (forall k :: k in keys ==> Get(p.accounts, cfg.addr(k)).stake >= cfg.stakeAmount)
  }

  /**
   The stake a block carries: in a slot after the genesis slot the proposer is the slot's leader,
   proposer and attestors are different validators of the slot none of whom was processed before,
   each holds a full stake, and the block's total counts every one of them exactly once.
   */
  lemma {:induction false} ProtocolStake(cfg: Config, p: Progress, cb: CoinBase, attestors: seq<Key>)
    requires p.context.slot > 0 && Protocol(cfg, p, cb, attestors).Some?
    ensures var keys := Speakers(cb, attestors);
            var c' := Protocol(cfg, p, cb, attestors).value.context;
            && Markable(cfg, p, cb, attestors)
            && c'.slot == p.context.slot && c'.leader == p.context.leader
            && c'.flags.Keys == p.context.flags.Keys
            && (forall k :: k in c'.flags ==> c'.flags[k] == (k in keys || p.context.flags[k]))
            && c'.total == p.context.total + Times(|keys|, cfg.stakeAmount)
    decreases |attestors|
  {
    hide Supply, S64, Times, Rewarded;
    TimesNext(0, cfg.stakeAmount);
    TimesNext(|attestors|, cfg.stakeAmount);
    if attestors != [] {
      var n := |attestors| - 1;
      ProtocolStake(cfg, p, cb, attestors[..n]);
      ProtocolSupply(cfg, p, cb, attestors[..n]);
      assert Speakers(cb, attestors) == Speakers(cb, attestors[..n]) + [attestors[n]];
    }
  }

  /**
   After slot zero nothing else is asked of them. In slot zero they are always accepted, and nothing is
   counted or marked.
   */
  lemma {:induction false} ProtocolIff(cfg: Config, p: Progress, cb: CoinBase, attestors: seq<Key>)
    ensures p.context.slot > 0 ==> (Protocol(cfg, p, cb, attestors).Some? <==> Markable(cfg, p, cb, attestors))
    ensures p.context.slot == 0 ==>
              Protocol(cfg, p, cb, attestors).Some? && Protocol(cfg, p, cb, attestors).value.context == p.context
    decreases |attestors|
  {
    hide Supply, S64, Times, Rewarded, Markable;
    if p.context.slot > 0 && Protocol(cfg, p, cb, attestors).Some? {
      ProtocolStake(cfg, p, cb, attestors);
    }
    if attestors == [] {
      JustProposer(cfg, p, cb);
    } else {
      var n := |attestors| - 1;
      ProtocolIff(cfg, p, cb, attestors[..n]);
      if p.context.slot > 0 && Markable(cfg, p, cb, attestors) {
        MarkableFront(cfg, p, cb, attestors);
        ProtocolStake(cfg, p, cb, attestors[..n]);
        ProtocolSupply(cfg, p, cb, attestors[..n]);
      }
    }
  }

  lemma JustProposer(cfg: Config, p: Progress, cb: CoinBase)
    ensures p.context.slot > 0 && Markable(cfg, p, cb, []) ==> Protocol(cfg, p, cb, []).Some?
  {
    assert cb.pk in Speakers(cb, []);
  }

  lemma MarkableFront(cfg: Config, p: Progress, cb: CoinBase, attestors: seq<Key>)
    requires attestors != [] && Markable(cfg, p, cb, attestors)
    ensures var n := |attestors| - 1;
            && Markable(cfg, p, cb, attestors[..n]) && attestors[n] !in Speakers(cb, attestors[..n])
            && attestors[n] in p.context.flags && !p.context.flags[attestors[n]]
            && Get(p.accounts, cfg.addr(attestors[n])).stake >= cfg.stakeAmount
  {
    var n := |attestors| - 1;
    var keys, fewer := Speakers(cb, attestors), Speakers(cb, attestors[..n]);
    assert keys == fewer + [attestors[n]];
    assert forall i :: 0 <= i < |fewer| ==> fewer[i] == keys[i];
    assert attestors[n] == keys[n + 1];
  }

  /** Distinct keys of a set are no more than the set has. */
  lemma {:induction false} DistinctFit(keys: seq<Key>, all: set<Key>)
    requires Distinct(keys) && forall k :: k in keys ==> k in all
    ensures |keys| <= |all|
    decreases |keys|
  {
    if keys != [] {
      var n := |keys| - 1;
      forall k | k in keys[..n] ensures k in all - {keys[n]} {
      }
      DistinctFit(keys[..n], all - {keys[n]});
    }
  }

  /** So no block of a slot carries more than one stake for each of the slot's validators. */
  lemma BlockStakeBounded(cfg: Config, p: Progress, cb: CoinBase, attestors: seq<Key>)
    requires p.context.slot > 0 && p.context.total == 0 && Protocol(cfg, p, cb, attestors).Some?
    ensures Protocol(cfg, p, cb, attestors).value.context.total <= Times(|p.context.flags|, cfg.stakeAmount)
  {
    hide Protocol;
    ProtocolStake(cfg, p, cb, attestors);
    DistinctFit(Speakers(cb, attestors), p.context.flags.Keys);
  }

  // ---------- applying them ----------

  /**
   Applies the coinbase transaction and the attestations of a block in order. `valid(i)` says
   whether the i-th passes validation of its hash, nonce, signature, role and rewards. Fails
   exactly if one is invalid or its validator cannot be marked.
   */
  method ApplyProtocolTxs(cfg: Config, db: StateDB, sc: StateContext, cb: CoinBase, attestors: seq<Key>,
                          valid: nat -> bool)
    returns (ok: bool)
    requires sc.stakeAmount == cfg.stakeAmount
    modifies db, sc
    ensures var r := Protocol(cfg, Progress(old(db.accounts), old(sc.Value())), cb, attestors);
            && (ok <==> r.Some? && forall i :: 0 <= i <= |attestors| ==> valid(i))
            && (ok ==> Progress(db.accounts, sc.Value()) == r.value)
  {
    hide Supply, S64, Rewarded, Marked, ProposerMarked;
    ghost var p := Progress(db.accounts, sc.Value());
    if !valid(0) {
      return false;
    }
    var a := cfg.addr(cb.pk);
    ok := sc.ProcessBlockProposerFlag(cb.pk, Get(db.accounts, a).stake);
    assert attestors[..0] == [];
    if !ok {
      ProtocolStops(cfg, p, cb, attestors, 0);
      return;
    }
    db.accounts := Rewarded(db.accounts, a, cfg.bank, S64(cb.blockReward), S64(cb.feeReward));
    for i := 0 to |attestors|
      invariant Protocol(cfg, p, cb, attestors[..i]) == Some(Progress(db.accounts, sc.Value()))
      invariant forall j :: 0 <= j <= i ==> valid(j)
    {
      if !valid(i + 1) {
        return false;
      }
      ProtocolStep(cfg, p, cb, attestors, i);
      a := cfg.addr(attestors[i]);
      ok := sc.ProcessAttestorsFlag(attestors[i], Get(db.accounts, a).stake);
      if !ok {
        ProtocolStops(cfg, p, cb, attestors, i + 1);
        return;
      }
      db.accounts := Rewarded(db.accounts, a, cfg.bank, S64(cb.attestorReward), 0);
    }
    assert attestors[..|attestors|] == attestors;
    ok := true;
  }
}

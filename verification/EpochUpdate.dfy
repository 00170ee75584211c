/**
 The record of a new epoch: the stake found in the run of the epoch before, the stake that was
 allotted for it, and the validators after the stake transactions of the run have taken effect.
 */
module EpochUpdate {
  import opened Wrappers
  import opened Hashes
  import opened Ledger
  import opened EpochMeta
  import opened StakeRegistry
  import opened BlockTree
  import opened ForkChoice
  import opened EpochRecords

  /**
   Slots per epoch, the stake amount, addresses of keys, the account state after each block, and
   the shuffle that a block hash seeds.
   */
  datatype Rules = Rules(perEpoch: nat, stakeAmount: nat, addr: Key -> Address, accounts: Hash -> Accounts,
                         shuffle: (Hash, seq<Key>) -> seq<Key>)

  ghost predicate ValidRules(rules: Rules) {
    && rules.perEpoch > 0 && Injective(rules.addr)
    && forall h: Hash, s: seq<Key> :: Permuted(s, rules.shuffle(h, s))
  }

  /** A record, a failed lookup, or the fault of allotting slots to nobody. */
  datatype RecordResult = Record(rec: EpochRec) | NoRecord | NoValidators

  // ---------- what the blocks of a run hold ----------

  /** The validators who spoke in a run of blocks: one per protocol transaction, newest block first. */
  function AllSpeakers(blocks: map<Hash, Block>, run: seq<Hash>): seq<Key> {
    if run == [] then []
    else (if run[0] in blocks then blocks[run[0]].speakers else []) + AllSpeakers(blocks, run[1..])
  }

  /** The keys whose pending stake is due, block after block from the oldest; genesis had its own update. */
  function Joined(blocks: map<Hash, Block>, run: seq<Hash>): seq<Key> {
    if run == [] then []
    else Joined(blocks, run[1..])
         + if run[0] in blocks && blocks[run[0]].slot != 0 then Pending(blocks[run[0]].stakeKeys) else []
  }

  /** The stake of everyone who spoke in the block is loaded (the block in slot zero is exempt). */
  predicate StakesLoaded(rules: Rules, state: Accounts, b: Block) {
    b.slot == 0 || forall k :: k in b.speakers ==> Low64(Get(state, rules.addr(k)).stake) >= rules.stakeAmount
  }

  predicate Loaded(rules: Rules, blocks: map<Hash, Block>, state: Accounts, run: seq<Hash>) {
    forall i :: 0 <= i < |run| ==> run[i] in blocks && StakesLoaded(rules, state, blocks[run[i]])
  }

  /** How many blocks of the run after slot zero hold a stake transaction of the key. */
  function StakingBlocks(blocks: map<Hash, Block>, run: seq<Hash>, k: Key): nat {
    if run == [] then 0
    else StakingBlocks(blocks, run[1..], k)
         + if run[0] in blocks && blocks[run[0]].slot != 0 && k in blocks[run[0]].stakeKeys then 1 else 0
  }

  /** A key is listed as often as there are blocks with a stake transaction of it. */
  lemma {:induction false} JoinedCount(blocks: map<Hash, Block>, run: seq<Hash>, k: Key)
    ensures Count(Joined(blocks, run), k) == StakingBlocks(blocks, run, k)
    decreases |run|
  {
    if run != [] {
      JoinedCount(blocks, run[1..], k);
      if run[0] in blocks && blocks[run[0]].slot != 0 {
        PendingOnce(blocks[run[0]].stakeKeys, k);
        CountAppend(Joined(blocks, run[1..]), Pending(blocks[run[0]].stakeKeys), k);
      } else {
        assert Joined(blocks, run[1..]) + [] == Joined(blocks, run[1..]);
      }
    }
  }

  // ---------- the record ----------

  /** Accounts and validators after the stake transactions of a run have taken effect. */
  function NextRegistry(rules: Rules, blocks: map<Hash, Block>, run: seq<Hash>, before: EpochRec, parent: Hash):
    Registry
  {
    UpdateAll(rules.addr, Registry(rules.accounts(parent), before.validators), Joined(blocks, run))
  }

  /** What becomes of a key at an epoch boundary, by the number of blocks of the run that staked it. */
  ghost predicate KeyOutcome(rules: Rules, blocks: map<Hash, Block>, run: seq<Hash>, before: EpochRec, parent: Hash,
                             k: Key)
  {
    var was := Get(rules.accounts(parent), rules.addr(k));
    var r := NextRegistry(rules, blocks, run, before, parent);
    var now := Get(r.accounts, rules.addr(k));
    match StakingBlocks(blocks, run, k)
    case 0 => now.stake == was.stake && now.pending == was.pending
              && (k in r.validators <==> k in before.validators)
    case 1 => now.stake == was.pending && now.pending == 0 && (k in r.validators <==> was.pending != 0)
    case _ => now.stake == 0 && now.pending == 0 && k !in r.validators
  }

  lemma EpochOutcome(rules: Rules, blocks: map<Hash, Block>, run: seq<Hash>, before: EpochRec, parent: Hash, k: Key)
    requires Injective(rules.addr)
    requires LooseInv(rules.addr, Registry(rules.accounts(parent), before.validators))
    ensures KeyOutcome(rules, blocks, run, before, parent, k)
  {
    hide UpdateAll, LooseInv, Joined, Count, StakingBlocks;
    JoinedCount(blocks, run, k);
    UpdateOutcome(rules.addr, Registry(rules.accounts(parent), before.validators), Joined(blocks, run), k);
  }

  /** The record computed from the run of the epoch before and that epoch's own record. */
  function NewRecord(rules: Rules, blocks: map<Hash, Block>, run: seq<Hash>, before: EpochRec, epoch: nat,
                     parent: Hash): RecordResult
  {
    if !Loaded(rules, blocks, rules.accounts(parent), run) then NoRecord
    else
      var validators := NextRegistry(rules, blocks, run, before, parent).validators;
      if validators == [] then NoValidators
      else Record(EpochRec(epoch, parent, rules.shuffle(parent, validators),
                           rules.stakeAmount * |AllSpeakers(blocks, run)|,
                           |before.validators| * rules.stakeAmount))
  }

  /** The epoch record that applies to a block: the stored one within an epoch, else a new one. */
  ghost function EpochRecordFor(rules: Rules, db: Db, rank: map<Hash, nat>, slot: nat, parent: Hash): RecordResult
    requires rules.perEpoch > 0 && Grounded(db.tree, rank)
  {
    var B := rules.perEpoch;
    if parent !in db.tree then NoRecord
    else if Epoch(B, db.tree[parent].slot) == Epoch(B, slot) then
      match Lookup(B, db, rank, slot, parent)
      case None => NoRecord
      case Some(r) => Record(r)
    else
      match RunBefore(rules, db, rank, parent)
      case None => NoRecord
      case Some(before) =>
        NewRecord(rules, db.blocks, EpochRun(B, db.tree, rank, parent), before, Epoch(B, slot), parent)
  }

  /** The record of the epoch run that ends in the given block. */
  ghost function RunBefore(rules: Rules, db: Db, rank: map<Hash, nat>, parent: Hash): Option<EpochRec>
    requires rules.perEpoch > 0 && Grounded(db.tree, rank) && parent in db.tree
  {
    var first := db.tree[FirstOfEpoch(rules.perEpoch, db.tree, rank, parent)];
    Lookup(rules.perEpoch, db, rank, first.slot, first.parent)
  }

  /** The accounts a block is processed on: those after its parent, updated where it opens an epoch. */
  ghost function StateFor(rules: Rules, db: Db, rank: map<Hash, nat>, slot: nat, parent: Hash): Accounts
    requires rules.perEpoch > 0 && Grounded(db.tree, rank) && parent in db.tree
  {
    var B := rules.perEpoch;
    if Epoch(B, db.tree[parent].slot) == Epoch(B, slot) || RunBefore(rules, db, rank, parent).None?
    then rules.accounts(parent)
    else NextRegistry(rules, db.blocks, EpochRun(B, db.tree, rank, parent), RunBefore(rules, db, rank, parent).value,
                      parent).accounts
  }

  // ---------- computing it ----------

  lemma OneMore(a: nat, b: nat)
    ensures a * (b + 1) == a * b + a && a * 0 == 0
  {
  }

  /** Counts one stake for every protocol transaction of a block, if the stakes are loaded. */
  method ProcessEpochMetaData(rules: Rules, state: Accounts, b: Block, start: nat, ghost count: nat)
    returns (found: nat, ok: bool)
    requires start == rules.stakeAmount * count
    ensures ok <==> StakesLoaded(rules, state, b)
    ensures ok ==> found == rules.stakeAmount * (count + |b.speakers|)
  {
    found := start;
    for i := 0 to |b.speakers|
      invariant found == rules.stakeAmount * (count + i)
      invariant b.slot != 0 ==>
                  forall t :: 0 <= t < i ==> Low64(Get(state, rules.addr(b.speakers[t])).stake) >= rules.stakeAmount
    {
      if Low64(Get(state, rules.addr(b.speakers[i])).stake) < rules.stakeAmount && b.slot != 0 {
        return found, false;
      }
      OneMore(rules.stakeAmount, count + i);
      found := found + rules.stakeAmount;
    }
    ok := true;
  }

  lemma RunStep(blocks: map<Hash, Block>, path: seq<Hash>, i: nat)
    requires i < |path| && path[i] in blocks
    ensures AllSpeakers(blocks, path[i..]) == blocks[path[i]].speakers + AllSpeakers(blocks, path[i + 1..])
    ensures Joined(blocks, path[i..])
            == Joined(blocks, path[i + 1..])
               + if blocks[path[i]].slot != 0 then Pending(blocks[path[i]].stakeKeys) else []
  {
    assert path[i..][1..] == path[i + 1..];
  }

  /** Goes through the blocks of a run, oldest first: the stake found and the keys whose stake is due. */
  method ProcessRun(rules: Rules, state: Accounts, blocks: map<Hash, Block>, path: seq<Hash>)
    returns (found: nat, keys: seq<Key>, ok: bool)
    ensures ok <==> Loaded(rules, blocks, state, path)
    ensures ok ==> found == rules.stakeAmount * |AllSpeakers(blocks, path)| && keys == Joined(blocks, path)
  {
    hide AllSpeakers, Joined, StakesLoaded, Pending;
    found, keys := 0, [];
    var i := |path|;
    NothingIn(blocks, path[i..]);
    OneMore(rules.stakeAmount, 0);
    while i > 0
      invariant 0 <= i <= |path|
      invariant forall t :: i <= t < |path| ==> path[t] in blocks && StakesLoaded(rules, state, blocks[path[t]])
      invariant found == rules.stakeAmount * |AllSpeakers(blocks, path[i..])| && keys == Joined(blocks, path[i..])
    {
      i := i - 1;
      if path[i] !in blocks {
        return found, keys, false;
      }
      var b := blocks[path[i]];
      RunStep(blocks, path, i);
      found, ok := ProcessEpochMetaData(rules, state, b, found, |AllSpeakers(blocks, path[i + 1..])|);
      if !ok {
        return;
      }
      // the block in slot zero was processed when it was committed
      if b.slot != 0 {
        keys := keys + Pending(b.stakeKeys);
      } else {
        assert keys + [] == keys;
      }
    }
    assert path[0..] == path;
    ok := true;
  }

  lemma NothingIn(blocks: map<Hash, Block>, run: seq<Hash>)
    requires run == []
    ensures AllSpeakers(blocks, run) == [] && Joined(blocks, run) == []
  {
  }

  /** Computes the epoch record for a block; at the first block of an epoch this updates the accounts. */
  method CalculateEpochMetaData(rules: Rules, db: Db, slot: nat, parent: Hash, sdb: StateDB, ghost rank: map<Hash, nat>)
    returns (r: RecordResult)
    requires rules.perEpoch > 0 && Grounded(db.tree, rank) && RootsInSlotZero(db.tree)
    requires sdb.accounts == rules.accounts(parent)
    modifies sdb
    ensures r == EpochRecordFor(rules, db, rank, slot, parent)
    ensures r.Record? ==> parent in db.tree && sdb.accounts == StateFor(rules, db, rank, slot, parent)
  {
    hide Epoch, Lookup, EpochRun, Loaded, AllSpeakers, Joined, Grounded, UpdateAll;
    var B := rules.perEpoch;
    if parent !in db.tree {
      return NoRecord;
    }
    if Epoch(B, db.tree[parent].slot) == Epoch(B, slot) {
      var stored := GetEpochMetaData(B, db, slot, parent, rank);
      return if stored.None? then NoRecord else Record(stored.value);
    }
    var path := PathToFirstBlockOfEpoch(B, db.tree, parent, rank);
    var first := db.tree[Last(path)];
    var before := GetEpochMetaData(B, db, first.slot, first.parent, rank);
    if before.None? {
      return NoRecord;
    }
    var alloted := |before.value.validators| * rules.stakeAmount;
    var found, keys, ok := ProcessRun(rules, sdb.accounts, db.blocks, path);
    if !ok {
      return NoRecord;
    }
    var meta := new EpochMetaData(before.value.epoch, before.value.prev, before.value.validators);
    sdb.UpdateStakeValidators(keys, rules.addr, meta);
    if meta.validators == [] {
      return NoValidators;
    }
    r := Record(EpochRec(Epoch(B, slot), parent, rules.shuffle(parent, meta.validators), found, alloted));
  }
}

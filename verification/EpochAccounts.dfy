/**
 Accounts and records along every branch: after each block the validators of the block's record are
 exactly the keys that have any stake in the accounts the block left.
 */
module EpochAccounts {
  import opened Wrappers
  import opened Hashes
  import opened Ledger
  import opened StakeRegistry
  import opened EpochMeta
  import opened BlockTree
  import opened ForkChoice
  import opened EpochRecords
  import opened EpochUpdate
  import opened EpochHistory

  /** The accounts after the block and the validators of its record agree. */
  ghost predicate AccountsAt(rules: Rules, db: Db, rank: map<Hash, nat>, h: Hash)
    requires rules.perEpoch > 0 && Grounded(db.tree, rank)
  {
    h in db.tree &&
    var r := Lookup(rules.perEpoch, db, rank, db.tree[h].slot, db.tree[h].parent);
    r.Some? && LooseInv(rules.addr, Registry(rules.accounts(h), r.value.validators))
  }

  ghost predicate AccountsInv(rules: Rules, db: Db, rank: map<Hash, nat>)
    requires rules.perEpoch > 0 && Grounded(db.tree, rank)
  {
    forall h :: h in db.blocks ==> AccountsAt(rules, db, rank, h)
  }

  /** The accounts after the block are what processing it on the accounts due to it leaves. */
  ghost predicate ProcessedOn(rules: Rules, db: Db, rank: map<Hash, nat>, b: Block) {
    rules.perEpoch > 0 && Grounded(db.tree, rank) && b.parent in db.tree ==>
      Sequel(rules.addr, StateFor(rules, db, rank, b.slot, b.parent), b.stakeKeys, rules.accounts(b.hash))
  }

  /** The accounts a block is processed on agree with the validators of the record it is processed under. */
  lemma StateAgrees(rules: Rules, db: Db, rank: map<Hash, nat>, below: Hash, b: Block, rec: EpochRec)
    requires ValidRules(rules) && DbInv(db, rank, below) && Rooted(db, below) && AccountsInv(rules, db, rank)
    requires b.parent in db.blocks && EpochRecordFor(rules, db, rank, b.slot, b.parent) == Record(rec)
    requires Epoch(rules.perEpoch, db.tree[b.parent].slot) != Epoch(rules.perEpoch, b.slot)
    ensures LooseInv(rules.addr, Registry(StateFor(rules, db, rank, b.slot, b.parent), rec.validators))
  {
    hide Grounded, Epoch, Lookup, EpochRun, LooseInv, UpdateAll, Joined, Loaded, AllSpeakers, Injective;
    var p := b.parent;
    assert AccountsAt(rules, db, rank, p);
    RunBeforeIs(rules, db, rank, below, p);
    var before := RunBefore(rules, db, rank, p).value;
    var run := EpochRun(rules.perEpoch, db.tree, rank, p);
    LooseUpdateAllKeeps(rules.addr, Registry(rules.accounts(p), before.validators), Joined(db.blocks, run));
    var next := NextRegistry(rules, db.blocks, run, before, p);
    assert next == Registry(next.accounts, next.validators);
    LoosePermuted(rules.addr, next.accounts, next.validators, rules.shuffle(p, next.validators));
  }

  /** A block committed within an epoch finds the record its parent found. */
  lemma ParentRecord(rules: Rules, db: Db, rank: map<Hash, nat>, below: Hash, h: Hash)
    requires rules.perEpoch > 0 && DbInv(db, rank, below) && Rooted(db, below) && h in db.blocks
    requires db.tree[h].parent in db.blocks && !StartsEpoch(rules.perEpoch, db.tree, h)
    ensures var p := db.tree[h].parent;
            Lookup(rules.perEpoch, db, rank, db.tree[h].slot, p)
            == Lookup(rules.perEpoch, db, rank, db.tree[p].slot, db.tree[p].parent)
  {
    hide Epoch, Lookup;
    var p := db.tree[h].parent;
    var run := EpochRun(rules.perEpoch, db.tree, rank, p);
    assert Last([h] + run) == Last(run);
    FirstParent(rules, db, rank, below, h);
    SameRecord(rules.perEpoch, db, rank, h, p);
  }

  /** A commit keeps accounts and records in agreement. */
  lemma CommitAccounts(rules: Rules, db: Db, rank: map<Hash, nat>, below: Hash, b: Block)
    requires ValidRules(rules) && DbInv(db, rank, below) && Rooted(db, below) && RecordsInv(rules, db, rank, below)
    requires AccountsInv(rules, db, rank) && ProcessedOn(rules, db, rank, b)
    requires Commits(db, below, b) && b.parent in db.blocks
    requires EpochRecordFor(rules, db, rank, b.slot, b.parent).Record?
    ensures var rec := EpochRecordFor(rules, db, rank, b.slot, b.parent).rec;
            var r := Commit(rules.perEpoch, db, b, rec);
            && r.Some? && Grounded(r.value.tree, CommitRank(db, rank, b))
            && AccountsInv(rules, r.value, CommitRank(db, rank, b))
  {
    hide Grounded, EpochRecordFor, Epoch, Extends, CommitRank, RecordsInv, DbInv, Rooted, Commit, AccountsAt, StateFor,
      Sequel, LooseInv, Injective;
    var B := rules.perEpoch;
    InvGrounded(db, rank, below);
    var rec := EpochRecordFor(rules, db, rank, b.slot, b.parent).rec;
    CommitGrounded(B, db, rank, below, b, rec);
    CommitEpochs(rules, db, rank, below, b);
    CommitRecords(rules, db, rank, below, b);
    var db' := Commit(B, db, b, rec).value;
    var rank' := CommitRank(db, rank, b);
    InvGrounded(db', rank', below);
    CommitBlocks(B, db, b, rec);
    forall h | h in db'.blocks
      ensures AccountsAt(rules, db', rank', h)
    {
      if h != b.hash {
        OldAccounts(rules, db, rank, db', rank', h);
      } else {
        NewAccounts(rules, db, rank, below, b, rec, db', rank');
      }
    }
  }

  lemma OldAccounts(rules: Rules, db: Db, rank: map<Hash, nat>, db': Db, rank': map<Hash, nat>, h: Hash)
    requires rules.perEpoch > 0 && Grounded(db.tree, rank) && Grounded(db'.tree, rank') && Extends(db, db')
    requires AccountsInv(rules, db, rank) && h in db.blocks
    requires forall key :: key in db.epochs ==> key in db'.epochs && db'.epochs[key] == db.epochs[key]
    ensures AccountsAt(rules, db', rank', h)
  {
    hide Grounded, Epoch, Lookup, LooseInv;
    assert AccountsAt(rules, db, rank, h);
    LookupSame(rules.perEpoch, db, rank, db', rank', db.tree[h].slot, db.tree[h].parent);
  }

  lemma NewAccounts(rules: Rules, db: Db, rank: map<Hash, nat>, below: Hash, b: Block, rec: EpochRec, db': Db,
                    rank': map<Hash, nat>)
    requires ValidRules(rules) && DbInv(db, rank, below) && Rooted(db, below) && AccountsInv(rules, db, rank)
    requires ProcessedOn(rules, db, rank, b) && b.parent in db.blocks
    requires EpochRecordFor(rules, db, rank, b.slot, b.parent) == Record(rec)
    requires Commit(rules.perEpoch, db, b, rec) == Some(db') && Extends(db, db')
    requires DbInv(db', rank', below) && Rooted(db', below)
    requires var opens := Epoch(rules.perEpoch, db.tree[b.parent].slot) != Epoch(rules.perEpoch, b.slot);
             && (b.slot == 0 ==> opens)
             && db'.epochs == if opens then db.epochs[(Epoch(rules.perEpoch, b.slot), b.parent) := rec] else db.epochs
    requires forall key :: key in db.epochs ==> key in db'.epochs && db'.epochs[key] == db.epochs[key]
    ensures AccountsAt(rules, db', rank', b.hash)
  {
    hide Grounded, EpochRecordFor, Epoch, Sequel, LooseInv, Lookup, RunBefore, NextRegistry;
    var B := rules.perEpoch;
    var p := b.parent;
    if Epoch(B, db.tree[p].slot) != Epoch(B, b.slot) {
      StateAgrees(rules, db, rank, below, b, rec);
      LookupOpened(B, db', rank', b.slot, p);
      var start := StateFor(rules, db, rank, b.slot, p);
      SequelLoose(rules.addr, start, b.stakeKeys, rules.accounts(b.hash), rec.validators);
    } else {
      OldAccounts(rules, db, rank, db', rank', p);
      ParentRecord(rules, db', rank', below, b.hash);
      var r := Lookup(B, db', rank', db'.tree[p].slot, db'.tree[p].parent).value;
      SequelLoose(rules.addr, rules.accounts(p), b.stakeKeys, rules.accounts(b.hash), r.validators);
    }
  }

  /** A block that opened an epoch, in slot zero or later, finds the record it stored. */
  lemma LookupOpened(perEpoch: nat, db: Db, rank: map<Hash, nat>, slot: nat, parent: Hash)
    requires perEpoch > 0 && Grounded(db.tree, rank) && parent in db.tree
    requires Epoch(perEpoch, db.tree[parent].slot) != Epoch(perEpoch, slot)
    requires (Epoch(perEpoch, slot), parent) in db.epochs
    ensures Lookup(perEpoch, db, rank, slot, parent) == Some(db.epochs[(Epoch(perEpoch, slot), parent)])
  {
    hide Epoch, FirstOutside;
    EpochOfZero(perEpoch);
    if slot != 0 {
      LookupAbove(perEpoch, db, rank, slot, parent);
    }
  }

  /**
   What becomes of a key at an epoch boundary above a block: with stake transactions in exactly one
   block of the run its pending stake takes effect; with such transactions in more blocks it is
   removed, whatever its stake.
   */
  lemma BoundaryOutcome(rules: Rules, db: Db, rank: map<Hash, nat>, below: Hash, h: Hash, k: Key)
    requires ValidRules(rules) && DbInv(db, rank, below) && Rooted(db, below) && AccountsInv(rules, db, rank)
    requires h in db.blocks
    ensures var r := RunBefore(rules, db, rank, h);
            r.Some? && KeyOutcome(rules, db.blocks, EpochRun(rules.perEpoch, db.tree, rank, h), r.value, h, k)
  {
    hide Grounded, Epoch, Lookup, EpochRun, LooseInv, KeyOutcome, Injective;
    assert AccountsAt(rules, db, rank, h);
    RunBeforeIs(rules, db, rank, below, h);
    var run := EpochRun(rules.perEpoch, db.tree, rank, h);
    EpochOutcome(rules, db.blocks, run, RunBefore(rules, db, rank, h).value, h, k);
  }

  // ---------- what comes of a record at an epoch boundary ----------

  lemma {:induction false} RunIsBlocks(perEpoch: nat, db: Db, rank: map<Hash, nat>, below: Hash, h: Hash)
    requires perEpoch > 0 && Grounded(db.tree, rank) && Rooted(db, below) && h in db.blocks
    ensures h in db.tree && forall k :: k in EpochRun(perEpoch, db.tree, rank, h) ==> k in db.blocks
    decreases rank[h]
  {
    hide Epoch;
    if !StartsEpoch(perEpoch, db.tree, h) {
      RunIsBlocks(perEpoch, db, rank, below, db.tree[h].parent);
    }
  }

  /** Someone who spoke in the block, after slot zero, is without a full stake in the given accounts. */
  ghost predicate Unbacked(rules: Rules, state: Accounts, b: Block) {
    b.slot != 0 && exists k :: k in b.speakers && Low64(Get(state, rules.addr(k)).stake) < rules.stakeAmount
  }

  /**
   The result at an epoch boundary above a committed block. It fails exactly if someone spoke in the
   run whose stake is not there any more; it faults exactly if, otherwise, no key has any stake after
   the update; and else the record lists exactly the keys with stake, and what was found and allotted is
   one stake for everyone who spoke and for everyone listed before.
   */
  lemma BoundaryResult(rules: Rules, db: Db, rank: map<Hash, nat>, below: Hash, slot: nat, h: Hash)
    requires ValidRules(rules) && DbInv(db, rank, below) && Rooted(db, below) && AccountsInv(rules, db, rank)
    requires h in db.blocks && Epoch(rules.perEpoch, db.tree[h].slot) != Epoch(rules.perEpoch, slot)
    ensures var r := EpochRecordFor(rules, db, rank, slot, h);
            var run := EpochRun(rules.perEpoch, db.tree, rank, h);
            var after := StateFor(rules, db, rank, slot, h);
            var failed := exists k :: k in run && k in db.blocks && Unbacked(rules, rules.accounts(h), db.blocks[k]);
            && (r == NoRecord <==> failed)
            && (r == NoValidators <==> !failed && forall k :: Get(after, rules.addr(k)).stake == 0)
            && (r.Record? ==>
                  && (forall k :: k in r.rec.validators <==> Get(after, rules.addr(k)).stake != 0)
                  && r.rec.found == rules.stakeAmount * |AllSpeakers(db.blocks, run)|
                  && var before := Lookup(rules.perEpoch, db, rank, db.tree[h].slot, db.tree[h].parent);
                     before.Some? && r.rec.alloted == |before.value.validators| * rules.stakeAmount)
  {
    hide Grounded, Epoch, Lookup, EpochRun, LooseInv, UpdateAll, Joined, Loaded, AllSpeakers, Injective, Unbacked;
    assert AccountsAt(rules, db, rank, h);
    RunBeforeIs(rules, db, rank, below, h);
    RunIsBlocks(rules.perEpoch, db, rank, below, h);
    var before := RunBefore(rules, db, rank, h).value;
    var run := EpochRun(rules.perEpoch, db.tree, rank, h);
    LoadedIff(rules, db.blocks, rules.accounts(h), run);
    LooseUpdateAllKeeps(rules.addr, Registry(rules.accounts(h), before.validators), Joined(db.blocks, run));
    var next := NextRegistry(rules, db.blocks, run, before, h);
    assert next == Registry(next.accounts, next.validators);
    KeysWithStake(rules.addr, next);
    LoosePermuted(rules.addr, next.accounts, next.validators, rules.shuffle(h, next.validators));
    KeysWithStake(rules.addr, Registry(next.accounts, rules.shuffle(h, next.validators)));
  }

  lemma LoadedIff(rules: Rules, blocks: map<Hash, Block>, state: Accounts, run: seq<Hash>)
    requires forall k :: k in run ==> k in blocks
    ensures Loaded(rules, blocks, state, run) <==>
            !exists k :: k in run && k in blocks && Unbacked(rules, state, blocks[k])
  {
    hide Unbacked, StakesLoaded;
    forall i | 0 <= i < |run|
      ensures StakesLoaded(rules, state, blocks[run[i]]) <==> !Unbacked(rules, state, blocks[run[i]])
    {
      BackedIff(rules, state, blocks[run[i]]);
    }
  }

  lemma BackedIff(rules: Rules, state: Accounts, b: Block)
    ensures StakesLoaded(rules, state, b) <==> !Unbacked(rules, state, b)
  {
  }

  lemma KeysWithStake(addr: Key -> Address, r: Registry)
    requires LooseInv(addr, r)
    ensures forall k :: k in r.validators <==> Get(r.accounts, addr(k)).stake != 0
    ensures r.validators == [] <==> forall k :: Get(r.accounts, addr(k)).stake == 0
  {
    if r.validators != [] {
      assert r.validators[0] in r.validators;
    }
  }
}

/**
 What all epoch records of a growing database satisfy: every block finds the record of its epoch,
 and every record is what computing it again would give.
 */
module EpochHistory {
  import opened Wrappers
  import opened Hashes
  import opened Ledger
  import opened StakeRegistry
  import opened BlockTree
  import opened ForkChoice
  import opened EpochRecords
  import opened EpochUpdate

  /** Genesis, in slot zero, is the one block above the record below it; every other block sits on a block. */
  ghost predicate Rooted(db: Db, below: Hash) {
    forall h :: h in db.blocks ==>
      h in db.tree && if db.tree[h].parent == below then db.tree[h].slot == 0 else db.tree[h].parent in db.blocks
  }

  /** h opens an epoch above a block of another one. */
  predicate Opens(perEpoch: nat, tree: Tree, h: Hash)
    requires perEpoch > 0
  {
    h in tree && tree[h].parent in tree && Epoch(perEpoch, tree[tree[h].parent].slot) != Epoch(perEpoch, tree[h].slot)
  }

  /** A block that starts an epoch stored its record, and the record is the one that is due. */
  ghost predicate StartsWell(rules: Rules, db: Db, rank: map<Hash, nat>, below: Hash, h: Hash)
    requires rules.perEpoch > 0 && Grounded(db.tree, rank)
  {
    var B := rules.perEpoch;
    h in db.tree && StartsEpoch(B, db.tree, h) ==>
      var key := StoredKey(B, db.tree, h);
      && key in db.epochs
      && (db.tree[h].parent != below ==>
            && Opens(B, db.tree, h)
            && EpochRecordFor(rules, db, rank, db.tree[h].slot, db.tree[h].parent) == Record(db.epochs[key]))
  }

  ghost predicate Owns(perEpoch: nat, db: Db, key: RecordKey, h: Hash)
    requires perEpoch > 0
  {
    h in db.blocks && h in db.tree && StartsEpoch(perEpoch, db.tree, h) && StoredKey(perEpoch, db.tree, h) == key
  }

  /** Every epoch start has its record, every record its epoch start. */
  ghost predicate RecordsInv(rules: Rules, db: Db, rank: map<Hash, nat>, below: Hash)
    requires rules.perEpoch > 0 && Grounded(db.tree, rank)
  {
    && (forall h :: h in db.blocks ==> StartsWell(rules, db, rank, below, h))
    && (forall key :: key in db.epochs ==> exists h :: Owns(rules.perEpoch, db, key, h))
  }

  // ---------- every block finds its record ----------

  lemma {:induction false} FirstIsBlock(perEpoch: nat, db: Db, rank: map<Hash, nat>, below: Hash, h: Hash)
    requires perEpoch > 0 && Grounded(db.tree, rank) && Rooted(db, below) && h in db.blocks
    ensures FirstOfEpoch(perEpoch, db.tree, rank, h) in db.blocks
    decreases rank[h]
  {
    hide Epoch;
    if !StartsEpoch(perEpoch, db.tree, h) {
      var p := db.tree[h].parent;
      FirstIsBlock(perEpoch, db, rank, below, p);
      var run := EpochRun(perEpoch, db.tree, rank, p);
      assert Last([h] + run) == Last(run);
    }
  }

  /** Every block finds a record, and it is under the key its epoch's first block stored. */
  lemma EveryBlockFindsItsRecord(rules: Rules, db: Db, rank: map<Hash, nat>, below: Hash, h: Hash)
    requires rules.perEpoch > 0 && DbInv(db, rank, below) && Rooted(db, below)
    requires RecordsInv(rules, db, rank, below) && h in db.blocks
    ensures var B := rules.perEpoch;
            var f := FirstOfEpoch(B, db.tree, rank, h);
            var key := StoredKey(B, db.tree, f);
            && f in db.blocks && key in db.epochs
            && ResolveKey(B, db.tree, rank, db.tree[h].slot, db.tree[h].parent) == Some(key)
            && Lookup(B, db, rank, db.tree[h].slot, db.tree[h].parent) == Some(db.epochs[key])
  {
    hide Epoch, EpochRecordFor, ResolveKey, EpochRun;
    var B := rules.perEpoch;
    var f := FirstOfEpoch(B, db.tree, rank, h);
    FirstIsBlock(B, db, rank, below, h);
    RunShape(B, db.tree, rank, h);
    assert f in db.tree && db.tree[f].parent != NO_HASH;
    assert StartsWell(rules, db, rank, below, f);
    ResolvesToFirst(B, db.tree, rank, h);
  }

  lemma FirstParent(rules: Rules, db: Db, rank: map<Hash, nat>, below: Hash, h: Hash)
    requires rules.perEpoch > 0 && DbInv(db, rank, below) && Rooted(db, below) && h in db.blocks
    ensures db.tree[FirstOfEpoch(rules.perEpoch, db.tree, rank, h)].parent in db.tree
  {
    hide EpochRun, Epoch;
    FirstIsBlock(rules.perEpoch, db, rank, below, h);
  }

  /** The record of a run is the one its last block finds. */
  lemma RunBeforeIs(rules: Rules, db: Db, rank: map<Hash, nat>, below: Hash, h: Hash)
    requires rules.perEpoch > 0 && DbInv(db, rank, below) && Rooted(db, below) && h in db.blocks
    ensures RunBefore(rules, db, rank, h) == Lookup(rules.perEpoch, db, rank, db.tree[h].slot, db.tree[h].parent)
  {
    hide Epoch, Lookup, Grounded;
    var f := FirstOfEpoch(rules.perEpoch, db.tree, rank, h);
    FirstParent(rules, db, rank, below, h);
    RunShape(rules.perEpoch, db.tree, rank, h);
    SameRecord(rules.perEpoch, db, rank, h, f);
  }

  // ---------- commits ----------

  lemma {:induction false} RunDataSame(rules: Rules, db: Db, db': Db, state: Accounts, run: seq<Hash>)
    requires Extends(db, db') && forall i :: 0 <= i < |run| ==> run[i] in db.tree
    ensures AllSpeakers(db'.blocks, run) == AllSpeakers(db.blocks, run)
    ensures Joined(db'.blocks, run) == Joined(db.blocks, run)
    ensures Loaded(rules, db'.blocks, state, run) == Loaded(rules, db.blocks, state, run)
    decreases |run|
  {
    hide StakesLoaded, Pending;
    if run != [] {
      assert run[0] in db.tree;
      RunDataSame(rules, db, db', state, run[1..]);
    }
  }

  /** A record that can be computed is computed the same as blocks and records are added. */
  lemma RecordSame(rules: Rules, db: Db, rank: map<Hash, nat>, db': Db, rank': map<Hash, nat>, slot: nat, parent: Hash)
    requires rules.perEpoch > 0 && Grounded(db.tree, rank) && Grounded(db'.tree, rank') && Extends(db, db')
    requires forall key :: key in db.epochs ==> key in db'.epochs && db'.epochs[key] == db.epochs[key]
    requires EpochRecordFor(rules, db, rank, slot, parent).Record?
    ensures EpochRecordFor(rules, db', rank', slot, parent) == EpochRecordFor(rules, db, rank, slot, parent)
  {
    hide Epoch, Lookup, Grounded, EpochRun, AllSpeakers, Joined, Loaded, UpdateAll;
    var B := rules.perEpoch;
    if Epoch(B, db.tree[parent].slot) == Epoch(B, slot) {
      LookupSame(B, db, rank, db', rank', slot, parent);
    } else {
      EpochRunSame(B, db.tree, rank, db'.tree, rank', parent);
      var run := EpochRun(B, db.tree, rank, parent);
      var first := db.tree[Last(run)];
      LookupSame(B, db, rank, db', rank', first.slot, first.parent);
      RunDataSame(rules, db, db', rules.accounts(parent), run);
    }
  }

  /** A record stored under a block's hash is that of another epoch. */
  lemma RecordAbove(rules: Rules, db: Db, rank: map<Hash, nat>, below: Hash, key: RecordKey)
    requires rules.perEpoch > 0 && DbInv(db, rank, below) && RecordsInv(rules, db, rank, below)
    requires key in db.epochs && key.1 in db.blocks
    ensures Epoch(rules.perEpoch, db.tree[key.1].slot) != key.0
  {
    hide Grounded, EpochRecordFor, Epoch;
    var h :| Owns(rules.perEpoch, db, key, h);
    assert StartsWell(rules, db, rank, below, h);
  }

  /** Above a block of epoch zero nothing can be added in slot zero: there is no record for it. */
  lemma SlotZeroOpens(rules: Rules, db: Db, rank: map<Hash, nat>, below: Hash, slot: nat, parent: Hash)
    requires rules.perEpoch > 0 && DbInv(db, rank, below) && RecordsInv(rules, db, rank, below)
    requires slot == 0 && parent in db.blocks
    requires EpochRecordFor(rules, db, rank, slot, parent).Record?
    ensures Epoch(rules.perEpoch, db.tree[parent].slot) != Epoch(rules.perEpoch, slot)
  {
    hide Grounded, EpochRun, UpdateAll, NewRecord, Epoch, RecordsInv;
    EpochOfZero(rules.perEpoch);
    if (0, parent) in db.epochs {
      RecordAbove(rules, db, rank, below, (0, parent));
    }
  }

  /** The record that is due at an epoch start is what is stored under its key, if anything is. */
  lemma RecordKnown(rules: Rules, db: Db, rank: map<Hash, nat>, below: Hash, slot: nat, parent: Hash)
    requires rules.perEpoch > 0 && DbInv(db, rank, below) && RecordsInv(rules, db, rank, below)
    requires parent in db.blocks && Epoch(rules.perEpoch, db.tree[parent].slot) != Epoch(rules.perEpoch, slot)
    requires EpochRecordFor(rules, db, rank, slot, parent).Record?
    ensures var rec := EpochRecordFor(rules, db, rank, slot, parent).rec;
            var key := (Epoch(rules.perEpoch, slot), parent);
            (rec.epoch, rec.prev) == key && (key in db.epochs ==> db.epochs[key] == rec)
  {
    hide Grounded, EpochRun, UpdateAll, Epoch, Lookup;
    var B := rules.perEpoch;
    var key := (Epoch(B, slot), parent);
    if key in db.epochs {
      var h :| Owns(B, db, key, h);
      assert StartsWell(rules, db, rank, below, h);
      assert EpochRecordFor(rules, db, rank, db.tree[h].slot, parent) == Record(db.epochs[key]);
    }
  }

  /** A commit under the record that is due only ever adds a record. */
  lemma CommitEpochs(rules: Rules, db: Db, rank: map<Hash, nat>, below: Hash, b: Block)
    requires rules.perEpoch > 0 && DbInv(db, rank, below) && RecordsInv(rules, db, rank, below)
    requires Commits(db, below, b) && b.parent in db.blocks
    requires EpochRecordFor(rules, db, rank, b.slot, b.parent).Record?
    ensures var B := rules.perEpoch;
            var rec := EpochRecordFor(rules, db, rank, b.slot, b.parent).rec;
            var opens := Epoch(B, db.tree[b.parent].slot) != Epoch(B, b.slot);
            && Commit(B, db, b, rec).Some? && (b.slot == 0 ==> opens)
            && var epochs' := Commit(B, db, b, rec).value.epochs;
               && epochs' == (if opens then db.epochs[(Epoch(B, b.slot), b.parent) := rec] else db.epochs)
               && forall key :: key in db.epochs ==> key in epochs' && epochs'[key] == db.epochs[key]
  {
    hide Grounded, EpochRecordFor, RecordsInv, Epoch;
    var B := rules.perEpoch;
    if b.slot == 0 {
      SlotZeroOpens(rules, db, rank, below, b.slot, b.parent);
    }
    if Epoch(B, db.tree[b.parent].slot) != Epoch(B, b.slot) {
      RecordKnown(rules, db, rank, below, b.slot, b.parent);
    }
  }

  /** A commit under the record that is due keeps every record owned and exact. */
  lemma CommitRecords(rules: Rules, db: Db, rank: map<Hash, nat>, below: Hash, b: Block)
    requires rules.perEpoch > 0 && DbInv(db, rank, below) && Rooted(db, below) && RecordsInv(rules, db, rank, below)
    requires Commits(db, below, b) && b.parent in db.blocks
    requires EpochRecordFor(rules, db, rank, b.slot, b.parent).Record?
    ensures var rec := EpochRecordFor(rules, db, rank, b.slot, b.parent).rec;
            var r := Commit(rules.perEpoch, db, b, rec);
            && r.Some? && Grounded(r.value.tree, CommitRank(db, rank, b))
            && Rooted(r.value, below) && RecordsInv(rules, r.value, CommitRank(db, rank, b), below)
  {
    hide Grounded, EpochRecordFor, Epoch, Extends, CommitRank, RecordsInv, StartsWell, DbInv, Rooted, Commit, Owns;
    var B := rules.perEpoch;
    InvGrounded(db, rank, below);
    var rec := EpochRecordFor(rules, db, rank, b.slot, b.parent).rec;
    CommitGrounded(B, db, rank, below, b, rec);
    CommitEpochs(rules, db, rank, below, b);
    var db' := Commit(B, db, b, rec).value;
    var rank' := CommitRank(db, rank, b);
    InvGrounded(db', rank', below);
    CommitBlocks(B, db, b, rec);
    RootedAfter(B, db, below, b, rec, db');
    RecordSame(rules, db, rank, db', rank', b.slot, b.parent);
    RecordKeyOf(rules, db, rank, below, b);
    NewStartsWell(rules, db, rank, below, b, rec, db', rank');
    forall h | h in db'.blocks
      ensures StartsWell(rules, db', rank', below, h)
    {
      if h != b.hash {
        OldStartsWell(rules, db, rank, below, db', rank', h);
      }
    }
    forall key | key in db'.epochs
      ensures exists h :: Owns(B, db', key, h)
    {
      if key in db.epochs {
        var h := OwnerStays(rules, db, rank, below, db', key);
      } else {
        NewOwns(B, db, below, b, rec, db');
      }
    }
    RecordsFrom(rules, db', rank', below);
  }

  lemma CommitBlocks(perEpoch: nat, db: Db, b: Block, rec: EpochRec)
    requires perEpoch > 0 && Commit(perEpoch, db, b, rec).Some?
    ensures Commit(perEpoch, db, b, rec).value.blocks == db.blocks[b.hash := b]
  {
  }

  lemma RecordKeyOf(rules: Rules, db: Db, rank: map<Hash, nat>, below: Hash, b: Block)
    requires rules.perEpoch > 0 && DbInv(db, rank, below) && RecordsInv(rules, db, rank, below)
    requires b.parent in db.blocks && EpochRecordFor(rules, db, rank, b.slot, b.parent).Record?
    ensures var rec := EpochRecordFor(rules, db, rank, b.slot, b.parent).rec;
            Epoch(rules.perEpoch, db.tree[b.parent].slot) != Epoch(rules.perEpoch, b.slot) ==>
              (rec.epoch, rec.prev) == (Epoch(rules.perEpoch, b.slot), b.parent)
  {
    hide Grounded, EpochRecordFor, Epoch, RecordsInv;
    if Epoch(rules.perEpoch, db.tree[b.parent].slot) != Epoch(rules.perEpoch, b.slot) {
      RecordKnown(rules, db, rank, below, b.slot, b.parent);
    }
  }

  lemma NewOwns(perEpoch: nat, db: Db, below: Hash, b: Block, rec: EpochRec, db': Db)
    requires perEpoch > 0 && Extends(db, db') && b.parent in db.tree && Commits(db, below, b)
    requires Commit(perEpoch, db, b, rec) == Some(db')
    requires var opens := Epoch(perEpoch, db.tree[b.parent].slot) != Epoch(perEpoch, b.slot);
             (b.slot == 0 ==> opens) && (opens ==> (rec.epoch, rec.prev) == (Epoch(perEpoch, b.slot), b.parent))
    ensures forall key :: key in db'.epochs && key !in db.epochs ==> Owns(perEpoch, db', key, b.hash)
  {
    hide Epoch;
  }

  lemma RootedAfter(perEpoch: nat, db: Db, below: Hash, b: Block, rec: EpochRec, db': Db)
    requires perEpoch > 0 && Rooted(db, below) && Extends(db, db') && Commit(perEpoch, db, b, rec) == Some(db')
    requires b.parent in db.blocks && b.parent != below
    ensures Rooted(db', below)
  {
    hide Epoch;
    forall h | h in db'.blocks
      ensures h in db'.tree
              && if db'.tree[h].parent == below then db'.tree[h].slot == 0 else db'.tree[h].parent in db'.blocks
    {
      if h != b.hash { assert h in db.blocks; }
    }
  }

  lemma RecordsFrom(rules: Rules, db: Db, rank: map<Hash, nat>, below: Hash)
    requires rules.perEpoch > 0 && Grounded(db.tree, rank)
    requires forall h :: h in db.blocks ==> StartsWell(rules, db, rank, below, h)
    requires forall key :: key in db.epochs ==> exists h :: Owns(rules.perEpoch, db, key, h)
    ensures RecordsInv(rules, db, rank, below)
  {
  }

  lemma OwnerStays(rules: Rules, db: Db, rank: map<Hash, nat>, below: Hash, db': Db, key: RecordKey) returns (h: Hash)
    requires rules.perEpoch > 0 && DbInv(db, rank, below) && RecordsInv(rules, db, rank, below) && Extends(db, db')
    requires key in db.epochs
    ensures Owns(rules.perEpoch, db', key, h)
  {
    hide Grounded, Epoch, EpochRecordFor;
    h :| Owns(rules.perEpoch, db, key, h);
    assert db.tree[h].parent != NO_HASH;
    ParentStays(db.tree, rank, h);
  }

  lemma ParentStays(tree: Tree, rank: map<Hash, nat>, h: Hash)
    requires Grounded(tree, rank) && h in tree
    ensures tree[h].parent == NO_HASH || tree[h].parent in tree
    ensures NO_HASH !in tree
  {
  }

  lemma OldStartsWell(rules: Rules, db: Db, rank: map<Hash, nat>, below: Hash, db': Db, rank': map<Hash, nat>, h: Hash)
    requires rules.perEpoch > 0 && DbInv(db, rank, below) && RecordsInv(rules, db, rank, below) && Extends(db, db')
    requires Grounded(db'.tree, rank') && h in db.blocks
    requires forall key :: key in db.epochs ==> key in db'.epochs && db'.epochs[key] == db.epochs[key]
    ensures StartsWell(rules, db', rank', below, h)
  {
    hide Grounded, Epoch, EpochRecordFor;
    assert StartsWell(rules, db, rank, below, h);
    ParentStays(db.tree, rank, h);
    if StartsEpoch(rules.perEpoch, db.tree, h) && db.tree[h].parent != below {
      RecordSame(rules, db, rank, db', rank', db.tree[h].slot, db.tree[h].parent);
    }
  }

  lemma NewStartsWell(rules: Rules, db: Db, rank: map<Hash, nat>, below: Hash, b: Block, rec: EpochRec, db': Db,
                      rank': map<Hash, nat>)
    requires rules.perEpoch > 0 && DbInv(db, rank, below) && Grounded(db'.tree, rank') && Extends(db, db')
    requires Commits(db, below, b) && b.parent in db.blocks && Commit(rules.perEpoch, db, b, rec) == Some(db')
    requires EpochRecordFor(rules, db', rank', b.slot, b.parent) == Record(rec)
    requires var opens := Epoch(rules.perEpoch, db.tree[b.parent].slot) != Epoch(rules.perEpoch, b.slot);
             && (b.slot == 0 ==> opens)
             && (opens ==> (rec.epoch, rec.prev) == (Epoch(rules.perEpoch, b.slot), b.parent))
    ensures StartsWell(rules, db', rank', below, b.hash)
  {
    hide Grounded, Epoch, EpochRecordFor;
  }
}

/**
 The chain object: blocks are checked against finality, processed, committed, may become the
 head, and may finalize what lies two epoch runs below them.
 */
module ChainNode {
  import opened Wrappers
  import opened Hashes
  import EM = EpochMeta
  import opened StakeRegistry
  import opened BlockTree
  import opened ForkChoice
  import opened EpochRecords
  import opened EpochUpdate
  import opened EpochHistory
  import opened EpochSpeakers
  import opened EpochAccounts
  import opened Finality

  /**
   What became of a block: rejected, a fault for lack of validators, added, or added with
   finalization running into an empty path.
   */
  datatype Status = Rejected | Panicked | Added | AddedThenPanics

  /** What processing counts: one stake for everyone who speaks, and nothing in slot zero. */
  predicate Counted(stakeAmount: nat, b: Block) {
    b.stake == if b.slot == 0 then 0 else stakeAmount * |b.speakers|
  }

  /** Everything the node's database satisfies between two blocks. */
  ghost predicate NodeInv(rules: Rules, db: Db, rank: map<Hash, nat>, below: Hash) {
    && ValidRules(rules)
    && DbInv(db, rank, below)
    && TotalsInv(db, rank)
    && Rooted(db, below)
    && RecordsInv(rules, db, rank, below)
    && DistinctInv(db)
    && SpeaksInv(rules, db, rank)
    && AccountsInv(rules, db, rank)
    && db.finalizedSlot == db.tree[db.finalized].slot
    && forall h :: h in db.blocks ==> Counted(rules.stakeAmount, db.blocks[h])
  }

  /** A block as it reaches the node: identified by its hash. */
  ghost predicate Arrives(rules: Rules, db: Db, below: Hash, b: Block) {
    && b.hash != NO_HASH && b.hash != below && Counted(rules.stakeAmount, b)
    && (b.hash in db.blocks ==> db.blocks[b.hash] == b)
  }

  /** The block may be committed: its record is known, and the validators of its slot speak for it. */
  ghost predicate Committable(rules: Rules, db: Db, rank: map<Hash, nat>, b: Block) {
    && rules.perEpoch > 0 && Grounded(db.tree, rank) && b.parent in db.blocks
    && var r := EpochRecordFor(rules, db, rank, b.slot, b.parent);
       r.Record? && (b.slot != 0 ==> Speaks(rules.perEpoch, r.rec.validators, b))
  }

  lemma NodeParts(rules: Rules, db: Db, rank: map<Hash, nat>, below: Hash)
    requires NodeInv(rules, db, rank, below)
    ensures rules.perEpoch > 0 && Grounded(db.tree, rank) && RootsInSlotZero(db.tree)
    ensures db.finalized in db.tree && db.last in db.tree && db.finalizedSlot == db.tree[db.finalized].slot
    ensures db.finalized in db.blocks && db.blocks[db.finalized].slot == db.finalizedSlot
    ensures db.blocks.Keys <= db.tree.Keys
    ensures forall h :: h in db.blocks ==> db.tree[h].slot == db.blocks[h].slot
  {
    hide Grounded, TotalsInv, RecordsInv, SpeaksInv, AccountsInv;
  }

  /** A commit under the record that is due keeps the whole invariant. */
  lemma CommitKeepsNode(rules: Rules, db: Db, rank: map<Hash, nat>, below: Hash, b: Block)
    requires NodeInv(rules, db, rank, below) && Arrives(rules, db, below, b) && Committable(rules, db, rank, b)
    requires ProcessedOn(rules, db, rank, b)
    ensures var rec := EpochRecordFor(rules, db, rank, b.slot, b.parent).rec;
            var r := Commit(rules.perEpoch, db, b, rec);
            r.Some? && NodeInv(rules, r.value, CommitRank(db, rank, b), below) && Extends(db, r.value)
            && r.value.finalized == db.finalized
  {
    hide Grounded, TotalsInv, RecordsInv, SpeaksInv, AccountsInv, ProcessedOn, EpochRecordFor, Epoch, Speaks, Extends,
      CommitRank, Injective;
    var rec := EpochRecordFor(rules, db, rank, b.slot, b.parent).rec;
    CommitGrounded(rules.perEpoch, db, rank, below, b, rec);
    CommitAccounts(rules, db, rank, below, b);
    CommitTotals(rules.perEpoch, db, rank, below, b, rec);
    CommitRecords(rules, db, rank, below, b);
    CommitSpeaks(rules, db, rank, below, b);
    CommitRest(rules.perEpoch, db, rank, below, b, rec);
  }

  lemma CommitRest(perEpoch: nat, db: Db, rank: map<Hash, nat>, below: Hash, b: Block, rec: EpochRec)
    requires perEpoch > 0 && DbInv(db, rank, below) && Commits(db, below, b)
    ensures Commit(perEpoch, db, b, rec).Some?
    ensures var db' := Commit(perEpoch, db, b, rec).value;
            && db'.finalized == db.finalized && db'.finalizedSlot == db.finalizedSlot
            && db'.tree[db.finalized].slot == db.tree[db.finalized].slot
            && db'.blocks == db.blocks[b.hash := b]
  {
    hide Grounded, Epoch;
  }

  /** Recording a finalized block changes nothing else. */
  lemma FinalizeKeepsNode(rules: Rules, db: Db, rank: map<Hash, nat>, below: Hash, f: Hash)
    requires NodeInv(rules, db, rank, below) && f in db.blocks
    ensures NodeInv(rules, db.(finalized := f, finalizedSlot := db.tree[f].slot), rank, below)
  {
    hide Grounded, TotalsInv, RecordsInv, SpeaksInv, AccountsInv, Epoch, StartsWell, SpeaksAt, AccountsAt, Owns,
      ValidRules, Rooted, DistinctInv;
    var db' := db.(finalized := f, finalizedSlot := db.tree[f].slot);
    NodeParts(rules, db, rank, below);
    FinalizeKeepsTotals(db, rank, below, f);
    forall h | h in db'.blocks
      ensures StartsWell(rules, db', rank, below, h) && SpeaksAt(rules, db', rank, h) && AccountsAt(rules, db', rank, h)
    {
      OldStartsWell(rules, db, rank, below, db', rank, h);
      OldAccounts(rules, db, rank, db', rank, h);
      OldSpeaks(rules, db, rank, below, db', rank, h);
    }
    forall key | key in db'.epochs
      ensures exists h :: Owns(rules.perEpoch, db', key, h)
    {
      var h := OwnerStays(rules, db, rank, below, db', key);
    }
    RecordsFrom(rules, db', rank, below);
    SpeaksFrom(rules, db', rank);
    assert Rooted(db', below) && DistinctInv(db') by {
      RootedSame(db, below, db');
    }
  }

  lemma SpeaksFrom(rules: Rules, db: Db, rank: map<Hash, nat>)
    requires rules.perEpoch > 0 && Grounded(db.tree, rank)
    requires forall h :: h in db.blocks ==> SpeaksAt(rules, db, rank, h) && AccountsAt(rules, db, rank, h)
    ensures SpeaksInv(rules, db, rank) && AccountsInv(rules, db, rank)
  {
  }

  lemma RootedSame(db: Db, below: Hash, db': Db)
    requires Rooted(db, below) && DistinctInv(db)
    requires db'.tree == db.tree && db'.blocks == db.blocks && db'.epochs == db.epochs
    ensures Rooted(db', below) && DistinctInv(db')
  {
  }

  lemma FinalizeKeepsTotals(db: Db, rank: map<Hash, nat>, below: Hash, f: Hash)
    requires DbInv(db, rank, below) && TotalsInv(db, rank) && f in db.tree
    ensures TotalsInv(db.(finalized := f, finalizedSlot := db.tree[f].slot), rank)
  {
    hide Grounded, PathStake, StakeSinceZero;
    var db' := db.(finalized := f, finalizedSlot := db.tree[f].slot);
    forall h | h in db'.tree
      ensures db'.tree[h].total == StakeSinceZero(db', rank, h)
    {
      StakesSame(db, rank, db', rank, h);
    }
  }

  /** Genesis satisfies the node's invariant. */
  lemma GenesisNode(rules: Rules, below: Hash, g: Block, rec: EpochRec)
    requires ValidRules(rules) && below != NO_HASH && g.hash != NO_HASH && g.hash != below
    requires g.parent == below && g.slot == 0 && g.stake == 0
    requires (rec.epoch, rec.prev) == (0, below)
    requires LooseInv(rules.addr, Registry(rules.accounts(g.hash), rec.validators))
    ensures NodeInv(rules, Genesis(below, g, rec), map[below := 0, g.hash := 1], below)
    ensures HeadInv(Genesis(below, g, rec), [g])
  {
    hide Grounded, TotalsInv, FullTotals, HeadInv, Epoch, EpochRecordFor, LooseInv, Injective;
    LooseDistinct(rules.addr, Registry(rules.accounts(g.hash), rec.validators));
    var db := Genesis(below, g, rec);
    var rank := map[below := 0, g.hash := 1];
    GenesisHolds(below, g, rec);
    InvGrounded(db, rank, below);
    EpochOfZero(rules.perEpoch);
    assert StartsWell(rules, db, rank, below, g.hash);
    assert Owns(rules.perEpoch, db, (0, below), g.hash);
    assert SpeaksAt(rules, db, rank, g.hash);
    assert AccountsAt(rules, db, rank, g.hash);
  }

  lemma AncestorSelf(tree: Tree, rank: map<Hash, nat>, h: Hash)
    requires Grounded(tree, rank) && h in tree
    ensures Ancestor(tree, rank, h, h)
  {
  }

  // ---------- what is finalized ----------

  /** A path to finalize consists of blocks of the chain, linked down to the finalized block. */
  lemma FinalizedPath(perEpoch: nat, db: Db, rank: map<Hash, nat>, b: Block, rec: EpochRec)
    requires perEpoch > 0 && Grounded(db.tree, rank)
    requires FinalizeOutcome(perEpoch, db, rank, b, rec).Finalizes?
    requires FinalizeOutcome(perEpoch, db, rank, b, rec).path != []
    ensures var path := FinalizeOutcome(perEpoch, db, rank, b, rec).path;
            && (forall i :: 0 <= i < |path| ==> path[i] in db.tree)
            && Contiguous(db.tree, path, db.finalized) && db.tree[Last(path)].parent == db.finalized
  {
    var run1 := WholeRun(perEpoch, db.tree, rank, b.parent).value;
    var run2 := WholeRun(perEpoch, db.tree, rank, db.tree[Last(run1)].parent).value;
    PathIsContiguous(db.tree, rank, db.tree[Last(run2)].parent, db.finalized);
  }

  /** A descendant of the finalized block is a block: nothing lies below genesis's parent record. */
  lemma AboveBlockIsBlock(rules: Rules, db: Db, rank: map<Hash, nat>, below: Hash, h: Hash)
    requires NodeInv(rules, db, rank, below) && h in db.tree
    requires Ancestor(db.tree, rank, db.finalized, h)
    ensures h in db.blocks
  {
    hide TotalsInv, RecordsInv, SpeaksInv, AccountsInv, DistinctInv, ValidRules, Epoch;
    assert Lineage(db.tree, rank, NO_HASH) == [];
    assert Lineage(db.tree, rank, below) == [below];
  }

  /** Outside epoch zero a whole run is the run the epoch records are computed from. */
  lemma {:induction false} WholeIsEpochRun(perEpoch: nat, tree: Tree, rank: map<Hash, nat>, h: Hash)
    requires perEpoch > 0 && Grounded(tree, rank) && h in tree
    requires Epoch(perEpoch, tree[h].slot) != 0 && WholeRun(perEpoch, tree, rank, h).Some?
    ensures WholeRun(perEpoch, tree, rank, h) == Some(EpochRun(perEpoch, tree, rank, h))
    decreases rank[h]
  {
    var p := tree[h].parent;
    if Epoch(perEpoch, tree[h].slot) == Epoch(perEpoch, tree[p].slot) {
      WholeIsEpochRun(perEpoch, tree, rank, p);
    }
  }

  /**
   In the epoch run that ends in h, the validators who spoke held at least two thirds of the stake
   of all validators of the run's record; and if its slots rise, they were different validators.
   */
  ghost predicate TwoThirdsSpoke(rules: Rules, db: Db, rank: map<Hash, nat>, h: Hash)
    requires rules.perEpoch > 0 && Grounded(db.tree, rank) && h in db.tree
  {
    var run := EpochRun(rules.perEpoch, db.tree, rank, h);
    var all := AllSpeakers(db.blocks, run);
    var r := Lookup(rules.perEpoch, db, rank, db.tree[h].slot, db.tree[h].parent);
    && r.Some?
    && (rules.stakeAmount * |all|) * 3 >= (|r.value.validators| * rules.stakeAmount) * 2
    && (Rising(db.tree, run) ==>
          EM.Distinct(all) && forall k :: k in all ==> SpokeBy(rules.perEpoch, r.value.validators, db.tree[h].slot, k))
  }

  /** The record computed at an epoch start says of the run below it what the run holds. */
  lemma RecordOfRun(rules: Rules, db: Db, rank: map<Hash, nat>, below: Hash, slot: nat, h: Hash, rec: EpochRec)
    requires NodeInv(rules, db, rank, below) && h in db.blocks
    requires Epoch(rules.perEpoch, db.tree[h].slot) != Epoch(rules.perEpoch, slot)
    requires EpochRecordFor(rules, db, rank, slot, h) == Record(rec) && 3 * rec.found >= 2 * rec.alloted
    ensures TwoThirdsSpoke(rules, db, rank, h)
  {
    hide Epoch, Lookup, EpochRun, AllSpeakers, Grounded, TotalsInv, UpdateAll, Joined, Loaded, RecordsInv, SpeaksInv,
      AccountsInv, Rising, SpokeBy;
    RunBeforeIs(rules, db, rank, below, h);
    if Rising(db.tree, EpochRun(rules.perEpoch, db.tree, rank, h)) {
      RunSpeakers(rules, db, rank, below, h);
    }
  }

  /** With slots that rise, the stake a record found is never more than the stake that was allotted. */
  lemma FoundWithinAlloted(rules: Rules, db: Db, rank: map<Hash, nat>, below: Hash, slot: nat, h: Hash, rec: EpochRec)
    requires NodeInv(rules, db, rank, below) && h in db.blocks
    requires Epoch(rules.perEpoch, db.tree[h].slot) != Epoch(rules.perEpoch, slot)
    requires EpochRecordFor(rules, db, rank, slot, h) == Record(rec)
    requires Rising(db.tree, EpochRun(rules.perEpoch, db.tree, rank, h))
    ensures rec.found <= rec.alloted
  {
    hide Epoch, Lookup, EpochRun, AllSpeakers, Grounded, TotalsInv, UpdateAll, Joined, Loaded, RecordsInv, SpeaksInv,
      AccountsInv, Rising;
    RunBeforeIs(rules, db, rank, below, h);
    SpeakersFit(rules, db, rank, below, h);
    var before := RunBefore(rules, db, rank, h).value;
    var all := AllSpeakers(db.blocks, EpochRun(rules.perEpoch, db.tree, rank, h));
    MoreTimes(rules.stakeAmount, |all|, |before.validators|);
  }

  lemma MoreTimes(a: nat, b: nat, c: nat)
    requires b <= c
    ensures a * b <= c * a
  {
  }

  /** Both runs below a block that finalizes were spoken for by two thirds of their validators. */
  ghost predicate TwoThirdsBelow(rules: Rules, db: Db, rank: map<Hash, nat>, b: Block) {
    && rules.perEpoch > 0 && Grounded(db.tree, rank) && b.parent in db.tree
    && TwoThirdsSpoke(rules, db, rank, b.parent)
    && var q := db.tree[FirstOfEpoch(rules.perEpoch, db.tree, rank, b.parent)].parent;
       q in db.tree && TwoThirdsSpoke(rules, db, rank, q)
  }

  /** Whatever is finalized was spoken for, twice, by two thirds of the validators. */
  lemma FinalizedByTwoThirds(rules: Rules, db: Db, rank: map<Hash, nat>, below: Hash, b: Block, rec: EpochRec)
    requires NodeInv(rules, db, rank, below) && b.parent in db.blocks
    requires Epoch(rules.perEpoch, db.tree[b.parent].slot) != Epoch(rules.perEpoch, b.slot)
    requires EpochRecordFor(rules, db, rank, b.slot, b.parent) == Record(rec)
    requires FinalizeOutcome(rules.perEpoch, db, rank, b, rec).Finalizes?
    ensures TwoThirdsBelow(rules, db, rank, b)
  {
    hide PathTo, EnoughEpochs, NodeInv, EpochRun, FinalizeOutcome, WholeRun, Grounded, Lineage, Epoch, EpochRecordFor,
      TwoThirdsSpoke, AllInEpoch;
    var B := rules.perEpoch;
    NodeParts(rules, db, rank, below);
    var run1, run2 := FinalizesBelowTwoRuns(B, db, rank, b, rec);
    RecordOfRun(rules, db, rank, below, b.slot, b.parent, rec);
    WholeIsEpochRun(B, db.tree, rank, b.parent);
    var f := FirstOfEpoch(B, db.tree, rank, b.parent);
    FirstOpens(rules, db, rank, below, b.parent, run1);
    SecondRun(rules, db, rank, below, f);
  }

  /** The first block of a whole run opened its epoch. */
  lemma FirstOpens(rules: Rules, db: Db, rank: map<Hash, nat>, below: Hash, h: Hash, run: seq<Hash>)
    requires NodeInv(rules, db, rank, below) && h in db.blocks
    requires Epoch(rules.perEpoch, db.tree[h].slot) != 0 && WholeRun(rules.perEpoch, db.tree, rank, h) == Some(run)
    ensures var f := FirstOfEpoch(rules.perEpoch, db.tree, rank, h);
            && f == Last(run) && f in db.blocks && Opens(rules.perEpoch, db.tree, f)
            && Epoch(rules.perEpoch, db.tree[f].slot) == Epoch(rules.perEpoch, db.tree[h].slot)
  {
    hide EpochRun, WholeRun, TotalsInv, RecordsInv, SpeaksInv, AccountsInv, Lineage, Epoch;
    WholeIsEpochRun(rules.perEpoch, db.tree, rank, h);
    RunInOneEpoch(rules.perEpoch, db.tree, rank, h);
    FirstIsBlock(rules.perEpoch, db, rank, below, h);
    assert Last(run) in run;
  }

  /** The run below a block that opened an epoch other than epoch zero, if that block's record has two thirds. */
  lemma SecondRun(rules: Rules, db: Db, rank: map<Hash, nat>, below: Hash, f: Hash)
    requires NodeInv(rules, db, rank, below) && f in db.blocks && Opens(rules.perEpoch, db.tree, f)
    requires var q := db.tree[f].parent;
             var key := (Epoch(rules.perEpoch, db.tree[f].slot), q);
             key.0 != 0 && key in db.epochs && 3 * db.epochs[key].found >= 2 * db.epochs[key].alloted
    ensures TwoThirdsSpoke(rules, db, rank, db.tree[f].parent)
  {
    hide TotalsInv, SpeaksInv, AccountsInv, Lineage, Epoch, Grounded, EpochRecordFor, TwoThirdsSpoke;
    assert StartsWell(rules, db, rank, below, f);
    EpochOfZero(rules.perEpoch);
    assert db.tree[f].parent != below;
    RecordOfRun(rules, db, rank, below, db.tree[f].slot, db.tree[f].parent,
                db.epochs[StoredKey(rules.perEpoch, db.tree, f)]);
  }

  /** The last step of AddBlock: finalize below the block if the records allow it. */
  method FinalizeBelowBlock(perEpoch: nat, db: Db, b: Block, rec: EpochRec, ghost rank: map<Hash, nat>)
    returns (db': Db, status: Status)
    requires perEpoch > 0 && Grounded(db.tree, rank)
    requires db.finalized in db.tree && db.finalizedSlot == db.tree[db.finalized].slot
    ensures status == if FinalizeOutcome(perEpoch, db, rank, b, rec) == Finalizes([]) then AddedThenPanics else Added
    ensures db'.finalized in db.tree && Ancestor(db.tree, rank, db.finalized, db'.finalized)
    ensures db' == Finalized(db, FinalizeOutcome(perEpoch, db, rank, b, rec))
    ensures match FinalizeOutcome(perEpoch, db, rank, b, rec)
            case Finalizes(path) => if path == [] then db' == db else db'.finalized == path[0] != db.finalized
            case _ => db' == db
  {
    hide Grounded, FinalizeOutcome, Lineage, Contiguous, Epoch, Ancestor;
    AncestorSelf(db.tree, rank, db.finalized);
    db', status := db, Added;
    var r := UpdateFinalizedEpoch(perEpoch, db, b, rec, rank);
    if r.Finalizes? {
      if r.path == [] {
        status := AddedThenPanics;
      } else {
        FinalityExtends(perEpoch, db, rank, b, rec);
        FinalizedPath(perEpoch, db, rank, b, rec);
        var f := Finalize(db, r.path);
        db' := f.value;
      }
    }
  }

  /** Each block of the log is an ancestor of every later one. */
  ghost predicate OneLine(tree: Tree, rank: map<Hash, nat>, log: seq<Hash>)
    requires Grounded(tree, rank)
  {
    forall i, j :: 0 <= i <= j < |log| ==> log[i] in tree && Ancestor(tree, rank, log[i], log[j])
  }

  lemma OneLineStart(tree: Tree, rank: map<Hash, nat>, h: Hash)
    requires Grounded(tree, rank) && h in tree
    ensures OneLine(tree, rank, [h])
  {
    AncestorSelf(tree, rank, h);
  }

  lemma OneLineExtends(db: Db, rank: map<Hash, nat>, db': Db, rank': map<Hash, nat>, log: seq<Hash>)
    requires Grounded(db.tree, rank) && Grounded(db'.tree, rank') && Extends(db, db')
    requires OneLine(db.tree, rank, log)
    ensures OneLine(db'.tree, rank', log)
  {
    forall i, j | 0 <= i <= j < |log|
      ensures log[i] in db'.tree && Ancestor(db'.tree, rank', log[i], log[j])
    {
      assert log[j] in db.tree && Ancestor(db.tree, rank, log[i], log[j]);
      LineageSame(db.tree, rank, db'.tree, rank', log[j]);
    }
  }

  lemma OneLineNext(tree: Tree, rank: map<Hash, nat>, log: seq<Hash>, f: Hash)
    requires Grounded(tree, rank) && OneLine(tree, rank, log) && log != []
    requires f in tree && Ancestor(tree, rank, log[|log| - 1], f)
    ensures OneLine(tree, rank, log + [f])
  {
    var log' := log + [f];
    forall i, j | 0 <= i <= j < |log'|
      ensures log'[i] in tree && Ancestor(tree, rank, log'[i], log'[j])
    {
      if j < |log| {
        assert log'[i] == log[i] && log'[j] == log[j];
      } else if i < |log| {
        AncestorTrans(tree, rank, log[i], log[|log| - 1], f);
      } else {
        AncestorSelf(tree, rank, f);
      }
    }
  }

  // ---------- what adding a block amounts to ----------

  /** What is checked of a block before its epoch record is computed. */
  predicate Checked(db: Db, b: Block, hashOk: bool, maxSlot: nat) {
    && hashOk && b.slot <= maxSlot && b.parent in db.blocks
    && db.blocks[b.parent].slot >= db.finalizedSlot
    && (db.blocks[b.parent].slot == db.finalizedSlot ==> b.parent == db.finalized)
  }

  /** The parent is the finalized block, or a block of a later slot. */
  predicate ParentNotBelow(db: Db, b: Block) {
    && b.parent in db.blocks && db.finalized in db.blocks
    && (b.parent == db.finalized || db.blocks[b.parent].slot > db.blocks[db.finalized].slot)
  }

  lemma CheckedIff(rules: Rules, db: Db, rank: map<Hash, nat>, below: Hash, b: Block, hashOk: bool, maxSlot: nat)
    requires NodeInv(rules, db, rank, below)
    ensures Checked(db, b, hashOk, maxSlot) <==>
            hashOk && b.slot <= maxSlot && ParentNotBelow(db, b)
  {
    hide NodeInv, Grounded;
    NodeParts(rules, db, rank, below);
  }

  /** The outcome of finalizing at b, if it is the head and opens an epoch. */
  ghost function OutcomeAt(perEpoch: nat, db: Db, rank: map<Hash, nat>, b: Block, rec: EpochRec): Outcome {
    if && perEpoch > 0 && Grounded(db.tree, rank) && db.last == b.hash && b.parent in db.tree
       && Epoch(perEpoch, b.slot) != Epoch(perEpoch, db.tree[b.parent].slot)
    then FinalizeOutcome(perEpoch, db, rank, b, rec)
    else Skipped
  }

  /** The database with the newest block of the outcome's path finalized, if there is one. */
  ghost function Finalized(db: Db, o: Outcome): Db {
    if o.Finalizes? && o.path != [] && o.path[0] in db.tree
    then db.(finalized := o.path[0], finalizedSlot := db.tree[o.path[0]].slot)
    else db
  }

  /**
   The database and the status after a block is added: the committed database, with finality
   updated; and whatever is finalized was spoken for by two thirds of the validators twice.
   */
  ghost predicate AddedTo(rules: Rules, db: Db, rank: map<Hash, nat>, b: Block, db': Db, rank': map<Hash, nat>,
                          status: Status)
  {
    && rules.perEpoch > 0 && Grounded(db.tree, rank) && b.parent in db.tree && rank' == CommitRank(db, rank, b)
    && var rec := EpochRecordFor(rules, db, rank, b.slot, b.parent);
       && rec.Record?
       && var db1 := Commit(rules.perEpoch, db, b, rec.rec);
          && db1.Some?
          && var o := OutcomeAt(rules.perEpoch, db1.value, rank', b, rec.rec);
             && db' == Finalized(db1.value, o)
             && status == (if o == Finalizes([]) then AddedThenPanics else Added)
             && (o.Finalizes? ==> TwoThirdsBelow(rules, db1.value, rank', b))
  }

  // ---------- when finality moves ----------

  /**
   Finalizing this path is due at b: b is the head and opens an epoch, is far above the finalized slot,
   and the path lies between two complete runs with records of two thirds and the finalized block.
   */
  ghost predicate Due(perEpoch: nat, db: Db, rank: map<Hash, nat>, b: Block, rec: EpochRec, path: seq<Hash>) {
    && perEpoch > 0 && Grounded(db.tree, rank) && db.last == b.hash && b.parent in db.tree
    && Epoch(perEpoch, b.slot) != Epoch(perEpoch, db.tree[b.parent].slot)
    && FarAbove(perEpoch, b.slot, db.finalizedSlot)
    && exists run1, run2 :: TwoRuns(perEpoch, db, rank, b, rec, run1, run2, path)
  }

  lemma DueIff(perEpoch: nat, db: Db, rank: map<Hash, nat>, b: Block, rec: EpochRec, path: seq<Hash>)
    ensures OutcomeAt(perEpoch, db, rank, b, rec) == Finalizes(path) <==> Due(perEpoch, db, rank, b, rec, path)
  {
    hide Epoch, FarAbove, TwoRuns, FinalizeOutcome, Grounded;
    if perEpoch > 0 && Grounded(db.tree, rank) {
      FinalizesIff(perEpoch, db, rank, b, rec, path);
    }
  }

  /**
   Finality moves exactly if a path that is not empty is due after the block is committed, to its
   newest block, and there is a panic exactly if the empty path is due.
   */
  ghost predicate MovesAsDue(perEpoch: nat, db: Db, b: Block, rec: EpochRec, db': Db, rank': map<Hash, nat>,
                             status: Status)
    requires perEpoch > 0
  {
    var committed := db'.(finalized := db.finalized, finalizedSlot := db.finalizedSlot);
    && Commit(perEpoch, db, b, rec) == Some(committed)
    && (status == AddedThenPanics <==> Due(perEpoch, committed, rank', b, rec, []))
    && (db'.finalized != db.finalized <==> exists path :: path != [] && Due(perEpoch, committed, rank', b, rec, path))
    && (forall path :: path != [] && Due(perEpoch, committed, rank', b, rec, path) ==>
          db'.finalized == path[0] && path[0] in db'.tree && db'.finalizedSlot == db'.tree[path[0]].slot)
  }

  /** Adding a block moves finality as it is due. */
  lemma FinalityMovesIff(rules: Rules, db: Db, rank: map<Hash, nat>, below: Hash, b: Block, db': Db,
                         rank': map<Hash, nat>, status: Status)
    requires NodeInv(rules, db, rank, below) && Arrives(rules, db, below, b) && Committable(rules, db, rank, b)
    requires ProcessedOn(rules, db, rank, b) && AddedTo(rules, db, rank, b, db', rank', status)
    ensures rules.perEpoch > 0 && Grounded(db.tree, rank) && EpochRecordFor(rules, db, rank, b.slot, b.parent).Record?
    ensures MovesAsDue(rules.perEpoch, db, b, EpochRecordFor(rules, db, rank, b.slot, b.parent).rec, db', rank', status)
  {
    hide NodeInv, Grounded, EpochRecordFor, Epoch, Commit, FinalizeOutcome, TwoThirdsBelow, Lineage, Extends,
      ProcessedOn, Due, OutcomeAt;
    NodeParts(rules, db, rank, below);
    CommitKeepsNode(rules, db, rank, below, b);
    var rec := EpochRecordFor(rules, db, rank, b.slot, b.parent).rec;
    var db1 := Commit(rules.perEpoch, db, b, rec).value;
    NodeParts(rules, db1, rank', below);
    CommitFinal(rules.perEpoch, db, b, rec);
    assert db1 == db'.(finalized := db.finalized, finalizedSlot := db.finalizedSlot);
    forall path
      ensures OutcomeAt(rules.perEpoch, db1, rank', b, rec) == Finalizes(path)
              <==> Due(rules.perEpoch, db1, rank', b, rec, path)
    {
      DueIff(rules.perEpoch, db1, rank', b, rec, path);
    }
    PathInTree(rules.perEpoch, db1, rank', b, rec);
  }

  lemma CommitFinal(perEpoch: nat, db: Db, b: Block, rec: EpochRec)
    requires perEpoch > 0 && Commit(perEpoch, db, b, rec).Some?
    ensures var db' := Commit(perEpoch, db, b, rec).value;
            db'.finalized == db.finalized && db'.finalizedSlot == db.finalizedSlot
  {
  }

  lemma PathInTree(perEpoch: nat, db: Db, rank: map<Hash, nat>, b: Block, rec: EpochRec)
    requires perEpoch > 0 && Grounded(db.tree, rank) && db.finalized in db.tree
    ensures var o := OutcomeAt(perEpoch, db, rank, b, rec);
            o.Finalizes? && o.path != [] ==> o.path[0] in db.tree && o.path[0] != db.finalized
  {
    hide Grounded, Epoch, FinalizeOutcome, Lineage;
    if OutcomeAt(perEpoch, db, rank, b, rec).Finalizes? {
      FinalityExtends(perEpoch, db, rank, b, rec);
    }
  }

  // ---------- the head and the finalized block ----------

  /** The head descends from the finalized block. */
  ghost predicate HeadOnFinal(db: Db, rank: map<Hash, nat>) {
    Grounded(db.tree, rank) && Ancestor(db.tree, rank, db.finalized, db.last)
  }

  /** A block that takes the head when it is committed. */
  predicate TakesHead(db: Db, b: Block) {
    b.slot == 0 || (b.parent in db.tree && db.last in db.tree
                    && db.tree[b.parent].total + b.stake > db.tree[db.last].total)
  }

  /**
   Whether the head descends from the finalized block after a block is added: if the block takes
   the head, exactly if its own branch holds the finalized block; else exactly if it did before.
   The checks on a block compare slots only, so they do not ensure it.
   */
  lemma HeadOnFinalIff(rules: Rules, db: Db, rank: map<Hash, nat>, below: Hash, b: Block, db': Db,
                       rank': map<Hash, nat>, status: Status)
    requires NodeInv(rules, db, rank, below) && Arrives(rules, db, below, b) && Committable(rules, db, rank, b)
    requires ProcessedOn(rules, db, rank, b) && AddedTo(rules, db, rank, b, db', rank', status)
    ensures Grounded(db.tree, rank)
    ensures HeadOnFinal(db', rank') <==>
            if TakesHead(db, b)
            then b.hash == db.finalized || Ancestor(db.tree, rank, db.finalized, b.parent)
            else HeadOnFinal(db, rank)
  {
    hide NodeInv, Grounded, EpochRecordFor, Epoch, Commit, FinalizeOutcome, TwoThirdsBelow, Lineage, Extends,
      ProcessedOn;
    NodeParts(rules, db, rank, below);
    CommitKeepsNode(rules, db, rank, below, b);
    var rec := EpochRecordFor(rules, db, rank, b.slot, b.parent).rec;
    var db1 := Commit(rules.perEpoch, db, b, rec).value;
    NodeParts(rules, db1, rank', below);
    CommitShape(rules.perEpoch, db, b, rec);
    AncestorsSame(db, rank, db1, rank', db.finalized, b.parent);
    AncestorsSame(db, rank, db1, rank', db.finalized, db.last);
    AncestorStep(db1.tree, rank', db.finalized, b.hash);
    if b.hash in db.tree {
      AncestorsSame(db, rank, db1, rank', db.finalized, b.hash);
    }
    if OutcomeAt(rules.perEpoch, db1, rank', b, rec).Finalizes? {
      FinalizesOnBranchOnly(rules.perEpoch, db1, rank', b, rec);
      FinalityExtends(rules.perEpoch, db1, rank', b, rec);
      var path := FinalizeOutcome(rules.perEpoch, db1, rank', b, rec).path;
      if path != [] {
        AncestorStep(db1.tree, rank', path[0], b.hash);
      }
    }
  }

  lemma CommitShape(perEpoch: nat, db: Db, b: Block, rec: EpochRec)
    requires perEpoch > 0 && Commit(perEpoch, db, b, rec).Some?
    ensures var db' := Commit(perEpoch, db, b, rec).value;
            && b.hash in db'.tree && db'.tree[b.hash].parent == b.parent
            && db'.last == (if TakesHead(db, b) then b.hash else db.last) && db'.finalized == db.finalized
  {
  }

  lemma AncestorsSame(db: Db, rank: map<Hash, nat>, db': Db, rank': map<Hash, nat>, a: Hash, h: Hash)
    requires Grounded(db.tree, rank) && Grounded(db'.tree, rank') && Extends(db, db') && h in db.tree
    ensures Ancestor(db'.tree, rank', a, h) <==> Ancestor(db.tree, rank, a, h)
  {
    LineageSame(db.tree, rank, db'.tree, rank', h);
  }

  lemma AncestorStep(tree: Tree, rank: map<Hash, nat>, a: Hash, h: Hash)
    requires Grounded(tree, rank) && h in tree
    ensures Ancestor(tree, rank, a, h) <==> a == h || Ancestor(tree, rank, a, tree[h].parent)
  {
  }

  // ---------- the chain object ----------

  class Chain {
    const rules: Rules
    var db: Db
    var lastBlock: Hash
    ghost var rank: map<Hash, nat>
    ghost var arrived: seq<Block> // every block that was added, in order
    ghost var log: seq<Hash>      // every block that was ever finalized, in order
    ghost const below: Hash

    ghost predicate Valid()
      reads this
    {
      && NodeInv(rules, db, rank, below)
      && HeadInv(db, arrived) && lastBlock == db.last
      && log != [] && Last(log) == db.finalized
      && OneLine(db.tree, rank, log)
    }

    /** A chain that has processed genesis and nothing else. */
    constructor (rules: Rules, below: Hash, g: Block, rec: EpochRec)
      requires ValidRules(rules) && below != NO_HASH && g.hash != NO_HASH && g.hash != below
      requires g.parent == below && g.slot == 0 && g.stake == 0
      requires (rec.epoch, rec.prev) == (0, below)
      requires LooseInv(rules.addr, Registry(rules.accounts(g.hash), rec.validators))
      ensures Valid() && db == Genesis(below, g, rec) && rank == map[below := 0, g.hash := 1]
      ensures this.rules == rules && this.below == below && arrived == [g] && log == [g.hash]
    {
      hide NodeInv, HeadInv, OneLine, Grounded, ValidRules;
      this.rules, this.below := rules, below;
      db := Genesis(below, g, rec);
      lastBlock := g.hash;
      rank := map[below := 0, g.hash := 1];
      arrived := [g];
      log := [g.hash];
      GenesisNode(rules, below, g, rec);
      NodeParts(rules, Genesis(below, g, rec), map[below := 0, g.hash := 1], below);
      OneLineStart(Genesis(below, g, rec).tree, map[below := 0, g.hash := 1], g.hash);
    }

    /**
     Adds a block. `hashOk`, `maxSlot` and `processOk` stand for the hash check, the clock, and
     what transaction processing checks beyond who may speak. The block is added exactly if it
     passes all checks; the head is the first arrival of maximum total since slot zero; and
     whatever is finalized descends from what was finalized.
     */
    method AddBlock(b: Block, hashOk: bool, maxSlot: nat, processOk: bool) returns (status: Status)
      requires Valid() && Arrives(rules, db, below, b) && (processOk ==> ProcessedOn(rules, db, rank, b))
      modifies this
      ensures Valid()
      ensures Checked(old(db), b, hashOk, maxSlot) <==>
              hashOk && b.slot <= maxSlot && ParentNotBelow(old(db), b)
      ensures status == Panicked <==>
                Checked(old(db), b, hashOk, maxSlot) && RecordFor(rules, old(db), old(rank), b) == NoValidators
      ensures status == Added || status == AddedThenPanics <==>
                Checked(old(db), b, hashOk, maxSlot) && Committable(rules, old(db), old(rank), b) && processOk
      ensures if status == Rejected || status == Panicked
              then db == old(db) && rank == old(rank) && arrived == old(arrived)
              else AddedTo(rules, old(db), old(rank), b, db, rank, status) && arrived == old(arrived) + [b]
      ensures log == if db.finalized == old(db.finalized) then old(log) else old(log) + [db.finalized]
    {
      hide NodeInv, Grounded, EpochRecordFor, Lineage, OneLine, Epoch, FinalizeOutcome, HeadInv, Speaks, TwoThirdsBelow,
        ProcessedOn, ParentNotBelow;
      NodeParts(rules, db, rank, below);
      CheckedIff(rules, db, rank, below, b, hashOk, maxSlot);
      if !hashOk || b.slot > maxSlot || b.parent !in db.blocks {
        return Rejected;
      }
      var parent := db.blocks[b.parent];
      if parent.slot < db.finalizedSlot {
        return Rejected;
      }
      if parent.slot == db.finalizedSlot && b.parent != db.finalized {
        return Rejected;
      }
      var sdb := new StateDB(rules.accounts(b.parent));
      var epochMetaData := CalculateEpochMetaData(rules, db, b.slot, b.parent, sdb, rank);
      if epochMetaData.NoValidators? {
        return Panicked;
      }
      if epochMetaData.NoRecord? || !processOk {
        return Rejected;
      }
      var rec := epochMetaData.rec;
      if b.slot != 0 && !Speaks(rules.perEpoch, rec.validators, b) {
        return Rejected;
      }
      CommitBlock(b, rec);
      status := Added;
      if b.hash == lastBlock && Epoch(rules.perEpoch, b.slot) != Epoch(rules.perEpoch, parent.slot) {
        status := UpdateFinality(b, rec);
      }
    }

    /** Commits a processed block and follows the stored head. */
    method CommitBlock(b: Block, rec: EpochRec)
      requires Valid() && Arrives(rules, db, below, b) && Committable(rules, db, rank, b)
      requires ProcessedOn(rules, db, rank, b)
      requires EpochRecordFor(rules, db, rank, b.slot, b.parent) == Record(rec)
      modifies `db, `rank, `lastBlock, `arrived
      ensures Valid() && Commit(rules.perEpoch, old(db), b, rec) == Some(db)
      ensures rank == CommitRank(old(db), old(rank), b)
      ensures arrived == old(arrived) + [b] && Extends(old(db), db) && db.finalized == old(db.finalized)
      ensures Grounded(db.tree, rank) && EpochRecordFor(rules, db, rank, b.slot, b.parent) == Record(rec)
    {
      hide NodeInv, Grounded, EpochRecordFor, Lineage, Extends, OneLine, Epoch, HeadInv, Speaks, ProcessedOn;
      NodeParts(rules, db, rank, below);
      CommitKeepsNode(rules, db, rank, below, b);
      ghost var db' := Commit(rules.perEpoch, db, b, rec).value;
      NodeParts(rules, db', CommitRank(db, rank, b), below);
      OneLineExtends(db, rank, db', CommitRank(db, rank, b), log);
      HeadAfter(rules, db, rank, below, b, rec, arrived);
      RecordAfter(rules, db, rank, below, b);
      rank := CommitRank(db, rank, b);
      arrived := arrived + [b];
      var total := b.stake + if b.slot != 0 then db.tree[b.parent].total else 0;
      var lastTotal := if b.slot != 0 then db.tree[db.last].total else 0;
      var parentSlot := db.tree[b.parent].slot;
      db := db.(blocks := db.blocks[b.hash := b]);
      db := db.(tree := db.tree[b.hash := Meta(b.parent, b.slot, total)]);
      if b.slot == 0 || Epoch(rules.perEpoch, b.slot) != Epoch(rules.perEpoch, parentSlot) {
        db := db.(epochs := db.epochs[(rec.epoch, rec.prev) := rec]);
      }
      if b.slot == 0 || total > lastTotal {
        db := db.(last := b.hash);
      }
      // the stored head is b or what it was, so no other block has to be loaded
      if db.last == b.hash {
        lastBlock := b.hash;
      }
    }

    /** Finalizes below the new head and extends the log of finalized blocks. */
    method UpdateFinality(b: Block, rec: EpochRec) returns (status: Status)
      requires Valid() && db.last == b.hash && b.parent in db.blocks && b.parent in db.tree
      requires rules.perEpoch > 0 && Epoch(rules.perEpoch, b.slot) != Epoch(rules.perEpoch, db.tree[b.parent].slot)
      requires Grounded(db.tree, rank) && EpochRecordFor(rules, db, rank, b.slot, b.parent) == Record(rec)
      modifies `db, `log
      ensures Valid() && db.last == old(db.last)
      ensures var o := OutcomeAt(rules.perEpoch, old(db), rank, b, rec);
              && db == Finalized(old(db), o)
              && status == (if o == Finalizes([]) then AddedThenPanics else Added)
              && (o.Finalizes? ==> TwoThirdsBelow(rules, old(db), rank, b))
      ensures log == if db.finalized == old(db.finalized) then old(log) else old(log) + [db.finalized]
    {
      hide NodeInv, Grounded, FinalizeOutcome, Lineage, OneLine, Epoch, EpochRecordFor, HeadInv, TwoThirdsBelow;
      NodeParts(rules, db, rank, below);
      var db';
      db', status := FinalizeBelowBlock(rules.perEpoch, db, b, rec, rank);
      if FinalizeOutcome(rules.perEpoch, db, rank, b, rec).Finalizes? {
        FinalizedByTwoThirds(rules, db, rank, below, b, rec);
      }
      if db'.finalized != db.finalized {
        AboveBlockIsBlock(rules, db, rank, below, db'.finalized);
        FinalizeKeepsNode(rules, db, rank, below, db'.finalized);
        HeadSame(db, db', arrived);
        OneLineNext(db.tree, rank, log, db'.finalized);
        log := log + [db'.finalized];
      }
      db := db';
    }
  }

  /** The record result for a block, where it is defined. */
  ghost function RecordFor(rules: Rules, db: Db, rank: map<Hash, nat>, b: Block): RecordResult {
    if rules.perEpoch > 0 && Grounded(db.tree, rank) then EpochRecordFor(rules, db, rank, b.slot, b.parent)
    else NoRecord
  }

  lemma HeadAfter(rules: Rules, db: Db, rank: map<Hash, nat>, below: Hash, b: Block, rec: EpochRec, bs: seq<Block>)
    requires NodeInv(rules, db, rank, below) && Arrives(rules, db, below, b) && b.parent in db.blocks && HeadInv(db, bs)
    ensures Commit(rules.perEpoch, db, b, rec).Some? && HeadInv(Commit(rules.perEpoch, db, b, rec).value, bs + [b])
  {
    hide Grounded, TotalsInv, RecordsInv, SpeaksInv, AccountsInv, HeadInv, Commit, Rooted, DistinctInv;
    CommitHead(rules.perEpoch, db, rank, below, b, rec, bs);
  }

  lemma HeadSame(db: Db, db': Db, bs: seq<Block>)
    requires HeadInv(db, bs) && db'.tree == db.tree && db'.last == db.last
    ensures HeadInv(db', bs)
  {
    var k: nat, i: nat :| HeadAt(db, bs, k, i);
    assert HeadAt(db', bs, k, i);
  }

  lemma RecordAfter(rules: Rules, db: Db, rank: map<Hash, nat>, below: Hash, b: Block)
    requires NodeInv(rules, db, rank, below) && Arrives(rules, db, below, b) && Committable(rules, db, rank, b)
    ensures var rec := EpochRecordFor(rules, db, rank, b.slot, b.parent);
            var r := Commit(rules.perEpoch, db, b, rec.rec);
            && r.Some? && Grounded(r.value.tree, CommitRank(db, rank, b))
            && EpochRecordFor(rules, r.value, CommitRank(db, rank, b), b.slot, b.parent) == rec
  {
    hide Grounded, TotalsInv, RecordsInv, SpeaksInv, AccountsInv, EpochRecordFor, Epoch, Speaks, Extends, CommitRank,
      Commit;
    var rec := EpochRecordFor(rules, db, rank, b.slot, b.parent).rec;
    CommitGrounded(rules.perEpoch, db, rank, below, b, rec);
    CommitEpochs(rules, db, rank, below, b);
    var db' := Commit(rules.perEpoch, db, b, rec).value;
    InvGrounded(db', CommitRank(db, rank, b), below);
    RecordSame(rules, db, rank, db', CommitRank(db, rank, b), b.slot, b.parent);
  }
}

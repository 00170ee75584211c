/**
 Short histories of a chain with one validator and one hundred slots per epoch: finalization runs
 into an empty path, a block in slot zero takes the head, the head leaves the finalized branch, and
 blocks are finalized one epoch after the other.
 */
module Scenarios {
  import opened Wrappers
  import opened Hashes
  import opened Ledger
  import opened EpochMeta
  import SR = StakeRegistry
  import opened BlockTree
  import opened ForkChoice
  import opened EpochRecords
  import opened EpochUpdate
  import opened EpochSpeakers
  import opened EpochAccounts
  import opened Finality
  import CN = ChainNode

  const STAKE: nat := 10_000_000_000_000
  const ONLY: Key := 7

  /** The accounts at all times: the one validator's stake is loaded. */
  function Staked(): Accounts { map[ONLY := Account(0, STAKE, 0, 0)] }

  /** One hundred slots per epoch and one validator. */
  function OneValidator(): Rules { Rules(100, STAKE, k => k, _ => Staked(), (_, s) => s) }

  lemma OneValidatorRules()
    ensures ValidRules(OneValidator())
    ensures SR.LooseInv(OneValidator().addr, SR.Registry(Staked(), [ONLY]))
  {
  }

  function GenesisBlock(): Block { Block(2, 1, 0, 0, [ONLY], []) }

  function GenesisRec(): EpochRec { EpochRec(0, 1, [ONLY], STAKE, STAKE) }

  /** A block that the validator proposes; it counts one stake unless it is in slot zero. */
  function Proposed(hash: Hash, parent: Hash, hundreds: nat): Block
    requires hundreds < 10
  {
    Block(hash, parent, 100 * hundreds, if hundreds == 0 then 0 else STAKE, [ONLY], [])
  }

  /** The record of an epoch above a run in which the one validator spoke once. */
  function FullRec(epoch: nat, prev: Hash): EpochRec { EpochRec(epoch, prev, [ONLY], STAKE, STAKE) }

  lemma OnlySpeaks(b: Block)
    requires b.speakers == [ONLY] && b.slot % 100 == 0
    ensures Speaks(100, [ONLY], b)
  {
    SlotAllotment.RolesByPosition([ONLY], 100, 0, 0);
  }

  // ---------- adding one block ----------

  /** The block is alone in its epoch so far, and its record lists the one validator. */
  ghost predicate Alone(db: Db, rank: map<Hash, nat>, p: Hash) {
    && Grounded(db.tree, rank) && p in db.tree && p in db.blocks && StartsEpoch(100, db.tree, p)
    && db.blocks[p].speakers == [ONLY] && db.blocks[p].stakeKeys == []
    && var r := Lookup(100, db, rank, db.tree[p].slot, db.tree[p].parent);
       r.Some? && r.value.validators == [ONLY]
  }

  /** Above such a block the record is the full one, and the accounts are what they were. */
  lemma NextRecord(db: Db, rank: map<Hash, nat>, p: Hash, slot: nat)
    requires Alone(db, rank, p) && Epoch(100, db.tree[p].slot) != Epoch(100, slot)
    ensures EpochRecordFor(OneValidator(), db, rank, slot, p) == Record(FullRec(Epoch(100, slot), p))
    ensures StateFor(OneValidator(), db, rank, slot, p) == Staked()
  {
    hide Grounded, Lookup, Epoch, StartsEpoch;
    RunOfOne(db.tree, rank, p);
    var run := [p];
    assert run[1..] == [];
    assert AllSpeakers(db.blocks, run) == [ONLY] + AllSpeakers(db.blocks, []);
    assert Joined(db.blocks, run) == Joined(db.blocks, []) + [] by {
      assert SR.Pending([]) == [];
    }
    assert Loaded(OneValidator(), db.blocks, Staked(), run);
  }

  lemma RunOfOne(tree: Tree, rank: map<Hash, nat>, p: Hash)
    requires Grounded(tree, rank) && p in tree && StartsEpoch(100, tree, p)
    ensures EpochRun(100, tree, rank, p) == [p]
  {
  }

  lemma StaysStaked(db: Db, rank: map<Hash, nat>, b: Block)
    requires Grounded(db.tree, rank) && b.parent in db.tree
    requires StateFor(OneValidator(), db, rank, b.slot, b.parent) == Staked()
    ensures ProcessedOn(OneValidator(), db, rank, b)
  {
  }

  /** The validator's block opens an epoch above a block that is alone in its own. */
  ghost predicate Ready(db: Db, rank: map<Hash, nat>, b: Block) {
    && Alone(db, rank, b.parent) && Epoch(100, db.tree[b.parent].slot) != Epoch(100, b.slot)
    && b.hash > 1 && b.hash !in db.blocks && b.speakers == [ONLY] && b.slot % 100 == 0
    && CN.Counted(STAKE, b) && CN.Checked(db, b, true, b.slot)
  }

  /** Such a block is added: what the chain becomes is its commit under the full record, and what that finalizes. */
  method Add(c: CN.Chain, b: Block, ghost db1: Db) returns (status: CN.Status)
    requires c.Valid() && c.rules == OneValidator() && c.below == 1 && Ready(c.db, c.rank, b)
    requires Commit(100, c.db, b, FullRec(Epoch(100, b.slot), b.parent)) == Some(db1)
    modifies c
    ensures c.Valid() && c.rank == CommitRank(old(c.db), old(c.rank), b)
    ensures var o := CN.OutcomeAt(100, db1, c.rank, b, FullRec(Epoch(100, b.slot), b.parent));
            c.db == CN.Finalized(db1, o) && status == if o == Finalizes([]) then CN.AddedThenPanics else CN.Added
    ensures c.log == if c.db.finalized == old(c.db.finalized) then old(c.log) else old(c.log) + [c.db.finalized]
  {
    hide CN.NodeInv, HeadInv, CN.OneLine, Grounded, EpochRecordFor, StateFor, Speaks, FinalizeOutcome, ValidRules,
      CN.TwoThirdsBelow, Commit, Epoch, Lookup, StartsEpoch, ProcessedOn;
    NextRecord(c.db, c.rank, b.parent, b.slot);
    StaysStaked(c.db, c.rank, b);
    OnlySpeaks(b);
    status := c.AddBlock(b, true, b.slot, true);
  }

  /** Without enough epochs since the finalized block nothing happens. */
  lemma TooEarly(db: Db, rank: map<Hash, nat>, b: Block, rec: EpochRec)
    requires Grounded(db.tree, rank) && db.finalizedSlot == 0 && b.slot <= 200
    ensures CN.OutcomeAt(100, db, rank, b, rec) == Skipped
  {
  }

  // ---------- the main branch ----------

  function Db0(): Db { Genesis(1, GenesisBlock(), GenesisRec()) }

  function Rank0(): map<Hash, nat> { map[1 := 0, 2 := 1] }

  /** The database after one more block of the validator. */
  function Stacked(db: Db, b: Block, total: nat, head: bool): Db {
    db.(tree := db.tree[b.hash := Meta(b.parent, b.slot, total)], blocks := db.blocks[b.hash := b],
    epochs := db.epochs[(b.slot / 100, b.parent) := FullRec(b.slot / 100, b.parent)],
    last := if head then b.hash else db.last)
  }

  function Db1(): Db { Stacked(Db0(), Proposed(3, 2, 1), STAKE, true) }

  function Rank1(): map<Hash, nat> { Rank0()[3 := 2] }

  function Db2(): Db { Stacked(Db1(), Proposed(4, 3, 2), 2 * STAKE, true) }

  function Rank2(): map<Hash, nat> { Rank1()[4 := 3] }

  lemma Grounded2()
    ensures Grounded(Db0().tree, Rank0()) && Grounded(Db1().tree, Rank1()) && Grounded(Db2().tree, Rank2())
  {
    hide Grounded;
    GenesisDb(1, GenesisBlock(), GenesisRec());
    InvGrounded(Db0(), Rank0(), 1);
    AddGrounded(Db0().tree, Rank0(), 3, Meta(2, 100, STAKE));
    AddGrounded(Db1().tree, Rank1(), 4, Meta(3, 200, 2 * STAKE));
  }

  /** A block after slot zero that stored its record above another epoch is alone. */
  lemma OpenedAlone(db: Db, rank: map<Hash, nat>, p: Hash)
    requires Grounded(db.tree, rank) && p in db.tree && p in db.blocks
    requires db.blocks[p].speakers == [ONLY] && db.blocks[p].stakeKeys == [] && db.tree[p].slot != 0
    requires db.tree[p].parent in db.tree
    requires Epoch(100, db.tree[db.tree[p].parent].slot) != Epoch(100, db.tree[p].slot)
    requires var key := (Epoch(100, db.tree[p].slot), db.tree[p].parent);
             key in db.epochs && db.epochs[key].validators == [ONLY]
    ensures Alone(db, rank, p)
  {
    hide Grounded, Epoch, Lookup;
    LookupAbove(100, db, rank, db.tree[p].slot, db.tree[p].parent);
  }

  /** Genesis is alone wherever it is not followed within its epoch. */
  lemma GenesisAlone(db: Db, rank: map<Hash, nat>)
    requires Grounded(db.tree, rank) && 2 in db.tree && 2 in db.blocks && db.blocks[2] == GenesisBlock()
    requires db.tree[2].slot == 0 && db.tree[2].parent == 1
    requires (0, 1) in db.epochs && db.epochs[(0, 1)] == GenesisRec()
    ensures Alone(db, rank, 2)
  {
    hide Grounded;
  }

  /** A new chain with the one validator, and its first block in epoch one. */
  method FirstBlock() returns (c: CN.Chain)
    ensures fresh(c) && c.Valid() && c.rules == OneValidator() && c.below == 1
    ensures c.db == Db1() && c.rank == Rank1() && c.log == [2]
  {
    hide CN.NodeInv, HeadInv, CN.OneLine, Grounded, ValidRules, SR.LooseInv, Alone;
    OneValidatorRules();
    Grounded2();
    c := new CN.Chain(OneValidator(), 1, GenesisBlock(), GenesisRec());
    var b := Proposed(3, 2, 1);
    GenesisAlone(Db0(), Rank0());
    TooEarly(Db1(), Rank1(), b, FullRec(1, 2));
    assert Commit(100, Db0(), b, FullRec(1, 2)) == Some(Db1());
    var status := Add(c, b, Db1());
  }

  method SecondBlock(c: CN.Chain)
    requires c.Valid() && c.rules == OneValidator() && c.below == 1 && c.db == Db1() && c.rank == Rank1()
    modifies c
    ensures c.Valid() && c.db == Db2() && c.rank == Rank2() && c.log == old(c.log)
  {
    hide CN.NodeInv, HeadInv, CN.OneLine, Grounded, Alone;
    Grounded2();
    var b := Proposed(4, 3, 2);
    OpenedAlone(Db1(), Rank1(), 3);
    TooEarly(Db2(), Rank2(), b, FullRec(2, 3));
    assert Commit(100, Db1(), b, FullRec(2, 3)) == Some(Db2());
    var status := Add(c, b, Db2());
  }

  // ---------- an empty path ----------

  /** What finalizing at blocks 5 and 8 depends on: blocks 2 to 5 in a row, one per epoch, with full records. */
  ghost predicate InARow(db: Db, rank: map<Hash, nat>) {
    && Grounded(db.tree, rank) && db.finalizedSlot == 0 && db.finalized == 2
    && 2 in db.tree && 3 in db.tree && 4 in db.tree && 5 in db.tree && db.tree[2].slot == 0
    && db.tree[3].slot == 100 && db.tree[3].parent == 2 && db.tree[4].slot == 200 && db.tree[4].parent == 3
    && db.tree[5].slot == 300 && db.tree[5].parent == 4
    && (2, 3) in db.epochs && db.epochs[(2, 3)] == FullRec(2, 3)
    && (3, 4) in db.epochs && db.epochs[(3, 4)] == FullRec(3, 4)
  }

  /** In epoch three the two runs below sit on genesis, which is the finalized block. */
  lemma NothingBetween(db: Db, rank: map<Hash, nat>)
    requires InARow(db, rank)
    ensures FinalizeOutcome(100, db, rank, Proposed(5, 4, 3), FullRec(3, 4)) == Finalizes([])
  {
    hide Grounded, Lookup;
    assert WholeRun(100, db.tree, rank, 4) == Some([4]);
    assert WholeRun(100, db.tree, rank, 3) == Some([3]);
    LookupAbove(100, db, rank, 200, 3);
    assert PathTo(db.tree, rank, 2, 2) == Some([]);
  }

  /** In epoch four they sit on block 3, which sits on genesis. */
  lemma OneBetween(db: Db, rank: map<Hash, nat>)
    requires InARow(db, rank)
    ensures FinalizeOutcome(100, db, rank, Proposed(8, 5, 4), FullRec(4, 5)) == Finalizes([3])
  {
    hide Grounded, Lookup;
    assert WholeRun(100, db.tree, rank, 5) == Some([5]);
    assert WholeRun(100, db.tree, rank, 4) == Some([4]);
    LookupAbove(100, db, rank, 300, 4);
    assert PathTo(db.tree, rank, 2, 2) == Some([]);
    assert [3] + [] == [3];
    assert PathTo(db.tree, rank, 3, 2) == Some([3]);
  }

  /** What is needed to add block 5: the first three blocks as they are, whatever else there is. */
  ghost predicate UpToFour(db: Db, rank: map<Hash, nat>) {
    && Grounded(db.tree, rank) && db.finalizedSlot == 0 && db.finalized == 2 && db.last == 4
    && 2 in db.tree && db.tree[2] == Meta(1, 0, 0) && 3 in db.tree && db.tree[3] == Meta(2, 100, STAKE)
    && 4 in db.tree && db.tree[4] == Meta(3, 200, 2 * STAKE) && 4 in db.blocks && db.blocks[4] == Proposed(4, 3, 2)
    && 5 !in db.tree && 5 !in db.blocks && 8 !in db.tree && 8 !in db.blocks
    && (2, 3) in db.epochs && db.epochs[(2, 3)] == FullRec(2, 3)
  }

  function Db3(db: Db): Db { Stacked(db, Proposed(5, 4, 3), 3 * STAKE, true) }

  lemma ThirdReady(db: Db, rank: map<Hash, nat>)
    requires UpToFour(db, rank)
    ensures Ready(db, rank, Proposed(5, 4, 3))
    ensures Commit(100, db, Proposed(5, 4, 3), FullRec(3, 4)) == Some(Db3(db))
    ensures InARow(Db3(db), CommitRank(db, rank, Proposed(5, 4, 3)))
  {
    hide Grounded, Alone;
    OpenedAlone(db, rank, 4);
    AddGrounded(db.tree, rank, 5, Meta(4, 300, 3 * STAKE));
  }

  /** The block that opens epoch three is added, becomes the head, and finalization panics. */
  method ThirdBlock(c: CN.Chain) returns (status: CN.Status)
    requires c.Valid() && c.rules == OneValidator() && c.below == 1 && UpToFour(c.db, c.rank)
    modifies c
    ensures status == CN.AddedThenPanics && c.Valid() && c.db == Db3(old(c.db))
    ensures c.rank == CommitRank(old(c.db), old(c.rank), Proposed(5, 4, 3)) && InARow(c.db, c.rank)
    ensures c.log == old(c.log)
  {
    hide CN.NodeInv, HeadInv, CN.OneLine, Grounded, Ready, FinalizeOutcome, Commit, CommitRank;
    ThirdReady(c.db, c.rank);
    NothingBetween(Db3(c.db), CommitRank(c.db, c.rank, Proposed(5, 4, 3)));
    status := Add(c, Proposed(5, 4, 3), Db3(c.db));
  }

  /** One block per epoch, all with full stake: the block that opens epoch three is added and then panics. */
  method EmptyPathIsReached() returns (status: CN.Status)
    ensures status == CN.AddedThenPanics
  {
    hide CN.NodeInv, HeadInv, CN.OneLine, Grounded;
    Grounded2();
    var c := FirstBlock();
    SecondBlock(c);
    status := ThirdBlock(c);
  }

  // ---------- a block in slot zero takes the head ----------

  function Db1Zero(): Db { Stacked(Db1(), Proposed(6, 3, 0), 0, true) }

  /** A block in slot zero above the block of epoch one is added and takes the head with no stake at all. */
  method SlotZeroTakesHead() returns (c: CN.Chain, before: Db, status: CN.Status)
    ensures status == CN.Added && c.Valid() && HeadIsMax(before) && c.db.last == 6 && !HeadIsMax(c.db)
    ensures Grounded(c.db.tree, c.rank) && !FullTotals(c.db, c.rank)
  {
    hide CN.NodeInv, HeadInv, CN.OneLine, Grounded, Alone, FullTotals, HeadIsMax;
    Grounded2();
    c := FirstBlock();
    before := c.db;
    var z := Proposed(6, 3, 0);
    OpenedAlone(Db1(), Rank1(), 3);
    AddGrounded(Db1().tree, Rank1(), 6, Meta(3, 0, 0));
    TooEarly(Db1Zero(), CommitRank(Db1(), Rank1(), z), z, FullRec(0, 3));
    assert Commit(100, Db1(), z, FullRec(0, 3)) == Some(Db1Zero());
    status := Add(c, z, Db1Zero());
    MaxBefore();
    MaxLost();
    TotalLost(c.rank);
  }

  lemma MaxBefore()
    ensures HeadIsMax(Db1())
  {
  }

  lemma MaxLost()
    ensures !HeadIsMax(Db1Zero())
  {
    assert 3 in Db1Zero().tree && Db1Zero().tree[3].total == STAKE;
  }

  lemma TotalLost(rank: map<Hash, nat>)
    requires Grounded(Db1Zero().tree, rank)
    ensures !FullTotals(Db1Zero(), rank)
  {
    hide Grounded;
    var db := Db1Zero();
    assert PathStake(db, rank, 6) == PathStake(db, rank, 3) == STAKE + PathStake(db, rank, 2);
    assert 6 in db.tree && db.tree[6].total == 0;
  }

  // ---------- the head leaves the finalized branch ----------

  /** The main branch with a block 7 of epoch two beside it, directly on genesis. */
  function Forked(): Db { Stacked(Db2(), Proposed(7, 2, 2), STAKE, false) }

  function ForkedRank(): map<Hash, nat> { Rank2()[7 := 2] }

  method Fork(c: CN.Chain)
    requires c.Valid() && c.rules == OneValidator() && c.below == 1 && c.db == Db2() && c.rank == Rank2()
    modifies c
    ensures c.Valid() && c.db == Forked() && c.rank == ForkedRank() && UpToFour(c.db, c.rank)
  {
    hide CN.NodeInv, HeadInv, CN.OneLine, Grounded, Alone;
    Grounded2();
    var b := Proposed(7, 2, 2);
    GenesisAlone(Db2(), Rank2());
    AddGrounded(Db2().tree, Rank2(), 7, Meta(2, 200, STAKE));
    TooEarly(Forked(), ForkedRank(), b, FullRec(2, 2));
    assert Commit(100, Db2(), b, FullRec(2, 2)) == Some(Forked());
    var status := Add(c, b, Forked());
  }

  /** The fork is there, off the main branch. */
  ghost predicate HasFork(db: Db) {
    && 1 in db.tree && db.tree[1] == Meta(NO_HASH, 0, 0) && 2 in db.tree && db.tree[2] == Meta(1, 0, 0)
    && 7 in db.tree && db.tree[7] == Meta(2, 200, STAKE) && 7 in db.blocks && db.blocks[7] == Proposed(7, 2, 2)
    && (2, 2) in db.epochs && db.epochs[(2, 2)] == FullRec(2, 2) && 9 !in db.tree && 9 !in db.blocks
  }

  function Db4(db: Db): Db { Stacked(db, Proposed(8, 5, 4), 4 * STAKE, true) }

  /** The database after block 8 has finalized block 3. */
  function Db4Final(db: Db): Db { Db4(db).(finalized := 3, finalizedSlot := 100) }

  lemma FourthReady(db: Db, rank: map<Hash, nat>)
    requires InARow(db, rank) && db.last == 5 && 8 !in db.tree && 8 !in db.blocks
    requires 5 in db.blocks && db.blocks[5] == Proposed(5, 4, 3) && db.tree[5].total == 3 * STAKE
    ensures Ready(db, rank, Proposed(8, 5, 4))
    ensures Commit(100, db, Proposed(8, 5, 4), FullRec(4, 5)) == Some(Db4(db))
    ensures InARow(Db4(db), CommitRank(db, rank, Proposed(8, 5, 4))) && Db4(db).tree[3].slot == 100
  {
    hide Grounded, Alone;
    OpenedAlone(db, rank, 5);
    AddGrounded(db.tree, rank, 8, Meta(5, 400, 4 * STAKE));
  }

  /** Block 8 finalizes block 3. */
  method FourthBlock(c: CN.Chain)
    requires c.Valid() && c.rules == OneValidator() && c.below == 1 && InARow(c.db, c.rank) && c.db.last == 5
    requires 8 !in c.db.tree && 8 !in c.db.blocks && 5 in c.db.blocks && c.db.blocks[5] == Proposed(5, 4, 3)
    requires c.db.tree[5].total == 3 * STAKE
    modifies c
    ensures c.Valid() && c.db == Db4Final(old(c.db)) && c.log == old(c.log) + [3]
  {
    hide CN.NodeInv, HeadInv, CN.OneLine, Grounded, Ready, FinalizeOutcome, Commit, CommitRank;
    FourthReady(c.db, c.rank);
    OneBetween(Db4(c.db), CommitRank(c.db, c.rank, Proposed(8, 5, 4)));
    var status := Add(c, Proposed(8, 5, 4), Db4(c.db));
  }

  /** A chain that has finalized block 3 and still has the fork beside it. */
  method FinalizedBesideFork() returns (c: CN.Chain)
    ensures fresh(c) && c.Valid() && c.rules == OneValidator() && c.below == 1
    ensures c.db.finalized == 3 && c.db.finalizedSlot == 100 && c.db.last == 8 && HasFork(c.db)
    ensures CN.HeadOnFinal(c.db, c.rank)
  {
    hide CN.NodeInv, HeadInv, CN.OneLine, Grounded, HasFork, InARow, CN.HeadOnFinal;
    c := BesideFork();
    FourthFacts(c.db, c.rank);
    FourthBlock(c);
    CN.NodeParts(c.rules, c.db, c.rank, c.below);
    OnBranch(c.db, c.rank);
  }

  /** The main branch up to block 5, with the fork beside it. */
  method BesideFork() returns (c: CN.Chain)
    ensures fresh(c) && c.Valid() && c.rules == OneValidator() && c.below == 1
    ensures InARow(c.db, c.rank) && HasFork(c.db) && c.db.last == 5
    ensures 8 !in c.db.tree && 8 !in c.db.blocks && 5 in c.db.blocks && c.db.blocks[5] == Proposed(5, 4, 3)
    ensures 5 in c.db.tree && c.db.tree[5].total == 3 * STAKE
  {
    hide CN.NodeInv, HeadInv, CN.OneLine, Grounded, CommitRank, Forked, UpToFour, HasFork, InARow;
    c := FirstBlock();
    SecondBlock(c);
    Fork(c);
    ForkFacts();
    var status := ThirdBlock(c);
  }

  lemma FourthFacts(db: Db, rank: map<Hash, nat>)
    requires InARow(db, rank) && HasFork(db)
    ensures HasFork(Db4Final(db))
    ensures var tree := Db4Final(db).tree;
            && 8 in tree && tree[8].parent == 5 && 5 in tree && tree[5].parent == 4
            && 4 in tree && tree[4].parent == 3 && 3 in tree
  {
  }

  lemma ForkFacts()
    ensures HasFork(Db3(Forked())) && 8 !in Forked().tree && 8 !in Forked().blocks
  {
  }

  lemma OnBranch(db: Db, rank: map<Hash, nat>)
    requires Grounded(db.tree, rank) && db.finalized == 3 && db.last == 8 && 8 in db.tree && db.tree[8].parent == 5
    requires 5 in db.tree && db.tree[5].parent == 4 && 4 in db.tree && db.tree[4].parent == 3 && 3 in db.tree
    ensures CN.HeadOnFinal(db, rank)
  {
    hide Grounded, Lineage;
    CN.AncestorSelf(db.tree, rank, 3);
    CN.AncestorStep(db.tree, rank, 3, 4);
    CN.AncestorStep(db.tree, rank, 3, 5);
    CN.AncestorStep(db.tree, rank, 3, 8);
  }

  function Db5(db: Db): Db { Stacked(db, Proposed(9, 7, 0), 0, true) }

  lemma ForkReady(db: Db, rank: map<Hash, nat>)
    requires Grounded(db.tree, rank) && HasFork(db) && db.finalized == 3 && db.finalizedSlot == 100
    ensures Ready(db, rank, Proposed(9, 7, 0))
    ensures Commit(100, db, Proposed(9, 7, 0), FullRec(0, 7)) == Some(Db5(db))
    ensures Grounded(Db5(db).tree, CommitRank(db, rank, Proposed(9, 7, 0)))
  {
    hide Grounded, Alone;
    OpenedAlone(db, rank, 7);
    AddGrounded(db.tree, rank, 9, Meta(7, 0, 0));
  }

  /** Finalizing at block 9 fails: below block 7 there is no second complete run. */
  lemma NoSecondRun(db: Db, rank: map<Hash, nat>)
    requires Grounded(db.tree, rank) && 1 in db.tree && db.tree[1] == Meta(NO_HASH, 0, 0)
    requires 2 in db.tree && db.tree[2] == Meta(1, 0, 0) && 7 in db.tree && db.tree[7] == Meta(2, 200, STAKE)
    ensures !CN.OutcomeAt(100, db, rank, Proposed(9, 7, 0), FullRec(0, 7)).Finalizes?
  {
    hide Lookup;
    assert WholeRun(100, db.tree, rank, 1) == None;
    assert WholeRun(100, db.tree, rank, 2) == None;
    assert WholeRun(100, db.tree, rank, 7) == Some([7]);
  }

  /** The finalized block is not below block 9. */
  lemma OffBranch(db: Db, rank: map<Hash, nat>)
    requires Grounded(db.tree, rank) && db.finalized == 3 && db.last == 9
    requires 9 in db.tree && db.tree[9].parent == 7 && 7 in db.tree && db.tree[7].parent == 2
    requires 2 in db.tree && db.tree[2].parent == 1 && 1 in db.tree && db.tree[1].parent == NO_HASH
    ensures !CN.HeadOnFinal(db, rank)
  {
    hide Grounded;
    RowOf(db.tree, rank);
    assert Lineage(db.tree, rank, 9) == [9, 7, 2, 1];
  }

  lemma RowOf(tree: Tree, rank: map<Hash, nat>)
    requires Grounded(tree, rank) && 9 in tree && tree[9].parent == 7 && 7 in tree && tree[7].parent == 2
    requires 2 in tree && tree[2].parent == 1 && 1 in tree && tree[1].parent == NO_HASH
    ensures Lineage(tree, rank, 9) == [9, 7, 2, 1]
  {
    assert Lineage(tree, rank, NO_HASH) == [];
    assert Lineage(tree, rank, 1) == [1];
    assert Lineage(tree, rank, 2) == [2, 1];
    assert Lineage(tree, rank, 7) == [7, 2, 1];
  }

  /** The head is on the finalized branch, until a block in slot zero on the fork takes it away. */
  method HeadLeavesFinal() returns (c: CN.Chain, status: CN.Status)
    ensures status == CN.Added && c.Valid() && c.db.finalized == 3 && c.db.last == 9 && !CN.HeadOnFinal(c.db, c.rank)
  {
    hide HeadInv, CN.OneLine, Grounded, Ready, FinalizeOutcome, Commit, CommitRank, CN.NodeInv, CN.OutcomeAt,
      CN.HeadOnFinal;
    c := FinalizedBesideFork();
    CN.NodeParts(c.rules, c.db, c.rank, c.below);
    ForkReady(c.db, c.rank);
    NoSecondRun(Db5(c.db), CommitRank(c.db, c.rank, Proposed(9, 7, 0)));
    status := Add(c, Proposed(9, 7, 0), Db5(c.db));
    OffBranch(c.db, c.rank);
  }

  // ---------- finalizing a second time ----------

  /** What finalizing at block 10 depends on: blocks 3, 4, 5 and 8 in a row, one per epoch, with block 3 finalized. */
  ghost predicate FinalRow(db: Db, rank: map<Hash, nat>) {
    && Grounded(db.tree, rank) && db.finalized == 3 && db.finalizedSlot == 100
    && 3 in db.tree && db.tree[3].slot == 100 && 4 in db.tree && db.tree[4].slot == 200 && db.tree[4].parent == 3
    && 5 in db.tree && db.tree[5].slot == 300 && db.tree[5].parent == 4
    && 8 in db.tree && db.tree[8].slot == 400 && db.tree[8].parent == 5
    && (4, 5) in db.epochs && db.epochs[(4, 5)] == FullRec(4, 5)
  }

  /** In epoch five the two runs below sit on block 4, which sits on the finalized block. */
  lemma NextBetween(db: Db, rank: map<Hash, nat>)
    requires FinalRow(db, rank)
    ensures FinalizeOutcome(100, db, rank, Proposed(10, 8, 5), FullRec(5, 8)) == Finalizes([4])
  {
    hide Grounded, Lookup;
    assert WholeRun(100, db.tree, rank, 8) == Some([8]);
    assert WholeRun(100, db.tree, rank, 5) == Some([5]);
    LookupAbove(100, db, rank, 400, 5);
    assert PathTo(db.tree, rank, 3, 3) == Some([]);
    assert [4] + [] == [4];
    assert PathTo(db.tree, rank, 4, 3) == Some([4]);
  }

  function Db6(db: Db): Db { Stacked(db, Proposed(10, 8, 5), 5 * STAKE, true) }

  lemma FifthReady(db: Db, rank: map<Hash, nat>)
    requires FinalRow(db, rank) && db.last == 8 && 10 !in db.tree && 10 !in db.blocks
    requires 8 in db.blocks && db.blocks[8] == Proposed(8, 5, 4) && db.tree[8].total == 4 * STAKE
    ensures Ready(db, rank, Proposed(10, 8, 5))
    ensures Commit(100, db, Proposed(10, 8, 5), FullRec(5, 8)) == Some(Db6(db))
    ensures FinalRow(Db6(db), CommitRank(db, rank, Proposed(10, 8, 5)))
  {
    hide Grounded, Alone;
    OpenedAlone(db, rank, 8);
    AddGrounded(db.tree, rank, 10, Meta(8, 500, 5 * STAKE));
  }

  lemma FinalRowAfter(db: Db, rank: map<Hash, nat>, rank': map<Hash, nat>)
    requires InARow(db, rank) && Grounded(Db4Final(db).tree, rank')
    ensures FinalRow(Db4Final(db), rank')
  {
    hide Grounded;
  }

  /** Block 10 finalizes block 4. */
  method FifthBlock(c: CN.Chain)
    requires c.Valid() && c.rules == OneValidator() && c.below == 1 && FinalRow(c.db, c.rank) && c.db.last == 8
    requires 10 !in c.db.tree && 10 !in c.db.blocks && 8 in c.db.blocks && c.db.blocks[8] == Proposed(8, 5, 4)
    requires c.db.tree[8].total == 4 * STAKE
    modifies c
    ensures c.Valid() && c.db == Db6(old(c.db)).(finalized := 4, finalizedSlot := 200) && c.log == old(c.log) + [4]
  {
    hide CN.NodeInv, HeadInv, CN.OneLine, Grounded, Ready, FinalizeOutcome, Commit, CommitRank;
    FifthReady(c.db, c.rank);
    NextBetween(Db6(c.db), CommitRank(c.db, c.rank, Proposed(10, 8, 5)));
    var status := Add(c, Proposed(10, 8, 5), Db6(c.db));
  }

  /** The main branch up to block 8, which finalized block 3. */
  method FirstFinal() returns (c: CN.Chain)
    ensures fresh(c) && c.Valid() && c.rules == OneValidator() && c.below == 1 && FinalRow(c.db, c.rank)
    ensures c.db == Db4Final(Db3(Db2())) && c.log == [2, 3]
  {
    hide CN.NodeInv, HeadInv, CN.OneLine, Grounded, CommitRank, Db2, UpToFour, InARow, FinalRow;
    c := FirstBlock();
    SecondBlock(c);
    UpToFourIs();
    var status := ThirdBlock(c);
    ghost var db, rank := c.db, c.rank;
    RowFacts();
    FourthBlock(c);
    CN.NodeParts(c.rules, c.db, c.rank, c.below);
    FinalRowAfter(db, rank, c.rank);
  }

  lemma RowFacts()
    ensures 8 !in Db3(Db2()).tree && 8 !in Db3(Db2()).blocks
    ensures 10 !in Db4Final(Db3(Db2())).tree && 10 !in Db4Final(Db3(Db2())).blocks
  {
  }

  /** One block per epoch: the blocks of epochs four and five finalize those of epochs one and two. */
  method FinalizesTwice() returns (c: CN.Chain)
    ensures c.Valid() && c.log == [2, 3, 4] && c.db.finalized == 4 && c.db.finalizedSlot == 200 && c.db.last == 10
  {
    hide CN.NodeInv, HeadInv, CN.OneLine, Grounded, Db2, FinalRow;
    c := FirstFinal();
    RowFacts();
    FifthBlock(c);
  }

  lemma UpToFourIs()
    ensures UpToFour(Db2(), Rank2())
  {
    hide Grounded;
    Grounded2();
  }
}

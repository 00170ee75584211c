/**
 Committing blocks and choosing the main-chain head: each block records the stake total of
 its path, and the head moves to a block whose total is strictly larger.
 */
module ForkChoice {
  import opened Machine
  import opened Wrappers
  import opened Hashes
  import opened BlockTree
  import opened EpochMeta

  /**
   A block as it is committed: its links, the stake its processing counted, the validators who
   proposed or attested it, and the keys of its stake transactions.
   */
  datatype Block = Block(hash: Hash, parent: Hash, slot: Word, stake: nat, speakers: seq<Key>, stakeKeys: seq<Key>)

  /** An epoch record: its key, the validators of the epoch, and the stake of the epoch before. */
  datatype EpochRec = EpochRec(epoch: nat, prev: Hash, validators: seq<Key>, found: nat, alloted: nat)

  /** The database: block metadata, blocks, epoch records and the main-chain metadata. */
  datatype Db = Db(tree: Tree, blocks: map<Hash, Block>, epochs: map<(nat, Hash), EpochRec>,
                   last: Hash, finalized: Hash, finalizedSlot: Word)

  function Epoch(perEpoch: nat, slot: nat): nat
    requires perEpoch > 0
  {
    slot / perEpoch
  }

  lemma EpochOfZero(perEpoch: nat)
    requires perEpoch > 0
    ensures Epoch(perEpoch, 0) == 0
  {
  }

  /** Commits a processed block together with the epoch record it was processed under. */
  function Commit(perEpoch: nat, db: Db, b: Block, rec: EpochRec): Option<Db>
    requires perEpoch > 0
  {
    if b.slot != 0 && (b.parent !in db.tree || db.last !in db.tree) then None
    else
      var before := if b.slot != 0 then db.tree[b.parent].total else 0;
      var lastTotal := if b.slot != 0 then db.tree[db.last].total else 0;
      var total := before + b.stake;
      var newEpoch := b.slot == 0 || Epoch(perEpoch, b.slot) != Epoch(perEpoch, db.tree[b.parent].slot);
      Some(db.(tree := db.tree[b.hash := Meta(b.parent, b.slot, total)],
           blocks := db.blocks[b.hash := b],
           epochs := if newEpoch then db.epochs[(rec.epoch, rec.prev) := rec] else db.epochs,
           last := if b.slot == 0 || total > lastTotal then b.hash else db.last))
  }

  // ---------- invariants ----------

  /** The database is made of blocks over the record stored below genesis. */
  ghost predicate DbInv(db: Db, rank: map<Hash, nat>, below: Hash) {
    && Grounded(db.tree, rank)
    && below in db.tree && db.tree[below] == Meta(NO_HASH, 0, 0)
    && db.tree.Keys == db.blocks.Keys + {below} && below !in db.blocks
    && db.last in db.blocks && db.finalized in db.blocks
    && forall h :: h in db.blocks ==>
         && db.blocks[h].hash == h
         && db.tree[h].parent == db.blocks[h].parent != NO_HASH
         && db.tree[h].slot == db.blocks[h].slot
  }

  /** The stake a block counted; the record below genesis counts none. */
  function StakeOf(db: Db, h: Hash): nat { if h in db.blocks then db.blocks[h].stake else 0 }

  /** The stakes along a block's path to genesis, added up. */
  ghost function PathStake(db: Db, rank: map<Hash, nat>, h: Hash): nat
    requires Grounded(db.tree, rank)
    decreases if h in db.tree then rank[h] + 1 else 0
  {
    if h !in db.tree then 0
    else StakeOf(db, h) + PathStake(db, rank, db.tree[h].parent)
  }

  /** The stakes along a block's path down to the nearest block in slot zero, added up. */
  ghost function StakeSinceZero(db: Db, rank: map<Hash, nat>, h: Hash): nat
    requires Grounded(db.tree, rank)
    decreases if h in db.tree then rank[h] + 1 else 0
  {
    if h !in db.tree then 0
    else StakeOf(db, h) + if db.tree[h].slot == 0 then 0 else StakeSinceZero(db, rank, db.tree[h].parent)
  }

  /** What every recorded total is. */
  ghost predicate TotalsInv(db: Db, rank: map<Hash, nat>)
    requires Grounded(db.tree, rank)
  {
    forall h :: h in db.tree ==> db.tree[h].total == StakeSinceZero(db, rank, h)
  }

  /** What every recorded total is meant to be. */
  ghost predicate FullTotals(db: Db, rank: map<Hash, nat>)
    requires Grounded(db.tree, rank)
  {
    forall h :: h in db.tree ==> db.tree[h].total == PathStake(db, rank, h)
  }

  /** No committed block has a larger total than the head. */
  ghost predicate HeadIsMax(db: Db) {
    db.last in db.tree && forall h :: h in db.tree ==> db.tree[h].total <= db.tree[db.last].total
  }

  /** What a caller of Commit hands over: a block whose hash identifies it, above a present parent. */
  ghost predicate Commits(db: Db, below: Hash, b: Block) {
    && b.hash != NO_HASH && b.hash != below && b.parent in db.tree
    && (b.hash in db.blocks ==> db.blocks[b.hash] == b)
  }

  /** db' has everything db has, unchanged. */
  ghost predicate Extends(db: Db, db': Db) {
    && (forall k :: k in db.tree ==> k in db'.tree && db'.tree[k].parent == db.tree[k].parent
                                     && db'.tree[k].slot == db.tree[k].slot)
    && (forall k :: k in db.tree ==> (k in db.blocks <==> k in db'.blocks))
    && (forall k :: k in db.tree && k in db.blocks ==> db.blocks[k] == db'.blocks[k])
  }

  /** The rank of the database after a commit. */
  ghost function CommitRank(db: Db, rank: map<Hash, nat>, b: Block): map<Hash, nat>
    requires Grounded(db.tree, rank) && b.parent in db.tree
  {
    AddRank(db.tree, rank, b.hash, Meta(b.parent, b.slot, 0))
  }

  lemma CommitGrounded(perEpoch: nat, db: Db, rank: map<Hash, nat>, below: Hash, b: Block, rec: EpochRec)
    requires perEpoch > 0 && DbInv(db, rank, below) && Commits(db, below, b)
    ensures var r := Commit(perEpoch, db, b, rec);
            r.Some? && DbInv(r.value, CommitRank(db, rank, b), below) && Extends(db, r.value)
  {
    hide Grounded, Extends;
    var m := Commit(perEpoch, db, b, rec).value.tree[b.hash];
    AddGrounded(db.tree, rank, b.hash, m);
    CommitExtends(perEpoch, db, rank, below, b, rec);
  }

  lemma CommitExtends(perEpoch: nat, db: Db, rank: map<Hash, nat>, below: Hash, b: Block, rec: EpochRec)
    requires perEpoch > 0 && DbInv(db, rank, below) && Commits(db, below, b)
    ensures Commit(perEpoch, db, b, rec).Some? && Extends(db, Commit(perEpoch, db, b, rec).value)
  {
    hide Grounded;
  }

  /** The sums of the blocks already there do not change. */
  lemma {:induction false} StakesSame(db: Db, rank: map<Hash, nat>, db': Db, rank': map<Hash, nat>, h: Hash)
    requires Grounded(db.tree, rank) && Grounded(db'.tree, rank') && Extends(db, db') && h in db.tree
    ensures PathStake(db', rank', h) == PathStake(db, rank, h)
    ensures StakeSinceZero(db', rank', h) == StakeSinceZero(db, rank, h)
    decreases rank[h]
  {
    if db.tree[h].parent in db.tree {
      StakesSame(db, rank, db', rank', db.tree[h].parent);
    }
  }

  lemma CommitsAbove(db: Db, below: Hash, b: Block)
    requires Commits(db, below, b)
    ensures b.parent in db.tree && b.hash != NO_HASH
  {
  }

  /**
   Every commit, whatever its slot, keeps each recorded total the sum of the stakes along the
   block's path down to the nearest block in slot zero.
   */
  lemma CommitTotals(perEpoch: nat, db: Db, rank: map<Hash, nat>, below: Hash, b: Block, rec: EpochRec)
    requires perEpoch > 0 && DbInv(db, rank, below) && Commits(db, below, b) && TotalsInv(db, rank)
    ensures var db' := Commit(perEpoch, db, b, rec).value;
            var rank' := CommitRank(db, rank, b);
            Grounded(db'.tree, rank') && TotalsInv(db', rank')
  {
    hide Extends, CommitRank, Commits, Grounded, PathStake;
    CommitsAbove(db, below, b);
    var db' := Commit(perEpoch, db, b, rec).value;
    var rank' := CommitRank(db, rank, b);
    CommitGrounded(perEpoch, db, rank, below, b, rec);
    StakesSame(db, rank, db', rank', b.parent);
    forall h | h in db'.tree
      ensures db'.tree[h].total == StakeSinceZero(db', rank', h)
    {
      if h != b.hash {
        StakesSame(db, rank, db', rank', h);
      }
    }
  }

  /** Committing a block again changes neither the blocks nor what is recorded about them. */
  lemma CommitAgain(perEpoch: nat, db: Db, rank: map<Hash, nat>, below: Hash, b: Block, rec: EpochRec)
    requires perEpoch > 0 && DbInv(db, rank, below) && Commits(db, below, b) && TotalsInv(db, rank)
    requires b.hash in db.blocks
    ensures Commit(perEpoch, db, b, rec).Some?
    ensures Commit(perEpoch, db, b, rec).value.tree == db.tree && Commit(perEpoch, db, b, rec).value.blocks == db.blocks
  {
    hide Grounded, TotalsInv, StakeSinceZero, Epoch;
    TotalAt(db, rank, b.hash);
    if b.slot != 0 {
      TotalAt(db, rank, b.parent);
    }
  }

  lemma TotalAt(db: Db, rank: map<Hash, nat>, h: Hash)
    requires Grounded(db.tree, rank) && TotalsInv(db, rank) && h in db.tree
    ensures db.tree[h].total == StakeSinceZero(db, rank, h)
    ensures StakeSinceZero(db, rank, h)
            == StakeOf(db, h) + if db.tree[h].slot == 0 then 0 else StakeSinceZero(db, rank, db.tree[h].parent)
  {
  }

  /** No commit changes what is recorded about the blocks already there. */
  lemma CommitKeepsMeta(perEpoch: nat, db: Db, rank: map<Hash, nat>, below: Hash, b: Block, rec: EpochRec)
    requires perEpoch > 0 && DbInv(db, rank, below) && Commits(db, below, b) && TotalsInv(db, rank)
    ensures Commit(perEpoch, db, b, rec).Some?
    ensures var db' := Commit(perEpoch, db, b, rec).value;
            forall h :: h in db.tree ==> h in db'.tree && db'.tree[h] == db.tree[h]
  {
    hide TotalsInv, Grounded, Epoch;
    if b.hash in db.blocks {
      CommitAgain(perEpoch, db, rank, below, b, rec);
    }
  }

  /**
   A new block's commit keeps all totals the sums of stakes down to genesis, exactly if the block
   is after slot zero or nothing was counted below it: in slot zero the total starts from nothing.
   */
  lemma CommitFullTotalsIff(perEpoch: nat, db: Db, rank: map<Hash, nat>, below: Hash, b: Block, rec: EpochRec)
    requires perEpoch > 0 && DbInv(db, rank, below) && Commits(db, below, b) && FullTotals(db, rank)
    requires b.hash !in db.blocks
    ensures var db' := Commit(perEpoch, db, b, rec).value;
            var rank' := CommitRank(db, rank, b);
            && Grounded(db'.tree, rank')
            && (FullTotals(db', rank') <==> b.slot != 0 || db.tree[b.parent].total == 0)
  {
    hide Extends, CommitRank, Commits, Grounded, StakeSinceZero;
    CommitsAbove(db, below, b);
    var db' := Commit(perEpoch, db, b, rec).value;
    var rank' := CommitRank(db, rank, b);
    CommitGrounded(perEpoch, db, rank, below, b, rec);
    StakesSame(db, rank, db', rank', b.parent);
    forall h | h in db.tree
      ensures h in db'.tree && db'.tree[h].total == PathStake(db', rank', h)
    {
      StakesSame(db, rank, db', rank', h);
    }
    assert PathStake(db', rank', b.hash) == b.stake + PathStake(db, rank, b.parent);
  }

  /** Over all: the totals are sums down to genesis exactly if no block in slot zero has stake below it. */
  lemma FullTotalsIff(db: Db, rank: map<Hash, nat>, below: Hash)
    requires DbInv(db, rank, below) && TotalsInv(db, rank)
    ensures FullTotals(db, rank) <==>
            forall h :: h in db.tree && db.tree[h].slot == 0 ==> PathStake(db, rank, db.tree[h].parent) == 0
  {
    hide Grounded, DbInv;
    InvGrounded(db, rank, below);
    if FullTotals(db, rank) {
      forall h | h in db.tree && db.tree[h].slot == 0
        ensures PathStake(db, rank, db.tree[h].parent) == 0
      {
        assert db.tree[h].total == StakeSinceZero(db, rank, h) == PathStake(db, rank, h);
      }
    } else if forall h :: h in db.tree && db.tree[h].slot == 0 ==> PathStake(db, rank, db.tree[h].parent) == 0 {
      forall h | h in db.tree
        ensures db.tree[h].total == PathStake(db, rank, h)
      {
        StakesAgree(db, rank, h);
      }
    }
  }

  lemma InvGrounded(db: Db, rank: map<Hash, nat>, below: Hash)
    requires DbInv(db, rank, below)
    ensures Grounded(db.tree, rank) && db.last in db.tree && db.finalized in db.tree && below in db.tree
    ensures below !in db.blocks && db.blocks.Keys <= db.tree.Keys
  {
  }

  lemma {:induction false} StakesAgree(db: Db, rank: map<Hash, nat>, h: Hash)
    requires Grounded(db.tree, rank) && h in db.tree
    requires forall k :: k in db.tree && db.tree[k].slot == 0 ==> PathStake(db, rank, db.tree[k].parent) == 0
    ensures StakeSinceZero(db, rank, h) == PathStake(db, rank, h)
    decreases rank[h]
  {
    if db.tree[h].parent in db.tree {
      StakesAgree(db, rank, db.tree[h].parent);
    }
  }

  /**
   Whether a commit keeps the head maximal. A block in slot zero takes the head whatever its
   stake, so exactly the commits in a later slot, or with enough stake of their own, keep it.
   */
  lemma CommitKeepsMaxIff(perEpoch: nat, db: Db, rank: map<Hash, nat>, below: Hash, b: Block, rec: EpochRec)
    requires perEpoch > 0 && DbInv(db, rank, below) && Commits(db, below, b) && HeadIsMax(db)
    requires b.hash !in db.blocks
    ensures HeadIsMax(Commit(perEpoch, db, b, rec).value)
            <==> (b.slot != 0 || b.stake >= db.tree[db.last].total)
  {
    var db' := Commit(perEpoch, db, b, rec).value;
    if b.slot == 0 {
      assert db'.last == b.hash && db'.tree[b.hash].total == b.stake;
      assert db.last in db'.tree && db'.tree[db.last] == db.tree[db.last];
    }
  }

  // ---------- the head ----------

  /**
   The head of a database in which the blocks bs arrived in this order. The last arrival in slot
   zero took the head, and since then the head is the first arrival of maximum total.
   */
  ghost predicate HeadInv(db: Db, bs: seq<Block>) {
    && (forall j :: 0 <= j < |bs| ==> bs[j].hash in db.tree)
    && exists k: nat, i: nat :: HeadAt(db, bs, k, i)
  }

  ghost predicate HeadAt(db: Db, bs: seq<Block>, k: nat, i: nat) {
    && k <= i < |bs| && db.last == bs[i].hash
    && (forall j :: 0 <= j < |bs| ==> bs[j].hash in db.tree)
    && bs[k].slot == 0 && (forall j :: k < j < |bs| ==> bs[j].slot != 0)
    && (forall j :: k <= j < i ==> db.tree[bs[j].hash].total < db.tree[bs[i].hash].total)
    && (forall j :: i < j < |bs| ==> db.tree[bs[j].hash].total <= db.tree[bs[i].hash].total)
  }

  /** A strictly larger total, or slot zero, takes the head; a tie keeps the earlier head. */
  lemma HeadNext(db: Db, db': Db, bs: seq<Block>, b: Block)
    requires HeadInv(db, bs) && b.hash in db'.tree && db.last in db.tree
    requires forall h :: h in db.tree ==> h in db'.tree && db'.tree[h] == db.tree[h]
    requires db'.last == if b.slot == 0 || db'.tree[b.hash].total > db.tree[db.last].total then b.hash else db.last
    ensures HeadInv(db', bs + [b])
  {
    var k: nat, i: nat :| HeadAt(db, bs, k, i);
    var bs' := bs + [b];
    var n := |bs|;
    assert forall j :: 0 <= j < n ==> bs'[j] == bs[j];
    if b.slot == 0 {
      assert HeadAt(db', bs', n, n);
    } else if db'.tree[b.hash].total > db.tree[db.last].total {
      forall j | k <= j < n
        ensures db'.tree[bs'[j].hash].total < db'.tree[b.hash].total
      {
      }
      assert HeadAt(db', bs', k, n);
    } else {
      assert HeadAt(db', bs', k, i);
    }
  }

  lemma CommitHead(perEpoch: nat, db: Db, rank: map<Hash, nat>, below: Hash, b: Block, rec: EpochRec, bs: seq<Block>)
    requires perEpoch > 0 && DbInv(db, rank, below) && Commits(db, below, b) && TotalsInv(db, rank) && HeadInv(db, bs)
    ensures Commit(perEpoch, db, b, rec).Some? && HeadInv(Commit(perEpoch, db, b, rec).value, bs + [b])
  {
    hide TotalsInv, Grounded, HeadInv, Epoch;
    CommitKeepsMeta(perEpoch, db, rank, below, b, rec);
    HeadNext(db, Commit(perEpoch, db, b, rec).value, bs, b);
  }

  /**
   Where genesis is the only arrival in slot zero: the head is one of the arrivals, its path to
   genesis carries more stake than every earlier one and at least as much as every later one.
   */
  ghost predicate FirstMax(db: Db, rank: map<Hash, nat>, bs: seq<Block>)
    requires Grounded(db.tree, rank)
  {
    exists i :: 0 <= i < |bs| && FirstMaxAt(db, rank, bs, i)
  }

  ghost predicate FirstMaxAt(db: Db, rank: map<Hash, nat>, bs: seq<Block>, i: nat)
    requires Grounded(db.tree, rank) && i < |bs|
  {
    && db.last == bs[i].hash
    && (forall j :: 0 <= j < i ==> PathStake(db, rank, bs[j].hash) < PathStake(db, rank, bs[i].hash))
    && (forall j :: i < j < |bs| ==> PathStake(db, rank, bs[j].hash) <= PathStake(db, rank, bs[i].hash))
  }

  lemma HeadIsFirstMax(db: Db, rank: map<Hash, nat>, bs: seq<Block>)
    requires Grounded(db.tree, rank) && FullTotals(db, rank) && HeadInv(db, bs)
    requires forall j :: 0 < j < |bs| ==> bs[j].slot != 0
    ensures FirstMax(db, rank, bs)
  {
    hide PathStake, Grounded;
    var k: nat, i: nat :| HeadAt(db, bs, k, i);
    assert k == 0;
    forall j | 0 <= j < |bs|
      ensures db.tree[bs[j].hash].total == PathStake(db, rank, bs[j].hash)
    {
    }
    assert FirstMaxAt(db, rank, bs, i);
  }

  // ---------- runs ----------

  datatype Step = Step(block: Block, rec: EpochRec)

  /** A run of commits; a block whose parent is unknown is not committed. */
  function Run(perEpoch: nat, db: Db, steps: seq<Step>): Db
    requires perEpoch > 0
    decreases |steps|
  {
    if steps == [] then db
    else if steps[0].block.parent !in db.tree then Run(perEpoch, db, steps[1..])
    else
      match Commit(perEpoch, db, steps[0].block, steps[0].rec)
      case Some(db') => Run(perEpoch, db', steps[1..])
      case None => Run(perEpoch, db, steps[1..])
  }

  /** The blocks a run commits, in order. */
  function Committed(perEpoch: nat, db: Db, steps: seq<Step>): seq<Block>
    requires perEpoch > 0
    decreases |steps|
  {
    if steps == [] then []
    else if steps[0].block.parent !in db.tree then Committed(perEpoch, db, steps[1..])
    else
      match Commit(perEpoch, db, steps[0].block, steps[0].rec)
      case Some(db') => [steps[0].block] + Committed(perEpoch, db', steps[1..])
      case None => Committed(perEpoch, db, steps[1..])
  }

  /** Hashes identify blocks. */
  ghost predicate Identified(db: Db, below: Hash, content: Hash -> Block, steps: seq<Step>) {
    && (forall h :: h in db.blocks ==> db.blocks[h] == content(h))
    && forall i :: 0 <= i < |steps| ==>
         var b := steps[i].block;
         b == content(b.hash) && b.hash != NO_HASH && b.hash != below
  }

  lemma IdentifiedTail(db: Db, below: Hash, content: Hash -> Block, steps: seq<Step>)
    requires Identified(db, below, content, steps) && steps != []
    ensures Identified(db, below, content, steps[1..])
  {
  }

  lemma IdentifiedNext(perEpoch: nat, db: Db, below: Hash, content: Hash -> Block, steps: seq<Step>)
    requires perEpoch > 0 && Identified(db, below, content, steps) && steps != []
    requires steps[0].block.parent in db.tree
    ensures Commits(db, below, steps[0].block)
    ensures Commit(perEpoch, db, steps[0].block, steps[0].rec).Some? ==>
              Identified(Commit(perEpoch, db, steps[0].block, steps[0].rec).value, below, content, steps[1..])
  {
    IdentifiedTail(db, below, content, steps);
  }

  lemma StepGrounded(perEpoch: nat, db: Db, rank: map<Hash, nat>, below: Hash, content: Hash -> Block, steps: seq<Step>)
    requires perEpoch > 0 && DbInv(db, rank, below) && Identified(db, below, content, steps) && steps != []
    requires steps[0].block.parent in db.tree
    ensures var r := Commit(perEpoch, db, steps[0].block, steps[0].rec);
            && r.Some? && Grounded(db.tree, rank) && DbInv(r.value, CommitRank(db, rank, steps[0].block), below)
            && Identified(r.value, below, content, steps[1..])
  {
    hide DbInv, Grounded, Identified, Commits, CommitRank, Commit;
    InvGrounded(db, rank, below);
    IdentifiedNext(perEpoch, db, below, content, steps);
    CommitGrounded(perEpoch, db, rank, below, steps[0].block, steps[0].rec);
  }

  /** The rank at the end of a run. */
  ghost function RunRank(perEpoch: nat, db: Db, rank: map<Hash, nat>, below: Hash, content: Hash -> Block,
                         steps: seq<Step>): (r: map<Hash, nat>)
    requires perEpoch > 0 && DbInv(db, rank, below) && Identified(db, below, content, steps)
    ensures DbInv(Run(perEpoch, db, steps), r, below)
    decreases |steps|
  {
    if steps == [] then rank
    else if steps[0].block.parent !in db.tree then
      IdentifiedTail(db, below, content, steps);
      RunRank(perEpoch, db, rank, below, content, steps[1..])
    else
      StepGrounded(perEpoch, db, rank, below, content, steps);
      var db' := Commit(perEpoch, db, steps[0].block, steps[0].rec).value;
      RunRank(perEpoch, db', CommitRank(db, rank, steps[0].block), below, content, steps[1..])
  }

  /**
   In every run of commits every recorded total is the sum of stakes down to the nearest block in
   slot zero, and the head is the first block of maximum total since the last commit in slot zero.
   */
  lemma {:induction false} RunHead(perEpoch: nat, db: Db, rank: map<Hash, nat>, below: Hash,
                                   content: Hash -> Block, steps: seq<Step>, bs: seq<Block>)
    requires perEpoch > 0 && DbInv(db, rank, below) && Identified(db, below, content, steps)
    requires TotalsInv(db, rank) && HeadInv(db, bs)
    ensures var db' := Run(perEpoch, db, steps);
            var rank' := RunRank(perEpoch, db, rank, below, content, steps);
            && Grounded(db'.tree, rank') && TotalsInv(db', rank')
            && HeadInv(db', bs + Committed(perEpoch, db, steps))
    decreases |steps|
  {
    hide DbInv, Grounded, TotalsInv, HeadInv, StakeSinceZero, Identified, Commits, CommitRank;
    InvGrounded(db, rank, below);
    if steps == [] {
      assert bs + [] == bs;
    } else {
      var b, rec := steps[0].block, steps[0].rec;
      if b.parent !in db.tree {
        IdentifiedTail(db, below, content, steps);
        RunHead(perEpoch, db, rank, below, content, steps[1..], bs);
      } else {
        IdentifiedNext(perEpoch, db, below, content, steps);
        CommitGrounded(perEpoch, db, rank, below, b, rec);
        CommitTotals(perEpoch, db, rank, below, b, rec);
        CommitHead(perEpoch, db, rank, below, b, rec, bs);
        var db' := Commit(perEpoch, db, b, rec).value;
        RunHead(perEpoch, db', CommitRank(db, rank, b), below, content, steps[1..], bs + [b]);
        assert (bs + [b]) + Committed(perEpoch, db', steps[1..])
            == bs + ([b] + Committed(perEpoch, db', steps[1..]));
      }
    }
  }

  lemma {:induction false} RunFullTotals(perEpoch: nat, db: Db, rank: map<Hash, nat>, below: Hash,
                                         content: Hash -> Block, steps: seq<Step>)
    requires perEpoch > 0 && DbInv(db, rank, below) && Identified(db, below, content, steps)
    requires TotalsInv(db, rank) && FullTotals(db, rank) && forall i :: 0 <= i < |steps| ==> steps[i].block.slot != 0
    ensures var db' := Run(perEpoch, db, steps);
            var rank' := RunRank(perEpoch, db, rank, below, content, steps);
            Grounded(db'.tree, rank') && FullTotals(db', rank')
    ensures forall j :: 0 <= j < |Committed(perEpoch, db, steps)| ==> Committed(perEpoch, db, steps)[j].slot != 0
    decreases |steps|
  {
    hide DbInv, Grounded, TotalsInv, FullTotals, PathStake, StakeSinceZero, Identified, Commits, CommitRank;
    InvGrounded(db, rank, below);
    if steps != [] {
      var b, rec := steps[0].block, steps[0].rec;
      if b.parent !in db.tree {
        IdentifiedTail(db, below, content, steps);
        RunFullTotals(perEpoch, db, rank, below, content, steps[1..]);
      } else {
        IdentifiedNext(perEpoch, db, below, content, steps);
        CommitGrounded(perEpoch, db, rank, below, b, rec);
        CommitTotals(perEpoch, db, rank, below, b, rec);
        CommitFullTotals(perEpoch, db, rank, below, b, rec);
        var db' := Commit(perEpoch, db, b, rec).value;
        RunFullTotals(perEpoch, db', CommitRank(db, rank, b), below, content, steps[1..]);
      }
    }
  }

  lemma CommitFullTotals(perEpoch: nat, db: Db, rank: map<Hash, nat>, below: Hash, b: Block, rec: EpochRec)
    requires perEpoch > 0 && DbInv(db, rank, below) && Commits(db, below, b) && TotalsInv(db, rank)
    requires FullTotals(db, rank) && b.slot != 0
    ensures var db' := Commit(perEpoch, db, b, rec).value;
            var rank' := CommitRank(db, rank, b);
            Grounded(db'.tree, rank') && FullTotals(db', rank')
  {
    hide Grounded, TotalsInv, StakeSinceZero, PathStake;
    if b.hash !in db.blocks {
      CommitFullTotalsIff(perEpoch, db, rank, below, b, rec);
    } else {
      var db' := Commit(perEpoch, db, b, rec).value;
      var rank' := CommitRank(db, rank, b);
      CommitAgain(perEpoch, db, rank, below, b, rec);
      CommitGrounded(perEpoch, db, rank, below, b, rec);
      forall h | h in db'.tree
        ensures db'.tree[h].total == PathStake(db', rank', h)
      {
        StakesSame(db, rank, db', rank', h);
      }
    }
  }

  /**
   In every run of commits after slot zero the head is the first committed block of maximum total
   stake, and every recorded total is the sum of stakes along the block's path to genesis.
   */
  lemma RunHeadIsFirstMax(perEpoch: nat, db: Db, rank: map<Hash, nat>, below: Hash, content: Hash -> Block,
                          steps: seq<Step>, g: Block)
    requires perEpoch > 0 && DbInv(db, rank, below) && Identified(db, below, content, steps)
    requires TotalsInv(db, rank) && FullTotals(db, rank) && HeadInv(db, [g])
    requires forall i :: 0 <= i < |steps| ==> steps[i].block.slot != 0
    ensures var db' := Run(perEpoch, db, steps);
            var rank' := RunRank(perEpoch, db, rank, below, content, steps);
            && FullTotals(db', rank')
            && FirstMax(db', rank', [g] + Committed(perEpoch, db, steps))
  {
    hide DbInv, TotalsInv, FullTotals, HeadInv, Identified, Grounded, Run, Committed, FirstMax, RunRank;
    RunHead(perEpoch, db, rank, below, content, steps, [g]);
    RunFullTotals(perEpoch, db, rank, below, content, steps);
    HeadIsFirstMax(Run(perEpoch, db, steps), RunRank(perEpoch, db, rank, below, content, steps),
                   [g] + Committed(perEpoch, db, steps));
  }

  /** The database as genesis processing leaves it: the record below genesis and genesis itself. */
  function Genesis(below: Hash, g: Block, rec: EpochRec): Db {
    Db(map[below := Meta(NO_HASH, 0, 0), g.hash := Meta(below, 0, g.stake)], map[g.hash := g],
       map[(rec.epoch, rec.prev) := rec], g.hash, g.hash, 0)
  }

  lemma GenesisDb(below: Hash, g: Block, rec: EpochRec)
    requires below != NO_HASH && g.hash != NO_HASH && g.hash != below && g.parent == below && g.slot == 0
    ensures DbInv(Genesis(below, g, rec), map[below := 0, g.hash := 1], below)
  {
  }

  /** Genesis satisfies everything the run theorems start from. */
  lemma GenesisHolds(below: Hash, g: Block, rec: EpochRec)
    requires below != NO_HASH && g.hash != NO_HASH && g.hash != below && g.parent == below && g.slot == 0
    ensures var db := Genesis(below, g, rec);
            var rank := map[below := 0, g.hash := 1];
            DbInv(db, rank, below) && TotalsInv(db, rank) && FullTotals(db, rank) && HeadInv(db, [g])
  {
    hide Grounded, DbInv;
    var db := Genesis(below, g, rec);
    var rank := map[below := 0, g.hash := 1];
    GenesisDb(below, g, rec);
    InvGrounded(db, rank, below);
    assert PathStake(db, rank, NO_HASH) == 0 == StakeSinceZero(db, rank, NO_HASH);
    assert PathStake(db, rank, below) == 0 == StakeSinceZero(db, rank, below);
    assert PathStake(db, rank, g.hash) == g.stake == StakeSinceZero(db, rank, g.hash);
    assert HeadAt(db, [g], 0, 0);
  }
}

/**
 The validators who speak in the blocks of an epoch: the proposer and the attestors of each block
 are validators of its slot, so over a run of blocks in rising slots nobody speaks twice, and the
 stake found never exceeds the stake allotted.
 */
module EpochSpeakers {
  import opened Wrappers
  import opened Hashes
  import opened Ledger
  import opened EpochMeta
  import opened StakeRegistry
  import opened SlotAllotment
  import opened ProtocolTxs
  import opened BlockTree
  import opened ForkChoice
  import opened EpochRecords
  import opened EpochUpdate
  import opened EpochHistory

  /** Everyone who speaks in the block has a role in its slot, and nobody speaks twice. */
  predicate Speaks(perEpoch: nat, validators: seq<Key>, b: Block)
    requires perEpoch > 0
  {
    && b.slot % perEpoch < |validators| && Distinct(b.speakers)
    && forall k :: k in b.speakers ==> k in SlotRoles(validators, perEpoch, b.slot % perEpoch)
  }

  /** Every block after slot zero was spoken for by validators of its epoch's record. */
  ghost predicate SpeaksInv(rules: Rules, db: Db, rank: map<Hash, nat>)
    requires rules.perEpoch > 0 && Grounded(db.tree, rank)
  {
    forall h :: h in db.blocks ==> SpeaksAt(rules, db, rank, h)
  }

  ghost predicate SpeaksAt(rules: Rules, db: Db, rank: map<Hash, nat>, h: Hash)
    requires rules.perEpoch > 0 && Grounded(db.tree, rank) && h in db.blocks
  {
    h in db.tree && db.tree[h].slot != 0 ==>
      var r := Lookup(rules.perEpoch, db, rank, db.tree[h].slot, db.tree[h].parent);
      r.Some? && Speaks(rules.perEpoch, r.value.validators, db.blocks[h])
  }

  /** No record lists a validator twice. */
  ghost predicate DistinctInv(db: Db) {
    forall key :: key in db.epochs ==> Distinct(db.epochs[key].validators)
  }

  /**
   Processing a block in a fresh context of its slot succeeds only if the slot's validators speak
   for it, and then counts one stake for each of them.
   */
  lemma ProcessedSpeaks(cfg: Config, p: Progress, cb: CoinBase, attestors: seq<Key>, perEpoch: nat,
                        validators: seq<Key>, b: Block)
    requires perEpoch > 0 && p.context.slot == b.slot > 0 && p.context.total == 0 && b.slot % perEpoch < |validators|
    requires Slot(|validators|, perEpoch, b.slot % perEpoch).Some?
    requires var info := Slot(|validators|, perEpoch, b.slot % perEpoch).value;
             && info.leader < |validators|
             && forall k :: k in p.context.flags <==>
                  k == validators[info.leader] || Attests(validators, info, |info.attestors|, k)
    requires Protocol(cfg, p, cb, attestors).Some? && b.speakers == Speakers(cb, attestors)
    ensures Speaks(perEpoch, validators, b)
    ensures Protocol(cfg, p, cb, attestors).value.context.total == Times(|b.speakers|, cfg.stakeAmount)
  {
    hide Protocol, Roles, Times, Distinct, Slot;
    ProtocolStake(cfg, p, cb, attestors);
    var info := Slot(|validators|, perEpoch, b.slot % perEpoch).value;
    IndicesFit(|validators|, perEpoch, b.slot % perEpoch);
    forall k | k in b.speakers
      ensures k in SlotRoles(validators, perEpoch, b.slot % perEpoch)
    {
      RolesMean(validators, info, |info.attestors|, k);
    }
  }

  /**
   Exactly then: in a fresh context processing succeeds if and only if the slot's validators speak for
   the block, its leader proposes it, and everyone who speaks has a full stake.
   */
  lemma ProcessedIff(cfg: Config, p: Progress, cb: CoinBase, attestors: seq<Key>, perEpoch: nat,
                     validators: seq<Key>, b: Block)
    requires perEpoch > 0 && p.context.slot == b.slot > 0 && p.context.total == 0 && b.slot % perEpoch < |validators|
    requires Slot(|validators|, perEpoch, b.slot % perEpoch).Some?
    requires var info := Slot(|validators|, perEpoch, b.slot % perEpoch).value;
             && info.leader < |validators| && p.context.leader == validators[info.leader]
             && (forall k :: k in p.context.flags ==> !p.context.flags[k])
             && forall k :: k in p.context.flags <==>
                  k == validators[info.leader] || Attests(validators, info, |info.attestors|, k)
    requires b.speakers == Speakers(cb, attestors)
    ensures Protocol(cfg, p, cb, attestors).Some? <==>
            && Speaks(perEpoch, validators, b) && cb.pk == validators[b.slot % perEpoch]
            && forall k :: k in b.speakers ==> Get(p.accounts, cfg.addr(k)).stake >= cfg.stakeAmount
  {
    hide Protocol, Roles, Times, Distinct, Slot;
    ProtocolIff(cfg, p, cb, attestors);
    var j := b.slot % perEpoch;
    var info := Slot(|validators|, perEpoch, j).value;
    IndicesFit(|validators|, perEpoch, j);
    SlotHolds(|validators|, perEpoch, j, 0);
    forall k | k in b.speakers
      ensures k in p.context.flags <==> k in SlotRoles(validators, perEpoch, j)
    {
      RolesMean(validators, info, |info.attestors|, k);
    }
  }

  // ---------- commits ----------

  lemma NewRecordDistinct(rules: Rules, blocks: map<Hash, Block>, run: seq<Hash>, before: EpochRec, epoch: nat,
                          parent: Hash)
    requires ValidRules(rules) && Distinct(before.validators)
    requires NewRecord(rules, blocks, run, before, epoch, parent).Record?
    ensures Distinct(NewRecord(rules, blocks, run, before, epoch, parent).rec.validators)
  {
    hide UpdateAll, Joined, AllSpeakers, Loaded, Distinct;
    UpdateDistinct(rules.addr, Registry(rules.accounts(parent), before.validators), Joined(blocks, run));
    var validators := NextRegistry(rules, blocks, run, before, parent).validators;
    PermutedDistinct(validators, rules.shuffle(parent, validators));
  }

  lemma RecordDistinct(rules: Rules, db: Db, rank: map<Hash, nat>, slot: nat, parent: Hash)
    requires ValidRules(rules) && Grounded(db.tree, rank) && DistinctInv(db)
    requires EpochRecordFor(rules, db, rank, slot, parent).Record?
    ensures Distinct(EpochRecordFor(rules, db, rank, slot, parent).rec.validators)
  {
    hide Epoch, Grounded, EpochRun, NewRecord, Distinct, ResolveKey;
    if Epoch(rules.perEpoch, db.tree[parent].slot) != Epoch(rules.perEpoch, slot) {
      NewRecordDistinct(rules, db.blocks, EpochRun(rules.perEpoch, db.tree, rank, parent),
                        RunBefore(rules, db, rank, parent).value, Epoch(rules.perEpoch, slot), parent);
    }
  }

  /** A commit of a block that its epoch's validators speak for keeps all of this. */
  lemma CommitSpeaks(rules: Rules, db: Db, rank: map<Hash, nat>, below: Hash, b: Block)
    requires ValidRules(rules) && DbInv(db, rank, below) && RecordsInv(rules, db, rank, below)
    requires DistinctInv(db) && SpeaksInv(rules, db, rank)
    requires Commits(db, below, b) && b.parent in db.blocks
    requires EpochRecordFor(rules, db, rank, b.slot, b.parent).Record?
    requires b.slot != 0 ==> Speaks(rules.perEpoch, EpochRecordFor(rules, db, rank, b.slot, b.parent).rec.validators, b)
    ensures var rec := EpochRecordFor(rules, db, rank, b.slot, b.parent).rec;
            var r := Commit(rules.perEpoch, db, b, rec);
            && r.Some? && Grounded(r.value.tree, CommitRank(db, rank, b))
            && DistinctInv(r.value) && SpeaksInv(rules, r.value, CommitRank(db, rank, b))
  {
    hide Grounded, EpochRecordFor, Epoch, Extends, CommitRank, RecordsInv, DbInv, Commit, SpeaksAt, Speaks, Distinct;
    var B := rules.perEpoch;
    InvGrounded(db, rank, below);
    var rec := EpochRecordFor(rules, db, rank, b.slot, b.parent).rec;
    CommitGrounded(B, db, rank, below, b, rec);
    CommitEpochs(rules, db, rank, below, b);
    var db' := Commit(B, db, b, rec).value;
    var rank' := CommitRank(db, rank, b);
    InvGrounded(db', rank', below);
    CommitBlocks(B, db, b, rec);
    RecordDistinct(rules, db, rank, b.slot, b.parent);
    RecordSame(rules, db, rank, db', rank', b.slot, b.parent);
    forall h | h in db'.blocks
      ensures SpeaksAt(rules, db', rank', h)
    {
      if h == b.hash {
        NewSpeaks(rules, db, rank, b, rec, db', rank');
      } else {
        OldSpeaks(rules, db, rank, below, db', rank', h);
      }
    }
  }

  lemma OldSpeaks(rules: Rules, db: Db, rank: map<Hash, nat>, below: Hash, db': Db, rank': map<Hash, nat>, h: Hash)
    requires rules.perEpoch > 0 && DbInv(db, rank, below) && SpeaksInv(rules, db, rank) && Extends(db, db')
    requires Grounded(db'.tree, rank') && h in db.blocks && h in db'.blocks
    requires forall key :: key in db.epochs ==> key in db'.epochs && db'.epochs[key] == db.epochs[key]
    ensures SpeaksAt(rules, db', rank', h)
  {
    hide Grounded, Epoch, Lookup, Speaks;
    assert SpeaksAt(rules, db, rank, h);
    if db.tree[h].slot != 0 {
      LookupSame(rules.perEpoch, db, rank, db', rank', db.tree[h].slot, db.tree[h].parent);
    }
  }

  lemma NewSpeaks(rules: Rules, db: Db, rank: map<Hash, nat>, b: Block, rec: EpochRec, db': Db, rank': map<Hash, nat>)
    requires rules.perEpoch > 0 && Grounded(db'.tree, rank') && Extends(db, db') && b.parent in db.tree
    requires b.slot != 0 ==> Speaks(rules.perEpoch, rec.validators, b)
    requires Commit(rules.perEpoch, db, b, rec) == Some(db')
    requires EpochRecordFor(rules, db', rank', b.slot, b.parent) == Record(rec)
    requires Epoch(rules.perEpoch, db.tree[b.parent].slot) != Epoch(rules.perEpoch, b.slot) ==>
               db'.epochs == db.epochs[(Epoch(rules.perEpoch, b.slot), b.parent) := rec]
    ensures b.hash in db'.blocks && SpeaksAt(rules, db', rank', b.hash)
  {
    hide Grounded, Epoch, Lookup, Speaks, NewRecord;
    if b.slot != 0 && Epoch(rules.perEpoch, db.tree[b.parent].slot) != Epoch(rules.perEpoch, b.slot) {
      LookupAbove(rules.perEpoch, db', rank', b.slot, b.parent);
    }
  }

  // ---------- nobody speaks twice ----------

  /** Slots rise from each block of the run to the next, and none is slot zero. */
  ghost predicate Rising(tree: Tree, run: seq<Hash>) {
    && (forall i :: 0 <= i < |run| ==> run[i] in tree && tree[run[i]].slot != 0)
    && forall i :: 0 <= i < |run| - 1 ==> tree[run[i + 1]].slot < tree[run[i]].slot
  }

  /** The key has a role in a slot of the given slot's epoch that is not after it. */
  ghost predicate SpokeBy(perEpoch: nat, validators: seq<Key>, slot: nat, k: Key)
    requires perEpoch > 0
  {
    exists s: nat :: SpokeAt(perEpoch, validators, slot, k, s)
  }

  ghost predicate SpokeAt(perEpoch: nat, validators: seq<Key>, slot: nat, k: Key, s: nat)
    requires perEpoch > 0
  {
    && s <= slot && Epoch(perEpoch, s) == Epoch(perEpoch, slot) && s % perEpoch < |validators|
    && k in SlotRoles(validators, perEpoch, s % perEpoch)
  }

  /** Different slots of one epoch have different places in it. */
  lemma SlotsApart(perEpoch: nat, s: nat, t: nat)
    requires perEpoch > 0 && s < t && Epoch(perEpoch, s) == Epoch(perEpoch, t)
    ensures s % perEpoch != t % perEpoch
  {
    assert s == perEpoch * (s / perEpoch) + s % perEpoch;
    assert t == perEpoch * (t / perEpoch) + t % perEpoch;
  }

  /** Someone who spoke by an earlier slot of the epoch has no role in a later one. */
  lemma SpokeElsewhere(perEpoch: nat, validators: seq<Key>, earlier: nat, slot: nat, k: Key)
    requires perEpoch > 0 && Distinct(validators) && slot % perEpoch < |validators|
    requires earlier < slot && Epoch(perEpoch, earlier) == Epoch(perEpoch, slot)
    requires SpokeBy(perEpoch, validators, earlier, k)
    ensures k !in SlotRoles(validators, perEpoch, slot % perEpoch)
  {
    hide SlotRoles, Epoch, Distinct;
    var s: nat :| SpokeAt(perEpoch, validators, earlier, k, s);
    SlotsApart(perEpoch, s, slot);
    OnlyOneSlot(validators, perEpoch, s % perEpoch, slot % perEpoch, k);
  }

  lemma OnlyOneSlot(validators: seq<Key>, B: nat, i: nat, j: nat, k: Key)
    requires B > 0 && i < B && i < |validators| && j < B && j < |validators| && Distinct(validators) && i != j
    requires k in SlotRoles(validators, B, i)
    ensures k !in SlotRoles(validators, B, j)
  {
    hide SlotRoles, Distinct;
    if k in SlotRoles(validators, B, j) {
      OneSlotPerKey(validators, B, i, j, k);
    }
  }

  lemma SpokeIsValidator(perEpoch: nat, validators: seq<Key>, slot: nat, k: Key)
    requires perEpoch > 0 && Distinct(validators) && SpokeBy(perEpoch, validators, slot, k)
    ensures k in validators
  {
    hide SlotRoles, Epoch, Distinct;
    var s: nat :| SpokeAt(perEpoch, validators, slot, k, s);
    var v := PositionOf(validators, perEpoch, s % perEpoch, k);
  }

  lemma AppendDistinct(s: seq<Key>, t: seq<Key>)
    requires Distinct(s) && Distinct(t) && forall k :: k in s ==> k !in t
    ensures Distinct(s + t)
  {
    forall i, j | 0 <= i < j < |s + t|
      ensures (s + t)[i] != (s + t)[j]
    {
      if i < |s| <= j {
        assert (s + t)[i] in s && (s + t)[j] in t;
      }
    }
  }

  /** One more block on a run: its speakers are new ones. */
  lemma SpeakersNext(perEpoch: nat, validators: seq<Key>, b: Block, earlier: nat, rest: seq<Key>)
    requires perEpoch > 0 && Distinct(validators) && Speaks(perEpoch, validators, b)
    requires earlier < b.slot && Epoch(perEpoch, earlier) == Epoch(perEpoch, b.slot)
    requires Distinct(rest) && forall k :: k in rest ==> SpokeBy(perEpoch, validators, earlier, k)
    ensures Distinct(b.speakers + rest)
    ensures forall k :: k in b.speakers + rest ==> SpokeBy(perEpoch, validators, b.slot, k)
  {
    hide SlotRoles, Epoch, Distinct;
    forall k | k in rest
      ensures k !in b.speakers && SpokeBy(perEpoch, validators, b.slot, k)
    {
      SpokeElsewhere(perEpoch, validators, earlier, b.slot, k);
      var s: nat :| SpokeAt(perEpoch, validators, earlier, k, s);
      assert SpokeAt(perEpoch, validators, b.slot, k, s);
    }
    forall k | k in b.speakers
      ensures SpokeBy(perEpoch, validators, b.slot, k)
    {
      assert SpokeAt(perEpoch, validators, b.slot, k, b.slot);
    }
    AppendDistinct(b.speakers, rest);
  }

  lemma SpeakersFirst(perEpoch: nat, validators: seq<Key>, b: Block)
    requires perEpoch > 0 && Speaks(perEpoch, validators, b)
    ensures Distinct(b.speakers) && forall k :: k in b.speakers ==> SpokeBy(perEpoch, validators, b.slot, k)
  {
    hide SlotRoles, Epoch, Distinct;
    forall k | k in b.speakers
      ensures SpokeBy(perEpoch, validators, b.slot, k)
    {
      assert SpokeAt(perEpoch, validators, b.slot, k, b.slot);
    }
  }

  /** Over a run in rising slots everyone who spoke is a different validator of the run's record. */
  lemma {:induction false} RunSpeakers(rules: Rules, db: Db, rank: map<Hash, nat>, below: Hash, h: Hash)
    requires rules.perEpoch > 0 && DbInv(db, rank, below) && Rooted(db, below) && RecordsInv(rules, db, rank, below)
    requires DistinctInv(db) && SpeaksInv(rules, db, rank) && h in db.blocks
    requires Rising(db.tree, EpochRun(rules.perEpoch, db.tree, rank, h))
    ensures var B := rules.perEpoch;
            var r := Lookup(B, db, rank, db.tree[h].slot, db.tree[h].parent);
            var all := AllSpeakers(db.blocks, EpochRun(B, db.tree, rank, h));
            && r.Some? && Distinct(r.value.validators) && Distinct(all)
            && forall k :: k in all ==> SpokeBy(B, r.value.validators, db.tree[h].slot, k)
    decreases rank[h]
  {
    hide Epoch, Distinct, Speaks, SpokeBy, Lookup, RecordsInv, StakesLoaded;
    var B := rules.perEpoch;
    EveryBlockFindsItsRecord(rules, db, rank, below, h);
    assert SpeaksAt(rules, db, rank, h);
    assert Rising(db.tree, EpochRun(B, db.tree, rank, h)) ==> db.tree[h].slot != 0;
    var r := Lookup(B, db, rank, db.tree[h].slot, db.tree[h].parent).value;
    var b := db.blocks[h];
    if StartsEpoch(B, db.tree, h) {
      assert AllSpeakers(db.blocks, [h]) == b.speakers + AllSpeakers(db.blocks, [h][1..]);
      assert b.speakers + [] == b.speakers;
      SpeakersFirst(B, r.validators, b);
    } else {
      var p := db.tree[h].parent;
      var run := EpochRun(B, db.tree, rank, p);
      assert ([h] + run)[1..] == run && ([h] + run)[1] == p;
      RisingTail(db.tree, h, run);
      RunSpeakers(rules, db, rank, below, p);
      assert Last([h] + run) == Last(run);
      FirstParent(rules, db, rank, below, h);
      SameRecord(B, db, rank, h, p);
      SpeakersNext(B, r.validators, b, db.tree[p].slot, AllSpeakers(db.blocks, run));
    }
  }

  lemma RisingTail(tree: Tree, h: Hash, run: seq<Hash>)
    requires Rising(tree, [h] + run) && run != []
    ensures Rising(tree, run) && h in tree && tree[run[0]].slot < tree[h].slot
  {
    var all := [h] + run;
    forall i | 0 <= i < |run|
      ensures run[i] in tree && tree[run[i]].slot != 0
    {
      assert all[i + 1] == run[i];
    }
    forall i | 0 <= i < |run| - 1
      ensures tree[run[i + 1]].slot < tree[run[i]].slot
    {
      assert all[i + 1] == run[i] && all[i + 2] == run[i + 1];
    }
    assert all[0] == h && all[1] == run[0];
  }

  /** So no more validators speak in a run than its record lists. */
  lemma SpeakersFit(rules: Rules, db: Db, rank: map<Hash, nat>, below: Hash, h: Hash)
    requires rules.perEpoch > 0 && DbInv(db, rank, below) && Rooted(db, below) && RecordsInv(rules, db, rank, below)
    requires DistinctInv(db) && SpeaksInv(rules, db, rank) && h in db.blocks
    requires Rising(db.tree, EpochRun(rules.perEpoch, db.tree, rank, h))
    ensures var r := Lookup(rules.perEpoch, db, rank, db.tree[h].slot, db.tree[h].parent);
            r.Some? && |AllSpeakers(db.blocks, EpochRun(rules.perEpoch, db.tree, rank, h))| <= |r.value.validators|
  {
    hide Epoch, SpokeBy, Lookup, RecordsInv, SpeaksInv, EpochRun, Grounded, AllSpeakers;
    RunSpeakers(rules, db, rank, below, h);
    var all := AllSpeakers(db.blocks, EpochRun(rules.perEpoch, db.tree, rank, h));
    var validators := Lookup(rules.perEpoch, db, rank, db.tree[h].slot, db.tree[h].parent).value.validators;
    forall k | k in all
      ensures k in validators
    {
      SpokeIsValidator(rules.perEpoch, validators, db.tree[h].slot, k);
    }
    DistinctWithin(all, validators);
  }

  lemma {:induction false} DistinctWithin(s: seq<Key>, t: seq<Key>)
    requires Distinct(s) && forall k :: k in s ==> k in t
    ensures |s| <= |t|
    decreases |s|
  {
    if s != [] {
      var n := |s| - 1;
      assert s[n] in t;
      var i :| 0 <= i < |t| && t[i] == s[n];
      var t' := t[..i] + t[i + 1..];
      forall k | k in s[..n]
        ensures k in t'
      {
        assert k in t && k != s[n];
        var j :| 0 <= j < |t| && t[j] == k;
        assert if j < i then t'[j] == k else t'[j - 1] == k;
      }
      DistinctWithin(s[..n], t');
    }
  }
}

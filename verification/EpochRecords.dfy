/**
 Epoch records. The first block of an epoch on a branch stores the record of that epoch under
 the hash of its parent; every later block of the epoch finds it again by walking its parents.
 */
module EpochRecords {
  import opened Wrappers
  import opened Hashes
  import opened BlockTree
  import opened ForkChoice

  // ---------- walks over parents ----------

  /** The first of h and its ancestors that is outside the epoch, or in slot zero. */
  ghost function FirstOutside(perEpoch: nat, tree: Tree, rank: map<Hash, nat>, epoch: nat, h: Hash): Hash
    requires perEpoch > 0 && Grounded(tree, rank)
    decreases if h in tree then rank[h] + 1 else 0
  {
    if h !in tree then NO_HASH
    else if Epoch(perEpoch, tree[h].slot) != epoch || tree[h].slot == 0 then h
    else FirstOutside(perEpoch, tree, rank, epoch, tree[h].parent)
  }

  /** h starts an epoch run: it is in slot zero, or its parent is in another epoch. */
  predicate StartsEpoch(perEpoch: nat, tree: Tree, h: Hash)
    requires perEpoch > 0 && h in tree
  {
    || tree[h].slot == 0
    || tree[h].parent !in tree
    || Epoch(perEpoch, tree[tree[h].parent].slot) != Epoch(perEpoch, tree[h].slot)
  }

  /** The complete run of h's epoch on its branch up to h, newest first. */
  ghost function EpochRun(perEpoch: nat, tree: Tree, rank: map<Hash, nat>, h: Hash): (run: seq<Hash>)
    requires perEpoch > 0 && Grounded(tree, rank) && h in tree
    ensures run != [] && run[0] == h
    ensures forall i :: 0 <= i < |run| ==> run[i] in tree
    decreases rank[h]
  {
    if StartsEpoch(perEpoch, tree, h) then [h]
    else [h] + EpochRun(perEpoch, tree, rank, tree[h].parent)
  }

  function Last(s: seq<Hash>): Hash
    requires s != []
  {
    s[|s| - 1]
  }

  /** The first block of h's epoch on its branch. */
  ghost function FirstOfEpoch(perEpoch: nat, tree: Tree, rank: map<Hash, nat>, h: Hash): Hash
    requires perEpoch > 0 && Grounded(tree, rank) && h in tree
  {
    Last(EpochRun(perEpoch, tree, rank, h))
  }

  /** A run lies in one epoch, starts with a block that starts the epoch, and is a segment of the chain. */
  lemma {:induction false} RunShape(perEpoch: nat, tree: Tree, rank: map<Hash, nat>, h: Hash)
    requires perEpoch > 0 && Grounded(tree, rank) && h in tree
    ensures var run := EpochRun(perEpoch, tree, rank, h);
            && (forall k :: k in run ==> k in tree && Epoch(perEpoch, tree[k].slot) == Epoch(perEpoch, tree[h].slot))
            && StartsEpoch(perEpoch, tree, Last(run))
            && Lineage(tree, rank, h) == run + Lineage(tree, rank, tree[Last(run)].parent)
    decreases rank[h]
  {
    hide Epoch;
    if !StartsEpoch(perEpoch, tree, h) {
      var p := tree[h].parent;
      RunShape(perEpoch, tree, rank, p);
      var run := EpochRun(perEpoch, tree, rank, p);
      assert Last([h] + run) == Last(run);
      assert [h] + (run + Lineage(tree, rank, tree[Last(run)].parent))
          == ([h] + run) + Lineage(tree, rank, tree[Last(run)].parent);
    }
  }

  // ---------- looking a record up ----------

  type RecordKey = (nat, Hash)

  /** The key under which a block in the given slot above the given parent finds its epoch's record. */
  ghost function ResolveKey(perEpoch: nat, tree: Tree, rank: map<Hash, nat>, slot: nat, parent: Hash): Option<RecordKey>
    requires perEpoch > 0 && Grounded(tree, rank)
  {
    if slot == 0 then Some((0, parent))
    else
      var epoch := Epoch(perEpoch, slot);
      var s := FirstOutside(perEpoch, tree, rank, epoch, parent);
      if s !in tree then None
      else Some((epoch, if tree[s].slot == 0 && epoch == 0 then tree[s].parent else s))
  }

  ghost function Lookup(perEpoch: nat, db: Db, rank: map<Hash, nat>, slot: nat, parent: Hash): Option<EpochRec>
    requires perEpoch > 0 && Grounded(db.tree, rank)
  {
    match ResolveKey(perEpoch, db.tree, rank, slot, parent)
    case None => None
    case Some(key) => if key in db.epochs then Some(db.epochs[key]) else None
  }

  /** Loads the epoch record that applies to a block, walking parents to the end of the previous epoch. */
  method GetEpochMetaData(perEpoch: nat, db: Db, slot: nat, parent: Hash, ghost rank: map<Hash, nat>)
    returns (r: Option<EpochRec>)
    requires perEpoch > 0 && Grounded(db.tree, rank)
    ensures r == Lookup(perEpoch, db, rank, slot, parent)
  {
    hide Epoch;
    EpochOfZero(perEpoch);
    var epoch := Epoch(perEpoch, slot);
    var parentEpoch := epoch;
    var prev := NO_HASH;
    var ph := parent;
    if slot == 0 {
      return if (0, parent) in db.epochs then Some(db.epochs[(0, parent)]) else None;
    }
    ghost var stop := FirstOutside(perEpoch, db.tree, rank, epoch, parent);
    while parentEpoch == epoch
      invariant parentEpoch == epoch ==> FirstOutside(perEpoch, db.tree, rank, epoch, ph) == stop
      invariant parentEpoch != epoch ==> stop in db.tree && prev == stop && Epoch(perEpoch, db.tree[stop].slot) != epoch
      decreases parentEpoch == epoch, if ph in db.tree then rank[ph] + 1 else 0
    {
      if ph !in db.tree {
        return None;
      }
      var pm := db.tree[ph];
      parentEpoch := Epoch(perEpoch, pm.slot);
      prev := ph;
      ph := pm.parent;
      if pm.slot == 0 {
        if Epoch(perEpoch, slot) == 0 {
          prev := pm.parent;
        }
        break;
      }
    }
    var key := (epoch, prev);
    r := if key in db.epochs then Some(db.epochs[key]) else None;
  }

  // ---------- the record found is the one the epoch's first block stored ----------

  /** The key under which a block that starts an epoch stores the epoch's record. */
  ghost function StoredKey(perEpoch: nat, tree: Tree, f: Hash): RecordKey
    requires perEpoch > 0 && f in tree
  {
    (Epoch(perEpoch, tree[f].slot), tree[f].parent)
  }

  /**
   Every block resolves to exactly the key that the first block of its epoch on its own branch
   stored, in epoch zero (where that block is genesis) as in every later one.
   */
  lemma {:induction false} ResolvesToFirst(perEpoch: nat, tree: Tree, rank: map<Hash, nat>, h: Hash)
    requires perEpoch > 0 && Grounded(tree, rank) && h in tree
    requires tree[FirstOfEpoch(perEpoch, tree, rank, h)].parent in tree
    ensures ResolveKey(perEpoch, tree, rank, tree[h].slot, tree[h].parent)
            == Some(StoredKey(perEpoch, tree, FirstOfEpoch(perEpoch, tree, rank, h)))
    decreases rank[h]
  {
    var f := FirstOfEpoch(perEpoch, tree, rank, h);
    var p := tree[h].parent;
    if StartsEpoch(perEpoch, tree, h) {
      assert f == h;
    } else {
      var run := EpochRun(perEpoch, tree, rank, p);
      assert Last([h] + run) == Last(run);
      ResolvesToFirst(perEpoch, tree, rank, p);
    }
  }

  /** A block that opens an epoch looks its record up under its parent's hash. */
  lemma LookupAbove(perEpoch: nat, db: Db, rank: map<Hash, nat>, slot: nat, parent: Hash)
    requires perEpoch > 0 && Grounded(db.tree, rank) && parent in db.tree && slot != 0
    requires Epoch(perEpoch, db.tree[parent].slot) != Epoch(perEpoch, slot)
    ensures var key := (Epoch(perEpoch, slot), parent);
            Lookup(perEpoch, db, rank, slot, parent) == if key in db.epochs then Some(db.epochs[key]) else None
  {
    hide Epoch;
    EpochOfZero(perEpoch);
  }

  /** Blocks with the same first block of their epoch find the same record. */
  lemma SameRecord(perEpoch: nat, db: Db, rank: map<Hash, nat>, h: Hash, k: Hash)
    requires perEpoch > 0 && Grounded(db.tree, rank) && h in db.tree && k in db.tree
    requires FirstOfEpoch(perEpoch, db.tree, rank, h) == FirstOfEpoch(perEpoch, db.tree, rank, k)
    requires db.tree[FirstOfEpoch(perEpoch, db.tree, rank, h)].parent in db.tree
    ensures Lookup(perEpoch, db, rank, db.tree[h].slot, db.tree[h].parent)
            == Lookup(perEpoch, db, rank, db.tree[k].slot, db.tree[k].parent)
  {
    hide Epoch, ResolveKey, EpochRun;
    ResolvesToFirst(perEpoch, db.tree, rank, h);
    ResolvesToFirst(perEpoch, db.tree, rank, k);
  }

  // ---------- collecting a run ----------

  /** Only the record below genesis has no parent, and it is in slot zero. */
  ghost predicate RootsInSlotZero(tree: Tree) {
    forall h :: h in tree && tree[h].parent == NO_HASH ==> tree[h].slot == 0
  }

  /** Collects the blocks of parent's epoch on its branch, newest first. */
  method PathToFirstBlockOfEpoch(perEpoch: nat, tree: Tree, parent: Hash, ghost rank: map<Hash, nat>)
    returns (path: seq<Hash>)
    requires perEpoch > 0 && Grounded(tree, rank) && RootsInSlotZero(tree) && parent in tree
    ensures path == EpochRun(perEpoch, tree, rank, parent)
  {
    hide Epoch;
    if tree[parent].slot == 0 {
      return [parent];
    }
    var epoch := Epoch(perEpoch, tree[parent].slot);
    var h := parent;
    path := [];
    while Epoch(perEpoch, tree[h].slot) == epoch
      invariant h in tree
      invariant Epoch(perEpoch, tree[h].slot) == epoch ==>
                  EpochRun(perEpoch, tree, rank, parent) == path + EpochRun(perEpoch, tree, rank, h)
      invariant Epoch(perEpoch, tree[h].slot) != epoch ==> EpochRun(perEpoch, tree, rank, parent) == path
      decreases rank[h]
    {
      ghost var done := path;
      path := path + [h];
      if tree[h].slot == 0 {
        return;
      }
      if !StartsEpoch(perEpoch, tree, h) {
        assert done + ([h] + EpochRun(perEpoch, tree, rank, tree[h].parent))
            == path + EpochRun(perEpoch, tree, rank, tree[h].parent);
      }
      h := tree[h].parent;
    }
  }

  // ---------- growing databases ----------

  /** tree' has every block of tree, with the same parent and slot. */
  ghost predicate Grows(tree: Tree, tree': Tree) {
    forall k :: k in tree ==> k in tree' && tree'[k].parent == tree[k].parent && tree'[k].slot == tree[k].slot
  }

  lemma {:induction false} EpochRunSame(perEpoch: nat, tree: Tree, rank: map<Hash, nat>, tree': Tree,
                                        rank': map<Hash, nat>, h: Hash)
    requires perEpoch > 0 && Grounded(tree, rank) && Grounded(tree', rank') && Grows(tree, tree') && h in tree
    ensures EpochRun(perEpoch, tree', rank', h) == EpochRun(perEpoch, tree, rank, h)
    decreases rank[h]
  {
    hide Epoch;
    if !StartsEpoch(perEpoch, tree, h) {
      EpochRunSame(perEpoch, tree, rank, tree', rank', tree[h].parent);
    }
  }

  lemma {:induction false} FirstOutsideSame(perEpoch: nat, tree: Tree, rank: map<Hash, nat>, tree': Tree,
                                            rank': map<Hash, nat>, epoch: nat, h: Hash)
    requires perEpoch > 0 && Grounded(tree, rank) && Grounded(tree', rank') && Grows(tree, tree')
    requires FirstOutside(perEpoch, tree, rank, epoch, h) in tree
    ensures FirstOutside(perEpoch, tree', rank', epoch, h) == FirstOutside(perEpoch, tree, rank, epoch, h)
    decreases if h in tree then rank[h] + 1 else 0
  {
    hide Epoch;
    if h in tree && !(Epoch(perEpoch, tree[h].slot) != epoch || tree[h].slot == 0) {
      FirstOutsideSame(perEpoch, tree, rank, tree', rank', epoch, tree[h].parent);
    }
  }

  /** A record that is found stays found as blocks and records are added. */
  lemma LookupSame(perEpoch: nat, db: Db, rank: map<Hash, nat>, db': Db, rank': map<Hash, nat>, slot: nat, parent: Hash)
    requires perEpoch > 0 && Grounded(db.tree, rank) && Grounded(db'.tree, rank') && Grows(db.tree, db'.tree)
    requires forall key :: key in db.epochs ==> key in db'.epochs && db'.epochs[key] == db.epochs[key]
    requires Lookup(perEpoch, db, rank, slot, parent).Some?
    ensures Lookup(perEpoch, db', rank', slot, parent) == Lookup(perEpoch, db, rank, slot, parent)
  {
    hide Epoch, FirstOutside, Grounded;
    if slot != 0 {
      FirstOutsideSame(perEpoch, db.tree, rank, db'.tree, rank', Epoch(perEpoch, slot), parent);
    }
  }
}

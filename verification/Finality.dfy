/**
 Two-thirds finality. When a block opens an epoch, the two complete epoch runs before it are
 examined; if the stake recorded for both meets two thirds of what was allotted, everything
 below them, down to the block finalized before, is finalized.
 */
module Finality {
  import opened Machine
  import opened Wrappers
  import opened Hashes
  import opened BlockTree
  import opened ForkChoice
  import opened EpochRecords

  /** What an attempt to finalize ends with: nothing to do, a failed lookup, or a path to finalize. */
  datatype Outcome = Skipped | Failed | Finalizes(path: seq<Hash>)

  predicate TwoThirds(rec: EpochRec) {
    rec.found * 3 >= rec.alloted * 2
  }

  /** 64-bit subtraction. */
  function Sub64(a: Word, b: Word): Word {
    if a >= b then a - b else TWO64 + a - b
  }

  /** Enough epochs have passed since the finalized block; genesis is one epoch ahead. */
  predicate EnoughEpochs(perEpoch: nat, slot: Word, finalizedSlot: Word)
    requires perEpoch > 0
  {
    EpochsFit(perEpoch, slot);
    EpochsFit(perEpoch, finalizedSlot);
    var d := Sub64(Epoch(perEpoch, slot), Epoch(perEpoch, finalizedSlot));
    if finalizedSlot == 0 then d >= 3 else d > 3
  }

  lemma EpochsFit(perEpoch: nat, slot: nat)
    requires perEpoch > 0
    ensures Epoch(perEpoch, slot) <= slot
  {
    var q := slot / perEpoch;
    assert slot == perEpoch * q + slot % perEpoch;
    AtLeastItself(perEpoch, q);
  }

  lemma AtLeastItself(a: nat, b: nat)
    requires a >= 1
    ensures a * b >= b
  {
  }

  /** The blocks from h down to, but without, the target; None if the target is not on the way. */
  ghost function PathTo(tree: Tree, rank: map<Hash, nat>, h: Hash, target: Hash): Option<seq<Hash>>
    requires Grounded(tree, rank)
    decreases if h in tree then rank[h] + 1 else 0
  {
    if h !in tree then None
    else if h == target then Some([])
    else
      match PathTo(tree, rank, tree[h].parent, target)
      case None => None
      case Some(p) => Some([h] + p)
  }

  /** All of h's epoch on its branch, from h down; None if the walk leaves the database inside it. */
  ghost function WholeRun(perEpoch: nat, tree: Tree, rank: map<Hash, nat>, h: Hash): (r: Option<seq<Hash>>)
    requires perEpoch > 0 && Grounded(tree, rank) && h in tree
    ensures r.Some? ==> r.value != [] && Last(r.value) in tree && tree[Last(r.value)].parent in tree
    decreases rank[h]
  {
    var p := tree[h].parent;
    if p !in tree then None
    else if Epoch(perEpoch, tree[h].slot) != Epoch(perEpoch, tree[p].slot) then Some([h])
    else
      match WholeRun(perEpoch, tree, rank, p)
      case None => None
      case Some(run) => Some([h] + run)
  }

  /** What finalizing at block b amounts to, in terms of the epoch runs on its branch. */
  ghost function FinalizeOutcome(perEpoch: nat, db: Db, rank: map<Hash, nat>, b: Block, rec: EpochRec): Outcome
    requires perEpoch > 0 && Grounded(db.tree, rank)
  {
    if !TwoThirds(rec) || !EnoughEpochs(perEpoch, b.slot, db.finalizedSlot) then Skipped
    else if b.parent !in db.tree then Failed
    else if Epoch(perEpoch, db.tree[b.parent].slot) == 0 then Skipped
    else
      match WholeRun(perEpoch, db.tree, rank, b.parent)
      case None => Failed
      case Some(run1) => FinalizeBelow(perEpoch, db, rank, db.tree[Last(run1)])
  }

  /** The same from the first block of the last complete run on. */
  ghost function FinalizeBelow(perEpoch: nat, db: Db, rank: map<Hash, nat>, first: Meta): Outcome
    requires perEpoch > 0 && Grounded(db.tree, rank) && first.parent in db.tree
  {
    match Lookup(perEpoch, db, rank, first.slot, first.parent)
    case None => Failed
    case Some(before) =>
      if !TwoThirds(before) then Skipped
      else
        match WholeRun(perEpoch, db.tree, rank, first.parent)
        case None => Failed
        case Some(run2) =>
          match PathTo(db.tree, rank, db.tree[Last(run2)].parent, db.finalized)
          case None => Failed
          case Some(path) => Finalizes(path)
  }

  // ---------- the walks ----------

  /** Walks parents to the first block of h's epoch; fails if the walk leaves the database. */
  method WalkToFirst(perEpoch: nat, tree: Tree, h: Hash, ghost rank: map<Hash, nat>) returns (r: Option<Hash>)
    requires perEpoch > 0 && Grounded(tree, rank) && h in tree
    ensures var run := WholeRun(perEpoch, tree, rank, h);
            r == if run.Some? then Some(Last(run.value)) else None
  {
    hide Epoch;
    var bm := h;
    ghost var run := WholeRun(perEpoch, tree, rank, h);
    while true
      invariant bm in tree
      invariant var rest := WholeRun(perEpoch, tree, rank, bm);
                if run.Some? then rest.Some? && Last(rest.value) == Last(run.value) else rest == None
      decreases rank[bm]
    {
      var p := tree[bm].parent;
      if p !in tree {
        return None;
      }
      if Epoch(perEpoch, tree[bm].slot) != Epoch(perEpoch, tree[p].slot) {
        return Some(bm);
      }
      bm := p;
    }
  }

  /** Collects the blocks from h down to the finalized block. */
  method CollectPath(tree: Tree, h: Hash, finalized: Hash, ghost rank: map<Hash, nat>) returns (r: Option<seq<Hash>>)
    requires Grounded(tree, rank)
    ensures r == PathTo(tree, rank, h, finalized)
  {
    var headerHash := h;
    var path := [];
    Nothing(tree, rank, h, finalized);
    while true
      invariant var whole := PathTo(tree, rank, h, finalized);
                var rest := PathTo(tree, rank, headerHash, finalized);
                if rest.Some? then whole == Some(path + rest.value) else whole == None
      decreases if headerHash in tree then rank[headerHash] + 1 else 0
    {
      if headerHash !in tree {
        return None;
      }
      if headerHash == finalized {
        assert path + [] == path;
        return Some(path);
      }
      ghost var rest := PathTo(tree, rank, tree[headerHash].parent, finalized);
      assert rest.Some? ==> path + ([headerHash] + rest.value) == (path + [headerHash]) + rest.value;
      path := path + [headerHash];
      headerHash := tree[headerHash].parent;
    }
  }

  lemma Nothing(tree: Tree, rank: map<Hash, nat>, h: Hash, target: Hash)
    requires Grounded(tree, rank)
    ensures var r := PathTo(tree, rank, h, target); r.Some? ==> [] + r.value == r.value
  {
  }

  // ---------- what is finalized ----------

  ghost predicate AllInEpoch(perEpoch: nat, tree: Tree, run: seq<Hash>, epoch: nat)
    requires perEpoch > 0
  {
    forall k :: k in run ==> k in tree && Epoch(perEpoch, tree[k].slot) == epoch
  }

  /** A whole run lies in one epoch, is followed by another epoch, and is a segment of the chain. */
  lemma {:induction false} RunInOneEpoch(perEpoch: nat, tree: Tree, rank: map<Hash, nat>, h: Hash)
    requires perEpoch > 0 && Grounded(tree, rank) && h in tree
    ensures var r := WholeRun(perEpoch, tree, rank, h);
            r.Some? ==>
              var next := tree[Last(r.value)].parent;
              && AllInEpoch(perEpoch, tree, r.value, Epoch(perEpoch, tree[h].slot))
              && Epoch(perEpoch, tree[next].slot) != Epoch(perEpoch, tree[h].slot)
              && Lineage(tree, rank, h) == r.value + Lineage(tree, rank, next)
    decreases rank[h]
  {
    hide Epoch;
    var r := WholeRun(perEpoch, tree, rank, h);
    if r.Some? && |r.value| > 1 {
      var p := tree[h].parent;
      RunInOneEpoch(perEpoch, tree, rank, p);
      var run := WholeRun(perEpoch, tree, rank, p).value;
      assert r.value == [h] + run && Last(r.value) == Last(run);
      assert [h] + (run + Lineage(tree, rank, tree[Last(run)].parent))
          == ([h] + run) + Lineage(tree, rank, tree[Last(run)].parent);
    }
  }

  /** A path is exactly the part of the chain above the target, and exists iff the target is an ancestor. */
  lemma {:induction false} PathShape(tree: Tree, rank: map<Hash, nat>, h: Hash, target: Hash)
    requires Grounded(tree, rank)
    ensures var r := PathTo(tree, rank, h, target);
            && (r.Some? <==> Ancestor(tree, rank, target, h))
            && (r.Some? ==> Lineage(tree, rank, h) == r.value + Lineage(tree, rank, target) && target !in r.value)
    decreases if h in tree then rank[h] + 1 else 0
  {
    if h in tree && h != target {
      PathShape(tree, rank, tree[h].parent, target);
      var r := PathTo(tree, rank, tree[h].parent, target);
      if r.Some? {
        assert [h] + (r.value + Lineage(tree, rank, target)) == ([h] + r.value) + Lineage(tree, rank, target);
      }
    } else if h == target && h in tree {
      assert [] + Lineage(tree, rank, target) == Lineage(tree, rank, target);
    }
  }

  /** A maximal segment of one epoch at the upper end of h's chain, with the block after it. */
  ghost predicate CompleteRun(perEpoch: nat, tree: Tree, rank: map<Hash, nat>, h: Hash, run: seq<Hash>, next: Hash)
    requires perEpoch > 0 && Grounded(tree, rank)
  {
    && h in tree && run != [] && next in tree
    && Lineage(tree, rank, h) == run + Lineage(tree, rank, next)
    && AllInEpoch(perEpoch, tree, run, Epoch(perEpoch, tree[h].slot))
    && Epoch(perEpoch, tree[next].slot) != Epoch(perEpoch, tree[h].slot)
  }

  /** Such a segment is what the walk over parents visits, if it does not fail. */
  lemma {:induction false} CompleteIffWhole(perEpoch: nat, tree: Tree, rank: map<Hash, nat>, h: Hash, run: seq<Hash>,
                                            next: Hash)
    requires perEpoch > 0 && Grounded(tree, rank) && h in tree
    ensures CompleteRun(perEpoch, tree, rank, h, run, next)
            <==> WholeRun(perEpoch, tree, rank, h) == Some(run) && next == tree[Last(run)].parent
  {
    hide Epoch, Grounded;
    if CompleteRun(perEpoch, tree, rank, h, run, next) {
      CompleteIsWhole(perEpoch, tree, rank, h, run, next);
    }
    if WholeRun(perEpoch, tree, rank, h) == Some(run) {
      RunInOneEpoch(perEpoch, tree, rank, h);
    }
  }

  lemma {:induction false} CompleteIsWhole(perEpoch: nat, tree: Tree, rank: map<Hash, nat>, h: Hash, run: seq<Hash>,
                                           next: Hash)
    requires perEpoch > 0 && Grounded(tree, rank) && CompleteRun(perEpoch, tree, rank, h, run, next)
    ensures WholeRun(perEpoch, tree, rank, h) == Some(run) && next == tree[Last(run)].parent
    decreases |run|
  {
    hide Epoch;
    var p := tree[h].parent;
    var rest := run[1..];
    assert Lineage(tree, rank, p) == Lineage(tree, rank, h)[1..] == rest + Lineage(tree, rank, next);
    assert run[0] == h && run == [h] + rest;
    if rest == [] {
      assert Lineage(tree, rank, p) == Lineage(tree, rank, next);
    } else {
      assert p == rest[0] && rest[0] in run;
      CompleteIsWhole(perEpoch, tree, rank, p, rest, next);
    }
  }

  /** A path is found exactly if it is the part of the chain above the target. */
  lemma PathIff(tree: Tree, rank: map<Hash, nat>, h: Hash, target: Hash, path: seq<Hash>)
    requires Grounded(tree, rank)
    ensures PathTo(tree, rank, h, target) == Some(path)
            <==> target in tree && Lineage(tree, rank, h) == path + Lineage(tree, rank, target)
  {
    PathShape(tree, rank, h, target);
    var c, d := Lineage(tree, rank, h), Lineage(tree, rank, target);
    var r := PathTo(tree, rank, h, target);
    if target in tree && c == path + d {
      assert c[|path|] == target;
      assert r.value == c[..|c| - |d|] == path;
    }
    if r.Some? {
      assert target in c ==> target in d;
    }
  }

  /** The block right below the second run. */
  function Beneath(path: seq<Hash>, finalized: Hash): Hash { if path == [] then finalized else path[0] }

  /** Two complete runs below a block, the upper one after epoch zero, and the path from there to what is finalized. */
  ghost predicate TwoRuns(perEpoch: nat, db: Db, rank: map<Hash, nat>, b: Block, rec: EpochRec,
                          run1: seq<Hash>, run2: seq<Hash>, path: seq<Hash>)
    requires perEpoch > 0 && Grounded(db.tree, rank)
  {
    && run2 != [] && db.finalized in db.tree
    && CompleteRun(perEpoch, db.tree, rank, b.parent, run1, run2[0])
    && CompleteRun(perEpoch, db.tree, rank, run2[0], run2, Beneath(path, db.finalized))
    && Lineage(db.tree, rank, b.parent) == run1 + (run2 + (path + Lineage(db.tree, rank, db.finalized)))
    && 3 * rec.found >= 2 * rec.alloted
    && var key := (Epoch(perEpoch, db.tree[b.parent].slot), run2[0]);
       key.0 != 0 && key in db.epochs && 3 * db.epochs[key].found >= 2 * db.epochs[key].alloted
  }

  /**
   How far a block is above the finalized slot: four epochs, or three above slot zero. Subtraction is
   in 64 bits, so a block of an earlier epoch counts as far above, unless less than four remain to 2^64.
   */
  predicate FarAbove(perEpoch: nat, slot: nat, finalizedSlot: nat)
    requires perEpoch > 0
  {
    var d := slot / perEpoch - finalizedSlot / perEpoch;
    d >= (if finalizedSlot == 0 then 3 else 4) || -TWO64 + 4 <= d < 0
  }

  lemma EnoughIff(perEpoch: nat, slot: Word, finalizedSlot: Word)
    requires perEpoch > 0
    ensures EnoughEpochs(perEpoch, slot, finalizedSlot) <==> FarAbove(perEpoch, slot, finalizedSlot)
  {
    EpochsFit(perEpoch, slot);
    EpochsFit(perEpoch, finalizedSlot);
  }

  /** For example a block in slot zero, above a finalized block in slot 100 of the second epoch. */
  lemma EarlierEpochIsFar()
    ensures EnoughEpochs(100, 0, 100)
  {
    EnoughIff(100, 0, 100);
  }

  /**
   What is finalized, in terms of slots and of the chain below b: a path is finalized exactly if b is
   far above the finalized slot, its parent is not in epoch zero, and the chain is two complete epoch
   runs whose records both meet two thirds, then the path, then the finalized block.
   */
  lemma FinalizesIff(perEpoch: nat, db: Db, rank: map<Hash, nat>, b: Block, rec: EpochRec, path: seq<Hash>)
    requires perEpoch > 0 && Grounded(db.tree, rank)
    ensures FinalizeOutcome(perEpoch, db, rank, b, rec) == Finalizes(path) <==>
            FarAbove(perEpoch, b.slot, db.finalizedSlot)
            && exists run1, run2 :: TwoRuns(perEpoch, db, rank, b, rec, run1, run2, path)
  {
    hide FinalizeOutcome, TwoRuns, EnoughEpochs, FarAbove, Epoch, WholeRun;
    EnoughIff(perEpoch, b.slot, db.finalizedSlot);
    if FinalizeOutcome(perEpoch, db, rank, b, rec) == Finalizes(path) {
      var run1, run2 := FinalizesBelowTwoRuns(perEpoch, db, rank, b, rec);
      FinalizesFar(perEpoch, db, rank, b, rec);
    } else if FarAbove(perEpoch, b.slot, db.finalizedSlot) {
      forall run1, run2 | TwoRuns(perEpoch, db, rank, b, rec, run1, run2, path)
        ensures false
      {
        TwoRunsFinalize(perEpoch, db, rank, b, rec, run1, run2, path);
      }
    }
  }

  lemma FinalizesFar(perEpoch: nat, db: Db, rank: map<Hash, nat>, b: Block, rec: EpochRec)
    requires perEpoch > 0 && Grounded(db.tree, rank) && FinalizeOutcome(perEpoch, db, rank, b, rec).Finalizes?
    ensures EnoughEpochs(perEpoch, b.slot, db.finalizedSlot)
  {
  }

  /** Two complete runs above the finalized block, with records of two thirds, do finalize. */
  lemma TwoRunsFinalize(perEpoch: nat, db: Db, rank: map<Hash, nat>, b: Block, rec: EpochRec,
                        run1: seq<Hash>, run2: seq<Hash>, path: seq<Hash>)
    requires perEpoch > 0 && Grounded(db.tree, rank) && EnoughEpochs(perEpoch, b.slot, db.finalizedSlot)
    requires TwoRuns(perEpoch, db, rank, b, rec, run1, run2, path)
    ensures FinalizeOutcome(perEpoch, db, rank, b, rec) == Finalizes(path)
  {
    hide Grounded, PathTo, Lookup, EnoughEpochs, Epoch, WholeRun, AllInEpoch;
    var x := Beneath(path, db.finalized);
    CompleteIffWhole(perEpoch, db.tree, rank, b.parent, run1, run2[0]);
    CompleteIffWhole(perEpoch, db.tree, rank, run2[0], run2, x);
    var first := db.tree[Last(run1)];
    FirstInEpoch(perEpoch, db.tree, rank, b.parent, run1, run2[0]);
    EpochOfZero(perEpoch);
    LookupAbove(perEpoch, db, rank, first.slot, first.parent);
    SameTail(run1, run2 + Lineage(db.tree, rank, x), run2 + (path + Lineage(db.tree, rank, db.finalized)));
    SameTail(run2, Lineage(db.tree, rank, x), path + Lineage(db.tree, rank, db.finalized));
    PathIff(db.tree, rank, x, db.finalized, path);
  }

  lemma FirstInEpoch(perEpoch: nat, tree: Tree, rank: map<Hash, nat>, h: Hash, run: seq<Hash>, next: Hash)
    requires perEpoch > 0 && Grounded(tree, rank) && CompleteRun(perEpoch, tree, rank, h, run, next)
    ensures Last(run) in tree && Epoch(perEpoch, tree[Last(run)].slot) == Epoch(perEpoch, tree[h].slot)
  {
    hide Epoch;
    assert Last(run) in run;
  }

  lemma SameTail(a: seq<Hash>, s: seq<Hash>, t: seq<Hash>)
    requires a + s == a + t
    ensures s == t
  {
    assert (a + s)[|a|..] == s && (a + t)[|a|..] == t;
  }

  /**
   Finalizing is left alone, rather than failing, exactly if a record falls short of two thirds, b is
   not far enough above, or its parent is in epoch zero.
   */
  lemma SkipsIff(perEpoch: nat, db: Db, rank: map<Hash, nat>, b: Block, rec: EpochRec)
    requires perEpoch > 0 && Grounded(db.tree, rank)
    ensures FinalizeOutcome(perEpoch, db, rank, b, rec) == Skipped <==>
            || 3 * rec.found < 2 * rec.alloted || !FarAbove(perEpoch, b.slot, db.finalizedSlot)
            || (b.parent in db.tree && Epoch(perEpoch, db.tree[b.parent].slot) == 0)
            || exists run, next :: ShortRecord(perEpoch, db, rank, b.parent, run, next)
  {
    hide Grounded, PathTo, Lookup, EnoughEpochs, Epoch, WholeRun, FarAbove, CompleteRun;
    EnoughIff(perEpoch, b.slot, db.finalizedSlot);
    if b.parent in db.tree && Epoch(perEpoch, db.tree[b.parent].slot) != 0 {
      var r := WholeRun(perEpoch, db.tree, rank, b.parent);
      forall run, next
        ensures CompleteRun(perEpoch, db.tree, rank, b.parent, run, next)
                <==> r == Some(run) && next == db.tree[Last(run)].parent
      {
        CompleteIffWhole(perEpoch, db.tree, rank, b.parent, run, next);
      }
      if r.Some? {
        var first := db.tree[Last(r.value)];
        FirstInEpoch(perEpoch, db.tree, rank, b.parent, r.value, first.parent);
        NextEpoch(perEpoch, db.tree, rank, b.parent, r.value, first.parent);
        EpochOfZero(perEpoch);
        LookupAbove(perEpoch, db, rank, first.slot, first.parent);
        if TwoThirds(rec) && EnoughEpochs(perEpoch, b.slot, db.finalizedSlot)
           && FinalizeOutcome(perEpoch, db, rank, b, rec) == Skipped {
          assert ShortRecord(perEpoch, db, rank, b.parent, r.value, first.parent);
        }
      }
    }
  }

  /** The record stored above h's run falls short of two thirds. */
  ghost predicate ShortRecord(perEpoch: nat, db: Db, rank: map<Hash, nat>, h: Hash, run: seq<Hash>, next: Hash)
    requires perEpoch > 0 && Grounded(db.tree, rank)
  {
    && h in db.tree && CompleteRun(perEpoch, db.tree, rank, h, run, next)
    && var key := (Epoch(perEpoch, db.tree[h].slot), next);
       key in db.epochs && 3 * db.epochs[key].found < 2 * db.epochs[key].alloted
  }

  lemma NextEpoch(perEpoch: nat, tree: Tree, rank: map<Hash, nat>, h: Hash, run: seq<Hash>, next: Hash)
    requires perEpoch > 0 && Grounded(tree, rank) && CompleteRun(perEpoch, tree, rank, h, run, next)
    ensures next in tree && Epoch(perEpoch, tree[next].slot) != Epoch(perEpoch, tree[h].slot)
  {
  }

  /**
   Whatever is finalized is a contiguous chain ending just above the finalized block, and it is
   separated from b by two complete epoch runs whose records both meet two thirds.
   */
  lemma FinalizesBelowTwoRuns(perEpoch: nat, db: Db, rank: map<Hash, nat>, b: Block, rec: EpochRec)
    returns (run1: seq<Hash>, run2: seq<Hash>)
    requires perEpoch > 0 && Grounded(db.tree, rank)
    requires FinalizeOutcome(perEpoch, db, rank, b, rec).Finalizes?
    ensures TwoRuns(perEpoch, db, rank, b, rec, run1, run2, FinalizeOutcome(perEpoch, db, rank, b, rec).path)
    ensures b.parent in db.tree && WholeRun(perEpoch, db.tree, rank, b.parent) == Some(run1)
    ensures WholeRun(perEpoch, db.tree, rank, db.tree[Last(run1)].parent) == Some(run2)
    ensures Epoch(perEpoch, db.tree[b.parent].slot) != 0 && run1[0] == b.parent && run2[0] == db.tree[Last(run1)].parent
  {
    hide Grounded, PathTo, Lookup, EnoughEpochs, Epoch, AllInEpoch, CompleteRun;
    run1 := WholeRun(perEpoch, db.tree, rank, b.parent).value;
    var first := db.tree[Last(run1)];
    RunStartsAt(perEpoch, db.tree, rank, b.parent);
    CompleteIffWhole(perEpoch, db.tree, rank, b.parent, run1, first.parent);
    FirstInEpoch(perEpoch, db.tree, rank, b.parent, run1, first.parent);
    NextEpoch(perEpoch, db.tree, rank, b.parent, run1, first.parent);
    RunInOneEpoch(perEpoch, db.tree, rank, b.parent);
    EpochOfZero(perEpoch);
    LookupAbove(perEpoch, db, rank, first.slot, first.parent);
    run2 := WholeRun(perEpoch, db.tree, rank, first.parent).value;
    RunStartsAt(perEpoch, db.tree, rank, first.parent);
    var x := db.tree[Last(run2)].parent;
    CompleteIffWhole(perEpoch, db.tree, rank, first.parent, run2, x);
    RunInOneEpoch(perEpoch, db.tree, rank, first.parent);
    PathShape(db.tree, rank, x, db.finalized);
    PathStartsAt(db.tree, rank, x, db.finalized);
    FinalizedThere(db.tree, rank, x, db.finalized);
  }

  lemma FinalizedThere(tree: Tree, rank: map<Hash, nat>, h: Hash, target: Hash)
    requires Grounded(tree, rank)
    ensures PathTo(tree, rank, h, target).Some? ==> target in tree
  {
    if PathTo(tree, rank, h, target).Some? {
      PathIff(tree, rank, h, target, PathTo(tree, rank, h, target).value);
    }
  }

  lemma RunStartsAt(perEpoch: nat, tree: Tree, rank: map<Hash, nat>, h: Hash)
    requires perEpoch > 0 && Grounded(tree, rank) && h in tree
    ensures WholeRun(perEpoch, tree, rank, h).Some? ==> WholeRun(perEpoch, tree, rank, h).value[0] == h
  {
  }

  lemma PathStartsAt(tree: Tree, rank: map<Hash, nat>, h: Hash, target: Hash)
    requires Grounded(tree, rank)
    ensures var r := PathTo(tree, rank, h, target);
            && (r.Some? && r.value != [] ==> r.value[0] == h && h in tree)
            && (r.Some? && r.value == [] ==> h == target)
  {
  }

  /** Something is finalized only if the finalized block is on b's branch. */
  lemma FinalizesOnBranchOnly(perEpoch: nat, db: Db, rank: map<Hash, nat>, b: Block, rec: EpochRec)
    requires perEpoch > 0 && Grounded(db.tree, rank)
    requires db.finalized in db.tree
    ensures FinalizeOutcome(perEpoch, db, rank, b, rec).Finalizes? ==>
              Ancestor(db.tree, rank, db.finalized, b.parent)
  {
    hide FinalizeOutcome, WholeRun;
    if FinalizeOutcome(perEpoch, db, rank, b, rec).Finalizes? {
      var run1, run2 := FinalizesBelowTwoRuns(perEpoch, db, rank, b, rec);
      var path := FinalizeOutcome(perEpoch, db, rank, b, rec).path;
      var c := Lineage(db.tree, rank, b.parent);
      assert c[|run1| + |run2| + |path|] == db.finalized;
    }
  }

  /** What is finalized is a descendant of what was finalized before; the path may be empty. */
  lemma FinalityExtends(perEpoch: nat, db: Db, rank: map<Hash, nat>, b: Block, rec: EpochRec)
    requires perEpoch > 0 && Grounded(db.tree, rank)
    requires db.finalized in db.tree && FinalizeOutcome(perEpoch, db, rank, b, rec).Finalizes?
    ensures var path := FinalizeOutcome(perEpoch, db, rank, b, rec).path;
            path != [] ==>
              && path[0] in db.tree && path[0] != db.finalized
              && Ancestor(db.tree, rank, db.finalized, path[0])
              && Ancestor(db.tree, rank, path[0], b.parent)
  {
    var run1, run2 := FinalizesBelowTwoRuns(perEpoch, db, rank, b, rec);
    var path := FinalizeOutcome(perEpoch, db, rank, b, rec).path;
    var c := Lineage(db.tree, rank, b.parent);
    var t := |run1| + |run2|;
    if path != [] {
      assert c[t] == path[0] && c[t..] == path + Lineage(db.tree, rank, db.finalized);
      LineageDrop(db.tree, rank, b.parent, t);
      assert c[t..][|path|] == db.finalized;
      LineageDistinct(db.tree, rank, path[0], |path|);
    }
  }

  /** A chain does not come back to its first block. */
  lemma LineageDistinct(tree: Tree, rank: map<Hash, nat>, h: Hash, t: nat)
    requires Grounded(tree, rank) && 0 < t < |Lineage(tree, rank, h)|
    ensures Lineage(tree, rank, h)[t] in tree && rank[Lineage(tree, rank, h)[t]] < rank[h]
    ensures Lineage(tree, rank, h)[t] != h
    decreases t
  {
    LineageDrop(tree, rank, h, t - 1);
    LineageDrop(tree, rank, h, t);
    if t > 1 {
      LineageDistinct(tree, rank, h, t - 1);
    }
  }

  /** The path is empty exactly if the two runs sit directly on the finalized block. */
  lemma EmptyPathIff(perEpoch: nat, db: Db, rank: map<Hash, nat>, b: Block, rec: EpochRec)
    requires perEpoch > 0 && Grounded(db.tree, rank)
    requires FinalizeOutcome(perEpoch, db, rank, b, rec).Finalizes?
    ensures var run1 := WholeRun(perEpoch, db.tree, rank, b.parent);
            run1.Some? &&
            var run2 := WholeRun(perEpoch, db.tree, rank, db.tree[Last(run1.value)].parent);
            run2.Some? &&
            (FinalizeOutcome(perEpoch, db, rank, b, rec).path == []
             <==> db.tree[Last(run2.value)].parent == db.finalized)
  {
  }

  // ---------- the update ----------

  /** The second half: the record of the run before, the run itself, and the path below it. */
  method FinalizeFrom(perEpoch: nat, db: Db, bm: Meta, ghost rank: map<Hash, nat>) returns (r: Outcome)
    requires perEpoch > 0 && Grounded(db.tree, rank) && bm.parent in db.tree
    ensures r == FinalizeBelow(perEpoch, db, rank, bm)
  {
    hide Epoch;
    var epochMetaData := GetEpochMetaData(perEpoch, db, bm.slot, bm.parent, rank);
    if epochMetaData.None? {
      return Failed;
    }
    if epochMetaData.value.found * 3 < epochMetaData.value.alloted * 2 {
      return Skipped;
    }
    var first := WalkToFirst(perEpoch, db.tree, bm.parent, rank);
    if first.None? {
      return Failed;
    }
    var path := CollectPath(db.tree, db.tree[first.value].parent, db.finalized, rank);
    r := if path.Some? then Finalizes(path.value) else Failed;
  }

  /**
   Tries to finalize at a block that opens an epoch; rec is the record of that epoch. A path is
   finalized exactly if b is far above the finalized slot and the path lies between two complete runs,
   with records of two thirds, and the finalized block. Otherwise nothing is done or a lookup fails.
   */
  method UpdateFinalizedEpoch(perEpoch: nat, db: Db, b: Block, rec: EpochRec, ghost rank: map<Hash, nat>)
    returns (r: Outcome)
    requires perEpoch > 0 && Grounded(db.tree, rank)
    ensures r == FinalizeOutcome(perEpoch, db, rank, b, rec)
    ensures forall path :: r == Finalizes(path) <==>
              FarAbove(perEpoch, b.slot, db.finalizedSlot)
              && exists run1, run2 :: TwoRuns(perEpoch, db, rank, b, rec, run1, run2, path)
    ensures r == Skipped <==>
            || 3 * rec.found < 2 * rec.alloted || !FarAbove(perEpoch, b.slot, db.finalizedSlot)
            || (b.parent in db.tree && Epoch(perEpoch, db.tree[b.parent].slot) == 0)
            || exists run, next :: ShortRecord(perEpoch, db, rank, b.parent, run, next)
  {
    hide FarAbove, TwoRuns, ShortRecord;
    SkipsIff(perEpoch, db, rank, b, rec);
    forall path {
      FinalizesIff(perEpoch, db, rank, b, rec, path);
    }
    // Ignore finalization if the stake found is less than two thirds of the stake allotted
    if rec.found * 3 < rec.alloted * 2 {
      return Skipped;
    }
    if !EnoughEpochs(perEpoch, b.slot, db.finalizedSlot) {
      return Skipped;
    }
    if b.parent !in db.tree {
      return Failed;
    }
    // Skip finalization if epoch is 0
    if Epoch(perEpoch, db.tree[b.parent].slot) == 0 {
      return Skipped;
    }
    var first := WalkToFirst(perEpoch, db.tree, b.parent, rank);
    if first.None? {
      return Failed;
    }
    var bm := db.tree[first.value];
    RunInOneEpoch(perEpoch, db.tree, rank, b.parent);
    // Skip finalization if second last epoch is 0
    if Epoch(perEpoch, bm.slot) == 0 {
      return Skipped;
    }
    r := FinalizeFrom(perEpoch, db, bm, rank);
  }

  // ---------- marking a path as finalized ----------

  /** The path is a chain of parents ending just above `base`. */
  ghost predicate Contiguous(tree: Tree, path: seq<Hash>, base: Hash) {
    forall i :: 0 <= i < |path| ==> path[i] in tree && tree[path[i]].parent == Below(path, base, i)
  }

  /** The block below position i of a path that ends just above base. */
  ghost function Below(path: seq<Hash>, base: Hash, i: nat): Hash {
    if i + 1 < |path| then path[i + 1] else base
  }

  lemma {:induction false} PathIsContiguous(tree: Tree, rank: map<Hash, nat>, h: Hash, target: Hash)
    requires Grounded(tree, rank) && PathTo(tree, rank, h, target).Some?
    ensures Contiguous(tree, PathTo(tree, rank, h, target).value, target)
    decreases if h in tree then rank[h] + 1 else 0
  {
    if h != target {
      PathIsContiguous(tree, rank, tree[h].parent, target);
      PathStartsAt(tree, rank, tree[h].parent, target);
      var path := PathTo(tree, rank, h, target).value;
      var rest := PathTo(tree, rank, tree[h].parent, target).value;
      forall i | 0 <= i < |path|
        ensures path[i] in tree && tree[path[i]].parent == Below(path, target, i)
      {
        assert path == [h] + rest;
        if i > 0 {
          assert path[i] == rest[i - 1] && Below(path, target, i) == Below(rest, target, i - 1);
        }
      }
    }
  }

  /** Records the newest block of a path as finalized, checking that the path is linked. */
  method Finalize(db: Db, path: seq<Hash>) returns (r: Option<Db>)
    requires path != [] && forall i :: 0 <= i < |path| ==> path[i] in db.tree
    ensures r.Some? ==> r.value == db.(finalized := path[0], finalizedSlot := db.tree[path[0]].slot)
    ensures r.Some? <==> db.tree[Last(path)].parent in db.tree && Contiguous(db.tree, path, db.tree[Last(path)].parent)
  {
    var parent := db.tree[Last(path)].parent;
    if parent !in db.tree {
      return None;
    }
    var i := |path|;
    ghost var base := parent;
    while i > 0
      invariant 0 <= i <= |path|
      invariant parent == if i < |path| then path[i] else base
      invariant forall k :: i <= k < |path| ==> db.tree[path[k]].parent == Below(path, base, k)
    {
      i := i - 1;
      if db.tree[path[i]].parent != parent {
        return None;
      }
      parent := path[i];
    }
    r := Some(db.(finalized := path[0], finalizedSlot := db.tree[path[0]].slot));
  }
}

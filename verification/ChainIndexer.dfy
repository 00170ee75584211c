/**
 The chain indexer: sections of the canonical chain are processed in the background
 while head events and reorgs arrive. The index remembers the last block hash of every
 processed section. The lock is released during processing, so the steps between two
 releases are the atomic steps of the model, and the chain may change between any two.
 */
module ChainIndexer {
  import opened Wrappers
  import opened Hashes

  /** Section size, confirmations, and the parent hash that a block hash commits to. */
  datatype Config = Config(size: nat, confirms: nat, parent: Hash -> Hash)

  /** The chain database: canonical hashes by number, and the headers present. */
  datatype World = World(canon: map<nat, Hash>, headers: set<(nat, Hash)>)

  function CanonicalHash(w: World, n: nat): Hash {
    if n in w.canon then w.canon[n] else NO_HASH
  }

  /**
   The indexer's fields and its database: section counts in memory, the checkpoint,
   the persisted count and the persisted section heads.
   */
  datatype Index = Index(stored: nat, known: nat, cp: nat, cpHead: Hash,
                         count: nat, heads: map<nat, Hash>)

  function SectionHead(ix: Index, section: nat): Hash {
    if section in ix.heads then ix.heads[section] else NO_HASH
  }

  // ---------- what the locked operations do ----------

  function SetValid(ix: Index, n: nat): Index {
    ix.(stored := n, count := n,
    heads := map s | s in ix.heads && !(n <= s < ix.stored) :: ix.heads[s])
  }

  function SetHead(ix: Index, section: nat, h: Hash): Index {
    ix.(heads := ix.heads[section := h])
  }

  function AddCheckpoint(ix: Index, section: nat, h: Hash): Index {
    if ix.cp >= section + 1 || section < ix.stored then ix
    else SetValid(SetHead(ix.(cp := section + 1, cpHead := h), section, h), section + 1)
  }

  /** The number of the last block of a section. */
  function LastBlock(cfg: Config, section: nat): nat
    requires cfg.size > 0
  {
    (section + 1) * cfg.size - 1
  }

  /** The top stored head is the canonical hash at the end of its section. */
  predicate TopCanonical(cfg: Config, w: World, ix: Index)
    requires ix.stored > 0 && cfg.size > 0
  {
    SectionHead(ix, ix.stored - 1) == CanonicalHash(w, LastBlock(cfg, ix.stored - 1))
  }

  function VerifyLastHead(cfg: Config, w: World, ix: Index): Index
    requires cfg.size > 0
    decreases ix.stored
  {
    if ix.stored > 0 && ix.stored > ix.cp && !TopCanonical(cfg, w, ix)
    then VerifyLastHead(cfg, w, SetValid(ix, ix.stored - 1))
    else ix
  }

  function Min(a: nat, b: nat): nat { if a < b then a else b }

  function Max(a: nat, b: nat): nat { if a < b then b else a }

  function NewHead(cfg: Config, w: World, ix: Index, head: nat, reorg: bool): Index
    requires cfg.size > 0
  {
    if reorg then
      var sections := (head + 1) / cfg.size;
      var known := if sections < ix.cp then 0 else sections;
      var stored := Max(sections, ix.cp);
      var ix1 := ix.(known := Min(known, ix.known));
      if stored < ix.stored then SetValid(ix1, stored) else ix1
    else if head < cfg.confirms then ix
    else
      var n := (head + 1 - cfg.confirms) / cfg.size;
      var sections := if n < ix.cp then 0 else n;
      if sections <= ix.known then ix
      else if ix.known < ix.cp && CanonicalHash(w, LastBlock(cfg, ix.cp - 1)) != ix.cpHead then ix
      else ix.(known := sections)
  }

  // ---------- background processing ----------

  /** One header of a section: the hash it contributes, or None if processing fails there. */
  function ReadHeader(cfg: Config, w: World, number: nat, last: Hash, backendOk: bool): Option<Hash> {
    var hash := CanonicalHash(w, number);
    if hash == NO_HASH || (number, hash) !in w.headers || cfg.parent(hash) != last || !backendOk
    then None else Some(hash)
  }

  /** n headers from `number` on, each read from the chain as it is then; the last one's hash if all are good. */
  function ReadHeaders(cfg: Config, view: nat -> World, backendOk: nat -> bool, number: nat, n: nat, last: Hash):
    Option<Hash>
    decreases n
  {
    if n == 0 then Some(last)
    else
      match ReadHeader(cfg, view(number), number, last, backendOk(number))
      case None => None
      case Some(h) => ReadHeaders(cfg, view, backendOk, number + 1, n - 1, h)
  }

  /** The background task: nothing, in the middle of a section, or done with it. */
  datatype Task =
    | Idle
    | Processing(section: nat, oldHead: Hash, number: nat, last: Hash)
    | Processed(section: nat, oldHead: Hash, result: Option<Hash>)

  /** The section picked when processing starts. */
  function BeginTask(cfg: Config, ix: Index): Task {
    var section := ix.stored;
    var oldHead := if section > 0 then SectionHead(ix, section - 1) else NO_HASH;
    Processing(section, oldHead, section * cfg.size, oldHead)
  }

  /** Committing a processed section, or giving it up. */
  function FinishTask(cfg: Config, w: World, ix: Index, section: nat, oldHead: Hash, result: Option<Hash>): Index
    requires cfg.size > 0
  {
    if result.Some? && (section == 0 || oldHead == SectionHead(ix, section - 1))
    then SetValid(SetHead(ix, section, result.value), section + 1)
    else var v := VerifyLastHead(cfg, w, ix); v.(known := v.stored)
  }

  // ---------- the state machine ----------

  datatype System = System(world: World, ix: Index, task: Task)

  /** The atomic steps. ChainChanges is the environment; the rest are the indexer's own. */
  datatype Event =
    | ChainChanges(w: World)
    | Head(head: nat, reorg: bool)
    | Checkpoint(section: nat, h: Hash)
    | Sections
    | Begin
    | ResetFails
    | Header(backendOk: bool)
    | BackendCommit(commitOk: bool)
    | Finish

  function Next(cfg: Config, s: System, e: Event): System
    requires cfg.size > 0
  {
    match e
    case ChainChanges(w) => s.(world := w)
    case Head(head, reorg) => s.(ix := NewHead(cfg, s.world, s.ix, head, reorg))
    case Checkpoint(section, h) =>
      if s.task == Idle && h != NO_HASH then s.(ix := AddCheckpoint(s.ix, section, h)) else s
    case Sections => s.(ix := VerifyLastHead(cfg, s.world, s.ix))
    case Begin =>
      if s.task == Idle && s.ix.known > s.ix.stored then
        var ix := VerifyLastHead(cfg, s.world, s.ix);
        System(s.world, ix, BeginTask(cfg, ix))
      else s
    case ResetFails =>
      if s.task.Processing? && s.task.number == s.task.section * cfg.size
      then System(s.world, SetValid(s.ix, 0), Processed(s.task.section, s.task.oldHead, None))
      else s
    case Header(backendOk) =>
      if s.task.Processing? && s.task.number < (s.task.section + 1) * cfg.size then
        match ReadHeader(cfg, s.world, s.task.number, s.task.last, backendOk)
        case None => s.(task := Processed(s.task.section, s.task.oldHead, None))
        case Some(h) => s.(task := s.task.(number := s.task.number + 1, last := h))
      else s
    case BackendCommit(commitOk) =>
      if s.task.Processing? && s.task.number == (s.task.section + 1) * cfg.size then
        s.(task := Processed(s.task.section, s.task.oldHead, if commitOk then Some(s.task.last) else None))
      else s
    case Finish =>
      if s.task.Processed?
      then System(s.world, FinishTask(cfg, s.world, s.ix, s.task.section, s.task.oldHead, s.task.result), Idle)
      else s
  }

  function Run(cfg: Config, s: System, es: seq<Event>): System
    requires cfg.size > 0
    decreases |es|
  {
    if es == [] then s else Run(cfg, Next(cfg, s, es[0]), es[1..])
  }

  // ---------- the invariant ----------

  /** The hash n blocks before h. */
  ghost function Back(cfg: Config, h: Hash, n: nat): Hash
    decreases n
  {
    if n == 0 then h else Back(cfg, cfg.parent(h), n - 1)
  }

  /** The first section whose head the index vouches for. */
  function Base(ix: Index): nat { if ix.stored >= ix.cp then ix.cp else 0 }

  /** The head of a section sits exactly one section after the head before it. */
  ghost predicate Linked(cfg: Config, ix: Index, s: nat) {
    && s in ix.heads && ix.heads[s] != NO_HASH
    && (s > 0 ==> s - 1 in ix.heads && ix.heads[s - 1] != NO_HASH)
    && Back(cfg, ix.heads[s], cfg.size) == (if s == 0 then NO_HASH else ix.heads[s - 1])
  }

  /**
   What the index always satisfies: the persisted count is the one in memory, no head of a
   dropped section remains, and every section from the base on is linked to the one before.
   */
  ghost predicate IndexInv(cfg: Config, ix: Index) {
    && cfg.size > 0
    && ix.count == ix.stored
    && (forall s :: s in ix.heads ==> s < ix.stored)
    && (ix.stored > 0 ==> SectionHead(ix, ix.stored - 1) != NO_HASH)
    && (forall s :: Base(ix) <= s < ix.stored ==> Linked(cfg, ix, s))
  }

  /** What a task knows: the headers seen so far lead back to the head it started from. */
  ghost predicate TaskInv(cfg: Config, stored: nat, t: Task) {
    match t
    case Idle => true
    case Processing(section, oldHead, number, last) =>
      && stored <= section
      && (section == 0 <==> oldHead == NO_HASH)
      && section * cfg.size <= number <= (section + 1) * cfg.size
      && Back(cfg, last, number - section * cfg.size) == oldHead
      && (number > section * cfg.size ==> last != NO_HASH)
    case Processed(section, oldHead, result) =>
      && stored <= section
      && (section == 0 <==> oldHead == NO_HASH)
      && (result.Some? ==> result.value != NO_HASH && Back(cfg, result.value, cfg.size) == oldHead)
  }

  ghost predicate Inv(cfg: Config, s: System) {
    IndexInv(cfg, s.ix) && TaskInv(cfg, s.ix.stored, s.task)
  }

  // ---------- every step keeps the invariant ----------

  /** Dropping sections, but not below a checkpoint that is still covered. */
  lemma DropKeeps(cfg: Config, ix: Index, n: nat)
    requires IndexInv(cfg, ix) && n <= ix.stored
    requires n >= Base(ix) || n == 0
    ensures IndexInv(cfg, SetValid(ix, n))
  {
    var ix' := SetValid(ix, n);
    if 0 < n < ix.stored {
      assert Linked(cfg, ix, n);
    }
    forall s | Base(ix') <= s < n
      ensures Linked(cfg, ix', s)
    {
      assert Linked(cfg, ix, s);
    }
  }

  lemma {:induction false} VerifyKeeps(cfg: Config, w: World, ix: Index)
    requires IndexInv(cfg, ix)
    ensures IndexInv(cfg, VerifyLastHead(cfg, w, ix))
    ensures VerifyLastHead(cfg, w, ix).stored <= ix.stored
    decreases ix.stored
  {
    if ix.stored > 0 && ix.stored > ix.cp && !TopCanonical(cfg, w, ix) {
      DropKeeps(cfg, ix, ix.stored - 1);
      VerifyKeeps(cfg, w, SetValid(ix, ix.stored - 1));
    }
  }

  lemma NewHeadKeeps(cfg: Config, w: World, ix: Index, head: nat, reorg: bool)
    requires IndexInv(cfg, ix)
    ensures IndexInv(cfg, NewHead(cfg, w, ix, head, reorg))
    ensures NewHead(cfg, w, ix, head, reorg).stored <= ix.stored
  {
    var ix' := NewHead(cfg, w, ix, head, reorg);
    var ix1 := ix.(known := ix'.known);
    forall s | Base(ix1) <= s < ix1.stored
      ensures Linked(cfg, ix1, s)
    {
      assert Linked(cfg, ix, s);
    }
    if ix'.stored != ix.stored {
      DropKeeps(cfg, ix1, ix'.stored);
    }
  }

  lemma CheckpointKeeps(cfg: Config, ix: Index, section: nat, h: Hash)
    requires IndexInv(cfg, ix) && h != NO_HASH
    ensures IndexInv(cfg, AddCheckpoint(ix, section, h))
  {
    var ix' := AddCheckpoint(ix, section, h);
    if ix' != ix {
      assert ix'.heads == ix.heads[section := h];
    }
  }

  /**
   The commit rule: a section is committed only on top of the very head it was built on, so
   it is linked to it even though the lock was released in between.
   */
  lemma CommitKeeps(cfg: Config, ix: Index, section: nat, oldHead: Hash, h: Hash)
    requires IndexInv(cfg, ix) && TaskInv(cfg, ix.stored, Processed(section, oldHead, Some(h)))
    requires section == 0 || oldHead == SectionHead(ix, section - 1)
    ensures IndexInv(cfg, SetValid(SetHead(ix, section, h), section + 1))
  {
    assert ix.stored == section;
    var ix' := SetValid(SetHead(ix, section, h), section + 1);
    assert ix'.heads == ix.heads[section := h];
    forall s | Base(ix') <= s < ix'.stored
      ensures Linked(cfg, ix', s)
    {
      if s < section { assert Linked(cfg, ix, s); }
    }
  }

  lemma {:induction false} BackStep(cfg: Config, h: Hash, n: nat, from: Hash)
    requires Back(cfg, cfg.parent(h), n) == from
    ensures Back(cfg, h, n + 1) == from
  {
  }

  lemma FinishKeeps(cfg: Config, w: World, ix: Index, section: nat, oldHead: Hash, result: Option<Hash>)
    requires IndexInv(cfg, ix) && TaskInv(cfg, ix.stored, Processed(section, oldHead, result))
    ensures IndexInv(cfg, FinishTask(cfg, w, ix, section, oldHead, result))
  {
    if result.Some? && (section == 0 || oldHead == SectionHead(ix, section - 1)) {
      CommitKeeps(cfg, ix, section, oldHead, result.value);
    } else {
      VerifyKeeps(cfg, w, ix);
      KnownIrrelevant(cfg, VerifyLastHead(cfg, w, ix), VerifyLastHead(cfg, w, ix).stored);
    }
  }

  lemma KnownIrrelevant(cfg: Config, ix: Index, known: nat)
    requires IndexInv(cfg, ix)
    ensures IndexInv(cfg, ix.(known := known))
  {
    var ix' := ix.(known := known);
    forall s | Base(ix') <= s < ix'.stored
      ensures Linked(cfg, ix', s)
    {
      assert Linked(cfg, ix, s);
    }
  }

  lemma InvSize(cfg: Config, ix: Index)
    requires IndexInv(cfg, ix)
    ensures cfg.size > 0 && ix.count == ix.stored
  {
  }

  /** Starting on a section. */
  lemma BeginKeeps(cfg: Config, s: System)
    requires Inv(cfg, s)
    ensures Inv(cfg, Next(cfg, s, Begin))
  {
    hide VerifyLastHead;
    VerifyKeeps(cfg, s.world, s.ix);
    SectionStart(cfg, VerifyLastHead(cfg, s.world, s.ix).stored);
  }

  lemma SectionStart(cfg: Config, section: nat)
    ensures section * cfg.size <= (section + 1) * cfg.size == section * cfg.size + cfg.size
  {
  }

  /** Reading a header. */
  lemma HeaderKeeps(cfg: Config, s: System, backendOk: bool)
    requires Inv(cfg, s)
    ensures Inv(cfg, Next(cfg, s, Header(backendOk)))
  {
    hide IndexInv, CanonicalHash;
    InvSize(cfg, s.ix);
    if s.task.Processing? {
      var r := ReadHeader(cfg, s.world, s.task.number, s.task.last, backendOk);
      if r.Some? {
        BackStep(cfg, r.value, s.task.number - s.task.section * cfg.size, s.task.oldHead);
      }
    }
  }

  /** Committing to the backend. */
  lemma BackendKeeps(cfg: Config, s: System, commitOk: bool)
    requires Inv(cfg, s)
    ensures Inv(cfg, Next(cfg, s, BackendCommit(commitOk)))
  {
    hide IndexInv;
    InvSize(cfg, s.ix);
    if s.task.Processing? {
      SectionStart(cfg, s.task.section);
    }
  }

  /** The steps that change the index alone. */
  lemma IndexStepKeeps(cfg: Config, s: System, e: Event)
    requires Inv(cfg, s) && (e.ChainChanges? || e.Head? || e.Checkpoint? || e.Sections? || e.ResetFails?)
    ensures Inv(cfg, Next(cfg, s, e))
  {
    hide IndexInv, VerifyLastHead, NewHead, AddCheckpoint;
    InvSize(cfg, s.ix);
    match e
    case ChainChanges(w) =>
    case Head(head, reorg) => NewHeadKeeps(cfg, s.world, s.ix, head, reorg);
    case Checkpoint(section, h) => if h != NO_HASH { CheckpointKeeps(cfg, s.ix, section, h); }
    case Sections => VerifyKeeps(cfg, s.world, s.ix);
    case ResetFails => DropKeeps(cfg, s.ix, 0);
  }

  /** Coming back under the lock. */
  lemma FinishStepKeeps(cfg: Config, s: System)
    requires Inv(cfg, s)
    ensures Inv(cfg, Next(cfg, s, Finish))
  {
    hide IndexInv, FinishTask;
    InvSize(cfg, s.ix);
    if s.task.Processed? {
      FinishKeeps(cfg, s.world, s.ix, s.task.section, s.task.oldHead, s.task.result);
    }
  }

  lemma StepKeeps(cfg: Config, s: System, e: Event)
    requires Inv(cfg, s)
    ensures Inv(cfg, Next(cfg, s, e))
  {
    hide Next, TaskInv, Linked;
    match e
    case Begin => BeginKeeps(cfg, s);
    case Header(backendOk) => HeaderKeeps(cfg, s, backendOk);
    case BackendCommit(commitOk) => BackendKeeps(cfg, s, commitOk);
    case Finish => FinishStepKeeps(cfg, s);
    case _ => IndexStepKeeps(cfg, s, e);
  }

  /** In every interleaving the invariant holds: stored heads form one hash-linked chain. */
  lemma {:induction false} RunKeeps(cfg: Config, s: System, es: seq<Event>)
    requires Inv(cfg, s)
    ensures Inv(cfg, Run(cfg, s, es))
    decreases |es|
  {
    if es != [] {
      StepKeeps(cfg, s, es[0]);
      RunKeeps(cfg, Next(cfg, s, es[0]), es[1..]);
    }
  }

  // ---------- what the invariant gives ----------

  lemma {:induction false} BackAdd(cfg: Config, h: Hash, m: nat, n: nat)
    ensures Back(cfg, Back(cfg, h, m), n) == Back(cfg, h, m + n)
    decreases m
  {
    if m > 0 { BackAdd(cfg, cfg.parent(h), m - 1, n); }
  }

  /** Any two stored heads from the base on lie on one chain, whole sections apart. */
  lemma {:induction false} OneChain(cfg: Config, ix: Index, s: nat, t: nat)
    requires IndexInv(cfg, ix) && s <= t < ix.stored && Base(ix) <= s + 1
    requires s in ix.heads
    ensures t in ix.heads && Back(cfg, ix.heads[t], (t - s) * cfg.size) == ix.heads[s]
    decreases t
  {
    if s < t {
      assert Linked(cfg, ix, t);
      OneChain(cfg, ix, s, t - 1);
      BackAdd(cfg, ix.heads[t], cfg.size, (t - 1 - s) * cfg.size);
      assert cfg.size + (t - 1 - s) * cfg.size == (t - s) * cfg.size;
    }
  }

  /** The canonical chain is hash-linked and has no holes. */
  ghost predicate CanonLinked(cfg: Config, w: World) {
    forall n: nat :: n > 0 && CanonicalHash(w, n) != NO_HASH ==>
      && CanonicalHash(w, n - 1) != NO_HASH
      && CanonicalHash(w, n - 1) == cfg.parent(CanonicalHash(w, n))
  }

  lemma {:induction false} CanonBack(cfg: Config, w: World, n: nat, k: nat)
    requires CanonLinked(cfg, w) && CanonicalHash(w, n) != NO_HASH && k <= n
    ensures Back(cfg, CanonicalHash(w, n), k) == CanonicalHash(w, n - k)
    decreases k
  {
    if k > 0 { CanonBack(cfg, w, n - 1, k - 1); }
  }

  /** The head of section s is the canonical hash at the section's last block. */
  ghost predicate Canonical(cfg: Config, w: World, ix: Index, s: nat)
    requires cfg.size > 0
  {
    SectionHead(ix, s) == CanonicalHash(w, LastBlock(cfg, s))
  }

  /** If one stored head is canonical, so is the one before it. */
  lemma CanonicalBelow(cfg: Config, w: World, ix: Index, s: nat)
    requires IndexInv(cfg, ix) && CanonLinked(cfg, w)
    requires 0 < s < ix.stored && Base(ix) <= s && Canonical(cfg, w, ix, s)
    ensures Canonical(cfg, w, ix, s - 1)
  {
    assert Linked(cfg, ix, s);
    assert LastBlock(cfg, s) - cfg.size == LastBlock(cfg, s - 1);
    CanonBack(cfg, w, LastBlock(cfg, s), cfg.size);
  }

  lemma {:induction false} CanonicalDown(cfg: Config, w: World, ix: Index, s: nat, t: nat)
    requires IndexInv(cfg, ix) && CanonLinked(cfg, w)
    requires s <= t < ix.stored && Base(ix) <= s + 1 && Canonical(cfg, w, ix, t)
    ensures Canonical(cfg, w, ix, s)
    decreases t
  {
    if s < t {
      CanonicalBelow(cfg, w, ix, t);
      CanonicalDown(cfg, w, ix, s, t - 1);
    }
  }

  /**
   Checking only the top head is enough. Of the sections above the checkpoint,
   verifyLastHead keeps exactly those whose head is canonical, and their heads are untouched.
   */
  lemma {:induction false} VerifyExact(cfg: Config, w: World, ix: Index, s: nat)
    requires IndexInv(cfg, ix) && CanonLinked(cfg, w)
    requires ix.cp <= s < ix.stored
    ensures var ix' := VerifyLastHead(cfg, w, ix);
            && (s < ix'.stored <==> Canonical(cfg, w, ix, s))
            && (s < ix'.stored ==> SectionHead(ix', s) == SectionHead(ix, s))
    decreases ix.stored
  {
    if !TopCanonical(cfg, w, ix) {
      var ix1 := SetValid(ix, ix.stored - 1);
      DropKeeps(cfg, ix, ix.stored - 1);
      VerifyKeeps(cfg, w, ix1);
      if s < ix1.stored {
        VerifyExact(cfg, w, ix1, s);
      }
    } else {
      CanonicalDown(cfg, w, ix, s, ix.stored - 1);
    }
  }

  /** After verifyLastHead every stored head above the checkpoint is canonical, and so is the checkpoint's. */
  lemma VerifiedIsCanonical(cfg: Config, w: World, ix: Index, s: nat)
    requires IndexInv(cfg, ix) && CanonLinked(cfg, w)
    requires var ix' := VerifyLastHead(cfg, w, ix);
             ix'.stored > ix.cp && s < ix'.stored && ix.cp <= s + 1
    ensures Canonical(cfg, w, VerifyLastHead(cfg, w, ix), s)
  {
    var ix' := VerifyLastHead(cfg, w, ix);
    VerifyKeeps(cfg, w, ix);
    VerifySame(cfg, w, ix);
    VerifyExact(cfg, w, ix, ix'.stored - 1);
    CanonicalDown(cfg, w, ix', s, ix'.stored - 1);
  }

  lemma {:induction false} VerifySame(cfg: Config, w: World, ix: Index)
    requires cfg.size > 0
    ensures VerifyLastHead(cfg, w, ix).cp == ix.cp
    ensures VerifyLastHead(cfg, w, ix).known == ix.known
    ensures var v := VerifyLastHead(cfg, w, ix);
            v.stored > 0 && v.stored > v.cp ==> TopCanonical(cfg, w, v)
    decreases ix.stored
  {
    if ix.stored > 0 && ix.stored > ix.cp && !TopCanonical(cfg, w, ix) {
      VerifySame(cfg, w, SetValid(ix, ix.stored - 1));
    }
  }

  /** The task that starts on a section knows the head below it. */
  lemma BeginKnows(cfg: Config, ix: Index)
    requires IndexInv(cfg, ix)
    ensures ix.stored > 0 ==> SectionHead(ix, ix.stored - 1) != NO_HASH
  {
  }

  /**
   A checkpoint is added unless there is a later one or its section is stored already; then all sections
   up to it count as stored, with its head known and no other head touched.
   */
  lemma CheckpointAdds(ix: Index, section: nat, h: Hash)
    ensures AddCheckpoint(ix, section, h)
            == if section < ix.cp || section < ix.stored then ix
               else Index(section + 1, ix.known, section + 1, h, section + 1, ix.heads[section := h])
  {
    var ix' := AddCheckpoint(ix, section, h);
    if section >= ix.cp && section >= ix.stored {
      assert ix'.heads == ix.heads[section := h];
    }
  }

  /** With nothing else happening, finishing either adds one canonical section or ends the work. */
  lemma FinishProgress(cfg: Config, w: World, ix: Index, section: nat, oldHead: Hash, result: Option<Hash>)
    requires IndexInv(cfg, ix)
    requires result.Some? ==> Back(cfg, result.value, cfg.size) == oldHead
    requires result.Some? ==> result.value == CanonicalHash(w, LastBlock(cfg, section))
    ensures var ix' := FinishTask(cfg, w, ix, section, oldHead, result);
            && ix'.cp == ix.cp
            && (ix'.stored > 0 && ix'.stored > ix'.cp ==> TopCanonical(cfg, w, ix'))
            && (ix'.known == ix'.stored || (ix'.known == ix.known && ix'.stored == section + 1))
            && (result.Some? && (section == 0 || oldHead == SectionHead(ix, section - 1)) ==>
                  ix'.known == ix.known && ix'.stored == section + 1 && TopCanonical(cfg, w, ix'))
  {
    VerifySame(cfg, w, ix);
  }

  // ---------- what head events do, section by section ----------

  /** The block in which a section ends has this many blocks on top of it, or more, at the given head. */
  predicate Ended(cfg: Config, head: nat, section: nat, confirms: nat)
    requires cfg.size > 0
  {
    LastBlock(cfg, section) + confirms <= head
  }

  /** So have all sections of the checkpoint. */
  predicate CheckpointEnded(cfg: Config, ix: Index, head: nat, confirms: nat)
    requires cfg.size > 0
  {
    ix.cp > 0 ==> Ended(cfg, head, ix.cp - 1, confirms)
  }

  lemma SectionsBelow(cfg: Config, blocks: nat, t: nat)
    requires cfg.size > 0
    ensures t < blocks / cfg.size <==> (t + 1) * cfg.size <= blocks
  {
    var q := blocks / cfg.size;
    assert blocks == q * cfg.size + blocks % cfg.size;
    if t < q {
      Times(t + 1, q, cfg.size);
    } else {
      Times(q + 1, t + 1, cfg.size);
    }
  }

  lemma Times(a: nat, b: nat, c: nat)
    requires a <= b
    ensures a * c <= b * c
  {
  }

  lemma EndedIff(cfg: Config, head: nat, t: nat, confirms: nat)
    requires cfg.size > 0
    ensures Ended(cfg, head, t, confirms) <==> head >= confirms && t < (head + 1 - confirms) / cfg.size
  {
    assert (t + 1) * cfg.size >= 1 by {
      Times(1, t + 1, cfg.size);
    }
    if head >= confirms {
      SectionsBelow(cfg, head + 1 - confirms, t);
    }
  }

  /**
   What a head event makes known: a section that has ended with all confirmations, if the checkpoint
   has too, and if the chain is on the checkpoint's head where the checkpoint was not known yet.
   */
  predicate BecomesKnown(cfg: Config, w: World, ix: Index, head: nat, t: nat)
    requires cfg.size > 0
  {
    && Ended(cfg, head, t, cfg.confirms) && CheckpointEnded(cfg, ix, head, cfg.confirms)
    && (ix.known < ix.cp ==> CanonicalHash(w, LastBlock(cfg, ix.cp - 1)) == ix.cpHead)
  }

  /** A head event without a reorg adds what it makes known and changes nothing else. */
  ghost predicate Advanced(cfg: Config, w: World, ix: Index, head: nat, ix': Index)
    requires cfg.size > 0
  {
    && ix' == ix.(known := ix'.known)
    && forall t: nat :: t < ix'.known <==> t < ix.known || BecomesKnown(cfg, w, ix, head, t)
  }

  lemma HeadAdvances(cfg: Config, w: World, ix: Index, head: nat)
    requires cfg.size > 0
    ensures Advanced(cfg, w, ix, head, NewHead(cfg, w, ix, head, false))
  {
    hide BecomesKnown;
    var ix' := NewHead(cfg, w, ix, head, false);
    forall t: nat
      ensures t < ix'.known <==> t < ix.known || BecomesKnown(cfg, w, ix, head, t)
    {
      KnownAfter(cfg, w, ix, head, t);
    }
  }

  lemma KnownAfter(cfg: Config, w: World, ix: Index, head: nat, t: nat)
    requires cfg.size > 0
    ensures t < NewHead(cfg, w, ix, head, false).known <==> t < ix.known || BecomesKnown(cfg, w, ix, head, t)
  {
    hide Ended;
    EndedIff(cfg, head, t, cfg.confirms);
    if ix.cp > 0 {
      EndedIff(cfg, head, ix.cp - 1, cfg.confirms);
    }
  }

  /**
   A reorg keeps exactly the stored sections that end at or below it or belong to the checkpoint, with
   their heads, and the known sections that end at or below it, if the checkpoint does; the
   persisted count follows what is dropped.
   */
  ghost predicate Reverted(cfg: Config, ix: Index, head: nat, ix': Index)
    requires cfg.size > 0
  {
    && ix'.cp == ix.cp && ix'.cpHead == ix.cpHead
    && ix'.count == (if ix'.stored == ix.stored then ix.count else ix'.stored)
    && (forall t: nat :: t < ix'.stored <==> t < ix.stored && KeepsStored(cfg, ix, head, t))
    && (forall t: nat :: t < ix'.known <==> t < ix.known && KeepsKnown(cfg, ix, head, t))
    && (forall t: nat :: t in ix'.heads <==> t in ix.heads && !(ix'.stored <= t < ix.stored))
    && (forall t: nat :: t in ix'.heads ==> ix'.heads[t] == ix.heads[t])
  }

  predicate KeepsStored(cfg: Config, ix: Index, head: nat, t: nat)
    requires cfg.size > 0
  {
    t < ix.cp || Ended(cfg, head, t, 0)
  }

  predicate KeepsKnown(cfg: Config, ix: Index, head: nat, t: nat)
    requires cfg.size > 0
  {
    Ended(cfg, head, t, 0) && CheckpointEnded(cfg, ix, head, 0)
  }

  lemma ReorgReverts(cfg: Config, w: World, ix: Index, head: nat)
    requires cfg.size > 0
    ensures Reverted(cfg, ix, head, NewHead(cfg, w, ix, head, true))
  {
    hide KeepsStored, KeepsKnown;
    var ix' := NewHead(cfg, w, ix, head, true);
    forall t: nat
      ensures t < ix'.stored <==> t < ix.stored && KeepsStored(cfg, ix, head, t)
      ensures t < ix'.known <==> t < ix.known && KeepsKnown(cfg, ix, head, t)
    {
      KeptAfter(cfg, w, ix, head, t);
    }
  }

  lemma KeptAfter(cfg: Config, w: World, ix: Index, head: nat, t: nat)
    requires cfg.size > 0
    ensures var ix' := NewHead(cfg, w, ix, head, true);
            && (t < ix'.stored <==> t < ix.stored && KeepsStored(cfg, ix, head, t))
            && (t < ix'.known <==> t < ix.known && KeepsKnown(cfg, ix, head, t))
  {
    hide Ended;
    EndedIff(cfg, head, t, 0);
    if ix.cp > 0 {
      EndedIff(cfg, head, ix.cp - 1, 0);
    }
  }

  /** So after a reorg to block h the index holds no head of a dropped section, and is short enough. */
  lemma ReorgBounds(cfg: Config, s: System, h: nat)
    requires Inv(cfg, s)
    ensures var ix := Next(cfg, s, Head(h, true)).ix;
            && ix.stored <= Max(ix.cp, (h + 1) / cfg.size)
            && ix.known <= (h + 1) / cfg.size
            && ix.count == ix.stored
            && forall t :: t >= ix.stored ==> t !in ix.heads
  {
    StepKeeps(cfg, s, Head(h, true));
  }

  /** Headers read one after the other are a hash-linked run, ending in a hash that was canonical when read. */
  lemma {:induction false} ReadsLinked(cfg: Config, view: nat -> World, backendOk: nat -> bool, number: nat, n: nat,
                                       last: Hash)
    requires n > 0 && ReadHeaders(cfg, view, backendOk, number, n, last).Some?
    ensures var h := ReadHeaders(cfg, view, backendOk, number, n, last).value;
            && h != NO_HASH && Back(cfg, h, n) == last
            && h == CanonicalHash(view(number + n - 1), number + n - 1)
    decreases n
  {
    var first := ReadHeader(cfg, view(number), number, last, backendOk(number)).value;
    if n > 1 {
      ReadsLinked(cfg, view, backendOk, number + 1, n - 1, first);
      var h := ReadHeaders(cfg, view, backendOk, number, n, last).value;
      BackAdd(cfg, h, n - 1, 1);
      assert Back(cfg, first, 1) == cfg.parent(first);
    } else {
      assert Back(cfg, first, 1) == cfg.parent(first);
    }
  }

  /** Block b is good: it is on the chain, its header is there, it follows the given hash, and the backend takes it. */
  ghost predicate Good(cfg: Config, w: World, backendOk: nat -> bool, b: nat, before: Hash) {
    && b in w.canon && w.canon[b] != NO_HASH && (b, w.canon[b]) in w.headers
    && cfg.parent(w.canon[b]) == before && backendOk(b)
  }

  /** The hash that block b, the first of a section or a later one, has to follow. */
  ghost function HashBefore(view: nat -> World, first: nat, last: Hash, b: nat): Hash {
    if b <= first then last else CanonicalHash(view(b - 1), b - 1)
  }

  /** The n blocks from the first on are good, each when it is read. */
  ghost predicate AllGood(cfg: Config, view: nat -> World, backendOk: nat -> bool, first: nat, n: nat, last: Hash) {
    forall b: nat :: first <= b < first + n ==> Good(cfg, view(b), backendOk, b, HashBefore(view, first, last, b))
  }

  /** A section is read exactly if every one of its blocks is good when it is read. */
  lemma {:induction false} ReadsIff(cfg: Config, view: nat -> World, backendOk: nat -> bool, number: nat, n: nat,
                                    last: Hash)
    ensures ReadHeaders(cfg, view, backendOk, number, n, last).Some? <==>
            AllGood(cfg, view, backendOk, number, n, last)
    decreases n
  {
    hide Good, ReadHeader, HashBefore;
    if n > 0 {
      var r := ReadHeader(cfg, view(number), number, last, backendOk(number));
      GoodIff(cfg, view, backendOk, number, last);
      if r.Some? {
        ReadsIff(cfg, view, backendOk, number + 1, n - 1, r.value);
        forall b: nat | number + 1 <= b < number + n
          ensures HashBefore(view, number + 1, r.value, b) == HashBefore(view, number, last, b)
        {
          BeforeNext(cfg, view, backendOk, number, last, b);
        }
      }
    }
  }

  lemma GoodIff(cfg: Config, view: nat -> World, backendOk: nat -> bool, b: nat, before: Hash)
    ensures ReadHeader(cfg, view(b), b, before, backendOk(b)).Some?
            <==> Good(cfg, view(b), backendOk, b, HashBefore(view, b, before, b))
  {
  }

  lemma BeforeNext(cfg: Config, view: nat -> World, backendOk: nat -> bool, number: nat, last: Hash, b: nat)
    requires b > number && ReadHeader(cfg, view(number), number, last, backendOk(number)).Some?
    ensures HashBefore(view, number + 1, ReadHeader(cfg, view(number), number, last, backendOk(number)).value, b)
            == HashBefore(view, number, last, b)
  {
  }

  /** A chain that does not change while a section is read. */
  function Fixed(w: World): nat -> World { _ => w }

  // ---------- progress on a complete chain ----------

  /** The chain is complete and linked below block n, from a genesis block without parent on. */
  ghost predicate Complete(cfg: Config, w: World, n: nat) {
    && CanonLinked(cfg, w)
    && (CanonicalHash(w, 0) != NO_HASH ==> cfg.parent(CanonicalHash(w, 0)) == NO_HASH)
    && forall b: nat :: b < n ==> CanonicalHash(w, b) != NO_HASH && (b, CanonicalHash(w, b)) in w.headers
  }

  /** The hash that block n must have as its parent. */
  function ParentAt(w: World, n: nat): Hash { if n == 0 then NO_HASH else CanonicalHash(w, n - 1) }

  /** On a complete chain with a working backend every header is good. */
  lemma {:induction false} CompleteReads(cfg: Config, w: World, backendOk: nat -> bool, number: nat, n: nat)
    requires Complete(cfg, w, number + n) && forall b :: backendOk(b)
    ensures ReadHeaders(cfg, Fixed(w), backendOk, number, n, ParentAt(w, number)) == Some(ParentAt(w, number + n))
    decreases n
  {
    if n > 0 {
      var h := CanonicalHash(w, number);
      assert h != NO_HASH && (number, h) in w.headers;
      CompleteReads(cfg, w, backendOk, number + 1, n - 1);
    }
  }

  /** The section after the stored ones lies within the known ones. */
  lemma SectionFits(cfg: Config, section: nat, known: nat)
    requires section < known
    ensures section * cfg.size + cfg.size <= known * cfg.size
    ensures section > 0 && cfg.size > 0 ==> LastBlock(cfg, section - 1) == section * cfg.size - 1
  {
    assert (section + 1) * cfg.size <= known * cfg.size;
  }

  /** The next section is built on a canonical head, or on nothing. */
  ghost predicate OnCanonical(cfg: Config, w: World, ix: Index)
    requires cfg.size > 0
  {
    ix.stored > 0 ==> TopCanonical(cfg, w, ix)
  }

  lemma VerifyIdle(cfg: Config, w: World, ix: Index)
    requires cfg.size > 0 && OnCanonical(cfg, w, ix)
    ensures VerifyLastHead(cfg, w, ix) == ix
  {
  }

  /** So on a complete chain the next section is processed with success. */
  lemma CompleteSection(cfg: Config, w: World, ix: Index, backendOk: nat -> bool)
    requires cfg.size > 0 && ix.stored < ix.known && Complete(cfg, w, ix.known * cfg.size)
    requires OnCanonical(cfg, w, ix) && forall b :: backendOk(b)
    ensures var t := BeginTask(cfg, ix);
            ReadHeaders(cfg, Fixed(w), backendOk, t.number, cfg.size, t.oldHead).Some?
  {
    hide CanonLinked;
    SectionFits(cfg, ix.stored, ix.known);
    CompleteReads(cfg, w, backendOk, ix.stored * cfg.size, cfg.size);
  }

  // ---------- one turn without interference ----------

  /** What one turn of the update loop comes to when nothing else happens. */
  function Turn(cfg: Config, w: World, ix: Index, resetOk: bool, backendOk: nat -> bool, commitOk: bool): Index
    requires cfg.size > 0
  {
    var v := VerifyLastHead(cfg, w, ix);
    var task := BeginTask(cfg, v);
    if !resetOk then FinishTask(cfg, w, SetValid(v, 0), task.section, task.oldHead, None)
    else
      var read := ReadHeaders(cfg, Fixed(w), backendOk, task.number, cfg.size, task.oldHead);
      FinishTask(cfg, w, v, task.section, task.oldHead, if commitOk then read else None)
  }

  /** The header steps of n blocks. */
  function HeaderSteps(backendOk: nat -> bool, number: nat, n: nat): seq<Event>
    decreases n
  {
    if n == 0 then [] else [Header(backendOk(number))] + HeaderSteps(backendOk, number + 1, n - 1)
  }

  /** The atomic steps of the turn, from the start of processing to its end. */
  function TurnSteps(cfg: Config, w: World, ix: Index, resetOk: bool, backendOk: nat -> bool, commitOk: bool):
    seq<Event>
    requires cfg.size > 0
  {
    if !resetOk then [Begin, ResetFails, Finish]
    else
      var number := BeginTask(cfg, VerifyLastHead(cfg, w, ix)).number;
      [Begin] + (HeaderSteps(backendOk, number, cfg.size) + [BackendCommit(commitOk), Finish])
  }

  lemma {:induction false} RunConcat(cfg: Config, s: System, es: seq<Event>, fs: seq<Event>)
    requires cfg.size > 0
    ensures Run(cfg, s, es + fs) == Run(cfg, Run(cfg, s, es), fs)
    decreases |es|
  {
    hide Next;
    if es == [] {
      assert es + fs == fs;
    } else {
      assert (es + fs)[1..] == es[1..] + fs;
      RunConcat(cfg, Next(cfg, s, es[0]), es[1..], fs);
    }
  }

  /** With no section in processing, header steps change nothing. */
  lemma {:induction false} HeadersIdle(cfg: Config, s: System, backendOk: nat -> bool, number: nat, n: nat)
    requires cfg.size > 0 && !s.task.Processing?
    ensures Run(cfg, s, HeaderSteps(backendOk, number, n)) == s
    decreases n
  {
    if n > 0 {
      var es := HeaderSteps(backendOk, number, n);
      assert es[1..] == HeaderSteps(backendOk, number + 1, n - 1);
      HeadersIdle(cfg, s, backendOk, number + 1, n - 1);
    }
  }

  /** Header steps on a fixed chain read the headers. */
  lemma {:induction false} HeadersRead(cfg: Config, s: System, backendOk: nat -> bool, n: nat)
    requires cfg.size > 0 && s.task.Processing? && s.task.number + n <= (s.task.section + 1) * cfg.size
    ensures var t := s.task;
            Run(cfg, s, HeaderSteps(backendOk, t.number, n))
            == s.(task := match ReadHeaders(cfg, Fixed(s.world), backendOk, t.number, n, t.last)
                  case None => Processed(t.section, t.oldHead, None)
                  case Some(h) => t.(number := t.number + n, last := h))
    decreases n
  {
    hide ReadHeader;
    if n > 0 {
      var t := s.task;
      var es := HeaderSteps(backendOk, t.number, n);
      assert es[0] == Header(backendOk(t.number)) && es[1..] == HeaderSteps(backendOk, t.number + 1, n - 1);
      var s' := Next(cfg, s, es[0]);
      if s'.task.Processing? {
        HeadersRead(cfg, s', backendOk, n - 1);
      } else {
        HeadersIdle(cfg, s', backendOk, t.number + 1, n - 1);
      }
    }
  }

  /**
   A turn is a run of the atomic steps, so all that holds of runs holds of turns; and with no known
   section left to store the same steps do nothing.
   */
  lemma TurnIsRun(cfg: Config, w: World, ix: Index, resetOk: bool, backendOk: nat -> bool, commitOk: bool)
    requires cfg.size > 0
    ensures Run(cfg, System(w, ix, Idle), TurnSteps(cfg, w, ix, resetOk, backendOk, commitOk))
            == System(w, if ix.known > ix.stored then Turn(cfg, w, ix, resetOk, backendOk, commitOk) else ix, Idle)
  {
    hide VerifyLastHead, FinishTask, ReadHeaders, Run;
    var s := System(w, ix, Idle);
    var v := VerifyLastHead(cfg, w, ix);
    var task := BeginTask(cfg, v);
    var begun := if ix.known > ix.stored then System(w, v, task) else s;
    if !resetOk {
      RunThree(cfg, s, Begin, ResetFails, Finish);
    } else {
      var steps := HeaderSteps(backendOk, task.number, cfg.size);
      SectionFits(cfg, task.section, task.section + 1);
      if ix.known > ix.stored {
        HeadersRead(cfg, begun, backendOk, cfg.size);
      } else {
        HeadersIdle(cfg, begun, backendOk, task.number, cfg.size);
      }
      RunConcat(cfg, s, [Begin], steps + [BackendCommit(commitOk), Finish]);
      RunConcat(cfg, begun, steps, [BackendCommit(commitOk), Finish]);
      RunOne(cfg, s, Begin);
      RunTwo(cfg, Run(cfg, begun, steps), BackendCommit(commitOk), Finish);
    }
  }

  lemma RunOne(cfg: Config, s: System, e: Event)
    requires cfg.size > 0
    ensures Run(cfg, s, [e]) == Next(cfg, s, e)
  {
    hide Next;
    assert [e][1..] == [];
  }

  lemma RunTwo(cfg: Config, s: System, e: Event, f: Event)
    requires cfg.size > 0
    ensures Run(cfg, s, [e, f]) == Next(cfg, Next(cfg, s, e), f)
  {
    hide Next;
    assert [e, f][1..] == [f];
    RunOne(cfg, Next(cfg, s, e), f);
  }

  lemma RunThree(cfg: Config, s: System, e: Event, f: Event, g: Event)
    requires cfg.size > 0
    ensures Run(cfg, s, [e, f, g]) == Next(cfg, Next(cfg, Next(cfg, s, e), f), g)
  {
    hide Next;
    assert [e, f, g][1..] == [f, g];
    RunTwo(cfg, Next(cfg, s, e), f, g);
  }

  /** A turn keeps the invariant, and either stores one more canonical section or leaves nothing to do. */
  lemma TurnKeeps(cfg: Config, w: World, ix: Index, resetOk: bool, backendOk: nat -> bool, commitOk: bool)
    requires IndexInv(cfg, ix) && CanonLinked(cfg, w) && ix.known > ix.stored
    ensures cfg.size > 0
    ensures var v := VerifyLastHead(cfg, w, ix);
            var ix' := Turn(cfg, w, ix, resetOk, backendOk, commitOk);
            && IndexInv(cfg, ix') && ix'.cp == ix.cp
            && (ix'.stored > 0 && ix'.stored > ix'.cp ==> TopCanonical(cfg, w, ix'))
            && (ix'.known == ix'.stored || (ix'.known == ix.known && ix'.stored == v.stored + 1))
            && (&& Complete(cfg, w, ix.known * cfg.size) && OnCanonical(cfg, w, v)
                && resetOk && commitOk && (forall b :: backendOk(b)) ==>
                  ix'.known == ix.known && ix'.stored == v.stored + 1 && OnCanonical(cfg, w, ix'))
  {
    hide IndexInv, VerifyLastHead, CanonLinked, Complete, TopCanonical, ReadHeaders, FinishTask, Back;
    InvSize(cfg, ix);
    VerifyKeeps(cfg, w, ix);
    VerifySame(cfg, w, ix);
    var v := VerifyLastHead(cfg, w, ix);
    var task := BeginTask(cfg, v);
    BeginKnows(cfg, v);
    if !resetOk {
      DropKeeps(cfg, v, 0);
      FinishKeeps(cfg, w, SetValid(v, 0), task.section, task.oldHead, None);
      FinishProgress(cfg, w, SetValid(v, 0), task.section, task.oldHead, None);
    } else {
      var read := ReadHeaders(cfg, Fixed(w), backendOk, task.number, cfg.size, task.oldHead);
      if Complete(cfg, w, v.known * cfg.size) && OnCanonical(cfg, w, v) && (forall b :: backendOk(b)) {
        CompleteSection(cfg, w, v, backendOk);
      }
      if read.Some? {
        ReadsLinked(cfg, Fixed(w), backendOk, task.number, cfg.size, task.oldHead);
        SectionFits(cfg, task.section, task.section + 1);
      }
      var result := if commitOk then read else None;
      FinishKeeps(cfg, w, v, task.section, task.oldHead, result);
      FinishProgress(cfg, w, v, task.section, task.oldHead, result);
    }
  }

  // ---------- the indexer object ----------

  class Indexer {
    const cfg: Config
    var stored: nat
    var known: nat
    var cp: nat
    var cpHead: Hash
    var count: nat
    var heads: map<nat, Hash>

    /** A new indexer over an empty index database. */
    constructor (cfg: Config)
      requires cfg.size > 0
      ensures this.cfg == cfg && State() == Index(0, 0, 0, NO_HASH, 0, map[])
      ensures IndexInv(cfg, State())
    {
      this.cfg := cfg;
      stored, known, cp, cpHead, count, heads := 0, 0, 0, NO_HASH, 0, map[];
    }

    function State(): Index
      reads this
    {
      Index(stored, known, cp, cpHead, count, heads)
    }

    /** Writes the number of valid sections and removes the heads of the dropped ones. */
    method SetValidSections(sections: nat)
      modifies this
      ensures State() == SetValid(old(State()), sections)
    {
      count := sections;
      while stored > sections
        invariant stored >= sections || stored == old(stored)
        invariant stored <= old(stored) && count == sections
        invariant known == old(known) && cp == old(cp) && cpHead == old(cpHead)
        invariant heads == map s | s in old(heads) && !(stored <= s < old(stored)) :: old(heads)[s]
      {
        stored := stored - 1;
        heads := heads - {stored};
      }
      stored := sections;
    }

    /** Rolls back stored sections until the top one is canonical or the checkpoint is reached. */
    method VerifyLast(w: World)
      requires cfg.size > 0
      modifies this
      ensures State() == VerifyLastHead(cfg, w, old(State()))
    {
      while stored > 0 && stored > cp
        invariant VerifyLastHead(cfg, w, State()) == VerifyLastHead(cfg, w, old(State()))
        decreases stored
      {
        if SectionHead(State(), stored - 1) == CanonicalHash(w, LastBlock(cfg, stored - 1)) {
          return;
        }
        SetValidSections(stored - 1);
      }
    }

    /** Notifies the indexer about a new chain head or a reorg. */
    method OnNewHead(w: World, head: nat, reorg: bool)
      requires cfg.size > 0
      modifies this
      ensures State() == NewHead(cfg, w, old(State()), head, reorg)
      ensures if reorg then Reverted(cfg, old(State()), head, State())
              else Advanced(cfg, w, old(State()), head, State())
    {
      hide Reverted, Advanced;
      if reorg {
        ReorgReverts(cfg, w, State(), head);
        // Revert the known section number to the reorg point
        var k := (head + 1) / cfg.size;
        var st := k;
        if k < cp {
          k := 0;
        }
        if st < cp {
          st := cp;
        }
        if k < known {
          known := k;
        }
        // Revert the stored sections from the database to the reorg point
        if st < stored {
          SetValidSections(st);
        }
        return;
      }
      HeadAdvances(cfg, w, State(), head);
      // No reorg, calculate the number of newly known sections and update if high enough
      if head >= cfg.confirms {
        var sections := (head + 1 - cfg.confirms) / cfg.size;
        if sections < cp {
          sections := 0;
        }
        if sections > known {
          if known < cp {
            // syncing reached the checkpoint, verify section head
            if CanonicalHash(w, LastBlock(cfg, cp - 1)) != cpHead {
              return;
            }
          }
          known := sections;
        }
      }
    }

    /**
     Adds a checkpoint, unless there is a later one or its section is stored already. All sections up to
     the checkpoint's count as stored, with its head known and no other head touched.
     */
    method Checkpoint(section: nat, h: Hash)
      modifies this
      ensures State() == AddCheckpoint(old(State()), section, h)
      ensures if section < old(cp) || section < old(stored) then State() == old(State())
              else State() == Index(section + 1, old(known), section + 1, h, section + 1, old(heads)[section := h])
    {
      CheckpointAdds(State(), section, h);
      // Short circuit if the given checkpoint is below than local's.
      if cp >= section + 1 || section < stored {
        return;
      }
      cp := section + 1;
      cpHead := h;
      heads := heads[section := h];
      SetValidSections(section + 1);
    }

    /**
     Processes a section outside the lock. `view(n)` is the chain database as it is when
     block n is read, so the chain may change in between; the backend may fail anywhere.
     A result is the end of a hash-linked run of exactly one section after lastHead.
     */
    method ProcessSection(section: nat, lastHead: Hash, view: nat -> World, resetOk: bool,
                          backendOk: nat -> bool, commitOk: bool) returns (r: Option<Hash>)
      requires cfg.size > 0
      modifies this
      ensures r.Some? ==> r.value != NO_HASH && Back(cfg, r.value, cfg.size) == lastHead
      ensures r.Some? ==> r.value == CanonicalHash(view(LastBlock(cfg, section)), LastBlock(cfg, section))
      ensures r == if resetOk && commitOk then ReadHeaders(cfg, view, backendOk, section * cfg.size, cfg.size, lastHead)
                   else None
      ensures r.Some? <==>
              resetOk && commitOk && AllGood(cfg, view, backendOk, section * cfg.size, cfg.size, lastHead)
      ensures State() == if resetOk then old(State()) else SetValid(old(State()), 0)
    {
      hide AllGood, LastBlock, ReadHeaders;
      ReadsIff(cfg, view, backendOk, section * cfg.size, cfg.size, lastHead);
      SectionLength(section);
      if !resetOk {
        SetValidSections(0);
        return None;
      }
      r := ReadSection(section * cfg.size, lastHead, view, backendOk);
      return if commitOk then r else None;
    }

    lemma SectionLength(section: nat)
      requires cfg.size > 0
      ensures LastBlock(cfg, section) == section * cfg.size + cfg.size - 1
    {
    }

    /** Reads the headers of a section and hands each to the backend. */
    method ReadSection(first: nat, lastHead: Hash, view: nat -> World, backendOk: nat -> bool)
      returns (r: Option<Hash>)
      requires cfg.size > 0
      ensures r == ReadHeaders(cfg, view, backendOk, first, cfg.size, lastHead)
      ensures r.Some? ==> r.value != NO_HASH && Back(cfg, r.value, cfg.size) == lastHead
      ensures r.Some? ==> r.value == CanonicalHash(view(first + cfg.size - 1), first + cfg.size - 1)
    {
      hide Back, ReadHeader, CanonicalHash;
      var last := lastHead;
      var number := first;
      while number < first + cfg.size
        invariant first <= number <= first + cfg.size
        invariant ReadHeaders(cfg, view, backendOk, first, cfg.size, lastHead)
                  == ReadHeaders(cfg, view, backendOk, number, first + cfg.size - number, last)
      {
        match ReadHeader(cfg, view(number), number, last, backendOk(number)) {
          case None =>
            return None;
          case Some(hash) =>
            last := hash;
        }
        number := number + 1;
      }
      ReadsLinked(cfg, view, backendOk, first, cfg.size, lastHead);
      return Some(last);
    }

    /** Back under the lock: commit the section if its base is still stored, or give up until notified. */
    method FinishSection(w: World, section: nat, oldHead: Hash, result: Option<Hash>)
      requires cfg.size > 0
      modifies this
      ensures State() == FinishTask(cfg, w, old(State()), section, oldHead, result)
    {
      if result.Some? && (section == 0 || oldHead == SectionHead(State(), section - 1)) {
        heads := heads[section := result.value];
        SetValidSections(section + 1);
      } else {
        VerifyLast(w);
        known := stored;
      }
    }

    /** One turn of the update loop: verify, process outside the lock, commit or give up. */
    method TakeTurn(w: World, resetOk: bool, backendOk: nat -> bool, commitOk: bool)
      requires cfg.size > 0
      modifies this
      ensures State() == Turn(cfg, w, old(State()), resetOk, backendOk, commitOk)
    {
      hide VerifyLastHead, ReadHeaders, FinishTask, AllGood, Back, LastBlock, SetValid, CanonicalHash;
      VerifyLast(w);
      var section := stored;
      var oldHead := if section > 0 then SectionHead(State(), section - 1) else NO_HASH;
      var result := ProcessSection(section, oldHead, Fixed(w), resetOk, backendOk, commitOk);
      FinishSection(w, section, oldHead, result);
    }

    /** A turn with nothing else happening stores one more canonical section, or leaves nothing to do. */
    method Update(w: World, resetOk: bool, backendOk: nat -> bool, commitOk: bool)
      requires IndexInv(cfg, State()) && CanonLinked(cfg, w) && known > stored
      modifies this
      ensures State() == Turn(cfg, w, old(State()), resetOk, backendOk, commitOk)
      ensures IndexInv(cfg, State()) && cp == old(cp)
      ensures stored > 0 && stored > cp ==> TopCanonical(cfg, w, State())
      ensures known == stored ||
              (known == old(known) && stored == VerifyLastHead(cfg, w, old(State())).stored + 1)
      ensures (&& Complete(cfg, w, old(known) * cfg.size) && OnCanonical(cfg, w, VerifyLastHead(cfg, w, old(State())))
               && resetOk && commitOk && forall b :: backendOk(b)) ==>
                known == old(known) && stored == VerifyLastHead(cfg, w, old(State())).stored + 1
                && OnCanonical(cfg, w, State())
    {
      hide IndexInv, VerifyLastHead, CanonLinked, Complete, TopCanonical, OnCanonical, Turn;
      InvSize(cfg, State());
      TurnKeeps(cfg, w, State(), resetOk, backendOk, commitOk);
      TakeTurn(w, resetOk, backendOk, commitOk);
    }

    /** The top head is stale: the next verification will roll back. */
    ghost predicate Stale(w: World)
      requires cfg.size > 0
      reads this
    {
      stored > 0 && stored > cp && !TopCanonical(cfg, w, State())
    }

    /**
     With no further head events and a fixed chain, rescheduling until nothing is left to do
     terminates, however the backend behaves, with stored at least known and all stored heads
     above the checkpoint canonical. If the chain is complete and the backend works, all sections
     that were known are stored in the end.
     */
    method UpdateUntilDone(w: World, resetOk: nat -> bool, backendOk: (nat, nat) -> bool, commitOk: nat -> bool)
      requires IndexInv(cfg, State()) && CanonLinked(cfg, w)
      modifies this
      ensures IndexInv(cfg, State()) && stored >= known && cp == old(cp)
      ensures old(known > stored) && cp < stored ==>
                forall s: nat :: s < stored && cp <= s + 1 ==> Canonical(cfg, w, State(), s)
      ensures Smooth(w, old(State()), resetOk, backendOk, commitOk) ==> known == old(known)
    {
      hide IndexInv, VerifyLastHead, CanonLinked, Canonical, Complete, OnCanonical;
      InvSize(cfg, State());
      ghost var smooth := Smooth(w, State(), resetOk, backendOk, commitOk);
      var turn: nat := 0;
      while known > stored
        invariant IndexInv(cfg, State()) && cp == old(cp)
        invariant turn > 0 ==> !Stale(w)
        invariant turn == 0 ==> State() == old(State())
        invariant smooth ==> known == old(known) && OnCanonical(cfg, w, VerifyLastHead(cfg, w, State()))
        decreases Stale(w), known - stored
      {
        var ok := (n: nat) => backendOk(turn, n);
        assert smooth ==> forall b: nat :: ok(b);
        VerifyFresh(w);
        Update(w, resetOk(turn), ok, commitOk(turn));
        if smooth {
          VerifyIdle(cfg, w, State());
        }
        turn := turn + 1;
      }
      forall s: nat | turn > 0 && s < stored && cp < stored && cp <= s + 1
        ensures Canonical(cfg, w, State(), s)
      {
        TopIs(w);
        CanonicalDown(cfg, w, State(), s, stored - 1);
      }
    }

    /** The chain is complete, the next section is built on it, and the backend never fails. */
    ghost predicate Smooth(w: World, ix: Index, resetOk: nat -> bool, backendOk: (nat, nat) -> bool,
                           commitOk: nat -> bool)
      requires cfg.size > 0
    {
      && Complete(cfg, w, ix.known * cfg.size) && OnCanonical(cfg, w, VerifyLastHead(cfg, w, ix))
      && (forall t: nat :: resetOk(t) && commitOk(t)) && forall t: nat, b: nat :: backendOk(t, b)
    }

    lemma VerifyFresh(w: World)
      requires cfg.size > 0
      ensures !Stale(w) ==> VerifyLastHead(cfg, w, State()) == State()
    {
    }

    lemma TopIs(w: World)
      requires cfg.size > 0 && stored > 0 && stored > cp && !Stale(w)
      ensures Canonical(cfg, w, State(), stored - 1)
    {
    }
  }
}

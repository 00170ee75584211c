/**
 Compatibility of a stored chain configuration with a new one: forks that the chain has already
 passed must not be rescheduled, and otherwise the chain has to be rewound to before the lowest
 conflict, which is searched by checking again at each conflict's rewind point.
 */
module ConfigCompat {
  import opened Machine
  import opened Wrappers

  /** A block number that may be absent. */
  type Number = Option<int>

  datatype ChainConfig = ChainConfig(
    chainId: Number, daoSupport: bool,
    homestead: Number, dao: Number, eip150: Number, eip155: Number, eip158: Number,
    byzantium: Number, constantinople: Number, petersburg: Number, istanbul: Number, muirGlacier: Number,
    berlin: Number, london: Number, arrowGlacier: Number, merge: Number)

  predicate IsForked(s: Number, head: nat) { s.Some? && s.value <= head }

  predicate ForkIncompatible(s1: Number, s2: Number, head: nat) {
    (IsForked(s1, head) || IsForked(s2, head)) && s1 != s2
  }

  /** The earlier of two blocks, an absent one being never. */
  function Earlier(stored: Number, new_: Number): Number {
    if stored.None? then new_
    else if new_.None? || stored.value < new_.value then stored
    else new_
  }

  /** The block before the earlier one, as a 64-bit word. */
  function RewindTo(stored: Number, new_: Number): (r: nat)
    ensures r < TWO64
  {
    var rew := Earlier(stored, new_);
    if rew.None? || rew.value <= 0 then 0 else (rew.value % TWO64 + TWO64 - 1) % TWO64
  }

  /**
   One comparison: of a fork's blocks; of a setting that is compared at every head because its
   fork counts as active everywhere; or of a fork that may also move onto a prior fork's block.
   */
  datatype Check =
    | Fork(what: string, stored: Number, new_: Number)
    | Setting(what: string, stored: Number, new_: Number, differs: bool)
    | LateFork(what: string, stored: Number, new_: Number, prior: Number)

  datatype CompatError = CompatError(what: string, stored: Number, new_: Number, rewindTo: nat)

  predicate Fires(c: Check, head: nat) {
    match c
    case Fork(_, s, n) => ForkIncompatible(s, n, head)
    case Setting(_, _, _, differs) => differs
    case LateFork(_, s, n, prior) => ForkIncompatible(s, n, head) && ForkIncompatible(prior, n, head)
  }

  function NewError(what: string, stored: Number, new_: Number): CompatError {
    CompatError(what, stored, new_, RewindTo(stored, new_))
  }

  function ErrorOf(c: Check): CompatError {
    NewError(c.what, c.stored, c.new_)
  }

  /** The comparisons in the order they are made. */
  function Checks(c: ChainConfig, n: ChainConfig): seq<Check> {
    [Fork("Homestead fork block", c.homestead, n.homestead),
     Fork("DAO fork block", c.dao, n.dao),
     Setting("DAO fork support flag", c.dao, n.dao, c.daoSupport != n.daoSupport),
     Fork("EIP150 fork block", c.eip150, n.eip150),
     Fork("EIP155 fork block", c.eip155, n.eip155),
     Fork("EIP158 fork block", c.eip158, n.eip158),
     Setting("EIP158 chain ID", c.eip158, n.eip158, c.chainId != n.chainId),
     Fork("Byzantium fork block", c.byzantium, n.byzantium),
     Fork("Constantinople fork block", c.constantinople, n.constantinople),
     LateFork("Petersburg fork block", c.petersburg, n.petersburg, c.constantinople),
     Fork("Istanbul fork block", c.istanbul, n.istanbul),
     Fork("Muir Glacier fork block", c.muirGlacier, n.muirGlacier),
     Fork("Berlin fork block", c.berlin, n.berlin),
     Fork("London fork block", c.london, n.london),
     Fork("Arrow Glacier fork block", c.arrowGlacier, n.arrowGlacier),
     Fork("Merge Start fork block", c.merge, n.merge)]
  }

  /** Compares two configurations at a head: the first conflict. */
  function CheckOnce(c: ChainConfig, n: ChainConfig, head: nat): Option<CompatError> {
    if ForkIncompatible(c.homestead, n.homestead, head) then
      Some(NewError("Homestead fork block", c.homestead, n.homestead))
    else if ForkIncompatible(c.dao, n.dao, head) then
      Some(NewError("DAO fork block", c.dao, n.dao))
    else if c.daoSupport != n.daoSupport then
      Some(NewError("DAO fork support flag", c.dao, n.dao))
    else if ForkIncompatible(c.eip150, n.eip150, head) then
      Some(NewError("EIP150 fork block", c.eip150, n.eip150))
    else if ForkIncompatible(c.eip155, n.eip155, head) then
      Some(NewError("EIP155 fork block", c.eip155, n.eip155))
    else if ForkIncompatible(c.eip158, n.eip158, head) then
      Some(NewError("EIP158 fork block", c.eip158, n.eip158))
    else if c.chainId != n.chainId then
      Some(NewError("EIP158 chain ID", c.eip158, n.eip158))
    else if ForkIncompatible(c.byzantium, n.byzantium, head) then
      Some(NewError("Byzantium fork block", c.byzantium, n.byzantium))
    else if ForkIncompatible(c.constantinople, n.constantinople, head) then
      Some(NewError("Constantinople fork block", c.constantinople, n.constantinople))
    else if ForkIncompatible(c.petersburg, n.petersburg, head)
            // Petersburg may be set in the past where it is Constantinople
            && ForkIncompatible(c.constantinople, n.petersburg, head) then
      Some(NewError("Petersburg fork block", c.petersburg, n.petersburg))
    else if ForkIncompatible(c.istanbul, n.istanbul, head) then
      Some(NewError("Istanbul fork block", c.istanbul, n.istanbul))
    else if ForkIncompatible(c.muirGlacier, n.muirGlacier, head) then
      Some(NewError("Muir Glacier fork block", c.muirGlacier, n.muirGlacier))
    else if ForkIncompatible(c.berlin, n.berlin, head) then
      Some(NewError("Berlin fork block", c.berlin, n.berlin))
    else if ForkIncompatible(c.london, n.london, head) then
      Some(NewError("London fork block", c.london, n.london))
    else if ForkIncompatible(c.arrowGlacier, n.arrowGlacier, head) then
      Some(NewError("Arrow Glacier fork block", c.arrowGlacier, n.arrowGlacier))
    else if ForkIncompatible(c.merge, n.merge, head) then
      Some(NewError("Merge Start fork block", c.merge, n.merge))
    else None
  }

  /** The first conflict of a list of comparisons at a head. */
  function First(cs: seq<Check>, head: nat): Option<CompatError> {
    if cs == [] then None
    else if Fires(cs[0], head) then Some(ErrorOf(cs[0]))
    else First(cs[1..], head)
  }

  /** No setting differs. */
  predicate SameSettings(cs: seq<Check>) {
    forall i :: 0 <= i < |cs| && cs[i].Setting? ==> !cs[i].differs
  }

  /** The comparisons before the first setting that differs. */
  function Before(cs: seq<Check>): seq<Check> {
    if cs == [] || (cs[0].Setting? && cs[0].differs) then [] else [cs[0]] + Before(cs[1..])
  }

  /** The error of the first setting that differs. */
  function SettingError(cs: seq<Check>): Option<CompatError> {
    if cs == [] then None
    else if cs[0].Setting? && cs[0].differs then Some(ErrorOf(cs[0]))
    else SettingError(cs[1..])
  }

  // ---------- one comparison ----------

  /** A conflict of forks rewinds to below the head, unless the fork is at or before the genesis block. */
  lemma ForkRewinds(c: Check, head: nat)
    requires head < TWO64 && Fires(c, head) && !c.Setting?
    ensures if Earlier(c.stored, c.new_).value <= 0 then ErrorOf(c).rewindTo == 0
            else ErrorOf(c).rewindTo == Earlier(c.stored, c.new_).value - 1 < head
    ensures Earlier(c.stored, c.new_).Some?
  {
  }

  /** At its rewind point a conflict of forks is gone, or the point is 0. */
  lemma ForkGone(c: Check, head: nat)
    requires head < TWO64 && Fires(c, head) && !c.Setting?
    ensures ErrorOf(c).rewindTo < head || head == ErrorOf(c).rewindTo == 0
    ensures ErrorOf(c).rewindTo == 0 || !Fires(c, ErrorOf(c).rewindTo)
  {
    ForkRewinds(c, head);
  }

  /** A conflict at a head is one at every higher head. */
  lemma FiresUp(c: Check, low: nat, high: nat)
    requires low <= high && Fires(c, low)
    ensures Fires(c, high)
  {
  }

  /** a is scheduled, and no later than b. */
  predicate NoLater(a: Number, b: Number) { a.Some? && (b.None? || a.value <= b.value) }

  /** A fork that may move onto a prior one: it is moved to an earlier block, or the prior one is not after it. */
  predicate Tight(c: Check) {
    c.LateFork? ==> NoLater(c.new_, c.stored) || NoLater(c.prior, c.stored)
  }

  /** A conflict of forks after genesis is there already one block above its rewind point, exactly if it is tight. */
  lemma ForkTightIff(c: Check, head: nat)
    requires head < TWO64 && Fires(c, head) && !c.Setting?
    ensures Earlier(c.stored, c.new_).Some?
    ensures Earlier(c.stored, c.new_).value > 0 ==> (Fires(c, ErrorOf(c).rewindTo + 1) <==> Tight(c))
    ensures c.Fork? ==> Fires(c, ErrorOf(c).rewindTo + 1)
  {
    ForkRewinds(c, head);
  }

  /** The lowest head at which a fork that may move onto a prior one is in conflict, if it ever is. */
  function Onset(c: Check): nat
    requires c.LateFork?
  {
    var own, prior := Earlier(c.stored, c.new_), Earlier(c.prior, c.new_);
    var a := if own.Some? && own.value > 0 then own.value else 0;
    var b := if prior.Some? && prior.value > 0 then prior.value else 0;
    if a < b then b else a
  }

  lemma OnsetIs(c: Check, head: nat, h: nat)
    requires c.LateFork? && Fires(c, head)
    ensures Fires(c, h) <==> h >= Onset(c)
  {
  }

  // ---------- all comparisons ----------

  lemma {:induction false} FirstUp(cs: seq<Check>, low: nat, high: nat)
    requires low <= high && First(cs, low).Some?
    ensures First(cs, high).Some?
    decreases |cs|
  {
    hide Fires;
    if Fires(cs[0], low) {
      FiresUp(cs[0], low, high);
    } else {
      FirstUp(cs[1..], low, high);
    }
  }

  /** The first conflict is that of a comparison that fires where nothing before it does. */
  lemma {:induction false} FirstIndex(cs: seq<Check>, head: nat) returns (i: nat)
    requires First(cs, head).Some?
    ensures i < |cs| && Fires(cs[i], head) && First(cs, head).value == ErrorOf(cs[i])
    ensures forall k :: 0 <= k < i ==> !Fires(cs[k], head)
    decreases |cs|
  {
    hide Fires, ErrorOf;
    if Fires(cs[0], head) {
      i := 0;
    } else {
      i := FirstIndex(cs[1..], head);
      i := i + 1;
    }
  }

  lemma {:induction false} FiresFirst(cs: seq<Check>, head: nat, i: nat)
    requires i < |cs| && Fires(cs[i], head)
    ensures First(cs, head).Some?
    decreases |cs|
  {
    hide Fires, ErrorOf;
    if !Fires(cs[0], head) {
      FiresFirst(cs[1..], head, i - 1);
    }
  }

  /** A differing setting is reported where nothing before it is. */
  lemma {:induction false} FirstSplit(cs: seq<Check>, head: nat)
    ensures SameSettings(Before(cs)) && (SettingError(cs).None? <==> SameSettings(cs))
    ensures First(cs, head)
            == if First(Before(cs), head).Some? then First(Before(cs), head) else SettingError(cs)
    decreases |cs|
  {
    hide ErrorOf, ForkIncompatible;
    if cs != [] {
      FirstSplit(cs[1..], head);
      if !(cs[0].Setting? && cs[0].differs) {
        assert Before(cs)[1..] == Before(cs[1..]);
        assert forall i :: 0 < i < |cs| ==> cs[i] == cs[1..][i - 1];
        assert forall i :: 0 <= i < |cs| - 1 ==> cs[1..][i] == cs[i + 1];
      }
    }
  }

  /** If no setting differs a conflict rewinds to below the head, or to 0. */
  lemma FirstDescends(cs: seq<Check>, head: nat)
    requires head < TWO64 && SameSettings(cs) && First(cs, head).Some?
    ensures var r := First(cs, head).value.rewindTo; r < head || head == r == 0
  {
    hide First, ErrorOf, ForkIncompatible;
    var i := FirstIndex(cs, head);
    ForkGone(cs[i], head);
  }

  lemma FirstBounded(cs: seq<Check>, head: nat)
    ensures First(cs, head).Some? ==> First(cs, head).value.rewindTo < TWO64
  {
    hide First;
    if First(cs, head).Some? {
      var i := FirstIndex(cs, head);
    }
  }

  // ---------- when the search ends ----------

  /** The i-th head that is checked. */
  function HeadAt(cs: seq<Check>, height: nat, i: nat): nat {
    if i == 0 then height
    else
      var h := HeadAt(cs, height, i - 1);
      match First(cs, h)
      case None => h
      case Some(e) => e.rewindTo
  }

  /** The search ends at the i-th head: no conflict, or one that rewinds to this head again. */
  predicate EndsAt(cs: seq<Check>, height: nat, i: nat) {
    var h := HeadAt(cs, height, i);
    match First(cs, h)
    case None => true
    case Some(e) => i > 0 && e.rewindTo == h
  }

  /**
   What decides it: no setting differs, or the forks compared before the first such setting have
   no conflict at the setting's own rewind point, or they have one already at the genesis block.
   */
  predicate Settles(cs: seq<Check>) {
    match SettingError(cs)
    case None => true
    case Some(e) => First(Before(cs), e.rewindTo).None? || First(Before(cs), 0).Some?
  }

  /** How far the search is from its end. */
  function Distance(cs: seq<Check>, h: nat): nat {
    if SettingError(cs).None? || First(Before(cs), 0).Some? then h
    else if h == SettingError(cs).value.rewindTo then 0
    else if First(Before(cs), h).Some? then 1 + h
    else 1
  }

  lemma DistanceDrops(cs: seq<Check>, h: nat)
    requires h < TWO64 && Settles(cs) && First(cs, h).Some? && First(cs, h).value.rewindTo != h
    ensures Distance(cs, First(cs, h).value.rewindTo) < Distance(cs, h)
  {
    hide First, Before, SettingError;
    FirstSplit(cs, h);
    if First(Before(cs), 0).Some? {
      FirstUp(Before(cs), 0, h);
    }
    if First(Before(cs), h).Some? {
      FirstDescends(Before(cs), h);
    }
  }

  lemma {:induction false} HeadShift(cs: seq<Check>, height: nat, i: nat)
    requires First(cs, height).Some?
    ensures HeadAt(cs, height, i + 1) == HeadAt(cs, First(cs, height).value.rewindTo, i)
  {
    hide First;
    if i > 0 {
      HeadShift(cs, height, i - 1);
    }
  }

  lemma {:induction false} SettlesEnds(cs: seq<Check>, height: nat) returns (i: nat)
    requires height < TWO64 && Settles(cs)
    ensures EndsAt(cs, height, i)
    decreases Distance(cs, height)
  {
    hide First, Before, SettingError, Distance, Settles;
    if First(cs, height).None? {
      i := 0;
    } else {
      var r := First(cs, height).value.rewindTo;
      FirstBounded(cs, height);
      if r == height {
        i := 1;
        HeadShift(cs, height, 0);
      } else {
        DistanceDrops(cs, height);
        i := SettlesEnds(cs, r);
        HeadShift(cs, height, i);
        i := i + 1;
      }
    }
  }

  lemma {:induction false} HeadBounded(cs: seq<Check>, height: nat, i: nat)
    requires height < TWO64
    ensures HeadAt(cs, height, i) < TWO64
  {
    hide First;
    if i > 0 {
      HeadBounded(cs, height, i - 1);
      FirstBounded(cs, HeadAt(cs, height, i - 1));
    }
  }

  /**
   The search ends exactly under that condition, at whatever height it starts; otherwise it goes
   round between a fork's rewind point and the setting's forever.
   */
  lemma SearchEndsIff(cs: seq<Check>, height: nat)
    requires height < TWO64
    ensures (exists i: nat :: EndsAt(cs, height, i)) <==> Settles(cs)
  {
    hide First, Before, SettingError, HeadAt;
    if Settles(cs) {
      var i := SettlesEnds(cs, height);
    } else {
      forall i: nat
        ensures !EndsAt(cs, height, i)
      {
        var h := HeadAt(cs, height, i);
        HeadBounded(cs, height, i);
        FirstSplit(cs, h);
        if First(Before(cs), h).Some? {
          FirstDescends(Before(cs), h);
        }
      }
    }
  }

  // ---------- the search ----------

  /** Every head up to this one is without conflict. */
  ghost predicate CompatibleUpTo(cs: seq<Check>, head: nat) {
    forall h: nat :: h <= head ==> First(cs, h).None?
  }

  /** Every head above this one has a conflict. */
  ghost predicate ConflictsAbove(cs: seq<Check>, head: nat) {
    forall h: nat :: h > head ==> First(cs, h).Some?
  }

  /** Reported by a comparison that is in conflict at the given height. */
  ghost predicate Reported(cs: seq<Check>, height: nat, e: CompatError) {
    exists i :: 0 <= i < |cs| && Fires(cs[i], height) && e == ErrorOf(cs[i])
  }

  /** All heads above one are in conflict exactly if the next one is. */
  lemma AboveIff(cs: seq<Check>, head: nat)
    ensures ConflictsAbove(cs, head) <==> First(cs, head + 1).Some?
  {
    hide First;
    if First(cs, head + 1).Some? {
      forall h: nat | h > head
        ensures First(cs, h).Some?
      {
        FirstUp(cs, head + 1, h);
      }
    }
  }

  /** A conflict found on the way down is one at the height the search started from. */
  lemma ConflictFound(cs: seq<Check>, height: nat, head: nat)
    requires head <= height && First(cs, head).Some?
    ensures Reported(cs, height, First(cs, head).value)
  {
    hide First, ErrorOf, Fires;
    var i := FirstIndex(cs, head);
    FiresUp(cs[i], head, height);
  }

  lemma SettingQuiet(cs: seq<Check>, i: nat, head: nat)
    requires i < |cs| && SameSettings(cs) && Fires(cs[i], head)
    ensures !cs[i].Setting?
  {
  }

  lemma NoneDown(cs: seq<Check>, head: nat)
    requires First(cs, head).None?
    ensures CompatibleUpTo(cs, head)
  {
    hide First;
    forall h: nat | h <= head
      ensures First(cs, h).None?
    {
      if First(cs, h).Some? {
        FirstUp(cs, h, head);
      }
    }
  }

  /** Where the search ends from a head on, if no setting differs. */
  function RewoundTo(cs: seq<Check>, head: nat): nat
    requires head < TWO64 && SameSettings(cs)
    decreases head
  {
    match First(cs, head)
    case None => head
    case Some(e) =>
      FirstDescends(cs, head);
      if e.rewindTo >= head then head else RewoundTo(cs, e.rewindTo)
  }

  // ---------- whether the search ends at the highest compatible head ----------

  /** The j-th comparison is the only one of a fork that may move onto a prior one. */
  ghost predicate OneLate(cs: seq<Check>, j: nat) {
    j < |cs| && cs[j].LateFork? && forall i :: 0 <= i < |cs| && i != j ==> !cs[i].LateFork?
  }

  /**
   The search passes over compatible heads: the late fork is in conflict at the height, no
   comparison before it is where its own conflict begins, and right above its rewind point
   nothing is in conflict yet.
   */
  predicate PassesOver(cs: seq<Check>, j: nat, height: nat)
    requires j < |cs| && cs[j].LateFork?
  {
    && Fires(cs[j], height)
    && First(cs[..j], Onset(cs[j])).None?
    && First(cs, ErrorOf(cs[j]).rewindTo + 1).None?
  }

  /** A comparison before the late fork that is not in conflict where the late one's begins, begins later. */
  lemma LateFirst(cs: seq<Check>, j: nat, i: nat, head: nat)
    requires head < TWO64 && i < j && OneLate(cs, j) && SameSettings(cs) && Fires(cs[i], head) && Fires(cs[j], head)
    requires First(cs[..j], Onset(cs[j])).None?
    ensures Fires(cs[j], ErrorOf(cs[i]).rewindTo)
  {
    hide First;
    var q := Onset(cs[j]);
    assert cs[..j][i] == cs[i];
    if Fires(cs[i], q) {
      FiresFirst(cs[..j], q, i);
    }
    OnsetIs(cs[j], head, ErrorOf(cs[i]).rewindTo);
    OnsetIs(cs[j], head, head);
    ForkRewinds(cs[i], head);
  }

  /** If the late fork is the first in conflict, nothing before it is where its conflict begins. */
  lemma NoneBefore(cs: seq<Check>, j: nat, head: nat)
    requires OneLate(cs, j) && Fires(cs[j], head) && First(cs[..j], head).None?
    ensures First(cs[..j], Onset(cs[j])).None?
  {
    hide First, Fires;
    OnsetIs(cs[j], head, head);
    if First(cs[..j], Onset(cs[j])).Some? {
      FirstUp(cs[..j], Onset(cs[j]), head);
    }
  }

  lemma {:induction false} NoneIfQuiet(cs: seq<Check>, head: nat)
    requires forall k :: 0 <= k < |cs| ==> !Fires(cs[k], head)
    ensures First(cs, head).None?
    decreases |cs|
  {
    hide Fires;
    if cs != [] {
      NoneIfQuiet(cs[1..], head);
    }
  }

  /**
   Every head above the point where the search ends is in conflict, that is the search finds the
   highest compatible head, exactly if it does not pass over any.
   */
  lemma {:induction false} HighestIff(cs: seq<Check>, j: nat, head: nat)
    requires head < TWO64 && OneLate(cs, j) && SameSettings(cs) && First(cs, head).Some?
    ensures ConflictsAbove(cs, RewoundTo(cs, head)) <==> !PassesOver(cs, j, head)
    decreases head
  {
    hide First, Fires, ErrorOf, SameSettings, ConflictsAbove, Onset;
    var i := FirstIndex(cs, head);
    var x := ErrorOf(cs[i]).rewindTo;
    SettingQuiet(cs, i, head);
    FirstDescends(cs, head);
    AboveIff(cs, x);
    ForkTightIff(cs[i], head);
    if Fires(cs[i], x + 1) {
      FiresFirst(cs, x + 1, i);
    }
    if i == j {
      assert First(cs[..j], head).None? by {
        NoneIfQuiet(cs[..j], head);
      }
      NoneBefore(cs, j, head);
    } else if i < j && Fires(cs[j], head) && First(cs[..j], Onset(cs[j])).None? {
      LateFirst(cs, j, i, head);
      FiresFirst(cs, x, j);
    }
    if x < head {
      if First(cs, x).Some? {
        HighestIff(cs, j, x);
        FirstUp(cs, x, x + 1);
        PassesSame(cs, j, i, x, head);
      }
    } else {
      FiresUp(cs[i], 0, 1);
      FiresFirst(cs, 1, i);
      if i < j {
        AtGenesis(cs, j, i);
      }
    }
  }

  lemma PassesSame(cs: seq<Check>, j: nat, i: nat, x: nat, head: nat)
    requires OneLate(cs, j) && i < |cs| && x <= head
    requires i > j ==> !Fires(cs[j], head)
    requires i == j ==> First(cs, ErrorOf(cs[j]).rewindTo + 1).Some?
    requires i < j && Fires(cs[j], head) && First(cs[..j], Onset(cs[j])).None? ==> Fires(cs[j], x)
    ensures PassesOver(cs, j, head) <==> PassesOver(cs, j, x)
  {
    hide First, Fires, ErrorOf, Onset;
    if Fires(cs[j], x) {
      FiresUp(cs[j], x, head);
    }
  }

  lemma AtGenesis(cs: seq<Check>, j: nat, i: nat)
    requires OneLate(cs, j) && i < j && Fires(cs[i], 0)
    ensures First(cs[..j], Onset(cs[j])).Some?
  {
    hide First, Fires, Onset;
    FiresUp(cs[i], 0, Onset(cs[j]));
    assert cs[..j][i] == cs[i];
    FiresFirst(cs[..j], Onset(cs[j]), i);
  }

  /** A late fork after genesis that is tight passes over nothing. */
  lemma TightPassesNothing(cs: seq<Check>, j: nat, height: nat)
    requires height < TWO64 && OneLate(cs, j) && Tight(cs[j])
    requires Earlier(cs[j].stored, cs[j].new_).Some? && Earlier(cs[j].stored, cs[j].new_).value > 0
    ensures !PassesOver(cs, j, height)
  {
    hide First, Fires, ErrorOf, Onset, Tight;
    if Fires(cs[j], height) {
      ForkTightIff(cs[j], height);
      FiresFirst(cs, ErrorOf(cs[j]).rewindTo + 1, j);
    }
  }

  // ---------- configurations ----------

  lemma SettingsOf(c: ChainConfig, n: ChainConfig)
    ensures SameSettings(Checks(c, n)) <==> c.daoSupport == n.daoSupport && c.chainId == n.chainId
  {
    var cs := Checks(c, n);
    assert cs[2].Setting? && cs[6].Setting?;
    assert forall i :: 0 <= i < |cs| && cs[i].Setting? ==> i == 2 || i == 6;
  }

  /** The fork is not reached yet. */
  predicate Ahead(block: Number, head: nat) { block.None? || block.value > head }

  /** The fork is at the same block in both, or ahead in both. */
  predicate Agree(stored: Number, new_: Number, head: nat) {
    stored == new_ || (Ahead(stored, head) && Ahead(new_, head))
  }

  /** What compatible means, field by field; Petersburg may also agree with the stored Constantinople. */
  predicate Compatible(c: ChainConfig, n: ChainConfig, head: nat) {
    && c.daoSupport == n.daoSupport && c.chainId == n.chainId
    && Agree(c.homestead, n.homestead, head) && Agree(c.dao, n.dao, head)
    && Agree(c.eip150, n.eip150, head) && Agree(c.eip155, n.eip155, head)
    && Agree(c.eip158, n.eip158, head) && Agree(c.byzantium, n.byzantium, head)
    && Agree(c.constantinople, n.constantinople, head) && Agree(c.istanbul, n.istanbul, head)
    && Agree(c.muirGlacier, n.muirGlacier, head) && Agree(c.berlin, n.berlin, head)
    && Agree(c.london, n.london, head) && Agree(c.arrowGlacier, n.arrowGlacier, head)
    && Agree(c.merge, n.merge, head)
    && (Agree(c.petersburg, n.petersburg, head) || Agree(c.constantinople, n.petersburg, head))
  }

  predicate Names(e: CompatError, what: string, stored: Number, new_: Number) {
    e.what == what && e.stored == stored && e.new_ == new_
  }

  predicate Moved(e: CompatError, what: string, stored: Number, new_: Number, head: nat) {
    Names(e, what, stored, new_) && !Agree(stored, new_, head)
  }

  /** The error names a field on which the configurations do not agree, with the field's two blocks. */
  predicate Blames(c: ChainConfig, n: ChainConfig, head: nat, e: CompatError) {
    || Moved(e, "Homestead fork block", c.homestead, n.homestead, head)
    || Moved(e, "DAO fork block", c.dao, n.dao, head)
    || (Names(e, "DAO fork support flag", c.dao, n.dao) && c.daoSupport != n.daoSupport)
    || Moved(e, "EIP150 fork block", c.eip150, n.eip150, head)
    || Moved(e, "EIP155 fork block", c.eip155, n.eip155, head)
    || Moved(e, "EIP158 fork block", c.eip158, n.eip158, head)
    || (Names(e, "EIP158 chain ID", c.eip158, n.eip158) && c.chainId != n.chainId)
    || Moved(e, "Byzantium fork block", c.byzantium, n.byzantium, head)
    || Moved(e, "Constantinople fork block", c.constantinople, n.constantinople, head)
    || (Moved(e, "Petersburg fork block", c.petersburg, n.petersburg, head)
        && !Agree(c.constantinople, n.petersburg, head))
    || Moved(e, "Istanbul fork block", c.istanbul, n.istanbul, head)
    || Moved(e, "Muir Glacier fork block", c.muirGlacier, n.muirGlacier, head)
    || Moved(e, "Berlin fork block", c.berlin, n.berlin, head)
    || Moved(e, "London fork block", c.london, n.london, head)
    || Moved(e, "Arrow Glacier fork block", c.arrowGlacier, n.arrowGlacier, head)
    || Moved(e, "Merge Start fork block", c.merge, n.merge, head)
  }

  /** The rewind point is one below the earlier of the two blocks, or 0 if that is not after genesis or absent. */
  ghost predicate OneBelow(e: CompatError) {
    if e.stored.None? && e.new_.None? then e.rewindTo == 0
    else
      exists first: int ::
        && (e.stored == Some(first) || e.new_ == Some(first))
        && (e.stored.Some? ==> first <= e.stored.value) && (e.new_.Some? ==> first <= e.new_.value)
        && e.rewindTo == if first <= 0 then 0 else (first - 1) % TWO64
  }

  lemma ForkAgrees(stored: Number, new_: Number, head: nat)
    ensures ForkIncompatible(stored, new_, head) <==> !Agree(stored, new_, head)
  {
  }

  lemma {:induction false} QuietIff(cs: seq<Check>, head: nat)
    ensures First(cs, head).None? <==> forall i :: 0 <= i < |cs| ==> !Fires(cs[i], head)
  {
    hide Fires, First;
    if First(cs, head).Some? {
      var i := FirstIndex(cs, head);
    } else {
      forall i | 0 <= i < |cs|
        ensures !Fires(cs[i], head)
      {
        if Fires(cs[i], head) {
          FiresFirst(cs, head, i);
        }
      }
    }
  }

  lemma AllAgree(head: nat)
    ensures forall s, n :: ForkIncompatible(s, n, head) <==> !Agree(s, n, head)
  {
    forall s, n {
      ForkAgrees(s, n, head);
    }
  }

  /** Nothing is in conflict at a head exactly if the configurations are compatible there. */
  lemma CompatibleIff(c: ChainConfig, n: ChainConfig, head: nat)
    ensures First(Checks(c, n), head).None? <==> Compatible(c, n, head)
  {
    hide ForkIncompatible, Agree, First, ErrorOf;
    AllAgree(head);
    var cs := Checks(c, n);
    QuietIff(cs, head);
    if First(cs, head).None? {
      assert forall i :: 0 <= i < |cs| ==> !Fires(cs[i], head);
      assert !Fires(cs[0], head) && !Fires(cs[1], head) && !Fires(cs[2], head) && !Fires(cs[3], head);
      assert !Fires(cs[4], head) && !Fires(cs[5], head) && !Fires(cs[6], head) && !Fires(cs[7], head);
      assert !Fires(cs[8], head) && !Fires(cs[9], head) && !Fires(cs[10], head) && !Fires(cs[11], head);
      assert !Fires(cs[12], head) && !Fires(cs[13], head) && !Fires(cs[14], head) && !Fires(cs[15], head);
    }
  }

  /** Comparing field by field is going through the list. */
  lemma OnceIsFirst(c: ChainConfig, n: ChainConfig, head: nat)
    ensures CheckOnce(c, n, head) == First(Checks(c, n), head)
  {
    hide ForkIncompatible, NewError, First;
    var cs := Checks(c, n);
    assert cs[0..] == cs;
    FirstFour(cs, 0, head);
    FirstFour(cs, 4, head);
    FirstFour(cs, 8, head);
    FirstFour(cs, 12, head);
    assert First(cs[16..], head) == None by {
      QuietIff(cs[16..], head);
    }
  }

  lemma FirstStep(cs: seq<Check>, k: nat, head: nat)
    requires k < |cs|
    ensures First(cs[k..], head) == if Fires(cs[k], head) then Some(ErrorOf(cs[k])) else First(cs[k + 1..], head)
  {
    assert cs[k..][1..] == cs[k + 1..];
  }

  /** Four comparisons of a list. */
  lemma FirstFour(cs: seq<Check>, k: nat, head: nat)
    requires k + 4 <= |cs|
    ensures First(cs[k..], head)
            == if Fires(cs[k], head) then Some(ErrorOf(cs[k]))
               else if Fires(cs[k + 1], head) then Some(ErrorOf(cs[k + 1]))
               else if Fires(cs[k + 2], head) then Some(ErrorOf(cs[k + 2]))
               else if Fires(cs[k + 3], head) then Some(ErrorOf(cs[k + 3]))
               else First(cs[k + 4..], head)
  {
    hide First;
    FirstStep(cs, k, head);
    FirstStep(cs, k + 1, head);
    FirstStep(cs, k + 2, head);
    FirstStep(cs, k + 3, head);
  }

  lemma RewindsOneBelow(what: string, stored: Number, new_: Number)
    ensures OneBelow(NewError(what, stored, new_))
  {
    var first := Earlier(stored, new_);
    if first.Some? {
      assert first.value > 0 ==> (first.value % TWO64 + TWO64 - 1) % TWO64 == (first.value - 1) % TWO64;
      assert stored == Some(first.value) || new_ == Some(first.value);
    }
  }

  /** A reported conflict names a field in conflict, and rewinds to one below its earlier block. */
  lemma ReportBlames(c: ChainConfig, n: ChainConfig, head: nat, e: CompatError)
    requires Reported(Checks(c, n), head, e)
    ensures Blames(c, n, head, e) && OneBelow(e)
  {
    hide Blames, OneBelow, Checks, Fires, NewError;
    var cs := Checks(c, n);
    var i :| 0 <= i < |cs| && Fires(cs[i], head) && e == ErrorOf(cs[i]);
    RewindsOneBelow(cs[i].what, cs[i].stored, cs[i].new_);
    CheckBlames(c, n, head, i);
  }

  lemma CheckBlames(c: ChainConfig, n: ChainConfig, head: nat, i: nat)
    requires i < |Checks(c, n)| && Fires(Checks(c, n)[i], head)
    ensures Blames(c, n, head, ErrorOf(Checks(c, n)[i]))
  {
    hide ForkIncompatible, Agree, RewindTo;
    AllAgree(head);
  }

  /** Petersburg's place among the comparisons. */
  const PETERSBURG: nat := 9

  lemma PetersburgIsLate(c: ChainConfig, n: ChainConfig)
    ensures OneLate(Checks(c, n), PETERSBURG)
    ensures Checks(c, n)[PETERSBURG] == LateFork("Petersburg fork block", c.petersburg, n.petersburg, c.constantinople)
  {
  }

  lemma SameSettingsSettle(cs: seq<Check>)
    requires SameSettings(cs)
    ensures Settles(cs)
  {
    FirstSplit(cs, 0);
  }

  /** With the same DAO support and chain ID the comparison ends at every height. */
  lemma SameSettingsEnd(c: ChainConfig, n: ChainConfig, height: nat)
    requires height < TWO64 && c.daoSupport == n.daoSupport && c.chainId == n.chainId
    ensures Settles(Checks(c, n)) && exists i: nat :: EndsAt(Checks(c, n), height, i)
  {
    hide EndsAt, Checks, Settles, SameSettings;
    SettingsOf(c, n);
    SameSettingsSettle(Checks(c, n));
    SearchEndsIff(Checks(c, n), height);
  }

  /** Searches for the lowest conflict. */
  method LowestConflict(c: ChainConfig, n: ChainConfig, height: nat) returns (last: Option<CompatError>)
    requires height < TWO64 && Settles(Checks(c, n))
    ensures var cs := Checks(c, n);
            && (last.None? <==> First(cs, height).None?)
            && (last.Some? ==> exists h: nat :: Reported(cs, h, last.value))
            && (last.Some? && SameSettings(cs) ==>
                  && last.value.rewindTo == RewoundTo(cs, height) <= height && Reported(cs, height, last.value)
                  && (last.value.rewindTo == 0 || CompatibleUpTo(cs, last.value.rewindTo)))
            && (last.Some? && !SameSettings(cs) ==>
                  First(cs, last.value.rewindTo).Some?
                  && First(cs, last.value.rewindTo).value.rewindTo == last.value.rewindTo)
  {
    hide First, Before, SettingError, Settles, Distance, CompatibleUpTo, Reported, SameSettings, Checks, CheckOnce;
    ghost var cs := Checks(c, n);
    FirstSplit(cs, height);
    var head := height;
    last := None;
    while true
      invariant head < TWO64 && (last.Some? ==> head == last.value.rewindTo && First(cs, height).Some?)
      invariant last.None? ==> head == height
      invariant SameSettings(cs) ==> head <= height && RewoundTo(cs, head) == RewoundTo(cs, height)
      invariant last.Some? ==> exists h: nat :: Reported(cs, h, last.value)
      invariant SameSettings(cs) && last.Some? ==> Reported(cs, height, last.value)
      decreases Distance(cs, head), last.None?
    {
      var err := CheckOnce(c, n, head);
      OnceIsFirst(c, n, head);
      if err.None? || (last.Some? && err.value.rewindTo == last.value.rewindTo) {
        break;
      }
      ConflictFound(cs, head, head);
      if SameSettings(cs) {
        ConflictFound(cs, height, head);
        FirstDescends(cs, head);
      }
      if err.value.rewindTo != head {
        DistanceDrops(cs, head);
      }
      FirstBounded(cs, head);
      last := err;
      head := err.value.rewindTo;
    }
    FirstSplit(cs, head);
    if First(cs, head).None? {
      NoneDown(cs, head);
    } else if SameSettings(cs) {
      FirstDescends(cs, head);
    }
  }

  /**
   Compares configurations at a height. Nothing is reported exactly if they are compatible there;
   otherwise a field in conflict, and one block below the earlier of its two blocks. With the same DAO
   support and chain ID the conflict is one at the height, the rewind point is 0 or every head up to
   it is compatible, and no higher head is, exactly if the search passes over none.
   */
  method CheckCompatible(c: ChainConfig, n: ChainConfig, height: nat) returns (last: Option<CompatError>)
    requires height < TWO64 && Settles(Checks(c, n))
    ensures last.None? <==> Compatible(c, n, height)
    ensures last.Some? ==> OneBelow(last.value) && exists h: nat :: Blames(c, n, h, last.value)
    ensures OneLate(Checks(c, n), PETERSBURG)
    ensures last.Some? && c.daoSupport == n.daoSupport && c.chainId == n.chainId ==>
              && last.value.rewindTo <= height && Blames(c, n, height, last.value)
              && (last.value.rewindTo == 0 || forall h: nat :: h <= last.value.rewindTo ==> Compatible(c, n, h))
              && ((forall h: nat :: h > last.value.rewindTo ==> !Compatible(c, n, h)) <==>
                  !PassesOver(Checks(c, n), PETERSBURG, height))
  {
    hide First, Settles, Reported, SameSettings, Checks, PassesOver, RewoundTo, Compatible, Blames, OneBelow;
    SettingsOf(c, n);
    PetersburgIsLate(c, n);
    last := LowestConflict(c, n, height);
    forall h: nat {
      CompatibleIff(c, n, h);
    }
    if last.Some? {
      ghost var h: nat :| Reported(Checks(c, n), h, last.value);
      ReportBlames(c, n, h, last.value);
      if SameSettings(Checks(c, n)) {
        ReportBlames(c, n, height, last.value);
        HighestIff(Checks(c, n), PETERSBURG, height);
      }
    }
  }

  /**
   For two configurations: at every height the search finds the highest compatible head, exactly
   if it does not pass over any from the highest height there is.
   */
  lemma AlwaysHighestIff(c: ChainConfig, n: ChainConfig)
    requires SameSettings(Checks(c, n))
    ensures OneLate(Checks(c, n), PETERSBURG)
    ensures (forall h: Word ::
               First(Checks(c, n), h).Some? ==> ConflictsAbove(Checks(c, n), RewoundTo(Checks(c, n), h)))
            <==> !PassesOver(Checks(c, n), PETERSBURG, TWO64 - 1)
  {
    hide First, ConflictsAbove, SameSettings, Checks, RewoundTo, Fires, ErrorOf, Onset;
    PetersburgIsLate(c, n);
    var cs := Checks(c, n);
    var top: Word := TWO64 - 1;
    if PassesOver(cs, PETERSBURG, top) {
      FiresFirst(cs, top, PETERSBURG);
      HighestIff(cs, PETERSBURG, top);
    } else {
      forall h: Word | First(cs, h).Some?
        ensures ConflictsAbove(cs, RewoundTo(cs, h))
      {
        HighestIff(cs, PETERSBURG, h);
        if Fires(cs[PETERSBURG], h) {
          FiresUp(cs[PETERSBURG], h, top);
        }
      }
    }
  }

  /**
   With differing DAO support the comparison ends exactly if, at the DAO fork's rewind point,
   neither Homestead nor the DAO fork is in conflict, or one of them is at the genesis block.
   */
  lemma DaoSupportEndsIff(c: ChainConfig, n: ChainConfig, height: nat)
    requires height < TWO64 && c.daoSupport != n.daoSupport
    ensures (exists i: nat :: EndsAt(Checks(c, n), height, i)) <==>
            var r := RewindTo(c.dao, n.dao);
            || (!ForkIncompatible(c.homestead, n.homestead, r) && !ForkIncompatible(c.dao, n.dao, r))
            || ForkIncompatible(c.homestead, n.homestead, 0) || ForkIncompatible(c.dao, n.dao, 0)
  {
    hide ForkIncompatible, RewindTo, EndsAt;
    SearchEndsIff(Checks(c, n), height);
    FirstOfThree(Checks(c, n));
  }

  lemma FirstOfThree(cs: seq<Check>)
    requires |cs| > 2 && cs[0].Fork? && cs[1].Fork? && cs[2].Setting? && cs[2].differs
    ensures SettingError(cs) == Some(ErrorOf(cs[2]))
    ensures forall h: nat :: First(Before(cs), h).Some? <==> Fires(cs[0], h) || Fires(cs[1], h)
  {
    hide Fires, ErrorOf;
    assert SettingError(cs) == SettingError(cs[1..]) == SettingError(cs[1..][1..]);
    assert Before(cs[1..][1..]) == [];
    assert Before(cs[1..]) == [cs[1]];
    assert Before(cs) == [cs[0], cs[1]];
    forall h: nat
      ensures First(Before(cs), h).Some? <==> Fires(cs[0], h) || Fires(cs[1], h)
    {
      assert [cs[0], cs[1]][1..] == [cs[1]];
      assert First([cs[1]], h).Some? <==> Fires(cs[1], h);
    }
  }

  const BLANK: ChainConfig :=
    ChainConfig(None, true, None, None, None, None, None, None, None, None, None, None, None, None, None, None)

  /** For example it never ends for Homestead at 50 or 60 and differing support of a DAO fork at 100. */
  lemma NeverEnds(height: nat)
    requires height < TWO64
    ensures var c := BLANK.(homestead := Some(50), dao := Some(100));
            var n := BLANK.(homestead := Some(60), dao := Some(100), daoSupport := false);
            forall i: nat :: !EndsAt(Checks(c, n), height, i)
  {
    hide EndsAt, Checks;
    var c := BLANK.(homestead := Some(50), dao := Some(100));
    var n := BLANK.(homestead := Some(60), dao := Some(100), daoSupport := false);
    DaoSupportEndsIff(c, n, height);
    assert RewindTo(c.dao, n.dao) == 99;
  }

  /**
   For example Petersburg moved from 10 to 20 before a Constantinople at 30: the configurations are
   in conflict exactly from head 20 on, but from every such height the search ends at 9.
   */
  lemma PetersburgRewindsTooFar(height: nat)
    requires 20 <= height < TWO64
    ensures var c := BLANK.(constantinople := Some(30), petersburg := Some(10));
            var n := BLANK.(constantinople := Some(30), petersburg := Some(20));
            && SameSettings(Checks(c, n))
            && (forall h: nat :: First(Checks(c, n), h).Some? <==> h >= 20)
            && RewoundTo(Checks(c, n), height) == 9
  {
    hide Checks, First;
    var c := BLANK.(constantinople := Some(30), petersburg := Some(10));
    var n := BLANK.(constantinople := Some(30), petersburg := Some(20));
    var cs := Checks(c, n);
    SettingsOf(c, n);
    PetersburgIsLate(c, n);
    forall h: nat
      ensures First(cs, h).Some? <==> h >= 20
      ensures h >= 20 ==> First(cs, h).value.rewindTo == 9
    {
      OnlyPetersburg(h);
    }
  }

  lemma OnlyPetersburg(h: nat)
    ensures var c := BLANK.(constantinople := Some(30), petersburg := Some(10));
            var n := BLANK.(constantinople := Some(30), petersburg := Some(20));
            && (First(Checks(c, n), h).Some? <==> h >= 20)
            && (h >= 20 ==> First(Checks(c, n), h).value.rewindTo == 9)
  {
    hide First;
    var c := BLANK.(constantinople := Some(30), petersburg := Some(10));
    var n := BLANK.(constantinople := Some(30), petersburg := Some(20));
    var cs := Checks(c, n);
    assert forall i :: 0 <= i < |cs| && i != PETERSBURG ==> !Fires(cs[i], h);
    assert Fires(cs[PETERSBURG], h) <==> h >= 20;
    if h >= 20 {
      FiresFirst(cs, h, PETERSBURG);
      var i := FirstIndex(cs, h);
    } else {
      NoneIfQuiet(cs, h);
    }
  }
}

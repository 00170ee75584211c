/**
 The epoch metadata object: the validator list, changed in place at epoch boundaries, and the
 table that allots validators to the slots of the epoch.
 */
module EpochMeta {
  import opened Wrappers

  type Key = nat

  /** The validators of a slot, as indices into the validator list. */
  datatype SlotInfo = SlotInfo(leader: nat, attestors: seq<nat>)

  predicate Distinct<T(==)>(s: seq<T>) {
    forall i, j :: 0 <= i < j < |s| ==> s[i] != s[j]
  }

  // ---------- what the validator list becomes ----------

  function Added(s: seq<Key>, k: Key): seq<Key> {
    if k in s then s else s + [k]
  }

  /** s without the first occurrence of k. */
  function Removed(s: seq<Key>, k: Key): seq<Key> {
    if s == [] then [] else if s[0] == k then s[1..] else [s[0]] + Removed(s[1..], k)
  }

  lemma AddedKeeps(s: seq<Key>, k: Key)
    requires Distinct(s)
    ensures Distinct(Added(s, k))
    ensures forall x :: x in Added(s, k) <==> x in s || x == k
  {
  }

  lemma {:induction false} RemovedKeeps(s: seq<Key>, k: Key)
    requires Distinct(s)
    ensures Distinct(Removed(s, k))
    ensures forall x :: x in Removed(s, k) <==> x in s && x != k
  {
    if s != [] {
      assert s == [s[0]] + s[1..];
      if s[0] != k {
        assert Distinct(s[1..]);
        RemovedKeeps(s[1..], k);
        PrependDistinct(s[0], Removed(s[1..], k));
      } else {
        forall i, j | 0 <= i < j < |s[1..]|
          ensures s[1..][i] != s[1..][j]
        {
          assert s[1..][i] == s[i + 1] && s[1..][j] == s[j + 1];
        }
      }
    }
  }

  lemma PrependDistinct(x: Key, s: seq<Key>)
    requires Distinct(s) && x !in s
    ensures Distinct([x] + s)
  {
  }

  /** A sequence has no duplicates exactly if its bag has none. */
  lemma {:induction false} DistinctBag(s: seq<Key>)
    ensures Distinct(s) <==> forall k :: multiset(s)[k] <= 1
    decreases |s|
  {
    if s != [] {
      var n := |s| - 1;
      DistinctBag(s[..n]);
      assert s == s[..n] + [s[n]];
      assert multiset(s) == multiset(s[..n]) + multiset{s[n]};
      if Distinct(s) {
        assert Distinct(s[..n]) && s[n] !in s[..n];
      } else if Distinct(s[..n]) {
        assert s[n] in s[..n];
        assert multiset(s[..n])[s[n]] >= 1;
        assert multiset(s)[s[n]] == multiset(s[..n])[s[n]] + 1;
      } else {
        var k :| multiset(s[..n])[k] > 1;
        assert multiset(s)[k] > 1;
      }
    }
  }

  ghost predicate Permuted(s: seq<Key>, t: seq<Key>) {
    multiset(s) == multiset(t)
  }

  /** So a permutation keeps keys distinct. */
  lemma PermutedDistinct(s: seq<Key>, t: seq<Key>)
    requires Permuted(s, t) && Distinct(s)
    ensures Distinct(t)
  {
    DistinctBag(s);
    DistinctBag(t);
  }

  // ---------- what the slot table becomes ----------

  /** The validator index dealt to slot j in round k. */
  function Dealt(B: nat, k: nat, j: nat): nat { k * B + j }

  /** The attestors of slot j after the first m rounds; round 0 deals the leaders. */
  function Attestors(n: nat, B: nat, j: nat, m: nat): (s: seq<nat>) {
    if m <= 1 then []
    else Attestors(n, B, j, m - 1) + (if Dealt(B, m - 1, j) < n then [Dealt(B, m - 1, j)] else [])
  }

  function SlotAt(n: nat, B: nat, j: nat, m: nat): Option<SlotInfo> {
    if m > 0 && j < n then Some(SlotInfo(j, Attestors(n, B, j, m))) else None
  }

  /** The number of rounds: validators divided by slots, rounded up. */
  function Rounds(n: nat, B: nat): nat
    requires B > 0
  {
    (n + B - 1) / B
  }

  /** The slot an epoch of B slots with n validators gives to index j. */
  function Slot(n: nat, B: nat, j: nat): Option<SlotInfo>
    requires B > 0
  {
    SlotAt(n, B, j, Rounds(n, B))
  }

  class EpochMetaData {
    var epoch: nat
    var prev: nat
    var validators: seq<Key>
    var slots: seq<Option<SlotInfo>>

    constructor (epoch: nat, prev: nat, validators: seq<Key>)
      ensures this.epoch == epoch && this.prev == prev && this.validators == validators && slots == []
    {
      this.epoch, this.prev, this.validators, slots := epoch, prev, validators, [];
    }

    method AddValidators(k: Key)
      modifies `validators
      ensures validators == Added(old(validators), k)
    {
      var found := false;
      for i := 0 to |validators|
        invariant validators == old(validators) && !found && k !in validators[..i]
      {
        if validators[i] == k {
          found := true;
          break;
        }
      }
      if !found {
        assert validators[..|validators|] == validators;
        validators := validators + [k];
      }
    }

    method RemoveValidators(k: Key)
      modifies `validators
      ensures validators == Removed(old(validators), k)
    {
      for i := 0 to |validators|
        invariant validators == old(validators)
        invariant Removed(validators, k) == validators[..i] + Removed(validators[i..], k)
      {
        ghost var rest := validators[i..];
        assert rest[1..] == validators[i + 1..];
        if validators[i] == k {
          validators := validators[..i] + validators[i + 1..];
          return;
        }
        assert validators[..i] + ([rest[0]] + Removed(rest[1..], k))
            == validators[..i + 1] + Removed(rest[1..], k);
      }
      assert validators[|validators|..] == [];
    }

    /** Any permutation of the validators: swaps from the end, each with an arbitrary earlier one. */
    method Shuffle()
      modifies `validators
      ensures multiset(validators) == multiset(old(validators))
    {
      var i := |validators|;
      while i > 1
        invariant i <= |validators| && multiset(validators) == multiset(old(validators))
      {
        i := i - 1;
        var j :| 0 <= j <= i;
        validators := validators[i := validators[j]][j := validators[i]];
      }
    }

    /** Shuffles the validators and deals them out to the slots of the epoch, round by round. */
    method AllotSlots(B: nat, epoch: nat, prev: nat)
      requires B > 0 && |validators| > 0
      modifies this
      ensures this.epoch == epoch && this.prev == prev
      ensures multiset(validators) == multiset(old(validators)) && |validators| == |old(validators)|
      ensures Distinct(old(validators)) ==> Distinct(validators)
      ensures |slots| == B && forall j :: 0 <= j < B ==> slots[j] == Slot(|validators|, B, j)
    {
      this.epoch := epoch;
      this.prev := prev;
      Shuffle();
      SameLength(validators, old(validators));
      slots := seq(B, _ => None);
      var n := |validators|;
      var rounds := Rounds(n, B);
      for i := 0 to rounds
        invariant |slots| == B && this.epoch == epoch && this.prev == prev
        invariant multiset(validators) == multiset(old(validators)) && |validators| == n
        invariant forall j :: 0 <= j < B ==> slots[j] == SlotAt(n, B, j, i)
      {
        DealRound(B, i);
      }
      if Distinct(old(validators)) {
        PermutedDistinct(old(validators), validators);
      }
    }

    /** One round: the next B validators, one to each slot. */
    method DealRound(B: nat, i: nat)
      requires B > 0 && |slots| == B
      requires forall j :: 0 <= j < B ==> slots[j] == SlotAt(|validators|, B, j, i)
      modifies `slots
      ensures |slots| == B && forall j :: 0 <= j < B ==> slots[j] == SlotAt(|validators|, B, j, i + 1)
    {
      var n := |validators|;
      var offset := i * B;
      var j := 0;
      while j < B && offset + j < n
        invariant j <= B && |slots| == B
        invariant forall k :: 0 <= k < j ==> slots[k] == SlotAt(n, B, k, i + 1)
        invariant forall k :: j <= k < B ==> slots[k] == SlotAt(n, B, k, i)
      {
        if i == 0 {
          slots := slots[j := Some(SlotInfo(i + j, []))];
        } else {
          var info := slots[j].value;
          slots := slots[j := Some(info.(attestors := info.attestors + [offset + j]))];
        }
        j := j + 1;
      }
      forall k | j <= k < B
        ensures slots[k] == SlotAt(n, B, k, i + 1)
      {
        assert Dealt(B, i, k) >= n;
        assert i > 0 ==> Attestors(n, B, k, i + 1) == Attestors(n, B, k, i);
      }
    }
  }

  lemma SameLength<T>(s: seq<T>, t: seq<T>)
    requires multiset(s) == multiset(t)
    ensures |s| == |t|
  {
    assert |multiset(s)| == |s| && |multiset(t)| == |t|;
  }
}

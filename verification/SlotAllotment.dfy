/**
 Who has which role in which slot: properties of the slot table, and the role map that block
 and attestation validation consult.
 */
module SlotAllotment {
  import opened Wrappers
  import opened EpochMeta

  // ---------- the table as arithmetic ----------

  /** Later rounds deal later indices, by at least B. */
  lemma {:induction false} DealtMono(B: nat, a: nat, b: nat, j: nat)
    ensures a < b ==> Dealt(B, a, j) + B <= Dealt(B, b, j)
    decreases b
  {
    if a < b {
      assert b * B == (b - 1) * B + B;
      DealtMono(B, a, b - 1, j);
    }
  }

  /** Division by B recovers the round, the remainder the slot. */
  lemma DealtInverse(B: nat, k: nat, j: nat)
    requires j < B
    ensures Dealt(B, k, j) / B == k && Dealt(B, k, j) % B == j
  {
    var v := Dealt(B, k, j);
    var q := v / B;
    assert Dealt(B, q, v % B) == v;
    DealtMono(B, q, k, 0);
    DealtMono(B, k, q, 0);
  }

  /** Every index is dealt in its own round to its own slot. */
  lemma DealtExists(B: nat, v: nat)
    requires B > 0
    ensures Dealt(B, v / B, v % B) == v
  {
  }

  /** The attestors of slot j are the indices dealt to it in rounds 1, 2, and so on, below n. */
  lemma {:induction false} AttestorsClosed(n: nat, B: nat, j: nat, m: nat)
    requires B > 0
    ensures var a := Attestors(n, B, j, m);
            && (forall t :: 0 <= t < |a| ==> a[t] == Dealt(B, t + 1, j) && a[t] < n)
            && |a| <= (if m <= 1 then 0 else m - 1)
            && (|a| + 1 < m ==> Dealt(B, |a| + 1, j) >= n)
    decreases m
  {
    hide Dealt;
    if m > 1 {
      AttestorsClosed(n, B, j, m - 1);
      DealtMono(B, |Attestors(n, B, j, m - 1)| + 1, m - 1, j);
    }
  }

  /** There is a round for every index. */
  lemma RoundsEnough(n: nat, B: nat, k: nat, j: nat)
    requires B > 0 && Dealt(B, k, j) < n
    ensures k < Rounds(n, B)
  {
    var r := Rounds(n, B);
    assert Dealt(B, r, (n + B - 1) % B) == n + B - 1;
    DealtMono(B, r, k, 0);
  }

  /** A validator index has a role in a slot. */
  ghost predicate InSlot(info: SlotInfo, v: nat) {
    v == info.leader || v in info.attestors
  }

  /** Slot j holds exactly the validator indices congruent to j, with index j as leader. */
  lemma SlotHolds(n: nat, B: nat, j: nat, v: nat)
    requires B > 0 && j < B && j < n
    ensures Slot(n, B, j).Some?
    ensures var info := Slot(n, B, j).value;
            && info.leader == j && j !in info.attestors
            && (InSlot(info, v) <==> v < n && v % B == j)
  {
    hide Dealt, Attestors, Rounds;
    FirstDealt(B, j);
    RoundsEnough(n, B, 0, j);
    var m := Rounds(n, B);
    AttestorsClosed(n, B, j, m);
    var a := Attestors(n, B, j, m);
    forall t | 0 <= t < |a|
      ensures a[t] % B == j && a[t] != j
    {
      DealtInverse(B, t + 1, j);
      DealtMono(B, 0, t + 1, j);
    }
    DealtInverse(B, 0, j);
    if v < n && v % B == j && v != j {
      var k := v / B;
      DealtExists(B, v);
      RoundsEnough(n, B, k, j);
      DealtMono(B, |a| + 1, k, j);
      assert a[k - 1] == v;
    }
  }

  lemma FirstDealt(B: nat, j: nat)
    ensures Dealt(B, 0, j) == j
  {
  }

  /** No index occurs twice in a slot, so every index is placed exactly once in the whole table. */
  lemma SlotDistinct(n: nat, B: nat, j: nat)
    requires B > 0 && j < B && j < n
    ensures Slot(n, B, j).Some? && Distinct([Slot(n, B, j).value.leader] + Slot(n, B, j).value.attestors)
  {
    hide Dealt, Attestors, Rounds;
    SlotHolds(n, B, j, 0);
    var a := Slot(n, B, j).value.attestors;
    AttestorsClosed(n, B, j, Rounds(n, B));
    forall s, t | 0 <= s < t < |a|
      ensures a[s] != a[t]
    {
      DealtMono(B, s + 1, t + 1, j);
    }
  }

  /** Each index below n is in one slot and in no other. */
  lemma PlacedOnce(n: nat, B: nat, v: nat, j: nat)
    requires B > 0 && v < n && j < B && j < n
    ensures v % B < n && Slot(n, B, v % B).Some? && InSlot(Slot(n, B, v % B).value, v)
    ensures Slot(n, B, j).Some? && (InSlot(Slot(n, B, j).value, v) ==> j == v % B)
  {
    hide Attestors, Rounds;
    DealtExists(B, v);
    SlotHolds(n, B, v % B, v);
    SlotHolds(n, B, j, v);
  }

  // ---------- roles ----------

  const ATTESTOR: nat := 0
  const LEADER: nat := 1

  /** The role map of a slot: the leader first, then every attestor. */
  function Roles(validators: seq<Key>, info: SlotInfo, m: nat): map<Key, nat>
    requires info.leader < |validators| && m <= |info.attestors|
    requires forall t :: 0 <= t < |info.attestors| ==> info.attestors[t] < |validators|
  {
    if m == 0 then map[validators[info.leader] := LEADER]
    else Roles(validators, info, m - 1)[validators[info.attestors[m - 1]] := ATTESTOR]
  }

  /** The leader of a slot and the roles of all its validators. */
  datatype SlotValidators = SlotValidators(leader: Key, roles: map<Key, nat>)

  /** Builds the roles of the given slot; None stands for the fault on a slot that was dealt nobody. */
  method NewSlotValidators(slot: nat, B: nat, validators: seq<Key>, slots: seq<Option<SlotInfo>>)
    returns (r: Option<SlotValidators>)
    requires B > 0 && |slots| == B && forall j :: 0 <= j < B ==> slots[j] == Slot(|validators|, B, j)
    ensures r.None? <==> slot % B >= |validators|
    ensures r.Some? ==> r.value == SlotValidators(validators[slot % B], SlotRoles(validators, B, slot % B))
  {
    var j := slot % B;
    if slots[j].None? {
      NoSlotIff(|validators|, B, j);
      return None;
    }
    NoSlotIff(|validators|, B, j);
    SlotHolds(|validators|, B, j, 0);
    IndicesFit(|validators|, B, j);
    var info := slots[j].value;
    var leader := validators[info.leader];
    var roles := map[leader := LEADER];
    for t := 0 to |info.attestors|
      invariant roles == Roles(validators, info, t)
    {
      roles := roles[validators[info.attestors[t]] := ATTESTOR];
    }
    r := Some(SlotValidators(leader, roles));
  }

  lemma NoSlotIff(n: nat, B: nat, j: nat)
    requires B > 0 && j < B
    ensures Slot(n, B, j).None? <==> j >= n
  {
    if j < n {
      SlotHolds(n, B, j, 0);
    }
  }

  predicate IsAttestor(roles: map<Key, nat>, k: Key) { k in roles && roles[k] == ATTESTOR }

  predicate IsSlotLeader(roles: map<Key, nat>, k: Key) { k in roles && roles[k] == LEADER }

  /** k is the key of one of the first m attestors. */
  ghost predicate Attests(validators: seq<Key>, info: SlotInfo, m: nat, k: Key) {
    exists t :: 0 <= t < m && t < |info.attestors| && info.attestors[t] < |validators|
                && validators[info.attestors[t]] == k
  }

  lemma {:induction false} RolesMean(validators: seq<Key>, info: SlotInfo, m: nat, k: Key)
    requires info.leader < |validators| && m <= |info.attestors|
    requires forall t :: 0 <= t < |info.attestors| ==> info.attestors[t] < |validators|
    ensures var r := Roles(validators, info, m);
            && (k in r <==> k == validators[info.leader] || Attests(validators, info, m, k))
            && (IsAttestor(r, k) <==> Attests(validators, info, m, k))
            && (IsSlotLeader(r, k) <==> k == validators[info.leader] && !Attests(validators, info, m, k))
    decreases m
  {
    if m > 0 {
      RolesMean(validators, info, m - 1, k);
      assert Attests(validators, info, m, k) <==>
             Attests(validators, info, m - 1, k) || validators[info.attestors[m - 1]] == k by {
        if validators[info.attestors[m - 1]] == k {
          assert Attests(validators, info, m, k);
        }
      }
    }
  }

  /** The roles of slot j of an epoch with these validators. */
  function SlotRoles(validators: seq<Key>, B: nat, j: nat): map<Key, nat>
    requires B > 0 && j < B && j < |validators|
  {
    SlotHolds(|validators|, B, j, 0);
    var info := Slot(|validators|, B, j).value;
    IndicesFit(|validators|, B, j);
    Roles(validators, info, |info.attestors|)
  }

  lemma IndicesFit(n: nat, B: nat, j: nat)
    requires B > 0 && j < B && j < n
    ensures Slot(n, B, j).Some?
    ensures forall t :: 0 <= t < |Slot(n, B, j).value.attestors| ==> Slot(n, B, j).value.attestors[t] < n
  {
    SlotHolds(n, B, j, 0);
    AttestorsClosed(n, B, j, Rounds(n, B));
  }

  /**
   With distinct keys: the key at position v leads exactly the slot v, attests in exactly the slot
   v mod B if v is at least B, and so never holds both roles.
   */
  lemma RolesByPosition(validators: seq<Key>, B: nat, j: nat, v: nat)
    requires B > 0 && j < B && j < |validators| && v < |validators| && Distinct(validators)
    ensures IsSlotLeader(SlotRoles(validators, B, j), validators[v]) <==> v == j
    ensures IsAttestor(SlotRoles(validators, B, j), validators[v]) <==> v >= B && v % B == j
  {
    var n := |validators|;
    var info := Slot(n, B, j).value;
    SlotHolds(n, B, j, v);
    IndicesFit(n, B, j);
    RolesMean(validators, info, |info.attestors|, validators[v]);
    AttestsIffInSlot(validators, info, v);
    if v < B {
      FirstDealt(B, v);
      DealtInverse(B, 0, v);
    }
  }

  lemma AttestsIffInSlot(validators: seq<Key>, info: SlotInfo, v: nat)
    requires Distinct(validators) && v < |validators|
    requires forall t :: 0 <= t < |info.attestors| ==> info.attestors[t] < |validators|
    ensures Attests(validators, info, |info.attestors|, validators[v]) <==> v in info.attestors
  {
    if v in info.attestors {
      var t :| 0 <= t < |info.attestors| && info.attestors[t] == v;
      assert Attests(validators, info, |info.attestors|, validators[v]);
    }
  }

  /** No key has a role in two slots of an epoch. */
  lemma OneSlotPerKey(validators: seq<Key>, B: nat, i: nat, j: nat, k: Key)
    requires B > 0 && i < B && i < |validators| && j < B && j < |validators| && Distinct(validators)
    requires k in SlotRoles(validators, B, i) && k in SlotRoles(validators, B, j)
    ensures i == j
  {
    var v := PositionOf(validators, B, i, k);
    var w := PositionOf(validators, B, j, k);
    assert v == w;
  }

  lemma PositionOf(validators: seq<Key>, B: nat, j: nat, k: Key) returns (v: nat)
    requires B > 0 && j < B && j < |validators| && Distinct(validators)
    requires k in SlotRoles(validators, B, j)
    ensures v < |validators| && validators[v] == k && v % B == j
  {
    var info := Slot(|validators|, B, j).value;
    SlotHolds(|validators|, B, j, 0);
    IndicesFit(|validators|, B, j);
    RolesMean(validators, info, |info.attestors|, k);
    if k == validators[info.leader] {
      v := info.leader;
    } else {
      var t :| 0 <= t < |info.attestors| && validators[info.attestors[t]] == k;
      v := info.attestors[t];
    }
    SlotHolds(|validators|, B, j, v);
  }
}

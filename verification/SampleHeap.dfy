/**
 The forward-decaying reservoir: a min-heap of keyed samples on a fixed array, from which the
 smallest key is dropped when a new sample arrives and the reservoir is full.
 */
module SampleHeap {

  /** A sample: its priority and its value. */
  datatype Sample = Sample(k: real, v: int)

  // ---------- heaps as sequences ----------

  /** Go's (j - 1) / 2, which truncates: the root is its own parent. */
  function Parent(j: nat): nat { if j == 0 then 0 else (j - 1) / 2 }

  /** Every element other than hole i is no smaller than its parent. */
  ghost predicate HeapButUp(s: seq<Sample>, i: nat) {
    && (forall j :: 0 < j < |s| && j != i ==> s[Parent(j)].k <= s[j].k)
    // children of i are in order with the parent of i
    && (forall j :: 0 < j < |s| && Parent(j) == i && 0 < i ==> s[Parent(i)].k <= s[j].k)
  }

  /** Every element whose parent is not i is no smaller than its parent. */
  ghost predicate HeapButDown(s: seq<Sample>, i: nat) {
    && (forall j :: 0 < j < |s| && Parent(j) != i ==> s[Parent(j)].k <= s[j].k)
    && (forall j :: 0 < j < |s| && Parent(j) == i && 0 < i < |s| ==> s[Parent(i)].k <= s[j].k)
  }

  ghost predicate IsHeap(s: seq<Sample>) {
    forall j :: 0 < j < |s| ==> s[Parent(j)].k <= s[j].k
  }

  /** The root of a heap is a smallest sample. */
  lemma {:induction false} RootIsMin(s: seq<Sample>, j: nat)
    requires IsHeap(s) && j < |s|
    ensures s[0].k <= s[j].k
    decreases j
  {
    if j > 0 {
      RootIsMin(s, Parent(j));
    }
  }

  function Swapped(s: seq<Sample>, i: nat, j: nat): (r: seq<Sample>)
    requires i < |s| && j < |s|
    ensures |r| == |s|
  {
    s[i := s[j]][j := s[i]]
  }

  lemma SwapKeeps(s: seq<Sample>, i: nat, j: nat)
    requires i < |s| && j < |s|
    ensures multiset(Swapped(s, i, j)) == multiset(s)
  {
  }

  lemma UpStep(s: seq<Sample>, j: nat)
    requires 0 < j < |s| && HeapButUp(s, j) && s[j].k < s[Parent(j)].k
    ensures HeapButUp(Swapped(s, Parent(j), j), Parent(j))
  {
    var i := Parent(j);
    var t := Swapped(s, i, j);
    forall c | 0 < c < |t| && c != i
      ensures t[Parent(c)].k <= t[c].k
    {
    }
    forall c | 0 < c < |t| && Parent(c) == i && 0 < i
      ensures t[Parent(i)].k <= t[c].k
    {
      if c != j {
        assert s[Parent(c)].k <= s[c].k;
      }
      assert s[Parent(i)].k <= s[i].k;
    }
  }

  lemma DownStep(s: seq<Sample>, i: nat, j: nat)
    requires i < |s| && 0 < j < |s| && Parent(j) == i && HeapButDown(s, i) && s[j].k < s[i].k
    requires forall c :: 0 < c < |s| && Parent(c) == i ==> s[j].k <= s[c].k
    ensures HeapButDown(Swapped(s, i, j), j)
  {
    var t := Swapped(s, i, j);
    forall c | 0 < c < |t| && Parent(c) != j
      ensures t[Parent(c)].k <= t[c].k
    {
      if Parent(c) == i {
      } else if c == i {
        assert s[Parent(i)].k <= s[j].k;
      } else {
        assert s[Parent(c)].k <= s[c].k;
      }
    }
    forall c | 0 < c < |t| && Parent(c) == j
      ensures t[Parent(j)].k <= t[c].k
    {
      assert s[Parent(c)].k <= s[c].k;
    }
  }

  /** i's children are 2i+1 and 2i+2. */
  lemma Children(i: nat, c: nat)
    ensures 0 < c && Parent(c) == i <==> c == 2 * i + 1 || c == 2 * i + 2
  {
  }

  lemma UpDone(s: seq<Sample>, j: nat)
    requires j < |s| && HeapButUp(s, j) && (j == 0 || s[Parent(j)].k <= s[j].k)
    ensures IsHeap(s)
  {
  }

  lemma DownDone(s: seq<Sample>, i: nat)
    requires HeapButDown(s, i) && forall c :: 0 < c < |s| && Parent(c) == i ==> s[i].k <= s[c].k
    ensures IsHeap(s)
  {
  }

  /** A sample put after a heap is the only one that may be out of order. */
  lemma Appended(s: seq<Sample>, x: Sample)
    requires IsHeap(s)
    ensures HeapButUp(s + [x], |s|)
  {
    forall j | 0 < j < |s + [x]| && j != |s|
      ensures (s + [x])[Parent(j)].k <= (s + [x])[j].k
    {
      assert s[Parent(j)].k <= s[j].k;
    }
  }

  /** With the last sample moved to the root, only the root may be out of order. */
  lemma Rerooted(s: seq<Sample>)
    requires IsHeap(s) && |s| > 0
    ensures HeapButDown(Swapped(s, 0, |s| - 1)[..|s| - 1], 0)
  {
    var t := Swapped(s, 0, |s| - 1)[..|s| - 1];
    forall j | 0 < j < |t| && Parent(j) != 0
      ensures t[Parent(j)].k <= t[j].k
    {
      assert s[Parent(j)].k <= s[j].k;
    }
  }

  /** A change within the first n places is one of the prefix. */
  lemma SwapPrefix(s: seq<Sample>, n: nat, i: nat, j: nat)
    requires i < n && j < n <= |s|
    ensures Swapped(s, i, j)[..n] == Swapped(s[..n], i, j) && Swapped(s, i, j)[n..] == s[n..]
  {
  }

  lemma SwapOut(s: seq<Sample>, n: nat)
    requires 0 < n <= |s|
    ensures Swapped(s, 0, n - 1)[..n - 1] == Swapped(s[..n], 0, n - 1)[..n - 1]
    ensures Swapped(s, 0, n - 1)[n - 1] == s[0] && Swapped(s, 0, n - 1)[n..] == s[n..]
  {
  }

  lemma RootOut(s: seq<Sample>)
    requires |s| > 0
    ensures multiset(Swapped(s, 0, |s| - 1)[..|s| - 1]) + multiset{s[0]} == multiset(s)
  {
    hide Swapped;
    SwapKeeps(s, 0, |s| - 1);
    SwapOut(s, |s|);
    var t := Swapped(s, 0, |s| - 1);
    assert t == t[..|s| - 1] + [s[0]];
  }

  // ---------- admission and rescaling ----------

  const RESCALE_THRESHOLD: real := 3600.0

  function Rescaled(s: Sample, f: real): Sample { s.(k := s.k * f) }

  function Scaled(s: seq<Sample>, f: real): seq<Sample> {
    seq(|s|, i requires 0 <= i < |s| => Rescaled(s[i], f))
  }

  lemma ScaledStep(s: seq<Sample>, f: real, i: nat)
    requires i < |s|
    ensures multiset(Scaled(s[..i + 1], f)) == multiset(Scaled(s[..i], f)) + multiset{Rescaled(s[i], f)}
  {
    assert Scaled(s[..i + 1], f) == Scaled(s[..i], f) + [Rescaled(s[i], f)];
  }

  /** Rescaling by a positive factor does not reorder samples. */
  lemma ScaleOrder(a: Sample, b: Sample, f: real)
    requires f > 0.0
    ensures a.k <= b.k <==> Rescaled(a, f).k <= Rescaled(b, f).k
  {
    if a.k <= b.k {
      assert (b.k - a.k) * f >= 0.0;
    } else {
      assert (a.k - b.k) * f > 0.0;
    }
  }

  /** d is a smallest sample of the bag. */
  ghost predicate Smallest(bag: multiset<Sample>, d: Sample) {
    d in bag && forall x :: x in bag ==> d.k <= x.k
  }

  /** A sample is admitted: into a free place, or into that of a smallest one. */
  ghost predicate Admitted(size: nat, before: multiset<Sample>, s: Sample, after: multiset<Sample>) {
    if |before| == size then exists d :: Smallest(before, d) && after + multiset{d} == before + multiset{s}
    else after == before + multiset{s}
  }

  /** The kept samples are the largest of all. */
  ghost predicate Largest(kept: multiset<Sample>, all: multiset<Sample>) {
    kept <= all && forall x, d :: x in kept && d in all - kept ==> d.k <= x.k
  }

  /**
   Admission to a full reservoir keeps the samples of highest priority exactly if the new sample
   ranks at least as high as the one that is dropped: the new one is never compared.
   */
  lemma AdmissionKeepsLargestIff(before: multiset<Sample>, d: Sample, s: Sample, after: multiset<Sample>)
    requires Smallest(before, d) && after + multiset{d} == before + multiset{s}
    ensures Largest(after, before + multiset{s}) <==> s.k >= d.k
  {
    var all := before + multiset{s};
    assert all - after == multiset{d};
    assert s in after by {
      if s != d {
        assert all[s] > 0 && (after + multiset{d})[s] == after[s];
      } else {
        assert (after + multiset{d})[d] == after[d] + 1;
        assert all[d] == before[d] + 1;
      }
    }
    forall x | x in after
      ensures x == s || x in before
    {
      assert (after + multiset{d})[x] >= after[x];
    }
    if s.k < d.k {
      assert d in all - after;
    }
  }

  /** For example a reservoir of one drops a sample of priority 5 for one of priority 3. */
  lemma LargerDropped()
    ensures var before := multiset{Sample(5.0, 0)};
            var after := multiset{Sample(3.0, 1)};
            Admitted(1, before, Sample(3.0, 1), after) && !Largest(after, before + multiset{Sample(3.0, 1)})
  {
    var before, after := multiset{Sample(5.0, 0)}, multiset{Sample(3.0, 1)};
    assert Smallest(before, Sample(5.0, 0));
    AdmissionKeepsLargestIff(before, Sample(5.0, 0), Sample(3.0, 1), after);
  }

  lemma ReadBack(rest: seq<Sample>, all: seq<Sample>, i: nat)
    requires i < |all| && rest == all[i..]
    ensures rest[0] == all[i]
  {
  }

  lemma BagMember(before: multiset<Sample>, after: multiset<Sample>, d: Sample)
    requires after + multiset{d} == before
    ensures d in before
  {
    assert (after + multiset{d})[d] > 0;
  }

  lemma EmptyHeap(s: seq<Sample>, f: real)
    requires s == []
    ensures IsHeap(s) && Scaled(s, f) == []
  {
  }

  // ---------- the heap object ----------

  class Heap {
    const data: array<Sample>
    var n: nat

    ghost predicate Valid()
      reads this, data
    {
      n <= data.Length && IsHeap(data[..n])
    }

    ghost function Bag(): multiset<Sample>
      requires n <= data.Length
      reads this, data
    {
      multiset(data[..n])
    }

    constructor (reservoirSize: nat)
      ensures Valid() && n == 0 && data.Length == reservoirSize && fresh(data)
    {
      data := new Sample[reservoirSize](_ => Sample(0.0, 0));
      n := 0;
    }

    method Clear()
      modifies `n
      ensures n == 0
    {
      n := 0;
    }

    /** Lifts the sample at `start` into place: order is restored, nothing is lost, places past m stay. */
    method Up(start: nat, ghost m: nat)
      requires start < m <= data.Length && HeapButUp(data[..m], start)
      modifies data
      ensures IsHeap(data[..m]) && multiset(data[..m]) == multiset(old(data[..m])) && data[m..] == old(data[m..])
    {
      hide IsHeap, HeapButUp, Swapped;
      var j: nat := start;
      while true
        invariant j < m && HeapButUp(data[..m], j)
        invariant multiset(data[..m]) == multiset(old(data[..m])) && data[m..] == old(data[m..])
        decreases j
      {
        var i := Parent(j);
        if i == j || !(data[j].k < data[i].k) {
          break;
        }
        UpStep(data[..m], j);
        SwapKeeps(data[..m], i, j);
        SwapPrefix(data[..], m, i, j);
        Exchange(i, j);
        j := i;
      }
      UpDone(data[..m], j);
    }

    method Exchange(i: nat, j: nat)
      requires i < data.Length && j < data.Length
      modifies data
      ensures data[..] == Swapped(old(data[..]), i, j)
    {
      data[i], data[j] := data[j], data[i];
    }

    /** Sinks the sample at `start` into place among the first m. */
    method Down(start: nat, m: nat)
      requires m <= data.Length && HeapButDown(data[..m], start)
      modifies data
      ensures IsHeap(data[..m]) && multiset(data[..m]) == multiset(old(data[..m])) && data[m..] == old(data[m..])
    {
      hide IsHeap, HeapButDown, Swapped, Parent;
      var i: nat := start;
      while true
        invariant HeapButDown(data[..m], i)
        invariant multiset(data[..m]) == multiset(old(data[..m])) && data[m..] == old(data[m..])
        decreases m - i
      {
        forall c {
          Children(i, c);
        }
        var j1 := 2 * i + 1;
        if j1 >= m {
          break;
        }
        var j := j1;
        var j2 := j1 + 1;
        if j2 < m && !(data[j1].k < data[j2].k) {
          j := j2;
        }
        if !(data[j].k < data[i].k) {
          break;
        }
        DownStep(data[..m], i, j);
        SwapKeeps(data[..m], i, j);
        SwapPrefix(data[..], m, i, j);
        Exchange(i, j);
        i := j;
      }
      DownDone(data[..m], i);
    }

    /** Adds a sample; the array must have room for it. */
    method Push(s: Sample)
      requires Valid() && n < data.Length
      modifies this, data
      ensures Valid() && n == old(n) + 1
      ensures Bag() == old(Bag()) + multiset{s}
      ensures data[n..] == old(data[n + 1..])
    {
      hide IsHeap, HeapButUp;
      Appended(data[..n], s);
      data[n] := s;
      n := n + 1;
      assert data[..n] == old(data[..n]) + [s];
      assert data[n..] == old(data[n + 1..]);
      Up(n - 1, n);
    }

    /** Takes out a sample with the smallest key. */
    method Pop() returns (s: Sample)
      requires Valid() && n > 0
      modifies this, data
      ensures Valid() && n == old(n) - 1
      ensures Bag() + multiset{s} == old(Bag())
      ensures forall x :: x in old(Bag()) ==> s.k <= x.k
    {
      hide IsHeap, HeapButDown, Swapped;
      ghost var before := data[..n];
      Rerooted(before);
      SwapOut(data[..], n);
      RootOut(before);
      forall x | x in multiset(before)
        ensures before[0].k <= x.k
      {
        var j :| 0 <= j < |before| && before[j] == x;
        RootIsMin(before, j);
      }
      Exchange(0, n - 1);
      assert data[..][..n - 1] == data[..n - 1];
      Down(0, n - 1);
      assert data[n - 1] == data[n - 1..][0];
      s := data[n - 1];
      n := n - 1;
    }

    /** Adds a sample in place of a smallest one if the array is full. */
    method Admit(s: Sample)
      requires Valid() && data.Length > 0
      modifies this, data
      ensures Valid() && n == if old(n) == data.Length then old(n) else old(n) + 1
      ensures Admitted(data.Length, old(Bag()), s, Bag())
    {
      hide IsHeap;
      ghost var before := Bag();
      assert |before| == n;
      if n == data.Length {
        ghost var d := data[0];
        d := Pop();
        BagMember(before, Bag(), d);
        assert Smallest(before, d);
      }
      Push(s);
    }

    /**
     Rebuilds the heap with rescaled keys, reading the old samples from the very array the new
     heap is built in: every sample is rescaled exactly once, none is lost or duplicated.
     */
    method Rescale(f: real)
      requires Valid()
      modifies this, data
      ensures Valid() && n == old(n)
      ensures Bag() == multiset(Scaled(old(data[..n]), f))
    {
      hide IsHeap, Rescaled, Scaled;
      ghost var was := data[..n];
      var m := n;
      Clear();
      EmptyHeap(data[..0], f);
      assert data[..0] == was[..0] == [];
      for i := 0 to m
        invariant n == i && Valid() && data[i..] == old(data[..])[i..]
        invariant Bag() == multiset(Scaled(was[..i], f))
      {
        ReadBack(data[i..], old(data[..]), i);
        ScaledStep(was, f, i);
        Push(Rescaled(data[i], f));
      }
      assert was[..m] == was;
    }
  }

  // ---------- the reservoir ----------

  class ExpDecaySample {
    const reservoirSize: nat
    const values: Heap
    var count: nat
    var t0: real
    var t1: real

    /** As many samples as were recorded, up to the reservoir's size. */
    ghost predicate Valid()
      reads this, values, values.data
    {
      && values.Valid() && values.data.Length == reservoirSize
      && values.n == if count < reservoirSize then count else reservoirSize
    }

    constructor (reservoirSize: nat, now: real)
      ensures Valid() && count == 0 && this.reservoirSize == reservoirSize && t0 == now
      ensures fresh(values) && fresh(values.data)
    {
      this.reservoirSize := reservoirSize;
      values := new Heap(reservoirSize);
      count, t0, t1 := 0, now, now + RESCALE_THRESHOLD;
    }

    method Clear(now: real)
      requires Valid()
      modifies this, values
      ensures Valid() && count == 0 && values.n == 0 && t0 == now && t1 == now + RESCALE_THRESHOLD
    {
      count := 0;
      t0 := now;
      t1 := t0 + RESCALE_THRESHOLD;
      values.Clear();
      assert values.data[..0] == [];
    }

    /**
     Records a sample with priority k; `decay` is the factor by which keys shrink in a rescale. It
     fails exactly on a reservoir of size zero, whose empty heap has nothing to make room with.
     */
    method Update(t: real, v: int, k: real, decay: real) returns (ok: bool)
      requires Valid()
      modifies this, values, values.data
      ensures count == old(count) + 1 && Valid() && (ok <==> reservoirSize > 0)
      ensures ok ==> t0 == if t > old(t1) then t else old(t0)
      ensures ok ==> t1 == if t > old(t1) then t + RESCALE_THRESHOLD else old(t1)
      ensures ok && t <= old(t1) ==> Admitted(reservoirSize, old(values.Bag()), Sample(k, v), values.Bag())
      ensures ok && t > old(t1) ==>
                exists q: seq<Sample> ::
                  && Admitted(reservoirSize, old(values.Bag()), Sample(k, v), multiset(q))
                  && values.Bag() == multiset(Scaled(q, decay))
    {
      hide IsHeap, Scaled, Admitted;
      count := count + 1;
      if reservoirSize == 0 {
        return false;
      }
      ghost var before := values.Bag();
      values.Admit(Sample(k, v));
      if t > t1 {
        ghost var q := values.data[..values.n];
        t0 := t;
        t1 := t0 + RESCALE_THRESHOLD;
        values.Rescale(decay);
        assert Admitted(reservoirSize, before, Sample(k, v), multiset(q));
      }
      ok := true;
    }
  }
}

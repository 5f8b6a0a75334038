/**
 A sample of bounded size in which recent values weigh more: a hand-written binary
 heap in an array, from which the lightest value is dropped, and a rescaling of all
 weights that pushes the heap's values back into the array it is reading them from.
 Weights are real numbers, so rounding plays no part.
 */
module Reservoirs {
  const RESCALE_THRESHOLD: int := 3_600_000_000_000

  datatype Sample = Sample(k: real, v: int)

  /** (j - 1) / 2 with division rounding towards zero, so that the root is its own parent. */
  function Parent(j: nat): (p: nat)
    ensures j > 0 ==> p < j
  {
    if j == 0 then 0 else (j - 1) / 2
  }

  ghost predicate Ordered(d: seq<Sample>, j: nat)
    requires j < |d|
  {
    d[Parent(j)].k <= d[j].k
  }

  /** The first n entries are a heap. */
  ghost predicate Heap(d: seq<Sample>, n: nat) {
    n <= |d| && forall j :: 0 <= j < n ==> Ordered(d, j)
  }

  lemma {:induction false} RootIsLightest(d: seq<Sample>, n: nat, j: nat)
    requires Heap(d, n) && j < n
    ensures d[0].k <= d[j].k
    decreases j
  {
    if j > 0 {
      assert Ordered(d, j);
      RootIsLightest(d, n, Parent(j));
    }
  }

  function Swapped(d: seq<Sample>, i: nat, j: nat): (r: seq<Sample>)
    requires i < |d| && j < |d|
    ensures |r| == |d| && r[i] == d[j] && r[j] == d[i]
    ensures forall k :: 0 <= k < |d| && k != i && k != j ==> r[k] == d[k]
  {
    d[i := d[j]][j := d[i]]
  }

  lemma SwapKeepsContents(d: seq<Sample>, i: nat, j: nat, n: nat)
    requires i < n && j < n && n <= |d|
    ensures multiset(Swapped(d, i, j)[..n]) == multiset(d[..n])
  {
    assert Swapped(d, i, j)[..n] == d[..n][i := d[j]][j := d[i]];
  }

  /** A heap except that entry j may be lighter than its parent. */
  ghost predicate HeapButUp(d: seq<Sample>, n: nat, j: nat) {
    && j < n <= |d|
    && (forall c :: 0 <= c < n && c != j ==> Ordered(d, c))
    && (forall c :: 0 < c < n && Parent(c) == j ==> d[Parent(j)].k <= d[c].k)
  }

  lemma UpStep(d: seq<Sample>, n: nat, j: nat)
    requires HeapButUp(d, n, j) && d[j].k < d[Parent(j)].k
    ensures HeapButUp(Swapped(d, Parent(j), j), n, Parent(j))
  {
    var i := Parent(j);
    var e := Swapped(d, i, j);
    assert Ordered(d, i);
    forall c | 0 <= c < n && c != i ensures Ordered(e, c) {
      assert c != j ==> Ordered(d, c);
    }
    forall c | 0 < c < n && Parent(c) == i ensures e[Parent(i)].k <= e[c].k {
      assert c != j ==> Ordered(d, c);
    }
  }

  /** A heap except that entry i may be heavier than its children. */
  ghost predicate HeapButDown(d: seq<Sample>, n: nat, i: nat) {
    && n <= |d|
    && (forall c :: 0 <= c < n && Parent(c) != i ==> Ordered(d, c))
    && (forall c :: 0 < i && 0 < c < n && Parent(c) == i ==> d[Parent(i)].k <= d[c].k)
  }

  lemma DownStep(d: seq<Sample>, n: nat, i: nat, j: nat)
    requires HeapButDown(d, n, i) && i < j < n && Parent(j) == i
    requires d[j].k < d[i].k && forall c :: 0 < c < n && Parent(c) == i ==> d[j].k <= d[c].k
    ensures HeapButDown(Swapped(d, i, j), n, j)
  {
    var e := Swapped(d, i, j);
    forall c | 0 <= c < n && Parent(c) != j ensures Ordered(e, c) {
      assert Parent(c) != i ==> Ordered(d, c);
    }
    forall c | 0 < c < n && Parent(c) == j ensures e[Parent(j)].k <= e[c].k {
      assert Ordered(d, c);
    }
  }

  function Weighed(x: Sample, factor: real): Sample {
    Sample(x.k * factor, x.v)
  }

  /** Every weight times one factor. */
  function Scaled(s: seq<Sample>, factor: real): (r: seq<Sample>)
    ensures |r| == |s| && forall i :: 0 <= i < |s| ==> r[i] == Weighed(s[i], factor)
  {
    seq(|s|, i requires 0 <= i < |s| => Weighed(s[i], factor))
  }

  lemma PushedIsHeapBut(d: seq<Sample>, n: nat, s: Sample)
    requires Heap(d, n) && n < |d|
    ensures HeapButUp(d[n := s], n + 1, n)
  {
    var e := d[n := s];
    forall c | 0 <= c < n + 1 && c != n ensures Ordered(e, c) {
      assert Ordered(d, c);
    }
  }

  lemma PoppedIsHeapBut(d: seq<Sample>, n: nat)
    requires Heap(d, n + 1)
    ensures HeapButDown(Swapped(d, 0, n), n, 0)
  {
    var e := Swapped(d, 0, n);
    forall c | 0 <= c < n && Parent(c) != 0 ensures Ordered(e, c) {
      assert Ordered(d, c);
    }
  }

  lemma LightestOfAll(d: seq<Sample>, n: nat)
    requires Heap(d, n) && n > 0
    ensures forall x :: x in multiset(d[..n]) ==> d[0].k <= x.k
  {
    forall x | x in multiset(d[..n]) ensures d[0].k <= x.k {
      var j :| 0 <= j < n && d[..n][j] == x;
      RootIsLightest(d, n, j);
    }
  }

  class SampleHeap {
    const data: array<Sample>
    var len: nat

    ghost predicate Valid()
      reads this, data
    {
      len <= data.Length && Heap(data[..], len)
    }

    ghost function Contents(): multiset<Sample>
      reads this, data
      requires len <= data.Length
    {
      multiset(data[..len])
    }

    constructor (reservoirSize: nat)
      ensures Valid() && len == 0 && data.Length == reservoirSize && fresh(data)
    {
      data, len := new Sample[reservoirSize](_ => Sample(0.0, 0)), 0;
    }

    method Swap(i: nat, j: nat, ghost n: nat)
      requires i < n && j < n && n <= data.Length
      modifies data
      ensures data[..] == Swapped(old(data[..]), i, j)
      ensures multiset(data[..n]) == old(multiset(data[..n]))
      ensures data[n..] == old(data[n..])
    {
      SwapKeepsContents(data[..], i, j, n);
      ghost var was := data[..];
      data[i], data[j] := data[j], data[i];
      assert data[..n] == data[..][..n] && was[..n] == old(data[..n]);
      assert data[n..] == data[..][n..] && was[n..] == old(data[n..]);
    }

    /** Moves a light entry up to its place. */
    method Up(j0: nat)
      requires len <= data.Length && HeapButUp(data[..], len, j0)
      modifies data
      ensures Valid() && Contents() == old(Contents()) && data[len..] == old(data[len..])
    {
      var j := j0;
      while true
        invariant HeapButUp(data[..], len, j)
        invariant Contents() == old(Contents()) && data[len..] == old(data[len..])
        decreases j
      {
        var i := Parent(j);
        if i == j || !(data[j].k < data[i].k) {
          break;
        }
        UpStep(data[..], len, j);
        Swap(i, j, len);
        j := i;
      }
    }

    /** The lighter child of an entry that has one, the right one if they weigh the same. */
    method LighterChild(i: nat, n: nat) returns (j: nat)
      requires 2 * i + 1 < n <= data.Length
      ensures i < j < n && Parent(j) == i
      ensures forall c :: 0 < c < n && Parent(c) == i ==> data[j].k <= data[c].k
    {
      j := 2 * i + 1;
      if j + 1 < n && !(data[j].k < data[j + 1].k) {
        j := j + 1;
      }
    }

    /** Moves a heavy entry down to its place among the first n. */
    method Down(i0: nat, n: nat)
      requires n <= data.Length && HeapButDown(data[..], n, i0)
      modifies data
      ensures Heap(data[..], n) && multiset(data[..n]) == old(multiset(data[..n])) && data[n..] == old(data[n..])
    {
      var i := i0;
      while 2 * i + 1 < n
        invariant HeapButDown(data[..], n, i)
        invariant multiset(data[..n]) == old(multiset(data[..n])) && data[n..] == old(data[n..])
        decreases n - i
      {
        var j := LighterChild(i, n);
        if !(data[j].k < data[i].k) {
          return;
        }
        DownStep(data[..], n, i, j);
        Swap(i, j, n);
        i := j;
      }
    }

    /** Takes one more place of the array for a new entry; what lies beyond it stays as it is. */
    method Push(s: Sample)
      requires Valid() && len < data.Length
      modifies data, `len
      ensures Valid() && len == old(len) + 1
      ensures Contents() == old(Contents()) + multiset{s}
      ensures data[len..] == old(data[len + 1..])
    {
      ghost var was := data[..];
      data[len] := s;
      assert data[..] == was[len := s];
      PushedIsHeapBut(was, len, s);
      assert data[..len + 1] == was[..len] + [s];
      assert data[len + 1..] == was[len + 1..];
      len := len + 1;
      Up(len - 1);
    }

    /** Takes out a lightest entry. */
    method Pop() returns (s: Sample)
      requires Valid() && len > 0
      modifies data, `len
      ensures Valid() && len == old(len) - 1
      ensures old(Contents()) == Contents() + multiset{s}
      ensures forall x :: x in old(Contents()) ==> s.k <= x.k
    {
      hide Heap, HeapButDown, Swapped;
      ghost var was := data[..];
      LightestOfAll(was, len);
      var n := len - 1;
      PoppedIsHeapBut(was, n);
      Swap(0, n, len);
      assert multiset(data[..n + 1]) == multiset(data[..n]) + multiset{data[n]} by {
        assert data[..n + 1] == data[..n] + [data[n]];
      }
      ghost var rest := data[n..];
      Down(0, n);
      assert data[n] == data[n..][0] == rest[0];
      s := data[len - 1];
      len := len - 1;
    }

    method Clear()
      requires Valid()
      modifies `len
      ensures Valid() && len == 0
    {
      len := 0;
    }
  }

  /** What a reservoir loses: nothing, or if it is full one value that no other is lighter than. */
  ghost predicate Dropped(contents: multiset<Sample>, dropped: multiset<Sample>, full: bool) {
    && |dropped| == (if full then 1 else 0) && dropped <= contents
    && forall x, y :: x in dropped && y in contents ==> x.k <= y.k
  }

  lemma DroppedNone(contents: multiset<Sample>)
    ensures Dropped(contents, multiset{}, false)
  {
  }

  lemma DroppedOne(contents: multiset<Sample>, rest: multiset<Sample>, least: Sample)
    requires contents == rest + multiset{least} && forall x :: x in contents ==> least.k <= x.k
    ensures Dropped(contents, multiset{least}, true)
  {
  }

  lemma ScaledNone(s: seq<Sample>, factor: real)
    ensures multiset(Scaled(s[..0], factor)) == multiset{}
  {
    assert Scaled(s[..0], factor) == [];
  }

  lemma ScaledMore(s: seq<Sample>, i: nat, factor: real)
    requires i < |s|
    ensures multiset(Scaled(s[..i + 1], factor)) == multiset(Scaled(s[..i], factor)) + multiset{Weighed(s[i], factor)}
  {
    hide Weighed;
    assert Scaled(s[..i + 1], factor) == Scaled(s[..i], factor) + [Weighed(s[i], factor)];
  }

  class ExpDecaySample {
    const reservoirSize: nat
    const values: SampleHeap
    var count: nat
    var t0: int
    var t1: int

    ghost predicate Valid()
      reads this, values, values.data
    {
      values.Valid() && values.data.Length == reservoirSize
    }

    constructor (reservoirSize: nat, now: int)
      ensures Valid() && fresh(values) && fresh(values.data) && values.len == 0 && count == 0
      ensures this.reservoirSize == reservoirSize
    {
      this.reservoirSize := reservoirSize;
      values := new SampleHeap(reservoirSize);
      count, t0, t1 := 0, now, now + RESCALE_THRESHOLD;
    }

    /** Reads one value and pushes it back scaled; the values not yet read stay where they are. */
    method RescaleOne(i: nat, n: nat, factor: real, ghost was: seq<Sample>)
      requires Valid() && values.len == i < n <= values.data.Length
      requires |was| == n && values.data[i..n] == was[i..]
      modifies values, values.data
      ensures Valid() && values.len == i + 1
      ensures values.Contents() == old(values.Contents()) + multiset{Weighed(was[i], factor)}
      ensures values.data[i + 1..n] == was[i + 1..]
    {
      hide Heap, Weighed;
      var v := values.data[i];
      assert v == values.data[i..n][0] == was[i];
      ghost var rest := values.data[i + 1..];
      assert rest[..n - i - 1] == values.data[i..n][1..] == was[i..][1..];
      values.Push(Weighed(v, factor));
      assert values.data[i + 1..n] == values.data[i + 1..][..n - i - 1] == rest[..n - i - 1];
    }

    /**
     Multiplies every weight by a factor.  The values are read from the very array
     they are pushed back into, one place behind the reading.
     */
    method Rescale(factor: real)
      requires Valid()
      modifies values, values.data
      ensures Valid() && values.len == old(values.len)
      ensures values.Contents() == multiset(Scaled(old(values.data[..values.len]), factor))
    {
      hide Heap, Weighed, Scaled;
      var n := values.len;
      ghost var was := values.data[..n];
      ScaledNone(was, factor);
      values.Clear();
      for i := 0 to n
        invariant Valid() && values.len == i
        invariant values.Contents() == multiset(Scaled(was[..i], factor))
        invariant values.data[i..n] == was[i..]
      {
        ScaledMore(was, i, factor);
        RescaleOne(i, n, factor, was);
      }
      assert was[..n] == was;
    }

    /** Makes room by dropping a lightest value if need be, and adds the new one. */
    method Insert(s: Sample) returns (ghost dropped: multiset<Sample>)
      requires Valid() && reservoirSize > 0
      modifies values, values.data
      ensures Valid() && values.len == if old(values.len) == reservoirSize then reservoirSize else old(values.len) + 1
      ensures values.Contents() + dropped == old(values.Contents()) + multiset{s}
      ensures Dropped(old(values.Contents()), dropped, old(values.len) == reservoirSize)
    {
      hide Heap, Dropped;
      ghost var contents := values.Contents();
      dropped := multiset{};
      DroppedNone(contents);
      if values.len == reservoirSize {
        var least := values.Pop();
        dropped := multiset{least};
        DroppedOne(contents, values.Contents(), least);
      }
      values.Push(s);
    }

    /**
     Records a value.  A full reservoir first drops a lightest one (a reservoir of
     size zero has none to drop, and panics); past the threshold all weights,
     the new one's included, are rescaled.
     */
    method Update(now: int, k: real, v: int, factor: real)
      returns (panicked: bool, ghost dropped: multiset<Sample>, ghost mid: seq<Sample>)
      requires Valid()
      modifies this, values, values.data
      ensures panicked <==> reservoirSize == 0
      ensures Valid() && count == old(count) + 1
      ensures !panicked ==>
        && values.len == (if old(values.len) == reservoirSize then reservoirSize else old(values.len) + 1)
        && multiset(mid) + dropped == old(values.Contents()) + multiset{Sample(k, v)}
        && Dropped(old(values.Contents()), dropped, old(values.len) == reservoirSize)
        && values.Contents() == multiset(if now > old(t1) then Scaled(mid, factor) else mid)
        && (if now > old(t1) then t0 == now && t1 == now + RESCALE_THRESHOLD else t0 == old(t0) && t1 == old(t1))
    {
      hide Heap, Weighed, Scaled, Dropped;
      count, dropped, mid := count + 1, multiset{}, [];
      if reservoirSize == 0 {
        return true, dropped, mid;  // taking the root of an empty heap
      }
      dropped := Insert(Sample(k, v));
      mid := values.data[..values.len];
      if now > t1 {
        t0, t1 := now, now + RESCALE_THRESHOLD;
        Rescale(factor);
      }
      panicked := false;
    }
  }
}

/**
 The binary heap of Go's container/heap, on which the nonce index, the price
 heap and the dial history are built.  A heap is a sequence; the order of its
 elements is given by an integer rank, smallest first.
 */
module Heaps {

  /** Go divides toward zero, so the parent of the root is the root itself. */
  function Parent(i: nat): (p: nat)
    ensures p <= i
  {
    if i == 0 then 0 else (i - 1) / 2
  }

  /** Entry k is no smaller than its parent. */
  ghost predicate Ordered<T>(h: seq<T>, rank: T -> int, k: nat)
    requires k < |h|
  {
    rank(h[Parent(k)]) <= rank(h[k])
  }

  /** Every entry whose parent is at `lo` or later is no smaller than its parent. */
  ghost predicate HeapFrom<T>(h: seq<T>, rank: T -> int, lo: nat) {
    forall k :: 0 < k < |h| && Parent(k) >= lo ==> Ordered(h, rank, k)
  }

  ghost predicate IsHeap<T>(h: seq<T>, rank: T -> int) {
    HeapFrom(h, rank, 0)
  }

  /** The root of a heap is a smallest element. */
  lemma {:induction false} RootIsLeast<T>(h: seq<T>, rank: T -> int, i: nat)
    requires IsHeap(h, rank) && i < |h|
    ensures rank(h[0]) <= rank(h[i])
    decreases i
  {
    if i > 0 {
      RootIsLeast(h, rank, Parent(i));
    }
  }

  function Swap<T>(h: seq<T>, i: nat, j: nat): (r: seq<T>)
    requires i < |h| && j < |h|
    ensures |r| == |h| && r[i] == h[j] && r[j] == h[i]
    ensures forall k :: 0 <= k < |h| && k != i && k != j ==> r[k] == h[k]
    ensures multiset(r) == multiset(h)
  {
    h[i := h[j]][j := h[i]]
  }

  lemma MultisetSplit<T>(h: seq<T>, x: T)
    ensures multiset(h + [x]) == multiset(h) + multiset{x}
  {
  }

  /** Apart from the edge above j, the heap is in order, also when j is skipped. */
  ghost predicate OrderedBut<T>(h: seq<T>, rank: T -> int, j: nat)
    requires j < |h|
  {
    && (forall k :: 0 < k < |h| && k != j ==> Ordered(h, rank, k))
    && (forall k :: 0 < k < |h| && Parent(k) == j && j > 0 ==> rank(h[Parent(j)]) <= rank(h[k]))
  }

  lemma UpStep<T>(h: seq<T>, rank: T -> int, j: nat)
    requires 0 < j < |h| && OrderedBut(h, rank, j)
    requires rank(h[j]) < rank(h[Parent(j)])
    ensures OrderedBut(Swap(h, Parent(j), j), rank, Parent(j))
  {
    var i := Parent(j);
    var g := Swap(h, i, j);
    forall k | 0 < k < |h| && k != i ensures Ordered(g, rank, k) {
      assert k == j || Ordered(h, rank, k);
    }
    forall k | 0 < k < |h| && Parent(k) == i && i > 0 ensures rank(g[Parent(i)]) <= rank(g[k]) {
      assert Ordered(h, rank, i);
      assert k == j || Ordered(h, rank, k);
    }
  }

  /** An element that occurs at two places is counted twice. */
  lemma TwiceCounted<T>(s: seq<T>, i: nat, j: nat)
    requires i < j < |s|
    ensures s[i] == s[j] ==> multiset(s)[s[i]] >= 2
  {
    assert s == s[..j] + s[j..];
    assert s[i] in s[..j] by { assert s[..j][i] == s[i]; }
    assert s[j] in s[j..] by { assert s[j..][0] == s[j]; }
  }

  /** Sift entry j towards the root; only the edge above j may be out of order. */
  method Up<T>(h0: seq<T>, rank: T -> int, j0: nat) returns (h: seq<T>)
    requires j0 < |h0| && OrderedBut(h0, rank, j0)
    ensures |h| == |h0| && multiset(h) == multiset(h0)
    ensures IsHeap(h, rank)
  {
    h := h0;
    var j: nat := j0;
    while true
      invariant |h| == |h0| && j < |h|
      invariant multiset(h) == multiset(h0)
      invariant OrderedBut(h, rank, j)
      decreases j
    {
      var i := Parent(j);
      if i == j || !(rank(h[j]) < rank(h[i])) {
        break;
      }
      UpStep(h, rank, j);
      h := Swap(h, i, j);
      j := i;
    }
  }

  /**
   From `lo` on, apart from the edges below i (and the one above i, when `top`),
   the heap is in order, also when i is skipped.
   */
  ghost predicate OrderedAround<T>(h: seq<T>, rank: T -> int, lo: nat, i: nat, top: bool) {
    && (forall k :: 0 < k < |h| && Parent(k) >= lo && Parent(k) != i && !(top && k == i) ==> Ordered(h, rank, k))
    && (forall k :: 0 < k < |h| && Parent(k) == i && i > 0 && Parent(i) >= lo ==> rank(h[Parent(i)]) <= rank(h[k]))
  }

  lemma DownStep<T>(h: seq<T>, rank: T -> int, lo: nat, i: nat, j: nat, top: bool)
    requires OrderedAround(h, rank, lo, i, top)
    requires i < j < |h| && Parent(j) == i
    requires forall k :: 0 < k < |h| && Parent(k) == i ==> rank(h[j]) <= rank(h[k])
    requires rank(h[j]) < rank(h[i])
    ensures OrderedAround(Swap(h, i, j), rank, lo, j, false)
  {
    var g := Swap(h, i, j);
    forall k | 0 < k < |h| && Parent(k) >= lo && Parent(k) != j ensures Ordered(g, rank, k) {
      assert Parent(k) == i || k == i || Ordered(h, rank, k);
    }
    forall k | 0 < k < |h| && Parent(k) == j && i >= lo ensures rank(g[i]) <= rank(g[k]) {
      assert Ordered(h, rank, k);
    }
  }

  /** The child of i that ranks lower, the left one if they rank the same. */
  method LesserChild<T>(h: seq<T>, rank: T -> int, i: nat) returns (j: nat)
    requires 2 * i + 1 < |h|
    ensures i < j < |h| && Parent(j) == i
    ensures forall k :: 0 < k < |h| && Parent(k) == i ==> rank(h[j]) <= rank(h[k])
  {
    j := 2 * i + 1;
    if j + 1 < |h| && rank(h[j + 1]) < rank(h[j]) {
      j := j + 1;
    }
  }

  lemma DownEnds<T>(h: seq<T>, rank: T -> int, lo: nat, i: nat, top: bool)
    requires OrderedAround(h, rank, lo, i, top) && i <= |h|
    requires forall k :: 0 < k < |h| && Parent(k) == i ==> Ordered(h, rank, k)
    ensures !top ==> HeapFrom(h, rank, lo)
    ensures forall k :: 0 < k < |h| && Parent(k) >= lo && k != i ==> Ordered(h, rank, k)
  {
  }

  /**
   Sift entry i0 away from the root, and tell whether it moved.  The edge above
   i0 may also be out of order: if the entry moves, what replaces it is in order
   there; if not, nothing changes.
   */
  method Down<T>(h0: seq<T>, rank: T -> int, i0: nat, ghost lo: nat) returns (h: seq<T>, moved: bool)
    requires i0 <= |h0| && OrderedAround(h0, rank, lo, i0, true)
    ensures |h| == |h0| && multiset(h) == multiset(h0)
    ensures moved ==> HeapFrom(h, rank, lo)
    ensures !moved ==> h == h0 && forall k :: 0 < k < |h0| && Parent(k) >= lo && k != i0 ==> Ordered(h, rank, k)
  {
    hide OrderedAround, HeapFrom;
    h := h0;
    var i: nat := i0;
    while true
      invariant i0 <= i <= |h| == |h0|
      invariant multiset(h) == multiset(h0)
      invariant i == i0 ==> h == h0
      invariant OrderedAround(h, rank, lo, i, i == i0)
      decreases |h| - i
    {
      if 2 * i + 1 >= |h| {
        break;
      }
      var j := LesserChild(h, rank, i);
      if !(rank(h[j]) < rank(h[i])) {
        break;
      }
      DownStep(h, rank, lo, i, j, i == i0);
      h := Swap(h, i, j);
      i := j;
    }
    DownEnds(h, rank, lo, i, i == i0);
    moved := i > i0;
  }

  /** heap.Init */
  method Init<T>(h0: seq<T>, rank: T -> int) returns (h: seq<T>)
    ensures IsHeap(h, rank)
    ensures multiset(h) == multiset(h0) && |h| == |h0|
  {
    h := h0;
    var i: nat := |h| / 2;
    while i > 0
      invariant i <= |h| / 2 && |h| == |h0|
      invariant multiset(h) == multiset(h0)
      invariant HeapFrom(h, rank, i)
    {
      i := i - 1;
      var g, _ := Down(h, rank, i, i);
      h := g;
    }
  }

  /** heap.Push */
  method Push<T>(h0: seq<T>, rank: T -> int, x: T) returns (h: seq<T>)
    requires IsHeap(h0, rank)
    ensures IsHeap(h, rank)
    ensures multiset(h) == multiset(h0) + multiset{x} && |h| == |h0| + 1
  {
    MultisetSplit(h0, x);
    h := Up(h0 + [x], rank, |h0|);
  }

  /** heap.Pop: takes out a smallest element. */
  method Pop<T>(h0: seq<T>, rank: T -> int) returns (h: seq<T>, x: T)
    requires IsHeap(h0, rank) && |h0| > 0
    ensures IsHeap(h, rank) && |h| == |h0| - 1
    ensures x == h0[0] && multiset(h0) == multiset(h) + multiset{x}
    ensures forall y :: y in h0 ==> rank(x) <= rank(y)
  {
    forall y | y in h0 ensures rank(h0[0]) <= rank(y) {
      var i :| 0 <= i < |h0| && h0[i] == y;
      RootIsLeast(h0, rank, i);
    }
    var n := |h0| - 1;
    var g := Swap(h0, 0, n);
    x := g[n];
    assert g == g[..n] + [x];
    MultisetSplit(g[..n], x);
    var moved;
    h, moved := Down(g[..n], rank, 0, 0);
  }

  lemma PrefixIsHeap<T>(h: seq<T>, rank: T -> int)
    requires IsHeap(h, rank) && |h| > 0
    ensures IsHeap(h[..|h| - 1], rank)
  {
    var g := h[..|h| - 1];
    forall k | 0 < k < |g| ensures Ordered(g, rank, k) {
      assert Ordered(h, rank, k);
    }
  }

  /** Overwriting entry i of a heap by its last one spoils only the edges at i. */
  lemma OverwriteByLast<T>(h: seq<T>, rank: T -> int, i: nat)
    requires IsHeap(h, rank) && i < |h| - 1
    ensures OrderedAround(Swap(h, i, |h| - 1)[..|h| - 1], rank, 0, i, true)
  {
    var g := Swap(h, i, |h| - 1)[..|h| - 1];
    forall k | 0 < k < |g| && Parent(k) != i && k != i ensures Ordered(g, rank, k) {
      assert Ordered(h, rank, k);
    }
    forall k | 0 < k < |g| && Parent(k) == i && i > 0 ensures rank(g[Parent(i)]) <= rank(g[k]) {
      assert Ordered(h, rank, i) && Ordered(h, rank, k);
    }
  }

  /** Sifts an entry that is out of order either way. */
  method Fix<T>(h0: seq<T>, rank: T -> int, i: nat) returns (h: seq<T>)
    requires i < |h0| && OrderedAround(h0, rank, 0, i, true)
    ensures IsHeap(h, rank) && |h| == |h0| && multiset(h) == multiset(h0)
  {
    var moved;
    h, moved := Down(h0, rank, i, 0);
    if !moved {
      assert OrderedBut(h, rank, i);
      h := Up(h, rank, i);
    }
  }

  /** heap.Remove: takes out the element at index i. */
  method Remove<T>(h0: seq<T>, rank: T -> int, i: nat) returns (h: seq<T>, x: T)
    requires IsHeap(h0, rank) && i < |h0|
    ensures IsHeap(h, rank) && |h| == |h0| - 1
    ensures x == h0[i] && multiset(h0) == multiset(h) + multiset{x}
  {
    hide IsHeap, OrderedAround;
    var n := |h0| - 1;
    var g := Swap(h0, i, n);
    x := g[n];
    assert g == g[..n] + [x];
    MultisetSplit(g[..n], x);
    h := g[..n];
    if i == n {
      PrefixIsHeap(h0, rank);
      assert h == h0[..n];
    } else {
      OverwriteByLast(h0, rank, i);
      h := Fix(h, rank, i);
    }
  }

  ghost predicate Ascending<T>(s: seq<T>, rank: T -> int) {
    forall i, j :: 0 <= i < j < |s| ==> rank(s[i]) <= rank(s[j])
  }

  lemma InsertKeepsOrder<T>(s: seq<T>, rank: T -> int, x: T, k: nat)
    requires Ascending(s, rank) && k <= |s|
    requires forall j :: 0 <= j < k ==> rank(s[j]) <= rank(x)
    requires forall j :: k <= j < |s| ==> rank(x) < rank(s[j])
    ensures Ascending(s[..k] + [x] + s[k..], rank)
  {
    var r := s[..k] + [x] + s[k..];
    forall i, j | 0 <= i < j < |r| ensures rank(r[i]) <= rank(r[j]) {
      assert r[i] == if i < k then s[i] else if i == k then x else s[i - 1];
      assert r[j] == if j < k then s[j] else if j == k then x else s[j - 1];
    }
  }

  lemma MultisetInsert<T>(s: seq<T>, x: T, k: nat)
    requires k <= |s|
    ensures multiset(s[..k] + [x] + s[k..]) == multiset(s) + multiset{x}
  {
    assert s == s[..k] + s[k..];
  }

  /** Insert x in front of the first larger element. */
  method InsertAscending<T>(s0: seq<T>, rank: T -> int, x: T) returns (s: seq<T>)
    requires Ascending(s0, rank)
    ensures multiset(s) == multiset(s0) + multiset{x} && |s| == |s0| + 1
    ensures Ascending(s, rank)
  {
    var k: nat := |s0|;
    while k > 0 && rank(x) < rank(s0[k - 1])
      invariant k <= |s0|
      invariant forall j :: k <= j < |s0| ==> rank(x) < rank(s0[j])
    {
      k := k - 1;
    }
    s := s0[..k] + [x] + s0[k..];
    forall j | 0 <= j < k ensures rank(s0[j]) <= rank(x) {
      assert j == k - 1 || rank(s0[j]) <= rank(s0[k - 1]);
    }
    InsertKeepsOrder(s0, rank, x, k);
    MultisetInsert(s0, x, k);
  }

  /** sort.Sort: an ascending arrangement of the given elements. */
  method Sort<T>(s0: seq<T>, rank: T -> int) returns (s: seq<T>)
    ensures multiset(s) == multiset(s0) && |s| == |s0|
    ensures Ascending(s, rank)
  {
    s := [];
    for i := 0 to |s0|
      invariant multiset(s) == multiset(s0[..i]) && |s| == i
      invariant Ascending(s, rank)
    {
      assert s0[..i + 1] == s0[..i] + [s0[i]];
      s := InsertAscending(s, rank, s0[i]);
    }
    assert s0[..|s0|] == s0;
  }
}

/**
 txSortedMap: a nonce-to-transaction map with a heap of its nonces and a cache
 of its contents in nonce order, proved to behave like the plain map.
 */
module SortedMaps {
  import opened Txs
  import opened Heaps

  type TxMap = map<uint64, Tx>

  function NonceRank(n: uint64): int {
    n
  }

  function TxNonceRank(t: Tx): int {
    t.nonce
  }

  /** Every transaction is stored under its own nonce. */
  ghost predicate Keyed(m: TxMap) {
    forall n :: n in m ==> m[n].nonce == n
  }

  // ---------- the plain map ----------

  lemma {:induction false} FindLeast(s: set<uint64>) returns (n: uint64)
    requires s != {}
    ensures n in s && forall k :: k in s ==> n <= k
  {
    var x :| x in s;
    var rest := s - {x};
    n := x;
    if rest != {} {
      var l := FindLeast(rest);
      n := if l <= x then l else x;
    }
    assert forall k :: k in s ==> k == x || k in rest;
  }

  lemma {:induction false} FindGreatest(s: set<uint64>) returns (n: uint64)
    requires s != {}
    ensures n in s && forall k :: k in s ==> k <= n
  {
    var x :| x in s;
    var rest := s - {x};
    n := x;
    if rest != {} {
      var g := FindGreatest(rest);
      n := if x <= g then g else x;
    }
    assert forall k :: k in s ==> k == x || k in rest;
  }

  lemma HasLeast(s: set<uint64>)
    requires s != {}
    ensures exists n :: n in s && forall k :: k in s ==> n <= k
  {
    var n := FindLeast(s);
  }

  lemma HasGreatest(s: set<uint64>)
    requires s != {}
    ensures exists n :: n in s && forall k :: k in s ==> k <= n
  {
    var n := FindGreatest(s);
  }

  function Least(m: TxMap): (n: uint64)
    requires m != map[]
    ensures n in m && forall k :: k in m ==> n <= k
  {
    HasLeast(m.Keys);
    var n :| n in m.Keys && forall k :: k in m.Keys ==> n <= k;
    n
  }

  function Greatest(m: TxMap): (n: uint64)
    requires m != map[]
    ensures n in m && forall k :: k in m ==> k <= n
  {
    HasGreatest(m.Keys);
    var n :| n in m.Keys && forall k :: k in m.Keys ==> k <= n;
    n
  }

  lemma CardinalityWithout(m: TxMap, n: uint64)
    requires n in m
    ensures |m - {n}| == |m| - 1
  {
    assert (m - {n}).Keys == m.Keys - {n};
    assert |(m - {n}).Keys| == |m.Keys| - 1;
  }

  /** The contents of the map in ascending nonce order. */
  function Sorted(m: TxMap): (s: seq<Tx>)
    ensures |s| == |m|
    decreases |m|
  {
    if m == map[] then [] else
      var n := Least(m);
      assert |m - {n}| == |m| - 1 by { CardinalityWithout(m, n); }
      [m[n]] + Sorted(m - {n})
  }

  /** What Forward leaves, and what it takes out. */
  function FromNonce(m: TxMap, threshold: nat): TxMap {
    map n | n in m && n >= threshold :: m[n]
  }

  function BelowNonce(m: TxMap, threshold: nat): TxMap {
    map n | n in m && n < threshold :: m[n]
  }

  /** What Filter leaves, and what it takes out. */
  function Failing(m: TxMap, f: Tx -> bool): TxMap {
    map n | n in m && !f(m[n]) :: m[n]
  }

  function Passing(m: TxMap, f: Tx -> bool): TxMap {
    map n | n in m && f(m[n]) :: m[n]
  }

  /** What Cap leaves: the `limit` lowest nonces. */
  function Lowest(m: TxMap, limit: nat): (r: TxMap)
    ensures |r| == (if |m| <= limit then |m| else limit)
    ensures forall n :: n in r ==> n in m && r[n] == m[n]
    ensures forall n, k :: n in r && k in m && k !in r ==> n < k
    decreases |m|
  {
    if |m| <= limit then m else
      var g := Greatest(m);
      CardinalityWithout(m, g);
      Lowest(m - {g}, limit)
  }

  /** The first nonce at or after n that is not in the map. */
  function RunEnd(m: TxMap, n: nat): (e: nat)
    requires n <= TWO64
    ensures n <= e <= TWO64
    ensures forall k :: n <= k < e ==> k in m
    ensures e !in m
    decreases TWO64 - n
  {
    if n in m then RunEnd(m, n + 1) else n
  }

  /** The end of the run of consecutive nonces that Ready hands out. */
  function ReadyEnd(m: TxMap, start: nat): (e: nat)
    ensures e <= TWO64
  {
    if m == map[] || Least(m) > start then 0 else RunEnd(m, Least(m))
  }

  // ---------- facts about the sorted contents ----------

  /** `s` lists the contents of m, each once. */
  ghost predicate Lists(s: seq<Tx>, m: TxMap) {
    && |s| == |m|
    && (forall i :: 0 <= i < |s| ==> s[i].nonce in m && m[s[i].nonce] == s[i])
    && (forall i, j :: 0 <= i < j < |s| ==> s[i].nonce != s[j].nonce)
  }

  ghost predicate StrictlyAscending(s: seq<Tx>) {
    forall i, j :: 0 <= i < j < |s| ==> s[i].nonce < s[j].nonce
  }

  lemma {:induction false} SortedLists(m: TxMap)
    requires Keyed(m)
    ensures Lists(Sorted(m), m) && StrictlyAscending(Sorted(m))
    decreases |m|
  {
    if m != map[] {
      var n := Least(m);
      CardinalityWithout(m, n);
      SortedLists(m - {n});
    }
  }

  /** The nonces in a listing are exactly the keys of the map. */
  lemma ListingCovers(s: seq<Tx>, m: TxMap)
    requires Lists(s, m)
    ensures forall n :: n in m ==> m[n] in s
    decreases |s|
  {
    if m != map[] {
      var t := s[|s| - 1];
      var r := m - {t.nonce};
      CardinalityWithout(m, t.nonce);
      ListingCovers(s[..|s| - 1], r);
      forall n | n in m ensures m[n] in s {
        if n != t.nonce {
          assert r[n] in s[..|s| - 1];
        }
      }
    }
  }

  lemma FirstIsLeast(s: seq<Tx>, m: TxMap)
    requires m != map[] && Keyed(m) && Lists(s, m) && StrictlyAscending(s)
    ensures s[0].nonce == Least(m)
  {
    hide Least;
    ListingCovers(s, m);
    var n := Least(m);
    var i :| 0 <= i < |s| && s[i] == m[n];
    assert s[0].nonce in m;
  }

  lemma ListingTail(s: seq<Tx>, m: TxMap)
    requires s != [] && Lists(s, m) && StrictlyAscending(s) && |m - {s[0].nonce}| == |m| - 1
    ensures Lists(s[1..], m - {s[0].nonce}) && StrictlyAscending(s[1..])
  {
    var t := s[1..];
    forall i | 0 <= i < |t| ensures t[i].nonce in m - {s[0].nonce} {
      assert t[i] == s[i + 1];
    }
  }

  lemma AscendingListingStarts(s: seq<Tx>, m: TxMap)
    requires m != map[] && Keyed(m) && Lists(s, m) && StrictlyAscending(s)
    ensures s[0].nonce == Least(m) && Lists(s[1..], m - {Least(m)}) && StrictlyAscending(s[1..])
  {
    FirstIsLeast(s, m);
    CardinalityWithout(m, s[0].nonce);
    ListingTail(s, m);
  }

  /** An ascending listing of a map is its sorted contents. */
  lemma {:induction false} AscendingListingIsSorted(s: seq<Tx>, m: TxMap)
    requires Keyed(m) && Lists(s, m) && StrictlyAscending(s)
    ensures s == Sorted(m)
    decreases |m|
  {
    if m != map[] {
      AscendingListingStarts(s, m);
      CardinalityWithout(m, Least(m));
      AscendingListingIsSorted(s[1..], m - {Least(m)});
      assert s == [s[0]] + s[1..];
    }
  }

  lemma SplitCardinality(m: TxMap, k: nat)
    ensures |BelowNonce(m, k)| + |FromNonce(m, k)| == |m|
  {
    var lo, hi := BelowNonce(m, k), FromNonce(m, k);
    assert lo.Keys + hi.Keys == m.Keys && lo.Keys !! hi.Keys;
    assert |lo.Keys + hi.Keys| == |lo.Keys| + |hi.Keys|;
  }

  lemma JoinListings(a: seq<Tx>, b: seq<Tx>, m: TxMap, k: nat)
    requires Lists(a, BelowNonce(m, k)) && StrictlyAscending(a)
    requires Lists(b, FromNonce(m, k)) && StrictlyAscending(b)
    ensures Lists(a + b, m) && StrictlyAscending(a + b)
  {
    SplitCardinality(m, k);
    var s := a + b;
    forall i | 0 <= i < |s| ensures s[i].nonce in m && m[s[i].nonce] == s[i] {
      assert s[i] == if i < |a| then a[i] else b[i - |a|];
    }
    forall i, j | 0 <= i < j < |s| ensures s[i].nonce < s[j].nonce {
      assert s[i] == if i < |a| then a[i] else b[i - |a|];
      assert s[j] == if j < |a| then a[j] else b[j - |a|];
    }
  }

  /** Splitting a map at a nonce splits its sorted contents. */
  lemma SortedSplits(m: TxMap, k: nat)
    requires Keyed(m)
    ensures Sorted(m) == Sorted(BelowNonce(m, k)) + Sorted(FromNonce(m, k))
  {
    var lo, hi := BelowNonce(m, k), FromNonce(m, k);
    SortedLists(lo);
    SortedLists(hi);
    JoinListings(Sorted(lo), Sorted(hi), m, k);
    AscendingListingIsSorted(Sorted(lo) + Sorted(hi), m);
  }

  // ---------- the heap index ----------

  /** The index is a heap that holds each stored nonce once. */
  ghost predicate Indexes(index: seq<uint64>, m: TxMap) {
    IsHeap(index, NonceRank) && multiset(index) == multiset(m.Keys)
  }

  lemma IndexMembers(index: seq<uint64>, m: TxMap)
    requires multiset(index) == multiset(m.Keys)
    ensures |index| == |m|
    ensures forall n :: n in index <==> n in m
  {
    assert |multiset(index)| == |index| && |multiset(m.Keys)| == |m.Keys|;
    forall n ensures n in index <==> n in m {
      assert n in index <==> n in multiset(index);
      assert n in m.Keys <==> n in multiset(m.Keys);
    }
  }

  /** The root of the index is the lowest stored nonce. */
  lemma RootIsLeastNonce(index: seq<uint64>, m: TxMap)
    requires Indexes(index, m) && |index| > 0
    ensures m != map[] && index[0] == Least(m)
  {
    IndexMembers(index, m);
    assert index[0] in m;
    var n := Least(m);
    var i :| 0 <= i < |index| && index[i] == n;
    RootIsLeast(index, NonceRank, i);
  }

  lemma KeysWithout(m: TxMap, n: uint64)
    requires n in m
    ensures multiset((m - {n}).Keys) + multiset{n} == multiset(m.Keys)
  {
    assert (m - {n}).Keys == m.Keys - {n};
  }

  lemma KeysWith(m: TxMap, t: Tx)
    requires t.nonce !in m
    ensures multiset(m[t.nonce := t].Keys) == multiset(m.Keys) + multiset{t.nonce}
  {
    assert m[t.nonce := t].Keys == m.Keys + {t.nonce};
  }

  /** Taking one nonce out of the index and the map keeps them in step. */
  lemma IndexWithout(index: seq<uint64>, rest: seq<uint64>, m: TxMap, n: uint64)
    requires multiset(index) == multiset(m.Keys) && n in m
    requires multiset(index) == multiset(rest) + multiset{n}
    ensures multiset(rest) == multiset((m - {n}).Keys)
  {
    KeysWithout(m, n);
    assert multiset(rest) == multiset(index) - multiset{n};
    assert multiset((m - {n}).Keys) == multiset(m.Keys) - multiset{n};
  }

  /** An ascending arrangement of the keys ends with the greatest. */
  lemma LastIsGreatest(index: seq<uint64>, m: TxMap)
    requires multiset(index) == multiset(m.Keys) && Ascending(index, NonceRank) && |index| > 0
    ensures m != map[] && index[|index| - 1] == Greatest(m)
  {
    IndexMembers(index, m);
    var last := index[|index| - 1];
    assert last in index;
    assert last in m;
    var n := Greatest(m);
    assert n in index;
    var i :| 0 <= i < |index| && index[i] == n;
    assert i == |index| - 1 || NonceRank(index[i]) <= NonceRank(last);
  }

  /** Filtering in progress: the nonces of `todo` have not been looked at, `out` is what was taken out. */
  ghost predicate Sifted(all: TxMap, items: TxMap, out: TxMap, todo: set<uint64>, f: Tx -> bool) {
    && items == (map n | n in all && (n in todo || !f(all[n])) :: all[n])
    && out == (map n | n in all && n !in todo && f(all[n]) :: all[n])
  }

  lemma SiftStarts(all: TxMap, f: Tx -> bool)
    ensures Sifted(all, all, map[], all.Keys, f)
  {
  }

  lemma SiftOne(all: TxMap, items: TxMap, out: TxMap, todo: set<uint64>, f: Tx -> bool, n: uint64)
    requires Sifted(all, items, out, todo, f) && Keyed(items) && n in todo && todo <= all.Keys
    ensures n in items && n !in out && items[n].nonce == n && Keyed(items - {n})
    ensures if f(items[n]) then Sifted(all, items - {n}, out[n := items[n]], todo - {n}, f)
            else Sifted(all, items, out, todo - {n}, f)
  {
  }

  lemma SiftEnds(all: TxMap, items: TxMap, out: TxMap, f: Tx -> bool)
    requires Sifted(all, items, out, {}, f)
    ensures items == Failing(all, f) && out == Passing(all, f)
  {
  }

  function Reversed(s: seq<Tx>): (r: seq<Tx>)
    ensures |r| == |s|
    ensures forall i :: 0 <= i < |s| ==> r[i] == s[|s| - 1 - i]
  {
    seq(|s|, i requires 0 <= i < |s| => s[|s| - 1 - i])
  }

  lemma ReversedSnoc(s: seq<Tx>, t: Tx)
    ensures Reversed(s + [t]) == [t] + Reversed(s)
  {
  }

  /** Cap(k) is Cap(k + 1) followed by dropping the highest nonce. */
  lemma {:induction false} LowestStep(m: TxMap, k: nat)
    requires |m| > k
    ensures Lowest(m, k + 1) != map[]
    ensures Lowest(m, k) == Lowest(m, k + 1) - {Greatest(Lowest(m, k + 1))}
    decreases |m|
  {
    var g := Greatest(m);
    CardinalityWithout(m, g);
    assert |Lowest(m, k + 1)| == k + 1;
    if |m| > k + 1 {
      LowestStep(m - {g}, k);
    }
  }

  lemma RunContinues(m: TxMap, n: nat)
    requires n <= TWO64
    ensures n in m ==> n < TWO64 && RunEnd(m, n) == RunEnd(m, n + 1)
    ensures n !in m ==> RunEnd(m, n) == n
  {
  }

  /**
   What Ready hands out is the maximal run of consecutive nonces that starts at
   the lowest one, or nothing if that lies beyond `start`.
   */
  lemma ReadyIsMaximalRun(m: TxMap, start: nat)
    ensures var e := ReadyEnd(m, start);
      if m == map[] || Least(m) > start then BelowNonce(m, e) == map[] && FromNonce(m, e) == m
      else
        && e !in m
        && RunEnd(BelowNonce(m, e), Least(m)) == e
        && forall n :: n in BelowNonce(m, e) <==> Least(m) <= n < e
  {
    var e := ReadyEnd(m, start);
    if m == map[] || Least(m) > start {
      assert BelowNonce(m, e) == map[] && FromNonce(m, e) == m;
    } else {
      var e' := RunEnd(BelowNonce(m, e), Least(m));
      assert e' < e ==> e' in BelowNonce(m, e);
      assert e < e' ==> e in BelowNonce(m, e);
    }
  }

  lemma LowestOfFew(m: TxMap, limit: nat)
    ensures |m| <= limit ==> Lowest(m, limit) == m
  {
  }

  lemma CancelSuffix(a: seq<Tx>, b: seq<Tx>, c: seq<Tx>)
    requires a + c == b + c
    ensures a == b
  {
    assert |a| == |b|;
    assert a == (a + c)[..|a|];
    assert b == (b + c)[..|b|];
  }

  lemma NothingAtNext(index: seq<uint64>, items: TxMap, next: nat)
    requires Indexes(index, items) && (|index| == 0 || index[0] != next) && forall n :: n in items ==> n >= next
    ensures next !in items
  {
    IndexMembers(index, items);
    if |index| > 0 {
      RootIsLeastNonce(index, items);
    }
  }

  /** What was taken in order, when what is left is all from e, is all below e in order. */
  lemma ReadyIsBelow(all: TxMap, items: TxMap, ready: seq<Tx>, e: nat)
    requires Keyed(all) && Sorted(all) == ready + Sorted(items)
    requires forall n :: n in items <==> n in all && n >= e
    requires forall n :: n in items ==> items[n] == all[n]
    ensures items == FromNonce(all, e) && ready == Sorted(BelowNonce(all, e))
  {
    hide Sorted;
    assert items == FromNonce(all, e);
    SortedSplits(all, e);
    CancelSuffix(ready, Sorted(BelowNonce(all, e)), Sorted(items));
  }

  lemma AppendListing(s: seq<Tx>, m: TxMap, t: Tx)
    requires Lists(s, m) && t.nonce !in m
    ensures Lists(s + [t], m[t.nonce := t])
  {
    assert m[t.nonce := t].Keys == m.Keys + {t.nonce};
  }

  lemma DropGreatest(m: TxMap)
    requires Keyed(m) && m != map[]
    ensures Sorted(m) == Sorted(m - {Greatest(m)}) + [m[Greatest(m)]]
    ensures |m - {Greatest(m)}| == |m| - 1
  {
    var g := Greatest(m);
    var rest := m - {g};
    CardinalityWithout(m, g);
    SortedLists(rest);
    AppendListing(Sorted(rest), rest, m[g]);
    assert rest[g := m[g]] == m;
    AscendingListingIsSorted(Sorted(rest) + [m[g]], m);
  }

  lemma AscendingPrefix(order: seq<uint64>, k: nat)
    requires Ascending(order, NonceRank) && k <= |order|
    ensures Ascending(order[..k], NonceRank)
  {
  }

  /** Dropping the last of the ascending nonces drops the greatest. */
  lemma CapStep(order: seq<uint64>, m: TxMap, threshold: nat)
    requires Keyed(m) && |m| > threshold
    requires multiset(order) == multiset(m.Keys) && Ascending(order, NonceRank)
    ensures |order| == |m|
    ensures var n: uint64, rest: seq<uint64> := order[|m| - 1], order[..|m| - 1];
      && n in m && |m - {n}| == |m| - 1
      && multiset(rest) == multiset((m - {n}).Keys) && Ascending(rest, NonceRank)
      && Lowest(m, threshold) == Lowest(m - {n}, threshold)
      && Sorted(m) == Sorted(m - {n}) + [m[n]]
  {
    hide Sorted, Ascending, Greatest;
    IndexMembers(order, m);
    LastIsGreatest(order, m);
    DropGreatest(m);
    AscendingPrefix(order, |m| - 1);
    var n: uint64, rest: seq<uint64> := order[|m| - 1], order[..|m| - 1];
    assert order == rest + [n];
    MultisetSplit(rest, n);
    IndexWithout(order, rest, m, n);
  }

  lemma EmptyListing()
    ensures Lists([], map[])
  {
  }

  lemma {:induction false} CountsOnce(s: seq<Tx>, m: TxMap, t: Tx)
    requires Lists(s, m)
    ensures multiset(s)[t] <= 1
    decreases |s|
  {
    if s != [] {
      var l := |s| - 1;
      assert s == s[..l] + [s[l]];
      CardinalityWithout(m, s[l].nonce);
      CountsOnce(s[..l], m - {s[l].nonce}, t);
      if s[l] == t {
        assert t !in s[..l];
      }
    }
  }

  lemma SortedListing(s: seq<Tx>, sorted: seq<Tx>, m: TxMap)
    requires Keyed(m) && Lists(s, m)
    requires multiset(sorted) == multiset(s) && |sorted| == |s| && Ascending(sorted, TxNonceRank)
    ensures sorted == Sorted(m)
  {
    forall i | 0 <= i < |sorted| ensures sorted[i].nonce in m && m[sorted[i].nonce] == sorted[i] {
      assert sorted[i] in multiset(s);
    }
    forall i, j | 0 <= i < j < |sorted| ensures sorted[i].nonce < sorted[j].nonce {
      assert TxNonceRank(sorted[i]) <= TxNonceRank(sorted[j]);
      TwiceCounted(sorted, i, j);
      CountsOnce(s, m, sorted[i]);
    }
    AscendingListingIsSorted(sorted, m);
  }

  class TxSortedMap {
    var items: TxMap
    var index: seq<uint64>
    var cache: Option<seq<Tx>>

    ghost predicate Valid()
      reads this
    {
      && Keyed(items)
      && Indexes(index, items)
      && (cache.Some? ==> cache.value == Sorted(items))
    }

    constructor ()
      ensures Valid() && items == map[]
    {
      items, index, cache := map[], [], None;
    }

    method Get(nonce: uint64) returns (t: Option<Tx>)
      ensures t == if nonce in items then Some(items[nonce]) else None
    {
      t := if nonce in items then Some(items[nonce]) else None;
    }

    method Put(t: Tx)
      requires Valid()
      modifies this
      ensures Valid() && items == old(items)[t.nonce := t]
    {
      if t.nonce !in items {
        KeysWith(items, t);
        index := Push(index, NonceRank, t.nonce);
      } else {
        assert items[t.nonce := t].Keys == items.Keys;
      }
      items, cache := items[t.nonce := t], None;
    }

    /** Takes the lowest nonce out of the heap and the map. */
    method PopLeast() returns (t: Tx)
      requires Keyed(items) && Indexes(index, items) && |index| > 0
      modifies `items, `index
      ensures Keyed(items) && Indexes(index, items)
      ensures old(items) != map[] && items == old(items) - {Least(old(items))}
      ensures t == old(items)[Least(old(items))]
      ensures Sorted(old(items)) == [t] + Sorted(items) && |items| < |old(items)|
    {
      RootIsLeastNonce(index, items);
      var rest, nonce := Pop(index, NonceRank);
      IndexWithout(index, rest, items, nonce);
      CardinalityWithout(items, nonce);
      t := items[nonce];
      index, items := rest, items - {nonce};
    }

    /** Takes out every nonce below the threshold, in nonce order. */
    method Forward(threshold: uint64) returns (removed: seq<Tx>)
      requires Valid()
      modifies this
      ensures Valid() && items == FromNonce(old(items), threshold)
      ensures removed == Sorted(BelowNonce(old(items), threshold))
    {
      hide IsHeap, Sorted;
      ghost var all := items;
      removed := [];
      while |index| > 0 && index[0] < threshold
        invariant Keyed(items) && Indexes(index, items) && cache == old(cache)
        invariant Sorted(all) == removed + Sorted(items)
        invariant forall n :: n in items ==> n in all && all[n] == items[n]
        invariant forall n :: n in all && n !in items ==> n < threshold
        decreases |items|
      {
        RootIsLeastNonce(index, items);
        var t := PopLeast();
        removed := removed + [t];
      }
      IndexMembers(index, items);
      if |index| > 0 {
        RootIsLeastNonce(index, items);
      }
      assert items == FromNonce(all, threshold);
      SortedSplits(all, threshold);
      CancelSuffix(removed, Sorted(BelowNonce(all, threshold)), Sorted(items));
      if cache.Some? {
        cache := Some(cache.value[|removed|..]);
      }
    }

    static method ListNonces(keys: set<uint64>) returns (s: seq<uint64>)
      ensures multiset(s) == multiset(keys)
    {
      s := [];
      var todo := keys;
      while todo != {}
        invariant todo <= keys && multiset(s) == multiset(keys - todo)
        decreases |todo|
      {
        var nonce :| nonce in todo;
        assert keys - (todo - {nonce}) == (keys - todo) + {nonce};
        todo := todo - {nonce};
        s := s + [nonce];
      }
      assert keys - todo == keys;
    }

    /** Collects the nonces anew and drops the cache. */
    method Rebuild()
      requires Keyed(items)
      modifies this
      ensures Valid() && items == old(items)
    {
      hide IsHeap, Sorted;
      var nonces := ListNonces(items.Keys);
      index := Init(nonces, NonceRank);
      cache := None;
    }

    /** Takes out every transaction satisfying f, in no particular order. */
    method Filter(f: Tx -> bool) returns (removed: seq<Tx>)
      requires Valid()
      modifies this
      ensures Valid() && items == Failing(old(items), f)
      ensures Lists(removed, Passing(old(items), f))
    {
      hide Indexes, Sorted, Lists, Sifted, Keyed, Failing, Passing;
      ghost var all := items;
      removed := [];
      EmptyListing();
      var todo := items.Keys;
      ghost var out: TxMap := map[];
      SiftStarts(all, f);
      while todo != {}
        invariant todo <= all.Keys && Keyed(items) && Sifted(all, items, out, todo, f) && Lists(removed, out)
        invariant unchanged(`index) && unchanged(`cache) && (removed == [] ==> items == all)
        decreases |todo|
      {
        var nonce :| nonce in todo;
        SiftOne(all, items, out, todo, f, nonce);
        todo := todo - {nonce};
        if f(items[nonce]) {
          AppendListing(removed, out, items[nonce]);
          removed := removed + [items[nonce]];
          out := out[nonce := items[nonce]];
          items := items - {nonce};
        }
      }
      SiftEnds(all, items, out, f);
      if |removed| > 0 {
        Rebuild();
      }
    }

    /** Takes out the highest nonces until `threshold` are left; `order` is the nonces in ascending order. */
    method DropHighest(order: seq<uint64>, threshold: nat) returns (rest: seq<uint64>, drops: seq<Tx>)
      requires Keyed(items) && threshold <= |items|
      requires Ascending(order, NonceRank) && multiset(order) == multiset(items.Keys)
      modifies `items
      ensures Keyed(items) && multiset(rest) == multiset(items.Keys)
      ensures items == Lowest(old(items), threshold) && Sorted(old(items)) == Sorted(items) + Reversed(drops)
    {
      hide Sorted, Lowest, Ascending, Reversed;
      ghost var all := items;
      rest, drops := order, [];
      assert Reversed(drops) == [];
      while |items| > threshold
        invariant threshold <= |items| && Keyed(items)
        invariant Ascending(rest, NonceRank) && multiset(rest) == multiset(items.Keys)
        invariant Lowest(items, threshold) == Lowest(all, threshold)
        invariant Sorted(all) == Sorted(items) + Reversed(drops)
      {
        CapStep(rest, items, threshold);
        var nonce := rest[|rest| - 1];
        ReversedSnoc(drops, items[nonce]);
        drops := drops + [items[nonce]];
        items, rest := items - {nonce}, rest[..|rest| - 1];
      }
      LowestOfFew(items, threshold);
    }

    /** Takes out the highest nonces, highest first, until `threshold` are left. */
    method Cap(threshold: nat) returns (drops: seq<Tx>)
      requires Valid()
      modifies this
      ensures Valid() && items == Lowest(old(items), threshold)
      ensures Sorted(old(items)) == Sorted(items) + Reversed(drops)
    {
      hide IsHeap, Sorted, Lowest, Ascending, Reversed;
      drops := [];
      assert Reversed(drops) == [];
      LowestOfFew(items, threshold);
      if |items| <= threshold {
        return;
      }
      var order := Sort(index, NonceRank);
      IndexMembers(index, items);
      order, drops := DropHighest(order, threshold);
      index := Init(order, NonceRank);
      if cache.Some? {
        cache := Some(cache.value[..|cache.value| - |drops|]);
      }
    }

    /** Takes out one nonce, telling whether it was there. */
    method Remove(nonce: uint64) returns (found: bool)
      requires Valid()
      modifies this
      ensures Valid() && items == old(items) - {nonce}
      ensures found == (nonce in old(items))
    {
      hide IsHeap, Sorted;
      if nonce !in items {
        assert items - {nonce} == items;
        return false;
      }
      IndexMembers(index, items);
      var i := 0;
      while i < |index| && index[i] != nonce
        invariant 0 <= i <= |index|
        invariant nonce !in index[..i]
      {
        i := i + 1;
      }
      assert index == index[..i] + index[i..];
      var rest, x := Heaps.Remove(index, NonceRank, i);
      IndexWithout(index, rest, items, nonce);
      index, items, cache := rest, items - {nonce}, None;
      return true;
    }

    /** Takes out the run of consecutive nonces from the lowest one. */
    method TakeRun(first: uint64) returns (ready: seq<Tx>)
      requires Keyed(items) && Indexes(index, items) && items != map[] && first == Least(items)
      modifies `items, `index
      ensures Keyed(items) && Indexes(index, items)
      ensures items == FromNonce(old(items), RunEnd(old(items), first))
      ensures ready == Sorted(BelowNonce(old(items), RunEnd(old(items), first)))
    {
      hide Indexes, Sorted, RunEnd, Least, FromNonce, BelowNonce;
      ghost var all := items;
      ready := [];
      var next: nat := first;
      ghost var e := RunEnd(all, next);
      while |index| > 0 && index[0] == next
        invariant Keyed(items) && Indexes(index, items) && next <= TWO64
        invariant forall n :: n in items <==> n in all && n >= next
        invariant forall n :: n in items ==> items[n] == all[n]
        invariant Sorted(all) == ready + Sorted(items)
        invariant e == RunEnd(all, next)
        decreases |items|
      {
        RootIsLeastNonce(index, items);
        RunContinues(all, next);
        var t := PopLeast();
        ready := ready + [t];
        next := next + 1;
      }
      NothingAtNext(index, items, next);
      RunContinues(all, next);
      ReadyIsBelow(all, items, ready, e);
    }

    /**
     Takes out the run of consecutive nonces from the lowest one, unless that
     lies after `start`.
     */
    method Ready(start: uint64) returns (ready: seq<Tx>)
      requires Valid()
      modifies this
      ensures Valid() && items == FromNonce(old(items), ReadyEnd(old(items), start))
      ensures ready == Sorted(BelowNonce(old(items), ReadyEnd(old(items), start)))
    {
      hide IsHeap, Sorted, RunEnd;
      ghost var all := items;
      ready := [];
      IndexMembers(index, items);
      if |index| > 0 {
        RootIsLeastNonce(index, items);
      }
      if |index| == 0 || index[0] > start {
        assert FromNonce(items, 0) == items && BelowNonce(items, 0) == map[];
        assert Sorted(map[]) == [];
        return;
      }
      ready := TakeRun(index[0]);
      cache := None;
    }

    method Len() returns (n: nat)
      ensures n == |items|
    {
      n := |items|;
    }

    /** The contents in nonce order, remembered until the next change. */
    method Flatten() returns (txs: seq<Tx>)
      requires Valid()
      modifies this
      ensures Valid() && items == old(items)
      ensures txs == Sorted(items)
    {
      if cache.None? {
        var s: seq<Tx> := [];
        var todo := items.Keys;
        ghost var seen: TxMap := map[];
        while todo != {}
          invariant todo <= items.Keys && items == old(items)
          invariant seen == map n | n in items && n !in todo :: items[n]
          invariant Lists(s, seen) && unchanged(`index)
          decreases |todo|
        {
          var nonce :| nonce in todo;
          AppendListing(s, seen, items[nonce]);
          todo := todo - {nonce};
          s := s + [items[nonce]];
          seen := seen[nonce := items[nonce]];
        }
        assert seen == items;
        var sorted := Sort(s, TxNonceRank);
        SortedListing(s, sorted, items);
        cache := Some(sorted);
      }
      txs := cache.value;
    }
  }
}

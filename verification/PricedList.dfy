/**
 txPricedList: a heap of transactions by price that is cleaned lazily.  An entry
 whose transaction has left the pool stays in the heap until it surfaces or the
 heap is rebuilt; `all` below is the set of transactions the pool really holds.
 */
module PricedLists {
  import opened Txs
  import opened Heaps

  /** Cheaper first; of two equally priced transactions the higher nonce first. */
  predicate Worse(t: Tx, u: Tx) {
    t.gasPrice < u.gasPrice || (t.gasPrice == u.gasPrice && t.nonce > u.nonce)
  }

  /** The price order as a number, nonces being below 2^64. */
  function PriceRank(t: Tx): int {
    t.gasPrice * TWO64 + (MAX_UINT64 - t.nonce)
  }

  lemma PriceRankIsOrder(t: Tx, u: Tx)
    ensures PriceRank(t) < PriceRank(u) <==> Worse(t, u)
    ensures PriceRank(t) <= PriceRank(u) ==> t.gasPrice <= u.gasPrice
  {
    if t.gasPrice < u.gasPrice {
      assert t.gasPrice + 1 <= u.gasPrice;
      assert (t.gasPrice + 1) * TWO64 <= u.gasPrice * TWO64;
    } else if u.gasPrice < t.gasPrice {
      assert u.gasPrice + 1 <= t.gasPrice;
      assert (u.gasPrice + 1) * TWO64 <= t.gasPrice * TWO64;
    }
  }

  /** accountSet.containsTx */
  predicate IsLocal(t: Tx, locals: set<Address>) {
    t.sender.Some? && t.sender.value in locals
  }

  /** Every transaction of the pool has an entry in the heap. */
  ghost predicate Covers(items: seq<Tx>, all: set<Tx>) {
    forall t :: t in all ==> t in items
  }

  /** Every transaction of the pool has an entry, and the entries beyond the transactions are counted as stale. */
  ghost predicate Registered(items: seq<Tx>, stales: int, all: set<Tx>) {
    Covers(items, all) && |items| - stales <= |all|
  }

  /** A live entry of `before` is either still in the heap or among the drops. */
  ghost predicate Accounted(before: seq<Tx>, items: seq<Tx>, drop: seq<Tx>, all: set<Tx>) {
    forall t :: t in before && t in all ==> t in items || t in drop
  }

  /** How many entries of a heap are for a transaction. */
  function Entries(items: seq<Tx>, t: Tx): nat {
    multiset(items)[t]
  }

  /** No known transaction has two entries. */
  ghost predicate SingleEntries(items: seq<Tx>, all: set<Tx>) {
    forall t :: t in all ==> Entries(items, t) <= 1
  }

  function Members(s: seq<Tx>): set<Tx> {
    set t | t in s
  }

  /** As many distinct transactions as entries, if no transaction has two. */
  lemma {:induction false} DistinctMembers(s: seq<Tx>)
    ensures |Members(s)| <= |s|
    ensures (forall t :: Entries(s, t) <= 1) ==> |Members(s)| == |s|
    decreases |s|
  {
    if s != [] {
      var front, t := s[..|s| - 1], s[|s| - 1];
      assert s == front + [t];
      DistinctMembers(front);
      assert Members(s) == Members(front) + {t};
      assert forall u :: Entries(s, u) == Entries(front, u) + if u == t then 1 else 0;
      assert t in Members(front) ==> Entries(front, t) >= 1;
    }
  }

  lemma PopMembers(h: seq<Tx>, rest: seq<Tx>, x: Tx)
    requires multiset(h) == multiset(rest) + multiset{x}
    ensures forall t :: t in h <==> t in rest || t == x
  {
    forall t ensures t in h <==> t in rest || t == x {
      assert t in h <==> t in multiset(h);
      assert t in rest <==> t in multiset(rest);
    }
  }

  /** A transaction leaves and is counted, or the heap is rebuilt. */
  lemma StillRegistered(items: seq<Tx>, stales: int, items': seq<Tx>, stales': int, all: set<Tx>, t: Tx)
    requires Registered(items, stales, all) && forall u :: u in all - {t} && u in items ==> u in items'
    requires (items' == items && stales' == stales + 1) || (|items'| == |all - {t}| && stales' == 0)
    ensures Registered(items', stales', all - {t})
  {
    assert t in all ==> |all - {t}| == |all| - 1;
    assert t !in all ==> all - {t} == all;
  }

  /** Only stale entries went. */
  lemma KeepsRegistered(items: seq<Tx>, stales: int, items': seq<Tx>, stales': int, all: set<Tx>)
    requires Registered(items, stales, all) && Covers(items', all) && |items'| - stales' == |items| - stales
    ensures Registered(items', stales', all)
  {
  }

  lemma AlsoRegistered(items: seq<Tx>, stales: int, items': seq<Tx>, all: set<Tx>, t: Tx)
    requires Registered(items, stales, all) && t !in all
    requires |items'| == |items| + 1 && forall u :: u in items' <==> u in items || u == t
    ensures Registered(items', stales, all + {t})
  {
  }

  lemma {:induction false} MembersSize(s: seq<Tx>)
    ensures |Members(s)| <= |s|
  {
    if s != [] {
      MembersSize(s[1..]);
      assert Members(s) == Members(s[1..]) + {s[0]};
    }
  }

  /** What is dropped from the heap leaves the rest registered. */
  lemma DropsRegistered(before: seq<Tx>, stales: int, items: seq<Tx>, stales': int, drop: seq<Tx>, all: set<Tx>)
    requires Registered(before, stales, all) && Accounted(before, items, drop, all) && Members(drop) <= all
    requires |items| + |drop| - stales' == |before| - stales
    ensures Registered(items, stales', all - Members(drop))
  {
    MembersSize(drop);
    assert |all| == |all - Members(drop)| + |Members(drop)| by {
      assert all == (all - Members(drop)) + Members(drop);
    }
  }

  class TxPricedList {
    var items: seq<Tx>
    var stales: int

    ghost predicate Valid()
      reads this
    {
      IsHeap(items, PriceRank)
    }

    constructor ()
      ensures Valid() && items == [] && stales == 0
    {
      items, stales := [], 0;
    }

    method Put(t: Tx)
      requires Valid()
      modifies this
      ensures Valid() && forall u :: u in items <==> u in old(items) || u == t
      ensures multiset(items) == multiset(old(items)) + multiset{t} && stales == old(stales) && |items| == |old(items)| + 1
    {
      var h := Push(items, PriceRank, t);
      PopMembers(h, items, t);
      items := h;
    }

    /** Pops a worst entry. */
    method PopWorst() returns (t: Tx)
      requires Valid() && items != []
      modifies `items
      ensures Valid() && |items| == |old(items)| - 1 && t == old(items)[0]
      ensures multiset(old(items)) == multiset(items) + multiset{t}
      ensures forall u :: u in old(items) <==> u in items || u == t
      ensures forall u :: u in items ==> PriceRank(t) <= PriceRank(u)
    {
      var rest;
      rest, t := Pop(items, PriceRank);
      PopMembers(items, rest, t);
      items := rest;
    }

    /** Pushes kept entries back. */
    method PutBack(save: seq<Tx>)
      requires Valid()
      modifies `items
      ensures Valid() && forall u :: u in items <==> u in old(items) || u in save
      ensures multiset(items) == multiset(old(items)) + multiset(save) && |items| == |old(items)| + |save|
    {
      for i := 0 to |save|
        invariant Valid() && forall u :: u in items <==> u in old(items) || u in save[..i]
        invariant multiset(items) == multiset(old(items)) + multiset(save[..i]) && |items| == |old(items)| + i
      {
        assert save[..i + 1] == save[..i] + [save[i]];
        var h := Push(items, PriceRank, save[i]);
        PopMembers(h, items, save[i]);
        items := h;
      }
      assert save[..|save|] == save;
    }

    /** Counts a departed transaction; rebuilds the heap once a quarter of it is stale. */
    method Removed(all: set<Tx>)
      requires Valid()
      modifies this
      ensures Valid()
      ensures forall t :: t in all && t in old(items) ==> t in items
      ensures if old(stales) + 1 <= |old(items)| / 4 then unchanged(`items) && stales == old(stales) + 1
              else multiset(items) == multiset(all) && |items| == |all| && stales == 0
    {
      stales := stales + 1;
      if stales <= |items| / 4 {
        return;
      }
      stales, items := 0, [];
      var todo := all;
      while todo != {}
        invariant todo <= all && multiset(items) == multiset(all - todo) && stales == 0 && |items| == |all| - |todo|
      {
        var t :| t in todo;
        assert all - (todo - {t}) == (all - todo) + {t};
        todo := todo - {t};
        items := items + [t];
      }
      assert all - todo == all;
      items := Init(items, PriceRank);
      forall t | t in all ensures t in items {
        assert t in multiset(items);
      }
    }

    /**
     Takes out the remote transactions priced below the threshold.  No live
     entry is lost, and no remote live entry below the threshold stays.
     */
    method Cap(threshold: int, locals: set<Address>, all: set<Tx>) returns (drop: seq<Tx>)
      requires Valid()
      modifies this
      ensures Valid() && Accounted(old(items), items, drop, all)
      ensures forall t :: t in items ==> t in old(items)
      ensures forall t :: t in drop ==> t in all && !IsLocal(t, locals) && t.gasPrice < threshold
      ensures forall t :: t in items && t in all && !IsLocal(t, locals) ==> t.gasPrice >= threshold
      ensures |items| + |drop| - stales == |old(items)| - old(stales)
    {
      drop := [];
      var save: seq<Tx> := [];
      var reached := false;
      while |items| > 0 && !reached
        invariant Valid()
        invariant forall t :: t in old(items) && t in all ==> t in items || t in save || t in drop
        invariant forall t :: t in items || t in save ==> t in old(items)
        invariant forall t :: t in drop ==> t in all && !IsLocal(t, locals) && t.gasPrice < threshold
        invariant forall t :: t in save ==> IsLocal(t, locals) || t.gasPrice >= threshold
        invariant reached ==> forall t :: t in items ==> t.gasPrice >= threshold
        invariant |items| + |save| + |drop| - stales == |old(items)| - old(stales)
        decreases |items|
      {
        var t := PopWorst();
        if t !in all {
          stales := stales - 1;
        } else if t.gasPrice >= threshold {
          forall u | u in items ensures u.gasPrice >= threshold {
            PriceRankIsOrder(t, u);
          }
          save, reached := save + [t], true;
        } else if IsLocal(t, locals) {
          save := save + [t];
        } else {
          drop := drop + [t];
        }
      }
      PutBack(save);
    }

    /** Whether a remote transaction is no dearer than the cheapest in the pool. */
    method Underpriced(t: Tx, locals: set<Address>, all: set<Tx>) returns (b: bool)
      requires Valid() && Covers(items, all)
      modifies this
      ensures Valid() && Covers(items, all)
      ensures forall u :: u in all ==> Entries(items, u) == Entries(old(items), u)
      ensures b == (!IsLocal(t, locals) && all != {} && forall u :: u in all ==> t.gasPrice <= u.gasPrice)
      ensures |items| - stales == |old(items)| - old(stales)
    {
      if IsLocal(t, locals) {
        return false;
      }
      while |items| > 0 && items[0] !in all
        invariant Valid() && Covers(items, all)
        invariant forall u :: u in all ==> Entries(items, u) == Entries(old(items), u)
        invariant |items| - stales == |old(items)| - old(stales)
        decreases |items|
      {
        stales := stales - 1;
        var gone := PopWorst();
      }
      if |items| == 0 {
        return false;
      }
      var cheapest := items[0];
      forall u | u in all ensures cheapest.gasPrice <= u.gasPrice {
        var i :| 0 <= i < |items| && items[i] == u;
        RootIsLeast(items, PriceRank, i);
        PriceRankIsOrder(cheapest, u);
      }
      b := cheapest.gasPrice >= t.gasPrice;
    }

    /**
     Takes out `count` entries, the worst of remote transactions.  Every entry of
     a known transaction stays or is dropped, none dropped is better than a remote
     one that stays, and fewer are dropped only if no remote one is left.  A
     transaction with two entries may use up two of the count.
     */
    method Discard(count: nat, locals: set<Address>, all: set<Tx>) returns (drop: seq<Tx>)
      requires Valid()
      modifies this
      ensures Valid() && Accounted(old(items), items, drop, all)
      ensures forall t :: t in items ==> t in old(items)
      ensures forall t :: t in drop ==> t in all && !IsLocal(t, locals)
      ensures forall t :: t in all ==> Entries(old(items), t) == Entries(items, t) + Entries(drop, t)
      ensures forall t, u :: t in drop && u in items && u in all && !IsLocal(u, locals) ==> !Worse(u, t)
      ensures |drop| == count || (|drop| < count && forall u :: u in items && u in all ==> IsLocal(u, locals))
      ensures |items| + |drop| - stales == |old(items)| - old(stales)
    {
      drop := [];
      var save: seq<Tx> := [];
      while |items| > 0 && |drop| < count
        invariant Valid() && |drop| <= count
        invariant forall t :: t in old(items) && t in all ==> t in items || t in save || t in drop
        invariant forall t :: t in items || t in save ==> t in old(items)
        invariant forall t :: t in drop ==> t in all && !IsLocal(t, locals)
        invariant forall t :: t in save ==> IsLocal(t, locals)
        invariant forall t :: t in all ==> Entries(old(items), t) == Entries(items, t) + Entries(save, t) + Entries(drop, t)
        invariant forall t, u :: t in drop && u in items ==> PriceRank(t) <= PriceRank(u)
        invariant |items| + |save| + |drop| - stales == |old(items)| - old(stales)
        decreases |items|
      {
        var t := PopWorst();
        if t !in all {
          stales := stales - 1;
        } else if IsLocal(t, locals) {
          save := save + [t];
        } else {
          drop := drop + [t];
        }
      }
      ghost var rest := items;
      PutBack(save);
      forall t, u | t in drop && u in items && !IsLocal(u, locals) ensures !Worse(u, t) {
        assert u in rest;
        PriceRankIsOrder(u, t);
      }
    }
  }

  function Cheap(): Tx {
    Tx(0, Some(1), Some(0), 0, 1, 0, 0, None, 0, Some(0))
  }

  /** A dearer transaction of another sender. */
  function Dear(k: nat): Tx {
    Tx(k, Some(k + 2), Some(0), 0, 2, 0, 0, None, 0, Some(0))
  }

  lemma {:induction false} EntriesAmong(s: seq<Tx>, t: Tx)
    ensures Entries(s, t) <= |s| && (Entries(s, t) == |s| ==> forall i :: 0 <= i < |s| ==> s[i] == t)
    decreases |s|
  {
    if s != [] {
      var front, last := s[..|s| - 1], s[|s| - 1];
      assert s == front + [last];
      EntriesAmong(front, t);
    }
  }

  /** Of a cheapest transaction with two entries, two dropped entries are both. */
  lemma CheapestFirst(before: seq<Tx>, items: seq<Tx>, drop: seq<Tx>, all: set<Tx>, c: Tx)
    requires c in all && Entries(before, c) == 2 && forall t :: t in all && t != c ==> Worse(c, t)
    requires Entries(before, c) == Entries(items, c) + Entries(drop, c) && forall t :: t in drop ==> t in all
    requires forall t, u :: t in drop && u in items && u in all ==> !Worse(u, t)
    requires |drop| == 2 || (|drop| < 2 && forall u :: u in items ==> u !in all)
    ensures drop == [c, c]
  {
    EntriesAmong(drop, c);
    assert Entries(items, c) > 0 ==> c in items;
    if c in items {
      forall i | 0 <= i < |drop| ensures drop[i] == c {
        assert drop[i] in drop;
      }
      assert drop == [c, c];
    }
  }

  /** The dearer transactions. */
  function Dears(): set<Tx> {
    {Dear(0), Dear(1), Dear(2)}
  }

  lemma CheapIsCheapest()
    ensures Cheap() !in Dears() && forall t :: t in Dears() + {Cheap()} && t != Cheap() ==> Worse(Cheap(), t)
  {
  }

  lemma FourEntries(items: seq<Tx>)
    requires multiset(items) == multiset{Cheap(), Dear(0), Dear(1), Dear(2)}
    ensures |items| == 4 && Entries(items, Cheap()) == 1
  {
    assert |multiset(items)| == |items|;
  }

  /**
   A transaction leaves and comes back while its old entry stays.  The calls are
   those of a pool that adds four transactions, removes one and adds it again.
   */
  method LeaveAndReturn() returns (l: TxPricedList)
    ensures fresh(l) && l.Valid() && Entries(l.items, Cheap()) == 2 && |l.items| == 5 && l.stales == 1
  {
    hide IsHeap, Cheap, Dear, Dears;
    l := new TxPricedList();
    l.Put(Cheap());
    l.Put(Dear(0));
    l.Put(Dear(1));
    l.Put(Dear(2));
    FourEntries(l.items);
    l.Removed(Dears());
    l.Put(Cheap());
  }

  /** A transaction with two entries: asked for two, Discard drops it twice and nothing else. */
  method DroppedTwice() returns (drop: seq<Tx>)
    ensures drop == [Cheap(), Cheap()] && Members(drop) == {Cheap()}
  {
    hide IsHeap, Cheap, Dear, Dears, Worse, Entries;
    var l := LeaveAndReturn();
    ghost var items := l.items;
    drop := l.Discard(2, {}, Dears() + {Cheap()});
    CheapIsCheapest();
    CheapestFirst(items, l.items, drop, Dears() + {Cheap()}, Cheap());
  }
}

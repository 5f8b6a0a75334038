/**
 The bookkeeping of the transaction pool as values: which transactions sit in
 the pending and queued lists, which the pool knows of, and the virtual nonces.
 */
module PoolStates {
  import opened Txs
  import opened SortedMaps
  import opened TxLists

  type Accounts = map<Address, TxL>

  /** The transactions an account has in m. */
  function Items(m: Accounts, a: Address): TxMap {
    if a in m then m[a].txs else map[]
  }

  function ListOr(m: Accounts, a: Address, strict: bool): TxL {
    if a in m then m[a] else EmptyList(strict)
  }

  ghost predicate Holds(m: Accounts, t: Tx) {
    t.nonce in Items(m, t.From()) && Items(m, t.From())[t.nonce] == t
  }

  /** Nothing else of the sender has the transaction's nonce. */
  ghost predicate Free(m: Accounts, t: Tx) {
    t.nonce !in Items(m, t.From())
  }

  /** t belongs at nonce n of account a. */
  ghost predicate Fits(t: Tx, a: Address, n: uint64) {
    t.sender == Some(a) && t.nonce == n
  }

  ghost predicate AllFit(m: Accounts) {
    forall a, n :: n in Items(m, a) ==> Fits(Items(m, a)[n], a, n)
  }

  ghost predicate NoOverlap(p: Accounts, q: Accounts) {
    forall a, n :: n in Items(p, a) ==> n !in Items(q, a)
  }

  /** Transactions that are known but momentarily in neither list. */
  ghost predicate InTransit(p: Accounts, q: Accounts, transit: set<Tx>) {
    && (forall t :: t in transit ==> t.sender.Some? && Free(p, t) && Free(q, t))
    && (forall t, u :: t in transit && u in transit && t.sender == u.sender && t.nonce == u.nonce ==> t == u)
  }

  /**
   The known transactions are exactly those pending, those queued and those in
   transit, and no account has one nonce twice.
   */
  ghost predicate Partition(p: Accounts, q: Accounts, all: set<Tx>, transit: set<Tx>) {
    && AllFit(p)
    && AllFit(q)
    && NoOverlap(p, q)
    && InTransit(p, q, transit)
    && (forall t :: t in all <==> Holds(p, t) || Holds(q, t) || t in transit)
  }

  /** Lists are kept only while they hold something, pending ones strict, and their caps bound them. */
  ghost predicate Shaped(m: Accounts, strict: bool) {
    forall a :: a in m ==> m[a].strict == strict && m[a].txs != map[] && CapsBound(m[a])
  }

  function Values(m: TxMap): set<Tx> {
    set n | n in m :: m[n]
  }

  /** m is part of l. */
  ghost predicate Part(m: TxMap, l: TxMap) {
    forall n :: n in m ==> n in l && m[n] == l[n]
  }

  lemma ValuesWithout(m: TxMap, n: uint64)
    requires Keyed(m) && n in m
    ensures Values(m - {n}) == Values(m) - {m[n]}
  {
    forall t | t in Values(m) && t != m[n] ensures t in Values(m - {n}) {
      var k :| k in m && m[k] == t;
      assert (m - {n})[k] == t;
    }
    forall t | t in Values(m - {n}) ensures t in Values(m) && t != m[n] {
      var k :| k in m - {n} && (m - {n})[k] == t;
      assert m[k] == t;
    }
  }

  // ---------- moving transactions about ----------

  /** out is what m has more than l. */
  ghost predicate Divides(m: TxMap, l: TxMap, out: TxMap) {
    && Part(l, m) && Part(out, m)
    && (forall n :: n in m ==> (n in out <==> n !in l))
  }

  lemma PulledAreFree(p: Accounts, q: Accounts, a: Address, l: TxL, out: TxMap, t: Tx)
    requires AllFit(q) && NoOverlap(p, q) && Divides(Items(q, a), l.txs, out) && t in Values(out)
    ensures t.sender == Some(a) && t.nonce in out && out[t.nonce] == t && Holds(q, t)
    ensures Free(p, t) && Free(q[a := l], t)
  {
    var n :| n in out && out[n] == t;
    assert Fits(Items(q, a)[n], a, n);
  }

  lemma PulledInTransit(p: Accounts, q: Accounts, transit: set<Tx>, a: Address, l: TxL, out: TxMap)
    requires AllFit(q) && NoOverlap(p, q) && InTransit(p, q, transit) && Divides(Items(q, a), l.txs, out)
    ensures InTransit(p, q[a := l], transit + Values(out))
  {
    var q' := q[a := l];
    forall t | t in transit + Values(out) ensures t.sender.Some? && Free(p, t) && Free(q', t) {
      if t !in transit {
        PulledAreFree(p, q, a, l, out, t);
      }
    }
    forall t, u | t in transit + Values(out) && u in transit + Values(out) && t.sender == u.sender && t.nonce == u.nonce
      ensures t == u
    {
      if t !in transit {
        PulledAreFree(p, q, a, l, out, t);
      }
      if u !in transit {
        PulledAreFree(p, q, a, l, out, u);
      }
    }
  }

  /** What is taken out of a queued list is in transit. */
  lemma PullQueued(p: Accounts, q: Accounts, all: set<Tx>, transit: set<Tx>, a: Address, l: TxL, out: TxMap)
    requires Partition(p, q, all, transit) && Divides(Items(q, a), l.txs, out)
    ensures Partition(p, q[a := l], all, transit + Values(out))
  {
    hide InTransit;
    var q' := q[a := l];
    PulledInTransit(p, q, transit, a, l, out);
    forall t ensures t in all <==> Holds(p, t) || Holds(q', t) || t in transit + Values(out) {
      if Holds(q, t) && t.From() == a && !Holds(q', t) {
        assert out[t.nonce] == t;
      }
      if t in Values(out) {
        PulledAreFree(p, q, a, l, out, t);
      }
    }
    forall b, n | n in Items(q', b) ensures Fits(Items(q', b)[n], b, n) {
      assert Fits(Items(q, b)[n], b, n);
    }
  }

  /** The two kinds of list play the same part. */
  lemma Mirror(p: Accounts, q: Accounts, all: set<Tx>, transit: set<Tx>)
    requires Partition(p, q, all, transit)
    ensures Partition(q, p, all, transit)
  {
  }

  lemma PullPending(p: Accounts, q: Accounts, all: set<Tx>, transit: set<Tx>, a: Address, l: TxL, out: TxMap)
    requires Partition(p, q, all, transit) && Divides(Items(p, a), l.txs, out)
    ensures Partition(p[a := l], q, all, transit + Values(out))
  {
    Mirror(p, q, all, transit);
    PullQueued(q, p, all, transit, a, l, out);
    Mirror(q, p[a := l], all, transit + Values(out));
  }

  /** A transaction in transit may leave the pool. */
  lemma Forget(p: Accounts, q: Accounts, all: set<Tx>, transit: set<Tx>, t: Tx)
    requires Partition(p, q, all, transit) && t in transit
    ensures Partition(p, q, all - {t}, transit - {t})
  {
    assert !Holds(p, t) && !Holds(q, t);
  }

  lemma TransitFacts(p: Accounts, q: Accounts, all: set<Tx>, transit: set<Tx>, t: Tx)
    requires Partition(p, q, all, transit) && t in transit
    ensures t in all && t.sender.Some? && Free(p, t) && Free(q, t)
    ensures forall u :: u in transit && u != t ==> u.sender != t.sender || u.nonce != t.nonce
    ensures Partition(p, q, all - {t}, transit - {t})
  {
    Forget(p, q, all, transit, t);
  }

  lemma PlacedLeavesTransit(p: Accounts, q: Accounts, transit: set<Tx>, t: Tx, l: TxL)
    requires InTransit(p, q, transit - {t}) && t.sender.Some?
    requires forall u :: u in transit && u != t ==> u.sender != t.sender || u.nonce != t.nonce
    requires l.txs == Items(q, t.From())[t.nonce := t]
    ensures InTransit(p, q[t.From() := l], transit - {t})
  {
    var q' := q[t.From() := l];
    forall u | u in transit - {t} ensures Free(q', u) {
      assert Free(q, u) && u.sender.Some?;
    }
  }

  /** A transaction that is in no list may enter the queue, replacing another or not. */
  lemma PlaceQueued(p: Accounts, q: Accounts, all: set<Tx>, transit: set<Tx>, t: Tx, l: TxL)
    requires Partition(p, q, all - {t}, transit - {t}) && t.sender.Some? && Free(p, t)
    requires forall u :: u in transit && u != t ==> u.sender != t.sender || u.nonce != t.nonce
    requires l.txs == Items(q, t.From())[t.nonce := t]
    ensures Free(q, t) || Items(q, t.From())[t.nonce] != t
    ensures var old' := if Free(q, t) then {} else {Items(q, t.From())[t.nonce]};
      Partition(p, q[t.From() := l], (all - {t} - old') + {t}, transit - {t})
  {
    PlacedLeavesTransit(p, q, transit, t, l);
    assert forall u :: u in transit - {t} ==> u.sender.Some?;
    hide InTransit;
    var a := t.From();
    var q' := q[a := l];
    var old' := if Free(q, t) then {} else {Items(q, a)[t.nonce]};
    if !Free(q, t) {
      assert Fits(Items(q, a)[t.nonce], a, t.nonce);
      assert Holds(q, Items(q, a)[t.nonce]);
    }
    forall u ensures u in (all - {t} - old') + {t} <==> Holds(p, u) || Holds(q', u) || u in transit - {t} {
      assert u != t && u.From() == a && u.nonce == t.nonce ==> !Holds(p, u) && !Holds(q', u);
    }
    forall b, n | n in Items(q', b) ensures Fits(Items(q', b)[n], b, n) {
      assert n in Items(q, b) ==> Fits(Items(q, b)[n], b, n);
    }
  }

  lemma PlacePending(p: Accounts, q: Accounts, all: set<Tx>, transit: set<Tx>, t: Tx, l: TxL)
    requires Partition(p, q, all - {t}, transit - {t}) && t.sender.Some? && Free(q, t)
    requires forall u :: u in transit && u != t ==> u.sender != t.sender || u.nonce != t.nonce
    requires l.txs == Items(p, t.From())[t.nonce := t]
    ensures Free(p, t) || Items(p, t.From())[t.nonce] != t
    ensures var old' := if Free(p, t) then {} else {Items(p, t.From())[t.nonce]};
      Partition(p[t.From() := l], q, (all - {t} - old') + {t}, transit - {t})
  {
    Mirror(p, q, all - {t}, transit - {t});
    PlaceQueued(q, p, all, transit, t, l);
    var old' := if Free(p, t) then {} else {Items(p, t.From())[t.nonce]};
    Mirror(q, p[t.From() := l], (all - {t} - old') + {t}, transit - {t});
  }

  /** An account without transactions needs no list. */
  lemma DeleteEmpty(p: Accounts, q: Accounts, all: set<Tx>, transit: set<Tx>, a: Address)
    requires Partition(p, q, all, transit) && Items(q, a) == map[]
    ensures Partition(p, q - {a}, all, transit)
  {
    assert forall b :: Items(q - {a}, b) == Items(q, b);
  }

  lemma DeleteEmptyPending(p: Accounts, q: Accounts, all: set<Tx>, transit: set<Tx>, a: Address)
    requires Partition(p, q, all, transit) && Items(p, a) == map[]
    ensures Partition(p - {a}, q, all, transit)
  {
    assert forall b :: Items(p - {a}, b) == Items(p, b);
  }

  // ---------- the virtual nonces ----------

  function VirtualNonce(virt: map<Address, uint64>, chain: Chain, a: Address): uint64 {
    if a in virt then virt[a] else chain.NonceOf(a)
  }

  ghost predicate RunOf(p: Accounts, virt: map<Address, uint64>, chain: Chain, a: Address) {
    && chain.NonceOf(a) <= VirtualNonce(virt, chain, a)
    && Run(Items(p, a), chain.NonceOf(a), VirtualNonce(virt, chain, a))
  }

  /**
   Every account's pending transactions are the gap-free run of nonces from the
   chain's nonce up to its virtual nonce; with nothing pending the two are equal.
   */
  ghost predicate Contiguous(p: Accounts, virt: map<Address, uint64>, chain: Chain) {
    forall a :: RunOf(p, virt, chain, a)
  }

  /** What contiguity says of the account's virtual nonce. */
  lemma VirtualFollowsLast(p: Accounts, virt: map<Address, uint64>, chain: Chain, a: Address)
    requires Contiguous(p, virt, chain)
    ensures Items(p, a) == map[] ==> VirtualNonce(virt, chain, a) == chain.NonceOf(a)
    ensures Items(p, a) != map[] ==>
      && Least(Items(p, a)) == chain.NonceOf(a)
      && VirtualNonce(virt, chain, a) == Greatest(Items(p, a)) + 1
  {
    assert RunOf(p, virt, chain, a);
    var m, v, c := Items(p, a), VirtualNonce(virt, chain, a), chain.NonceOf(a);
    if v > c {
      assert c in m && (v - 1) as uint64 in m;
    } else {
      assert m == map[];
    }
  }

  lemma KeyedItems(p: Accounts, q: Accounts, all: set<Tx>, transit: set<Tx>, a: Address)
    requires Partition(p, q, all, transit)
    ensures Keyed(Items(p, a)) && Keyed(Items(q, a))
  {
    forall n | n in Items(p, a) ensures Items(p, a)[n].nonce == n {
      assert Fits(Items(p, a)[n], a, n);
    }
    forall n | n in Items(q, a) ensures Items(q, a)[n].nonce == n {
      assert Fits(Items(q, a)[n], a, n);
    }
  }

  lemma QueuedIsKnown(p: Accounts, q: Accounts, all: set<Tx>, transit: set<Tx>, a: Address, n: uint64)
    requires Partition(p, q, all, transit) && n in Items(q, a)
    ensures Items(q, a)[n] in all && Fits(Items(q, a)[n], a, n)
  {
    assert Fits(Items(q, a)[n], a, n);
    assert Holds(q, Items(q, a)[n]);
  }

  /** A known transaction sits where its sender and nonce say. */
  lemma WhereItIs(p: Accounts, q: Accounts, all: set<Tx>, t: Tx)
    requires Partition(p, q, all, {}) && t in all
    ensures t.sender == Some(t.From())
    ensures Holds(p, t) <==> !Free(p, t)
    ensures Holds(q, t) <==> Free(p, t)
  {
    if Holds(p, t) {
      assert Fits(Items(p, t.From())[t.nonce], t.From(), t.nonce);
    } else {
      assert Fits(Items(q, t.From())[t.nonce], t.From(), t.nonce);
    }
  }

  /** Cutting an account's pending run at n and lowering its virtual nonce keeps the runs. */
  lemma CutKeepsRuns(p: Accounts, p': Accounts, virt: map<Address, uint64>, chain: Chain, a: Address, n: uint64)
    requires Contiguous(p, virt, chain) && n in Items(p, a)
    requires forall b :: Items(p', b) == if b == a then BelowNonce(Items(p, a), n) else Items(p, b)
    ensures VirtualNonce(virt, chain, a) > n
    ensures Contiguous(p', virt[a := n], chain)
  {
    assert RunOf(p, virt, chain, a);
    var virt' := virt[a := n];
    forall b ensures RunOf(p', virt', chain, b) {
      assert RunOf(p, virt, chain, b);
    }
  }

  /**
   Appending the next nonce to an account's pending run and advancing its virtual
   nonce keeps the runs, exactly if the successor of the nonce fits a word.
   */
  lemma AppendKeepsRuns(p: Accounts, p': Accounts, virt: map<Address, uint64>, chain: Chain, a: Address, t: Tx)
    requires Contiguous(p, virt, chain) && t.nonce == VirtualNonce(virt, chain, a)
    requires forall b :: b != a ==> Items(p', b) == Items(p, b)
    requires Items(p', a) == Items(p, a)[t.nonce := t]
    ensures Contiguous(p', virt[a := AddWrap(t.nonce, 1)], chain) <==> t.nonce < MAX_UINT64
  {
    var virt' := virt[a := AddWrap(t.nonce, 1)];
    if t.nonce < MAX_UINT64 {
      forall b ensures RunOf(p', virt', chain, b) {
        assert RunOf(p, virt, chain, b);
      }
    } else {
      assert t.nonce in Items(p', a);
      assert !RunOf(p', virt', chain, a);
    }
  }

  /** An account that uses the last nonce of a word gets the virtual nonce zero, which ends no run. */
  lemma LastNonceBreaksRun(a: Address, t: Tx, p: Accounts)
    requires t.nonce == MAX_UINT64 && p == map[a := Added(EmptyList(true), t)]
    ensures var chain := Chain(map[a := t.nonce], map[], 0);
      Contiguous(map[], map[], chain) && !Contiguous(p, map[a := AddWrap(t.nonce, 1)], chain)
  {
    var chain := Chain(map[a := t.nonce], map[], 0);
    forall b ensures RunOf(map[], map[], chain, b) {
    }
    var none: map<Address, uint64> := map[];
    AppendKeepsRuns(map[], p, none, chain, a, t);
    assert none[a := AddWrap(t.nonce, 1)] == map[a := AddWrap(t.nonce, 1)];
  }

  /** A queued nonce that is not below the chain's nor above the virtual one is the virtual one. */
  lemma ReadyStartsAtVirtual(p: Accounts, q: Accounts, all: set<Tx>, virt: map<Address, uint64>, chain: Chain,
                             a: Address, n: uint64)
    requires Partition(p, q, all, {}) && Contiguous(p, virt, chain)
    requires n in Items(q, a) && chain.NonceOf(a) <= n <= VirtualNonce(virt, chain, a)
    ensures n == VirtualNonce(virt, chain, a)
  {
    assert RunOf(p, virt, chain, a);
    assert n !in Items(p, a);
  }

  /** No known transaction has the nonce whose successor does not fit a word. */
  ghost predicate NonceRoom(all: set<Tx>) {
    forall t :: t in all ==> t.nonce < MAX_UINT64
  }

  /** Every list but a's is in shape. */
  ghost predicate ShapedBut(m: Accounts, strict: bool, a: Address) {
    forall b :: b in m ==> m[b].strict == strict && (b != a ==> m[b].txs != map[]) && CapsBound(m[b])
  }

  /** The list without t, or no list when it was the only transaction. */
  function WithoutQueued(q: Accounts, t: Tx): Accounts
    requires t.From() in q
  {
    var l := q[t.From()].(txs := q[t.From()].txs - {t.nonce});
    if l.txs == map[] then q - {t.From()} else q[t.From() := l]
  }

  // ---------- pending lists across a change of the chain's head ----------

  /** No nonce is missing between two that are present. */
  ghost predicate Gapless(m: TxMap) {
    forall n, j, k: uint64 :: n in m && j in m && n <= k <= j ==> k in m
  }

  ghost predicate AllGapless(p: Accounts) {
    forall a :: Gapless(Items(p, a))
  }

  lemma ContiguousIsGapless(p: Accounts, virt: map<Address, uint64>, chain: Chain)
    requires Contiguous(p, virt, chain)
    ensures AllGapless(p)
  {
    forall a ensures Gapless(Items(p, a)) {
      assert RunOf(p, virt, chain, a);
    }
  }

  /** A pending list as demotion leaves it: empty, or gap-free from the chain's nonce. */
  ghost predicate Rooted(m: TxMap, c: uint64) {
    Gapless(m) && (m != map[] ==> Least(m) == c)
  }

  /** What a strict list keeps of a gap-free list when it is filtered is gap-free. */
  lemma FilterKeepsGapless(l: TxL, costLimit: int, gasLimit: uint64, chain: Chain)
    requires l.strict && Gapless(l.txs)
    ensures Gapless(Filtered(l, costLimit, gasLimit, chain).kept)
  {
    if l.txs == map[] {
      FilterDivides(l, costLimit, gasLimit, chain);
    } else {
      var lo: nat, hi: nat := Least(l.txs), Greatest(l.txs) + 1;
      forall n ensures n in l.txs <==> lo <= n < hi {
      }
      FilterKeepsRun(l, lo, hi, costLimit, gasLimit, chain);
    }
  }

  // ---------- what promotion leaves queued ----------

  /** Nothing an account has queued can be promoted: all of it lies beyond the virtual nonce. */
  ghost predicate Drained(q: Accounts, virt: map<Address, uint64>, chain: Chain, a: Address) {
    forall n :: n in Items(q, a) ==> n > VirtualNonce(virt, chain, a)
  }

  ghost predicate Shrunk(q: Accounts, q': Accounts) {
    forall a :: Part(Items(q', a), Items(q, a))
  }

  ghost predicate Lowered(virt: map<Address, uint64>, virt': map<Address, uint64>, chain: Chain) {
    forall a :: VirtualNonce(virt', chain, a) <= VirtualNonce(virt, chain, a)
  }

  ghost predicate OnlyVirtual(virt: map<Address, uint64>, virt': map<Address, uint64>, a: Address) {
    forall b :: b != a ==> (b in virt' <==> b in virt) && (b in virt' ==> virt'[b] == virt[b])
  }

  lemma NothingMoved(q: Accounts, virt: map<Address, uint64>, chain: Chain)
    ensures Shrunk(q, q) && Lowered(virt, virt, chain)
  {
  }

  lemma LowerOne(virt: map<Address, uint64>, chain: Chain, a: Address, n: uint64)
    ensures Lowered(virt, virt, chain)
    ensures VirtualNonce(virt, chain, a) > n ==> Lowered(virt, virt[a := n], chain)
  {
  }

  lemma ShrunkChain(q: Accounts, q': Accounts, q'': Accounts)
    requires Shrunk(q, q') && Shrunk(q', q'')
    ensures Shrunk(q, q'')
  {
  }

  lemma LoweredChain(v: map<Address, uint64>, v': map<Address, uint64>, v'': map<Address, uint64>, chain: Chain)
    requires Lowered(v, v', chain) && Lowered(v', v'', chain)
    ensures Lowered(v, v'', chain)
  {
  }

  lemma StillDrained(q: Accounts, q': Accounts, v: map<Address, uint64>, v': map<Address, uint64>, chain: Chain)
    requires Shrunk(q, q') && Lowered(v, v', chain)
    ensures forall a :: Drained(q, v, chain, a) ==> Drained(q', v', chain, a)
  {
    forall a | Drained(q, v, chain, a) ensures Drained(q', v', chain, a) {
      assert Part(Items(q', a), Items(q, a));
      assert VirtualNonce(v', chain, a) <= VirtualNonce(v, chain, a);
    }
  }

  /** The maximal run from the virtual nonce leaves nothing that it could have taken. */
  lemma ReadyDrains(q: Accounts, q': Accounts, v: map<Address, uint64>, v': map<Address, uint64>, chain: Chain,
                    a: Address)
    requires var l := Items(q, a);
      var next := VirtualNonce(v, chain, a);
      var e := ReadyEnd(l, next);
      && Items(q', a) == FromNonce(l, e)
      && v' == if BelowNonce(l, e) == map[] then v else v[a := AddWrap(e - 1, 1)]
    ensures Drained(q', v', chain, a)
  {
    var l := Items(q, a);
    var next := VirtualNonce(v, chain, a);
    ReadyIsMaximalRun(l, next);
    if l != map[] && Least(l) <= next {
      assert Least(l) in BelowNonce(l, ReadyEnd(l, next));
    }
  }
}

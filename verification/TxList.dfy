/**
 txList: the transactions of one account.  TxL is a list as a value, with the
 effect of every operation as a function; class TxList is the source's mutable
 list over a TxSortedMap, each method proved to have that effect.
 */
module TxLists {
  import opened Txs
  import opened SortedMaps

  /** A list: its contents by nonce, and the caps that let Filter skip a scan. */
  datatype TxL = TxL(strict: bool, txs: TxMap, costcap: int, gascap: uint64)

  function EmptyList(strict: bool): TxL {
    TxL(strict, map[], 0, 0)
  }

  // ---------- replacement ----------

  /** The price a replacement of `prev` must at least offer. */
  function BumpedPrice(prev: Tx, priceBump: nat): int {
    prev.gasPrice * (100 + priceBump) / 100
  }

  /** t pays enough more than `prev` to replace it: more, and the bump in percent, rounded down to a whole price. */
  predicate Outpays(t: Tx, prev: Tx, priceBump: nat): (b: bool)
    ensures b <==> prev.gasPrice < t.gasPrice && 100 * t.gasPrice > prev.gasPrice * (100 + priceBump) - 100
  {
    prev.gasPrice < t.gasPrice && BumpedPrice(prev, priceBump) <= t.gasPrice
  }

  /** Every transaction of a list replaces the one before it. */
  ghost predicate Replacements(ts: seq<Tx>, priceBump: nat) {
    forall i :: 0 < i < |ts| ==> Outpays(ts[i], ts[i - 1], priceBump)
  }

  /** What a replacement adds at least, from a price of p on: the bump, and never nothing. */
  function LeastRaise(p: nat, priceBump: nat): (r: nat)
    ensures r >= 1 && 100 * r >= p * priceBump - 99
  {
    if p * priceBump < 100 then 1 else p * priceBump / 100
  }

  lemma OneReplacement(t: Tx, prev: Tx, p: nat, priceBump: nat)
    requires Outpays(t, prev, priceBump) && prev.gasPrice >= p
    ensures t.gasPrice >= prev.gasPrice + LeastRaise(p, priceBump)
  {
    var q: nat := prev.gasPrice;
    assert p * priceBump <= q * priceBump;
    assert q * (100 + priceBump) == 100 * q + q * priceBump;
    assert 100 * (t.gasPrice - q) > p * priceBump - 100;
  }

  /** Taking a slot over k times costs at least k times the bump on the first price. */
  lemma {:induction false} ReplacementsRaise(ts: seq<Tx>, priceBump: nat)
    requires ts != [] && Replacements(ts, priceBump) && ts[0].gasPrice >= 0
    ensures ts[|ts| - 1].gasPrice >= ts[0].gasPrice + (|ts| - 1) * LeastRaise(ts[0].gasPrice, priceBump)
    decreases |ts|
  {
    if |ts| > 1 {
      var front, raise := ts[..|ts| - 1], LeastRaise(ts[0].gasPrice, priceBump);
      ReplacementsRaise(front, priceBump);
      assert (|ts| - 1) * raise == (|front| - 1) * raise + raise;
      OneReplacement(ts[|ts| - 1], front[|front| - 1], ts[0].gasPrice, priceBump);
    }
  }

  /** A transaction may take the place of the one with its nonce. */
  predicate Accepts(l: TxL, t: Tx, priceBump: nat) {
    t.nonce in l.txs ==> Outpays(t, l.txs[t.nonce], priceBump)
  }

  function Added(l: TxL, t: Tx): TxL {
    l.(txs := l.txs[t.nonce := t],
       costcap := if l.costcap < t.Cost() then t.Cost() else l.costcap,
       gascap := if l.gascap < t.gas then t.gas else l.gascap)
  }

  // ---------- filtering by cost and gas ----------

  /** A transaction the account (or its payer) can no longer afford, or that is badly signed. */
  predicate Unpayable(t: Tx, costLimit: int, gasLimit: uint64, chain: Chain) {
    || t.sender.None?
    || t.payer.None?
    || t.gas > gasLimit
    || (if t.PaidByOther()
        then t.AmountCost() > costLimit || t.GasCost() > chain.BalanceOf(t.payer.value)
        else t.Cost() > costLimit)
  }

  /** The three parts Filter divides a list into. */
  datatype Split = Split(kept: TxMap, removed: TxMap, invalids: TxMap)

  function Unpayables(m: TxMap, costLimit: int, gasLimit: uint64, chain: Chain): TxMap {
    map n | n in m && Unpayable(m[n], costLimit, gasLimit, chain) :: m[n]
  }

  /** The division found by looking at every transaction. */
  function Scan(l: TxL, costLimit: int, gasLimit: uint64, chain: Chain): Split {
    var removed := Unpayables(l.txs, costLimit, gasLimit, chain);
    var rest := l.txs - removed.Keys;
    if l.strict && removed != map[] then
      Split(BelowNonce(rest, Least(removed) + 1), removed, FromNonce(rest, Least(removed) + 1))
    else
      Split(rest, removed, map[])
  }

  predicate WithinCaps(l: TxL, costLimit: int, gasLimit: uint64) {
    l.costcap <= costLimit && l.gascap <= gasLimit
  }

  /** The division Filter makes, which skips the scan when the caps allow. */
  function Filtered(l: TxL, costLimit: int, gasLimit: uint64, chain: Chain): Split {
    if WithinCaps(l, costLimit, gasLimit) then Split(l.txs, map[], map[])
    else Scan(l, costLimit, gasLimit, chain)
  }

  function AfterFilter(l: TxL, costLimit: int, gasLimit: uint64, chain: Chain): TxL {
    if WithinCaps(l, costLimit, gasLimit) then l
    else l.(txs := Filtered(l, costLimit, gasLimit, chain).kept, costcap := costLimit, gascap := gasLimit)
  }

  /** Filter divides the list exactly, and a strict list keeps nothing above what it removes. */
  lemma FilterDivides(l: TxL, costLimit: int, gasLimit: uint64, chain: Chain)
    ensures var s := Filtered(l, costLimit, gasLimit, chain);
      && s.kept.Keys !! s.removed.Keys && s.kept.Keys !! s.invalids.Keys && s.removed.Keys !! s.invalids.Keys
      && s.kept + s.removed + s.invalids == l.txs
      && (!l.strict ==> s.invalids == map[])
      && (l.strict ==> forall n, k :: n in s.kept && k in s.removed ==> n < k)
      && (forall n :: n in s.invalids ==> exists k :: k in s.removed && k < n)
  {
    var s := Filtered(l, costLimit, gasLimit, chain);
    if s.removed != map[] && l.strict {
      assert Least(s.removed) in s.removed;
    }
    assert s.kept + s.removed + s.invalids == l.txs;
  }

  /** The nonces of m are exactly those from `start` to before `end`. */
  ghost predicate Run(m: TxMap, start: nat, end: nat) {
    forall n :: n in m <==> start <= n < end
  }

  /** On a strict gap-free list what Filter keeps is a gap-free prefix. */
  lemma FilterKeepsRun(l: TxL, start: nat, end: nat, costLimit: int, gasLimit: uint64, chain: Chain)
    requires l.strict && start <= end <= TWO64 && Run(l.txs, start, end)
    ensures var s := Filtered(l, costLimit, gasLimit, chain);
      var cut := if s.removed == map[] then end else Least(s.removed);
      && start <= cut <= end
      && Run(s.kept, start, cut)
      && (forall n :: n in s.invalids ==> cut < n < end)
  {
    var s := Filtered(l, costLimit, gasLimit, chain);
    FilterDivides(l, costLimit, gasLimit, chain);
    var cut: nat := if s.removed == map[] then end else Least(s.removed);
    forall n: uint64 ensures n in s.kept <==> start <= n < cut {
      if start <= n < cut {
        assert n in l.txs && n !in s.removed;
        assert n !in s.invalids;
      }
    }
  }

  // ---------- the short circuit ----------

  /** What a transaction asks of its sender's own balance. */
  function Charge(t: Tx): int {
    if t.PaidByOther() then t.AmountCost() else t.Cost()
  }

  /** The caps bound a transaction, unless it makes another pay a negative price. */
  predicate Bounded(t: Tx, costcap: int, gascap: uint64) {
    && t.gas <= gascap
    && ((t.PaidByOther() ==> t.GasCost() >= 0) ==> Charge(t) <= costcap)
  }

  /** The caps bound every transaction of the list. */
  ghost predicate CapsBound(l: TxL) {
    forall n :: n in l.txs ==> Bounded(l.txs[n], l.costcap, l.gascap)
  }

  /** Adding and filtering keep the caps bounding the list. */
  lemma AddKeepsCapsBound(l: TxL, t: Tx)
    requires CapsBound(l)
    ensures CapsBound(Added(l, t))
  {
    var l' := Added(l, t);
    forall n | n in l'.txs ensures Bounded(l'.txs[n], l'.costcap, l'.gascap) {
      if n != t.nonce {
        assert Bounded(l.txs[n], l.costcap, l.gascap);
      }
    }
  }

  lemma FilterKeepsCapsBound(l: TxL, costLimit: int, gasLimit: uint64, chain: Chain)
    requires CapsBound(l)
    ensures CapsBound(AfterFilter(l, costLimit, gasLimit, chain))
  {
    if !WithinCaps(l, costLimit, gasLimit) {
      forall n | n in Scan(l, costLimit, gasLimit, chain).kept
        ensures Bounded(Scan(l, costLimit, gasLimit, chain).kept[n], costLimit, gasLimit)
      {
        assert !Unpayable(l.txs[n], costLimit, gasLimit, chain);
      }
    }
  }

  /** So does dropping transactions, as Forward, Cap, Remove and Ready do. */
  lemma SublistKeepsCapsBound(l: TxL, m: TxMap)
    requires CapsBound(l) && forall n :: n in m ==> n in l.txs && m[n] == l.txs[n]
    ensures CapsBound(l.(txs := m))
  {
  }

  /** Properly signed, and paid for by its sender. */
  predicate SelfPaid(t: Tx) {
    t.sender.Some? && t.payer.Some? && !t.PaidByOther()
  }

  /** Filtering leaves no self-paid transaction that cannot be paid for, although it may skip the scan. */
  lemma FilterLeavesPayable(l: TxL, costLimit: int, gasLimit: uint64, chain: Chain)
    requires CapsBound(l)
    ensures var l' := AfterFilter(l, costLimit, gasLimit, chain);
      forall n :: n in l'.txs && SelfPaid(l'.txs[n]) ==> !Unpayable(l'.txs[n], costLimit, gasLimit, chain)
  {
    if WithinCaps(l, costLimit, gasLimit) {
      forall n | n in l.txs && SelfPaid(l.txs[n]) ensures !Unpayable(l.txs[n], costLimit, gasLimit, chain) {
        assert Bounded(l.txs[n], l.costcap, l.gascap);
      }
    }
  }

  /** Properly signed, and not offering a negative price. */
  predicate WellFormed(t: Tx) {
    t.sender.Some? && t.payer.Some? && t.gasPrice >= 0
  }

  lemma PriceIsNotNegative(t: Tx)
    requires t.gasPrice >= 0
    ensures t.GasCost() >= 0
  {
  }

  /**
   When the caps allow Filter to skip the scan, skipping it gives what the scan
   would give exactly if every foreign payer can afford the gas it pays for.
   In particular it always does for lists of self-paid transactions.
   */
  lemma ShortCircuitAgrees(l: TxL, costLimit: int, gasLimit: uint64, chain: Chain)
    requires CapsBound(l) && WithinCaps(l, costLimit, gasLimit)
    requires forall n :: n in l.txs ==> WellFormed(l.txs[n])
    ensures Filtered(l, costLimit, gasLimit, chain) == Scan(l, costLimit, gasLimit, chain)
       <==> forall n :: n in l.txs && l.txs[n].PaidByOther() ==>
              l.txs[n].GasCost() <= chain.BalanceOf(l.txs[n].payer.value)
  {
    var removed := Unpayables(l.txs, costLimit, gasLimit, chain);
    if forall n :: n in l.txs && l.txs[n].PaidByOther() ==> l.txs[n].GasCost() <= chain.BalanceOf(l.txs[n].payer.value) {
      forall n | n in l.txs ensures !Unpayable(l.txs[n], costLimit, gasLimit, chain) {
        PriceIsNotNegative(l.txs[n]);
        assert Bounded(l.txs[n], l.costcap, l.gascap);
      }
      assert removed == map[];
      assert l.txs - removed.Keys == l.txs;
    } else {
      var n :| n in l.txs && l.txs[n].PaidByOther() && l.txs[n].GasCost() > chain.BalanceOf(l.txs[n].payer.value);
      assert n in removed;
      assert Scan(l, costLimit, gasLimit, chain).removed == removed;
    }
  }

  /** A transaction at nonce 0 of account 1, whose gas account 2 pays for, with one unit of gas at price 1. */
  function PaidByTwo(): Tx {
    Tx(0, Some(1), Some(2), 0, 1, 1, 0, None, 0, Some(0))
  }

  /** On a chain where the payer has nothing, the scan would remove it and the short circuit keeps it. */
  lemma BrokePayerIsKept()
    ensures var l := Added(EmptyList(true), PaidByTwo());
      var chain := Chain(map[], map[1 := 1], 1);
      && CapsBound(l) && WithinCaps(l, 1, 1)
      && 0 in Filtered(l, 1, 1, chain).kept && 0 in Scan(l, 1, 1, chain).removed
  {
    var l := Added(EmptyList(true), PaidByTwo());
    assert l.txs[0] == PaidByTwo() && PaidByTwo().GasCost() == 1;
  }

  lemma SelfPaidShortCircuit(l: TxL, costLimit: int, gasLimit: uint64, chain: Chain)
    requires CapsBound(l) && forall n :: n in l.txs ==> SelfPaid(l.txs[n])
    ensures Filtered(l, costLimit, gasLimit, chain) == Scan(l, costLimit, gasLimit, chain)
  {
    if WithinCaps(l, costLimit, gasLimit) {
      FilterLeavesPayable(l, costLimit, gasLimit, chain);
      var removed := Unpayables(l.txs, costLimit, gasLimit, chain);
      assert removed == map[];
      assert l.txs - removed.Keys == l.txs;
    }
  }

  // ---------- the mutable list ----------

  /** What Remove leaves of a list, and which followers it gives up. */
  function Removed(l: TxL, nonce: uint64): TxMap {
    if l.strict && nonce in l.txs then BelowNonce(l.txs, nonce) else l.txs - {nonce}
  }

  function Invalidated(l: TxL, nonce: uint64): TxMap {
    if nonce in l.txs && l.strict then FromNonce(l.txs, nonce + 1) else map[]
  }

  lemma RemovedKeepsCapsBound(l: TxL, n: uint64)
    requires CapsBound(l)
    ensures CapsBound(l.(txs := Removed(l, n)))
  {
    SublistKeepsCapsBound(l, Removed(l, n));
  }

  lemma RemovedCases(l: TxL, n: uint64)
    ensures l.strict && n in l.txs ==> Removed(l, n) == BelowNonce(l.txs, n) && Invalidated(l, n) == FromNonce(l.txs, n + 1)
    ensures !(l.strict && n in l.txs) ==> Removed(l, n) == l.txs - {n} && Invalidated(l, n) == map[]
  {
  }

  lemma SplitAt(m: TxMap, f: Tx -> bool, n: nat)
    requires Keyed(m) && forall t :: f(t) == (t.nonce >= n)
    ensures Failing(m, f) == BelowNonce(m, n) && Passing(m, f) == FromNonce(m, n)
  {
  }

  lemma WithoutOne(m: TxMap, n: uint64)
    ensures BelowNonce(m - {n}, n + 1) == BelowNonce(m, n) && FromNonce(m - {n}, n + 1) == FromNonce(m, n + 1)
  {
  }

  lemma SplitUnpayable(m: TxMap, f: Tx -> bool, costLimit: int, gasLimit: uint64, chain: Chain)
    requires forall t :: f(t) == Unpayable(t, costLimit, gasLimit, chain)
    ensures var gone := Unpayables(m, costLimit, gasLimit, chain);
      && Passing(m, f) == gone && Failing(m, f) == m - gone.Keys
      && (Keyed(m) ==> Keyed(gone))
  {
  }

  lemma ScanStrict(l: TxL, costLimit: int, gasLimit: uint64, chain: Chain, lowest: nat)
    requires l.strict && Unpayables(l.txs, costLimit, gasLimit, chain) != map[]
    requires lowest == Least(Unpayables(l.txs, costLimit, gasLimit, chain))
    ensures var rest := l.txs - Unpayables(l.txs, costLimit, gasLimit, chain).Keys;
      Scan(l, costLimit, gasLimit, chain)
      == Split(BelowNonce(rest, lowest + 1), Unpayables(l.txs, costLimit, gasLimit, chain), FromNonce(rest, lowest + 1))
  {
  }

  lemma ListingSize(s: seq<Tx>, m: TxMap)
    requires Lists(s, m)
    ensures s == [] <==> m == map[]
  {
  }

  /** The lowest nonce among removed transactions. */
  method LowestNonce(s: seq<Tx>, ghost m: TxMap) returns (lowest: uint64)
    requires Keyed(m) && Lists(s, m) && s != []
    ensures m != map[] && lowest == Least(m)
  {
    lowest := MAX_UINT64;
    for i := 0 to |s|
      invariant forall j :: 0 <= j < i ==> lowest <= s[j].nonce
      invariant lowest == MAX_UINT64 || exists j :: 0 <= j < i && lowest == s[j].nonce
    {
      if lowest > s[i].nonce {
        lowest := s[i].nonce;
      }
    }
    ListingCovers(s, m);
    assert s[0].nonce in m;
    ghost var i :| 0 <= i < |s| && s[i] == m[Least(m)];
  }

  class TxList {
    const strict: bool
    const txs: TxSortedMap
    var costcap: int
    var gascap: uint64

    ghost function View(): TxL
      reads this, txs
    {
      TxL(strict, txs.items, costcap, gascap)
    }

    ghost predicate Valid()
      reads this, txs
    {
      txs.Valid() && CapsBound(View())
    }

    constructor (strict: bool)
      ensures Valid() && View() == EmptyList(strict) && fresh(txs)
    {
      this.strict, costcap, gascap := strict, 0, 0;
      txs := new TxSortedMap();
    }

    method Overlaps(t: Tx) returns (b: bool)
      ensures b == (t.nonce in txs.items)
    {
      var old' := txs.Get(t.nonce);
      b := old'.Some?;
    }

    /** Inserts unless there is an older, better transaction; returns the one replaced. */
    method Add(t: Tx, priceBump: nat) returns (inserted: bool, replaced: Option<Tx>)
      requires Valid()
      modifies this, txs
      ensures Valid() && inserted == Accepts(old(View()), t, priceBump)
      ensures t.nonce !in old(View()).txs ==> inserted
      ensures t.nonce in old(View()).txs ==>
        var price := old(View()).txs[t.nonce].gasPrice;
        inserted <==> price < t.gasPrice && 100 * t.gasPrice > price * (100 + priceBump) - 100
      ensures View() == if inserted then Added(old(View()), t) else old(View())
      ensures replaced == if inserted && t.nonce in old(View()).txs then Some(old(View()).txs[t.nonce]) else None
    {
      var prev := txs.Get(t.nonce);
      if prev.Some? {
        var threshold := prev.value.gasPrice * (100 + priceBump) / 100;
        if prev.value.gasPrice >= t.gasPrice || threshold > t.gasPrice {
          return false, None;
        }
      }
      AddKeepsCapsBound(View(), t);
      txs.Put(t);
      if costcap < t.Cost() {
        costcap := t.Cost();
      }
      if gascap < t.gas {
        gascap := t.gas;
      }
      return true, prev;
    }

    method Forward(threshold: uint64) returns (removed: seq<Tx>)
      requires Valid()
      modifies txs
      ensures Valid() && View() == old(View()).(txs := FromNonce(old(View()).txs, threshold))
      ensures removed == Sorted(BelowNonce(old(View()).txs, threshold))
    {
      ghost var l := View();
      removed := txs.Forward(threshold);
      SublistKeepsCapsBound(l, txs.items);
    }

    method RemoveUnpayable(costLimit: int, gasLimit: uint64, chain: Chain) returns (removed: seq<Tx>)
      requires txs.Valid()
      modifies txs
      ensures txs.Valid() && Keyed(Unpayables(old(txs.items), costLimit, gasLimit, chain))
      ensures txs.items == old(txs.items) - Unpayables(old(txs.items), costLimit, gasLimit, chain).Keys
      ensures Lists(removed, Unpayables(old(txs.items), costLimit, gasLimit, chain))
    {
      var tooCostly := (t: Tx) => Unpayable(t, costLimit, gasLimit, chain);
      SplitUnpayable(txs.items, tooCostly, costLimit, gasLimit, chain);
      removed := txs.Filter(tooCostly);
    }

    method RemoveAbove(nonce: nat) returns (removed: seq<Tx>)
      requires txs.Valid()
      modifies txs
      ensures txs.Valid() && txs.items == BelowNonce(old(txs.items), nonce + 1)
      ensures Lists(removed, FromNonce(old(txs.items), nonce + 1))
    {
      var above := (t: Tx) => t.nonce > nonce;
      SplitAt(txs.items, above, nonce + 1);
      removed := txs.Filter(above);
    }

    /** Removes what is too costly; a strict list also gives up everything above that. */
    method Filter(costLimit: int, gasLimit: uint64, chain: Chain) returns (removed: seq<Tx>, invalids: seq<Tx>)
      requires Valid()
      modifies this, txs
      ensures Valid() && View() == AfterFilter(old(View()), costLimit, gasLimit, chain)
      ensures Lists(removed, Filtered(old(View()), costLimit, gasLimit, chain).removed)
      ensures Lists(invalids, Filtered(old(View()), costLimit, gasLimit, chain).invalids)
    {
      if costcap <= costLimit && gascap <= gasLimit {
        return [], [];
      }
      ghost var l := View();
      FilterKeepsCapsBound(l, costLimit, gasLimit, chain);
      hide CapsBound;
      costcap, gascap := costLimit, gasLimit;
      removed := RemoveUnpayable(costLimit, gasLimit, chain);
      ghost var gone := Unpayables(l.txs, costLimit, gasLimit, chain);
      ListingSize(removed, gone);
      if strict && |removed| > 0 {
        var lowest: nat := LowestNonce(removed, gone);
        invalids := RemoveAbove(lowest);
        ScanStrict(l, costLimit, gasLimit, chain, lowest);
      } else {
        invalids := [];
      }
    }

    method Cap(threshold: nat) returns (drops: seq<Tx>)
      requires Valid()
      modifies txs
      ensures Valid() && View() == old(View()).(txs := Lowest(old(View()).txs, threshold))
      ensures Sorted(old(View()).txs) == Sorted(View().txs) + Reversed(drops)
    {
      ghost var l := View();
      drops := txs.Cap(threshold);
      SublistKeepsCapsBound(l, txs.items);
    }

    /** Removes by nonce; a strict list also gives up every later nonce. */
    method Remove(t: Tx) returns (found: bool, invalids: seq<Tx>)
      requires Valid()
      modifies txs
      ensures Valid() && found == (t.nonce in old(View()).txs)
      ensures View() == old(View()).(txs := Removed(old(View()), t.nonce))
      ensures Lists(invalids, Invalidated(old(View()), t.nonce))
    {
      hide Lists, BelowNonce, FromNonce, Indexes, Sorted, Keyed, Removed, Invalidated, CapsBound;
      ghost var l := View();
      RemovedCases(l, t.nonce);
      RemovedKeepsCapsBound(l, t.nonce);
      invalids := [];
      EmptyListing();
      found := txs.Remove(t.nonce);
      if found && strict {
        WithoutOne(l.txs, t.nonce);
        invalids := RemoveAbove(t.nonce);
      }
    }

    method Ready(start: uint64) returns (ready: seq<Tx>)
      requires Valid()
      modifies txs
      ensures Valid()
      ensures View() == old(View()).(txs := FromNonce(old(View()).txs, ReadyEnd(old(View()).txs, start)))
      ensures ready == Sorted(BelowNonce(old(View()).txs, ReadyEnd(old(View()).txs, start)))
    {
      ghost var l := View();
      ready := txs.Ready(start);
      SublistKeepsCapsBound(l, txs.items);
    }

    method Len() returns (n: nat)
      ensures n == |View().txs|
    {
      n := txs.Len();
    }

    method Flatten() returns (s: seq<Tx>)
      requires Valid()
      modifies txs
      ensures Valid() && View() == old(View())
      ensures s == Sorted(View().txs)
    {
      s := txs.Flatten();
    }
  }
}

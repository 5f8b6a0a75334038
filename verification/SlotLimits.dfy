/** Totals over account lists, and the water line of slot equalisation. */
module SlotLimits {
  import opened Txs
  import opened SortedMaps
  import opened TxLists
  import opened PoolStates
  import opened Heaps

  lemma FewerAccounts(m: Accounts, a: Address)
    requires a in m
    ensures |m - {a}| == |m| - 1
  {
    assert (m - {a}).Keys == m.Keys - {a};
    assert |(m - {a}).Keys| == |m.Keys| - 1;
  }

  /** The number of transactions in all lists. */
  ghost function Total(m: Accounts): nat
    decreases |m|
  {
    if m == map[] then 0 else
      var a :| a in m;
      assert |m - {a}| < |m| by { FewerAccounts(m, a); }
      |m[a].txs| + Total(m - {a})
  }

  lemma WithoutBoth(m: Accounts, a: Address, b: Address)
    ensures m - {a} - {b} == m - {b} - {a}
  {
  }

  lemma TotalPicks(m: Accounts) returns (a: Address)
    requires m != map[]
    ensures a in m && Total(m) == |m[a].txs| + Total(m - {a})
  {
    a :| a in m && Total(m) == |m[a].txs| + Total(m - {a});
  }

  lemma {:induction false} TotalWithout(m: Accounts, a: Address)
    requires a in m
    ensures Total(m) == |m[a].txs| + Total(m - {a})
    decreases |m|
  {
    hide Total;
    var b := TotalPicks(m);
    if a != b {
      FewerAccounts(m, b);
      FewerAccounts(m, a);
      TotalWithout(m - {b}, a);
      TotalWithout(m - {a}, b);
      WithoutBoth(m, a, b);
    }
  }

  lemma TotalUpdate(m: Accounts, a: Address, l: TxL)
    requires a in m
    ensures Total(m[a := l]) == Total(m) - |m[a].txs| + |l.txs|
  {
    hide Total;
    TotalWithout(m, a);
    TotalWithout(m[a := l], a);
    assert m[a := l] - {a} == m - {a};
  }

  lemma {:induction false} TotalAtLeast(m: Accounts, a: Address)
    requires a in m
    ensures |m[a].txs| <= Total(m)
  {
    TotalWithout(m, a);
  }

  lemma {:induction false} PartSize(m: TxMap, l: TxMap)
    requires Part(m, l)
    ensures |m| <= |l|
  {
    assert m.Keys <= l.Keys;
    assert l.Keys == m.Keys + (l.Keys - m.Keys);
  }

  lemma NoTotal()
    ensures Total(map[]) == 0
  {
  }

  lemma ShrunkWithout(q: Accounts, q': Accounts, a: Address)
    requires Shrunk(q, q')
    ensures Shrunk(q - {a}, q' - {a})
  {
    forall b ensures Part(Items(q' - {a}, b), Items(q - {a}, b)) {
      assert Part(Items(q', b), Items(q, b));
    }
  }

  /** Lists that only lost transactions hold no more in total. */
  lemma {:induction false} ShrunkTotal(q: Accounts, q': Accounts)
    requires Shrunk(q, q')
    ensures Total(q') <= Total(q)
    decreases |q'|
  {
    hide Total, Part;
    if q' == map[] {
      NoTotal();
    } else {
      var a :| a in q';
      FewerAccounts(q', a);
      TotalWithout(q', a);
      PartSize(Items(q', a), Items(q, a));
      ShrunkWithout(q, q', a);
      ShrunkTotal(q - {a}, q' - {a});
      if a in q {
        TotalWithout(q, a);
      } else {
        assert q - {a} == q;
      }
    }
  }

  /** The transactions in all lists. */
  ghost function Held(m: Accounts): set<Tx> {
    set a, n | a in m && n in m[a].txs :: m[a].txs[n]
  }

  lemma {:induction false} ValuesSize(m: TxMap)
    requires Keyed(m)
    ensures |Values(m)| == |m|
    decreases |m|
  {
    if m == map[] {
      assert Values(m) == {};
    } else {
      var n :| n in m;
      CardinalityWithout(m, n);
      ValuesSize(m - {n});
      ValuesWithout(m, n);
      assert m[n] in Values(m);
    }
  }

  lemma HeldWithout(m: Accounts, a: Address)
    requires AllFit(m) && a in m
    ensures Held(m) == Held(m - {a}) + Values(m[a].txs) && Held(m - {a}) !! Values(m[a].txs)
  {
    forall b, n | b in m && n in m[b].txs ensures m[b].txs[n].sender == Some(b) {
      assert Fits(Items(m, b)[n], b, n);
    }
    forall t | t in Held(m) ensures t in Held(m - {a}) + Values(m[a].txs) {
      var b, n :| b in m && n in m[b].txs && m[b].txs[n] == t;
      if b != a {
        assert (m - {a})[b].txs[n] == t;
      }
    }
    forall t | t in Held(m - {a}) ensures t in Held(m) {
      var b, n :| b in m - {a} && n in (m - {a})[b].txs && (m - {a})[b].txs[n] == t;
      assert m[b].txs[n] == t;
    }
  }

  lemma NothingHeld()
    ensures Held(map[]) == {}
  {
  }

  lemma {:induction false} HeldSize(m: Accounts)
    requires AllFit(m)
    ensures |Held(m)| == Total(m)
    decreases |m|
  {
    hide Total, Held;
    if m == map[] {
      NoTotal();
      NothingHeld();
    } else {
      var a :| a in m;
      FewerAccounts(m, a);
      TotalWithout(m, a);
      assert AllFit(m - {a}) by {
        forall b, n | n in Items(m - {a}, b) ensures Fits(Items(m - {a}, b)[n], b, n) {
          assert Fits(Items(m, b)[n], b, n);
        }
      }
      HeldSize(m - {a});
      HeldWithout(m, a);
      assert Keyed(m[a].txs) by {
        assert forall n :: n in m[a].txs ==> Fits(Items(m, a)[n], a, n);
      }
      ValuesSize(m[a].txs);
    }
  }

  lemma HeldIsHeld(m: Accounts, t: Tx)
    requires AllFit(m)
    ensures t in Held(m) <==> Holds(m, t)
  {
    if t in Held(m) {
      var a, n :| a in m && n in m[a].txs && m[a].txs[n] == t;
      assert Fits(Items(m, a)[n], a, n);
    }
  }

  /** The pool knows of exactly as many transactions as its lists hold. */
  lemma AllIsTotal(p: Accounts, q: Accounts, all: set<Tx>)
    requires Partition(p, q, all, {})
    ensures |all| == Total(p) + Total(q)
  {
    hide Total;
    HeldSize(p);
    HeldSize(q);
    forall t ensures t in Held(p) <==> Holds(p, t) {
      HeldIsHeld(p, t);
    }
    forall t ensures t in Held(q) <==> Holds(q, t) {
      HeldIsHeld(q, t);
    }
    assert all == Held(p) + Held(q) && Held(p) !! Held(q) by {
      hide Held;
    }
  }

  /** Remote accounts cut down to their `level` lowest nonces; local ones untouched. */
  function LevelAt(m: Accounts, locals: set<Address>, level: nat): Accounts {
    map a | a in m :: if a in locals then m[a] else m[a].(txs := Lowest(m[a].txs, level))
  }

  /**
   The water line: a remote account that loses anything keeps exactly its `level`
   lowest nonces, every other remote account has at most that many, and local
   accounts lose nothing.
   */
  lemma WaterLine(m: Accounts, locals: set<Address>, level: nat, a: Address)
    requires a in m
    ensures var l := LevelAt(m, locals, level)[a];
      && (a in locals ==> l == m[a])
      && (l != m[a] ==> |l.txs| == level < |m[a].txs|)
      && (a !in locals ==> |l.txs| <= level)
      && (forall n, k :: n in l.txs && k in m[a].txs && k !in l.txs ==> n < k)
  {
    LowestOfFew(m[a].txs, level);
  }

  /** The remote accounts with more than `level` transactions. */
  function Above(m: Accounts, locals: set<Address>, level: nat): set<Address> {
    set a | a in m && a !in locals && |m[a].txs| > level
  }

  /** A level at or above every remote account cuts nothing. */
  lemma LevelAboveAll(m: Accounts, locals: set<Address>, level: nat)
    requires Above(m, locals, level) == {}
    ensures LevelAt(m, locals, level) == m
  {
    forall a | a in m ensures LevelAt(m, locals, level)[a] == m[a] {
      if a !in locals {
        assert a !in Above(m, locals, level);
        LowestOfFew(m[a].txs, level);
      }
    }
  }

  /** One list with its highest nonce dropped. */
  function CutOne(l: TxL): TxL
    requires l.txs != map[]
  {
    l.(txs := l.txs - {Greatest(l.txs)})
  }

  /** Lowering the level by one drops the highest nonce of exactly the accounts above it. */
  lemma LevelStep(m: Accounts, locals: set<Address>, level: nat, a: Address)
    requires a in m
    ensures a in Above(m, locals, level) ==>
      && LevelAt(m, locals, level + 1)[a].txs != map[]
      && |LevelAt(m, locals, level + 1)[a].txs| == level + 1
      && LevelAt(m, locals, level)[a] == CutOne(LevelAt(m, locals, level + 1)[a])
    ensures a !in Above(m, locals, level) ==> LevelAt(m, locals, level)[a] == LevelAt(m, locals, level + 1)[a]
  {
    if a in Above(m, locals, level) {
      LowestStep(m[a].txs, level);
    } else if a !in locals {
      LowestOfFew(m[a].txs, level);
      LowestOfFew(m[a].txs, level + 1);
    }
  }

  /** Capping a list by one drops its highest nonce. */
  lemma CapByOne(m: TxMap)
    requires m != map[]
    ensures |m| >= 1 && Lowest(m, |m| - 1) == m - {Greatest(m)}
  {
    CardinalityWithout(m, Greatest(m));
  }

  /** Dropping the highest nonce of a list that is too long does not change what the cap leaves. */
  lemma LowestAfterCut(l: TxL, limit: nat)
    requires |l.txs| > limit
    ensures l.txs != map[] && |CutOne(l).txs| == |l.txs| - 1
    ensures Lowest(CutOne(l).txs, limit) == Lowest(l.txs, limit)
  {
    CardinalityWithout(l.txs, Greatest(l.txs));
  }

  /** At every level from `floor` to below `top`, the accounts above it are the same. */
  ghost predicate SameAbove(m: Accounts, locals: set<Address>, floor: nat, top: nat, offenders: set<Address>) {
    forall l: nat :: floor <= l < top ==> Above(m, locals, l) == offenders
  }

  lemma OffendersAbove(m: Accounts, locals: set<Address>, floor: nat, top: nat, offenders: set<Address>)
    requires forall a :: a in offenders ==> a in m && a !in locals && |m[a].txs| >= top
    requires forall a :: a in m && a !in locals && a !in offenders ==> |m[a].txs| <= floor
    ensures SameAbove(m, locals, floor, top, offenders)
  {
  }

  function Elements(s: seq<Address>): set<Address> {
    set a | a in s
  }

  ghost predicate Distinct(s: seq<Address>) {
    forall i, j :: 0 <= i < j < |s| ==> s[i] != s[j]
  }

  /**
   Equalisation in progress: of the remote accounts above their guaranteed slots,
   `offenders` were picked already and none of the rest is above the water line.
   While the total is still too high, every offender has reached the line.
   */
  ghost predicate Hunt(m: Accounts, locals: set<Address>, slots: nat, offenders: seq<Address>, spammers: set<Address>,
                       level: nat, tooMany: bool) {
    && Distinct(offenders)
    && Elements(offenders) !! spammers
    && Elements(offenders) + spammers == Above(m, locals, slots)
    && (forall a :: a in spammers ==> a in m && |m[a].txs| <= level)
    && (tooMany ==> forall a :: a in offenders ==> a in m && |m[a].txs| >= level > slots)
  }

  lemma HuntStarts(m: Accounts, locals: set<Address>, slots: nat, level: nat)
    requires forall a :: a in m ==> |m[a].txs| <= level
    ensures Hunt(m, locals, slots, [], Above(m, locals, slots), level, true)
  {
  }

  lemma HuntStep(m: Accounts, locals: set<Address>, slots: nat, offenders: seq<Address>, spammers: set<Address>,
                 level: nat, offender: Address, level': nat, tooMany: bool)
    requires Hunt(m, locals, slots, offenders, spammers, level, true) && offender in spammers
    requires forall a :: a in spammers ==> |m[a].txs| <= |m[offender].txs|
    requires |m[offender].txs| <= level' <= level && (tooMany ==> level' == |m[offender].txs|)
    ensures Hunt(m, locals, slots, offenders + [offender], spammers - {offender}, level', tooMany)
  {
    assert Elements(offenders + [offender]) == Elements(offenders) + {offender};
    assert offender in Above(m, locals, slots);
  }

  /** The offenders may be lowered together to the longest of the others. */
  lemma HuntLowers(m: Accounts, locals: set<Address>, slots: nat, offenders: seq<Address>, spammers: set<Address>,
                   level: nat, floor: nat)
    requires Hunt(m, locals, slots, offenders, spammers, level, true) && slots <= floor
    requires forall a :: a in spammers ==> |m[a].txs| <= floor
    ensures SameAbove(m, locals, floor, level, Elements(offenders))
    ensures forall a :: a in offenders ==> a in m && a !in locals && |m[a].txs| >= level
  {
    forall a | a in offenders ensures a in m && a !in locals && |m[a].txs| >= level {
      assert a in Elements(offenders);
      assert a in Above(m, locals, slots);
    }
    forall a | a in m && a !in locals && a !in Elements(offenders) ensures |m[a].txs| <= floor {
      assert a in Above(m, locals, slots) ==> a in spammers;
    }
    OffendersAbove(m, locals, floor, level, Elements(offenders));
  }

  /** A sequence with the multiplicities of a set lists it without repetition. */
  lemma ListsSet(r: seq<Address>, s: set<Address>)
    requires multiset(r) == multiset(s)
    ensures Distinct(r) && Elements(r) == s
  {
    forall i, j | 0 <= i < j < |r| ensures r[i] != r[j] {
      TwiceCounted(r, i, j);
    }
    forall a ensures a in r <==> a in s {
      assert a in r <==> a in multiset(r);
      assert a in s <==> a in multiset(s);
    }
  }

  // ---------- trimming the queue ----------

  /** An account's last activity; the zero time for one never seen active. */
  function Beat(beats: map<Address, int>, a: Address): int {
    if a in beats then beats[a] else 0
  }

  /** An account lost queued transactions. */
  ghost predicate Trimmed(before: Accounts, after: Accounts, a: Address) {
    a in before && (a !in after || after[a] != before[a])
  }

  /** Whoever was active after a trimmed account has no queue left, locals aside. */
  ghost predicate LatestFirst(before: Accounts, after: Accounts, locals: set<Address>, beats: map<Address, int>) {
    forall a, b :: Trimmed(before, after, a) && b in before && b !in locals && Beat(beats, b) > Beat(beats, a) ==> b !in after
  }

  /** A list that lost its highest nonces, or nothing. */
  ghost predicate LowestOf(l: TxL, l': TxL) {
    l' == l.(txs := Lowest(l.txs, |l'.txs|))
  }

  lemma LowestOfSelf(l: TxL)
    ensures LowestOf(l, l)
  {
    LowestOfFew(l.txs, |l.txs|);
  }

  /** Every queue that is left holds its lowest nonces, and at most one of them is not complete. */
  ghost predicate LowestLeft(before: Accounts, after: Accounts) {
    && after.Keys <= before.Keys
    && (forall a :: a in after ==> LowestOf(before[a], after[a]))
    && (forall a, b :: a in after && b in after && Trimmed(before, after, a) && Trimmed(before, after, b) ==> a == b)
  }

  /**
   Trimming in progress: the remote accounts in `waiting`, the least recently
   active first, are untouched, and the others have no queue left unless `done`.
   */
  ghost predicate Trimming(before: Accounts, q: Accounts, locals: set<Address>, beats: map<Address, int>,
                           waiting: seq<Address>, done: bool) {
    && q.Keys <= before.Keys
    && Distinct(waiting)
    && (forall a :: a in waiting ==> a in before && a !in locals)
    && (forall i, j :: 0 <= i < j < |waiting| ==> Beat(beats, waiting[i]) <= Beat(beats, waiting[j]))
    && (forall a :: a in before && (a in locals || a in waiting) ==> a in q && q[a] == before[a])
    && (forall a, b :: a in before && a !in locals && a !in waiting && b in waiting ==> Beat(beats, b) <= Beat(beats, a))
    && (!done ==> forall a :: a in before && a !in locals && a !in waiting ==> a !in q)
    && LatestFirst(before, q, locals, beats)
  }

  lemma TrimStarts(q: Accounts, locals: set<Address>, beats: map<Address, int>, waiting: seq<Address>)
    requires Distinct(waiting) && Elements(waiting) == q.Keys - locals
    requires forall i, j :: 0 <= i < j < |waiting| ==> Beat(beats, waiting[i]) <= Beat(beats, waiting[j])
    ensures Trimming(q, q, locals, beats, waiting, false)
  {
    forall a ensures a in waiting <==> a in q && a !in locals {
      assert a in Elements(waiting) <==> a in waiting;
    }
  }

  /** q' differs from q at most at a. */
  ghost predicate SameBut(q: Accounts, q': Accounts, a: Address) {
    forall b :: b != a ==> (b in q' <==> b in q) && (b in q' ==> q'[b] == q[b])
  }

  lemma ChangeOne(q: Accounts, a: Address, l: TxL)
    requires a in q
    ensures SameBut(q, q - {a}, a) && (q - {a}).Keys <= q.Keys && a !in q - {a}
    ensures SameBut(q, q[a := l], a) && q[a := l].Keys <= q.Keys
  {
  }

  lemma SameButIsUpdate(q: Accounts, q': Accounts, a: Address)
    requires SameBut(q, q', a) && q'.Keys == q.Keys && a in q
    ensures q' == q[a := q'[a]]
  {
  }

  lemma SameButChain(p: Accounts, q: Accounts, r: Accounts, a: Address)
    requires SameBut(p, q, a) && SameBut(q, r, a)
    ensures SameBut(p, r, a)
  {
  }

  lemma TrimOrder(before: Accounts, q: Accounts, q': Accounts, locals: set<Address>, beats: map<Address, int>,
                  waiting: seq<Address>, a: Address)
    requires Trimming(before, q, locals, beats, waiting, false) && waiting != [] && a == waiting[|waiting| - 1]
    requires SameBut(q, q', a) && q'.Keys <= q.Keys
    ensures LatestFirst(before, q', locals, beats)
  {
    assert a in waiting;
    forall c, b | Trimmed(before, q', c) && b in before && b !in locals && Beat(beats, b) > Beat(beats, c) ensures b !in q' {
      if c == a {
        assert b !in waiting;
      } else {
        assert Trimmed(before, q, c) && c !in waiting && c !in locals;
      }
    }
  }

  lemma AllLeft(q: Accounts)
    ensures LowestLeft(q, q)
  {
    hide LowestOf;
    forall a | a in q ensures LowestOf(q[a], q[a]) {
      LowestOfSelf(q[a]);
    }
  }

  /** As long as something must still be removed, what is left is untouched. */
  lemma Untouched(before: Accounts, q: Accounts, locals: set<Address>, beats: map<Address, int>, waiting: seq<Address>)
    requires Trimming(before, q, locals, beats, waiting, false)
    ensures forall a :: a in q ==> a in before && q[a] == before[a]
  {
    hide LatestFirst, Distinct;
  }

  lemma TrimsHighest(before: Accounts, q: Accounts, q': Accounts, a: Address)
    requires forall c :: c in q ==> c in before && q[c] == before[c]
    requires SameBut(q, q', a) && (a in q' ==> a in q && LowestOf(q[a], q'[a]))
    ensures LowestLeft(before, q')
  {
    hide LowestOf;
    forall c | c in q' && c != a ensures !Trimmed(before, q', c) && LowestOf(before[c], q'[c]) {
      LowestOfSelf(q'[c]);
    }
  }

  lemma AllButLast(waiting: seq<Address>)
    requires Distinct(waiting) && waiting != []
    ensures var a, rest := waiting[|waiting| - 1], waiting[..|waiting| - 1];
      Distinct(rest) && a !in rest && forall b :: b in waiting <==> b in rest || b == a
  {
    var a, rest := waiting[|waiting| - 1], waiting[..|waiting| - 1];
    assert waiting == rest + [a];
  }

  lemma TrimStep(before: Accounts, q: Accounts, q': Accounts, locals: set<Address>, beats: map<Address, int>,
                 waiting: seq<Address>, done: bool)
    requires Trimming(before, q, locals, beats, waiting, false) && waiting != []
    requires SameBut(q, q', waiting[|waiting| - 1]) && q'.Keys <= q.Keys
    requires !done ==> waiting[|waiting| - 1] !in q'
    ensures Trimming(before, q', locals, beats, waiting[..|waiting| - 1], done)
  {
    var a, rest := waiting[|waiting| - 1], waiting[..|waiting| - 1];
    TrimOrder(before, q, q', locals, beats, waiting, a);
    AllButLast(waiting);
    hide LatestFirst, Beat, Distinct;
  }

  /** When nobody is waiting any more only local queues are left. */
  lemma TrimEnds(before: Accounts, q: Accounts, locals: set<Address>, beats: map<Address, int>,
                 waiting: seq<Address>, done: bool)
    requires Trimming(before, q, locals, beats, waiting, done)
    ensures !done && waiting == [] ==> q.Keys <= locals
  {
  }

  lemma ReplaceOne(m: Accounts, a: Address, k: TxL, l: TxL)
    ensures m[a := k][a := l] == m[a := l] && m[a := l] - {a} == m - {a} && m - {a} - {a} == m - {a}
  {
  }
}

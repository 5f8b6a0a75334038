/**
 The block tree, its canonical index by number and its index of transactions, and
 the reorganisation that moves both from one branch to another.
 */
module Chains {
  import opened Txs

  type Hash = nat

  datatype Block = Block(hash: Hash, number: nat, parent: Hash, txs: seq<Tx>)

  type Store = map<Hash, Block>

  /** Blocks are stored under their hash, and a block's number is one more than its parent's. */
  ghost predicate Consistent(store: Store) {
    forall h :: h in store ==>
      && store[h].hash == h
      && store[h].number <= MAX_UINT64
      && (store[h].parent in store ==> store[store[h].parent].number + 1 == store[h].number)
  }

  function GetBlock(store: Store, hash: Hash, number: nat): Option<Block> {
    if hash in store && store[hash].number == number then Some(store[hash]) else None
  }

  function ParentOf(store: Store, b: Block): Option<Block> {
    GetBlock(store, b.parent, Prev(b.number))
  }

  lemma ParentIsStored(store: Store, b: Block)
    requires Consistent(store) && b.hash in store && store[b.hash] == b
    ensures ParentOf(store, b).Some? ==>
      var p := ParentOf(store, b).value;
      p.hash == b.parent && p.hash in store && store[p.hash] == p && p.number + 1 == b.number
  {
  }

  /** The ancestor d generations up, if all in between are stored. */
  function Up(store: Store, b: Block, d: nat): Option<Block>
    decreases d
  {
    if d == 0 then Some(b)
    else if ParentOf(store, b).None? then None
    else Up(store, ParentOf(store, b).value, d - 1)
  }

  ghost predicate IsStored(store: Store, b: Block) {
    b.hash in store && store[b.hash] == b
  }

  /** s is the blocks passed on the way from one block up to another, the first included, the last not. */
  ghost predicate Walk(store: Store, from: Block, s: seq<Block>, to: Block)
    decreases |s|
  {
    if s == [] then from == to
    else s[0] == from && ParentOf(store, from).Some? && Walk(store, ParentOf(store, from).value, s[1..], to)
  }

  lemma {:induction false} WalkOn(store: Store, from: Block, s: seq<Block>, to: Block)
    requires Walk(store, from, s, to) && ParentOf(store, to).Some?
    ensures Walk(store, from, s + [to], ParentOf(store, to).value)
    decreases |s|
  {
    if s == [] {
      assert (s + [to])[1..] == [];
    } else {
      WalkOn(store, ParentOf(store, from).value, s[1..], to);
      assert (s + [to])[1..] == s[1..] + [to];
    }
  }

  /** The blocks of a walk are the successive ancestors, one number apart. */
  lemma {:induction false} WalkFacts(store: Store, from: Block, s: seq<Block>, to: Block)
    requires Consistent(store) && IsStored(store, from) && Walk(store, from, s, to)
    ensures IsStored(store, to) && from.number == to.number + |s|
    ensures forall i :: 0 <= i < |s| ==> s[i].number == from.number - i && Up(store, from, i) == Some(s[i])
    ensures forall i: nat :: Up(store, from, |s| + i) == Up(store, to, i)
    decreases |s|
  {
    if s != [] {
      ParentIsStored(store, from);
      var p := ParentOf(store, from).value;
      WalkFacts(store, p, s[1..], to);
      forall i | 0 <= i < |s| ensures s[i].number == from.number - i && Up(store, from, i) == Some(s[i]) {
        if i > 0 {
          assert s[i] == s[1..][i - 1];
        }
      }
      forall i: nat ensures Up(store, from, |s| + i) == Up(store, to, i) {
        assert Up(store, from, |s| + i) == Up(store, p, |s[1..]| + i);
      }
    }
  }

  // ---------- ancestors ----------

  ghost predicate IsAncestor(store: Store, a: Block, b: Block) {
    exists d: nat :: Up(store, b, d) == Some(a)
  }

  /** No block of one branch is also in the other. */
  ghost predicate Apart(s: seq<Block>, t: seq<Block>) {
    forall i, j :: 0 <= i < |s| && 0 <= j < |t| && s[i].number == t[j].number ==> s[i].hash != t[j].hash
  }

  lemma {:induction false} UpNumber(store: Store, b: Block, d: nat)
    requires Consistent(store) && IsStored(store, b) && Up(store, b, d).Some?
    ensures IsStored(store, Up(store, b, d).value) && Up(store, b, d).value.number + d == b.number
    decreases d
  {
    if d > 0 {
      ParentIsStored(store, b);
      UpNumber(store, ParentOf(store, b).value, d - 1);
    }
  }

  lemma ApartUp(store: Store, a: Block, b: Block, s: seq<Block>, t: seq<Block>, x: Block, y: Block, d: nat, f: nat)
    requires Consistent(store) && IsStored(store, a) && IsStored(store, b)
    requires Walk(store, a, s, x) && Walk(store, b, t, y) && Apart(s, t)
    requires d < |s| && f < |t|
    ensures Up(store, a, d) != Up(store, b, f)
  {
    WalkFacts(store, a, s, x);
    WalkFacts(store, b, t, y);
    assert Up(store, a, d) == Some(s[d]) && Up(store, b, f) == Some(t[f]);
  }

  /** The meeting point of two walks that stay apart is the highest common ancestor. */
  lemma MeetIsHighest(store: Store, a: Block, b: Block, s: seq<Block>, t: seq<Block>, c: Block, e: Block)
    requires Consistent(store) && IsStored(store, a) && IsStored(store, b)
    requires Walk(store, a, s, c) && Walk(store, b, t, c) && Apart(s, t)
    requires IsAncestor(store, e, a) && IsAncestor(store, e, b)
    ensures e.number <= c.number
  {
    WalkFacts(store, a, s, c);
    WalkFacts(store, b, t, c);
    var d: nat :| Up(store, a, d) == Some(e);
    var f: nat :| Up(store, b, f) == Some(e);
    UpNumber(store, a, d);
    UpNumber(store, b, f);
    if d < |s| && f < |t| {
      ApartUp(store, a, b, s, t, c, c, d, f);
    }
  }

  ghost predicate FollowsAt(store: Store, canonical: map<nat, Hash>, head: Block, d: nat) {
    d <= head.number && Up(store, head, d).Some? ==>
      head.number - d in canonical && canonical[head.number - d] == Up(store, head, d).value.hash
  }

  /** Every known ancestor of a head, itself included, is canonical at its number. */
  ghost predicate Follows(store: Store, canonical: map<nat, Hash>, head: Block) {
    forall d: nat :: FollowsAt(store, canonical, head, d)
  }

  /** The index after writing a branch over it. */
  ghost predicate Overwritten(before: map<nat, Hash>, after: map<nat, Hash>, branch: seq<Block>, low: nat) {
    && (forall i :: 0 <= i < |branch| ==> branch[i].number in after && after[branch[i].number] == branch[i].hash)
    && (forall k :: !(low < k <= low + |branch|) ==> (k in after <==> k in before) && (k in after ==> after[k] == before[k]))
  }

  lemma WalkShift(store: Store, from: Block, s: seq<Block>, to: Block, i: nat)
    requires Consistent(store) && IsStored(store, from) && Walk(store, from, s, to)
    ensures from.number == to.number + |s| && Up(store, from, |s| + i) == Up(store, to, i)
  {
    WalkFacts(store, from, s, to);
  }

  lemma BelowBranch(store: Store, before: map<nat, Hash>, after: map<nat, Hash>,
                    old': Block, new': Block, s: seq<Block>, t: seq<Block>, c: Block, i: nat)
    requires Consistent(store) && IsStored(store, old') && IsStored(store, new')
    requires Walk(store, old', s, c) && Walk(store, new', t, c)
    requires FollowsAt(store, before, old', |s| + i) && Overwritten(before, after, t, c.number)
    ensures FollowsAt(store, after, new', |t| + i)
  {
    hide Walk, Consistent, Up, ParentOf;
    WalkShift(store, old', s, c, i);
    WalkShift(store, new', t, c, i);
    if |t| + i <= new'.number {
      var k := c.number - i;
      assert k == new'.number - (|t| + i) == old'.number - (|s| + i);
    }
  }

  /** Writing the new branch over an index that follows the old head makes it follow the new one. */
  lemma BranchMakesFollow(store: Store, before: map<nat, Hash>, after: map<nat, Hash>,
                          old': Block, new': Block, s: seq<Block>, t: seq<Block>, c: Block)
    requires Consistent(store) && IsStored(store, old') && IsStored(store, new')
    requires Walk(store, old', s, c) && Walk(store, new', t, c)
    requires Follows(store, before, old') && Overwritten(before, after, t, c.number)
    ensures Follows(store, after, new')
  {
    hide Walk, Consistent;
    forall d: nat ensures FollowsAt(store, after, new', d) {
      if d < |t| {
        WalkFacts(store, new', t, c);
        assert Up(store, new', d) == Some(t[d]);
      } else {
        assert FollowsAt(store, before, old', |s| + (d - |t|));
        BelowBranch(store, before, after, old', new', s, t, c, d - |t|);
      }
    }
  }

  // ---------- the transaction index ----------

  ghost predicate InBranch(branch: seq<Block>, t: Tx) {
    exists i :: 0 <= i < |branch| && t in branch[i].txs
  }

  /** The transaction is looked up in the highest block of the branch (listed from the top) that has it. */
  ghost predicate PointsTo(lookup: map<Tx, Hash>, branch: seq<Block>, t: Tx) {
    exists i :: 0 <= i < |branch| && t in branch[i].txs && t in lookup && lookup[t] == branch[i].hash
      && forall j :: 0 <= j < i ==> t !in branch[j].txs
  }

  /** What writing and deleting the entries of the two branches amounts to. */
  ghost predicate LookupsMoved(before: map<Tx, Hash>, after: map<Tx, Hash>, gone: seq<Block>,
                               come: seq<Block>) {
    && (forall t :: InBranch(come, t) ==> PointsTo(after, come, t))
    && (forall t :: InBranch(gone, t) && !InBranch(come, t) ==> t !in after)
    && (forall t :: !InBranch(gone, t) && !InBranch(come, t) ==> (t in after <==> t in before) && (t in after ==> after[t] == before[t]))
  }

  datatype ReorgResult = Reorganised | InvalidOldChain | InvalidNewChain

  /** Two blocks have a known common ancestor. */
  ghost predicate Related(store: Store, a: Block, b: Block) {
    exists e :: IsAncestor(store, e, a) && IsAncestor(store, e, b)
  }

  lemma {:induction false} NoneAboveNone(store: Store, b: Block, d: nat, e: nat)
    requires Up(store, b, d).None? && d <= e
    ensures Up(store, b, e).None?
    decreases d
  {
    if ParentOf(store, b).Some? {
      NoneAboveNone(store, ParentOf(store, b).value, d - 1, e - 1);
    }
  }

  /** A branch that ends above the other head shares nothing with it. */
  lemma TooShort(store: Store, a: Block, b: Block)
    requires Consistent(store) && IsStored(store, a) && IsStored(store, b)
    requires a.number >= b.number && Up(store, a, a.number - b.number).None?
    ensures !Related(store, a, b) && !Related(store, b, a)
  {
    forall e | IsAncestor(store, e, b) ensures !IsAncestor(store, e, a) {
      var f: nat :| Up(store, b, f) == Some(e);
      UpNumber(store, b, f);
      forall d: nat ensures Up(store, a, d) != Some(e) {
        if Up(store, a, d) == Some(e) {
          UpNumber(store, a, d);
          NoneAboveNone(store, a, a.number - b.number, d);
        }
      }
    }
  }

  lemma MissingParent(store: Store, from: Block, s: seq<Block>, to: Block, d: nat)
    requires Consistent(store) && IsStored(store, from) && Walk(store, from, s, to) && ParentOf(store, to).None? && d > |s|
    ensures Up(store, from, d).None?
  {
    WalkFacts(store, from, s, to);
    assert Up(store, from, |s| + (d - |s|)) == Up(store, to, d - |s|);
  }

  lemma OffWalks(store: Store, a: Block, b: Block, s: seq<Block>, t: seq<Block>, x: Block, y: Block, d: nat, f: nat)
    requires Consistent(store) && IsStored(store, a) && IsStored(store, b)
    requires Walk(store, a, s, x) && Walk(store, b, t, y) && Apart(s, t)
    requires x.number == y.number && x.hash != y.hash && ParentOf(store, x).None?
    ensures Up(store, a, d).Some? ==> Up(store, b, f) != Up(store, a, d)
  {
    hide Walk, Consistent, Apart;
    WalkFacts(store, a, s, x);
    WalkFacts(store, b, t, y);
    if d > |s| {
      MissingParent(store, a, s, x, d);
    } else if d == |s| && f == |t| {
      assert Up(store, a, |s| + 0) == Up(store, x, 0);
      assert Up(store, b, |t| + 0) == Up(store, y, 0);
    } else if d < |s| && f < |t| {
      ApartUp(store, a, b, s, t, x, y, d, f);
    } else if Up(store, a, d).Some? && Up(store, b, f).Some? {
      UpNumber(store, a, d);
      UpNumber(store, b, f);
    }
  }

  /** If one of two walks that stay apart cannot go on, the blocks have no common ancestor. */
  lemma StoppedWalks(store: Store, a: Block, b: Block, s: seq<Block>, t: seq<Block>, x: Block, y: Block)
    requires Consistent(store) && IsStored(store, a) && IsStored(store, b)
    requires Walk(store, a, s, x) && Walk(store, b, t, y) && Apart(s, t)
    requires x.number == y.number && x.hash != y.hash && ParentOf(store, x).None?
    ensures !Related(store, a, b) && !Related(store, b, a)
  {
    WalkFacts(store, a, s, x);
    WalkFacts(store, b, t, y);
    forall e, d: nat, f: nat | Up(store, a, d) == Some(e) ensures Up(store, b, f) != Some(e) {
      OffWalks(store, a, b, s, t, x, y, d, f);
    }
  }

  lemma ApartOn(store: Store, a: Block, b: Block, s: seq<Block>, t: seq<Block>, x: Block, y: Block)
    requires Consistent(store) && IsStored(store, a) && IsStored(store, b)
    requires Walk(store, a, s, x) && Walk(store, b, t, y) && Apart(s, t)
    requires x.number == y.number && x.hash != y.hash
    ensures Apart(s + [x], t + [y])
  {
    WalkFacts(store, a, s, x);
    WalkFacts(store, b, t, y);
  }

  lemma NoWalk(store: Store, b: Block)
    ensures Walk(store, b, [], b)
  {
  }

  lemma EmptyIsApart()
    ensures Apart([], [])
  {
  }

  lemma OneSideApart(s: seq<Block>)
    ensures Apart(s, []) && Apart([], s)
  {
  }

  /** The meeting point is the highest common ancestor. */
  lemma MeetRelates(store: Store, a: Block, b: Block, s: seq<Block>, t: seq<Block>, c: Block)
    requires Consistent(store) && IsStored(store, a) && IsStored(store, b)
    requires Walk(store, a, s, c) && Walk(store, b, t, c) && Apart(s, t)
    ensures Related(store, a, b) && IsAncestor(store, c, a) && IsAncestor(store, c, b)
    ensures forall e :: IsAncestor(store, e, a) && IsAncestor(store, e, b) ==> e.number <= c.number
  {
    hide Walk, Apart, Consistent;
    WalkFacts(store, a, s, c);
    WalkFacts(store, b, t, c);
    assert Up(store, a, |s| + 0) == Up(store, c, 0);
    assert Up(store, b, |t| + 0) == Up(store, c, 0);
    forall e | IsAncestor(store, e, a) && IsAncestor(store, e, b) ensures e.number <= c.number {
      MeetIsHighest(store, a, b, s, t, c, e);
    }
  }

  lemma OverwriteOne(before: map<nat, Hash>, k: map<nat, Hash>, b: Block, branch: seq<Block>, low: nat)
    requires Overwritten(before, k, branch, low) && b.number == low + |branch| + 1
    requires forall i :: 0 <= i < |branch| ==> branch[i].number < b.number
    ensures Overwritten(before, k[b.number := b.hash], [b] + branch, low)
  {
  }

  lemma LookupOne(before: map<Tx, Hash>, l: map<Tx, Hash>, l': map<Tx, Hash>, b: Block, branch: seq<Block>)
    requires LookupsMoved(before, l, [], branch)
    requires forall t :: t in b.txs ==> t in l' && l'[t] == b.hash
    requires forall t :: t !in b.txs ==> (t in l' <==> t in l) && (t in l' ==> l'[t] == l[t])
    ensures LookupsMoved(before, l', [], [b] + branch)
  {
    var come := [b] + branch;
    forall t ensures InBranch(come, t) <==> t in b.txs || InBranch(branch, t) {
      if t in b.txs {
        assert t in come[0].txs;
      } else if InBranch(branch, t) {
        var i :| 0 <= i < |branch| && t in branch[i].txs;
        assert t in come[i + 1].txs;
      } else {
        assert forall i :: 1 <= i < |come| ==> come[i] == branch[i - 1];
      }
    }
    forall t | InBranch(come, t) ensures PointsTo(l', come, t) {
      if t in b.txs {
        assert t in come[0].txs;
      } else {
        assert PointsTo(l, branch, t);
        var i :| 0 <= i < |branch| && t in branch[i].txs && t in l && l[t] == branch[i].hash
          && forall j :: 0 <= j < i ==> t !in branch[j].txs;
        assert t in come[i + 1].txs && come[i + 1] == branch[i];
      }
    }
  }

  lemma DeleteOne(before: map<Tx, Hash>, l: map<Tx, Hash>, l': map<Tx, Hash>, gone: seq<Block>,
                  b: Block, come: seq<Block>)
    requires LookupsMoved(before, l, gone, come)
    requires forall t :: t in l' <==> t in l && !(t in b.txs && !InBranch(come, t))
    requires forall t :: t in l' ==> l'[t] == l[t]
    ensures LookupsMoved(before, l', gone + [b], come)
  {
    var gone' := gone + [b];
    forall t ensures InBranch(gone', t) <==> t in b.txs || InBranch(gone, t) {
      if t in b.txs {
        assert t in gone'[|gone|].txs;
      } else if InBranch(gone, t) {
        var i :| 0 <= i < |gone| && t in gone[i].txs;
        assert t in gone'[i].txs;
      }
    }
    forall t | InBranch(come, t) ensures PointsTo(l', come, t) {
      assert PointsTo(l, come, t);
    }
  }

  // ---------- the transactions a reorganisation discards ----------

  const MAX_REINJECT_DEPTH: nat := 64

  /** From a block to its child nothing is left behind. */
  lemma ChildFollows(store: Store, oldHead: Block, newHead: Block)
    requires Consistent(store) && IsStored(store, oldHead) && IsStored(store, newHead) && newHead.parent == oldHead.hash
    ensures newHead.number == oldHead.number + 1 && Related(store, oldHead, newHead)
    ensures Walk(store, oldHead, [], oldHead) && Walk(store, newHead, [newHead], oldHead)
    ensures forall e :: IsAncestor(store, e, oldHead) && IsAncestor(store, e, newHead) ==> e.number <= oldHead.number
    ensures forall t :: !InBranch([], t)
  {
    assert Walk(store, ParentOf(store, newHead).value, [newHead][1..], oldHead);
    OneSideApart([newHead]);
    MeetRelates(store, oldHead, newHead, [], [newHead], oldHead);
  }

  /** The transactions of a branch, block after block. */
  function TxsOf(branch: seq<Block>): seq<Tx> {
    if branch == [] then [] else TxsOf(branch[..|branch| - 1]) + branch[|branch| - 1].txs
  }

  lemma {:induction false} TxsOfBranch(branch: seq<Block>, t: Tx)
    ensures t in TxsOf(branch) <==> InBranch(branch, t)
    decreases |branch|
  {
    if branch != [] {
      var front, last := branch[..|branch| - 1], branch[|branch| - 1];
      TxsOfBranch(front, t);
      if InBranch(front, t) {
        var i :| 0 <= i < |front| && t in front[i].txs;
        assert t in branch[i].txs;
      }
      if InBranch(branch, t) && t !in last.txs {
        var i :| 0 <= i < |branch| && t in branch[i].txs;
        assert t in front[i].txs;
      }
    }
  }

  /** The entries of a that are not in b, in their order. */
  function Minus(a: seq<Tx>, b: seq<Tx>): (r: seq<Tx>)
    ensures forall t :: t in r <==> t in a && t !in b
  {
    if a == [] then [] else
      var front, last := a[..|a| - 1], a[|a| - 1];
      assert a == front + [last];
      Minus(front, b) + if last in b then [] else [last]
  }

  lemma NoTxs(b: Block)
    ensures Minus(TxsOf([]), TxsOf([b])) == []
  {
  }

  method TxDifference(a: seq<Tx>, b: seq<Tx>) returns (keep: seq<Tx>)
    ensures keep == Minus(a, b)
  {
    var remove: set<Tx> := {};
    for i := 0 to |b|
      invariant forall t :: t in remove <==> t in b[..i]
    {
      remove := remove + {b[i]};
    }
    keep := [];
    for i := 0 to |a|
      invariant keep == Minus(a[..i], b)
    {
      assert a[..i + 1][..i] == a[..i];
      if a[i] !in remove {
        keep := keep + [a[i]];
      }
    }
    assert a[..|a|] == a;
  }

  method Collect(branch: seq<Block>) returns (txs: seq<Tx>)
    ensures txs == TxsOf(branch)
  {
    txs := [];
    for i := 0 to |branch|
      invariant txs == TxsOf(branch[..i])
    {
      assert branch[..i + 1][..i] == branch[..i];
      txs := txs + branch[i].txs;
    }
    assert branch[..|branch|] == branch;
  }

  class BlockChain {
    const store: Store
    var canonical: map<nat, Hash>
    var lookup: map<Tx, Hash>
    var head: Block
    var lastBlock: Block

    constructor (store: Store, genesis: Block)
      ensures this.store == store && canonical == map[genesis.number := genesis.hash] && lookup == map[] && head == genesis
    {
      this.store, canonical, lookup := store, map[genesis.number := genesis.hash], map[];
      head, lastBlock := genesis, genesis;
    }

    /** Makes a block the canonical head. */
    method Insert(b: Block)
      modifies `canonical, `head, `lastBlock
      ensures canonical == old(canonical)[b.number := b.hash] && head == b
      ensures lastBlock == if b.number >= old(lastBlock).number then b else old(lastBlock)
    {
      canonical, head := canonical[b.number := b.hash], b;
      if b.number >= lastBlock.number {
        lastBlock := b;
      }
    }

    /** Walks from a block up to a number, collecting what it passes; None if a parent is missing. */
    method Reduce(b: Block, number: nat) returns (r: Option<Block>, passed: seq<Block>)
      requires Consistent(store) && IsStored(store, b) && number <= b.number
      ensures r.Some? ==> Walk(store, b, passed, r.value) && r.value.number == number && IsStored(store, r.value)
      ensures r.None? ==> Up(store, b, b.number - number).None?
    {
      passed := [];
      var cur := b;
      while cur.number != number
        invariant Walk(store, b, passed, cur) && IsStored(store, cur) && number <= cur.number
        decreases cur.number
      {
        WalkFacts(store, b, passed, cur);
        ParentIsStored(store, cur);
        var p := ParentOf(store, cur);
        if p.None? {
          MissingParent(store, b, passed, cur, b.number - number);
          return None, passed;
        }
        WalkOn(store, b, passed, cur);
        passed, cur := passed + [cur], p.value;
      }
      r := Some(cur);
    }

    /** Walks up from two blocks of one number until they meet. */
    method Meet(a0: Block, b0: Block, s0: seq<Block>, t0: seq<Block>, ghost a: Block, ghost b: Block)
      returns (r: ReorgResult, common: Block, s: seq<Block>, t: seq<Block>)
      requires Consistent(store) && IsStored(store, a) && IsStored(store, b)
      requires a0.number == b0.number && IsStored(store, a0) && IsStored(store, b0)
      requires Walk(store, a, s0, a0) && Walk(store, b, t0, b0) && Apart(s0, t0)
      ensures r.Reorganised? ==> Walk(store, a, s, common) && Walk(store, b, t, common) && Apart(s, t)
      ensures !r.Reorganised? ==> !Related(store, a, b)
    {
      s, t := s0, t0;
      var x, y := a0, b0;
      while x.hash != y.hash
        invariant x.number == y.number && IsStored(store, x) && IsStored(store, y)
        invariant Walk(store, a, s, x) && Walk(store, b, t, y) && Apart(s, t)
        decreases x.number
      {
        ParentIsStored(store, x);
        ParentIsStored(store, y);
        var p, q := ParentOf(store, x), ParentOf(store, y);
        if p.None? {
          StoppedWalks(store, a, b, s, t, x, y);
          return InvalidOldChain, x, s, t;
        }
        if q.None? {
          StoppedWalks(store, b, a, t, s, y, x);
          return InvalidNewChain, x, s, t;
        }
        WalkOn(store, a, s, x);
        WalkOn(store, b, t, y);
        ApartOn(store, a, b, s, t, x, y);
        s, t := s + [x], t + [y];
        x, y := p.value, q.value;
      }
      r, common := Reorganised, x;
    }

    /**
     The transactions of the old branch that are not on the new one, when the head
     has moved across branches; None if the branches have no common ancestor.
     */
    method Discarded(oldHead: Block, newHead: Block)
      returns (r: Option<seq<Tx>>, ghost common: Block, ghost gone: seq<Block>, ghost come: seq<Block>)
      requires Consistent(store) && IsStored(store, oldHead) && IsStored(store, newHead)
      ensures newHead.number < oldHead.number || newHead.number > oldHead.number + 64 ==> r == Some([])
      ensures oldHead.number <= newHead.number <= oldHead.number + 64 ==> (r.Some? <==> Related(store, oldHead, newHead))
      ensures oldHead.number <= newHead.number <= oldHead.number + 64 && r.Some? ==>
        && Walk(store, oldHead, gone, common) && Walk(store, newHead, come, common)
        && (forall e :: IsAncestor(store, e, oldHead) && IsAncestor(store, e, newHead) ==> e.number <= common.number)
        && r.value == Minus(TxsOf(gone), TxsOf(come))
        && (forall t :: t in r.value <==> InBranch(gone, t) && !InBranch(come, t))
    {
      hide Apart, Walk, Up, InBranch, TxsOf;
      common, gone, come := oldHead, [], [];
      if oldHead.hash == newHead.parent {
        ChildFollows(store, oldHead, newHead);
        NoTxs(newHead);
        return Some([]), common, gone, [newHead];
      }
      if newHead.number < oldHead.number || newHead.number - oldHead.number > MAX_REINJECT_DEPTH {
        return Some([]), common, gone, come;
      }
      var y, t := Reduce(newHead, oldHead.number);
      if y.None? {
        TooShort(store, newHead, oldHead);
        return None, common, gone, come;
      }
      OneSideApart(t);
      assert Walk(store, oldHead, [], oldHead) by {
        NoWalk(store, oldHead);
      }
      var met, c, g, n := Meet(oldHead, y.value, [], t, oldHead, newHead);
      if !met.Reorganised? {
        return None, common, gone, come;
      }
      MeetRelates(store, oldHead, newHead, g, n, c);
      var discarded := Collect(g);
      var included := Collect(n);
      var keep := TxDifference(discarded, included);
      forall t ensures t in keep <==> InBranch(g, t) && !InBranch(n, t) {
        TxsOfBranch(g, t);
        TxsOfBranch(n, t);
      }
      return Some(keep), c, g, n;
    }

    /** Points the lookups of a block's transactions at it. */
    method WriteLookups(b: Block)
      modifies `lookup
      ensures forall t :: t in b.txs ==> t in lookup && lookup[t] == b.hash
      ensures forall t :: t !in b.txs ==> (t in lookup <==> t in old(lookup)) && (t in lookup ==> lookup[t] == old(lookup)[t])
    {
      for i := 0 to |b.txs|
        invariant forall t :: t in b.txs[..i] ==> t in lookup && lookup[t] == b.hash
        invariant forall t :: t !in b.txs[..i] ==> (t in lookup <==> t in old(lookup)) && (t in lookup ==> lookup[t] == old(lookup)[t])
      {
        assert b.txs[..i + 1] == b.txs[..i] + [b.txs[i]];
        lookup := lookup[b.txs[i] := b.hash];
      }
      assert b.txs[..|b.txs|] == b.txs;
    }

    /** Makes the blocks of a branch, listed from the top, canonical from the bottom up. */
    method InsertAll(branch: seq<Block>, ghost low: nat)
      requires forall i :: 0 <= i < |branch| ==> branch[i].number == low + |branch| - i
      modifies `canonical, `lookup, `head, `lastBlock
      ensures Overwritten(old(canonical), canonical, branch, low)
      ensures LookupsMoved(old(lookup), lookup, [], branch)
      ensures head == if branch == [] then old(head) else branch[0]
      ensures lastBlock == if branch != [] && branch[0].number >= old(lastBlock).number then branch[0] else old(lastBlock)
    {
      var i := |branch|;
      while i > 0
        invariant 0 <= i <= |branch|
        invariant Overwritten(old(canonical), canonical, branch[i..], low)
        invariant LookupsMoved(old(lookup), lookup, [], branch[i..])
        invariant head == if i == |branch| then old(head) else branch[i]
        invariant lastBlock == if i < |branch| && branch[i].number >= old(lastBlock).number then branch[i] else old(lastBlock)
      {
        i := i - 1;
        ghost var l, k := lookup, canonical;
        assert branch[i..] == [branch[i]] + branch[i + 1..];
        Insert(branch[i]);
        OverwriteOne(old(canonical), k, branch[i], branch[i + 1..], low);
        WriteLookups(branch[i]);
        LookupOne(old(lookup), l, lookup, branch[i], branch[i + 1..]);
      }
      assert branch[0..] == branch;
    }

    /** Deletes the lookups of transactions that only the abandoned branch has. */
    method DeleteLost(gone: seq<Block>, come: seq<Block>, ghost before: map<Tx, Hash>)
      requires LookupsMoved(before, lookup, [], come)
      modifies `lookup
      ensures LookupsMoved(before, lookup, gone, come)
    {
      var added := set i, t | 0 <= i < |come| && t in come[i].txs :: t;
      assert forall t :: t in added <==> InBranch(come, t);
      for i := 0 to |gone|
        invariant LookupsMoved(before, lookup, gone[..i], come)
      {
        ghost var l := lookup;
        lookup := lookup - (set t | t in gone[i].txs && t !in added);
        DeleteOne(before, l, lookup, gone[..i], gone[i], come);
        assert gone[..i + 1] == gone[..i] + [gone[i]];
      }
      assert gone[..|gone|] == gone;
    }

    /**
     Moves the canonical chain from one head to another.  It succeeds exactly if
     the two have a known common ancestor, and then finds the highest, leaves the
     canonical index following the new head, and moves the transaction lookups.
     */
    method Reorg(oldBlock: Block, newBlock: Block)
      returns (r: ReorgResult, ghost common: Block, ghost gone: seq<Block>, ghost come: seq<Block>)
      requires Consistent(store) && IsStored(store, oldBlock) && IsStored(store, newBlock)
      modifies `canonical, `lookup, `head, `lastBlock
      ensures r.Reorganised? <==> Related(store, oldBlock, newBlock)
      ensures !r.Reorganised? ==> canonical == old(canonical) && lookup == old(lookup) && head == old(head) && lastBlock == old(lastBlock)
      ensures r.Reorganised? ==>
        && Walk(store, oldBlock, gone, common) && Walk(store, newBlock, come, common)
        && (forall e :: IsAncestor(store, e, oldBlock) && IsAncestor(store, e, newBlock) ==> e.number <= common.number)
        && (Follows(store, old(canonical), oldBlock) ==> Follows(store, canonical, newBlock))
        && Overwritten(old(canonical), canonical, come, common.number)
        && LookupsMoved(old(lookup), lookup, gone, come)
        && head == (if come == [] then old(head) else newBlock)
        && lastBlock == (if come != [] && newBlock.number >= old(lastBlock).number then newBlock else old(lastBlock))
    {
      hide Follows, LookupsMoved, Overwritten, Apart;
      var x, y := Some(oldBlock), Some(newBlock);
      var s: seq<Block>, t: seq<Block> := [], [];
      EmptyIsApart();
      common, gone, come := oldBlock, [], [];
      if oldBlock.number > newBlock.number {
        x, s := Reduce(oldBlock, newBlock.number);
        if x.None? {
          TooShort(store, oldBlock, newBlock);
          return InvalidOldChain, common, gone, come;
        }
        OneSideApart(s);
      } else {
        y, t := Reduce(newBlock, oldBlock.number);
        if y.None? {
          TooShort(store, newBlock, oldBlock);
          return InvalidNewChain, common, gone, come;
        }
        OneSideApart(t);
      }
      var c, g, n;
      r, c, g, n := Meet(x.value, y.value, s, t, oldBlock, newBlock);
      if !r.Reorganised? {
        return;
      }
      common, gone, come := c, g, n;
      MeetRelates(store, oldBlock, newBlock, g, n, c);
      WalkFacts(store, newBlock, n, c);
      ghost var before, lookups := canonical, lookup;
      InsertAll(n, c.number);
      if Follows(store, before, oldBlock) {
        BranchMakesFollow(store, before, canonical, oldBlock, newBlock, g, n, c);
      }
      DeleteLost(g, n, lookups);
    }
  }
}

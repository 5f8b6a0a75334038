/**
 Two fast ways of finding an ancestor's hash, against following parent links one at
 a time: the header chain's shortcut through the canonical index, and the memo of
 the function that serves hashes by number to a running contract.
 */
module Ancestors {
  import opened Txs

  type Hash = nat

  /** The zero hash, which stands for no hash. */
  const NO_HASH: Hash := 0

  datatype Header = Header(hash: Hash, number: nat, parent: Hash)

  type Store = map<Hash, Header>

  predicate Linked(store: Store, h: Header) {
    && h.number <= MAX_UINT64
    && (h.parent in store ==> store[h.parent].number + 1 == h.number)
    && (h.number > 0 ==> h.parent != NO_HASH)
  }

  ghost predicate Consistent(store: Store) {
    forall h :: h in store ==> h != NO_HASH && store[h].hash == h && Linked(store, store[h])
  }

  function ReadHeader(store: Store, hash: Hash, number: nat): Option<Header> {
    if hash in store && store[hash].number == number then Some(store[hash]) else None
  }

  /** The hash reached by following d parent links; the last one need not be a known header. */
  function Steps(store: Store, hash: Hash, d: nat): Option<Hash>
    decreases d
  {
    if d == 0 then Some(hash)
    else if hash !in store then None
    else Steps(store, store[hash].parent, d - 1)
  }

  function ReadCanonical(canonical: map<nat, Hash>, number: nat): Hash {
    if number in canonical then canonical[number] else NO_HASH
  }

  /** The canonical index names one chain of headers, from some number down to zero. */
  ghost predicate LinkedCanonical(store: Store, canonical: map<nat, Hash>) {
    forall n :: n in canonical ==>
      && canonical[n] in store
      && store[canonical[n]].number == n
      && (n > 0 ==> n - 1 in canonical && store[canonical[n]].parent == canonical[n - 1])
  }

  lemma CanonicalIsReal(store: Store, canonical: map<nat, Hash>)
    requires Consistent(store) && LinkedCanonical(store, canonical)
    ensures forall n :: n in canonical ==> canonical[n] != NO_HASH && canonical[n] in store && store[canonical[n]].number == n
  {
  }

  /** From a canonical header, parent links and the canonical index agree all the way down. */
  lemma {:induction false} ShortcutFollowsLinks(store: Store, canonical: map<nat, Hash>, n: nat, d: nat)
    requires Consistent(store) && LinkedCanonical(store, canonical)
    requires n in canonical && d <= n
    ensures n - d in canonical && Steps(store, canonical[n], d) == Some(canonical[n - d])
    decreases d
  {
    if d > 0 {
      ShortcutFollowsLinks(store, canonical, n - 1, d - 1);
    }
  }

  /** How many headers are read one by one before the canonical chain, or a missing header, is met. */
  function Off(store: Store, canonical: map<nat, Hash>, hash: Hash, number: nat, ancestor: nat): nat
    requires ancestor <= number
    decreases ancestor
  {
    if ancestor == 0 || ReadCanonical(canonical, number) == hash then 0
    else if hash !in store then 1
    else 1 + Off(store, canonical, store[hash].parent, number - 1, ancestor - 1)
  }

  /** What GetAncestor should say of a given block: the hash reached by parent links, if it may look that far. */
  function Reached(store: Store, canonical: map<nat, Hash>, hash: Hash, number: nat, ancestor: nat,
                   limit: nat): (Hash, nat) {
    if ancestor > number || Steps(store, hash, ancestor).None? then (NO_HASH, 0)
    else if ancestor != 1 && Off(store, canonical, hash, number, ancestor) > limit then (NO_HASH, 0)
    else (Steps(store, hash, ancestor).value, number - ancestor)
  }

  /** A hash that is known has the given number. */
  predicate OwnNumber(store: Store, hash: Hash, number: nat) {
    hash in store ==> store[hash].number == number
  }

  /** The first d headers met by parent links are all in the cache. */
  ghost predicate Cached(store: Store, cache: map<Hash, Header>, hash: Hash, d: nat) {
    forall j: nat :: j < d ==> Steps(store, hash, j).Some? && Steps(store, hash, j).value in cache
  }

  /** The zero hash is met by j parent links. */
  predicate MeetsZero(store: Store, hash: Hash, j: nat) {
    Steps(store, hash, j) == Some(NO_HASH)
  }

  /**
   The walk meets the zero hash after j links, at a number past the canonical chain,
   where the shortcut takes the missing entry for a match, and answers.
   */
  ghost predicate FalseAt(store: Store, canonical: map<nat, Hash>, cache: map<Hash, Header>, hash: Hash,
                          number: nat, ancestor: nat, limit: nat, j: nat)
  {
    && 2 <= ancestor <= number && j < ancestor && j <= limit
    && MeetsZero(store, hash, j) && Cached(store, cache, hash, j)
    && number - j !in canonical && number - ancestor in canonical
  }

  ghost predicate FalseShortcut(store: Store, canonical: map<nat, Hash>, cache: map<Hash, Header>, hash: Hash,
                                number: nat, ancestor: nat, limit: nat)
  {
    exists j: nat :: FalseAt(store, canonical, cache, hash, number, ancestor, limit, j)
  }

  /** With a chain of only a genesis block, the second ancestor of the zero hash at number 2 is answered. */
  lemma ZeroHashIsAnswered()
    ensures var store := map[7 := Header(7, 0, NO_HASH)];
      FalseShortcut(store, map[0 := 7], map[], NO_HASH, 2, 2, 0) && Steps(store, NO_HASH, 2).None?
  {
    var store := map[7 := Header(7, 0, NO_HASH)];
    assert FalseAt(store, map[0 := 7], map[], NO_HASH, 2, 2, 0, 0);
  }

  /** So is the third ancestor of the genesis block itself, given with number 3, once it is cached. */
  lemma GenesisIsItsOwnAncestor()
    ensures var store := map[7 := Header(7, 0, NO_HASH)];
      FalseShortcut(store, map[0 := 7], store, 7, 3, 3, 10) && Steps(store, 7, 3).None?
  {
    var store := map[7 := Header(7, 0, NO_HASH)];
    assert Steps(store, 7, 0) == Some(7) && Steps(store, 7, 1) == Some(NO_HASH);
    assert Steps(store, NO_HASH, 2).None? && Steps(store, 7, 3) == Steps(store, NO_HASH, 2);
    assert FalseAt(store, map[0 := 7], store, 7, 3, 3, 10, 1);
  }

  lemma {:induction false} StepsOn(store: Store, hash: Hash, d: nat, e: nat)
    requires Steps(store, hash, d).Some?
    ensures Steps(store, hash, d + e) == Steps(store, Steps(store, hash, d).value, e)
    decreases d
  {
    if d > 0 {
      StepsOn(store, store[hash].parent, d - 1, e);
    }
  }

  /** Nothing lies beyond the zero hash. */
  lemma ZeroEnds(store: Store, hash: Hash, j: nat, d: nat)
    requires Consistent(store) && MeetsZero(store, hash, j) && j < d
    ensures Steps(store, hash, d).None?
  {
    StepsOn(store, hash, j, d - j);
  }

  /** A real block's known ancestor always has a real hash, so an empty answer means there was none to give. */
  lemma {:induction false} ReachedIsReal(store: Store, hash: Hash, number: nat, d: nat)
    requires Consistent(store) && hash != NO_HASH && (hash in store ==> store[hash].number == number)
    requires d <= number && Steps(store, hash, d).Some?
    ensures Steps(store, hash, d).value != NO_HASH
    decreases d
  {
    if d > 0 {
      ReachedIsReal(store, store[hash].parent, number - 1, d - 1);
    }
  }

  lemma NeverFalse(store: Store, canonical: map<nat, Hash>, cache: map<Hash, Header>, hash: Hash,
                   number: nat, ancestor: nat, limit: nat)
    requires ancestor < 2 || ancestor > number
    ensures !FalseShortcut(store, canonical, cache, hash, number, ancestor, limit)
  {
  }

  /** The shortcut at the zero hash answers, wrongly, if the canonical chain has the ancestor's number. */
  lemma ShortcutAtZero(store: Store, canonical: map<nat, Hash>, cache: map<Hash, Header>, hash: Hash,
                       number: nat, ancestor: nat, limit: nat, k: nat)
    requires Consistent(store) && 2 <= ancestor <= number && k < ancestor && k <= limit
    requires MeetsZero(store, hash, k) && Cached(store, cache, hash, k) && number - k !in canonical
    ensures Steps(store, hash, ancestor).None?
    ensures FalseShortcut(store, canonical, cache, hash, number, ancestor, limit) <==> number - ancestor in canonical
  {
    ZeroEnds(store, hash, k, ancestor);
    if number - ancestor in canonical {
      assert FalseAt(store, canonical, cache, hash, number, ancestor, limit, k);
    }
  }

  /** The zero hash is answered falsely at once or not at all. */
  lemma ZeroIsNotCached(store: Store, canonical: map<nat, Hash>, cache: map<Hash, Header>, number: nat, ancestor: nat, limit: nat)
    requires Consistent(store) && (ancestor > number || number in canonical)
    ensures !FalseShortcut(store, canonical, cache, NO_HASH, number, ancestor, limit)
  {
    forall j: nat ensures !FalseAt(store, canonical, cache, NO_HASH, number, ancestor, limit, j) {
      assert Steps(store, NO_HASH, 0) == Some(NO_HASH);
      if j > 0 {
        ZeroEnds(store, NO_HASH, 0, j);
      }
    }
  }

  lemma OwnIsNotFalse(store: Store, canonical: map<nat, Hash>, cache: map<Hash, Header>, hash: Hash,
                      number: nat, ancestor: nat, limit: nat)
    requires Consistent(store) && hash != NO_HASH && OwnNumber(store, hash, number)
    ensures !FalseShortcut(store, canonical, cache, hash, number, ancestor, limit)
  {
    forall j: nat ensures !FalseAt(store, canonical, cache, hash, number, ancestor, limit, j) {
      if FalseAt(store, canonical, cache, hash, number, ancestor, limit, j) {
        ReachedIsReal(store, hash, number, j);
      }
    }
  }

  /** A walk that stops elsewhere is not answered falsely: at its end, out of budget, or at a header not cached. */
  lemma StoppedIsNotFalse(store: Store, canonical: map<nat, Hash>, cache: map<Hash, Header>, hash: Hash,
                          number: nat, ancestor: nat, limit: nat, k: nat, h: Hash)
    requires Consistent(store) && k <= ancestor <= number && Steps(store, hash, k) == Some(h)
    requires k < ancestor && h == NO_HASH ==> number - k in canonical
    requires k == ancestor || k == limit || h !in cache
    ensures !FalseShortcut(store, canonical, cache, hash, number, ancestor, limit)
  {
    forall j: nat ensures !FalseAt(store, canonical, cache, hash, number, ancestor, limit, j) {
      if FalseAt(store, canonical, cache, hash, number, ancestor, limit, j) && j < k {
        ZeroEnds(store, hash, j, k);
      }
    }
  }

  /** The cache leads all the way, and the budget lasts. */
  ghost predicate WithinCache(store: Store, cache: map<Hash, Header>, hash: Hash, number: nat, ancestor: nat, limit: nat) {
    ancestor <= number && Cached(store, cache, hash, ancestor) && (ancestor == 1 || ancestor <= limit)
  }

  /** A walk with d generations to go has come to h and n; `known` is the cache it began with. */
  ghost predicate Walked(store: Store, canonical: map<nat, Hash>, known: map<Hash, Header>, cache: map<Hash, Header>,
                         hash: Hash, number: nat, ancestor: nat, h: Hash, n: nat, d: nat)
    requires d <= ancestor <= number && d <= n
  {
    && Steps(store, hash, ancestor - d) == Some(h) && Steps(store, h, d) == Steps(store, hash, ancestor)
    && Off(store, canonical, h, n, d) + (ancestor - d) == Off(store, canonical, hash, number, ancestor)
    && (OwnNumber(store, hash, number) ==> OwnNumber(store, h, n) && (hash != NO_HASH ==> h != NO_HASH))
    && (hash == NO_HASH ==> d == ancestor)
    && (!OwnNumber(store, hash, number) ==>
          cache == known && Cached(store, known, hash, ancestor - d) && (h in store ==> store[h].number != n))
  }

  lemma WalkStarts(store: Store, canonical: map<nat, Hash>, cache: map<Hash, Header>, hash: Hash, number: nat, ancestor: nat)
    requires ancestor <= number
    ensures Walked(store, canonical, cache, cache, hash, number, ancestor, hash, number, ancestor)
  {
  }

  lemma WalkGoesOn(store: Store, canonical: map<nat, Hash>, known: map<Hash, Header>, cache: map<Hash, Header>,
                   cache': map<Hash, Header>, hash: Hash, number: nat, ancestor: nat, h: Hash, n: nat, d: nat)
    requires Consistent(store) && 0 < d <= ancestor <= number && d <= n && number - n == ancestor - d
    requires Walked(store, canonical, known, cache, hash, number, ancestor, h, n, d)
    requires h in store && ReadCanonical(canonical, n) != h
    requires h in cache || store[h].number == n
    requires h in cache ==> cache' == cache
    ensures Walked(store, canonical, known, cache', hash, number, ancestor, store[h].parent, n - 1, d - 1)
  {
    StepsOn(store, hash, ancestor - d, 1);
    assert Steps(store, h, 1) == Some(store[h].parent);
  }

  /** The walk took the shortcut. */
  lemma WalkCuts(store: Store, canonical: map<nat, Hash>, known: map<Hash, Header>, cache: map<Hash, Header>,
                 hash: Hash, number: nat, ancestor: nat, limit: nat, h: Hash, n: nat, d: nat)
    requires Consistent(store) && LinkedCanonical(store, canonical) && forall x :: x in known ==> x in store
    requires 0 < d <= ancestor <= number && d <= n && number - n == ancestor - d && ancestor != 1 && ancestor - d <= limit
    requires Walked(store, canonical, known, cache, hash, number, ancestor, h, n, d) && ReadCanonical(canonical, n) == h
    ensures var a := ReadCanonical(canonical, n - d);
      && (FalseShortcut(store, canonical, known, hash, number, ancestor, limit) <==>
            a != NO_HASH && Steps(store, hash, ancestor) != Some(a))
      && (hash != NO_HASH && OwnNumber(store, hash, number) ==>
            (a, n - d) == Reached(store, canonical, hash, number, ancestor, limit))
      && (!OwnNumber(store, hash, number) && a != NO_HASH ==> Steps(store, hash, ancestor) != Some(a))
      && (!OwnNumber(store, hash, number) ==> !WithinCache(store, known, hash, number, ancestor, limit))
      && Off(store, canonical, hash, number, ancestor) == ancestor - d
  {
    CanonicalIsReal(store, canonical);
    if n in canonical {
      ShortcutFollowsLinks(store, canonical, n, d);
      if hash == NO_HASH {
        assert false;
      }
      OwnIsNotFalse(store, canonical, known, hash, number, ancestor, limit);
    } else {
      ShortcutAtZero(store, canonical, known, hash, number, ancestor, limit, ancestor - d);
      assert Steps(store, hash, ancestor - d).value !in known;
    }
  }

  /** The walk ran out of budget or of headers. */
  lemma WalkStops(store: Store, canonical: map<nat, Hash>, known: map<Hash, Header>, cache: map<Hash, Header>,
                  hash: Hash, number: nat, ancestor: nat, limit: nat, h: Hash, n: nat, d: nat)
    requires Consistent(store) && LinkedCanonical(store, canonical)
    requires 0 < d <= ancestor <= number && d <= n && number - n == ancestor - d && ancestor != 1 && ancestor - d <= limit
    requires Walked(store, canonical, known, cache, hash, number, ancestor, h, n, d) && ReadCanonical(canonical, n) != h
    requires ancestor - d == limit || (h !in cache && ReadHeader(store, h, n).None?)
    ensures !FalseShortcut(store, canonical, known, hash, number, ancestor, limit)
    ensures hash != NO_HASH && OwnNumber(store, hash, number) ==>
      (NO_HASH, 0) == Reached(store, canonical, hash, number, ancestor, limit)
    ensures !OwnNumber(store, hash, number) ==> !WithinCache(store, known, hash, number, ancestor, limit)
    ensures Off(store, canonical, hash, number, ancestor) > ancestor - d
    ensures OwnNumber(store, hash, number) && ancestor - d < limit ==>
      Off(store, canonical, hash, number, ancestor) == ancestor - d + 1
  {
    if hash != NO_HASH && OwnNumber(store, hash, number) {
      OwnIsNotFalse(store, canonical, known, hash, number, ancestor, limit);
    } else {
      if ancestor - d != limit && hash == NO_HASH {
        ZeroIsNotCached(store, canonical, known, number, ancestor, limit);
      } else {
        StoppedIsNotFalse(store, canonical, known, hash, number, ancestor, limit, ancestor - d, h);
      }
    }
  }

  /** The walk came to the end. */
  lemma WalkEnds(store: Store, canonical: map<nat, Hash>, known: map<Hash, Header>, cache: map<Hash, Header>,
                 hash: Hash, number: nat, ancestor: nat, limit: nat, h: Hash, n: nat)
    requires Consistent(store) && ancestor <= number && number - n == ancestor && ancestor != 1 && ancestor <= limit
    requires Walked(store, canonical, known, cache, hash, number, ancestor, h, n, 0)
    ensures Steps(store, hash, ancestor) == Some(h) && Off(store, canonical, hash, number, ancestor) == ancestor
    ensures !FalseShortcut(store, canonical, known, hash, number, ancestor, limit)
    ensures hash != NO_HASH && OwnNumber(store, hash, number) ==>
      (h, n) == Reached(store, canonical, hash, number, ancestor, limit)
    ensures !OwnNumber(store, hash, number) ==> WithinCache(store, known, hash, number, ancestor, limit)
  {
    StoppedIsNotFalse(store, canonical, known, hash, number, ancestor, limit, ancestor, h);
  }

  class HeaderChain {
    const store: Store
    const canonical: map<nat, Hash>
    var cache: map<Hash, Header>

    ghost predicate CacheSound()
      reads this
    {
      forall h :: h in cache ==> h in store && cache[h] == store[h]
    }

    constructor (store: Store, canonical: map<nat, Hash>)
      ensures this.store == store && this.canonical == canonical && CacheSound()
    {
      this.store, this.canonical, cache := store, canonical, map[];
    }

    ghost predicate Valid()
      reads this
    {
      Consistent(store) && LinkedCanonical(store, canonical) && CacheSound()
    }

    /** Looks a header up, in the cache first (which goes by hash alone), and caches what it read. */
    method GetHeader(hash: Hash, number: nat) returns (r: Option<Header>)
      requires CacheSound()
      modifies `cache
      ensures CacheSound()
      ensures r == if hash in old(cache) then Some(store[hash]) else ReadHeader(store, hash, number)
      ensures hash in old(cache) || r.None? ==> cache == old(cache)
      ensures r.Some? ==> hash in cache && cache.Keys <= old(cache).Keys + {hash}
    {
      if hash in cache {
        return Some(cache[hash]);
      }
      r := ReadHeader(store, hash, number);
      if r.Some? {
        var kept: set<Hash> := *;  // the cache is bounded and may drop anything
        cache := (map h | h in cache && h in kept :: cache[h])[hash := r.value];
      }
    }

    /** Walks up by the canonical index or by parent links, for at least two generations or none. */
    method WalkUp(hash: Hash, number: nat, ancestor: nat, limit: nat) returns (h: Hash, n: nat, left: nat)
      requires Valid() && ancestor <= number && ancestor != 1
      modifies `cache
      ensures Valid() && left <= limit && (h != NO_HASH ==> n + ancestor == number)
      ensures FalseShortcut(store, canonical, old(cache), hash, number, ancestor, limit) <==>
        h != NO_HASH && Steps(store, hash, ancestor) != Some(h)
      ensures hash != NO_HASH && OwnNumber(store, hash, number) ==>
        (h, n) == Reached(store, canonical, hash, number, ancestor, limit)
      ensures !OwnNumber(store, hash, number) && WithinCache(store, old(cache), hash, number, ancestor, limit) ==>
        Steps(store, hash, ancestor) == Some(h)
      ensures !OwnNumber(store, hash, number) && h != NO_HASH && Steps(store, hash, ancestor) == Some(h) ==>
        WithinCache(store, old(cache), hash, number, ancestor, limit)
      ensures OwnNumber(store, hash, number) ==> left == limit - Min(limit, Off(store, canonical, hash, number, ancestor))
    {
      hide LinkedCanonical, FalseShortcut, Walked, WithinCache, Reached, Consistent;
      ghost var known := cache;
      h, n, left := hash, number, limit;
      var d: nat := ancestor;
      WalkStarts(store, canonical, known, hash, number, ancestor);
      while d != 0
        invariant d <= ancestor && d <= n && number - n == ancestor - d && Valid() && left + (ancestor - d) == limit
        invariant Walked(store, canonical, known, cache, hash, number, ancestor, h, n, d)
      {
        if ReadCanonical(canonical, n) == h {
          WalkCuts(store, canonical, known, cache, hash, number, ancestor, limit, h, n, d);
          return ReadCanonical(canonical, n - d), n - d, left;
        }
        if left == 0 {
          WalkStops(store, canonical, known, cache, hash, number, ancestor, limit, h, n, d);
          return NO_HASH, 0, left;
        }
        ghost var before := cache;
        var header := GetHeader(h, n);
        if header.None? {
          WalkStops(store, canonical, known, before, hash, number, ancestor, limit, h, n, d);
          return NO_HASH, 0, left - 1;
        }
        WalkGoesOn(store, canonical, known, before, cache, hash, number, ancestor, h, n, d);
        left, d := left - 1, d - 1;
        h, n := header.value.parent, n - 1;
      }
      WalkEnds(store, canonical, known, cache, hash, number, ancestor, limit, h, n);
    }

    /**
     The hash and number of a given block's ancestor.  Whatever it is asked, an answer
     that is not what parent links lead to is given exactly under FalseShortcut.
     Asked about a hash with its own number it answers as following parent links
     would; with another number, only what the cache leads to.
     */
    method GetAncestor(hash: Hash, number: nat, ancestor: nat, limit: nat) returns (h: Hash, n: nat, left: nat)
      requires Valid()
      modifies `cache
      ensures Valid() && left <= limit && (h != NO_HASH ==> n + ancestor == number)
      ensures FalseShortcut(store, canonical, old(cache), hash, number, ancestor, limit) <==>
        h != NO_HASH && Steps(store, hash, ancestor) != Some(h)
      ensures hash != NO_HASH && OwnNumber(store, hash, number) ==>
        (h, n) == Reached(store, canonical, hash, number, ancestor, limit)
      ensures !OwnNumber(store, hash, number) && WithinCache(store, old(cache), hash, number, ancestor, limit) ==>
        Steps(store, hash, ancestor) == Some(h)
      ensures !OwnNumber(store, hash, number) && h != NO_HASH && Steps(store, hash, ancestor) == Some(h) ==>
        WithinCache(store, old(cache), hash, number, ancestor, limit)
      ensures OwnNumber(store, hash, number) ==>
        left == limit - if ancestor == 1 || ancestor > number then 0 else Min(limit, Off(store, canonical, hash, number, ancestor))
    {
      hide FalseShortcut;
      if ancestor < 2 || ancestor > number {
        NeverFalse(store, canonical, cache, hash, number, ancestor, limit);
      }
      if ancestor > number {
        return NO_HASH, 0, limit;
      }
      if ancestor == 1 {
        var header := GetHeader(hash, number);
        assert Steps(store, hash, 0) == Some(hash);
        if header.Some? {
          assert Steps(store, hash, 1) == Some(header.value.parent);
          return header.value.parent, number - 1, limit;
        }
        return NO_HASH, 0, limit;
      }
      h, n, left := WalkUp(hash, number, ancestor, limit);
    }
  }

  // ---------- hashes by number ----------

  /** The parent hash of the first header, walking up from the given one, whose parent has the number asked for. */
  function WalkFrom(store: Store, h: Option<Header>, n: nat): Hash
    requires Consistent(store) && (h.Some? ==> h.value.hash in store && store[h.value.hash] == h.value)
    decreases if h.Some? then h.value.number + 1 else 0
  {
    if h.None? then NO_HASH
    else if n == Prev(h.value.number) then h.value.parent
    else WalkFrom(store, ReadHeader(store, h.value.parent, Prev(h.value.number)), n)
  }

  /** The answer without a memo. */
  function Uncached(store: Store, ref: Header, n: nat): Hash
    requires Consistent(store)
  {
    if n == Prev(ref.number) then ref.parent
    else WalkFrom(store, ReadHeader(store, ref.parent, Prev(ref.number)), n)
  }

  /** The walk finds the ancestor of the number asked for. */
  lemma {:induction false} WalkFollowsLinks(store: Store, h: Header, n: nat)
    requires Consistent(store) && h.hash in store && store[h.hash] == h && n < h.number
    ensures WalkFrom(store, Some(h), n) == match Steps(store, h.hash, h.number - n) case Some(a) => a case None => NO_HASH
    decreases h.number
  {
    var d: nat := h.number - n;
    assert Steps(store, h.hash, d) == Steps(store, h.parent, d - 1);
    if n != Prev(h.number) {
      var p := ReadHeader(store, h.parent, Prev(h.number));
      if p.Some? {
        WalkFollowsLinks(store, p.value, n);
      }
    }
  }

  /** Below the reference header the function serves its ancestors' hashes. */
  lemma UncachedFollowsLinks(store: Store, ref: Header, n: nat)
    requires Consistent(store) && Linked(store, ref) && n < ref.number
    ensures Uncached(store, ref, n) == match Steps(store, ref.parent, ref.number - 1 - n) case Some(a) => a case None => NO_HASH
  {
    var p := ReadHeader(store, ref.parent, Prev(ref.number));
    if n != Prev(ref.number) && p.Some? {
      WalkFollowsLinks(store, p.value, n);
    }
  }

  /** At and above it the function serves nothing. */
  lemma {:induction false} NothingAbove(store: Store, h: Option<Header>, n: nat)
    requires Consistent(store) && (h.Some? ==> h.value.hash in store && store[h.value.hash] == h.value && h.value.number <= n)
    requires n < MAX_UINT64
    ensures WalkFrom(store, h, n) == NO_HASH
    decreases if h.Some? then h.value.number + 1 else 0
  {
    if h.Some? {
      NothingAbove(store, ReadHeader(store, h.value.parent, Prev(h.value.number)), n);
    }
  }

  lemma UncachedAbove(store: Store, ref: Header, n: nat)
    requires Consistent(store) && Linked(store, ref) && ref.number <= n < MAX_UINT64
    ensures Uncached(store, ref, n) == NO_HASH
  {
    NothingAbove(store, ReadHeader(store, ref.parent, Prev(ref.number)), n);
  }

  /** From a header met on the walk on, the walk from it gives the answers that are still to come. */
  ghost predicate Ahead(store: Store, ref: Header, h: Option<Header>)
    requires Consistent(store) && (h.Some? ==> h.value.hash in store && store[h.value.hash] == h.value)
  {
    forall k: nat :: k > Prev(ref.number) || (h.Some? && k < h.value.number) ==>
      Uncached(store, ref, k) == WalkFrom(store, h, k)
  }

  lemma AheadStep(store: Store, ref: Header, h: Header, n: nat)
    requires Consistent(store) && Linked(store, ref) && h.hash in store && store[h.hash] == h && h.number < ref.number
    requires Ahead(store, ref, Some(h))
    ensures Uncached(store, ref, Prev(h.number)) == h.parent
    ensures Prev(h.number) != n ==> WalkFrom(store, Some(h), n) == WalkFrom(store, ReadHeader(store, h.parent, Prev(h.number)), n)
    ensures h.number > 0 ==> Ahead(store, ref, ReadHeader(store, h.parent, Prev(h.number)))
    ensures h.number == 0 ==> ReadHeader(store, h.parent, Prev(h.number)).None?
  {
    assert WalkFrom(store, Some(h), Prev(h.number)) == h.parent;
    var p := ReadHeader(store, h.parent, Prev(h.number));
    if h.number > 0 {
      forall k: nat | k > Prev(ref.number) || (p.Some? && k < p.value.number)
        ensures Uncached(store, ref, k) == WalkFrom(store, p, k)
      {
        assert Uncached(store, ref, k) == WalkFrom(store, Some(h), k);
      }
    }
  }

  class HashFn {
    const store: Store
    const ref: Header
    var made: bool
    var cache: map<nat, Hash>

    constructor (store: Store, ref: Header)
      ensures this.store == store && this.ref == ref && !made && cache == map[]
    {
      this.store, this.ref, made, cache := store, ref, false, map[];
    }

    ghost predicate Valid()
      reads this
    {
      && Consistent(store) && Linked(store, ref)
      && (if made then Prev(ref.number) in cache else cache == map[])
      && (forall k :: k in cache ==> cache[k] == Uncached(store, ref, k))
    }

    /** Answers from the memo, or walks up from the reference header and fills it on the way. */
    method Query(n: nat) returns (r: Hash)
      requires Valid()
      modifies this
      ensures Valid() && r == Uncached(store, ref, n)
      ensures made && old(cache).Keys <= cache.Keys && (r != NO_HASH ==> n in cache)
    {
      if !made {
        made, cache := true, map[Prev(ref.number) := ref.parent];
      }
      if n in cache {
        return cache[n];
      }
      var h := ReadHeader(store, ref.parent, Prev(ref.number));
      while h.Some?
        invariant Valid() && made && old(cache).Keys <= cache.Keys
        invariant h.Some? ==> h.value.hash in store && store[h.value.hash] == h.value && h.value.number < ref.number
        invariant h.Some? ==> Ahead(store, ref, h)
        invariant Uncached(store, ref, n) == WalkFrom(store, h, n)
        decreases if h.Some? then h.value.number + 1 else 0
      {
        AheadStep(store, ref, h.value, n);
        cache := cache[Prev(h.value.number) := h.value.parent];
        if n == Prev(h.value.number) {
          return h.value.parent;
        }
        h := ReadHeader(store, h.value.parent, Prev(h.value.number));
      }
      r := NO_HASH;
    }

    /** Any sequence of queries is answered as if there were no memo. */
    method QueryAll(ns: seq<nat>) returns (rs: seq<Hash>)
      requires Valid()
      modifies this
      ensures Valid() && |rs| == |ns|
      ensures forall i :: 0 <= i < |ns| ==> rs[i] == Uncached(store, ref, ns[i])
    {
      rs := [];
      for i := 0 to |ns|
        invariant Valid() && |rs| == i
        invariant forall j :: 0 <= j < i ==> rs[j] == Uncached(store, ref, ns[j])
      {
        var r := Query(ns[i]);
        rs := rs + [r];
      }
    }
  }
}

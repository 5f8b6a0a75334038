/** Heartbeats: when each account with pending transactions was last active. */
module Heartbeats {
  import opened Txs
  import opened SortedMaps
  import opened TxLists
  import opened PoolStates
  import opened SlotLimits

  type Beats = map<Address, int>

  ghost predicate SameBeat(b: Beats, b': Beats, a: Address) {
    (a in b' <==> a in b) && (a in b ==> b'[a] == b[a])
  }

  /** No account gained a pending list, and exactly those that lost theirs lost their heartbeat. */
  ghost predicate Silenced(b: Beats, b': Beats, p: Accounts, p': Accounts) {
    p'.Keys <= p.Keys && forall a :: if a in p && a !in p' then a !in b' else SameBeat(b, b', a)
  }

  /** Exactly the accounts whose pending lists changed have a new heartbeat, at `now`. */
  ghost predicate Beaten(b: Beats, b': Beats, p: Accounts, p': Accounts, now: int) {
    forall a :: if Items(p', a) == Items(p, a) then SameBeat(b, b', a) else a in b' && b'[a] == now
  }

  /** Every heartbeat is an earlier one or is at `now`. */
  ghost predicate NoOtherBeat(b: Beats, b': Beats, now: int) {
    forall a :: a in b' ==> b'[a] == now || (a in b && b[a] == b'[a])
  }

  lemma SilencedNothing(b: Beats, p: Accounts)
    ensures Silenced(b, b, p, p)
  {
  }

  lemma SilencedOne(b: Beats, p: Accounts, p': Accounts, a: Address)
    requires SameBut(p, p', a) && p'.Keys <= p.Keys && a in p
    ensures Silenced(b, if a in p' then b else b - {a}, p, p')
  {
  }

  lemma SilencedChain(b: Beats, b': Beats, b'': Beats, p: Accounts, p': Accounts, p'': Accounts)
    requires Silenced(b, b', p, p') && Silenced(b', b'', p', p'')
    ensures Silenced(b, b'', p, p'')
  {
    forall a ensures if a in p && a !in p'' then a !in b'' else SameBeat(b, b'', a) {
      assert if a in p && a !in p' then a !in b' else SameBeat(b, b', a);
      assert if a in p' && a !in p'' then a !in b'' else SameBeat(b', b'', a);
    }
  }

  /** Only the accounts with pending lists matter, not what the lists hold. */
  lemma SilencedByKeys(b: Beats, b': Beats, p: Accounts, p': Accounts, p'': Accounts)
    requires Silenced(b, b', p, p') && p''.Keys == p'.Keys
    ensures Silenced(b, b', p, p'')
  {
  }

  lemma SameItemsBut(p: Accounts, p': Accounts, a: Address)
    requires SameBut(p, p', a)
    ensures forall c :: c != a ==> Items(p', c) == Items(p, c)
  {
  }

  lemma BeatenNothing(b: Beats, p: Accounts, now: int)
    ensures Beaten(b, b, p, p, now) && Shrunk(p, p)
  {
  }

  /** One account gains pending transactions at nonces it had free. */
  lemma BeatenOne(b: Beats, p: Accounts, p': Accounts, a: Address, more: TxMap, now: int)
    requires Items(p', a) == Items(p, a) + more && Items(p, a).Keys !! more.Keys
    requires forall c :: c != a ==> Items(p', c) == Items(p, c)
    ensures Beaten(b, if more == map[] then b else b[a := now], p, p', now) && Shrunk(p', p)
  {
    if more == map[] {
      assert Items(p, a) + more == Items(p, a);
    } else {
      var n :| n in more;
      assert n in Items(p', a) && n !in Items(p, a);
    }
  }

  lemma PartBoth(m: TxMap, l: TxMap)
    requires Part(m, l) && Part(l, m)
    ensures m == l
  {
  }

  lemma BeatenChain(b: Beats, b': Beats, b'': Beats, p: Accounts, p': Accounts, p'': Accounts, now: int)
    requires Beaten(b, b', p, p', now) && Beaten(b', b'', p', p'', now) && Shrunk(p', p) && Shrunk(p'', p')
    ensures Beaten(b, b'', p, p'', now) && Shrunk(p'', p)
  {
    ShrunkChain(p'', p', p);
    forall a ensures if Items(p'', a) == Items(p, a) then SameBeat(b, b'', a) else a in b'' && b''[a] == now {
      assert if Items(p', a) == Items(p, a) then SameBeat(b, b', a) else a in b' && b'[a] == now;
      assert if Items(p'', a) == Items(p', a) then SameBeat(b', b'', a) else a in b'' && b''[a] == now;
      assert Part(Items(p, a), Items(p', a)) && Part(Items(p', a), Items(p'', a));
      if Items(p'', a) == Items(p, a) {
        PartBoth(Items(p, a), Items(p', a));
      }
    }
  }

  /** If an account has a heartbeat exactly while it has pending transactions, this stays so when lists are lost. */
  lemma StillInStep(b: Beats, b': Beats, p: Accounts, p': Accounts)
    requires Silenced(b, b', p, p') && b.Keys == p.Keys
    ensures b'.Keys == p'.Keys
  {
    forall a ensures a in b' <==> a in p' {
      assert if a in p && a !in p' then a !in b' else SameBeat(b, b', a);
    }
  }

  /** And when lists grow. */
  lemma GrowsInStep(b: Beats, b': Beats, p: Accounts, p': Accounts, now: int)
    requires Beaten(b, b', p, p', now) && Shrunk(p', p) && b.Keys == p.Keys && Shaped(p, true) && Shaped(p', true)
    ensures b'.Keys == p'.Keys
  {
    forall a ensures a in b' <==> a in p' {
      assert if Items(p', a) == Items(p, a) then SameBeat(b, b', a) else a in b' && b'[a] == now;
      assert Part(Items(p, a), Items(p', a));
    }
  }

  /** Losing lists and then gaining transactions leaves old heartbeats or new ones. */
  lemma OnlyNowBeats(b: Beats, b': Beats, b'': Beats, p: Accounts, p': Accounts, p'': Accounts, now: int)
    requires Silenced(b, b', p, p') && Beaten(b', b'', p', p'', now)
    ensures NoOtherBeat(b, b'', now)
  {
    forall a | a in b'' ensures b''[a] == now || (a in b && b[a] == b''[a]) {
      assert if a in p && a !in p' then a !in b' else SameBeat(b, b', a);
      assert if Items(p'', a) == Items(p', a) then SameBeat(b', b'', a) else a in b'' && b''[a] == now;
    }
  }

  /** After a loss of lists and a gain of one account, the heartbeat of any other is gone with its list or unchanged. */
  lemma BeatsElsewhere(b: Beats, b': Beats, b'': Beats, p: Accounts, p': Accounts, p'': Accounts, final: Accounts,
                       now: int, a0: Address)
    requires Silenced(b, b', p, p') && Beaten(b', b'', p', p'', now) && final.Keys == p''.Keys
    requires Shaped(p', true) && Shaped(p'', true) && forall a :: a != a0 ==> Items(p'', a) == Items(p', a)
    ensures forall a :: a != a0 ==> if a in p && a !in final then a !in b'' else SameBeat(b, b'', a)
  {
    forall a | a != a0 ensures if a in p && a !in final then a !in b'' else SameBeat(b, b'', a) {
      assert if a in p && a !in p' then a !in b' else SameBeat(b, b', a);
      assert SameBeat(b', b'', a);
      assert a in p'' <==> Items(p'', a) != map[];
    }
  }

  /** The sender of a transaction that became pending has its heartbeat now. */
  lemma PromotedBeats(b: Beats, b': Beats, p: Accounts, p': Accounts, final: Accounts, now: int, t: Tx)
    requires Beaten(b, b', p, p', now) && Free(p, t) && Shrunk(p', final)
    ensures Holds(final, t) ==> Beat(b', t.From()) == now
  {
    var a := t.From();
    assert Part(Items(final, a), Items(p', a));
    assert if Items(p', a) == Items(p, a) then SameBeat(b, b', a) else a in b' && b'[a] == now;
  }
}

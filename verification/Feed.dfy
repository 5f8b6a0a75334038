/**
 Feed: one-to-many delivery.  Send works on a prefix of the very array that holds
 the subscribers, swapping delivered ones behind it, while other goroutines
 subscribe and unsubscribe.  What those do, and which channels are ready, is an
 input: one turn of the environment for every attempt Send makes.
 A channel may be subscribed more than once, so subscribers are multisets.
 */
module Feeds {

  type Chan = nat
  type Value = nat

  /** The channel in sendCases[0], on which unsubscribers interrupt Send. */
  const REMOVE_SUB: Chan := 0

  /** What another goroutine does. */
  datatype Event = Join(chan: Chan) | Ask(chan: Chan)

  /**
   The environment's part in one attempt: what other goroutines do before it,
   whether the channel tried is ready, whether an unsubscriber interrupts a
   select, and which ready case a select picks otherwise.
   */
  datatype Turn = Turn(events: seq<Event>, ready: bool, interrupt: bool, pick: nat)

  /** The channels whose unsubscription is asked for. */
  function Asks(events: seq<Event>): multiset<Chan> {
    if events == [] then multiset{}
    else Asks(events[..|events| - 1]) + if events[|events| - 1].Ask? then multiset{events[|events| - 1].chan} else multiset{}
  }

  /** Those asked for in the first t turns. */
  function Asked(env: nat -> Turn, t: nat): multiset<Chan> {
    if t == 0 then multiset{} else Asked(env, t - 1) + Asks(env(t - 1).events)
  }

  /** A list of channels without the first occurrence of one. */
  function WithoutFirst(s: seq<Chan>, c: Chan): seq<Chan> {
    if s == [] then [] else if s[0] == c then s[1..] else [s[0]] + WithoutFirst(s[1..], c)
  }

  /** The inbox after an event: whoever joins waits in it, and whoever asks to leave while in it is gone. */
  function InboxAfter(inbox: seq<Chan>, e: Event): seq<Chan> {
    match e
    case Join(c) => if c != REMOVE_SUB then inbox + [c] else inbox
    case Ask(c) => WithoutFirst(inbox, c)
  }

  function InboxAfterAll(inbox: seq<Chan>, events: seq<Event>): seq<Chan> {
    if events == [] then inbox else InboxAfter(InboxAfterAll(inbox, events[..|events| - 1]), events[|events| - 1])
  }

  /** The inbox after the first t turns. */
  function Joined(inbox: seq<Chan>, env: nat -> Turn, t: nat): seq<Chan> {
    if t == 0 then inbox else InboxAfterAll(Joined(inbox, env, t - 1), env(t - 1).events)
  }

  /** Who of all subscribers has asked to leave after an event: whoever asks and is past the inbox, once per subscription. */
  function AskedAfter(all: multiset<Chan>, inbox: seq<Chan>, asked: multiset<Chan>, e: Event): multiset<Chan> {
    if e.Ask? && e.chan !in inbox && asked[e.chan] < all[e.chan] then asked + multiset{e.chan} else asked
  }

  function AskedAfterAll(all: multiset<Chan>, inbox: seq<Chan>, asked: multiset<Chan>, events: seq<Event>): multiset<Chan> {
    if events == [] then asked
    else
      var front := events[..|events| - 1];
      AskedAfter(all, InboxAfterAll(inbox, front), AskedAfterAll(all, inbox, asked, front), events[|events| - 1])
  }

  /** How a Send starts: the inbox, and who is waiting to leave. */
  datatype Start = Start(inbox: seq<Chan>, waiting: multiset<Chan>)

  /** Who has asked to leave within the first t turns, or was waiting to when they began. */
  function Leavers(all: multiset<Chan>, start: Start, env: nat -> Turn, t: nat): multiset<Chan> {
    if t == 0 then start.waiting
    else AskedAfterAll(all, Joined(start.inbox, env, t - 1), Leavers(all, start, env, t - 1), env(t - 1).events)
  }

  lemma {:induction false} WithoutFirstMembers(s: seq<Chan>, c: Chan)
    ensures c in s ==> multiset(s) == multiset(WithoutFirst(s, c)) + multiset{c}
    ensures c !in s ==> WithoutFirst(s, c) == s
    ensures forall d :: d in WithoutFirst(s, c) ==> d in s
  {
    if s != [] && s[0] != c {
      WithoutFirstMembers(s[1..], c);
      assert s == [s[0]] + s[1..];
    } else if s != [] {
      assert s == [c] + s[1..];
    }
  }

  /** How many of the turns from t0 to t find the channel ready. */
  function ReadyTurns(env: nat -> Turn, t0: nat, t: nat): nat
    requires t0 <= t
  {
    if t == t0 then 0 else ReadyTurns(env, t0, t - 1) + if env(t - 1).ready then 1 else 0
  }

  function Repeat(v: Value, k: nat): (s: seq<Value>)
    ensures |s| == k && forall i :: 0 <= i < k ==> s[i] == v
  {
    seq(k, _ => v)
  }

  type Received = map<Chan, seq<Value>>

  function Look(r: Received, c: Chan): seq<Value> {
    if c in r then r[c] else []
  }

  /** Every channel has been sent the value exactly as often as it is among the delivered, and nothing else. */
  ghost predicate Sent(before: Received, after: Received, v: Value, delivered: multiset<Chan>) {
    forall c :: Look(after, c) == Look(before, c) + Repeat(v, delivered[c])
  }

  lemma NothingSent(r: Received, v: Value)
    ensures Sent(r, r, v, multiset{})
  {
    forall c ensures Look(r, c) + Repeat(v, 0) == Look(r, c) {
    }
  }

  lemma RepeatOnce(v: Value, k: nat)
    ensures Repeat(v, k) + [v] == Repeat(v, k + 1)
  {
  }

  lemma OnceMore(s: seq<Value>, v: Value, k: nat)
    ensures s + Repeat(v, k) + [v] == s + Repeat(v, k + 1)
  {
    RepeatOnce(v, k);
    assert s + Repeat(v, k) + [v] == s + (Repeat(v, k) + [v]);
  }

  lemma OneMoreSent(before: Received, r: Received, v: Value, delivered: multiset<Chan>, c: Chan)
    requires Sent(before, r, v, delivered)
    ensures Sent(before, r[c := Look(r, c) + [v]], v, delivered + multiset{c})
  {
    var r' := r[c := Look(r, c) + [v]];
    forall d ensures Look(r', d) == Look(before, d) + Repeat(v, (delivered + multiset{c})[d]) {
      assert Look(r, d) == Look(before, d) + Repeat(v, delivered[d]);
      if d == c {
        OnceMore(Look(before, c), v, delivered[c]);
      }
      hide Repeat;
    }
  }

  /** What others did in the first t turns has been taken in: who joined is in the inbox, who asked to leave waits or left. */
  ghost predicate Heard(all: multiset<Chan>, start: Start, inbox: seq<Chan>, leaving: multiset<Chan>, left: multiset<Chan>,
                        env: nat -> Turn, t: nat) {
    inbox == Joined(start.inbox, env, t) && leaving + left == Leavers(all, start, env, t)
  }

  function Without(s: seq<Chan>, k: nat): seq<Chan>
    requires k < |s|
  {
    s[..k] + s[k + 1..]
  }

  function Swapped(s: seq<Chan>, i: nat, j: nat): seq<Chan>
    requires i < |s| && j < |s|
  {
    s[i := s[j]][j := s[i]]
  }

  // ---------- sendCases as a sequence with an active prefix of length m ----------

  /** The subscribers still to be served. */
  function Active(s: seq<Chan>, m: nat): multiset<Chan>
    requires 1 <= m <= |s|
  {
    multiset(s[1..m])
  }

  /** The subscribers served already. */
  function Served(s: seq<Chan>, m: nat): multiset<Chan>
    requires m <= |s|
  {
    multiset(s[m..])
  }

  function Subs(s: seq<Chan>): multiset<Chan>
    requires |s| >= 1
  {
    multiset(s[1..])
  }

  ghost predicate WellFormed(s: seq<Chan>) {
    |s| >= 1 && s[0] == REMOVE_SUB && REMOVE_SUB !in s[1..]
  }

  lemma ActiveAndServed(s: seq<Chan>, m: nat)
    requires 1 <= m <= |s|
    ensures Subs(s) == Active(s, m) + Served(s, m)
  {
    assert s[1..] == s[1..m] + s[m..];
  }

  lemma TakeOne(s: seq<Chan>, k: nat)
    requires k < |s|
    ensures multiset(s) == multiset(Without(s, k)) + multiset{s[k]}
  {
    assert s == s[..k] + [s[k]] + s[k + 1..];
  }

  lemma SwapKeeps(s: seq<Chan>, i: nat, j: nat)
    requires i < |s| && j < |s|
    ensures multiset(Swapped(s, i, j)) == multiset(s)
  {
  }

  lemma SubsTellWellFormed(s: seq<Chan>, t: seq<Chan>)
    requires WellFormed(s) && |t| >= 1 && t[0] == s[0] && Subs(t) <= Subs(s)
    ensures WellFormed(t)
  {
    assert forall c :: c in t[1..] <==> c in Subs(t);
    assert forall c :: c in s[1..] <==> c in Subs(s);
  }

  lemma SwapKeepsSubs(s: seq<Chan>, i: nat, j: nat)
    requires WellFormed(s) && 1 <= i <= j < |s|
    ensures WellFormed(Swapped(s, i, j)) && Subs(Swapped(s, i, j)) == Subs(s)
  {
    var t := Swapped(s, i, j);
    assert t[1..] == Swapped(s[1..], i - 1, j - 1);
    SwapKeeps(s[1..], i - 1, j - 1);
    SubsTellWellFormed(s, t);
  }

  lemma SubsSize(s: seq<Chan>)
    requires |s| >= 1
    ensures |Subs(s)| == |s| - 1
  {
  }

  /** A round makes at most one attempt for every case. */
  function Attempts(rounds: nat, size: nat): nat {
    rounds * size
  }

  lemma OneMoreRound(rounds: nat, size: nat)
    ensures Attempts(0, size) == 0 && Attempts(rounds + 1, size) == Attempts(rounds, size) + size
  {
  }

  /** A bound on the attempts a Send to k subscribers makes. */
  function MostTurns(k: nat): nat {
    (2 * k + 1) * (k + 1)
  }

  lemma MoreRounds(a: nat, b: nat, c: nat)
    requires a <= b
    ensures a * c <= b * c
  {
  }

  lemma LastRound(turns: nat, rounds: nat, size: nat)
    requires turns < Attempts(rounds, size) + size && rounds + 2 <= 2 * size
    ensures turns < MostTurns(size - 1)
  {
    OneMoreRound(rounds, size);
    MoreRounds(rounds + 1, 2 * (size - 1) + 1, size);
  }

  lemma OneMore(s: seq<Chan>, c: Chan)
    ensures multiset(s + [c]) == multiset(s) + multiset{c} && multiset([c] + s) == multiset(s) + multiset{c}
  {
  }

  lemma SwappedParts(s: seq<Chan>, m: nat, i: nat)
    requires 1 <= i < m <= |s|
    ensures var t := Swapped(s, i, m - 1);
      && |t| == |s| && t[0] == s[0]
      && t[1..m] == Swapped(s[1..m], i - 1, m - 2)
      && t[1..m] == t[1..m - 1] + [s[i]]
      && t[m - 1..] == [s[i]] + s[m..]
  {
  }

  lemma MovedBehind(s: seq<Chan>, m: nat, i: nat)
    requires 1 <= i < m <= |s|
    ensures var t := Swapped(s, i, m - 1);
      && |t| == |s| && t[0] == s[0]
      && Active(s, m) == Active(t, m - 1) + multiset{s[i]}
      && Served(t, m - 1) == Served(s, m) + multiset{s[i]}
  {
    var t := Swapped(s, i, m - 1);
    SwappedParts(s, m, i);
    SwapKeeps(s[1..m], i - 1, m - 2);
    hide Swapped;
    OneMore(t[1..m - 1], s[i]);
    OneMore(s[m..], s[i]);
  }

  /** What moves from one part to the other stays in the sum. */
  lemma SameSum(a: multiset<Chan>, b: multiset<Chan>, a': multiset<Chan>, b': multiset<Chan>, c: Chan)
    requires a == a' + multiset{c} && b' == b + multiset{c}
    ensures a' + b' == a + b && a' + b' <= a + b
  {
  }

  /** Swapping an active case behind the prefix moves exactly it to the served. */
  lemma Deactivation(s: seq<Chan>, m: nat, i: nat)
    requires WellFormed(s) && 1 <= i < m <= |s|
    ensures var t := Swapped(s, i, m - 1);
      && WellFormed(t) && Subs(t) == Subs(s)
      && Active(s, m) == Active(t, m - 1) + multiset{s[i]}
      && Served(t, m - 1) == Served(s, m) + multiset{s[i]}
  {
    hide *;
    var t := Swapped(s, i, m - 1);
    MovedBehind(s, m, i);
    ActiveAndServed(s, m);
    ActiveAndServed(t, m - 1);
    SameSum(Active(s, m), Served(s, m), Active(t, m - 1), Served(t, m - 1), s[i]);
    SubsTellWellFormed(s, t);
  }

  lemma DeleteActive(s: seq<Chan>, m: nat, k: nat)
    requires 1 <= k < m <= |s|
    ensures Active(s, m) == Active(Without(s, k), m - 1) + multiset{s[k]}
    ensures Served(s, m) == Served(Without(s, k), m - 1)
  {
    var t := Without(s, k);
    assert s[1..m][..k - 1] == s[1..k] && s[1..m][k..] == s[k + 1..m];
    assert t[1..m - 1] == s[1..k] + s[k + 1..m];
    assert t[m - 1..] == s[m..];
    TakeOne(s[1..m], k - 1);
  }

  lemma DeleteServed(s: seq<Chan>, m: nat, k: nat)
    requires 1 <= m <= k < |s|
    ensures Active(s, m) == Active(Without(s, k), m)
    ensures Served(s, m) == Served(Without(s, k), m) + multiset{s[k]}
  {
    var t := Without(s, k);
    assert s[m..][..k - m] == s[m..k] && s[m..][k - m + 1..] == s[k + 1..];
    assert t[1..m] == s[1..m];
    assert t[m..] == s[m..k] + s[k + 1..];
    TakeOne(s[m..], k - m);
  }

  lemma HeadStays(s: seq<Chan>, k: nat)
    requires WellFormed(s) && 1 <= k < |s|
    ensures Without(s, k)[0] == REMOVE_SUB
  {
  }

  /** Deleting a case removes exactly it, from the active or from the served. */
  lemma Deletion(s: seq<Chan>, m: nat, k: nat)
    requires WellFormed(s) && 1 <= m <= |s| && 1 <= k < |s|
    ensures var t, m' := Without(s, k), if k < m then m - 1 else m;
      && 1 <= m' <= |t| && WellFormed(t)
      && Subs(s) == Subs(t) + multiset{s[k]}
      && Active(s, m) == Active(t, m') + (if k < m then multiset{s[k]} else multiset{})
      && Served(s, m) == Served(t, m') + (if k < m then multiset{} else multiset{s[k]})
  {
    hide Active, Served, Subs, WellFormed;
    var t, m' := Without(s, k), if k < m then m - 1 else m;
    if k < m {
      DeleteActive(s, m, k);
    } else {
      DeleteServed(s, m, k);
    }
    ActiveAndServed(s, m);
    ActiveAndServed(t, m');
    HeadStays(s, k);
    SubsTellWellFormed(s, t);
  }

  lemma DeletedSub(s: seq<Chan>, k: nat)
    requires WellFormed(s) && k < |s| && s[k] != REMOVE_SUB
    ensures k >= 1 && WellFormed(Without(s, k)) && Subs(s) == Subs(Without(s, k)) + multiset{s[k]}
  {
    Deletion(s, |s|, k);
  }

  /**
   Send in progress, of all subscribers it began with: some have been delivered
   to, some left, and `missed` left before they were served.  The active prefix
   is exactly the rest, what lies behind it exactly the served who did not leave.
   */
  ghost predicate Progress(s: seq<Chan>, m: nat, all: multiset<Chan>, delivered: multiset<Chan>,
                           missed: multiset<Chan>, left: multiset<Chan>) {
    && WellFormed(s) && 1 <= m <= |s|
    && Active(s, m) + delivered + missed == all
    && Served(s, m) + (left - missed) == delivered
    && missed <= left && Subs(s) + left == all
  }

  lemma ProgressStarts(s: seq<Chan>)
    requires WellFormed(s)
    ensures Progress(s, |s|, Subs(s), multiset{}, multiset{}, multiset{})
  {
    ActiveAndServed(s, |s|);
    assert s[|s|..] == [];
  }

  lemma ProgressBounds(s: seq<Chan>, m: nat, all: multiset<Chan>, delivered: multiset<Chan>,
                       missed: multiset<Chan>, left: multiset<Chan>)
    requires Progress(s, m, all, delivered, missed, left)
    ensures 1 <= m <= |s|
  {
  }

  /** One more delivery, to the case at i. */
  lemma ProgressDelivers(s: seq<Chan>, m: nat, i: nat, all: multiset<Chan>, delivered: multiset<Chan>,
                         missed: multiset<Chan>, left: multiset<Chan>)
    requires Progress(s, m, all, delivered, missed, left) && 1 <= i < m
    ensures Progress(Swapped(s, i, m - 1), m - 1, all, delivered + multiset{s[i]}, missed, left)
  {
    hide Active, Served, Subs, WellFormed;
    Deactivation(s, m, i);
  }

  /** One more leaver, the case at k. */
  lemma ProgressLoses(s: seq<Chan>, m: nat, k: nat, all: multiset<Chan>, delivered: multiset<Chan>,
                      missed: multiset<Chan>, left: multiset<Chan>)
    requires Progress(s, m, all, delivered, missed, left) && 1 <= k < |s|
    ensures Progress(Without(s, k), if k < m then m - 1 else m, all, delivered,
                     if k < m then missed + multiset{s[k]} else missed, left + multiset{s[k]})
  {
    hide Active, Served, Subs, WellFormed;
    Deletion(s, m, k);
  }

  /** Once nobody is active everybody was served or left first. */
  lemma ProgressEnds(s: seq<Chan>, all: multiset<Chan>, delivered: multiset<Chan>, missed: multiset<Chan>,
                     left: multiset<Chan>)
    requires Progress(s, 1, all, delivered, missed, left)
    ensures delivered == all - missed && missed <= left <= all && Subs(s) == all - left
  {
    assert s[1..1] == [];
  }

  lemma {:induction false} AskedAmong(all: multiset<Chan>, inbox: seq<Chan>, asked: multiset<Chan>, events: seq<Event>)
    ensures asked <= AskedAfterAll(all, inbox, asked, events) <= asked + Asks(events)
    decreases |events|
  {
    hide InboxAfterAll;
    if events != [] {
      AskedAmong(all, inbox, asked, events[..|events| - 1]);
    }
  }

  /** Whoever was waiting or asks is among the leavers, and nobody else. */
  lemma {:induction false} LeaversAsked(all: multiset<Chan>, start: Start, env: nat -> Turn, t: nat)
    ensures start.waiting <= Leavers(all, start, env, t) <= start.waiting + Asked(env, t)
  {
    hide Joined, Asks, AskedAfterAll;
    if t > 0 {
      LeaversAsked(all, start, env, t - 1);
      AskedAmong(all, Joined(start.inbox, env, t - 1), Leavers(all, start, env, t - 1), env(t - 1).events);
    }
  }

  lemma {:induction false} AskedGrows(env: nat -> Turn, t: nat, u: nat)
    requires t <= u
    ensures Asked(env, t) <= Asked(env, u)
    decreases u
  {
    hide Asks;
    if t < u {
      AskedGrows(env, t, u - 1);
    }
  }

  /** Nobody leaves who has not asked. */
  lemma NobodyAsked(all: multiset<Chan>, start: Start, inbox: seq<Chan>, leaving: multiset<Chan>, left: multiset<Chan>,
                    env: nat -> Turn, t: nat, u: nat)
    requires Heard(all, start, inbox, leaving, left, env, t) && t <= u
    ensures start.waiting == Asked(env, u) == multiset{} ==> left == multiset{}
  {
    LeaversAsked(all, start, env, t);
    AskedGrows(env, t, u);
  }

  lemma HeardNothing(all: multiset<Chan>, start: Start, env: nat -> Turn)
    ensures Heard(all, start, start.inbox, start.waiting, multiset{}, env, 0)
  {
  }

  /** Those who left count as having asked. */
  lemma {:induction false} AskedWithLeft(subs: multiset<Chan>, left: multiset<Chan>, inbox: seq<Chan>, asked: multiset<Chan>,
                                         events: seq<Event>)
    ensures AskedAfterAll(subs + left, inbox, asked + left, events) == AskedAfterAll(subs, inbox, asked, events) + left
    decreases |events|
  {
    hide InboxAfterAll;
    if events != [] {
      AskedWithLeft(subs, left, inbox, asked, events[..|events| - 1]);
    }
  }

  lemma HeardMore(all: multiset<Chan>, start: Start, inbox: seq<Chan>, inbox': seq<Chan>, leaving: multiset<Chan>,
                  leaving': multiset<Chan>, left: multiset<Chan>, subs: multiset<Chan>, env: nat -> Turn, t: nat)
    requires Heard(all, start, inbox, leaving, left, env, t) && subs + left == all
    requires inbox' == InboxAfterAll(inbox, env(t).events) && leaving' == AskedAfterAll(subs, inbox, leaving, env(t).events)
    ensures Heard(all, start, inbox', leaving', left, env, t + 1)
  {
    AskedWithLeft(subs, left, inbox, leaving, env(t).events);
  }

  lemma LeaverHeard(all: multiset<Chan>, start: Start, inbox: seq<Chan>, leaving: multiset<Chan>, left: multiset<Chan>,
                    env: nat -> Turn, t: nat, c: Chan)
    requires Heard(all, start, inbox, leaving, left, env, t) && c in leaving
    ensures Heard(all, start, inbox, leaving - multiset{c}, left + multiset{c}, env, t)
  {
    assert leaving - multiset{c} + (left + multiset{c}) == leaving + left;
  }

  /** Somebody is waiting to leave exactly if somebody asked who has not left. */
  lemma WaitingIsAsked(all: multiset<Chan>, start: Start, inbox: seq<Chan>, leaving: multiset<Chan>, left: multiset<Chan>,
                       env: nat -> Turn, t: nat)
    requires Heard(all, start, inbox, leaving, left, env, t)
    ensures leaving == multiset{} <==> Leavers(all, start, env, t) == left
  {
    assert leaving + left == left ==> leaving == (leaving + left) - left;
  }

  lemma SubsLeft(s: seq<Chan>, m: nat, all: multiset<Chan>, delivered: multiset<Chan>, missed: multiset<Chan>,
                 left: multiset<Chan>)
    requires Progress(s, m, all, delivered, missed, left)
    ensures Subs(s) + left == all
  {
  }

  lemma AppendedSubs(s: seq<Chan>, inbox: seq<Chan>)
    requires WellFormed(s) && REMOVE_SUB !in inbox
    ensures WellFormed(s + inbox) && Subs(s + inbox) == Subs(s) + multiset(inbox)
  {
    assert (s + inbox)[1..] == s[1..] + inbox;
  }

  lemma FoundSub(s: seq<Chan>, c: Chan)
    requires WellFormed(s) && c in Subs(s)
    ensures |s| >= 1 && c != REMOVE_SUB && c in s
  {
    assert c in s[1..];
  }

  class Feed {
    var cases: array<Chan>
    var n: nat
    var inbox: seq<Chan>
    /** Unsubscribers past the inbox check, waiting to hand over their channel. */
    var leaving: multiset<Chan>
    /** What every channel has been sent. */
    var received: Received

    /** The slice sendCases. */
    function SendCases(): seq<Chan>
      reads this, cases
      requires n <= cases.Length
    {
      cases[..n]
    }

    ghost predicate Valid()
      reads this, cases
    {
      && n <= cases.Length
      && WellFormed(SendCases())
      && REMOVE_SUB !in inbox
      && leaving <= Subs(SendCases())
    }

    constructor ()
      ensures Valid() && SendCases() == [REMOVE_SUB] && inbox == [] && leaving == multiset{} && received == map[] && fresh(cases)
    {
      cases := new Chan[1](_ => REMOVE_SUB);
      n, inbox, leaving, received := 1, [], multiset{}, map[];
    }

    /** The channel waits in the inbox for the next Send. */
    method Subscribe(c: Chan)
      requires Valid() && c != REMOVE_SUB
      modifies `inbox
      ensures Valid() && inbox == old(inbox) + [c]
    {
      inbox := inbox + [c];
    }

    /** The first index of a channel in sendCases, or -1. */
    method Find(c: Chan) returns (k: int)
      requires n <= cases.Length
      ensures k == -1 <==> c !in SendCases()
      ensures k != -1 ==> 0 <= k < n && cases[k] == c && c !in cases[..k]
    {
      for i := 0 to n
        invariant c !in cases[..i]
      {
        if cases[i] == c {
          return i;
        }
      }
      return -1;
    }

    /** Shifts the cases after k one place to the front. */
    method Delete(k: nat)
      requires n <= cases.Length && k < n
      modifies `n, cases
      ensures n == old(n) - 1 && SendCases() == Without(old(SendCases()), k)
    {
      ghost var s := SendCases();
      for i := k to n - 1
        invariant n == old(n) <= cases.Length
        invariant forall j :: 0 <= j < k ==> cases[j] == s[j]
        invariant forall j :: k <= j < i ==> cases[j] == s[j + 1]
        invariant forall j :: i <= j < n ==> cases[j] == s[j]
      {
        cases[i] := cases[i + 1];
      }
      n := n - 1;
    }

    /** Swaps the case at i with the last active one. */
    method Deactivate(i: nat, m: nat)
      requires n <= cases.Length && i < m <= n
      modifies cases
      ensures SendCases() == Swapped(old(SendCases()), i, m - 1)
    {
      cases[i], cases[m - 1] := cases[m - 1], cases[i];
    }

    /** Moves to a larger array if there is no room for `size` cases. */
    method Grow(size: nat)
      requires n <= cases.Length && n <= size
      modifies `cases
      ensures size <= cases.Length && SendCases() == old(SendCases())
      ensures cases == old(cases) || fresh(cases)
    {
      if size > cases.Length {
        var smaller, len := cases, n;
        var larger := new Chan[2 * size](_ => REMOVE_SUB);
        for i := 0 to len
          invariant forall j :: 0 <= j < i ==> larger[j] == smaller[j]
        {
          larger[i] := smaller[i];
        }
        cases := larger;
        assert cases[..len] == smaller[..len];
      }
    }

    /** Writes the inbox behind the cases. */
    method CopyInbox()
      requires n + |inbox| <= cases.Length
      modifies cases
      ensures cases[..n + |inbox|] == old(cases[..n]) + inbox
    {
      for i := 0 to |inbox|
        invariant cases[..n] == old(cases[..n])
        invariant forall j :: 0 <= j < i ==> cases[n + j] == inbox[j]
      {
        cases[n + i] := inbox[i];
      }
      assert forall j :: 0 <= j < |inbox| ==> cases[..n + |inbox|][n + j] == inbox[j];
    }

    /** append(sendCases, inbox...), in place or into a larger array. */
    method TakeInbox()
      requires Valid()
      modifies `cases, `n, `inbox, cases
      ensures Valid() && SendCases() == old(SendCases()) + old(inbox) && inbox == []
      ensures Subs(SendCases()) == Subs(old(SendCases())) + multiset(old(inbox))
      ensures cases == old(cases) || fresh(cases)
    {
      ghost var s := SendCases();
      AppendedSubs(s, inbox);
      hide WellFormed, Subs;
      Grow(n + |inbox|);
      CopyInbox();
      n, inbox := n + |inbox|, [];
      assert SendCases() == s + old(inbox);
    }

    /** Finds a subscriber's case and deletes it. */
    method TakeCase(c: Chan) returns (k: nat)
      requires Valid() && c in Subs(SendCases())
      modifies `n, `leaving, cases
      ensures Valid() && 1 <= k < old(n) && old(cases[k]) == c && n == old(n) - 1
      ensures SendCases() == Without(old(SendCases()), k) && Subs(SendCases()) == Subs(old(SendCases())) - multiset{c}
      ensures leaving == old(leaving) - multiset{c}
    {
      hide WellFormed, Subs;
      FoundSub(SendCases(), c);
      var i := Find(c);
      k := i;
      DeletedSub(SendCases(), k);
      leaving := leaving - multiset{c};
      Delete(k);
    }

    /** Unsubscribing while no Send is in progress. */
    method Remove(c: Chan)
      requires Valid() && (c in inbox || c in Subs(SendCases()))
      modifies `n, `inbox, `leaving, cases
      ensures Valid()
      ensures inbox == WithoutFirst(old(inbox), c)
      ensures multiset(inbox) + Subs(SendCases()) + multiset{c} == old(multiset(inbox) + Subs(SendCases()))
    {
      hide WellFormed, Subs, WithoutFirst;
      WithoutFirstMembers(inbox, c);
      if c in inbox {
        inbox := WithoutFirst(inbox, c);
      } else {
        var k := TakeCase(c);
      }
    }

    method Happen(e: Event)
      requires Valid()
      modifies `inbox, `leaving
      ensures Valid() && inbox == InboxAfter(old(inbox), e)
      ensures leaving == AskedAfter(Subs(SendCases()), old(inbox), old(leaving), e)
    {
      hide WithoutFirst;
      WithoutFirstMembers(inbox, e.chan);
      match e
      case Join(c) =>
        if c != REMOVE_SUB {
          inbox := inbox + [c];
        }
      case Ask(c) =>
        if c in inbox {
          inbox := WithoutFirst(inbox, c);
        } else if leaving[c] < Subs(SendCases())[c] {
          leaving := leaving + multiset{c};
        }
    }

    /**
     What other goroutines do before an attempt: subscribe, unsubscribe from the
     inbox, or ask to unsubscribe a channel of sendCases.
     */
    method Interfere(events: seq<Event>)
      requires Valid()
      modifies `inbox, `leaving
      ensures Valid() && inbox == InboxAfterAll(old(inbox), events)
      ensures leaving == AskedAfterAll(Subs(SendCases()), old(inbox), old(leaving), events)
    {
      hide InboxAfter, AskedAfter, Subs;
      for i := 0 to |events|
        invariant Valid() && inbox == InboxAfterAll(old(inbox), events[..i])
        invariant leaving == AskedAfterAll(Subs(SendCases()), old(inbox), old(leaving), events[..i])
      {
        assert events[..i + 1][..i] == events[..i];
        Happen(events[i]);
      }
      assert events[..|events|] == events;
    }

    /** One delivery to the active case at i. */
    method Deliver(i: nat, m: nat, value: Value, ghost before: Received,
                   ghost all: multiset<Chan>, ghost delivered: multiset<Chan>, ghost missed: multiset<Chan>, ghost left: multiset<Chan>)
      returns (ghost delivered': multiset<Chan>)
      requires Valid() && 1 <= i < m <= n && Progress(SendCases(), m, all, delivered, missed, left)
      requires Sent(before, received, value, delivered)
      modifies `received, cases
      ensures Valid() && Progress(SendCases(), m - 1, all, delivered', missed, left)
      ensures Sent(before, received, value, delivered') && delivered' == delivered + multiset{old(cases[i])}
    {
      hide Progress, WellFormed, Subs, Sent;
      ghost var s := SendCases();
      SwapKeepsSubs(s, i, m - 1);
      ProgressDelivers(s, m, i, all, delivered, missed, left);
      var c := cases[i];
      OneMoreSent(before, received, value, delivered, c);
      delivered' := delivered + multiset{c};
      received := received[c := Look(received, c) + [value]];
      Deactivate(i, m);
    }

    /** An unsubscriber interrupts Send: its case is deleted, active or not. */
    method TakeOut(c: Chan, m: nat, ghost all: multiset<Chan>, ghost delivered: multiset<Chan>,
                   ghost missed: multiset<Chan>, ghost left: multiset<Chan>)
      returns (m': nat, ghost missed': multiset<Chan>)
      requires Valid() && c in leaving && 1 <= m <= n && Progress(SendCases(), m, all, delivered, missed, left)
      modifies `n, `leaving, cases
      ensures Valid() && Progress(SendCases(), m', all, delivered, missed', left + multiset{c})
      ensures n == old(n) - 1 && m' <= m && leaving == old(leaving) - multiset{c}
    {
      hide Progress, WellFormed, Active, Served;
      ghost var s := SendCases();
      var k := TakeCase(c);
      ProgressLoses(s, m, k, all, delivered, missed, left);
      m' := if k < m then m - 1 else m;
      missed' := if k < m then missed + multiset{c} else missed;
    }

    /** Tries every active case exactly once without blocking, and delivers to those that are ready. */
    method FastPath(m0: nat, nsent0: nat, value: Value, env: nat -> Turn, t0: nat, ghost before: Received,
                    ghost start: Start,
                    ghost all: multiset<Chan>, ghost delivered0: multiset<Chan>, ghost missed: multiset<Chan>, ghost left: multiset<Chan>)
      returns (m: nat, nsent: nat, t: nat, ghost delivered: multiset<Chan>)
      requires Valid() && 1 <= m0 <= n && Progress(SendCases(), m0, all, delivered0, missed, left)
      requires Sent(before, received, value, delivered0) && Heard(all, start, inbox, leaving, left, env, t0)
      modifies `inbox, `leaving, `received, cases
      ensures Valid() && 1 <= m && Progress(SendCases(), m, all, delivered, missed, left)
      ensures Sent(before, received, value, delivered) && Heard(all, start, inbox, leaving, left, env, t)
      ensures t == t0 + m0 - 1 && m0 - m == nsent - nsent0 == ReadyTurns(env, t0, t) == |delivered| - |delivered0|
    {
      hide Progress, WellFormed, Subs, Sent, Heard, InboxAfterAll, AskedAfterAll;
      m, nsent, t, delivered := m0, nsent0, t0, delivered0;
      var i := 1;
      while i < m
        invariant Valid() && Progress(SendCases(), m, all, delivered, missed, left)
        invariant 1 <= i <= m <= n && (t - t0) + (m - i) == m0 - 1
        invariant t0 <= t && m0 - m == nsent - nsent0 == ReadyTurns(env, t0, t) == |delivered| - |delivered0|
        invariant Sent(before, received, value, delivered) && Heard(all, start, inbox, leaving, left, env, t)
        decreases m - i
      {
        ghost var inbox0, waiting := inbox, leaving;
        SubsLeft(SendCases(), m, all, delivered, missed, left);
        Interfere(env(t).events);
        HeardMore(all, start, inbox0, inbox, waiting, leaving, left, Subs(SendCases()), env, t);
        if env(t).ready {
          delivered := Deliver(i, m, value, before, all, delivered, missed, left);
          nsent, m := nsent + 1, m - 1;
        } else {
          i := i + 1;
        }
        t := t + 1;
      }
    }

    /** Waits until an unsubscriber interrupts or some active case is ready. */
    method Select(m: nat, nsent: nat, value: Value, env: nat -> Turn, t: nat, ghost before: Received,
                  ghost start: Start,
                  ghost all: multiset<Chan>, ghost delivered: multiset<Chan>, ghost missed: multiset<Chan>, ghost left: multiset<Chan>)
      returns (m': nat, nsent': nat, ghost delivered': multiset<Chan>, ghost missed': multiset<Chan>, ghost left': multiset<Chan>)
      requires Valid() && 1 < m <= n && Progress(SendCases(), m, all, delivered, missed, left)
      requires Sent(before, received, value, delivered) && Heard(all, start, inbox, leaving, left, env, t)
      modifies `n, `inbox, `leaving, `received, cases
      ensures Valid() && 1 <= m' <= n && n + m' < old(n) + m && n <= old(n) && m' <= m
      ensures Progress(SendCases(), m', all, delivered', missed', left')
      ensures Sent(before, received, value, delivered') && Heard(all, start, inbox, leaving, left', env, t + 1)
      ensures nsent' - nsent == |delivered'| - |delivered|
      ensures if Leavers(all, start, env, t + 1) != left && env(t).interrupt
              then delivered' == delivered && exists c :: c in Leavers(all, start, env, t + 1) - left && left' == left + multiset{c}
              else left' == left && delivered' == delivered + multiset{old(cases[1 + env(t).pick % (m - 1)])}
    {
      hide Progress, WellFormed, Subs, Sent, InboxAfterAll, AskedAfterAll, Joined, Leavers;
      m', nsent', delivered', missed', left' := m, nsent, delivered, missed, left;
      ghost var inbox0, waiting := inbox, leaving;
      SubsLeft(SendCases(), m, all, delivered, missed, left);
      Interfere(env(t).events);
      HeardMore(all, start, inbox0, inbox, waiting, leaving, left, Subs(SendCases()), env, t);
      WaitingIsAsked(all, start, inbox, leaving, left, env, t + 1);
      if leaving != multiset{} && env(t).interrupt {
        var c :| c in leaving;
        assert c in Leavers(all, start, env, t + 1) - left;
        LeaverHeard(all, start, inbox, leaving, left, env, t + 1, c);
        m', missed' := TakeOut(c, m, all, delivered, missed, left);
        left' := left + multiset{c};
      } else {
        var chosen: nat := 1 + env(t).pick % (m - 1);
        delivered' := Deliver(chosen, m, value, before, all, delivered, missed, left);
        m', nsent' := m - 1, nsent + 1;
      }
      ProgressBounds(SendCases(), m', all, delivered', missed', left');
    }

    /** Tries all active cases and then, unless all are served, waits for one event. */
    method Round(m: nat, nsent: nat, value: Value, env: nat -> Turn, t: nat, ghost before: Received,
                 ghost start: Start,
                 ghost all: multiset<Chan>, ghost delivered: multiset<Chan>, ghost missed: multiset<Chan>, ghost left: multiset<Chan>)
      returns (done: bool, m': nat, nsent': nat, t': nat, ghost delivered': multiset<Chan>, ghost missed': multiset<Chan>, ghost left': multiset<Chan>)
      requires Valid() && 1 <= m <= n && Progress(SendCases(), m, all, delivered, missed, left)
      requires Sent(before, received, value, delivered) && Heard(all, start, inbox, leaving, left, env, t)
      modifies `n, `inbox, `leaving, `received, cases
      ensures Valid() && 1 <= m' <= n <= old(n) && Progress(SendCases(), m', all, delivered', missed', left')
      ensures Sent(before, received, value, delivered') && Heard(all, start, inbox, leaving, left', env, t')
      ensures nsent' - nsent == |delivered'| - |delivered|
      ensures if done then m' == 1 && t' < t + m else n + m' < old(n) + m && t' <= t + m
    {
      hide Progress, Valid, Subs, Sent, Heard, Leavers, ReadyTurns;
      missed', left' := missed, left;
      m', nsent', t', delivered' := FastPath(m, nsent, value, env, t, before, start, all, delivered, missed, left);
      done := m' == 1;
      if !done {
        m', nsent', delivered', missed', left' := Select(m', nsent', value, env, t', before, start, all, delivered', missed, left);
        t' := t' + 1;
      }
    }

    /** Rounds until nobody is unserved. */
    method Rounds(value: Value, env: nat -> Turn, ghost before: Received, ghost start: Start, ghost all: multiset<Chan>)
      returns (nsent: nat, turns: nat, ghost delivered: multiset<Chan>, ghost missed: multiset<Chan>, ghost left: multiset<Chan>)
      requires Valid() && 1 <= n && Progress(SendCases(), n, all, multiset{}, multiset{}, multiset{})
      requires Sent(before, received, value, multiset{}) && Heard(all, start, inbox, leaving, multiset{}, env, 0)
      modifies `n, `inbox, `leaving, `received, cases
      ensures Valid() && 1 <= n && Progress(SendCases(), 1, all, delivered, missed, left) && nsent == |delivered|
      ensures Sent(before, received, value, delivered) && Heard(all, start, inbox, leaving, left, env, turns)
      ensures turns < MostTurns(old(n) - 1)
    {
      hide Progress, WellFormed, Subs, Sent, Heard, MostTurns, Attempts;
      ghost var size, rounds := n, 0;
      OneMoreRound(0, n);
      nsent, turns, delivered, missed, left := 0, 0, multiset{}, multiset{}, multiset{};
      var m := n;
      while true
        invariant Valid() && 1 <= m <= n <= size
        invariant Progress(SendCases(), m, all, delivered, missed, left) && nsent == |delivered|
        invariant Sent(before, received, value, delivered) && Heard(all, start, inbox, leaving, left, env, turns)
        invariant rounds + n + m <= 2 * size && turns <= Attempts(rounds, size)
        decreases n + m
      {
        OneMoreRound(rounds, size);
        var done;
        done, m, nsent, turns, delivered, missed, left := Round(m, nsent, value, env, turns, before, start, all, delivered, missed, left);
        if done {
          LastRound(turns, rounds, size);
          break;
        }
        rounds := rounds + 1;
      }
    }

    /** Send once the inbox has been taken over. */
    method SendAll(value: Value, env: nat -> Turn)
      returns (nsent: nat, turns: nat, ghost missed: multiset<Chan>, ghost left: multiset<Chan>)
      requires Valid()
      modifies `n, `inbox, `leaving, `received, cases
      ensures Valid()
      ensures var all := old(Subs(SendCases()));
        && Sent(old(received), received, value, all - missed) && nsent == |all - missed|
        && missed <= left <= all && Subs(SendCases()) == all - left
        && Heard(all, Start(old(inbox), old(leaving)), inbox, leaving, left, env, turns)
        && turns < MostTurns(|all|)
    {
      assert |SendCases()| >= 1;
      hide Progress, WellFormed, Subs, Sent, Heard, MostTurns;
      ghost var all, start := Subs(SendCases()), Start(inbox, leaving);
      SubsSize(SendCases());
      ProgressStarts(SendCases());
      NothingSent(received, value);
      HeardNothing(all, start, env);
      ghost var delivered;
      nsent, turns, delivered, missed, left := Rounds(value, env, received, start, all);
      ProgressEnds(SendCases(), all, delivered, missed, left);
    }

    /**
     Delivers to every subscriber.  Whichever channels are ready and whoever
     unsubscribes meanwhile: each subscription is sent the value once, unless it
     had asked to leave and left before its turn; the result counts the deliveries;
     and Send ends within a number of attempts that depends on the subscribers only.
     If nobody asks to leave within those, everybody is served.  Whoever joined
     meanwhile and did not leave again is in the inbox, in the order of joining.
     */
    method Send(value: Value, env: nat -> Turn)
      returns (nsent: nat, turns: nat, ghost missed: multiset<Chan>, ghost left: multiset<Chan>)
      requires Valid()
      modifies this, cases
      ensures Valid()
      ensures var all := old(Subs(SendCases()) + multiset(inbox));
        && Sent(old(received), received, value, all - missed) && nsent == |all - missed|
        && missed <= left <= all && Subs(SendCases()) == all - left
        && leaving + left == Leavers(all, Start([], old(leaving)), env, turns) && inbox == Joined([], env, turns)
        && turns < MostTurns(|all|)
      ensures var all := old(Subs(SendCases()) + multiset(inbox));
        old(leaving) == Asked(env, MostTurns(|all|)) == multiset{} ==>
          Sent(old(received), received, value, all) && nsent == |all| && Subs(SendCases()) == all
    {
      ghost var all := Subs(SendCases()) + multiset(inbox);
      hide WellFormed, Subs, Sent, MostTurns, Joined, Leavers;
      TakeInbox();
      assert Subs(SendCases()) == all;
      nsent, turns, missed, left := SendAll(value, env);
      NobodyAsked(all, Start([], old(leaving)), inbox, leaving, left, env, turns, MostTurns(|all|));
      assert all - multiset{} == all;
    }
  }
}

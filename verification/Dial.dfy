/**
 The dial scheduler: which nodes to connect to next, given the peers that are
 connected, the dials under way and a history of recent dials.
 */
module Dialing {
  import opened Txs
  import opened Heaps

  type Id = nat
  type Time = int

  const SECOND: int := 1_000_000_000
  const DIAL_HISTORY_EXPIRATION: int := 30 * SECOND
  const FALLBACK_INTERVAL: int := 20 * SECOND

  datatype Node = Node(id: Id, ip: nat)

  datatype Task =
    | Dial(dest: Node, dynamic: bool)
    | Discover
    | WaitExpire(duration: int)

  // ---------- the history ----------

  datatype PastDial = PastDial(id: Id, exp: Time)

  /** The history as a map: each id once, with its expiry. */
  ghost predicate Records(hist: seq<PastDial>, past: map<Id, Time>) {
    forall d :: multiset(hist)[d] == if d.id in past && past[d.id] == d.exp then 1 else 0
  }

  /** What a record of each id once means: the ids in the history are distinct. */
  lemma HistoryIdsAreDistinct(hist: seq<PastDial>, past: map<Id, Time>, i: nat, j: nat)
    requires Records(hist, past) && i < j < |hist|
    ensures hist[i].id != hist[j].id
  {
    assert hist[i] in multiset(hist) && hist[j] in multiset(hist);
    TwiceCounted(hist, i, j);
  }

  lemma RecordedIsHeld(hist: seq<PastDial>, past: map<Id, Time>, id: Id)
    requires Records(hist, past)
    ensures id in past ==> exists i :: 0 <= i < |hist| && hist[i].id == id
  {
    if id in past {
      assert PastDial(id, past[id]) in multiset(hist);
    }
  }

  function Unexpired(past: map<Id, Time>, now: Time): map<Id, Time> {
    map id | id in past && past[id] >= now :: past[id]
  }

  class DialHistory {
    var hist: seq<PastDial>
    ghost var past: map<Id, Time>

    ghost predicate Valid()
      reads this
    {
      IsHeap(hist, (d: PastDial) => d.exp) && Records(hist, past)
    }

    constructor ()
      ensures Valid() && past == map[]
    {
      hist, past := [], map[];
    }

    method Add(id: Id, exp: Time)
      requires Valid() && id !in past
      modifies this
      ensures Valid() && past == old(past)[id := exp]
    {
      hist := Push(hist, (d: PastDial) => d.exp, PastDial(id, exp));
      past := past[id := exp];
    }

    method Remove(id: Id) returns (removed: bool)
      requires Valid()
      modifies this
      ensures Valid() && past == old(past) - {id}
      ensures removed <==> id in old(past)
    {
      for i := 0 to |hist|
        invariant forall j :: 0 <= j < i ==> hist[j].id != id
        invariant hist == old(hist) && past == old(past)
      {
        if hist[i].id == id {
          assert hist[i] in multiset(hist);
          var x;
          hist, x := Heaps.Remove(hist, (d: PastDial) => d.exp, i);
          past := past - {id};
          return true;
        }
      }
      RecordedIsHeld(hist, past, id);
      removed := false;
    }

    method Contains(id: Id) returns (r: bool)
      requires Valid()
      ensures r <==> id in past
    {
      for i := 0 to |hist|
        invariant forall j :: 0 <= j < i ==> hist[j].id != id
      {
        if hist[i].id == id {
          assert hist[i] in multiset(hist);
          return true;
        }
      }
      RecordedIsHeld(hist, past, id);
      r := false;
    }

    /** Forgets exactly the dials that expired before now. */
    method Expire(now: Time)
      requires Valid()
      modifies this
      ensures Valid() && past == Unexpired(old(past), now)
      ensures forall id :: id in past <==> id in old(past) && old(past)[id] >= now
    {
      while |hist| > 0 && hist[0].exp < now
        invariant Valid()
        invariant Unexpired(past, now) == Unexpired(old(past), now)
        decreases |hist|
      {
        assert hist[0] in multiset(hist);
        var x;
        hist, x := Pop(hist, (d: PastDial) => d.exp);
        past := past - {x.id};
      }
      forall id | id in past ensures past[id] >= now {
        assert PastDial(id, past[id]) in multiset(hist);
        var i :| 0 <= i < |hist| && hist[i] == PastDial(id, past[id]);
        RootIsLeast(hist, (d: PastDial) => d.exp, i);
      }
    }
  }

  // ---------- the scheduler ----------

  /** The ids that are marked dynamic. */
  function Dynamic(m: map<Id, bool>): set<Id> {
    set id | id in m && m[id]
  }

  function DialIds(tasks: seq<Task>): multiset<Id> {
    if tasks == [] then multiset{}
    else DialIds(tasks[..|tasks| - 1]) + if tasks[|tasks| - 1].Dial? then multiset{tasks[|tasks| - 1].dest.id} else multiset{}
  }

  function Lookups(tasks: seq<Task>): nat {
    if tasks == [] then 0 else Lookups(tasks[..|tasks| - 1]) + if tasks[|tasks| - 1].Discover? then 1 else 0
  }

  lemma OneMoreTask(tasks: seq<Task>, t: Task)
    ensures DialIds(tasks + [t]) == DialIds(tasks) + if t.Dial? then multiset{t.dest.id} else multiset{}
    ensures Lookups(tasks + [t]) == Lookups(tasks) + if t.Discover? then 1 else 0
  {
    assert (tasks + [t])[..|tasks|] == tasks;
  }

  datatype Refused = AlreadyDialing | AlreadyConnected | IsSelf | NotWhitelisted | RecentlyDialed

  function Why(dialing: bool, connected: bool, self: bool, foreign: bool, recent: bool): (r: Option<Refused>)
    ensures r.None? <==> !dialing && !connected && !self && !foreign && !recent
    ensures r == Some(IsSelf) || r == Some(NotWhitelisted) <==> !dialing && !connected && (self || foreign)
    ensures r == Some(RecentlyDialed) ==> recent
  {
    if dialing then Some(AlreadyDialing)
    else if connected then Some(AlreadyConnected)
    else if self then Some(IsSelf)
    else if foreign then Some(NotWhitelisted)
    else if recent then Some(RecentlyDialed)
    else None
  }

  /** Counts the ids marked dynamic, one by one. */
  method CountDynamic(m: map<Id, bool>) returns (n: nat)
    ensures n == |Dynamic(m)|
  {
    n := 0;
    var rest := m.Keys;
    ghost var seen: set<Id> := {};
    while rest != {}
      invariant rest <= m.Keys && seen == Dynamic(m) - rest && n == |seen|
      decreases |rest|
    {
      var id :| id in rest;
      if m[id] {
        n, seen := n + 1, seen + {id};
      }
      rest := rest - {id};
    }
    assert seen == Dynamic(m);
  }

  /** Each dial under way has been handed out once. */
  ghost predicate OneEach(inFlight: multiset<Id>, dialing: map<Id, bool>) {
    forall id :: inFlight[id] == if id in dialing then 1 else 0
  }

  lemma OneMoreEach(inFlight: multiset<Id>, dialing: map<Id, bool>, id: Id, dynamic: bool)
    requires OneEach(inFlight, dialing) && id !in dialing
    ensures OneEach(inFlight + multiset{id}, dialing[id := dynamic])
  {
  }

  lemma OneLessEach(inFlight: multiset<Id>, dialing: map<Id, bool>, id: Id)
    requires OneEach(inFlight, dialing) && id in inFlight
    ensures id in dialing && OneEach(inFlight - multiset{id}, dialing - {id})
  {
  }

  /** A dial done in the last thirty seconds is in the history, and what is in it was done, and when it says. */
  ghost predicate Remembered(past: map<Id, Time>, lastDone: map<Id, Time>, clock: Time) {
    && (forall id :: id in lastDone ==> id in past || lastDone[id] + DIAL_HISTORY_EXPIRATION < clock)
    && (forall id :: id in past ==> id in lastDone && past[id] == lastDone[id] + DIAL_HISTORY_EXPIRATION)
  }

  /** How many dynamic peers and dynamic dials there are together. */
  ghost function Taken(peers: map<Id, bool>, dialing: map<Id, bool>): nat {
    |Dynamic(peers) + Dynamic(dialing)|
  }

  ghost predicate Keyed(statics: map<Id, Node>) {
    forall id :: id in statics ==> statics[id].id == id
  }

  datatype Event =
    | Tick(nRunning: nat, random: seq<Node>, now: Time)
    | Done(task: Task, results: seq<Node>, now: Time)
    | StaticAdded(node: Node)
    | StaticRemoved(node: Node)
    | Connected(id: Id, dynamic: bool)
    | Disconnected(id: Id)

  /** The static dials of a list of nodes; a later node takes the place of an earlier one with its id. */
  function StaticTasks(nodes: seq<Node>): map<Id, Node> {
    if nodes == [] then map[] else
      var last := nodes[|nodes| - 1];
      StaticTasks(nodes[..|nodes| - 1])[last.id := last]
  }

  lemma {:induction false} LastStaticWins(nodes: seq<Node>, i: nat)
    requires i < |nodes|
    ensures nodes[i].id in StaticTasks(nodes)
    ensures (forall j :: i < j < |nodes| ==> nodes[j].id != nodes[i].id) ==> StaticTasks(nodes)[nodes[i].id] == nodes[i]
    decreases |nodes|
  {
    if i < |nodes| - 1 {
      LastStaticWins(nodes[..|nodes| - 1], i);
    }
  }

  lemma {:induction false} NoLookup(tasks: seq<Task>)
    ensures Lookups(tasks) == 0 ==> Discover !in tasks
    decreases |tasks|
  {
    if tasks != [] {
      NoLookup(tasks[..|tasks| - 1]);
      assert tasks == tasks[..|tasks| - 1] + [tasks[|tasks| - 1]];
    }
  }

  lemma NoTasks()
    ensures DialIds([]) == multiset{} && Lookups([]) == 0
  {
  }

  lemma OneMoreRemembered(past: map<Id, Time>, lastDone: map<Id, Time>, clock: Time, id: Id, now: Time)
    requires Remembered(past, lastDone, clock) && now >= clock
    ensures Remembered(past[id := now + DIAL_HISTORY_EXPIRATION], lastDone[id := now], now)
  {
  }

  lemma DynamicShrinks(m: map<Id, bool>, id: Id)
    ensures Dynamic(m - {id}) <= Dynamic(m)
  {
  }

  lemma StillRemembered(past: map<Id, Time>, lastDone: map<Id, Time>, clock: Time, now: Time)
    requires Remembered(past, lastDone, clock) && now >= clock
    ensures Remembered(Unexpired(past, now), lastDone, now)
  {
  }

  /** A time is the earliest expiry in the history. */
  ghost predicate Earliest(past: map<Id, Time>, t: Time) {
    (exists id :: id in past && past[id] == t) && forall id :: id in past ==> past[id] >= t
  }

  lemma HistoryLength(hist: seq<PastDial>, past: map<Id, Time>)
    requires Records(hist, past)
    ensures past != map[] <==> |hist| > 0
  {
    if |hist| > 0 {
      assert hist[0] in multiset(hist);
    } else if past != map[] {
      var id :| id in past;
      RecordedIsHeld(hist, past, id);
    }
  }

  lemma RootIsEarliest(hist: seq<PastDial>, past: map<Id, Time>)
    requires Records(hist, past) && IsHeap(hist, (d: PastDial) => d.exp) && |hist| > 0
    ensures Earliest(past, hist[0].exp)
  {
    assert hist[0] in multiset(hist);
    assert hist[0].id in past && past[hist[0].id] == hist[0].exp;
    forall id | id in past ensures past[id] >= hist[0].exp {
      assert PastDial(id, past[id]) in multiset(hist);
      var i :| 0 <= i < |hist| && hist[i] == PastDial(id, past[id]);
      RootIsLeast(hist, (d: PastDial) => d.exp, i);
    }
  }

  lemma DynamicGrows(m: map<Id, bool>, id: Id, dynamic: bool)
    requires id !in m
    ensures Dynamic(m[id := dynamic]) == Dynamic(m) + if dynamic then {id} else {}
  {
  }

  lemma NotDynamic(m: map<Id, bool>, id: Id)
    ensures id !in m ==> id !in Dynamic(m)
  {
  }

  lemma UnionGrows(p: set<Id>, d: set<Id>, id: Id)
    requires id !in p && id !in d
    ensures |p + (d + {id})| == |p + d| + 1
  {
    assert p + (d + {id}) == (p + d) + {id};
  }

  lemma TakenGrows(peers: map<Id, bool>, dialing: map<Id, bool>, id: Id, dynamic: bool)
    requires id !in peers && id !in dialing
    ensures Taken(peers, dialing[id := dynamic]) == Taken(peers, dialing) + if dynamic then 1 else 0
  {
    hide Dynamic;
    DynamicGrows(dialing, id, dynamic);
    NotDynamic(peers, id);
    NotDynamic(dialing, id);
    if dynamic {
      UnionGrows(Dynamic(peers), Dynamic(dialing), id);
    } else {
      assert Dynamic(dialing) + {} == Dynamic(dialing);
    }
  }

  lemma Subsets(s: set<Id>, t: set<Id>)
    requires s <= t
    ensures |s| <= |t|
  {
    assert t == s + (t - s);
  }

  /** Dropping ids from the dials or the peers never adds to what is taken. */
  lemma TakenShrinks(peers: map<Id, bool>, dialing: map<Id, bool>, peers': map<Id, bool>, dialing': map<Id, bool>)
    requires Dynamic(peers') + Dynamic(dialing') <= Dynamic(peers) + Dynamic(dialing)
    ensures Taken(peers', dialing') <= Taken(peers, dialing)
  {
    Subsets(Dynamic(peers') + Dynamic(dialing'), Dynamic(peers) + Dynamic(dialing));
  }

  /** The union is no more than the sum, so counting both kinds apart never leaves too much room. */
  lemma TakenAtMostSum(peers: map<Id, bool>, dialing: map<Id, bool>)
    ensures Taken(peers, dialing) <= |Dynamic(peers)| + |Dynamic(dialing)|
  {
    var p, d := Dynamic(peers), Dynamic(dialing);
    assert p + d == p + (d - p);
    Subsets(d - p, d);
  }

  class DialState {
    const maxDynDials: int
    const self: Id
    const netrestrict: Option<set<nat>>
    const hist: DialHistory
    var lookupRunning: bool
    var dialing: map<Id, bool>  // true for a dynamic dial, false for a static one
    var lookupBuf: seq<Node>
    var statics: map<Id, Node>
    var start: Option<Time>
    var bootnodes: seq<Node>
    var peers: map<Id, bool>  // the connected peers, true for those from a dynamic dial

    // What has happened so far, which the scheduler itself does not look at.
    var inFlight: multiset<Id>  // dials handed out and not reported done
    var lookups: nat  // lookups handed out and not reported done
    var lastDone: map<Id, Time>  // when the last dial to an id was done, since it was last removed
    var clock: Time

    ghost predicate Inv()
      reads `lookupRunning, `dialing, `statics, `peers, `inFlight, `lookups, `lastDone, `clock, hist
    {
      && hist.Valid()
      && OneEach(inFlight, dialing)
      && lookups == (if lookupRunning then 1 else 0)
      && self !in dialing
      && hist.past.Keys !! dialing.Keys
      && Keyed(statics)
      && Remembered(hist.past, lastDone, clock)
      && Taken(peers, dialing) <= if maxDynDials < 0 then 0 else maxDynDials
    }

    method AddStatic(n: Node)
      requires Inv()
      modifies `statics
      ensures Inv() && statics == old(statics)[n.id := n]
    {
      statics := statics[n.id := n];
    }

    method AddStatics(nodes: seq<Node>)
      requires Inv() && statics == map[]
      modifies `statics
      ensures Inv() && statics == StaticTasks(nodes)
    {
      hide Inv;
      for k := 0 to |nodes|
        invariant Inv() && statics == StaticTasks(nodes[..k])
      {
        assert nodes[..k + 1] == nodes[..k] + [nodes[k]];
        AddStatic(nodes[k]);
      }
      assert nodes[..|nodes|] == nodes;
    }

    constructor (self: Id, static': seq<Node>, bootnodes: seq<Node>, maxDynDials: int,
                 netrestrict: Option<set<nat>>, now: Time)
      ensures Inv() && fresh(hist) && dialing == map[] && peers == map[] && inFlight == multiset{}
      ensures statics == StaticTasks(static')
      ensures this.self == self && this.maxDynDials == maxDynDials && this.netrestrict == netrestrict
    {
      this.self, this.maxDynDials, this.netrestrict, this.bootnodes := self, maxDynDials, netrestrict, bootnodes;
      hist := new DialHistory();
      lookupRunning, dialing, lookupBuf, statics, start, peers := false, map[], [], map[], None, map[];
      inFlight, lookups, lastDone, clock := multiset{}, 0, map[], now;
      new;
      assert Dynamic(map[]) + Dynamic(map[]) == {};
      AddStatics(static');
    }

    /** Why a node may not be dialed now, if so; the order of the tests is the source's. */
    ghost function Refusal(n: Node): Option<Refused>
      reads this, hist
    {
      Why(n.id in dialing, n.id in peers, n.id == self, netrestrict.Some? && n.ip !in netrestrict.value, n.id in hist.past)
    }

    method CheckDial(n: Node) returns (r: Option<Refused>)
      requires hist.Valid()
      ensures r == Refusal(n)
    {
      if n.id in dialing {
        return Some(AlreadyDialing);
      } else if n.id in peers {
        return Some(AlreadyConnected);
      } else if n.id == self {
        return Some(IsSelf);
      } else if netrestrict.Some? && n.ip !in netrestrict.value {
        return Some(NotWhitelisted);
      }
      var recent := hist.Contains(n.id);
      r := if recent then Some(RecentlyDialed) else None;
    }

    // ---------- one round of scheduling ----------

    /** A dial that may be handed out in a round that began with the given dials under way. */
    ghost predicate Permitted(t: Task, before: map<Id, bool>)
      reads `peers, hist
    {
      t.Dial? ==>
        && t.dest.id !in before && t.dest.id !in peers && t.dest.id != self && t.dest.id !in hist.past
        && (netrestrict.None? || t.dest.ip in netrestrict.value)
    }

    /** What holds throughout a round: the tasks so far account for what is newly in flight, and were permitted. */
    ghost predicate Round(tasks: seq<Task>, before: map<Id, bool>, flying: multiset<Id>)
      reads `lookupRunning, `dialing, `statics, `peers, `inFlight, `lookups, `lastDone, `clock, hist
    {
      && Inv()
      && inFlight == flying + DialIds(tasks)
      && before.Keys <= dialing.Keys
      && forall i :: 0 <= i < |tasks| ==> Permitted(tasks[i], before)
    }

    predicate Foreign(n: Node) {
      netrestrict.Some? && n.ip !in netrestrict.value
    }

    /** A candidate has been seen to: it is being dialed, or may not be dialed now. */
    ghost predicate SeenTo(n: Node)
      reads `dialing, `peers, hist
    {
      n.id in dialing || n.id in peers || n.id == self || Foreign(n) || n.id in hist.past
    }

    /** The free places for dynamic dials, which may come out negative. */
    ghost function Room(): int
      reads `dialing, `peers
    {
      maxDynDials - |Dynamic(peers)| - |Dynamic(dialing)|
    }

    /**
     After a round a static node is forgotten exactly if it is this node or outside the
     network, and neither connected nor being dialed before.
     */
    ghost predicate StaticDone(id: Id, was: map<Id, Node>, busy: bool)
      requires id in was
      reads `statics, `peers
    {
      && (id in statics <==> busy || id in peers || (id != self && !Foreign(was[id])))
      && (id in statics ==> statics[id] == was[id])
    }

    /** Hands out a dial if the node may be dialed. */
    method AddDial(dynamic: bool, n: Node, tasks: seq<Task>, ghost before: map<Id, bool>, ghost flying: multiset<Id>)
      returns (added: bool, tasks': seq<Task>)
      requires Round(tasks, before, flying) && (dynamic ==> Taken(peers, dialing) < maxDynDials)
      modifies `dialing, `inFlight
      ensures Round(tasks', before, flying)
      ensures added <==> old(Refusal(n)) == None
      ensures added ==> dialing == old(dialing)[n.id := dynamic] && tasks' == tasks + [Dial(n, dynamic)]
      ensures !added ==> dialing == old(dialing) && inFlight == old(inFlight) && tasks' == tasks
      ensures Taken(peers, dialing) == old(Taken(peers, dialing)) + if added && dynamic then 1 else 0
      ensures Lookups(tasks') == Lookups(tasks)
      ensures SeenTo(n) && Room() == old(Room()) - if added && dynamic then 1 else 0
      ensures !dynamic ==> Dynamic(dialing) == old(Dynamic(dialing))
    {
      hide OneEach, Keyed, Remembered, Taken, DialIds, Lookups, Records, IsHeap;
      var refused := CheckDial(n);
      if refused.Some? {
        return false, tasks;
      }
      OneMoreEach(inFlight, dialing, n.id, dynamic);
      DynamicGrows(dialing, n.id, dynamic);
      TakenGrows(peers, dialing, n.id, dynamic);
      OneMoreTask(tasks, Dial(n, dynamic));
      dialing := dialing[n.id := dynamic];
      inFlight := inFlight + multiset{n.id};
      added, tasks' := true, tasks + [Dial(n, dynamic)];
    }

    /** Dials a static node that may be dialed, or forgets it if it never may. */
    method DialStatic(id: Id, tasks: seq<Task>, ghost before: map<Id, bool>, ghost flying: multiset<Id>)
      returns (tasks': seq<Task>)
      requires Round(tasks, before, flying) && id in statics
      modifies `dialing, `inFlight, `statics
      ensures Round(tasks', before, flying) && Keyed(statics)
      ensures Taken(peers, dialing) == old(Taken(peers, dialing)) && Lookups(tasks') == Lookups(tasks)
      ensures var why := old(Refusal(statics[id]));
        && statics == (if why == Some(IsSelf) || why == Some(NotWhitelisted) then old(statics) - {id} else old(statics))
        && dialing == (if why == None then old(dialing)[id := false] else old(dialing))
      ensures StaticDone(id, old(statics), id in old(dialing))
      ensures id in statics ==> id in dialing || id in peers || id in hist.past
      ensures Dynamic(dialing) == old(Dynamic(dialing))
    {
      hide OneEach, Remembered, Taken, DialIds, Lookups, Records, IsHeap;
      var why := CheckDial(statics[id]);
      tasks' := tasks;
      if why == Some(IsSelf) || why == Some(NotWhitelisted) {
        statics := statics - {id};
      } else if why == None {
        var added;
        added, tasks' := AddDial(false, statics[id], tasks, before, flying);
      }
    }

    /** Every static node kept is being dialed, is connected, or was dialed recently. */
    ghost predicate StaticsLookedAfter()
      reads `statics, `dialing, `peers, hist
    {
      forall id :: id in statics ==> id in dialing || id in peers || id in hist.past
    }

    /** Goes through the static nodes, in any order. */
    method DialStatics(ghost before: map<Id, bool>, ghost flying: multiset<Id>) returns (tasks: seq<Task>)
      requires Round([], before, flying) && Keyed(statics)
      modifies `dialing, `inFlight, `statics
      ensures Round(tasks, before, flying)
      ensures Taken(peers, dialing) == old(Taken(peers, dialing)) && Lookups(tasks) == Lookups([])
      ensures forall id :: id in old(statics) ==> StaticDone(id, old(statics), id in old(dialing))
      ensures StaticsLookedAfter() && Room() == old(Room()) && old(dialing).Keys <= dialing.Keys
    {
      hide Round, Taken, Why, Lookups, Dynamic;
      tasks := [];
      var rest := statics.Keys;
      while rest != {}
        invariant Round(tasks, before, flying) && Keyed(statics)
        invariant Taken(peers, dialing) == old(Taken(peers, dialing)) && Lookups(tasks) == Lookups([])
        invariant rest <= statics.Keys <= old(statics).Keys
        invariant forall id :: id in rest ==> statics[id] == old(statics)[id] && (id in dialing <==> id in old(dialing))
        invariant forall id :: id in statics && id !in rest ==> id in dialing || id in peers || id in hist.past
        invariant forall id :: id in old(statics) && id !in rest ==> StaticDone(id, old(statics), id in old(dialing))
        invariant Dynamic(dialing) == old(Dynamic(dialing)) && old(dialing).Keys <= dialing.Keys
        decreases |rest|
      {
        var id :| id in rest;
        tasks := DialStatic(id, tasks, before, flying);
        rest := rest - {id};
      }
    }

    /** With no peers at all for a while, dials the next boot node, if there is room. */
    method Fallback(now: Time, need0: int, tasks: seq<Task>, ghost before: map<Id, bool>, ghost flying: multiset<Id>)
      returns (need: int, tasks': seq<Task>)
      requires Round(tasks, before, flying) && start.Some? && need0 + Taken(peers, dialing) <= maxDynDials
      modifies `dialing, `inFlight, `bootnodes
      ensures Round(tasks', before, flying) && need + Taken(peers, dialing) <= maxDynDials
      ensures dialing.Keys >= old(dialing).Keys && Lookups(tasks') == Lookups(tasks)
      ensures bootnodes == if peers == map[] && |old(bootnodes)| > 0 && need0 > 0 && now - start.value > FALLBACK_INTERVAL
                           then old(bootnodes)[1..] + [old(bootnodes)[0]] else old(bootnodes)
      ensures peers == map[] && |old(bootnodes)| > 0 && need0 > 0 && now - start.value > FALLBACK_INTERVAL ==>
        SeenTo(old(bootnodes)[0])
      ensures need - Room() == need0 - old(Room()) && need0 - 1 <= need <= need0
    {
      hide OneEach, Remembered, Taken, DialIds, Lookups, Records, IsHeap, Keyed;
      need, tasks' := need0, tasks;
      if peers == map[] && |bootnodes| > 0 && need > 0 && now - start.value > FALLBACK_INTERVAL {
        var bootnode := bootnodes[0];
        bootnodes := bootnodes[1..] + [bootnode];
        var added;
        added, tasks' := AddDial(true, bootnode, tasks, before, flying);
        if added {
          need := need - 1;
        }
      }
    }

    /** Dials nodes of a list while there is room, at most a given number of them. */
    method DialSome(nodes: seq<Node>, most: int, need0: int, tasks: seq<Task>, ghost before: map<Id, bool>,
                    ghost flying: multiset<Id>)
      returns (tried: nat, need: int, tasks': seq<Task>)
      requires Round(tasks, before, flying) && need0 + Taken(peers, dialing) <= maxDynDials
      requires most <= need0 || most >= |nodes|
      modifies `dialing, `inFlight
      ensures Round(tasks', before, flying) && need + Taken(peers, dialing) <= maxDynDials
      ensures dialing.Keys >= old(dialing).Keys && Lookups(tasks') == Lookups(tasks)
      ensures tried <= |nodes| && need0 - tried <= need <= need0
      ensures tried < |nodes| ==> tried >= most || need <= 0
      ensures forall i :: 0 <= i < tried ==> SeenTo(nodes[i])
      ensures need - Room() == need0 - old(Room())
      ensures forall id :: id in dialing && id !in old(dialing) ==> exists i :: 0 <= i < tried && nodes[i].id == id
    {
      hide Round, Taken, Dynamic;
      tried, need, tasks' := 0, need0, tasks;
      while tried < |nodes| && tried < most && need > 0
        invariant Round(tasks', before, flying) && need + Taken(peers, dialing) <= maxDynDials
        invariant dialing.Keys >= old(dialing).Keys && Lookups(tasks') == Lookups(tasks)
        invariant tried <= |nodes| && need0 - tried <= need <= need0
        invariant forall i :: 0 <= i < tried ==> SeenTo(nodes[i])
        invariant need - Room() == need0 - old(Room())
        invariant forall id :: id in dialing && id !in old(dialing) ==> exists i :: 0 <= i < tried && nodes[i].id == id
      {
        var added;
        added, tasks' := AddDial(true, nodes[tried], tasks', before, flying);
        if added {
          need := need - 1;
        }
        tried := tried + 1;
      }
    }

    /** The clock moves on: the history drops what has expired. */
    method BeginRound(now: Time)
      requires Inv() && now >= clock
      modifies `start, `clock, hist
      ensures Inv() && clock == now
      ensures start == Some(if old(start).Some? then old(start).value else now)
      ensures hist.past == Unexpired(old(hist.past), now)
      ensures Round([], dialing, inFlight) && Keyed(statics)
    {
      hide OneEach, Taken, Records, IsHeap, Keyed;
      if start.None? {
        start := Some(now);
      }
      ghost var past := hist.past;
      hist.Expire(now);
      StillRemembered(past, lastDone, clock, now);
      clock := now;
      assert inFlight == inFlight + DialIds([]);
    }

    /** How many dynamic dials to make, which may come out negative. */
    method NeedDynDials() returns (need: int)
      ensures need == maxDynDials - |Dynamic(peers)| - |Dynamic(dialing)| == Room()
      ensures need + Taken(peers, dialing) <= maxDynDials
    {
      var connected := CountDynamic(peers);
      var dials := CountDynamic(dialing);
      TakenAtMostSum(peers, dialing);
      need := maxDynDials - connected - dials;
    }

    /** Dials for the free places: the boot node, random nodes for half of them, then lookup results. */
    method DialDynamic(random: seq<Node>, now: Time, need0: int, tasks: seq<Task>, ghost before: map<Id, bool>,
                       ghost flying: multiset<Id>)
      returns (need: int, tasks': seq<Task>, ghost tried: nat)
      requires Round(tasks, before, flying) && start.Some? && need0 + Taken(peers, dialing) <= maxDynDials && need0 == Room()
      modifies `dialing, `inFlight, `bootnodes, `lookupBuf
      ensures Round(tasks', before, flying) && need == Room()
      ensures dialing.Keys >= old(dialing).Keys && Lookups(tasks') == Lookups(tasks)
      ensures peers == map[] && |old(bootnodes)| > 0 && need0 > 0 && now - start.value > FALLBACK_INTERVAL ==>
        SeenTo(old(bootnodes)[0])
      ensures forall i :: 0 <= i < |random| && i < (need0 - 1) / 2 ==> SeenTo(random[i])
      ensures tried <= |old(lookupBuf)| && lookupBuf == old(lookupBuf)[tried..] && (lookupBuf != [] ==> Room() <= 0)
      ensures forall i :: 0 <= i < tried ==> SeenTo(old(lookupBuf)[i])
    {
      hide Round, Inv, Taken, Lookups, Dynamic, Room;
      need, tasks' := Fallback(now, need0, tasks, before, flying);
      var count;
      if need > 1 {
        count, need, tasks' := DialSome(random, need / 2, need, tasks', before, flying);
      }
      count, need, tasks' := DialSome(lookupBuf, |lookupBuf|, need, tasks', before, flying);
      lookupBuf := lookupBuf[count..];
      tried := count;
    }

    /** Starts a lookup if more candidates are needed, or else a timer if nothing else will wake the scheduler. */
    method EndRound(nRunning: nat, now: Time, need: int, tasks: seq<Task>, ghost before: map<Id, bool>,
                    ghost flying: multiset<Id>)
      returns (tasks': seq<Task>)
      requires Round(tasks, before, flying)
      modifies `lookupRunning, `lookups
      ensures Round(tasks', before, flying) && lookups - old(lookups) == Lookups(tasks') - Lookups(tasks)
      ensures |lookupBuf| < need && !old(lookupRunning) ==> tasks' == tasks + [Discover]
      ensures !(|lookupBuf| < need && !old(lookupRunning)) ==>
        if nRunning == 0 && tasks == [] && hist.past != map[]
        then |tasks'| == 1 && tasks'[0].WaitExpire? && Earliest(hist.past, now + tasks'[0].duration)
        else tasks' == tasks
    {
      hide OneEach, Taken, Remembered, IsHeap, Keyed, DialIds, Lookups, Records;
      tasks' := tasks;
      if |lookupBuf| < need && !lookupRunning {
        lookupRunning, lookups := true, lookups + 1;
        OneMoreTask(tasks, Discover);
        tasks' := tasks + [Discover];
      }
      HistoryLength(hist.hist, hist.past);
      if nRunning == 0 && |tasks'| == 0 && |hist.hist| > 0 {
        RootIsEarliest(hist.hist, hist.past);
        OneMoreTask(tasks, WaitExpire(hist.hist[0].exp - now));
        tasks' := tasks' + [WaitExpire(hist.hist[0].exp - now)];
      }
    }

    ghost predicate MayDial(n: Node, before: map<Id, bool>, now: Time)
      reads this
    {
      && n.id !in before && n.id !in peers && n.id != self
      && (netrestrict.None? || n.ip in netrestrict.value)
      && (n.id in lastDone ==> now - lastDone[n.id] > 30_000_000_000)
    }

    lemma RoundIsSound(tasks: seq<Task>, before: map<Id, bool>, flying: multiset<Id>)
      requires Round(tasks, before, flying)
      ensures Inv() && inFlight == flying + DialIds(tasks)
      ensures forall i :: 0 <= i < |tasks| && tasks[i].Dial? ==> MayDial(tasks[i].dest, before, clock)
    {
      hide OneEach, Taken, Records, IsHeap, Keyed, DialIds;
      forall i | 0 <= i < |tasks| && tasks[i].Dial? ensures MayDial(tasks[i].dest, before, clock) {
        assert Permitted(tasks[i], before);
      }
    }

    /** The dials of a round, to static nodes and then to candidates for the room there was before. */
    method PlanDials(random: seq<Node>, now: Time) returns (need: int, tasks: seq<Task>, ghost tried: nat)
      requires Round([], dialing, inFlight) && Keyed(statics) && start.Some?
      modifies `dialing, `inFlight, `statics, `bootnodes, `lookupBuf
      ensures Round(tasks, old(dialing), old(inFlight)) && need == Room() && Lookups(tasks) == 0
      ensures StaticsLookedAfter()
      ensures forall id :: id in old(statics) ==> StaticDone(id, old(statics), id in old(dialing))
      ensures tried <= |old(lookupBuf)| && lookupBuf == old(lookupBuf)[tried..] && (lookupBuf != [] ==> Room() <= 0)
      ensures forall i :: 0 <= i < tried ==> SeenTo(old(lookupBuf)[i])
      ensures forall i :: 0 <= i < |random| && i < (old(Room()) - 1) / 2 ==> SeenTo(random[i])
      ensures peers == map[] && |old(bootnodes)| > 0 && old(Room()) > 0 && now - start.value > FALLBACK_INTERVAL ==>
        SeenTo(old(bootnodes)[0])
    {
      hide Inv, Round, Taken, Keyed, DialIds, Lookups, Dynamic, SeenTo, StaticDone;
      ghost var before, flying := dialing, inFlight;
      need := NeedDynDials();
      NoTasks();
      tasks := DialStatics(before, flying);
      need, tasks, tried := DialDynamic(random, now, need, tasks, before, flying);
    }

    /**
     One round: every dial handed out is new, to a node that is not this one, not
     connected and not dialed in the last thirty seconds.  And every candidate is seen
     to while there is room: the boot node after a while without peers, random nodes
     for half the room, and the lookup results, of which some stay only without room.
     */
    method NewTasks(nRunning: nat, random: seq<Node>, now: Time) returns (tasks: seq<Task>, ghost tried: nat)
      requires Inv() && now >= clock
      modifies this, hist
      ensures Inv() && clock == now && peers == old(peers) && lastDone == old(lastDone)
      ensures inFlight == old(inFlight) + DialIds(tasks) && lookups == old(lookups) + Lookups(tasks)
      ensures forall i :: 0 <= i < |tasks| && tasks[i].Dial? ==> MayDial(tasks[i].dest, old(dialing), now)
      ensures StaticsLookedAfter()
      ensures forall id :: id in old(statics) ==> StaticDone(id, old(statics), id in old(dialing))
      ensures tried <= |old(lookupBuf)| && lookupBuf == old(lookupBuf)[tried..] && (lookupBuf != [] ==> Room() <= 0)
      ensures forall i :: 0 <= i < tried ==> SeenTo(old(lookupBuf)[i])
      ensures forall i :: 0 <= i < |random| && i < (old(Room()) - 1) / 2 ==> SeenTo(random[i])
      ensures peers == map[] && |old(bootnodes)| > 0 && old(Room()) > 0 && start.Some? && now - start.value > 20_000_000_000 ==>
        SeenTo(old(bootnodes)[0])
      ensures Discover in tasks <==> |lookupBuf| < Room() && !old(lookupRunning)
    {
      hide Inv, Round, Taken, Keyed, DialIds, Lookups, MayDial, Dynamic, SeenTo, StaticDone, Unexpired;
      hide StaticsLookedAfter, Room;
      BeginRound(now);
      ghost var before, flying := dialing, inFlight;
      var need;
      need, tasks, tried := PlanDials(random, now);
      NoLookup(tasks);
      tasks := EndRound(nRunning, now, need, tasks, before, flying);
      RoundIsSound(tasks, before, flying);
    }

    // ---------- what happens between rounds ----------

    method DialDone(id: Id, now: Time)
      requires Inv() && now >= clock && id in inFlight
      modifies `dialing, `inFlight, `lastDone, `clock, hist
      ensures Inv() && clock == now
      ensures inFlight == old(inFlight) - multiset{id} && lastDone == old(lastDone)[id := now]
    {
      hide OneEach, Taken, Records, IsHeap, Keyed, Remembered, Dynamic;
      OneLessEach(inFlight, dialing, id);
      ghost var past := hist.past;
      DynamicShrinks(dialing, id);
      TakenShrinks(peers, dialing, peers, dialing - {id});
      hist.Add(id, now + DIAL_HISTORY_EXPIRATION);
      OneMoreRemembered(past, lastDone, clock, id, now);
      dialing, inFlight := dialing - {id}, inFlight - multiset{id};
      lastDone, clock := lastDone[id := now], now;
    }

    method LookupDone(results: seq<Node>, now: Time)
      requires Inv() && now >= clock && lookups > 0
      modifies `lookupRunning, `lookups, `lookupBuf, `clock
      ensures Inv() && clock == now
      ensures lookups == old(lookups) - 1 && lookupBuf == old(lookupBuf) + results
    {
      hide OneEach, Taken, Records, IsHeap, Keyed;
      lookupRunning, lookups, lookupBuf := false, lookups - 1, lookupBuf + results;
      clock := now;
    }

    method Advance(now: Time)
      requires Inv() && now >= clock
      modifies `clock
      ensures Inv() && clock == now
    {
      hide OneEach, Taken, Records, IsHeap, Keyed;
      clock := now;
    }

    /** A task is reported done; a dial goes into the history. */
    method TaskDone(t: Task, results: seq<Node>, now: Time)
      requires Inv() && now >= clock
      requires t.Dial? ==> t.dest.id in inFlight
      requires t.Discover? ==> lookups > 0
      modifies this, hist
      ensures Inv() && clock == now && peers == old(peers) && statics == old(statics)
      ensures t.Dial? ==> inFlight == old(inFlight) - multiset{t.dest.id} && lastDone == old(lastDone)[t.dest.id := now]
      ensures t.Discover? ==> lookups == old(lookups) - 1 && lookupBuf == old(lookupBuf) + results
      ensures !t.Dial? ==> inFlight == old(inFlight) && dialing == old(dialing) && lastDone == old(lastDone)
      ensures !t.Discover? ==> lookups == old(lookups) && lookupBuf == old(lookupBuf)
    {
      hide Inv;
      match t
      case Dial(dest, _) => DialDone(dest.id, now);
      case Discover => LookupDone(results, now);
      case WaitExpire(_) => Advance(now);
    }

    /** Also forgets when the node was last dialed, so that it can be dialed again at once. */
    method RemoveStatic(n: Node)
      requires Inv()
      modifies `statics, `lastDone, hist
      ensures Inv() && statics == old(statics) - {n.id} && lastDone == old(lastDone) - {n.id}
      ensures hist.past == old(hist.past) - {n.id}
    {
      hide OneEach, Taken, Records, IsHeap;
      statics, lastDone := statics - {n.id}, lastDone - {n.id};
      var removed := hist.Remove(n.id);
    }

    /** A peer connects; one that counts as dynamic comes from a dynamic dial still under way. */
    method AddPeer(id: Id, dynamic: bool)
      requires Inv() && id !in peers && (dynamic ==> id in dialing && dialing[id])
      modifies `peers
      ensures Inv() && peers == old(peers)[id := dynamic]
    {
      hide OneEach, Taken, Records, IsHeap, Remembered, Keyed;
      assert Dynamic(peers[id := dynamic]) + Dynamic(dialing) <= Dynamic(peers) + Dynamic(dialing);
      TakenShrinks(peers, dialing, peers[id := dynamic], dialing);
      peers := peers[id := dynamic];
    }

    method RemovePeer(id: Id)
      requires Inv()
      modifies `peers
      ensures Inv() && peers == old(peers) - {id}
    {
      hide OneEach, Taken, Records, IsHeap, Remembered, Keyed;
      TakenShrinks(peers, dialing, peers - {id}, dialing);
      peers := peers - {id};
    }

    /** Any event of the server's loop; one that cannot happen now is skipped. */
    method Step(e: Event) returns (tasks: seq<Task>)
      requires Inv()
      modifies this, hist
      ensures Inv()
      ensures e.Tick? && e.now >= old(clock) ==> clock == e.now && StaticsLookedAfter()
      ensures e.Done? && e.task.Dial? && e.now >= old(clock) && e.task.dest.id in old(inFlight) ==>
        inFlight == old(inFlight) - multiset{e.task.dest.id} && lastDone == old(lastDone)[e.task.dest.id := e.now]
      ensures e.Done? && e.task.Discover? && e.now >= old(clock) && old(lookups) > 0 ==>
        lookups == old(lookups) - 1 && lookupBuf == old(lookupBuf) + e.results
      ensures e.StaticAdded? ==> statics == old(statics)[e.node.id := e.node]
      ensures e.StaticRemoved? ==> statics == old(statics) - {e.node.id}
      ensures e.Connected? ==>
        var may := e.id !in old(peers) && (e.dynamic ==> e.id in old(dialing) && old(dialing)[e.id]);
        peers == if may then old(peers)[e.id := e.dynamic] else old(peers)
      ensures e.Disconnected? ==> peers == old(peers) - {e.id}
    {
      hide Inv, StaticsLookedAfter;
      tasks := [];
      match e
      case Tick(nRunning, random, now) =>
        if now >= clock {
          ghost var tried;
          tasks, tried := NewTasks(nRunning, random, now);
        }
      case Done(t, results, now) =>
        if now >= clock && (t.Dial? ==> t.dest.id in inFlight) && (t.Discover? ==> lookups > 0) {
          TaskDone(t, results, now);
        }
      case StaticAdded(n) => AddStatic(n);
      case StaticRemoved(n) => RemoveStatic(n);
      case Connected(id, dynamic) =>
        if id !in peers && (dynamic ==> id in dialing && dialing[id]) {
          AddPeer(id, dynamic);
        }
      case Disconnected(id) => RemovePeer(id);
    }

    /** The limits hold after every run. */
    method Run(events: seq<Event>)
      requires Inv()
      modifies this, hist
      ensures Inv()
    {
      hide Inv;
      for i := 0 to |events|
        invariant Inv()
      {
        var tasks := Step(events[i]);
      }
    }
  }
}

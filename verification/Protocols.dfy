/**
 Which subprotocols two peers run over one connection, and at which message codes.
 Each end works this out for itself from its own protocols and the other's
 capabilities, and the two must come to the same answer.
 */
module Protocols {
  import opened Txs

  const BASE_PROTOCOL_LENGTH := 16

  datatype Cap = Cap(name: string, version: nat)

  datatype Protocol = Protocol(name: string, version: nat, length: uint64)

  // ---------- the order of capabilities ----------

  /** Strings in lexicographic order. */
  predicate Below(a: string, b: string) {
    b != [] && (a == [] || a[0] < b[0] || (a[0] == b[0] && Below(a[1..], b[1..])))
  }

  lemma {:induction false} BelowIsStrict(a: string, b: string)
    ensures Below(a, b) ==> a != b && !Below(b, a)
    decreases |a|
  {
    if a != [] && b != [] && a[0] == b[0] {
      BelowIsStrict(a[1..], b[1..]);
    }
  }

  lemma {:induction false} BelowIsTotal(a: string, b: string)
    ensures a == b || Below(a, b) || Below(b, a)
    decreases |a|
  {
    if a != [] && b != [] && a[0] == b[0] {
      BelowIsTotal(a[1..], b[1..]);
      assert a == [a[0]] + a[1..] && b == [b[0]] + b[1..];
    }
  }

  lemma {:induction false} BelowIsTransitive(a: string, b: string, c: string)
    requires Below(a, b) && Below(b, c)
    ensures Below(a, c)
    decreases |a|
  {
    if a != [] && a[0] == b[0] == c[0] {
      BelowIsTransitive(a[1..], b[1..], c[1..]);
    }
  }

  predicate Less(a: Cap, b: Cap) {
    Below(a.name, b.name) || (a.name == b.name && a.version < b.version)
  }

  lemma NotLessIsTransitive(a: Cap, b: Cap, c: Cap)
    requires !Less(b, a) && !Less(c, b)
    ensures !Less(c, a)
  {
    BelowIsTotal(a.name, b.name);
    BelowIsTotal(b.name, c.name);
    if Below(a.name, b.name) && Below(b.name, c.name) {
      BelowIsTransitive(a.name, b.name, c.name);
    }
    BelowIsStrict(a.name, c.name);
  }

  ghost predicate Sorted(caps: seq<Cap>) {
    forall i, j :: 0 <= i < j < |caps| ==> !Less(caps[j], caps[i])
  }

  function Insert(caps: seq<Cap>, c: Cap): seq<Cap> {
    if caps == [] then [c]
    else if Less(c, caps[0]) then [c] + caps
    else [caps[0]] + Insert(caps[1..], c)
  }

  lemma {:induction false} InsertHolds(caps: seq<Cap>, c: Cap)
    ensures multiset(Insert(caps, c)) == multiset(caps) + multiset{c}
    decreases |caps|
  {
    if caps != [] {
      assert caps == [caps[0]] + caps[1..];
      InsertHolds(caps[1..], c);
    }
  }

  lemma {:induction false} InsertSorts(caps: seq<Cap>, c: Cap)
    requires Sorted(caps)
    ensures Sorted(Insert(caps, c))
    decreases |caps|
  {
    if caps != [] {
      if Less(c, caps[0]) {
        BelowIsStrict(c.name, caps[0].name);
        forall j | 0 <= j < |caps| ensures !Less(caps[j], c) {
          if j > 0 {
            NotLessIsTransitive(c, caps[0], caps[j]);
          }
        }
      } else {
        var rest := Insert(caps[1..], c);
        InsertSorts(caps[1..], c);
        InsertHolds(caps[1..], c);
        forall j | 0 <= j < |rest| ensures !Less(rest[j], caps[0]) {
          assert rest[j] in multiset(rest);
        }
      }
    }
  }

  method Sort(caps: seq<Cap>) returns (sorted: seq<Cap>)
    ensures Sorted(sorted) && multiset(sorted) == multiset(caps)
  {
    sorted := [];
    for i := 0 to |caps|
      invariant Sorted(sorted) && multiset(sorted) == multiset(caps[..i])
    {
      assert caps[..i + 1] == caps[..i] + [caps[i]];
      InsertHolds(sorted, caps[i]);
      InsertSorts(sorted, caps[i]);
      sorted := Insert(sorted, caps[i]);
    }
    assert caps[..|caps|] == caps;
  }

  // ---------- what the two ends should agree on ----------

  /** The first protocol of that name and version. */
  function First(protocols: seq<Protocol>, c: Cap): (r: Option<Protocol>)
    ensures r.Some? ==> r.value in protocols && r.value.name == c.name && r.value.version == c.version
    ensures r.None? ==> forall p :: p in protocols ==> p.name != c.name || p.version != c.version
  {
    if protocols == [] then None
    else if protocols[0].name == c.name && protocols[0].version == c.version then Some(protocols[0])
    else First(protocols[1..], c)
  }

  /** Both ends have that version of the protocol. */
  predicate Shared(protocols: seq<Protocol>, caps: set<Cap>, c: Cap) {
    c in caps && First(protocols, c).Some?
  }

  datatype Entry = Entry(name: string, version: nat, length: uint64)

  ghost predicate Ascending(es: seq<Entry>) {
    forall i, j :: 0 <= i < j < |es| ==> Below(es[i].name, es[j].name)
  }

  /** An entry is the highest shared version under its name. */
  ghost predicate Highest(protocols: seq<Protocol>, caps: set<Cap>, e: Entry) {
    && Shared(protocols, caps, Cap(e.name, e.version))
    && e.length == First(protocols, Cap(e.name, e.version)).value.length
    && forall v: nat :: Shared(protocols, caps, Cap(e.name, v)) ==> v <= e.version
  }

  ghost predicate Listed(es: seq<Entry>, name: string) {
    exists k :: 0 <= k < |es| && es[k].name == name
  }

  /** The protocols to run: for every shared name, in order of names, its highest shared version. */
  ghost predicate Agreed(protocols: seq<Protocol>, caps: set<Cap>, es: seq<Entry>) {
    && Ascending(es)
    && (forall k :: 0 <= k < |es| ==> Highest(protocols, caps, es[k]))
    && (forall c :: Shared(protocols, caps, c) ==> Listed(es, c.name))
  }

  /** Where the k-th protocol's codes begin: after the base protocol and all protocols before it. */
  function Offset(es: seq<Entry>, k: nat): nat
    requires k <= |es|
  {
    if k == 0 then BASE_PROTOCOL_LENGTH else Offset(es, k - 1) + es[k - 1].length
  }

  datatype Running = Running(version: nat, length: uint64, offset: uint64)

  /** A table of running protocols that lays the entries out one after another, in 64-bit words. */
  ghost predicate LaidOut(es: seq<Entry>, m: map<string, Running>) {
    && (forall n :: n in m <==> Listed(es, n))
    && (forall k: nat :: k < |es| ==> es[k].name in m && m[es[k].name] == Running(es[k].version, es[k].length, Offset(es, k) % TWO64))
  }

  // ---------- matching ----------

  /** The entries an entry of the last or a later name leaves standing. */
  function Base(es: seq<Entry>, name: string): seq<Entry> {
    if es != [] && es[|es| - 1].name == name then es[..|es| - 1] else es
  }

  /** A capability that sorts after all matched ones: no matched name is above it, nor a higher version of its name. */
  ghost predicate AtEnd(es: seq<Entry>, c: Cap) {
    forall k :: 0 <= k < |es| ==> !Less(c, Cap(es[k].name, es[k].version))
  }

  function Members(caps: seq<Cap>): set<Cap> {
    set c | c in caps
  }

  lemma SortedIsAtEnd(protocols: seq<Protocol>, caps: seq<Cap>, i: nat, es: seq<Entry>)
    requires Sorted(caps) && i < |caps| && Agreed(protocols, Members(caps[..i]), es)
    ensures AtEnd(es, caps[i])
  {
    forall k | 0 <= k < |es| ensures !Less(caps[i], Cap(es[k].name, es[k].version)) {
      assert Highest(protocols, Members(caps[..i]), es[k]);
      var c := Cap(es[k].name, es[k].version);
      assert c in caps[..i];
      var j :| 0 <= j < i && caps[j] == c;
    }
  }

  lemma BaseIsBelow(es: seq<Entry>, c: Cap)
    requires Ascending(es) && AtEnd(es, c)
    ensures forall k :: 0 <= k < |Base(es, c.name)| ==> Below(es[k].name, c.name)
  {
    if es != [] {
      var last := es[|es| - 1];
      BelowIsTotal(last.name, c.name);
      forall k | 0 <= k < |Base(es, c.name)| ensures Below(es[k].name, c.name) {
        if k < |es| - 1 {
          assert Below(es[k].name, last.name);
          if last.name != c.name {
            BelowIsTransitive(es[k].name, last.name, c.name);
          }
        }
      }
    }
  }

  /** A capability that we do not have changes nothing. */
  lemma UnmatchedKeepsAgreed(protocols: seq<Protocol>, caps: set<Cap>, es: seq<Entry>, c: Cap)
    requires Agreed(protocols, caps, es) && First(protocols, c).None?
    ensures Agreed(protocols, caps + {c}, es)
  {
    forall k | 0 <= k < |es| ensures Highest(protocols, caps + {c}, es[k]) {
      assert Highest(protocols, caps, es[k]);
    }
  }

  /** The entries after a match: a lower version of the name is replaced, another name comes after all others. */
  function After(es: seq<Entry>, e: Entry): seq<Entry> {
    Base(es, e.name) + [e]
  }

  lemma AfterAscends(es: seq<Entry>, e: Entry)
    requires Ascending(es)
    requires forall k :: 0 <= k < |Base(es, e.name)| ==> Below(es[k].name, e.name)
    ensures Ascending(After(es, e))
  {
    hide Below;
  }

  lemma AfterLists(es: seq<Entry>, e: Entry, n: string)
    ensures Listed(After(es, e), n) <==> n == e.name || Listed(es, n)
  {
    var es' := After(es, e);
    var last := |es'| - 1;
    assert es'[last] == e;
    if Listed(es, n) && n != e.name {
      var k :| 0 <= k < |es| && es[k].name == n;
      assert es'[k] == es[k];
    }
    if Listed(es', n) && n != e.name {
      var k :| 0 <= k < |es'| && es'[k].name == n;
      assert es[k].name == n;
    }
  }

  lemma OtherNameStaysHighest(protocols: seq<Protocol>, caps: set<Cap>, e: Entry, c: Cap)
    requires Highest(protocols, caps, e) && e.name != c.name
    ensures Highest(protocols, caps + {c}, e)
  {
    hide First;
  }

  lemma MatchedIsHighest(protocols: seq<Protocol>, caps: set<Cap>, es: seq<Entry>, c: Cap)
    requires Agreed(protocols, caps, es) && First(protocols, c).Some? && AtEnd(es, c)
    ensures Highest(protocols, caps + {c}, Entry(c.name, c.version, First(protocols, c).value.length))
  {
    forall v: nat | Shared(protocols, caps + {c}, Cap(c.name, v)) ensures v <= c.version {
      if Cap(c.name, v) != c {
        assert Shared(protocols, caps, Cap(c.name, v));
        var k :| 0 <= k < |es| && es[k].name == c.name;
        assert Highest(protocols, caps, es[k]);
      }
    }
  }

  /** One that we have takes the last place. */
  lemma MatchedKeepsAgreed(protocols: seq<Protocol>, caps: set<Cap>, es: seq<Entry>, c: Cap)
    requires Agreed(protocols, caps, es) && First(protocols, c).Some? && AtEnd(es, c)
    ensures Agreed(protocols, caps + {c}, After(es, Entry(c.name, c.version, First(protocols, c).value.length)))
  {
    hide Below, First, Highest, Listed;
    var e := Entry(c.name, c.version, First(protocols, c).value.length);
    var base := Base(es, c.name);
    var es' := After(es, e);
    BaseIsBelow(es, c);
    AfterAscends(es, e);
    forall k | 0 <= k < |es'| ensures Highest(protocols, caps + {c}, es'[k]) {
      if k < |base| {
        BelowIsStrict(es[k].name, c.name);
        OtherNameStaysHighest(protocols, caps, es[k], c);
      } else {
        MatchedIsHighest(protocols, caps, es, c);
      }
    }
    forall d | Shared(protocols, caps + {c}, d) ensures Listed(es', d.name) {
      AfterLists(es, e, d.name);
      assert d != c ==> Shared(protocols, caps, d);
    }
  }

  lemma {:induction false} OffsetPrefix(es: seq<Entry>, fs: seq<Entry>, k: nat)
    requires k <= |es| && k <= |fs| && es[..k] == fs[..k]
    ensures Offset(es, k) == Offset(fs, k)
    decreases k
  {
    if k > 0 {
      assert es[..k - 1] == es[..k][..k - 1] == fs[..k][..k - 1] == fs[..k - 1];
      assert es[k - 1] == es[..k][k - 1] == fs[..k][k - 1];
      OffsetPrefix(es, fs, k - 1);
    }
  }

  lemma LayoutStep(es: seq<Entry>, m: map<string, Running>, e: Entry)
    requires Ascending(es) && LaidOut(es, m)
    requires forall k :: 0 <= k < |Base(es, e.name)| ==> Below(es[k].name, e.name)
    ensures LaidOut(After(es, e), m[e.name := Running(e.version, e.length, Offset(es, |Base(es, e.name)|) % TWO64)])
  {
    hide Below, Listed, Offset;
    var base := Base(es, e.name);
    var es' := After(es, e);
    var m' := m[e.name := Running(e.version, e.length, Offset(es, |base|) % TWO64)];
    forall k: nat | k < |es'|
      ensures es'[k].name in m' && m'[es'[k].name] == Running(es'[k].version, es'[k].length, Offset(es', k) % TWO64)
    {
      assert es'[..k] == es[..k];
      OffsetPrefix(es', es, k);
      if k < |base| {
        BelowIsStrict(es[k].name, e.name);
      }
    }
    forall n ensures n in m' <==> Listed(es', n) {
      AfterLists(es, e, n);
    }
  }

  lemma WrappedSum(x: nat, length: uint64)
    ensures AddWrap(x % TWO64, length) == (x + length) % TWO64
  {
  }

  lemma WrappedBack(x: nat, length: uint64)
    ensures SubWrap((x + length) % TWO64, length) == x % TWO64
  {
  }

  lemma NothingAgreed(protocols: seq<Protocol>)
    ensures Agreed(protocols, Members([]), []) && LaidOut([], map[])
  {
  }

  method Find(protocols: seq<Protocol>, c: Cap) returns (r: Option<Protocol>)
    ensures r == First(protocols, c)
  {
    for i := 0 to |protocols|
      invariant First(protocols, c) == First(protocols[i..], c)
    {
      if protocols[i].name == c.name && protocols[i].version == c.version {
        return Some(protocols[i]);
      }
    }
    r := None;
  }

  /** A matched name that has been seen before is the last entry's. */
  lemma NameIsLast(es: seq<Entry>, m: map<string, Running>, c: Cap)
    requires Ascending(es) && LaidOut(es, m) && AtEnd(es, c)
    ensures c.name in m <==> es != [] && es[|es| - 1].name == c.name
    ensures c.name in m ==> m[c.name].length == es[|es| - 1].length
  {
    assert es != [] && es[|es| - 1].name == c.name ==> Listed(es, c.name);
    if c.name in m {
      var k :| 0 <= k < |es| && es[k].name == c.name;
      if k < |es| - 1 {
        BelowIsStrict(es[k].name, es[|es| - 1].name);
      }
    }
  }

  /** The offsets before and after the last entry is replaced or a new one is added. */
  lemma OffsetsAround(es: seq<Entry>, e: Entry)
    ensures var base := Base(es, e.name);
      && Offset(es, |es|) == Offset(es, |base|) + (if es != [] && es[|es| - 1].name == e.name then es[|es| - 1].length else 0)
      && Offset(After(es, e), |After(es, e)|) == Offset(es, |base|) + e.length
  {
    var base := Base(es, e.name);
    var es' := After(es, e);
    assert es'[..|base|] == es[..|base|];
    OffsetPrefix(es', es, |base|);
  }

  /** Gives a matched protocol its codes, taking back those of an older version. */
  method Assign(ghost protocols: seq<Protocol>, ghost caps: set<Cap>, c: Cap, p: Protocol, m: map<string, Running>,
                offset: uint64, ghost es: seq<Entry>)
    returns (m': map<string, Running>, offset': uint64, ghost es': seq<Entry>)
    requires Agreed(protocols, caps, es) && LaidOut(es, m) && AtEnd(es, c)
    requires First(protocols, c) == Some(p)
    requires offset == Offset(es, |es|) % TWO64
    ensures Agreed(protocols, caps + {c}, es') && LaidOut(es', m')
    ensures offset' == Offset(es', |es'|) % TWO64
  {
    hide Below, First, LaidOut, AtEnd, Offset, AddWrap, After;
    ghost var e := Entry(c.name, c.version, p.length);
    ghost var start := Offset(es, |Base(es, c.name)|);
    MatchedKeepsAgreed(protocols, caps, es, c);
    BaseIsBelow(es, c);
    LayoutStep(es, m, e);
    NameIsLast(es, m, c);
    OffsetsAround(es, e);
    es' := After(es, e);
    offset' := offset;
    if c.name in m {
      offset' := SubWrap(offset', m[c.name].length);
      WrappedBack(start, m[c.name].length);
    }
    m' := m[c.name := Running(p.version, p.length, offset')];
    WrappedSum(start, p.length);
    offset' := AddWrap(offset', p.length);
  }

  /** Matches our protocols with the other end's capabilities, keeping a running offset. */
  method MatchProtocols(protocols: seq<Protocol>, caps: seq<Cap>) returns (m: map<string, Running>)
    ensures exists es :: Agreed(protocols, Members(caps), es) && LaidOut(es, m)
  {
    hide Agreed, Listed, Sorted, Below, First;
    var sorted := Sort(caps);
    var offset: uint64 := BASE_PROTOCOL_LENGTH;
    m := map[];
    ghost var es: seq<Entry> := [];
    NothingAgreed(protocols);
    for i := 0 to |sorted|
      invariant Agreed(protocols, Members(sorted[..i]), es) && LaidOut(es, m)
      invariant offset == Offset(es, |es|) % TWO64
    {
      var c := sorted[i];
      assert Members(sorted[..i + 1]) == Members(sorted[..i]) + {c};
      var found := Find(protocols, c);
      if found.Some? {
        SortedIsAtEnd(protocols, sorted, i, es);
        m, offset, es := Assign(protocols, Members(sorted[..i]), c, found.value, m, offset, es);
      } else {
        UnmatchedKeepsAgreed(protocols, Members(sorted[..i]), es, c);
      }
    }
    assert Members(sorted[..|sorted|]) == Members(caps) by {
      assert sorted[..|sorted|] == sorted;
      assert forall c :: c in sorted <==> c in multiset(sorted);
      assert forall c :: c in caps <==> c in multiset(caps);
    }
  }

  // ---------- the two ends agree ----------

  function CapsOf(protocols: seq<Protocol>): set<Cap> {
    set p | p in protocols :: Cap(p.name, p.version)
  }

  /** The two ends give equal lengths to equal names and versions. */
  ghost predicate SameLengths(a: seq<Protocol>, b: seq<Protocol>) {
    forall c :: First(a, c).Some? && First(b, c).Some? ==> First(a, c).value.length == First(b, c).value.length
  }

  lemma InCaps(a: seq<Protocol>, c: Cap)
    ensures c in CapsOf(a) <==> First(a, c).Some?
  {
    if First(a, c).Some? {
      assert Cap(First(a, c).value.name, First(a, c).value.version) == c;
    }
  }

  lemma SharedIsSymmetric(a: seq<Protocol>, b: seq<Protocol>, c: Cap)
    ensures Shared(a, CapsOf(b), c) <==> Shared(b, CapsOf(a), c)
  {
    InCaps(a, c);
    InCaps(b, c);
  }

  lemma SameName(a: seq<Protocol>, b: seq<Protocol>, e: Entry, f: Entry)
    requires SameLengths(a, b) && e.name == f.name
    requires Highest(a, CapsOf(b), e) && Highest(b, CapsOf(a), f)
    ensures e == f
  {
    hide First;
    SharedIsSymmetric(a, b, Cap(e.name, e.version));
    SharedIsSymmetric(a, b, Cap(f.name, f.version));
    assert Shared(a, CapsOf(b), Cap(e.name, f.version));
    assert Shared(b, CapsOf(a), Cap(f.name, e.version));
  }

  /** Strictly ascending lists with the same names name the same protocols in the same places. */
  lemma SamePlace(es: seq<Entry>, fs: seq<Entry>, k: nat)
    requires Ascending(es) && Ascending(fs)
    requires forall n :: Listed(es, n) ==> Listed(fs, n)
    requires k < |es| && k < |fs| && forall i :: 0 <= i < k ==> es[i].name == fs[i].name
    ensures !Below(es[k].name, fs[k].name)
  {
    hide Below;
    assert Listed(es, es[k].name);
    var j :| 0 <= j < |fs| && fs[j].name == es[k].name;
    BelowIsStrict(es[k].name, fs[k].name);
    if j < k {
      BelowIsStrict(es[j].name, es[k].name);
    }
  }

  lemma OneWay(a: seq<Protocol>, b: seq<Protocol>, es: seq<Entry>, fs: seq<Entry>, n: string)
    requires Agreed(a, CapsOf(b), es) && Agreed(b, CapsOf(a), fs)
    ensures Listed(es, n) ==> Listed(fs, n)
  {
    hide First, Below;
    if Listed(es, n) {
      var k :| 0 <= k < |es| && es[k].name == n;
      assert Highest(a, CapsOf(b), es[k]);
      SharedIsSymmetric(a, b, Cap(n, es[k].version));
      assert Listed(fs, Cap(n, es[k].version).name);
    }
  }

  lemma SameNames(a: seq<Protocol>, b: seq<Protocol>, es: seq<Entry>, fs: seq<Entry>)
    requires Agreed(a, CapsOf(b), es) && Agreed(b, CapsOf(a), fs)
    ensures forall n :: Listed(es, n) <==> Listed(fs, n)
  {
    forall n ensures Listed(es, n) <==> Listed(fs, n) {
      OneWay(a, b, es, fs, n);
      OneWay(b, a, fs, es, n);
    }
  }

  lemma {:induction false} SameEntries(a: seq<Protocol>, b: seq<Protocol>, es: seq<Entry>, fs: seq<Entry>, k: nat)
    requires SameLengths(a, b) && Agreed(a, CapsOf(b), es) && Agreed(b, CapsOf(a), fs)
    requires k <= |es| && k <= |fs|
    ensures es[..k] == fs[..k]
    decreases k
  {
    hide Below, First, Highest;
    if k > 0 {
      SameEntries(a, b, es, fs, k - 1);
      SameNames(a, b, es, fs);
      assert forall i :: 0 <= i < k - 1 ==> es[i] == es[..k - 1][i] == fs[..k - 1][i] == fs[i];
      SamePlace(es, fs, k - 1);
      SamePlace(fs, es, k - 1);
      BelowIsTotal(es[k - 1].name, fs[k - 1].name);
      SameName(a, b, es[k - 1], fs[k - 1]);
      assert es[..k] == es[..k - 1] + [es[k - 1]];
      assert fs[..k] == fs[..k - 1] + [fs[k - 1]];
    }
  }

  lemma LongerListsMore(es: seq<Entry>, fs: seq<Entry>)
    requires Ascending(es) && |es| <= |fs| && es == fs[..|es|] && Ascending(fs)
    requires forall n :: Listed(fs, n) ==> Listed(es, n)
    ensures es == fs
  {
    hide Below;
    if |es| < |fs| {
      var n := fs[|es|].name;
      assert Listed(fs, n);
      var k :| 0 <= k < |es| && es[k].name == n;
      assert es[k] == fs[k];
      BelowIsStrict(fs[k].name, fs[|es|].name);
    }
  }

  lemma SameTable(es: seq<Entry>, m: map<string, Running>, n: map<string, Running>)
    requires LaidOut(es, m) && LaidOut(es, n)
    ensures m == n
  {
    assert m.Keys == n.Keys;
    forall x | x in m ensures m[x] == n[x] {
      var k :| 0 <= k < |es| && es[k].name == x;
    }
  }

  /** Each end, from its own protocols and the other's capabilities, computes the same table. */
  lemma EndsAgree(a: seq<Protocol>, b: seq<Protocol>, es: seq<Entry>, fs: seq<Entry>, m: map<string, Running>,
                  n: map<string, Running>)
    requires SameLengths(a, b)
    requires Agreed(a, CapsOf(b), es) && LaidOut(es, m)
    requires Agreed(b, CapsOf(a), fs) && LaidOut(fs, n)
    ensures es == fs && m == n
  {
    hide Below, First, Highest;
    SameNames(a, b, es, fs);
    if |es| <= |fs| {
      SameEntries(a, b, es, fs, |es|);
      assert es[..|es|] == es;
      LongerListsMore(es, fs);
    } else {
      SameEntries(a, b, es, fs, |fs|);
      assert fs[..|fs|] == fs;
      LongerListsMore(fs, es);
    }
    SameTable(es, m, n);
  }

  // ---------- message codes ----------

  /** All codes fit in 64 bits. */
  predicate Fits(es: seq<Entry>) {
    Offset(es, |es|) <= MAX_UINT64
  }

  lemma {:induction false} OffsetIsPastBase(es: seq<Entry>, i: nat)
    requires i <= |es|
    ensures BASE_PROTOCOL_LENGTH <= Offset(es, i)
    decreases i
  {
    if i > 0 {
      OffsetIsPastBase(es, i - 1);
    }
  }

  lemma {:induction false} OffsetsGrow(es: seq<Entry>, i: nat, j: nat)
    requires i < j <= |es|
    ensures BASE_PROTOCOL_LENGTH <= Offset(es, i) && Offset(es, i) + es[i].length <= Offset(es, j)
    decreases j
  {
    OffsetIsPastBase(es, i);
    if i < j - 1 {
      OffsetsGrow(es, i, j - 1);
    }
  }

  predicate Handles(r: Running, code: uint64) {
    r.offset <= code < AddWrap(r.offset, r.length)
  }

  lemma NoWrap(x: nat)
    ensures x < TWO64 ==> x % TWO64 == x
  {
  }

  /** If all codes fit, a protocol handles exactly those from its offset up to the next one's. */
  lemma Placed(es: seq<Entry>, m: map<string, Running>, k: nat, code: uint64)
    requires LaidOut(es, m) && Fits(es) && k < |es|
    ensures es[k].name in m && m[es[k].name].length == es[k].length && m[es[k].name].offset == Offset(es, k)
    ensures BASE_PROTOCOL_LENGTH <= Offset(es, k) && Offset(es, k + 1) == Offset(es, k) + es[k].length <= MAX_UINT64
    ensures Handles(m[es[k].name], code) <==> Offset(es, k) <= code < Offset(es, k + 1)
  {
    OffsetsGrow(es, k, |es|);
    NoWrap(Offset(es, k));
    NoWrap(Offset(es, k + 1));
  }

  /** The ranges follow one another without gap: every code up to the end belongs to some protocol. */
  lemma {:induction false} CodesAreCovered(es: seq<Entry>, m: map<string, Running>, code: uint64, k: nat)
    requires LaidOut(es, m) && Fits(es) && k <= |es|
    requires BASE_PROTOCOL_LENGTH <= code < Offset(es, k)
    ensures exists i :: 0 <= i < k && es[i].name in m && Handles(m[es[i].name], code)
    decreases k
  {
    hide LaidOut, Fits, Handles;
    if k > 0 {
      Placed(es, m, k - 1, code);
      if code < Offset(es, k - 1) {
        CodesAreCovered(es, m, code, k - 1);
      } else {
        var i := k - 1;
        assert Handles(m[es[i].name], code);
      }
    }
  }

  /** And no code belongs to two. */
  lemma RangesAreApart(es: seq<Entry>, m: map<string, Running>, code: uint64, i: nat, j: nat)
    requires LaidOut(es, m) && Fits(es) && i < |es| && j < |es|
    requires es[i].name in m && Handles(m[es[i].name], code)
    requires es[j].name in m && Handles(m[es[j].name], code)
    ensures i == j
  {
    hide LaidOut, Fits, Handles, Offset;
    Placed(es, m, i, code);
    Placed(es, m, j, code);
    if i < j {
      OffsetsGrow(es, i, j);
    } else if j < i {
      OffsetsGrow(es, j, i);
    }
  }

  /** If all codes fit, exactly those from the base protocol's end to the end of the layout are handled, each by one protocol. */
  lemma CodesAreDivided(es: seq<Entry>, m: map<string, Running>, code: uint64)
    requires LaidOut(es, m)
    ensures Fits(es) ==> (16 <= code < Offset(es, |es|) <==> exists n :: n in m && Handles(m[n], code))
    ensures Fits(es) ==> forall n, n' :: n in m && n' in m && Handles(m[n], code) && Handles(m[n'], code) ==> n == n'
  {
    hide Fits, Offset, Handles;
    if Fits(es) {
      if BASE_PROTOCOL_LENGTH <= code < Offset(es, |es|) {
        CodesAreCovered(es, m, code, |es|);
      }
      forall n | n in m && Handles(m[n], code) ensures BASE_PROTOCOL_LENGTH <= code < Offset(es, |es|) {
        var k: nat :| k < |es| && es[k].name == n;
        Placed(es, m, k, code);
        OffsetsGrow(es, k, |es|);
      }
      forall n, n' | n in m && n' in m && Handles(m[n], code) && Handles(m[n'], code) ensures n == n' {
        var k: nat :| k < |es| && es[k].name == n;
        var k': nat :| k' < |es| && es[k'].name == n';
        RangesAreApart(es, m, code, k, k');
      }
    }
  }

  /** Finds the protocol whose range holds a code, looking through the table in any order. */
  method GetProto(m: map<string, Running>, code: uint64) returns (r: Option<string>)
    ensures r.Some? ==> r.value in m && Handles(m[r.value], code)
    ensures r.None? ==> forall n :: n in m ==> !Handles(m[n], code)
  {
    var rest := m.Keys;
    while rest != {}
      invariant rest <= m.Keys
      invariant forall n :: n in m && n !in rest ==> !Handles(m[n], code)
      decreases |rest|
    {
      var n :| n in rest;
      if Handles(m[n], code) {
        return Some(n);
      }
      rest := rest - {n};
    }
    r := None;
  }

  /** The wire code of a protocol's message, if it has that message. */
  function WriteCode(r: Running, code: uint64): Option<uint64> {
    if code >= r.length then None else Some(AddWrap(code, r.offset))
  }

  function ReadCode(r: Running, code: uint64): uint64 {
    SubWrap(code, r.offset)
  }

  lemma AddsUp(a: uint64, b: uint64)
    requires a + b < TWO64
    ensures AddWrap(a, b) == a + b && SubWrap(a + b, b) == a
  {
  }

  /** A written code is past the base protocol's, belongs to the writing protocol alone, and reads back as itself. */
  lemma CodeRoundTrip(es: seq<Entry>, m: map<string, Running>, k: nat, code: uint64)
    requires LaidOut(es, m) && Fits(es) && k < |es| && code < es[k].length
    ensures es[k].name in m
    ensures var r := m[es[k].name];
      && WriteCode(r, code).Some?
      && WriteCode(r, code).value >= BASE_PROTOCOL_LENGTH
      && Handles(r, WriteCode(r, code).value)
      && ReadCode(r, WriteCode(r, code).value) == code
  {
    hide LaidOut, Fits, Handles, Offset, AddWrap, SubWrap;
    var offset := Offset(es, k);
    Placed(es, m, k, if offset + code <= MAX_UINT64 then offset + code else 0);
    AddsUp(code, offset);
  }

  /** Whoever handles a written code is the protocol that wrote it. */
  lemma OnlyWriterHandles(es: seq<Entry>, m: map<string, Running>, k: nat, code: uint64, n: string)
    requires LaidOut(es, m) && Fits(es) && k < |es| && code < es[k].length
    requires WriteCode(m[es[k].name], code).Some? && n in m && Handles(m[n], WriteCode(m[es[k].name], code).value)
    ensures n == es[k].name
  {
    CodeRoundTrip(es, m, k, code);
    var j: nat :| j < |es| && es[j].name == n;
    RangesAreApart(es, m, WriteCode(m[es[k].name], code).value, k, j);
  }

  /** A protocol's message arrives: it is written past the base protocol's codes, handled by that protocol alone, and read back. */
  ghost predicate Arrives(m: map<string, Running>, name: string, code: uint64)
    requires name in m
  {
    var wire := WriteCode(m[name], code);
    && wire.Some? && wire.value >= BASE_PROTOCOL_LENGTH
    && (forall n :: n in m ==> (Handles(m[n], wire.value) <==> n == name))
    && ReadCode(m[name], wire.value) == code
  }

  /** Every message of every protocol arrives. */
  ghost predicate Sound(m: map<string, Running>) {
    forall name, code: uint64 :: name in m && code < m[name].length ==> Arrives(m, name, code)
  }

  lemma {:induction false} FirstToWrap(es: seq<Entry>, k: nat) returns (i: nat)
    requires k <= |es| && Offset(es, k) > MAX_UINT64
    ensures i < k && Offset(es, i) <= MAX_UINT64 < Offset(es, i + 1)
    decreases k
  {
    if Offset(es, k - 1) > MAX_UINT64 {
      i := FirstToWrap(es, k - 1);
    } else {
      i := k - 1;
    }
  }

  lemma WrapsBelow(x: nat, length: uint64)
    requires x < TWO64 <= x + length
    ensures AddWrap(x, length) < x
  {
    assert (x + length) % TWO64 == x + length - TWO64;
  }

  /** If the codes do not fit in 64 bits, some protocol that has messages handles no code at all. */
  lemma WrapLosesProtocol(es: seq<Entry>, m: map<string, Running>) returns (k: nat)
    requires LaidOut(es, m) && !Fits(es)
    ensures k < |es| && es[k].length > 0 && es[k].name in m
    ensures forall code: uint64 :: !Handles(m[es[k].name], code)
  {
    k := FirstToWrap(es, |es|);
    NoWrap(Offset(es, k));
    WrapsBelow(Offset(es, k), es[k].length);
  }

  /** A protocol of the greatest length does not fit: it runs, and handles no code. */
  lemma LongestIsLost(es: seq<Entry>, m: map<string, Running>)
    requires es == [Entry("yue", 1, MAX_UINT64)] && m == map["yue" := Running(1, MAX_UINT64, BASE_PROTOCOL_LENGTH)]
    ensures LaidOut(es, m) && !Fits(es) && forall code: uint64 :: !Handles(m["yue"], code)
  {
    assert Offset(es, 0) == BASE_PROTOCOL_LENGTH && Offset(es, 1) == Offset(es, 0) + MAX_UINT64;
    assert es[0].name == "yue";
    var k := WrapLosesProtocol(es, m);
  }

  /** Every message arrives if and only if all codes fit in 64 bits. */
  lemma SoundIffFits(es: seq<Entry>, m: map<string, Running>)
    requires LaidOut(es, m)
    ensures Sound(m) <==> Fits(es)
  {
    hide Fits, Offset, Handles, WriteCode, ReadCode;
    if Fits(es) {
      forall name, code: uint64 | name in m && code < m[name].length ensures Arrives(m, name, code) {
        var k: nat :| k < |es| && es[k].name == name;
        CodeRoundTrip(es, m, k, code);
        forall n | n in m && Handles(m[n], WriteCode(m[name], code).value) ensures n == name {
          OnlyWriterHandles(es, m, k, code, n);
        }
      }
    } else {
      var k := WrapLosesProtocol(es, m);
      assert !Arrives(m, es[k].name, 0);
    }
  }

  lemma WritesIts(r: Running, code: uint64)
    ensures WriteCode(r, code).Some? <==> code < r.length
  {
  }

  /**
   One end writes, the other reads: with the tables each has worked out for itself,
   if the codes fit the same protocol receives the same code.
   */
  method Transmit(a: seq<Protocol>, b: seq<Protocol>, ghost es: seq<Entry>, m: map<string, Running>,
                  ghost fs: seq<Entry>, n: map<string, Running>, name: string, code: uint64)
    returns (receiver: Option<string>, received: uint64)
    requires SameLengths(a, b)
    requires Agreed(a, CapsOf(b), es) && LaidOut(es, m)
    requires Agreed(b, CapsOf(a), fs) && LaidOut(fs, n)
    requires name in m
    ensures code >= m[name].length ==> receiver == None
    ensures Fits(es) && code < m[name].length ==> receiver == Some(name) && received == code
  {
    hide Agreed, Fits, Offset, LaidOut, Handles, WriteCode, ReadCode;
    EndsAgree(a, b, es, fs, m, n);
    SoundIffFits(es, m);
    WritesIts(m[name], code);
    received := 0;
    var wire := WriteCode(m[name], code);
    if wire.None? {
      return None, 0;
    }
    receiver := GetProto(n, wire.value);
    assert Fits(es) ==> Arrives(m, name, code);
    if receiver.Some? {
      received := ReadCode(n[receiver.value], wire.value);
    }
  }
}

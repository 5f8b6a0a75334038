/**
 The chain indexer: newHead (new heads and reorganisations) interleaves with the
 processing of a section, which runs without the lock over a chain database that
 may change under it, and with the notifications to child indexers.  A section that
 the backend refuses clears the index without the lock, write by write.
 */
module Indexers {
  import opened Txs

  /** A block hash; 0 is the empty hash, which no block has. */
  type Hash = nat
  const NO_HASH: Hash := 0

  /** The hash reached by following d parent links. */
  function Ancestor(parent: Hash -> Hash, h: Hash, d: nat): Hash
    decreases d
  {
    if d == 0 then h else Ancestor(parent, parent(h), d - 1)
  }

  /** Where setValidSections is: at the test of its loop, in its body, or past the loop. */
  datatype Place = Testing | Lowering | Removing | Settling

  /** A section being processed, or the index being cleared, outside the lock. */
  datatype Flight =
    | Processing(section: nat, oldHead: Hash, last: Hash, done: nat)
    | Clearing(section: nat, oldHead: Hash, at: Place)
    | Failed(section: nat, oldHead: Hash)

  /** A reorganisation taking sections back, under the lock; it began with `from` sections stored. */
  datatype Rewinding = Rewinding(target: nat, known: nat, from: nat, at: Place)

  /**
   One indexer.  `heads` is the section heads in the index database, `checkpoint`
   the number of sections covered by a checkpoint (0 if none was added).
   */
  datatype Indexer = Indexer(size: nat, confirms: nat, stored: nat, known: nat, cascaded: nat,
                             checkpoint: nat, checkpointHead: Hash, heads: map<nat, Hash>,
                             flight: Option<Flight>, rewind: Option<Rewinding>)

  /** What an indexer tells its children. */
  datatype Notice = Reorg(head: nat) | Forward(head: nat)

  // ---------- the index database ----------

  function SectionHead(heads: map<nat, Hash>, section: nat): Hash {
    if section in heads then heads[section] else NO_HASH
  }

  /** setValidSections as a whole, when nobody else is at it. */
  function SetValid(n: Indexer, sections: nat): Indexer {
    n.(stored := sections, heads := map k | k in n.heads && (k < sections || k >= n.stored) :: n.heads[k])
  }

  /** Who may be inside setValidSections: a reorganisation, and the clearing after a refused section. */
  datatype Writer = Rewinder | Clearer

  function PlaceOf(n: Indexer, w: Writer): Option<Place> {
    match w
    case Rewinder => if n.rewind.Some? then Some(n.rewind.value.at) else None
    case Clearer => if n.flight.Some? && n.flight.value.Clearing? then Some(n.flight.value.at) else None
  }

  function Target(n: Indexer, w: Writer): nat
    requires PlaceOf(n, w).Some?
  {
    if w.Rewinder? then n.rewind.value.target else 0
  }

  function Move(n: Indexer, w: Writer, to: Place): Indexer
    requires PlaceOf(n, w).Some?
  {
    match w
    case Rewinder => n.(rewind := Some(n.rewind.value.(at := to)))
    case Clearer => n.(flight := Some(n.flight.value.(at := to)))
  }

  /** The end of a reorganisation: the children are told if they were told of more. */
  function Cascade(n: Indexer, known: nat): (Indexer, Option<Notice>) {
    if known * n.size < n.cascaded then
      (n.(cascaded := known * n.size), Some(Reorg(known * n.size)))
    else
      (n, None)
  }

  /** A writer leaves setValidSections. */
  function Leave(n: Indexer, w: Writer): (Indexer, Option<Notice>)
    requires PlaceOf(n, w).Some?
  {
    match w
    case Rewinder => Cascade(n.(rewind := None), n.rewind.value.known)
    case Clearer => (n.(flight := Some(Failed(n.flight.value.section, n.flight.value.oldHead))), None)
  }

  /** The next step of a writer inside setValidSections. */
  function OnWrite(n: Indexer, w: Writer): (Indexer, Option<Notice>)
    requires PlaceOf(n, w).Some?
  {
    match PlaceOf(n, w).value
    case Testing => (Move(n, w, if n.stored > Target(n, w) then Lowering else Settling), None)
    case Lowering => (Move(n.(stored := Prev(n.stored)), w, Removing), None)
    case Removing => (Move(n.(heads := n.heads - {n.stored}), w, Testing), None)
    case Settling => Leave(n.(stored := Target(n, w)), w)
  }

  // ---------- the critical sections ----------

  /** newHead with reorg set, up to setValidSections if there are sections to take back. */
  function OnReorg(n: Indexer, head: nat): (r: (Indexer, Option<Notice>))
    requires n.size > 0
  {
    var section := head / n.size;
    var known := if section < n.checkpoint then 0 else section;
    var stored := if section < n.checkpoint then n.checkpoint else section;
    var n1 := if known < n.known then n.(known := known) else n;
    if stored < n1.stored then (n1.(rewind := Some(Rewinding(stored, known, n1.stored, Testing))), None)
    else Cascade(n1, known)
  }

  /** All of newHead with reorg set, when nobody else is at the sections. */
  function WholeReorg(n: Indexer, head: nat): (Indexer, Option<Notice>)
    requires n.size > 0 && n.rewind.None?
  {
    var (n1, note) := OnReorg(n, head);
    if n1.rewind.Some? then
      Cascade(SetValid(n1, n1.rewind.value.target).(rewind := None), n1.rewind.value.known)
    else (n1, note)
  }

  lemma DivTimes(a: nat, b: nat)
    requires b > 0
    ensures (a / b) * b <= a < (a / b + 1) * b
  {
    assert (a / b + 1) * b == (a / b) * b + b;
  }

  lemma MulLe(a: nat, b: nat, c: nat)
    requires a <= b
    ensures a * c <= b * c
  {
  }

  lemma MulLt(a: nat, b: nat, c: nat)
    requires a < b
    ensures a * c + c <= b * c
  {
    assert (a + 1) * c <= b * c by { MulLe(a + 1, b, c); }
  }

  /** The number of sections whose last block has the required confirmations under a head. */
  ghost predicate Confirmed(n: Indexer, head: nat, s: nat) {
    s * n.size + n.confirms <= head + 1
  }

  /**
   The number of complete, confirmed sections below a head, computed in 64-bit words:
   the greatest that is confirmed, unless the number of blocks does not fit a word.
   */
  function CompleteSections(n: Indexer, head: nat): (s: nat)
    requires n.size > 0
    ensures s <= MAX_UINT64
    ensures s > 0 ==> Confirmed(n, head, s)
    ensures head < MAX_UINT64 || (head == MAX_UINT64 && n.confirms > 0) ==> !Confirmed(n, head, s + 1)
  {
    if n.confirms <= head then
      var blocks := (head + 1 - n.confirms) % TWO64;
      DivTimes(blocks, n.size);
      blocks / n.size
    else 0
  }

  /** No other number is the greatest confirmed one. */
  lemma ConfirmedIsUnique(n: Indexer, head: nat, s: nat)
    requires n.size > 0 && head < MAX_UINT64 && (s > 0 ==> Confirmed(n, head, s)) && !Confirmed(n, head, s + 1)
    ensures s == CompleteSections(n, head)
  {
    var c := CompleteSections(n, head);
    if s < c {
      MulLe(s + 1, c, n.size);
    } else if c < s {
      MulLe(c + 1, s, n.size);
    }
  }

  /** With no block confirmed when the highest head needs no confirmation, the count wraps to nothing. */
  lemma HighestHeadWraps(n: Indexer)
    requires n.size > 0 && n.confirms == 0
    ensures CompleteSections(n, MAX_UINT64) == 0
  {
  }

  /** newHead without reorg; `synced` is the canonical hash read at the checkpoint. */
  function OnHead(n: Indexer, head: nat, synced: Hash): Indexer
    requires n.size > 0
  {
    var complete := CompleteSections(n, head);
    var sections := if complete < n.checkpoint then 0 else complete;
    if sections > n.known && (n.known < n.checkpoint ==> synced == n.checkpointHead) then
      n.(known := sections)
    else n
  }

  /** The start of an update: remember the section and the head before it, then unlock. */
  function OnBegin(n: Indexer): Indexer {
    var oldHead := if n.stored > 0 then SectionHead(n.heads, n.stored - 1) else NO_HASH;
    n.(flight := Some(Processing(n.stored, oldHead, oldHead, 0)))
  }

  /** The backend refuses to start the section; the index is going to be cleared without the lock. */
  function OnResetFailure(n: Indexer): Indexer
    requires n.flight.Some?
  {
    n.(flight := Some(Clearing(n.flight.value.section, n.flight.value.oldHead, Testing)))
  }

  /** One block of the section: the canonical hash read, and whether its header is there. */
  function OnRead(n: Indexer, parent: Hash -> Hash, hash: Hash, found: bool): Indexer
    requires n.flight.Some? && n.flight.value.Processing?
  {
    var f := n.flight.value;
    if hash == NO_HASH || !found || parent(hash) != f.last then n.(flight := Some(Failed(f.section, f.oldHead)))
    else n.(flight := Some(f.(last := hash, done := f.done + 1)))
  }

  /** The end of an update, under the lock again. */
  function OnFinish(n: Indexer, committed: bool): (r: (Indexer, Option<Notice>))
    requires n.flight.Some? && n.size > 0
  {
    var f := n.flight.value;
    if committed && f.Processing? && f.oldHead == SectionHead(n.heads, Prev(f.section)) then
      var n1 := SetValid(n.(heads := n.heads[f.section := f.last]), f.section + 1);
      var cascaded := n1.stored * n.size - 1;
      (n1.(cascaded := cascaded, flight := None), Some(Forward(cascaded)))
    else
      (n.(known := n.stored, flight := None), None)
  }

  // ---------- section heads ----------

  /** The head of section k is size parent links after the head of the section before it. */
  ghost predicate Linked(heads: map<nat, Hash>, size: nat, parent: Hash -> Hash, k: nat) {
    k in heads && heads[k] != NO_HASH
    && Ancestor(parent, heads[k], size) == if k == 0 then NO_HASH else SectionHead(heads, k - 1)
  }

  /** Exactly the sections below `stored` have a head, each linked to the one before. */
  ghost predicate SectionHeads(n: Indexer, parent: Hash -> Hash) {
    && (forall k: nat :: k in n.heads <==> k < n.stored)
    && (forall k: nat :: k < n.stored ==> Linked(n.heads, n.size, parent, k))
  }

  /** A section head is about to be removed. */
  predicate IsRemoving(n: Indexer) {
    PlaceOf(n, Rewinder) == Some(Removing) || PlaceOf(n, Clearer) == Some(Removing)
  }

  /** Nobody is inside setValidSections. */
  predicate Quiet(n: Indexer) {
    PlaceOf(n, Rewinder).None? && PlaceOf(n, Clearer).None?
  }

  /** Not two are inside setValidSections. */
  predicate Serial(n: Indexer) {
    PlaceOf(n, Rewinder).None? || PlaceOf(n, Clearer).None?
  }

  /** The sections below `stored` have linked heads; only one about to be removed may be left above them. */
  ghost predicate HeadsBelow(n: Indexer, parent: Hash -> Hash) {
    && (forall k: nat :: k in n.heads <==> k < n.stored || (k == n.stored && IsRemoving(n)))
    && (forall k: nat :: k < n.stored ==> Linked(n.heads, n.size, parent, k))
  }

  /** What a writer knows of the count where it is, if it is alone. */
  ghost predicate InPlace(n: Indexer, w: Writer) {
    PlaceOf(n, w).Some? ==>
      && Target(n, w) <= n.stored
      && (PlaceOf(n, w).value.Lowering? ==> Target(n, w) < n.stored)
      && (PlaceOf(n, w).value.Settling? ==> Target(n, w) == n.stored)
  }

  ghost predicate InRewind(n: Indexer) {
    n.rewind.Some? ==>
      var r := n.rewind.value;
      r.known == r.target < r.from <= MAX_UINT64 && n.stored <= r.from
  }

  /** A section in flight continues from the head it started at. */
  ghost predicate InFlight(n: Indexer, parent: Hash -> Hash) {
    n.flight.Some? ==>
      var f := n.flight.value;
      && n.stored <= f.section < MAX_UINT64
      && (if n.rewind.None? then n.stored else n.rewind.value.target) <= n.known
      && (f.section == 0 <==> f.oldHead == NO_HASH)
      && (f.Processing? ==>
           && f.done <= n.size
           && (f.done > 0 ==> f.last != NO_HASH)
           && Ancestor(parent, f.last, f.done) == f.oldHead)
  }

  /** The state of an indexer without checkpoint, at any moment. */
  ghost predicate Good(n: Indexer, parent: Hash -> Hash) {
    && n.size > 0 && n.checkpoint == 0
    && n.stored <= MAX_UINT64 && n.known <= MAX_UINT64
    && Serial(n) && HeadsBelow(n, parent)
    && InPlace(n, Rewinder) && InPlace(n, Clearer) && InRewind(n)
    && InFlight(n, parent)
  }

  lemma QuietIsExact(n: Indexer, parent: Hash -> Hash)
    requires Good(n, parent) && Quiet(n)
    ensures SectionHeads(n, parent)
  {
  }

  // ---------- every critical section keeps the state good ----------

  lemma ReorgKeeps(n: Indexer, parent: Hash -> Hash, head: nat)
    requires Good(n, parent) && n.rewind.None? && Serial(OnReorg(n, head).0)
    ensures Good(OnReorg(n, head).0, parent)
  {
    var n' := OnReorg(n, head).0;
    forall k: nat | k < n'.stored ensures Linked(n'.heads, n'.size, parent, k) {
      assert Linked(n.heads, n.size, parent, k);
    }
  }

  /** Each write of a writer that is alone keeps the state good. */
  lemma WriteKeeps(n: Indexer, parent: Hash -> Hash, w: Writer)
    requires Good(n, parent) && PlaceOf(n, w).Some?
    ensures Good(OnWrite(n, w).0, parent)
  {
    var n' := OnWrite(n, w).0;
    forall k: nat | k < n'.stored ensures Linked(n'.heads, n'.size, parent, k) {
      assert Linked(n.heads, n.size, parent, k);
    }
  }

  lemma HeadKeeps(n: Indexer, parent: Hash -> Hash, head: nat, synced: Hash)
    requires Good(n, parent)
    ensures Good(OnHead(n, head, synced), parent)
  {
    var n' := OnHead(n, head, synced);
    forall k: nat | k < n'.stored ensures Linked(n'.heads, n'.size, parent, k) {
      assert Linked(n.heads, n.size, parent, k);
    }
  }

  lemma BeginKeeps(n: Indexer, parent: Hash -> Hash)
    requires Good(n, parent) && Quiet(n) && n.known > n.stored
    ensures Good(OnBegin(n), parent)
  {
    var n' := OnBegin(n);
    forall k: nat | k < n'.stored ensures Linked(n'.heads, n'.size, parent, k) {
      assert Linked(n.heads, n.size, parent, k);
    }
    if n.stored > 0 {
      assert Linked(n.heads, n.size, parent, n.stored - 1);
    }
  }

  lemma ResetFailureKeeps(n: Indexer, parent: Hash -> Hash)
    requires Good(n, parent) && n.flight.Some? && n.flight.value.Processing? && n.rewind.None?
    ensures Good(OnResetFailure(n), parent)
  {
    var n' := OnResetFailure(n);
    forall k: nat | k < n'.stored ensures Linked(n'.heads, n'.size, parent, k) {
      assert Linked(n.heads, n.size, parent, k);
    }
  }

  lemma ReadKeeps(n: Indexer, parent: Hash -> Hash, hash: Hash, found: bool)
    requires Good(n, parent) && n.flight.Some? && n.flight.value.Processing? && n.flight.value.done < n.size
    ensures Good(OnRead(n, parent, hash, found), parent)
  {
    var n' := OnRead(n, parent, hash, found);
    forall k: nat | k < n'.stored ensures Linked(n'.heads, n'.size, parent, k) {
      assert Linked(n.heads, n.size, parent, k);
    }
  }

  /** The check before a section is stored passes only if no reorganisation removed the section before it. */
  lemma CheckMeansUnmoved(n: Indexer, parent: Hash -> Hash)
    requires Good(n, parent) && n.flight.Some? && Quiet(n)
    requires n.flight.value.oldHead == SectionHead(n.heads, Prev(n.flight.value.section))
    ensures n.stored == n.flight.value.section
  {
  }

  lemma FinishKeeps(n: Indexer, parent: Hash -> Hash, committed: bool)
    requires Good(n, parent) && n.flight.Some? && Quiet(n)
    requires n.flight.value.Processing? && committed ==> n.flight.value.done == n.size
    ensures Good(OnFinish(n, committed).0, parent)
  {
    var f := n.flight.value;
    var n' := OnFinish(n, committed).0;
    if committed && f.Processing? && f.oldHead == SectionHead(n.heads, Prev(f.section)) {
      CheckMeansUnmoved(n, parent);
    }
    forall k: nat | k < n'.stored ensures Linked(n'.heads, n'.size, parent, k) {
      assert k < n.stored ==> Linked(n.heads, n.size, parent, k);
    }
  }

  // ---------- a tree of indexers ----------

  /**
   All indexers, and the notices their parents owe them.  An indexer that still
   owes a notice to a child holds its lock.
   */
  datatype System = System(nodes: map<nat, Indexer>, notices: map<nat, Notice>)

  /** One atomic step anywhere in the system. */
  datatype Action =
    | Head(i: nat, head: nat, synced: Hash)
    | Rewind(i: nat, head: nat)
    | Write(i: nat, w: Writer)
    | Deliver(i: nat, synced: Hash)
    | Begin(i: nat)
    | ResetFails(i: nat)
    | Read(i: nat, hash: Hash, found: bool)
    | Finish(i: nat, committed: bool)

  /** `tree` maps every child to its parent. */
  ghost predicate Unlocked(s: System, tree: map<nat, nat>, i: nat) {
    && (i in s.nodes ==> s.nodes[i].rewind.None?)
    && (forall c :: c in tree && tree[c] == i ==> c !in s.notices)
  }

  ghost predicate Enabled(s: System, tree: map<nat, nat>, a: Action) {
    && a.i in s.nodes && s.nodes[a.i].size > 0
    && var n := s.nodes[a.i];
       match a
       case Head(i, _, _) => i !in tree && Unlocked(s, tree, i)
       case Rewind(i, _) => i !in tree && Unlocked(s, tree, i)
       case Write(_, w) => PlaceOf(n, w).Some?
       case Deliver(i, _) => i in s.notices && Unlocked(s, tree, i)
       case Begin(i) => Unlocked(s, tree, i) && n.flight.None? && n.known > n.stored
       case ResetFails(_) => n.flight.Some? && n.flight.value.Processing? && n.flight.value.done == 0
       case Read(_, _, _) => n.flight.Some? && n.flight.value.Processing? && n.flight.value.done < n.size
       case Finish(i, _) =>
         && Unlocked(s, tree, i) && n.flight.Some? && !n.flight.value.Clearing?
         && (n.flight.value.Processing? ==> n.flight.value.done == n.size)
  }

  /** The acting indexer after its step, and the notice it then owes its children. */
  function Outcome(n: Indexer, owed: Option<Notice>, parent: Hash -> Hash, a: Action): (Indexer, Option<Notice>)
    requires n.size > 0
    requires a.ResetFails? || a.Read? || a.Finish? ==> n.flight.Some?
    requires a.Read? ==> n.flight.value.Processing?
    requires a.Write? ==> PlaceOf(n, a.w).Some?
    requires a.Deliver? ==> owed.Some?
  {
    match a
    case Head(_, head, synced) => (OnHead(n, head, synced), None)
    case Rewind(_, head) => OnReorg(n, head)
    case Write(_, w) => OnWrite(n, w)
    case Deliver(_, synced) =>
      (match owed.value
       case Reorg(head) => OnReorg(n, head)
       case Forward(head) => (OnHead(n, head, synced), None))
    case Begin(_) => (OnBegin(n), None)
    case ResetFails(_) => (OnResetFailure(n), None)
    case Read(_, hash, found) => (OnRead(n, parent, hash, found), None)
    case Finish(_, committed) => OnFinish(n, committed)
  }

  function Owed(s: System, i: nat): Option<Notice> {
    if i in s.notices then Some(s.notices[i]) else None
  }

  ghost function Apply(s: System, tree: map<nat, nat>, parent: Hash -> Hash, a: Action): System
    requires Enabled(s, tree, a)
  {
    var (n, note) := Outcome(s.nodes[a.i], Owed(s, a.i), parent, a);
    var left := if a.Deliver? then s.notices - {a.i} else s.notices;
    System(s.nodes[a.i := n],
           if note.Some? then left + map c | c in tree && tree[c] == a.i :: note.value else left)
  }

  ghost predicate AllGood(s: System, parent: Hash -> Hash) {
    forall i :: i in s.nodes ==> Good(s.nodes[i], parent)
  }

  /** What an enabled step says of the acting indexer alone. */
  ghost predicate Applicable(n: Indexer, owed: Option<Notice>, a: Action) {
    && n.size > 0
    && (a.Write? || a.ResetFails? || a.Read? || n.rewind.None?)
    && match a
       case Head(_, _, _) => true
       case Rewind(_, _) => true
       case Write(_, w) => PlaceOf(n, w).Some?
       case Deliver(_, _) => owed.Some?
       case Begin(_) => n.flight.None? && n.known > n.stored
       case ResetFails(_) => n.flight.Some? && n.flight.value.Processing?
       case Read(_, _, _) => n.flight.Some? && n.flight.value.Processing? && n.flight.value.done < n.size
       case Finish(_, _) =>
         && n.flight.Some? && !n.flight.value.Clearing?
         && (n.flight.value.Processing? ==> n.flight.value.done == n.size)
  }

  lemma OutcomeGood(n: Indexer, owed: Option<Notice>, parent: Hash -> Hash, a: Action)
    requires Good(n, parent) && Applicable(n, owed, a) && Serial(Outcome(n, owed, parent, a).0)
    ensures Good(Outcome(n, owed, parent, a).0, parent)
  {
    match a
    case Head(_, head, synced) => HeadKeeps(n, parent, head, synced);
    case Rewind(_, head) => ReorgKeeps(n, parent, head);
    case Write(_, w) => WriteKeeps(n, parent, w);
    case Deliver(_, synced) =>
      if owed.value.Reorg? {
        ReorgKeeps(n, parent, owed.value.head);
      } else {
        HeadKeeps(n, parent, owed.value.head, synced);
      }
    case Begin(_) => BeginKeeps(n, parent);
    case ResetFails(_) => ResetFailureKeeps(n, parent);
    case Read(_, hash, found) => ReadKeeps(n, parent, hash, found);
    case Finish(_, committed) => FinishKeeps(n, parent, committed);
  }

  /** In no indexer are two inside setValidSections. */
  ghost predicate AllSerial(s: System) {
    forall i :: i in s.nodes ==> Serial(s.nodes[i])
  }

  /** Every step after which no two are inside setValidSections keeps every indexer's section heads linked. */
  lemma StepKeepsHeads(s: System, tree: map<nat, nat>, parent: Hash -> Hash, a: Action)
    requires AllGood(s, parent) && Enabled(s, tree, a) && AllSerial(Apply(s, tree, parent, a))
    ensures AllGood(Apply(s, tree, parent, a), parent)
  {
    assert Apply(s, tree, parent, a).nodes[a.i] == Outcome(s.nodes[a.i], Owed(s, a.i), parent, a).0;
    OutcomeGood(s.nodes[a.i], Owed(s, a.i), parent, a);
  }

  // ---------- what children know ----------

  /** The sections an indexer has stored, or had when it began to take some back. */
  function Had(p: Indexer): nat {
    if p.rewind.Some? then p.rewind.value.from else p.stored
  }

  /**
   Parent p and child n.  A child knows no more blocks than its parent has stored,
   unless the notice that takes them back is on its way or still to be sent.
   */
  ghost predicate Bounded(p: Indexer, n: Indexer, owed: Option<Notice>) {
    && p.size >= 2 && n.size > 0 && PlaceOf(p, Clearer).None?
    && p.cascaded <= Had(p) * p.size
    && (n.known > 0 ==> Had(p) * p.size <= p.cascaded + 1)
    && (match owed
        case None => n.known * n.size <= Had(p) * p.size
        case Some(Forward(h)) => n.known * n.size <= Had(p) * p.size && h == p.cascaded && h + 1 == Had(p) * p.size
        case Some(Reorg(h)) => h == Had(p) * p.size)
  }

  /**
   When a reorganisation takes stored sections back, the children are told of it,
   except in exactly one case, which needs sections of one block.
   */
  lemma ReorgReachesChildren(p: Indexer, head: nat)
    requires p.size > 0 && p.checkpoint == 0 && p.rewind.None? && head / p.size < p.stored
    requires p.stored * p.size - 1 <= p.cascaded <= p.stored * p.size
    ensures WholeReorg(p, head).1.None? <==>
      p.size == 1 && head / p.size == p.stored - 1 && p.cascaded == p.stored * p.size - 1
  {
    var k := head / p.size;
    MulLt(k, p.stored, p.size);
    if k < p.stored - 1 {
      MulLt(k, p.stored - 1, p.size);
      MulLt(p.stored - 1, p.stored, p.size);
    } else {
      assert p.stored * p.size == k * p.size + p.size;
    }
  }

  /** An indexer of one-block sections that takes back its only section, of which its children were told. */
  lemma OneBlockSectionIsMissed()
    ensures var p := Indexer(1, 0, 1, 1, 0, 0, NO_HASH, map[0 := 7], None, None);
      WholeReorg(p, 0).0.stored == 0 && WholeReorg(p, 0).1.None?
  {
    var p := Indexer(1, 0, 1, 1, 0, 0, NO_HASH, map[0 := 7], None, None);
    ReorgReachesChildren(p, 0);
  }

  lemma ReorgKeepsBound(p: Indexer, n: Indexer, head: nat)
    requires p.checkpoint == 0 && p.rewind.None? && Bounded(p, n, None)
    ensures Bounded(OnReorg(p, head).0, n, OnReorg(p, head).1)
  {
    var k := head / p.size;
    if k >= p.stored {
      MulLe(p.stored, k, p.size);
    }
  }

  /** Taking sections back, the children are told at the end, or have nothing to be told. */
  lemma WriteKeepsBound(p: Indexer, n: Indexer, parent: Hash -> Hash)
    requires Good(p, parent) && p.rewind.Some? && Bounded(p, n, None)
    ensures var (p', told) := OnWrite(p, Rewinder);
      Bounded(p', n, told)
  {
    var r := p.rewind.value;
    MulLt(r.target, r.from, p.size);
    if r.target < r.from - 1 {
      MulLt(r.target, r.from - 1, p.size);
      MulLt(r.from - 1, r.from, p.size);
    }
  }

  lemma FinishKeepsBound(p: Indexer, n: Indexer, parent: Hash -> Hash, committed: bool)
    requires Good(p, parent) && p.flight.Some? && p.rewind.None? && Bounded(p, n, None)
    ensures Bounded(OnFinish(p, committed).0, n, OnFinish(p, committed).1)
  {
    var f := p.flight.value;
    if committed && f.Processing? && f.oldHead == SectionHead(p.heads, Prev(f.section)) {
      CheckMeansUnmoved(p, parent);
      MulLt(p.stored, p.stored + 1, p.size);
    }
  }

  lemma DeliveryKeepsBound(p: Indexer, n: Indexer, notice: Notice, synced: Hash)
    requires n.checkpoint == 0 && Bounded(p, n, Some(notice))
    ensures Bounded(p, if notice.Reorg? then OnReorg(n, notice.head).0 else OnHead(n, notice.head, synced), None)
  {
    if notice.Reorg? {
      var k := notice.head / n.size;
      DivTimes(notice.head, n.size);
      if n.known <= k {
        MulLe(n.known, k, n.size);
      }
    }
  }

  /** The clearing after a refused section tells no child: one that knows anything is then ahead of its parent. */
  lemma RefusalLeavesChildAhead(p: Indexer, n: Indexer, committed: bool)
    requires p.size > 0 && p.flight.Some? && n.known > 0 && n.size > 0
    ensures var p1 := SetValid(p, 0).(flight := Some(Failed(p.flight.value.section, p.flight.value.oldHead)));
      var (p2, told) := OnFinish(p1, committed);
      told.None? && n.known * n.size > p2.stored * p2.size
  {
    MulLe(1, n.known, n.size);
  }

  /** A child's own update never raises what it knows. */
  lemma FinishNeverRaises(n: Indexer, parent: Hash -> Hash, committed: bool)
    requires Good(n, parent) && n.flight.Some? && n.rewind.None?
    ensures OnFinish(n, committed).0.known <= n.known
  {
  }

  lemma WriteKeepsKnown(n: Indexer, w: Writer)
    requires PlaceOf(n, w).Some?
    ensures OnWrite(n, w).0.known == n.known && OnWrite(n, w).0.size == n.size
  {
  }

  lemma FewerKnownKeepsBound(p: Indexer, n: Indexer, n': Indexer, owed: Option<Notice>)
    requires Bounded(p, n, owed) && n'.known <= n.known && n'.size == n.size
    ensures Bounded(p, n', owed)
  {
    MulLe(n'.known, n.known, n.size);
  }

  ghost predicate IsTree(s: System, tree: map<nat, nat>) {
    && s.notices.Keys <= tree.Keys
    && (forall c :: c in tree ==> c in s.nodes && tree[c] in s.nodes && tree[c] != c)
  }

  ghost predicate AllBounded(s: System, tree: map<nat, nat>) {
    && IsTree(s, tree)
    && (forall c :: c in tree && s.nodes[tree[c]].rewind.Some? ==> c !in s.notices)
    && (forall c :: c in tree ==> Bounded(s.nodes[tree[c]], s.nodes[c], Owed(s, c)))
  }

  /** The acting indexer as a parent. */
  lemma OutcomeBoundsChild(p: Indexer, n: Indexer, owed: Option<Notice>, note: Option<Notice>,
                           parent: Hash -> Hash, a: Action)
    requires Good(p, parent) && Bounded(p, n, note) && Applicable(p, owed, a) && !a.ResetFails?
    requires a.Read? || p.rewind.Some? || note.None?
    requires p.rewind.Some? ==> note.None?
    ensures var (p', told) := Outcome(p, owed, parent, a);
      Bounded(p', n, if told.Some? then told else note)
  {
    match a
    case Head(_, _, _) =>
    case Rewind(_, head) => ReorgKeepsBound(p, n, head);
    case Write(_, w) => WriteKeepsBound(p, n, parent);
    case Deliver(_, _) =>
      if owed.value.Reorg? {
        ReorgKeepsBound(p, n, owed.value.head);
      }
    case Begin(_) =>
    case Read(_, _, _) =>
    case Finish(_, committed) => FinishKeepsBound(p, n, parent, committed);
  }

  /** The acting indexer as a child. */
  lemma OutcomeBoundedByParent(p: Indexer, n: Indexer, owed: Option<Notice>, parent: Hash -> Hash, a: Action)
    requires Good(n, parent) && Bounded(p, n, owed) && Applicable(n, owed, a) && !a.Head? && !a.Rewind? && !a.ResetFails?
    ensures Bounded(p, Outcome(n, owed, parent, a).0, if a.Deliver? then None else owed)
  {
    match a
    case Deliver(_, synced) => DeliveryKeepsBound(p, n, owed.value, synced);
    case Write(_, w) =>
      WriteKeepsKnown(n, w);
      FewerKnownKeepsBound(p, n, OnWrite(n, w).0, owed);
    case Begin(_) => FewerKnownKeepsBound(p, n, OnBegin(n), owed);
    case Read(_, hash, found) => FewerKnownKeepsBound(p, n, OnRead(n, parent, hash, found), owed);
    case Finish(_, committed) =>
      FinishNeverRaises(n, parent, committed);
      FewerKnownKeepsBound(p, n, OnFinish(n, committed).0, owed);
  }

  lemma EnabledIsApplicable(s: System, tree: map<nat, nat>, a: Action)
    requires Enabled(s, tree, a)
    ensures Applicable(s.nodes[a.i], Owed(s, a.i), a)
    ensures !a.Write? && !a.Read? && !a.ResetFails? ==> Unlocked(s, tree, a.i)
    ensures a.Write? ==> s.nodes[a.i].rewind.Some? || PlaceOf(s.nodes[a.i], Clearer).Some?
    ensures a.Head? || a.Rewind? ==> a.i !in tree
  {
  }

  /** Whoever has told the children is not taking sections back any more. */
  lemma ToldIsDone(n: Indexer, owed: Option<Notice>, parent: Hash -> Hash, a: Action)
    requires Applicable(n, owed, a)
    ensures var (n', told) := Outcome(n, owed, parent, a);
      && (told.Some? ==> n'.rewind.None?)
      && (n'.rewind.Some? ==> n.rewind.Some? || a.Rewind? || a.Deliver?)
  {
  }

  /** The nodes and the notice owed to c after a step. */
  lemma AppliedTo(s: System, tree: map<nat, nat>, parent: Hash -> Hash, a: Action, c: nat)
    requires Enabled(s, tree, a) && c in tree
    ensures var s' := Apply(s, tree, parent, a);
      var (n, told) := Outcome(s.nodes[a.i], Owed(s, a.i), parent, a);
      && s'.nodes == s.nodes[a.i := n]
      && Owed(s', c) == if told.Some? && tree[c] == a.i then told else if a.Deliver? && c == a.i then None else Owed(s, c)
  {
    hide Outcome;
  }

  /** The step as one child and its parent see it. */
  lemma ChildStaysBounded(s: System, tree: map<nat, nat>, parent: Hash -> Hash, a: Action, c: nat)
    requires AllGood(s, parent) && AllBounded(s, tree) && Enabled(s, tree, a) && !a.ResetFails? && c in tree
    ensures var s' := Apply(s, tree, parent, a);
      Bounded(s'.nodes[tree[c]], s'.nodes[c], Owed(s', c)) && (s'.nodes[tree[c]].rewind.Some? ==> c !in s'.notices)
  {
    EnabledIsApplicable(s, tree, a);
    hide Bounded, Good, Applicable, Outcome, Enabled, Apply;
    AppliedTo(s, tree, parent, a, c);
    ToldIsDone(s.nodes[a.i], Owed(s, a.i), parent, a);
    if tree[c] == a.i {
      OutcomeBoundsChild(s.nodes[a.i], s.nodes[c], Owed(s, a.i), Owed(s, c), parent, a);
    } else if c == a.i {
      OutcomeBoundedByParent(s.nodes[tree[c]], s.nodes[c], Owed(s, c), parent, a);
    }
  }

  /** Every step but a failing backend keeps every child within its parent. */
  lemma StepKeepsBounds(s: System, tree: map<nat, nat>, parent: Hash -> Hash, a: Action)
    requires AllGood(s, parent) && AllBounded(s, tree) && Enabled(s, tree, a) && !a.ResetFails?
    ensures AllBounded(Apply(s, tree, parent, a), tree)
  {
    hide Bounded, Good, Outcome, Enabled;
    var s' := Apply(s, tree, parent, a);
    forall c | c in tree
      ensures Bounded(s'.nodes[tree[c]], s'.nodes[c], Owed(s', c)) && (s'.nodes[tree[c]].rewind.Some? ==> c !in s'.notices)
    {
      ChildStaysBounded(s, tree, parent, a, c);
    }
  }

  // ---------- runs ----------

  /** The states a sequence of steps goes through. */
  ghost predicate IsRun(run: seq<System>, steps: seq<Action>, tree: map<nat, nat>, parent: Hash -> Hash) {
    && |run| == |steps| + 1
    && (forall j :: 0 <= j < |steps| ==> Enabled(run[j], tree, steps[j]) && run[j + 1] == Apply(run[j], tree, parent, steps[j]))
  }

  /** A freshly loaded system: section heads as a previous run stored them, nothing known yet. */
  ghost predicate Fresh(s: System, tree: map<nat, nat>, parent: Hash -> Hash) {
    && AllGood(s, parent) && IsTree(s, tree) && s.notices == map[]
    && (forall i :: i in s.nodes ==>
          s.nodes[i].known == 0 && s.nodes[i].cascaded == 0 && s.nodes[i].flight.None? && s.nodes[i].rewind.None?)
  }

  /**
   In every state of every interleaving in which no reorganisation takes sections
   back while a refused section clears them, the sections below the count have
   linked heads, and exactly those have one unless one is just being removed.
   */
  lemma {:induction false} HeadsLinkedOverRuns(run: seq<System>, steps: seq<Action>, tree: map<nat, nat>,
                                               parent: Hash -> Hash, j: nat)
    requires IsRun(run, steps, tree, parent) && Fresh(run[0], tree, parent) && j < |run|
    requires forall k :: 0 <= k <= j ==> AllSerial(run[k])
    ensures AllGood(run[j], parent)
    ensures forall i :: i in run[j].nodes ==> HeadsBelow(run[j].nodes[i], parent)
    ensures forall i :: i in run[j].nodes && Quiet(run[j].nodes[i]) ==> SectionHeads(run[j].nodes[i], parent)
    decreases j
  {
    if j > 0 {
      HeadsLinkedOverRuns(run, steps, tree, parent, j - 1);
      assert run[j] == Apply(run[j - 1], tree, parent, steps[j - 1]) && AllSerial(run[j]);
      StepKeepsHeads(run[j - 1], tree, parent, steps[j - 1]);
    }
    forall i | i in run[j].nodes && Quiet(run[j].nodes[i]) ensures SectionHeads(run[j].nodes[i], parent) {
      QuietIsExact(run[j].nodes[i], parent);
    }
  }

  // ---------- what becomes known ----------

  /**
   A head that completes sections makes exactly those known that are confirmed, and never
   forgets one; up to a checkpoint only if the chain agrees with it, and then all of it.
   */
  lemma HeadMakesKnown(n: Indexer, head: nat, synced: Hash)
    requires n.size > 0
    ensures var n' := OnHead(n, head, synced);
      var agreed := n.known < n.checkpoint ==> synced == n.checkpointHead;
      && n' == n.(known := n'.known) && n'.known >= n.known
      && (n'.known > n.known ==> Confirmed(n, head, n'.known) && n'.known >= n.checkpoint && agreed)
      && (head < MAX_UINT64 && agreed ==> forall s: nat :: s > 0 && s >= n.checkpoint && Confirmed(n, head, s) ==> n'.known >= s)
  {
    var n' := OnHead(n, head, synced);
    forall s: nat | s > 0 && s >= n.checkpoint && Confirmed(n, head, s) && head < MAX_UINT64
                 && (n.known < n.checkpoint ==> synced == n.checkpointHead)
      ensures n'.known >= s
    {
      var c := CompleteSections(n, head);
      if s > c {
        MulLe(c + 1, s, n.size);
      }
    }
  }

  /**
   A reorganisation leaves known and stored no section that reaches above its head, and no
   fewer than that; stored sections of a checkpoint stay, and below it nothing is known.
   */
  lemma ReorgTakesBack(n: Indexer, head: nat)
    requires n.size > 0 && n.rewind.None?
    ensures var n' := WholeReorg(n, head).0;
      && n'.known * n.size <= head && (n'.stored * n.size <= head || n'.stored <= n.checkpoint)
      && n'.known <= n.known && n'.stored <= n.stored
      && (n'.known < n.known ==> head < (n'.known + 1) * n.size || (n'.known == 0 && head < n.checkpoint * n.size))
      && (n'.stored < n.stored ==> n'.stored >= n.checkpoint && head < (n'.stored + 1) * n.size)
      && (forall k :: k < n'.stored ==> (k in n'.heads <==> k in n.heads) && (k in n'.heads ==> n'.heads[k] == n.heads[k]))
  {
    var s := head / n.size;
    DivTimes(head, n.size);
    var n' := WholeReorg(n, head).0;
    MulLe(n'.known, s, n.size);
    if s < n.checkpoint {
      MulLe(s + 1, n.checkpoint, n.size);
      MulLe(s + 1, n.checkpoint + 1, n.size);
    } else {
      MulLe(n'.stored, s, n.size);
    }
  }

  /** The j-th step gives indexer i a head. */
  ghost predicate Receives(run: seq<System>, steps: seq<Action>, j: nat, i: nat, head: nat)
    requires j < |steps| && |run| == |steps| + 1
  {
    || (steps[j].Head? && steps[j].i == i && steps[j].head == head)
    || (steps[j].Deliver? && steps[j].i == i && Owed(run[j], i) == Some(Forward(head)))
  }

  /** What an indexer knows was confirmed by a head it received before. */
  ghost predicate KnownBy(run: seq<System>, steps: seq<Action>, j: nat, i: nat)
    requires j <= |steps| && |run| == |steps| + 1
  {
    i in run[j].nodes ==>
      var n := run[j].nodes[i];
      n.known > 0 ==> exists k: nat, h :: k < j && Receives(run, steps, k, i, h) && Confirmed(n, h, n.known)
  }

  lemma FewerConfirmed(n: Indexer, n': Indexer, head: nat)
    requires n'.size == n.size && n'.confirms == n.confirms && n'.known <= n.known && Confirmed(n, head, n.known)
    ensures Confirmed(n', head, n'.known)
  {
    MulLe(n'.known, n.known, n.size);
  }

  /** A step lets an indexer know more only by a head that confirms it. */
  lemma StepMakesKnown(n: Indexer, owed: Option<Notice>, parent: Hash -> Hash, a: Action)
    requires Good(n, parent) && Applicable(n, owed, a)
    ensures var n' := Outcome(n, owed, parent, a).0;
      && n'.size == n.size && n'.confirms == n.confirms
      && (n'.known <= n.known
          || (a.Head? && Confirmed(n', a.head, n'.known))
          || (a.Deliver? && owed.value.Forward? && Confirmed(n', owed.value.head, n'.known)))
  {
    match a
    case Head(_, head, synced) => HeadMakesKnown(n, head, synced);
    case Deliver(_, synced) =>
      if owed.value.Forward? {
        HeadMakesKnown(n, owed.value.head, synced);
      }
    case Rewind(_, _) =>
    case Write(_, w) => WriteKeepsKnown(n, w);
    case Begin(_) =>
    case ResetFails(_) =>
    case Read(_, _, _) =>
    case Finish(_, committed) => FinishNeverRaises(n, parent, committed);
  }

  lemma KnownAfterStep(run: seq<System>, steps: seq<Action>, tree: map<nat, nat>, parent: Hash -> Hash, j: nat, i: nat)
    requires IsRun(run, steps, tree, parent) && 0 < j < |run| && i in run[j].nodes && KnownBy(run, steps, j - 1, i)
    requires var s, a := run[j - 1], steps[j - 1];
      && Good(s.nodes[a.i], parent) && Applicable(s.nodes[a.i], Owed(s, a.i), a)
    ensures KnownBy(run, steps, j, i)
  {
    var s, a := run[j - 1], steps[j - 1];
    StepMakesKnown(s.nodes[a.i], Owed(s, a.i), parent, a);
    var n, n' := s.nodes[i], run[j].nodes[i];
    assert run[j] == Apply(s, tree, parent, a);
    if i == a.i && n'.known > n.known {
      var h := if a.Head? then a.head else Owed(s, i).value.head;
      assert Receives(run, steps, j - 1, i, h) && Confirmed(n', h, n'.known);
    } else if n'.known > 0 {
      var k: nat, h :| k < j - 1 && Receives(run, steps, k, i, h) && Confirmed(n, h, n.known);
      FewerConfirmed(n, n', h);
    }
  }

  /**
   In every state of every run without overlaps, the last section an indexer knows has
   its last block as deep as required under some head it was given before.
   */
  lemma {:induction false} KnownIsConfirmed(run: seq<System>, steps: seq<Action>, tree: map<nat, nat>,
                                            parent: Hash -> Hash, j: nat, i: nat)
    requires IsRun(run, steps, tree, parent) && Fresh(run[0], tree, parent) && j < |run|
    requires forall k :: 0 <= k <= j ==> AllSerial(run[k])
    ensures KnownBy(run, steps, j, i)
    decreases j
  {
    if j > 0 && i in run[j].nodes {
      var s, a := run[j - 1], steps[j - 1];
      KnownIsConfirmed(run, steps, tree, parent, j - 1, i);
      HeadsLinkedOverRuns(run, steps, tree, parent, j - 1);
      EnabledIsApplicable(s, tree, a);
      StepMakesKnown(s.nodes[a.i], Owed(s, a.i), parent, a);
      KnownAfterStep(run, steps, tree, parent, j, i);
    }
  }

  ghost predicate NoneClears(s: System) {
    forall i :: i in s.nodes ==> PlaceOf(s.nodes[i], Clearer).None?
  }

  lemma StepNeverClears(s: System, tree: map<nat, nat>, parent: Hash -> Hash, a: Action)
    requires NoneClears(s) && Enabled(s, tree, a) && !a.ResetFails?
    ensures NoneClears(Apply(s, tree, parent, a)) && AllSerial(Apply(s, tree, parent, a))
  {
    assert PlaceOf(Outcome(s.nodes[a.i], Owed(s, a.i), parent, a).0, Clearer).None? by {
      assert PlaceOf(s.nodes[a.i], Clearer).None?;
    }
    hide Outcome, Enabled;
  }

  /** Only a refused section clears. */
  lemma {:induction false} NeverClears(run: seq<System>, steps: seq<Action>, tree: map<nat, nat>, parent: Hash -> Hash, j: nat)
    requires IsRun(run, steps, tree, parent) && Fresh(run[0], tree, parent) && j < |run|
    requires forall a :: a in steps ==> !a.ResetFails?
    ensures forall k :: 0 <= k <= j ==> NoneClears(run[k]) && AllSerial(run[k])
    decreases j
  {
    if j > 0 {
      NeverClears(run, steps, tree, parent, j - 1);
      assert steps[j - 1] in steps;
      StepNeverClears(run[j - 1], tree, parent, steps[j - 1]);
      hide Enabled, Apply;
    }
  }

  lemma FreshIsBounded(s: System, tree: map<nat, nat>, parent: Hash -> Hash)
    requires Fresh(s, tree, parent) && forall i :: i in s.nodes ==> s.nodes[i].size >= 2
    ensures AllBounded(s, tree)
  {
    forall c | c in tree ensures Bounded(s.nodes[tree[c]], s.nodes[c], Owed(s, c)) {
    }
  }

  lemma BoundedWithoutNotice(s: System, tree: map<nat, nat>)
    requires AllBounded(s, tree)
    ensures forall c :: c in tree && c !in s.notices ==>
      s.nodes[c].known * s.nodes[c].size <= Had(s.nodes[tree[c]]) * s.nodes[tree[c]].size
  {
    forall c | c in tree && c !in s.notices
      ensures s.nodes[c].known * s.nodes[c].size <= Had(s.nodes[tree[c]]) * s.nodes[tree[c]].size
    {
      assert Bounded(s.nodes[tree[c]], s.nodes[c], Owed(s, c));
    }
  }

  /**
   With sections of at least two blocks and a backend that never fails to start a
   section, a child without an outstanding notice never knows more blocks than
   its parent has stored, or had when it began to take sections back, at every
   level and in every state of every interleaving.
   */
  lemma {:induction false} ChildrenBoundedOverRuns(run: seq<System>, steps: seq<Action>, tree: map<nat, nat>,
                                                   parent: Hash -> Hash, j: nat)
    requires IsRun(run, steps, tree, parent) && Fresh(run[0], tree, parent) && j < |run|
    requires forall i :: i in run[0].nodes ==> run[0].nodes[i].size >= 2
    requires forall a :: a in steps ==> !a.ResetFails?
    ensures AllBounded(run[j], tree)
    ensures forall c :: c in tree && c !in run[j].notices ==>
      run[j].nodes[c].known * run[j].nodes[c].size <= Had(run[j].nodes[tree[c]]) * run[j].nodes[tree[c]].size
    decreases j
  {
    hide AllBounded, AllGood, Fresh, Enabled, Apply, HeadsBelow, SectionHeads;
    if j == 0 {
      FreshIsBounded(run[0], tree, parent);
    } else {
      ChildrenBoundedOverRuns(run, steps, tree, parent, j - 1);
      NeverClears(run, steps, tree, parent, j - 1);
      HeadsLinkedOverRuns(run, steps, tree, parent, j - 1);
      assert steps[j - 1] in steps;
      StepKeepsBounds(run[j - 1], tree, parent, steps[j - 1]);
    }
    BoundedWithoutNotice(run[j], tree);
  }

  // ---------- two writers at once ----------

  /** Steps inside setValidSections in the given order, writers that have left it standing still. */
  function Race(n: Indexer, order: seq<Writer>): Indexer
    decreases |order|
  {
    if order == [] then n
    else if PlaceOf(n, order[0]).None? then Race(n, order[1..])
    else Race(OnWrite(n, order[0]).0, order[1..])
  }

  lemma {:induction false} RaceOn(n: Indexer, order: seq<Writer>, more: seq<Writer>)
    ensures Race(n, order + more) == Race(Race(n, order), more)
    decreases |order|
  {
    if order == [] {
      assert order + more == more;
    } else {
      assert (order + more)[1..] == order[1..] + more;
      RaceOn(if PlaceOf(n, order[0]).None? then n else OnWrite(n, order[0]).0, order[1..], more);
    }
  }

  /** Exactly the sections below the count have a head. */
  ghost predicate Exact(n: Indexer) {
    forall k: nat :: k in n.heads <==> k < n.stored
  }

  lemma RaceStep(n: Indexer, w: Writer, rest: seq<Writer>)
    requires PlaceOf(n, w).Some?
    ensures Race(n, [w] + rest) == Race(OnWrite(n, w).0, rest)
  {
    assert ([w] + rest)[1..] == rest;
  }

  /** One turn of the loop. */
  lemma OneTurn(n: Indexer, w: Writer)
    requires PlaceOf(n, w) == Some(Testing) && Target(n, w) < n.stored
    ensures Race(n, [w, w, w]) == n.(stored := n.stored - 1, heads := n.heads - {n.stored - 1})
  {
    var n1 := Move(n, w, Lowering);
    var n2 := Move(n1.(stored := n.stored - 1), w, Removing);
    var n3 := n.(stored := n.stored - 1, heads := n.heads - {n.stored - 1});
    RaceStep(n, w, [w, w]);
    RaceStep(n1, w, [w]);
    RaceStep(n2, w, []);
    assert OnWrite(n, w).0 == n1 && OnWrite(n1, w).0 == n2 && OnWrite(n2, w).0 == n3;
    assert [w] + [w, w] == [w, w, w] && [w] + [w] == [w, w] && [w] + [] == [w];
  }

  /** A writer that is alone does as a whole what setValidSections says. */
  lemma {:induction false} AloneIsSetValid(n: Indexer, w: Writer) returns (order: seq<Writer>)
    requires PlaceOf(n, w) == Some(Testing) && Target(n, w) <= n.stored
    ensures forall x :: x in order ==> x == w
    ensures Race(n, order) == Move(SetValid(n, Target(n, w)), w, Settling)
    decreases n.stored
  {
    if n.stored == Target(n, w) {
      order := [w];
      assert SetValid(n, n.stored).heads == n.heads;
      assert Race(n, [w]) == Race(Move(n, w, Settling), []) by { assert [w][1..] == []; }
    } else {
      var n' := n.(stored := n.stored - 1, heads := n.heads - {n.stored - 1});
      OneTurn(n, w);
      var rest := AloneIsSetValid(n', w);
      order := [w, w, w] + rest;
      RaceOn(n, [w, w, w], rest);
      assert SetValid(n', Target(n, w)).heads == SetValid(n, Target(n, w)).heads;
    }
  }

  /** A reorganisation that is alone ends as if it were one step. */
  lemma ReorgAlone(n: Indexer, head: nat) returns (order: seq<Writer>)
    requires n.size > 0 && n.rewind.None?
    ensures (forall x :: x in order ==> x == Rewinder) && Race(OnReorg(n, head).0, order) == WholeReorg(n, head).0
  {
    var n1 := OnReorg(n, head).0;
    order := [];
    if n1.rewind.Some? {
      order := AloneIsSetValid(n1, Rewinder);
      RaceOn(n1, order, [Rewinder]);
      RaceStep(Race(n1, order), Rewinder, []);
      assert [Rewinder] + [] == [Rewinder];
      order := order + [Rewinder];
    }
  }

  /** So does the clearing after a refused section. */
  lemma ClearingAlone(n: Indexer) returns (order: seq<Writer>)
    requires n.flight.Some?
    ensures forall x :: x in order ==> x == Clearer
    ensures Race(OnResetFailure(n), order) ==
      SetValid(n, 0).(flight := Some(Failed(n.flight.value.section, n.flight.value.oldHead)))
  {
    var n1 := OnResetFailure(n);
    order := AloneIsSetValid(n1, Clearer);
    RaceOn(n1, order, [Clearer]);
    RaceStep(Race(n1, order), Clearer, []);
    assert [Clearer] + [] == [Clearer];
    order := order + [Clearer];
  }

  /** A reorganisation and the clearing after a refused section are about to enter the loop together. */
  ghost predicate Overlapping(n: Indexer) {
    && PlaceOf(n, Rewinder) == Some(Testing) && PlaceOf(n, Clearer) == Some(Testing)
    && n.rewind.value.target < n.stored && Exact(n)
  }

  /** The reorganisation runs to its last write, the clearing takes all, and then comes the last write. */
  lemma CountWithoutHeads(n: Indexer) returns (order: seq<Writer>)
    requires Overlapping(n) && n.rewind.value.target > 0
    ensures var n' := Race(n, order);
      Quiet(n') && n'.heads == map[] && n'.stored == n.rewind.value.target
  {
    var down := AloneIsSetValid(n, Rewinder);
    var n1 := Race(n, down);
    var all := AloneIsSetValid(n1, Clearer);
    var n2 := Race(n1, all);
    var n3 := OnWrite(n2, Clearer).0;
    RaceOn(n, down, all);
    RaceStep(n2, Clearer, [Rewinder]);
    RaceStep(n3, Rewinder, []);
    order := (down + all) + [Clearer, Rewinder];
    RaceOn(n, down + all, [Clearer, Rewinder]);
    assert [Clearer] + [Rewinder] == [Clearer, Rewinder] && [Rewinder] + [] == [Rewinder];
    assert n2.heads == map[];
  }

  lemma TwoSteps(n: Indexer, rest: seq<Writer>)
    requires PlaceOf(n, Rewinder).Some? && PlaceOf(n, Clearer).Some? && PlaceOf(n, Rewinder) != Some(Settling)
    ensures Race(n, [Rewinder, Clearer] + rest) == Race(OnWrite(OnWrite(n, Rewinder).0, Clearer).0, rest)
  {
    RaceStep(n, Rewinder, [Clearer] + rest);
    RaceStep(OnWrite(n, Rewinder).0, Clearer, rest);
    assert [Rewinder] + ([Clearer] + rest) == [Rewinder, Clearer] + rest;
  }

  /** Both lower the count before either removes a head: the first head escapes. */
  lemma BothLower(n: Indexer)
    requires Overlapping(n) && n.rewind.value.target == 0 && n.stored >= 2
    ensures Race(n, [Rewinder, Clearer, Rewinder, Clearer, Rewinder, Clearer]) ==
      n.(stored := n.stored - 2, heads := n.heads - {n.stored - 2})
  {
    var n1 := Move(Move(n, Rewinder, Lowering), Clearer, Lowering);
    var n2 := Move(Move(n1.(stored := n.stored - 2), Rewinder, Removing), Clearer, Removing);
    var n3 := n.(stored := n.stored - 2, heads := n.heads - {n.stored - 2});
    assert Race(n, [Rewinder, Clearer] + [Rewinder, Clearer, Rewinder, Clearer])
        == Race(n1, [Rewinder, Clearer, Rewinder, Clearer]) by {
      TwoSteps(n, [Rewinder, Clearer, Rewinder, Clearer]);
    }
    assert Race(n1, [Rewinder, Clearer] + [Rewinder, Clearer]) == Race(n2, [Rewinder, Clearer]) by {
      TwoSteps(n1, [Rewinder, Clearer]);
    }
    assert Race(n2, [Rewinder, Clearer] + []) == Race(n3, []) by {
      assert n.heads - {n.stored - 2} - {n.stored - 2} == n.heads - {n.stored - 2};
      TwoSteps(n2, []);
    }
    assert [Rewinder, Clearer] + [Rewinder, Clearer] == [Rewinder, Clearer, Rewinder, Clearer];
    assert [Rewinder, Clearer] + [Rewinder, Clearer, Rewinder, Clearer]
        == [Rewinder, Clearer, Rewinder, Clearer, Rewinder, Clearer];
    assert [Rewinder, Clearer] + [] == [Rewinder, Clearer];
  }

  lemma HeadWithoutCount(n: Indexer) returns (order: seq<Writer>)
    requires Overlapping(n) && n.rewind.value.target == 0 && n.stored >= 2
    ensures var n' := Race(n, order);
      Quiet(n') && n'.stored == 0 && n.stored - 1 in n'.heads
  {
    var both := [Rewinder, Clearer, Rewinder, Clearer, Rewinder, Clearer];
    BothLower(n);
    var n1 := Race(n, both);
    var all := AloneIsSetValid(n1, Clearer);
    var n2 := Race(n1, all);
    var n3 := OnWrite(n2, Clearer).0;
    var n4 := OnWrite(n3, Rewinder).0;
    RaceOn(n, both, all);
    RaceStep(n2, Clearer, [Rewinder, Rewinder]);
    RaceStep(n3, Rewinder, [Rewinder]);
    RaceStep(n4, Rewinder, []);
    order := (both + all) + [Clearer, Rewinder, Rewinder];
    RaceOn(n, both + all, [Clearer, Rewinder, Rewinder]);
    assert [Clearer] + [Rewinder, Rewinder] == [Clearer, Rewinder, Rewinder];
    assert [Rewinder] + [Rewinder] == [Rewinder, Rewinder] && [Rewinder] + [] == [Rewinder];
    assert n.stored - 1 in n1.heads;
  }

  /** A writer that has seen the count at its target, or has left. */
  predicate IsPast(n: Indexer, w: Writer) {
    PlaceOf(n, w).None? || PlaceOf(n, w).value.Settling?
  }

  /** What two writers keep when only section 0 was stored: its head goes before both are past the loop. */
  ghost predicate OneSection(n: Indexer) {
    && n.heads.Keys <= {0} && (n.rewind.Some? ==> n.rewind.value.target == 0)
    && (0 in n.heads && n.stored == 0 ==> IsRemoving(n))
    && (0 in n.heads && (IsPast(n, Rewinder) || IsPast(n, Clearer)) ==> n.stored == 0)
    && (Quiet(n) ==> n.stored == 0)
  }

  lemma {:induction false} OneSectionIsCleared(n: Indexer, order: seq<Writer>)
    requires OneSection(n)
    ensures OneSection(Race(n, order))
    decreases |order|
  {
    if order != [] {
      var w := order[0];
      OneSectionIsCleared(if PlaceOf(n, w).None? then n else OnWrite(n, w).0, order[1..]);
    }
  }

  lemma OverlapBreaks(n: Indexer) returns (order: seq<Writer>)
    requires Overlapping(n) && n.stored >= 2
    ensures Quiet(Race(n, order)) && !Exact(Race(n, order))
  {
    if n.rewind.value.target > 0 {
      order := CountWithoutHeads(n);
      assert 0 !in Race(n, order).heads;
    } else {
      order := HeadWithoutCount(n);
      assert n.stored - 1 in Race(n, order).heads;
    }
  }

  /** An overlap can end with a count that is not that of the heads, if and only if at least two sections were stored. */
  lemma OverlapBreaksIff(n: Indexer)
    requires Overlapping(n)
    ensures (exists order :: Quiet(Race(n, order)) && !Exact(Race(n, order))) <==> n.stored >= 2
  {
    if n.stored >= 2 {
      var order := OverlapBreaks(n);
      assert Quiet(Race(n, order)) && !Exact(Race(n, order));
    } else {
      assert n.heads.Keys <= {0};
      forall order | Quiet(Race(n, order)) ensures Exact(Race(n, order)) {
        OneSectionIsCleared(n, order);
      }
    }
  }

  // ---------- a run in which two writers meet ----------

  lemma RunFrom(s: System, tree: map<nat, nat>, parent: Hash -> Hash, a: Action, run: seq<System>, steps: seq<Action>)
    requires Enabled(s, tree, a) && IsRun(run, steps, tree, parent) && run[0] == Apply(s, tree, parent, a)
    ensures IsRun([s] + run, [a] + steps, tree, parent)
    ensures ([s] + run)[0] == s && ([s] + run)[|[a] + steps|] == run[|steps|]
  {
    hide Enabled, Apply;
    var r, t := [s] + run, [a] + steps;
    forall j | 0 <= j < |t| ensures Enabled(r[j], tree, t[j]) && r[j + 1] == Apply(r[j], tree, parent, t[j]) {
      if j > 0 {
        assert r[j] == run[j - 1] && t[j] == steps[j - 1] && r[j + 1] == run[j];
      }
    }
  }

  lemma {:induction false} RaceIsRun(s: System, tree: map<nat, nat>, parent: Hash -> Hash, i: nat, order: seq<Writer>)
    returns (run: seq<System>, steps: seq<Action>)
    requires i in s.nodes && s.nodes[i].size > 0
    ensures IsRun(run, steps, tree, parent) && run[0] == s
    ensures i in run[|steps|].nodes && run[|steps|].nodes[i] == Race(s.nodes[i], order)
    decreases |order|
  {
    if order == [] {
      run, steps := [s], [];
    } else if PlaceOf(s.nodes[i], order[0]).None? {
      run, steps := RaceIsRun(s, tree, parent, i, order[1..]);
    } else {
      var a := Write(i, order[0]);
      var s' := Apply(s, tree, parent, a);
      assert s'.nodes[i] == OnWrite(s.nodes[i], order[0]).0;
      WriteKeepsKnown(s.nodes[i], order[0]);
      var rest, more := RaceIsRun(s', tree, parent, i, order[1..]);
      RunFrom(s, tree, parent, a, rest, more);
      run, steps := [s] + rest, [a] + more;
    }
  }

  /** Begin, a refusal and a reorganisation bring the two writers together. */
  lemma RefusalMeets(n: Indexer, parent: Hash -> Hash, head: nat)
    requires Good(n, parent) && Quiet(n) && n.flight.None? && head / n.size < n.stored
    ensures var (n3, told) := OnReorg(OnResetFailure(OnBegin(n)), head);
      Overlapping(n3) && n3.stored == n.stored && n3.size == n.size && told.None?
  {
  }

  lemma RefusalSteps(s: System, tree: map<nat, nat>, parent: Hash -> Hash, i: nat, head: nat)
    returns (s1: System, s2: System, s3: System)
    requires i in s.nodes && i !in tree && Unlocked(s, tree, i) && Good(s.nodes[i], parent)
    requires var n := s.nodes[i];
      n.flight.None? && n.known > n.stored && head / n.size < n.stored
    ensures Enabled(s, tree, Begin(i)) && s1 == Apply(s, tree, parent, Begin(i))
    ensures Enabled(s1, tree, ResetFails(i)) && s2 == Apply(s1, tree, parent, ResetFails(i))
    ensures Enabled(s2, tree, Rewind(i, head)) && s3 == Apply(s2, tree, parent, Rewind(i, head))
    ensures i in s3.nodes && Overlapping(s3.nodes[i]) && s3.nodes[i].stored == s.nodes[i].stored && s3.nodes[i].size > 0
  {
    var n := s.nodes[i];
    RefusalMeets(n, parent, head);
    hide Overlapping, HeadsBelow, InPlace, InRewind, InFlight, OnReorg;
    s1 := System(s.nodes[i := OnBegin(n)], s.notices);
    s2 := System(s.nodes[i := OnResetFailure(OnBegin(n))], s.notices);
    s3 := System(s.nodes[i := OnReorg(OnResetFailure(OnBegin(n)), head).0], s.notices);
  }

  /**
   From every good state, an indexer with two or more stored sections whose next section is
   refused while a reorganisation takes sections back can end with a count that is
   not that of its heads.
   */
  lemma RefusalCanBreak(s: System, tree: map<nat, nat>, parent: Hash -> Hash, i: nat, head: nat)
    returns (run: seq<System>, steps: seq<Action>)
    requires AllGood(s, parent) && i in s.nodes && i !in tree && Unlocked(s, tree, i)
    requires var n := s.nodes[i];
      n.flight.None? && n.known > n.stored >= 2 && head / n.size < n.stored
    ensures IsRun(run, steps, tree, parent) && run[0] == s
    ensures var n' := run[|steps|].nodes;
      i in n' && Quiet(n'[i]) && !SectionHeads(n'[i], parent)
  {
    hide Enabled, Apply, Overlapping, OnReorg, OnBegin, OnResetFailure, IsRun, Quiet, Good, HeadsBelow;
    var s1, s2, s3 := RefusalSteps(s, tree, parent, i, head);
    var order := OverlapBreaks(s3.nodes[i]);
    run, steps := RaceIsRun(s3, tree, parent, i, order);
    RunFrom(s2, tree, parent, Rewind(i, head), run, steps);
    run, steps := [s2] + run, [Rewind(i, head)] + steps;
    RunFrom(s1, tree, parent, ResetFails(i), run, steps);
    run, steps := [s1] + run, [ResetFails(i)] + steps;
    RunFrom(s, tree, parent, Begin(i), run, steps);
    run, steps := [s] + run, [Begin(i)] + steps;
  }
}

/** The mutable indexer, whose critical sections have the effects above. */
module IndexerObjects {
  import opened Txs
  import opened Indexers

  /** What reading a section block by block yields: its last hash if every block continues the one before. */
  function Chained(parent: Hash -> Hash, last: Hash, blocks: seq<(Hash, bool)>): Option<Hash>
    decreases |blocks|
  {
    if blocks == [] then Some(last)
    else if blocks[0].0 == NO_HASH || !blocks[0].1 || parent(blocks[0].0) != last then None
    else Chained(parent, blocks[0].0, blocks[1..])
  }

  lemma {:induction false} AncestorOneMore(parent: Hash -> Hash, h: Hash, d: nat)
    ensures Ancestor(parent, h, d + 1) == parent(Ancestor(parent, h, d))
    decreases d
  {
    if d > 0 {
      AncestorOneMore(parent, parent(h), d - 1);
    }
  }

  /** A section that blocks through ends as many parent links after its start as blocks were read. */
  lemma {:induction false} ChainedIsLinked(parent: Hash -> Hash, last: Hash, blocks: seq<(Hash, bool)>)
    ensures var r := Chained(parent, last, blocks);
      r.Some? ==> Ancestor(parent, r.value, |blocks|) == last && (blocks != [] ==> r.value != NO_HASH)
    decreases |blocks|
  {
    var r := Chained(parent, last, blocks);
    if blocks != [] && r.Some? {
      ChainedIsLinked(parent, blocks[0].0, blocks[1..]);
      AncestorOneMore(parent, r.value, |blocks| - 1);
    }
  }

  /** The atomic reads of a section in flight, one after the other. */
  function ReadAll(n: Indexer, parent: Hash -> Hash, blocks: seq<(Hash, bool)>): (r: Indexer)
    requires n.flight.Some? && n.flight.value.Processing?
    ensures r.flight.Some? && r.size == n.size
    decreases |blocks|
  {
    if blocks == [] then n else
      var n' := OnRead(n, parent, blocks[0].0, blocks[0].1);
      if n'.flight.value.Processing? then ReadAll(n', parent, blocks[1..]) else n'
  }

  /** Reading atomically, with anything in between, comes to the same as reading in one go. */
  lemma {:induction false} ReadsCompose(n: Indexer, parent: Hash -> Hash, blocks: seq<(Hash, bool)>)
    requires n.flight.Some? && n.flight.value.Processing?
    ensures var f, r := n.flight.value, Chained(parent, n.flight.value.last, blocks);
      ReadAll(n, parent, blocks) == n.(flight := Some(
        if r.Some? then f.(last := r.value, done := f.done + |blocks|) else Failed(f.section, f.oldHead)))
    decreases |blocks|
  {
    if blocks != [] {
      var n' := OnRead(n, parent, blocks[0].0, blocks[0].1);
      if n'.flight.value.Processing? {
        ReadsCompose(n', parent, blocks[1..]);
      }
    }
  }

  /** The head a section to be processed has to continue from. */
  function LastHead(n: Indexer): Hash {
    if n.stored == 0 then NO_HASH else SectionHead(n.heads, n.stored - 1)
  }

  /**
   A known section that is read through without interruption is stored under its last
   hash, if the backend commits it, and the children are told; otherwise nothing is
   stored and nothing more is known.
   */
  lemma SectionIsStored(n: Indexer, parent: Hash -> Hash, blocks: seq<(Hash, bool)>, committed: bool)
    requires Good(n, parent) && Quiet(n) && n.flight.None? && n.known > n.stored && |blocks| == n.size
    ensures var last := Chained(parent, LastHead(n), blocks);
      var (n', told) := OnFinish(ReadAll(OnBegin(n), parent, blocks), committed);
      if committed && last.Some? then
        && n' == n.(stored := n.stored + 1, heads := n.heads[n.stored := last.value], cascaded := (n.stored + 1) * n.size - 1)
        && told == Some(Forward((n.stored + 1) * n.size - 1))
      else
        n' == n.(known := n.stored) && told == None
  {
    BeginKeeps(n, parent);
    ReadsCompose(OnBegin(n), parent, blocks);
    if n.stored > 0 {
      assert Linked(n.heads, n.size, parent, n.stored - 1);
    }
    var last := Chained(parent, LastHead(n), blocks);
    if committed && last.Some? {
      var heads := n.heads[n.stored := last.value];
      assert SetValid(n.(heads := heads), n.stored + 1).heads == heads;
    }
  }

  class ChainIndexer {
    const size: nat
    const confirms: nat
    var stored: nat
    var known: nat
    var cascaded: nat
    var checkpoint: nat
    var checkpointHead: Hash
    var heads: map<nat, Hash>

    ghost function View(flight: Option<Flight>): Indexer
      reads this
    {
      Indexer(size, confirms, stored, known, cascaded, checkpoint, checkpointHead, heads, flight, None)
    }

    /** The count of stored sections and their heads are what the database holds. */
    constructor (size: nat, confirms: nat, count: nat, heads: map<nat, Hash>)
      ensures View(None) == Indexer(size, confirms, count, 0, 0, 0, NO_HASH, heads, None, None)
    {
      this.size, this.confirms, this.heads, stored := size, confirms, heads, count;
      known, cascaded, checkpoint, checkpointHead := 0, 0, 0, NO_HASH;
    }

    method SetValidSections(sections: nat, ghost flight: Option<Flight>)
      modifies `stored, `heads
      ensures View(flight) == SetValid(old(View(flight)), sections)
    {
      while stored > sections
        invariant stored <= old(stored) && (stored < old(stored) ==> sections <= stored)
        invariant heads == map k | k in old(heads) && (k < stored || k >= old(stored)) :: old(heads)[k]
      {
        stored := stored - 1;
        heads := heads - {stored};
      }
      stored := sections;
      assert heads == SetValid(old(View(flight)), sections).heads;
    }

    /** Returns the notice owed to the children, if any. */
    method NewHead(head: nat, reorg: bool, synced: Hash, ghost flight: Option<Flight>) returns (note: Option<Notice>)
      requires size > 0
      modifies `stored, `known, `cascaded, `heads
      ensures (View(flight), note) ==
        if reorg then WholeReorg(old(View(flight)), head) else (OnHead(old(View(flight)), head, synced), None)
    {
      note := None;
      if reorg {
        var newKnown := head / size;
        var newStored := newKnown;
        if newKnown < checkpoint {
          newStored := checkpoint;
          newKnown := 0;
        }
        if newKnown < known {
          known := newKnown;
        }
        if newStored < stored {
          SetValidSections(newStored, flight);
        }
        if newKnown * size < cascaded {
          cascaded := newKnown * size;
          note := Some(Reorg(cascaded));
        }
        return;
      }
      if head >= confirms {
        var sections := (head + 1 - confirms) % TWO64 / size;
        if sections < checkpoint {
          sections := 0;
        }
        if sections > known {
          if known < checkpoint && synced != checkpointHead {
            return;
          }
          known := sections;
        }
      }
    }

    /** The section to process next, and the head it has to continue from. */
    method BeginUpdate() returns (section: nat, oldHead: Hash)
      ensures OnBegin(View(None)) == View(Some(Processing(section, oldHead, oldHead, 0)))
    {
      section, oldHead := stored, NO_HASH;
      if section > 0 {
        oldHead := SectionHead(heads, section - 1);
      }
    }

    /**
     Processes a section outside the lock.  `blocks` is what the chain database
     returned for each of its blocks at the moment it was asked.
     */
    method ProcessSection(section: nat, oldHead: Hash, parent: Hash -> Hash, blocks: seq<(Hash, bool)>, commits: bool)
      returns (newHead: Option<Hash>)
      requires |blocks| == size
      ensures newHead == if commits then Chained(parent, oldHead, blocks) else None
      ensures newHead.Some? ==> Ancestor(parent, newHead.value, size) == oldHead
      ensures newHead.Some? ==>
        ReadAll(View(Some(Processing(section, oldHead, oldHead, 0))), parent, blocks)
        == View(Some(Processing(section, oldHead, newHead.value, size)))
    {
      var last := oldHead;
      ReadsCompose(View(Some(Processing(section, oldHead, oldHead, 0))), parent, blocks);
      ChainedIsLinked(parent, oldHead, blocks);
      for i := 0 to size
        invariant Chained(parent, oldHead, blocks) == Chained(parent, last, blocks[i..])
      {
        var (hash, found) := blocks[i];
        if hash == NO_HASH || !found || parent(hash) != last {
          return None;
        }
        last := hash;
      }
      newHead := if commits then Some(last) else None;
    }

    /** Stores the section if processing succeeded and no reorganisation intervened. */
    method FinishUpdate(section: nat, oldHead: Hash, newHead: Option<Hash>) returns (note: Option<Notice>)
      requires size > 0
      modifies `stored, `known, `cascaded, `heads
      ensures var f := if newHead.Some? then Processing(section, oldHead, newHead.value, size) else Failed(section, oldHead);
        (View(None), note) == OnFinish(old(View(Some(f))), true)
    {
      note := None;
      if newHead.Some? && oldHead == SectionHead(heads, Prev(section)) {
        heads := heads[section := newHead.value];
        SetValidSections(section + 1, None);
        cascaded := stored * size - 1;
        note := Some(Forward(cascaded));
      } else {
        known := stored;
      }
    }
  }
}

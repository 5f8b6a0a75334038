/**
 TxPool: the state machine over pending and queued transactions.  Account lists
 are kept by value; `priced` is the lazily cleaned price heap.
 */
module TxPools {
  import opened Txs
  import opened SortedMaps
  import opened TxLists
  import opened PricedLists
  import opened PoolStates
  import opened SlotLimits
  import opened Heaps
  import opened Heartbeats
  import Chains

  /** The configuration; gasMode tells whether gas is charged at all. */
  datatype Config = Config(priceLimit: nat, priceBump: nat, accountSlots: nat, globalSlots: nat, accountQueue: nat,
                           globalQueue: nat, lifetime: int, gasMode: bool)

  const DEFAULT_GAS_PRICE: nat := 1000

  /** Three hours in nanoseconds. */
  const DEFAULT_LIFETIME: int := 3 * 60 * 60 * 1_000_000_000

  /** What sanitising guarantees of the configuration. */
  predicate Sane(c: Config) {
    && c.priceBump > 0 && c.accountSlots > 0 && c.globalSlots > 0 && c.accountQueue > 0 && c.globalQueue > 0
    && c.lifetime > 0 && (c.gasMode ==> c.priceLimit >= DEFAULT_GAS_PRICE)
  }

  /** Replaces settings that cannot work by the default ones. */
  function Sanitize(c: Config): (r: Config)
    ensures Sane(r) && (Sane(c) ==> r == c)
    ensures r.priceLimit == c.priceLimit || (c.gasMode && c.priceLimit < 1000 && r.priceLimit == 1000)
    ensures (r.priceBump == c.priceBump || r.priceBump == 10) && (r.accountSlots == c.accountSlots || r.accountSlots == 80)
    ensures (r.globalSlots == c.globalSlots || r.globalSlots == 20_480) && (r.accountQueue == c.accountQueue || r.accountQueue == 320)
    ensures (r.globalQueue == c.globalQueue || r.globalQueue == 5_120) && (r.lifetime == c.lifetime || r.lifetime == 10_800_000_000_000)
    ensures c.priceBump > 0 && c.accountSlots > 0 && c.globalSlots > 0 && c.accountQueue > 0 && c.globalQueue > 0 && c.lifetime > 0 ==>
      r == c.(priceLimit := r.priceLimit)
  {
    c.(priceLimit := if c.gasMode && c.priceLimit < DEFAULT_GAS_PRICE then DEFAULT_GAS_PRICE else c.priceLimit,
       priceBump := if c.priceBump < 1 then 10 else c.priceBump,
       accountSlots := if c.accountSlots < 1 then 16 * 5 else c.accountSlots,
       globalSlots := if c.globalSlots < 1 then 4096 * 5 else c.globalSlots,
       accountQueue := if c.accountQueue < 1 then 64 * 5 else c.accountQueue,
       globalQueue := if c.globalQueue < 1 then 1024 * 5 else c.globalQueue,
       lifetime := if c.lifetime < 1 then DEFAULT_LIFETIME else c.lifetime)
  }

  datatype PoolError =
    | KnownTransaction
    | GasPriceGtZero
    | OversizedData
    | NegativeValue
    | NegativeFee
    | GasLimit
    | InvalidSender
    | InvalidPayer
    | Underpriced
    | NonceTooLow
    | InsufficientFundsForPayer
    | InsufficientFundsForSender
    | InsufficientFunds
    | OutOfGas
    | IntrinsicGas
    | ReplaceUnderpriced

  datatype AddResult = Rejected(error: PoolError) | Accepted(replaced: bool)

  /** A transaction that the chain has passed, or that cannot be paid for. */
  ghost predicate Useless(t: Tx, chain: Chain) {
    t.nonce < chain.NonceOf(t.From()) || Unpayable(t, chain.BalanceOf(t.From()), chain.maxGas, chain)
  }

  /** The rules that do not depend on the chain. */
  predicate WithinRules(t: Tx, gasPrice: int, gasMode: bool) {
    && t.size <= 32 * 1024 && t.value >= 0 && (t.fee.Some? ==> t.fee.value >= 0)
    && if gasMode then t.gasPrice >= gasPrice && t.intrinsic.Some? && t.intrinsic.value <= t.gas else t.gasPrice <= 0
  }

  /**
   validateTx: the first rule of consensus or of the node that the transaction
   breaks.  It admits exactly what keeps the rules and would not be dropped as
   useless from a list.
   */
  function Validate(t: Tx, chain: Chain, gasPrice: int, gasMode: bool): (e: Option<PoolError>)
    ensures e.None? <==> WithinRules(t, gasPrice, gasMode) && !Useless(t, chain)
    ensures e != Some(KnownTransaction) && e != Some(ReplaceUnderpriced)
  {
    if !gasMode && t.gasPrice > 0 then Some(GasPriceGtZero)
    else if t.size > 32 * 1024 then Some(OversizedData)
    else if t.value < 0 then Some(NegativeValue)
    else if t.fee.Some? && t.fee.value < 0 then Some(NegativeFee)
    else if chain.maxGas < t.gas then Some(GasLimit)
    else if t.sender.None? then Some(InvalidSender)
    else if t.payer.None? then Some(InvalidPayer)
    else if gasMode && gasPrice > t.gasPrice then Some(Underpriced)
    else if chain.NonceOf(t.From()) > t.nonce then Some(NonceTooLow)
    else if t.PaidByOther() && chain.BalanceOf(t.payer.value) < t.GasCost() then Some(InsufficientFundsForPayer)
    else if t.PaidByOther() && chain.BalanceOf(t.From()) < t.AmountCost() then Some(InsufficientFundsForSender)
    else if !t.PaidByOther() && chain.BalanceOf(t.From()) < t.Cost() then Some(InsufficientFunds)
    else if gasMode && t.intrinsic.None? then Some(OutOfGas)
    else if gasMode && t.gas < t.intrinsic.value then Some(IntrinsicGas)
    else None
  }

  lemma AdmittedIsSigned(t: Tx, chain: Chain, gasPrice: int, gasMode: bool)
    ensures Validate(t, chain, gasPrice, gasMode).None? ==> t.sender.Some? && (gasMode ==> t.gasPrice >= gasPrice)
  {
  }

  /** What each rule forbids, whatever the other rules say. */
  predicate Breaks(t: Tx, rule: PoolError, chain: Chain, gasPrice: int, gasMode: bool) {
    match rule
    case GasPriceGtZero => !gasMode && t.gasPrice > 0
    case OversizedData => t.size > 32_768
    case NegativeValue => t.value < 0
    case NegativeFee => t.fee.Some? && t.fee.value < 0
    case GasLimit => t.gas > chain.maxGas
    case InvalidSender => t.sender == None
    case InvalidPayer => t.payer == None
    case Underpriced => gasMode && t.gasPrice < gasPrice
    case NonceTooLow => t.nonce < chain.NonceOf(t.From())
    case InsufficientFundsForPayer => t.PaidByOther() && t.gasPrice * t.gas > chain.BalanceOf(t.payer.value)
    case InsufficientFundsForSender => t.PaidByOther() && t.AmountCost() > chain.BalanceOf(t.From())
    case InsufficientFunds => !t.PaidByOther() && t.gasPrice * t.gas + t.AmountCost() > chain.BalanceOf(t.From())
    case OutOfGas => gasMode && t.intrinsic == None
    case IntrinsicGas => gasMode && t.intrinsic.Some? && t.intrinsic.value > t.gas
    case _ => false
  }

  /** The order in which the rules are looked at. */
  function Rank(rule: PoolError): nat {
    match rule
    case GasPriceGtZero => 0
    case OversizedData => 1
    case NegativeValue => 2
    case NegativeFee => 3
    case GasLimit => 4
    case InvalidSender => 5
    case InvalidPayer => 6
    case Underpriced => 7
    case NonceTooLow => 8
    case InsufficientFundsForPayer => 9
    case InsufficientFundsForSender => 10
    case InsufficientFunds => 11
    case OutOfGas => 12
    case IntrinsicGas => 13
    case _ => 14
  }

  ghost predicate FirstBroken(t: Tx, rule: PoolError, chain: Chain, gasPrice: int, gasMode: bool) {
    && Breaks(t, rule, chain, gasPrice, gasMode)
    && forall other :: Rank(other) < Rank(rule) ==> !Breaks(t, other, chain, gasPrice, gasMode)
  }

  lemma RefusedNoLater(t: Tx, chain: Chain, gasPrice: int, gasMode: bool, rule: PoolError)
    requires Breaks(t, rule, chain, gasPrice, gasMode)
    ensures var e := Validate(t, chain, gasPrice, gasMode);
      e.Some? && Breaks(t, e.value, chain, gasPrice, gasMode) && (e.value == rule || Rank(e.value) < Rank(rule))
  {
  }

  /** A transaction is refused for the first rule it breaks. */
  lemma RefusedForFirstBroken(t: Tx, chain: Chain, gasPrice: int, gasMode: bool, rule: PoolError)
    ensures Validate(t, chain, gasPrice, gasMode) == Some(rule) <==> FirstBroken(t, rule, chain, gasPrice, gasMode)
  {
    if Validate(t, chain, gasPrice, gasMode) == Some(rule) {
      assert Breaks(t, rule, chain, gasPrice, gasMode);
    }
    hide Validate, Breaks, Rank;
    forall other | Breaks(t, other, chain, gasPrice, gasMode)
      ensures var e := Validate(t, chain, gasPrice, gasMode);
        e.Some? && Breaks(t, e.value, chain, gasPrice, gasMode) && (e.value == other || Rank(e.value) < Rank(other))
    {
      RefusedNoLater(t, chain, gasPrice, gasMode, other);
    }
  }

  /** No self-paid transaction of a list is useless. */
  ghost predicate Usable(m: TxMap, chain: Chain) {
    forall n :: n in m && SelfPaid(m[n]) ==> !Useless(m[n], chain)
  }

  ghost predicate AllUsable(p: Accounts, chain: Chain) {
    forall a :: Usable(Items(p, a), chain)
  }

  lemma PartIsUsable(m: TxMap, l: TxMap, chain: Chain)
    requires Part(m, l) && Usable(l, chain)
    ensures Usable(m, chain)
  {
    hide Useless;
  }

  lemma ShrunkIsUsable(p: Accounts, p': Accounts, chain: Chain)
    requires Shrunk(p, p')
    ensures forall a :: Usable(Items(p, a), chain) ==> Usable(Items(p', a), chain)
  {
    forall a | Usable(Items(p, a), chain) ensures Usable(Items(p', a), chain) {
      PartIsUsable(Items(p', a), Items(p, a), chain);
    }
  }

  lemma KnownIsUsable(p: Accounts, q: Accounts, all: set<Tx>, chain: Chain)
    requires Partition(p, q, all, {}) && AllUsable(p, chain) && AllUsable(q, chain)
    ensures forall t :: t in all && SelfPaid(t) ==> !Useless(t, chain)
  {
    hide Useless;
    forall t | t in all && SelfPaid(t) ensures !Useless(t, chain) {
      assert Holds(p, t) || Holds(q, t);
      assert Usable(Items(p, t.From()), chain) && Usable(Items(q, t.From()), chain);
    }
  }

  /** One account's lists have gained exactly the given transactions. */
  ghost predicate Gained(p: Accounts, p': Accounts, a: Address, more: TxMap) {
    Items(p', a) == Items(p, a) + more && forall b :: b != a ==> Items(p', b) == Items(p, b)
  }

  /** What an account has queued is free in its pending list. */
  lemma FreeOfPending(p: Accounts, q: Accounts, all: set<Tx>, a: Address, ready: TxMap)
    requires Partition(p, q, all, {}) && Part(ready, Items(q, a))
    ensures Items(p, a).Keys !! ready.Keys
  {
  }

  lemma GainedBeats(b: map<Address, int>, p: Accounts, p': Accounts, a: Address, more: TxMap, now: int)
    requires Gained(p, p', a, more) && Items(p, a).Keys !! more.Keys
    ensures Beaten(b, if more == map[] then b else b[a := now], p, p', now) && Shrunk(p', p)
    ensures forall c :: c != a ==> Items(p', c) == Items(p, c)
  {
    BeatenOne(b, p, p', a, more, now);
  }

  /** One account gains usable transactions. */
  lemma MoreIsUsable(p: Accounts, p': Accounts, a: Address, more: TxMap, chain: Chain)
    requires AllUsable(p, chain) && Usable(more, chain) && Gained(p, p', a, more)
    ensures AllUsable(p', chain)
  {
    hide Useless;
    forall b ensures Usable(Items(p', b), chain) {
      assert Usable(Items(p, b), chain);
    }
  }

  /** What forwarding and filtering leave is usable, because the caps bound the list. */
  lemma FilteredIsUsable(m: Accounts, a: Address, l: TxL, chain: Chain)
    requires AllFit(m) && Part(l.txs, Items(m, a)) && CapsBound(l)
    requires forall n :: n in l.txs ==> n >= chain.NonceOf(a)
    ensures Usable(AfterFilter(l, chain.BalanceOf(a), chain.maxGas, chain).txs, chain)
  {
    FilterLeavesPayable(l, chain.BalanceOf(a), chain.maxGas, chain);
    var l' := AfterFilter(l, chain.BalanceOf(a), chain.maxGas, chain);
    forall n | n in l'.txs && SelfPaid(l'.txs[n]) ensures !Useless(l'.txs[n], chain) {
      assert l'.txs[n] == l.txs[n];
      assert Fits(Items(m, a)[n], a, n);
    }
  }

  /** Only useless transactions have left. */
  ghost predicate OnlyUselessLeft(before: set<Tx>, after: set<Tx>, chain: Chain) {
    forall t :: t in before && t !in after ==> Useless(t, chain)
  }

  /** Only useless or remote transactions have left. */
  ghost predicate LocalsSpared(before: set<Tx>, after: set<Tx>, locals: set<Address>, chain: Chain) {
    forall t :: t in before && t !in after ==> Useless(t, chain) || !IsLocal(t, locals)
  }

  /** A full pool makes room for a local sender's transaction or one dearer than the cheapest there is. */
  ghost predicate Outbids(t: Tx, all: set<Tx>, locals: set<Address>) {
    IsLocal(t, locals) || all == {} || exists u :: u in all && u.gasPrice < t.gasPrice
  }

  /** Where a valid transaction goes: in place of the pending one with its nonce, or into the queue. */
  ghost function Placing(p: Accounts, q: Accounts, t: Tx, bump: nat): AddResult
    requires t.sender.Some?
  {
    if !Free(p, t) then
      if Accepts(p[t.From()], t, bump) then Accepted(true) else Rejected(ReplaceUnderpriced)
    else if Accepts(ListOr(q, t.From(), false), t, bump) then Accepted(!Free(q, t))
    else Rejected(ReplaceUnderpriced)
  }

  /** The known transactions with the sender and the nonce of t. */
  function SameSlot(all: set<Tx>, t: Tx): set<Tx> {
    set u | u in all && u.sender == t.sender && u.nonce == t.nonce
  }

  /** Whether a transaction gets its slot, by the known transactions alone. */
  ghost function SlotResult(all: set<Tx>, t: Tx, bump: nat): AddResult {
    if SameSlot(all, t) == {} then Accepted(false)
    else if forall u :: u in SameSlot(all, t) ==> Outpays(t, u, bump) then Accepted(true)
    else Rejected(ReplaceUnderpriced)
  }

  /** The price that takes the place of a transaction in a list. */
  lemma AcceptsByPrice(l: TxL, t: Tx, bump: nat)
    requires t.nonce in l.txs
    ensures var prev := l.txs[t.nonce];
      Accepts(l, t, bump) <==> prev.gasPrice < t.gasPrice && 100 * t.gasPrice > prev.gasPrice * (100 + bump) - 100
  {
  }

  lemma SlotOutpaid(all: set<Tx>, t: Tx, bump: nat)
    ensures SlotResult(all, t, bump).Accepted? <==> forall u :: u in SameSlot(all, t) ==> Outpays(t, u, bump)
  {
    hide SameSlot, Outpays;
  }

  /** The price a slot costs, against each transaction that holds it. */
  lemma SlotPrice(all: set<Tx>, t: Tx, bump: nat)
    ensures SlotResult(all, t, bump).Accepted? <==> forall u :: u in SameSlot(all, t) ==>
      u.gasPrice < t.gasPrice && 100 * t.gasPrice > u.gasPrice * (100 + bump) - 100
    ensures !SlotResult(all, t, bump).Accepted? ==> SlotResult(all, t, bump) == Rejected(ReplaceUnderpriced)
  {
    hide SameSlot, BumpedPrice;
    forall u | u in SameSlot(all, t)
      ensures Outpays(t, u, bump) <==> u.gasPrice < t.gasPrice && 100 * t.gasPrice > u.gasPrice * (100 + bump) - 100
    {
    }
  }

  ghost function KnownAfter(all: set<Tx>, t: Tx, bump: nat): set<Tx> {
    if SlotResult(all, t, bump).Accepted? then all - SameSlot(all, t) + {t} else all
  }

  /** The transactions of a slot are what the lists hold there. */
  lemma SlotIsHeld(p: Accounts, q: Accounts, all: set<Tx>, t: Tx)
    requires Partition(p, q, all, {}) && t.sender.Some?
    ensures !Free(p, t) ==> SameSlot(all, t) == {Items(p, t.From())[t.nonce]}
    ensures Free(p, t) && !Free(q, t) ==> SameSlot(all, t) == {Items(q, t.From())[t.nonce]}
    ensures Free(p, t) && Free(q, t) ==> SameSlot(all, t) == {}
  {
    forall m | m in [p, q] && !Free(m, t)
      ensures Holds(m, Items(m, t.From())[t.nonce]) && Items(m, t.From())[t.nonce].sender == t.sender
    {
      assert Fits(Items(m, t.From())[t.nonce], t.From(), t.nonce);
    }
    forall u | u in SameSlot(all, t) ensures Holds(p, u) || Holds(q, u) {
    }
    assert p in [p, q] && q in [p, q];
  }

  /** The lists decide as the known transactions do. */
  lemma PlacingIsSlotResult(p: Accounts, q: Accounts, all: set<Tx>, t: Tx, bump: nat)
    requires Partition(p, q, all, {}) && t.sender.Some?
    ensures Placing(p, q, t, bump) == SlotResult(all, t, bump)
  {
    SlotIsHeld(p, q, all, t);
    hide Partition, Outpays;
  }

  /**
   What making room in a full pool of size `cap` may leave: only remote
   transactions go, none of them better than a remote one that stays, and no
   more of them than it takes to get below the cap.
   */
  ghost predicate RoomMade(all: set<Tx>, spared: set<Tx>, locals: set<Address>, cap: nat) {
    && spared <= all && |spared| >= cap - 1
    && (forall d :: d in all - spared ==> !IsLocal(d, locals))
    && (forall d, k :: d in all - spared && k in spared && !IsLocal(k, locals) ==> !Worse(k, d))
  }

  /**
   How the pool decides on t when it knows `all`: `spared` is what a full pool
   keeps to make room for it, and `known` what the pool knows afterwards.
   */
  ghost predicate Decides(t: Tx, local: bool, all: set<Tx>, spared: set<Tx>, locals: set<Address>, r: AddResult,
                          known: set<Tx>, chain: Chain, gasPrice: int, config: Config)
  {
    var e := Validate(t, chain, gasPrice, config.gasMode);
    var cap := config.globalSlots + config.globalQueue;
    if t in all then r == Rejected(KnownTransaction) && known == all
    else if e.Some? then r == Rejected(e.value) && known == all
    else if !local && |all| >= cap && !Outbids(t, all, locals) then r == Rejected(Underpriced) && known == all
    else
      && (if !local && |all| >= cap then RoomMade(all, spared, locals, cap) else spared == all)
      && r == SlotResult(spared, t, config.priceBump) && known == KnownAfter(spared, t, config.priceBump)
  }

  /**
   What a decision means for the pool: t is in afterwards exactly if it is accepted, nobody but
   the holder of its slot leaves unless a remote transaction finds the pool full, no local
   one leaves but from the slot, and for want of price only a remote one in a full pool is refused
   that keeps the floor.
   */
  lemma DecisionMeans(t: Tx, local: bool, all: set<Tx>, spared: set<Tx>, locals: set<Address>, r: AddResult,
                      known: set<Tx>, chain: Chain, gasPrice: int, config: Config)
    requires Decides(t, local, all, spared, locals, r, known, chain, gasPrice, config)
    ensures t in known <==> t in all || r.Accepted?
    ensures local || |all| < config.globalSlots + config.globalQueue ==>
      (if r.Accepted? then all - known == SameSlot(all, t) else known == all)
    ensures forall d :: d in all - known ==> !IsLocal(d, locals) || (r.Accepted? && d in SameSlot(all, t))
    ensures r == Rejected(Underpriced) ==>
      || (config.gasMode && t.gasPrice < gasPrice)
      || (!local && !IsLocal(t, locals) && |all| >= config.globalSlots + config.globalQueue
          && forall u :: u in all ==> t.gasPrice <= u.gasPrice)
    ensures r.Accepted? ==> WithinRules(t, gasPrice, config.gasMode) && !Useless(t, chain) && SameSlot(known, t) == {t}
  {
    hide Outpays;
    if r == Rejected(Underpriced) {
      RefusedForFirstBroken(t, chain, gasPrice, config.gasMode, Underpriced);
    }
    hide Validate, WithinRules, Useless;
  }

  /** One transaction of a batch: what was spared for it, and what is known and local afterwards. */
  datatype Decision = Decision(spared: set<Tx>, known: set<Tx>, locals: set<Address>)

  ghost function After(all: set<Tx>, decisions: seq<Decision>): set<Tx> {
    if decisions == [] then all else decisions[|decisions| - 1].known
  }

  ghost function LocalsAfter(locals: set<Address>, decisions: seq<Decision>): set<Address> {
    if decisions == [] then locals else decisions[|decisions| - 1].locals
  }

  /** Which accounts are local afterwards: only a local transaction can add one, its sender. */
  ghost predicate Joins(t: Tx, local: bool, before: set<Address>, after: set<Address>) {
    before <= after <= before + if local then {t.From()} else {}
  }

  /** Every transaction of a batch is decided on as if it came alone, after those before it. */
  ghost predicate DecidesAll(txs: seq<Tx>, local: bool, all: set<Tx>, locals: set<Address>, decisions: seq<Decision>,
                             rs: seq<AddResult>, chain: Chain, gasPrice: int, config: Config)
  {
    && |decisions| == |txs| == |rs|
    && forall i :: 0 <= i < |txs| ==>
      && Decides(txs[i], local, After(all, decisions[..i]), decisions[i].spared, LocalsAfter(locals, decisions[..i]), rs[i],
                 decisions[i].known, chain, gasPrice, config)
      && Joins(txs[i], local, LocalsAfter(locals, decisions[..i]), decisions[i].locals)
  }

  lemma NothingDecided(txs: seq<Tx>, local: bool, all: set<Tx>, locals: set<Address>, chain: Chain, gasPrice: int,
                       config: Config)
    ensures DecidesAll(txs[..0], local, all, locals, [], [], chain, gasPrice, config)
  {
  }

  lemma DecidesMore(txs: seq<Tx>, i: nat, local: bool, all: set<Tx>, locals: set<Address>, decisions: seq<Decision>, decision: Decision,
                    rs: seq<AddResult>, r: AddResult, chain: Chain, gasPrice: int, config: Config)
    requires i < |txs| && DecidesAll(txs[..i], local, all, locals, decisions, rs, chain, gasPrice, config)
    requires Decides(txs[i], local, After(all, decisions), decision.spared, LocalsAfter(locals, decisions), r, decision.known, chain, gasPrice, config)
    requires Joins(txs[i], local, LocalsAfter(locals, decisions), decision.locals)
    ensures DecidesAll(txs[..i + 1], local, all, locals, decisions + [decision], rs + [r], chain, gasPrice, config)
  {
    hide Decides, After, LocalsAfter, Joins;
    var more := decisions + [decision];
    forall j | 0 <= j < i + 1
      ensures Decides(txs[..i + 1][j], local, After(all, more[..j]), more[j].spared, LocalsAfter(locals, more[..j]),
                      (rs + [r])[j], more[j].known, chain, gasPrice, config)
      ensures Joins(txs[..i + 1][j], local, LocalsAfter(locals, more[..j]), more[j].locals)
    {
      assert more[..j] == decisions[..j];
      if j == i {
        assert decisions[..i] == decisions;
      } else {
        assert txs[..i][j] == txs[j];
      }
    }
  }

  lemma SubsetSize(less: set<Tx>, more: set<Tx>)
    requires less <= more
    ensures |less| <= |more|
  {
    assert more == less + (more - less);
  }

  lemma DecidedLength(txs: seq<Tx>, local: bool, all: set<Tx>, locals: set<Address>, decisions: seq<Decision>,
                      rs: seq<AddResult>, chain: Chain, gasPrice: int, config: Config)
    requires DecidesAll(txs, local, all, locals, decisions, rs, chain, gasPrice, config)
    ensures |decisions| == |txs| == |rs| && decisions[..|txs|] == decisions
  {
  }

  lemma DecisionBrings(t: Tx, local: bool, all: set<Tx>, spared: set<Tx>, locals: set<Address>, r: AddResult,
                       known: set<Tx>, chain: Chain, gasPrice: int, config: Config)
    requires Decides(t, local, all, spared, locals, r, known, chain, gasPrice, config)
    ensures known <= all + {t}
  {
    hide Outbids, SlotResult, SameSlot, Validate;
  }

  /** The last of the first k decisions of a batch. */
  lemma DecidedLast(txs: seq<Tx>, local: bool, all: set<Tx>, locals: set<Address>, decisions: seq<Decision>,
                    rs: seq<AddResult>, chain: Chain, gasPrice: int, config: Config, k: nat)
    requires DecidesAll(txs, local, all, locals, decisions, rs, chain, gasPrice, config) && 0 < k <= |txs|
    ensures |decisions| == |txs| == |rs| && After(all, decisions[..k]) == decisions[k - 1].known
    ensures Decides(txs[k - 1], local, After(all, decisions[..k - 1]), decisions[k - 1].spared,
                    LocalsAfter(locals, decisions[..k - 1]), rs[k - 1], After(all, decisions[..k]), chain, gasPrice, config)
  {
    hide Decides;
    assert decisions[..k][k - 1] == decisions[k - 1];
  }

  /** A batch only brings in its own transactions. */
  lemma {:induction false} BatchBrings(txs: seq<Tx>, local: bool, all: set<Tx>, locals: set<Address>, decisions: seq<Decision>,
                                       rs: seq<AddResult>, chain: Chain, gasPrice: int, config: Config, k: nat)
    requires DecidesAll(txs, local, all, locals, decisions, rs, chain, gasPrice, config) && k <= |txs|
    ensures k <= |decisions| && After(all, decisions[..k]) <= all + Members(txs)
  {
    DecidedLength(txs, local, all, locals, decisions, rs, chain, gasPrice, config);
    if k > 0 {
      hide DecidesAll, Decides, After;
      BatchBrings(txs, local, all, locals, decisions, rs, chain, gasPrice, config, k - 1);
      DecidedLast(txs, local, all, locals, decisions, rs, chain, gasPrice, config, k);
      DecisionBrings(txs[k - 1], local, After(all, decisions[..k - 1]), decisions[k - 1].spared,
                     LocalsAfter(locals, decisions[..k - 1]), rs[k - 1], After(all, decisions[..k]), chain, gasPrice, config);
      assert txs[k - 1] in Members(txs);
    }
  }

  /** A valid transaction whose slot no other of the given ones has. */
  ghost predicate Uncontested(t: Tx, all: set<Tx>, chain: Chain, gasPrice: int, config: Config) {
    Validate(t, chain, gasPrice, config.gasMode).None? && SameSlot(all, t) <= {t}
  }

  lemma UncontestedAmongFewer(t: Tx, all: set<Tx>, less: set<Tx>, chain: Chain, gasPrice: int, config: Config)
    requires Uncontested(t, all, chain, gasPrice, config) && less <= all
    ensures Uncontested(t, less, chain, gasPrice, config)
  {
    hide Validate;
    assert SameSlot(less, t) <= SameSlot(all, t);
  }

  /** In a pool that is not full an uncontested transaction keeps its slot, or gets it. */
  lemma UncontestedIsDecided(u: Tx, t: Tx, local: bool, all: set<Tx>, spared: set<Tx>, locals: set<Address>, r: AddResult,
                             known: set<Tx>, chain: Chain, gasPrice: int, config: Config)
    requires Decides(u, local, all, spared, locals, r, known, chain, gasPrice, config)
    requires |all| < config.globalSlots + config.globalQueue && Uncontested(t, all + {u}, chain, gasPrice, config)
    requires t in all || u == t
    ensures t in known
  {
    hide Outbids, RoomMade, Outpays, Validate;
    assert u.sender == t.sender && u.nonce == t.nonce ==> u in SameSlot(all + {u}, t);
    assert SameSlot(all, t) <= SameSlot(all + {u}, t);
  }

  /** An uncontested transaction of a batch is known afterwards, if the pool does not fill up. */
  lemma {:induction false} UncontestedIsKept(txs: seq<Tx>, local: bool, all: set<Tx>, locals: set<Address>, decisions: seq<Decision>,
                                             rs: seq<AddResult>, chain: Chain, gasPrice: int, config: Config, i: nat, k: nat)
    requires DecidesAll(txs, local, all, locals, decisions, rs, chain, gasPrice, config) && i < k <= |txs|
    requires |all + Members(txs)| < config.globalSlots + config.globalQueue
    requires Uncontested(txs[i], all + Members(txs), chain, gasPrice, config)
    ensures k <= |decisions| && txs[i] in After(all, decisions[..k])
  {
    hide Decides, DecidesAll, After, Uncontested;
    if i < k - 1 {
      UncontestedIsKept(txs, local, all, locals, decisions, rs, chain, gasPrice, config, i, k - 1);
    }
    BatchBrings(txs, local, all, locals, decisions, rs, chain, gasPrice, config, k - 1);
    var before := After(all, decisions[..k - 1]);
    SubsetSize(before, all + Members(txs));
    assert txs[k - 1] in Members(txs);
    UncontestedAmongFewer(txs[i], all + Members(txs), before + {txs[k - 1]}, chain, gasPrice, config);
    DecidedLast(txs, local, all, locals, decisions, rs, chain, gasPrice, config, k);
    UncontestedIsDecided(txs[k - 1], txs[i], local, before, decisions[k - 1].spared, LocalsAfter(locals, decisions[..k - 1]),
                         rs[k - 1], After(all, decisions[..k]), chain, gasPrice, config);
  }

  /** In gas mode no remote transaction is below the pool's price. */
  ghost predicate AboveFloor(all: set<Tx>, locals: set<Address>, gasPrice: int, gasMode: bool) {
    gasMode ==> forall t :: t in all ==> IsLocal(t, locals) || t.gasPrice >= gasPrice
  }

  lemma ValuesMember(m: TxMap, n: uint64)
    requires n in m
    ensures m[n] in Values(m)
  {
  }

  lemma NoValues()
    ensures Values(map[]) == {}
  {
  }

  datatype Op =
    | AddOne(t: Tx, local: bool, now: int)
    | AddBatch(txs: seq<Tx>, local: bool, now: int)
    | Reprice(price: int)
    | EvictStale(now: int)
    | Head(head: Option<Chain>, reinject: seq<Tx>, now: int)
  {
    /** The transactions the operation may bring in. */
    function Txs(): set<Tx> {
      match this
      case AddOne(t, _, _) => {t}
      case AddBatch(txs, _, _) => Members(txs)
      case Head(_, reinject, _) => Members(reinject)
      case _ => {}
    }

    /** Nothing is reinjected, and no nonce is the last a word can hold. */
    ghost predicate Steady() {
      NonceRoom(Txs()) && (Head? ==> reinject == [])
    }
  }

  /** The head a pool is at after a run: the last one it could read. */
  function LastHead(chain: Chain, ops: seq<Op>): Chain {
    if ops == [] then chain
    else
      var last := ops[|ops| - 1];
      if last.Head? && last.head.Some? then last.head.value else LastHead(chain, ops[..|ops| - 1])
  }

  /** The price of a pool after a run: the last one set. */
  function LastPrice(price: int, ops: seq<Op>): int {
    if ops == [] then price
    else if ops[|ops| - 1].Reprice? then ops[|ops| - 1].price
    else LastPrice(price, ops[..|ops| - 1])
  }

  /** What Ready hands out divides the list and is a run that ends where Ready says. */
  lemma ReadyFacts(m: TxMap, next: nat)
    ensures var e := ReadyEnd(m, next);
      var ready := BelowNonce(m, e);
      var start: nat := if ready == map[] then 0 else Least(ready);
      && Divides(m, FromNonce(m, e), ready)
      && Run(ready, start, RunEnd(ready, start))
      && (ready != map[] ==> RunEnd(ready, start) == e && start <= next)
  {
    ReadyIsMaximalRun(m, next);
    var e := ReadyEnd(m, next);
    var ready := BelowNonce(m, e);
    if ready != map[] {
      assert Least(m) in ready;
    }
  }

  lemma ReadyIsKnown(p: Accounts, q: Accounts, all: set<Tx>, virt: map<Address, uint64>, chain: Chain, a: Address)
    requires Partition(p, q, all, {}) && a in q
    requires forall n :: n in Items(q, a) ==> n >= chain.NonceOf(a)
    ensures var ready := BelowNonce(q[a].txs, ReadyEnd(q[a].txs, VirtualNonce(virt, chain, a)));
      && (forall n :: n in ready ==> Fits(ready[n], a, n))
      && (NonceRoom(all) ==> MAX_UINT64 !in ready)
      && (ready != map[] && Contiguous(p, virt, chain) ==> Least(ready) == VirtualNonce(virt, chain, a))
  {
    hide Partition, Contiguous;
    var l := q[a].txs;
    var next := VirtualNonce(virt, chain, a);
    var ready := BelowNonce(l, ReadyEnd(l, next));
    ReadyFacts(l, next);
    forall n | n in l ensures l[n] in all && Fits(l[n], a, n) {
      QueuedIsKnown(p, q, all, {}, a, n);
    }
    if ready != map[] && Contiguous(p, virt, chain) {
      ReadyStartsAtVirtual(p, q, all, virt, chain, a, Least(ready));
    }
  }

  /** No remote account has more queued than it may. */
  ghost predicate WithinAllowance(q: Accounts, locals: set<Address>, allowance: nat) {
    forall a :: a !in locals ==> |Items(q, a)| <= allowance
  }

  /** There is room for everything: promoting cannot exceed a limit. */
  ghost predicate Roomy(p: Accounts, q: Accounts, locals: set<Address>, config: Config) {
    && Total(p) + Total(q) <= config.globalSlots && Total(q) <= config.globalQueue
    && WithinAllowance(q, locals, config.accountQueue)
  }

  /** The known transactions of one sender. */
  function SentBy(all: set<Tx>, a: Address): set<Tx> {
    set t | t in all && t.sender == Some(a)
  }

  /** So few transactions that no limit is exceeded wherever they are held. */
  ghost predicate Ample(all: set<Tx>, locals: set<Address>, config: Config) {
    && |all| <= config.globalSlots && |all| <= config.globalQueue
    && forall a :: a !in locals ==> |SentBy(all, a)| <= config.accountQueue
  }

  lemma FewerIsAmple(all: set<Tx>, less: set<Tx>, locals: set<Address>, config: Config)
    requires Ample(all, locals, config) && less <= all
    ensures Ample(less, locals, config)
  {
    SubsetSize(less, all);
    forall a | a !in locals ensures |SentBy(less, a)| <= config.accountQueue {
      SubsetSize(SentBy(less, a), SentBy(all, a));
    }
  }

  lemma AmpleIsRoomy(p: Accounts, q: Accounts, all: set<Tx>, locals: set<Address>, config: Config)
    requires Partition(p, q, all, {}) && Ample(all, locals, config)
    ensures Roomy(p, q, locals, config)
  {
    hide Total;
    AllIsTotal(p, q, all);
    forall a | a !in locals ensures |Items(q, a)| <= config.accountQueue {
      forall n | n in Items(q, a) ensures Items(q, a)[n] in SentBy(all, a) {
        QueuedIsKnown(p, q, all, {}, a, n);
      }
      KeyedItems(p, q, all, {}, a);
      ValuesSize(Items(q, a));
      assert Values(Items(q, a)) <= SentBy(all, a);
      SubsetSize(Values(Items(q, a)), SentBy(all, a));
    }
  }

  /** The lists and the known transactions at one moment. */
  datatype Moment = Moment(pending: Accounts, queue: Accounts, known: set<Tx>)

  /** p' is p cut at a water line no lower than the pending limits make it. */
  ghost predicate Levelled(p: Accounts, p': Accounts, locals: set<Address>, config: Config) {
    exists level: nat ::
      && level >= config.accountSlots && p' == LevelAt(p, locals, level)
      && (Total(p') <= config.globalSlots || level == config.accountSlots)
      && (p' == p || Total(LevelAt(p, locals, level + 1)) > config.globalSlots)
  }

  /** q' is q trimmed to the queue's limit, the most recently active remote accounts first. */
  ghost predicate TrimmedTo(q: Accounts, q': Accounts, locals: set<Address>, beats: map<Address, int>, config: Config) {
    && (Total(q) <= config.globalQueue ==> q' == q)
    && (Total(q) > config.globalQueue ==>
          Total(q') == config.globalQueue || (Total(q') > config.globalQueue && q'.Keys <= locals))
    && (forall a :: a in q && a in locals ==> a in q' && q'[a] == q[a])
    && LatestFirst(q, q', locals, beats) && LowestLeft(q, q') && Shrunk(q, q')
  }

  lemma RoomLeft(p: Accounts, q: Accounts, all: set<Tx>, p': Accounts, q': Accounts, all': set<Tx>)
    requires Partition(p, q, all, {}) && Partition(p', q', all', {}) && all' <= all && Shrunk(q, q')
    ensures Total(p') <= Total(p) + Total(q) && Total(q') <= Total(q)
  {
    hide Partition, Total, Shrunk;
    AllIsTotal(p, q, all);
    AllIsTotal(p', q', all');
    assert all == all' + (all - all');
    ShrunkTotal(q, q');
  }

  lemma LowestDivides(m: TxMap, limit: nat)
    ensures Divides(m, Lowest(m, limit), m - Lowest(m, limit).Keys)
    ensures Part(Lowest(m, limit), m) && Part(m - Lowest(m, limit).Keys, m) && |Lowest(m, limit)| <= limit
    ensures |m| <= limit ==> Lowest(m, limit) == m && m - Lowest(m, limit).Keys == map[]
  {
    LowestOfFew(m, limit);
  }

  lemma LevelShrinks(p: Accounts, locals: set<Address>, level: nat)
    ensures Shrunk(p, LevelAt(p, locals, level))
  {
    forall a ensures Part(Items(LevelAt(p, locals, level), a), Items(p, a)) {
      if a in p {
        LowestDivides(p[a].txs, level);
      }
    }
  }

  lemma StillUsable(p: Accounts, p': Accounts, q: Accounts, q': Accounts, chain: Chain)
    requires Shrunk(p, p') && Shrunk(q, q')
    ensures AllUsable(p, chain) ==> AllUsable(p', chain)
    ensures forall a :: Usable(Items(q, a), chain) ==> Usable(Items(q', a), chain)
  {
    hide Usable, Shrunk;
    ShrunkIsUsable(p, p', chain);
    ShrunkIsUsable(q, q', chain);
  }

  lemma LocalListsKept(p: Accounts, p': Accounts, q: Accounts, q': Accounts, locals: set<Address>, level: nat)
    requires p' == LevelAt(p, locals, level) && Shrunk(q, q')
    requires forall a :: a in q && a in locals ==> a in q' && q'[a] == q[a]
    ensures forall a :: a in locals ==> Items(p', a) == Items(p, a) && Items(q', a) == Items(q, a)
  {
    forall a | a in locals ensures Items(q', a) == Items(q, a) {
      assert Part(Items(q', a), Items(q, a));
    }
  }

  lemma ShapeOfOne(m: Accounts, strict: bool, a: Address)
    requires ShapedBut(m, strict, a) && a in m
    ensures m[a].strict == strict && CapsBound(m[a])
  {
  }

  lemma ReshapeOne(m: Accounts, strict: bool, a: Address, txs: TxMap)
    requires ShapedBut(m, strict, a) && a in m && Part(txs, m[a].txs)
    ensures ShapedBut(m[a := m[a].(txs := txs)], strict, a)
  {
    SublistKeepsCapsBound(m[a], txs);
  }

  lemma RefilterOne(m: Accounts, strict: bool, a: Address, costLimit: int, gasLimit: uint64, chain: Chain)
    requires ShapedBut(m, strict, a) && a in m
    ensures var l := AfterFilter(m[a], costLimit, gasLimit, chain);
      ShapedBut(m[a := l], strict, a) && Part(l.txs, m[a].txs)
  {
    hide CapsBound;
    FilterKeepsCapsBound(m[a], costLimit, gasLimit, chain);
  }

  lemma GainedNothing(p: Accounts, a: Address, ready: TxMap, start: nat)
    requires forall n :: n in ready ==> n >= start
    ensures Gained(p, p, a, BelowNonce(ready, start))
  {
    assert BelowNonce(ready, start) == map[];
    assert Items(p, a) + map[] == Items(p, a);
  }

  lemma GainedOne(p: Accounts, mid: Accounts, p': Accounts, a: Address, ready: TxMap, n: nat)
    requires Gained(p, mid, a, BelowNonce(ready, n)) && n in ready
    requires Items(p', a) == Items(mid, a)[n := ready[n]] && forall b :: b != a ==> Items(p', b) == Items(mid, b)
    ensures Gained(p, p', a, BelowNonce(ready, n + 1))
  {
    assert Items(p, a) + BelowNonce(ready, n + 1) == (Items(p, a) + BelowNonce(ready, n))[n := ready[n]];
  }

  lemma RunStarts(ready: TxMap, start: nat)
    requires start <= TWO64 && Run(ready, start, RunEnd(ready, start))
    ensures FromNonce(ready, start) == ready && start <= RunEnd(ready, start) <= TWO64
    ensures forall n :: n in ready ==> n >= start
  {
  }

  lemma RunGoesOn(a: Address, ready: TxMap, start: nat, n: nat)
    requires start <= TWO64 && Run(ready, start, RunEnd(ready, start)) && start <= n <= RunEnd(ready, start) && n in FromNonce(ready, n)
    requires forall k :: k in ready ==> Fits(ready[k], a, k)
    ensures n in ready && n < RunEnd(ready, start) && FromNonce(ready, n)[n] == ready[n] && Fits(ready[n], a, n)
    ensures FromNonce(ready, n) - {n} == FromNonce(ready, n + 1) && Keyed(FromNonce(ready, n))
    ensures (MAX_UINT64 !in ready ==> n < MAX_UINT64)
    ensures FromNonce(ready, n + 1) != map[] ==> n + 1 < TWO64
  {
  }

  lemma RunIsOver(ready: TxMap, start: nat, n: nat)
    requires start <= TWO64 && Run(ready, start, RunEnd(ready, start)) && start <= n <= RunEnd(ready, start) && n !in FromNonce(ready, n)
    ensures n == RunEnd(ready, start) && FromNonce(ready, n) == map[] && BelowNonce(ready, n) == ready
    ensures n == start <==> ready == map[]
  {
    assert n < RunEnd(ready, start) ==> n in FromNonce(ready, n);
    assert BelowNonce(ready, n) == ready;
    assert start < n ==> start in ready;
  }

  /** What forwarding, filtering and postponing make of a pending list. */
  function Demoted(l: TxL, a: Address, chain: Chain): TxL {
    var l1 := l.(txs := FromNonce(l.txs, chain.NonceOf(a)));
    var l2 := AfterFilter(l1, chain.BalanceOf(a), chain.maxGas, chain);
    if chain.NonceOf(a) in l2.txs then l2 else l2.(txs := map[])
  }

  lemma GaplessIf(m: TxMap, n: nat)
    ensures Gapless(m) ==> Gapless(FromNonce(m, n))
  {
  }

  lemma FilterDividesStrict(l: TxL, costLimit: int, gasLimit: uint64, chain: Chain)
    requires l.strict
    ensures var s := Filtered(l, costLimit, gasLimit, chain);
      var l' := AfterFilter(l, costLimit, gasLimit, chain);
      && Divides(l.txs, l'.txs, s.removed + s.invalids) && s.removed.Keys !! s.invalids.Keys
      && l'.strict && Part(l'.txs, l.txs)
      && (Gapless(l.txs) ==> Gapless(l'.txs))
  {
    FilterDivides(l, costLimit, gasLimit, chain);
    var s := Filtered(l, costLimit, gasLimit, chain);
    var l' := AfterFilter(l, costLimit, gasLimit, chain);
    assert l'.txs == s.kept;
    forall n | n in l.txs ensures n in s.kept + s.removed + s.invalids && (n in s.kept <==> n !in s.removed + s.invalids) {
    }
    if Gapless(l.txs) {
      FilterKeepsGapless(l, costLimit, gasLimit, chain);
    }
  }

  /** A gap-free list above the chain's nonce that holds that nonce is rooted there. */
  lemma RootedIf(m: TxMap, c: uint64)
    ensures Gapless(m) && (forall n :: n in m ==> n >= c) && (m == map[] || c in m) ==> Rooted(m, c)
  {
  }

  lemma EmptyIsGapless()
    ensures Gapless(map[])
  {
  }

  lemma DemotedFacts(l: TxL, a: Address, chain: Chain)
    requires l.strict && CapsBound(l)
    ensures Demoted(l, a, chain).strict && CapsBound(Demoted(l, a, chain))
    ensures Gapless(l.txs) ==> Rooted(Demoted(l, a, chain).txs, chain.NonceOf(a))
  {
    hide Gapless, Rooted, CapsBound, AfterFilter;
    var l1 := l.(txs := FromNonce(l.txs, chain.NonceOf(a)));
    var l2 := AfterFilter(l1, chain.BalanceOf(a), chain.maxGas, chain);
    SublistKeepsCapsBound(l, l1.txs);
    FilterKeepsCapsBound(l1, chain.BalanceOf(a), chain.maxGas, chain);
    SublistKeepsCapsBound(l2, map[]);
    GaplessIf(l.txs, chain.NonceOf(a));
    FilterDividesStrict(l1, chain.BalanceOf(a), chain.maxGas, chain);
    RootedIf(l2.txs, chain.NonceOf(a));
    RootedIf(map[], chain.NonceOf(a));
    EmptyIsGapless();
  }

  /** The first nonce from c at which the filter takes something away, or the end of all nonces. */
  ghost function FirstRemoved(l: TxL, c: uint64, costLimit: int, gasLimit: uint64, chain: Chain): nat {
    var gone := Unpayables(FromNonce(l.txs, c), costLimit, gasLimit, chain);
    if WithinCaps(l, costLimit, gasLimit) || gone == map[] then TWO64 else Least(gone)
  }

  /** A nonce is missing below one that is present, from c and before the given end. */
  ghost predicate MissesOne(m: TxMap, c: uint64, end: nat) {
    exists k, n: uint64 :: c <= k < n < end && k !in m && n in m
  }

  /** What forwarding and filtering keep of a strict list. */
  lemma KeptBelow(l: TxL, a: Address, chain: Chain)
    requires l.strict
    ensures var c := chain.NonceOf(a);
      var kept := AfterFilter(l.(txs := FromNonce(l.txs, c)), chain.BalanceOf(a), chain.maxGas, chain).txs;
      kept == BelowNonce(FromNonce(l.txs, c), FirstRemoved(l, c, chain.BalanceOf(a), chain.maxGas, chain))
  {
    var c := chain.NonceOf(a);
    var l1 := l.(txs := FromNonce(l.txs, c));
    var gone := Unpayables(l1.txs, chain.BalanceOf(a), chain.maxGas, chain);
    if !WithinCaps(l, chain.BalanceOf(a), chain.maxGas) && gone != map[] {
      assert Least(gone) in gone;
      assert BelowNonce(l1.txs - gone.Keys, Least(gone) + 1) == BelowNonce(l1.txs, Least(gone));
    } else {
      assert BelowNonce(l1.txs, TWO64) == l1.txs;
    }
  }

  /**
   Demotion looks only for the chain's nonce, so what it leaves of a list is gap-free
   from that nonce unless the list has that nonce and misses one after it and before
   the first that is filtered out.
   */
  lemma DemotionRoots(l: TxL, a: Address, chain: Chain)
    requires l.strict
    ensures var c := chain.NonceOf(a);
      var end := FirstRemoved(l, c, chain.BalanceOf(a), chain.maxGas, chain);
      Rooted(Demoted(l, a, chain).txs, c) <==> !(c in l.txs && c < end && MissesOne(l.txs, c, end))
  {
    var c := chain.NonceOf(a);
    var end := FirstRemoved(l, c, chain.BalanceOf(a), chain.maxGas, chain);
    KeptBelow(l, a, chain);
    var kept := BelowNonce(FromNonce(l.txs, c), end);
    hide FirstRemoved;
    if c in kept {
      assert Demoted(l, a, chain).txs == kept;
      if MissesOne(l.txs, c, end) {
        var k, n: uint64 :| c <= k < n < end && k !in l.txs && n in l.txs;
        assert c in kept && n in kept && k !in kept;
      } else {
        forall n, j, k: uint64 | n in kept && j in kept && n <= k <= j ensures k in kept {
          assert k == j || !(c <= k < j < end && k !in l.txs && j in l.txs);
        }
        assert Least(kept) == c;
      }
    } else {
      EmptyIsGapless();
    }
  }

  ghost predicate RecoversAt(l: TxL, virt: map<Address, uint64>, chain: Chain, a: Address) {
    && Rooted(Demoted(l, a, chain).txs, chain.NonceOf(a))
    && (Demoted(l, a, chain).txs == map[] ==> VirtualNonce(virt, chain, a) == chain.NonceOf(a))
  }

  /** Lists and virtual nonces from which demoting and following the last nonces gives contiguous ones. */
  ghost predicate Recovers(p: Accounts, virt: map<Address, uint64>, chain: Chain) {
    forall a :: RecoversAt(ListOr(p, a, true), virt, chain, a)
  }

  /** p' and v' are the lists and virtual nonces after demoting and following the last nonces. */
  ghost predicate Followed(p: Accounts, v: map<Address, uint64>, p': Accounts, v': map<Address, uint64>, chain: Chain) {
    forall a ::
      && Items(p', a) == Demoted(ListOr(p, a, true), a, chain).txs
      && VirtualNonce(v', chain, a) ==
         if Items(p', a) == map[] then VirtualNonce(v, chain, a) else AddWrap(Greatest(Items(p', a)), 1)
  }

  /** A list with the nonce after its last is a run from c if and only if it is rooted there. */
  lemma RunIffRooted(m: TxMap, c: uint64, v: uint64)
    requires m != map[] ==> v == Greatest(m) + 1
    ensures (c <= v && Run(m, c, v)) <==> Rooted(m, c) && (m == map[] ==> v == c)
  {
    if m != map[] {
      var lo, hi := Least(m), Greatest(m);
      if c <= v && Run(m, c, v) {
        assert c in m;
      }
      if Rooted(m, c) {
        forall n ensures n in m <==> c <= n < v {
          if c <= n < v {
            assert lo in m && hi in m && lo <= n <= hi;
          }
        }
      }
    } else {
      EmptyIsGapless();
      if c < v {
        assert c !in m;
      }
    }
  }

  lemma RecoversIff(p: Accounts, v: map<Address, uint64>, p': Accounts, v': map<Address, uint64>, chain: Chain)
    requires Followed(p, v, p', v', chain) && forall a, n :: n in Items(p', a) ==> n < MAX_UINT64
    ensures Contiguous(p', v', chain) <==> Recovers(p, v, chain)
  {
    hide Demoted;
    forall a ensures RunOf(p', v', chain, a) <==> RecoversAt(ListOr(p, a, true), v, chain, a) {
      RunIffRooted(Items(p', a), chain.NonceOf(a), VirtualNonce(v', chain, a));
    }
    if Contiguous(p', v', chain) {
      forall a ensures RecoversAt(ListOr(p, a, true), v, chain, a) {
        assert RunOf(p', v', chain, a);
      }
    }
  }

  lemma GaplessRecovers(p: Accounts, chain: Chain)
    requires Shaped(p, true) && AllGapless(p)
    ensures Recovers(p, map[], chain)
  {
    forall a ensures RecoversAt(ListOr(p, a, true), map[], chain, a) {
      assert Items(p, a) == ListOr(p, a, true).txs;
      DemotedFacts(ListOr(p, a, true), a, chain);
    }
  }

  /** Nonces 3 and 5 pending, at chain nonce 3, stay pending without 4. */
  lemma GapIsKept(a: Address, t: Tx, u: Tx)
    requires t.nonce == 3 && u.nonce == 5
    ensures var l := Added(Added(EmptyList(true), t), u);
      var chain := Chain(map[a := 3], map[a := l.costcap], l.gascap);
      Demoted(l, a, chain) == l && !Rooted(l.txs, 3)
  {
    var l := Added(Added(EmptyList(true), t), u);
    var chain := Chain(map[a := 3], map[a := l.costcap], l.gascap);
    assert FromNonce(l.txs, 3) == l.txs;
    assert WithinCaps(l, chain.BalanceOf(a), chain.maxGas);
    assert 3 in l.txs && 5 in l.txs && 4 !in l.txs;
    assert !Gapless(l.txs);
  }

  lemma FilterKeepsStrict(l: TxL, costLimit: int, gasLimit: uint64, chain: Chain)
    ensures AfterFilter(l, costLimit, gasLimit, chain).strict == l.strict
  {
  }

  lemma ShapedOne(m: Accounts, a: Address)
    requires Shaped(m, true) && a in m
    ensures m[a].strict && CapsBound(m[a])
  {
  }

  lemma ReshapePending(m: Accounts, a: Address, l: TxL)
    requires Shaped(m, true) && a in m && l.strict && CapsBound(l)
    ensures ShapedBut(m[a := l], true, a)
  {
    hide CapsBound;
  }

  lemma ShapedButOne(m: Accounts, a: Address)
    requires Shaped(m, false)
    ensures ShapedBut(m, false, a)
  {
  }

  lemma NothingQueued(q: Accounts, virt: map<Address, uint64>, chain: Chain, a: Address)
    requires a !in q
    ensures Drained(q, virt, chain, a) && SameBut(q, q, a) && OnlyVirtual(virt, virt, a)
    ensures Usable(Items(q, a), chain) && Part(Items(q, a), Items(q, a))
  {
  }

  /** An account's queue after the three parts of its pass. */
  lemma QueuePassed(q: Accounts, q1: Accounts, q2: Accounts, q3: Accounts, virt: map<Address, uint64>,
                    chain: Chain, a: Address)
    requires SameBut(q, q1, a) && SameBut(q1, q2, a) && SameBut(q2, q3, a)
    requires Part(Items(q1, a), Items(q, a)) && Part(Items(q2, a), Items(q1, a)) && Part(Items(q3, a), Items(q2, a))
    requires Usable(Items(q1, a), chain) && Drained(q2, virt, chain, a)
    ensures SameBut(q, q3, a) && Part(Items(q3, a), Items(q, a)) && |Items(q2, a)| <= |Items(q, a)|
    ensures Usable(Items(q3, a), chain) && Drained(q3, virt, chain, a)
  {
    hide Usable;
    PartSize(Items(q1, a), Items(q, a));
    PartSize(Items(q2, a), Items(q1, a));
    PartIsUsable(Items(q3, a), Items(q1, a), chain);
  }

  lemma NoneEmpty(m: Accounts, strict: bool)
    requires Shaped(m, strict)
    ensures forall a :: a in m ==> m[a].txs != map[]
  {
  }

  lemma FromIsPart(m: TxMap, n: nat)
    ensures Part(FromNonce(m, n), m) && Part(BelowNonce(m, n), m)
  {
  }

  lemma NothingIsUsable(chain: Chain)
    ensures Usable(map[], chain)
  {
  }

  /** Beyond what a remote account may have queued: its queue is full of lower nonces. */
  ghost predicate Excess(t: Tx, q: Accounts, locals: set<Address>, allowance: nat) {
    && !IsLocal(t, locals) && |Items(q, t.From())| == allowance
    && forall n :: n in Items(q, t.From()) ==> n < t.nonce
  }

  ghost predicate OnlyExcessLeft(before: set<Tx>, after: set<Tx>, q: Accounts, locals: set<Address>,
                                 allowance: nat, chain: Chain) {
    forall t :: t in before && t !in after ==> Useless(t, chain) || Excess(t, q, locals, allowance)
  }

  lemma ExcessValues(q: Accounts, a: Address, kept: TxMap, locals: set<Address>, allowance: nat)
    requires AllFit(q) && a in q && a !in locals && kept == Lowest(q[a].txs, allowance)
    ensures forall t :: t in Values(q[a].txs - kept.Keys) ==>
      Excess(t, q[a := q[a].(txs := kept)], locals, allowance) && t.sender == Some(a)
  {
    forall t | t in Values(q[a].txs - kept.Keys)
      ensures Excess(t, q[a := q[a].(txs := kept)], locals, allowance) && t.sender == Some(a)
    {
      var n :| n in q[a].txs - kept.Keys && q[a].txs[n] == t;
      assert Fits(Items(q, a)[n], a, n);
    }
  }

  lemma StillExcess(q: Accounts, q': Accounts, a: Address, locals: set<Address>, allowance: nat)
    requires SameBut(q, q', a)
    ensures forall t: Tx :: t.From() != a && Excess(t, q, locals, allowance) ==> Excess(t, q', locals, allowance)
  {
  }

  lemma SameExcess(q: Accounts, q': Accounts, locals: set<Address>, allowance: nat)
    requires forall a :: Items(q', a) == Items(q, a)
    ensures forall t :: Excess(t, q, locals, allowance) ==> Excess(t, q', locals, allowance)
  {
  }

  lemma PartSelf(m: TxMap)
    ensures Part(m, m)
  {
  }

  lemma LocalExcess(q: Accounts, locals: set<Address>, allowance: nat)
    ensures forall t :: Excess(t, q, locals, allowance) ==> !IsLocal(t, locals)
  {
  }

  lemma ShrunkAllowance(q: Accounts, q': Accounts, a: Address)
    requires Shrunk(q, q')
    ensures |Items(q', a)| <= |Items(q, a)|
  {
    PartSize(Items(q', a), Items(q, a));
  }

  lemma OnlyOneShrunk(q: Accounts, q': Accounts, q'': Accounts, a: Address)
    requires Shrunk(q, q') && SameBut(q', q'', a) && Part(Items(q'', a), Items(q', a))
    ensures Shrunk(q, q'')
  {
    forall b ensures Part(Items(q'', b), Items(q, b)) {
      assert Part(Items(q', b), Items(q, b));
    }
  }

  lemma NoQueueIsDrained(q: Accounts, virt: map<Address, uint64>, chain: Chain)
    ensures forall a :: a !in q ==> Drained(q, virt, chain, a) && Usable(Items(q, a), chain)
  {
  }

  /** Promoting one account leaves the others as they were. */
  lemma DrainedElsewhere(q: Accounts, q': Accounts, v: map<Address, uint64>, v': map<Address, uint64>,
                         chain: Chain, a: Address)
    requires SameBut(q, q', a) && OnlyVirtual(v, v', a)
    ensures forall b :: b != a && Drained(q, v, chain, b) ==> Drained(q', v', chain, b)
    ensures forall b :: b != a && Usable(Items(q, b), chain) ==> Usable(Items(q', b), chain)
  {
    forall b | b != a && Drained(q, v, chain, b) ensures Drained(q', v', chain, b) {
      assert Items(q', b) == Items(q, b) && VirtualNonce(v', chain, b) == VirtualNonce(v, chain, b);
    }
  }

  lemma ShrunkByOne(q: Accounts, a: Address, kept: TxMap)
    requires a in q && Part(kept, q[a].txs)
    ensures Shrunk(q, q - {a}) && Shrunk(q, q[a := q[a].(txs := kept)])
  {
  }

  lemma PendingNoncesFit(p: Accounts, q: Accounts, all: set<Tx>)
    requires Partition(p, q, all, {}) && NonceRoom(all)
    ensures forall a, n :: n in Items(p, a) ==> n < MAX_UINT64
  {
    forall a, n | n in Items(p, a) ensures n < MAX_UINT64 {
      assert Fits(Items(p, a)[n], a, n);
      assert Holds(p, Items(p, a)[n]);
    }
  }

  lemma NothingToDemote(chain: Chain)
    ensures forall a :: Demoted(EmptyList(true), a, chain).txs == map[]
  {
    forall a ensures Demoted(EmptyList(true), a, chain).txs == map[] {
      var l1 := EmptyList(true).(txs := FromNonce(EmptyList(true).txs, chain.NonceOf(a)));
      FilterDivides(l1, chain.BalanceOf(a), chain.maxGas, chain);
      assert AfterFilter(l1, chain.BalanceOf(a), chain.maxGas, chain).txs == map[];
    }
  }

  /** Demoting and then following the pending lists, account by account. */
  lemma IsFollowed(p: Accounts, v: map<Address, uint64>, p': Accounts, v': map<Address, uint64>, chain: Chain)
    requires p'.Keys <= p.Keys && forall a :: a in p ==> Items(p', a) == Demoted(p[a], a, chain).txs
    requires v'.Keys == v.Keys + p'.Keys
    requires forall a :: a in p' ==> p'[a].txs != map[] && v'[a] == AddWrap(Greatest(p'[a].txs), 1)
    requires forall a :: a in v && a !in p' ==> v'[a] == v[a]
    ensures Followed(p, v, p', v', chain)
  {
    NothingToDemote(chain);
    hide Demoted;
  }

  lemma SelfUseless(all: set<Tx>, chain: Chain)
    ensures OnlyUselessLeft(all, all, chain)
  {
  }

  lemma AloneIsDistinct(a: Address)
    ensures Distinct([a])
  {
  }

  lemma MembersStep(s: seq<Tx>, i: nat)
    requires i < |s|
    ensures Members(s[..i + 1]) == Members(s[..i]) + {s[i]}
    ensures Members(s[i..]) - {s[i]} <= Members(s[i + 1..])
  {
    assert s[..i + 1] == s[..i] + [s[i]];
    assert s[i..] == [s[i]] + s[i + 1..];
  }

  /** How many transactions leave when entries are dropped. */
  lemma DropSize(before: seq<Tx>, items: seq<Tx>, drop: seq<Tx>, all: set<Tx>)
    requires forall t :: t in drop ==> t in all
    requires forall t :: t in all ==> Entries(before, t) == Entries(items, t) + Entries(drop, t)
    ensures |all - Members(drop)| >= |all| - |drop|
    ensures SingleEntries(before, all) ==> |all - Members(drop)| == |all| - |drop|
  {
    DistinctMembers(drop);
    assert all == (all - Members(drop)) + Members(drop);
    if SingleEntries(before, all) {
      forall t ensures Entries(drop, t) <= 1 {
        assert t in drop <==> t in multiset(drop);
        assert t in all ==> Entries(before, t) <= 1;
      }
    }
  }

  lemma LevelBounds(m: Accounts, locals: set<Address>, level: nat)
    ensures forall a :: a in LevelAt(m, locals, level) && a !in locals ==> |LevelAt(m, locals, level)[a].txs| <= level
  {
  }

  lemma SlotFits(p: Accounts, q: Accounts, all: set<Tx>, t: Tx)
    requires Partition(p, q, all, {})
    ensures forall m :: m in [p, q] && t.nonce in Items(m, t.From()) ==>
      Items(m, t.From())[t.nonce].From() == t.From() && Items(m, t.From())[t.nonce].nonce == t.nonce
  {
    forall m | m in [p, q] && t.nonce in Items(m, t.From()) ensures Fits(Items(m, t.From())[t.nonce], t.From(), t.nonce) {
      assert AllFit(m);
    }
  }

  lemma SlotTaken(p: Accounts, q: Accounts, all: set<Tx>, t: Tx)
    requires Partition(p, q, all, {}) && !Free(p, t)
    ensures Free(q, t) && Items(p, t.From())[t.nonce] in all
  {
    var u := Items(p, t.From())[t.nonce];
    assert Fits(u, t.From(), t.nonce);
    assert Holds(p, u);
  }

  lemma ReplaceKeepsRuns(p: Accounts, virt: map<Address, uint64>, chain: Chain, t: Tx, l: TxL)
    requires Contiguous(p, virt, chain) && !Free(p, t) && l.txs == Items(p, t.From())[t.nonce := t]
    ensures Contiguous(p[t.From() := l], virt, chain)
  {
    var p' := p[t.From() := l];
    forall a ensures RunOf(p', virt, chain, a) {
      assert RunOf(p, virt, chain, a);
    }
  }

  lemma SameButSelf(q: Accounts, a: Address)
    ensures SameBut(q, q, a)
  {
  }

  lemma KeyedUnion(m: TxMap, k: TxMap)
    requires Keyed(m + k) && m.Keys !! k.Keys
    ensures Keyed(m) && Keyed(k)
    ensures Values(m + k) == Values(m) + Values(k) && Values(m) !! Values(k)
  {
    forall n | n in m ensures m[n].nonce == n {
      assert (m + k)[n] == m[n];
    }
    forall n | n in k ensures k[n].nonce == n {
      assert (m + k)[n] == k[n];
    }
    forall t | t in Values(m) + Values(k) ensures t in Values(m + k) {
      if t in Values(m) {
        var n :| n in m && m[n] == t;
        assert (m + k)[n] == t;
      } else {
        var n :| n in k && k[n] == t;
        assert (m + k)[n] == t;
      }
    }
  }

  lemma ForwardDivides(l: TxL, n: nat)
    ensures Divides(l.txs, FromNonce(l.txs, n), BelowNonce(l.txs, n) + map[])
  {
  }

  lemma CapToNone(l: TxL)
    ensures Lowest(l.txs, 0) == map[] && Divides(l.txs, Lowest(l.txs, 0), map[] + l.txs)
  {
    assert |Lowest(l.txs, 0)| == 0;
  }

  lemma LastWaiting(before: Accounts, q: Accounts, locals: set<Address>, beats: map<Address, int>,
                    waiting: seq<Address>)
    requires Trimming(before, q, locals, beats, waiting, false) && waiting != []
    ensures waiting[|waiting| - 1] in q
  {
    assert waiting[|waiting| - 1] in waiting;
  }

  lemma SpammerFacts(m: Accounts, locals: set<Address>, slots: nat, offenders: seq<Address>, spammers: set<Address>,
                     level: nat, a: Address)
    requires Hunt(m, locals, slots, offenders, spammers, level, true) && a in spammers
    ensures a in m && slots < |m[a].txs| <= level
    ensures offenders == [] ==> spammers == Above(m, locals, slots)
  {
    assert a in Above(m, locals, slots);
    if offenders == [] {
      assert Elements(offenders) == {};
    }
  }

  lemma NoSpammers(m: Accounts, locals: set<Address>, slots: nat, level: nat)
    requires Hunt(m, locals, slots, [], {}, level, true)
    ensures Above(m, locals, slots) == {}
  {
    assert Elements([]) == {};
  }

  lemma OffendersDistinct(m: Accounts, locals: set<Address>, slots: nat, offenders: seq<Address>,
                          spammers: set<Address>,
                          level: nat)
    requires Hunt(m, locals, slots, offenders, spammers, level, true) && offenders != []
    ensures Distinct(offenders) && level > slots
    ensures spammers == {} ==> Elements(offenders) == Above(m, locals, slots)
  {
    assert offenders[0] in offenders;
  }

  lemma LevelSize(m: Accounts, locals: set<Address>, level: nat, a: Address)
    requires a in m && a !in locals && |m[a].txs| >= level
    ensures a in LevelAt(m, locals, level) && |LevelAt(m, locals, level)[a].txs| == level
  {
  }

  lemma LevelKeeps(m: Accounts, locals: set<Address>, level: nat, a: Address)
    requires a in m && |m[a].txs| <= level
    ensures a in LevelAt(m, locals, level) && LevelAt(m, locals, level)[a] == m[a]
  {
    LowestOfFew(m[a].txs, level);
  }

  /** A water line above every list. */
  lemma TopLevel(m: Accounts, locals: set<Address>, floor: nat) returns (level: nat)
    ensures level >= floor && LevelAt(m, locals, level) == m && Above(m, locals, level) == {}
    ensures forall a :: a in m ==> |m[a].txs| <= level
  {
    level := Total(m) + floor;
    forall a | a in m ensures |m[a].txs| <= level {
      TotalAtLeast(m, a);
    }
    LevelAboveAll(m, locals, level);
  }

  /** A water line may be lowered to the longest remote list without cutting anything. */
  lemma LevelDown(m: Accounts, locals: set<Address>, level: nat, longest: nat, floor: nat)
    requires LevelAt(m, locals, level) == m && floor <= longest
    requires forall a :: a in Above(m, locals, floor) ==> |m[a].txs| <= longest
    ensures LevelAt(m, locals, longest) == m
  {
    LevelAboveAll(m, locals, longest);
  }

  lemma KeepsShape(m: Accounts, a: Address, t: Tx)
    requires Shaped(m, true)
    ensures Shaped(m[a := Added(ListOr(m, a, true), t)], true)
  {
    assert t.nonce in Added(ListOr(m, a, true), t).txs;
  }

  /** A round of cuts in progress: the accounts done have their list of `low`, the others that of `high`. */
  ghost predicate CutSome(m: Accounts, high: Accounts, low: Accounts, done: seq<Address>) {
    && m.Keys == high.Keys == low.Keys
    && forall a :: a in m ==> m[a] == if a in done then low[a] else high[a]
  }

  lemma CutNone(high: Accounts, low: Accounts)
    requires high.Keys == low.Keys
    ensures CutSome(high, high, low, [])
  {
  }

  lemma CutNext(m: Accounts, high: Accounts, low: Accounts, done: seq<Address>, a: Address)
    requires CutSome(m, high, low, done) && a in high && a !in done
    ensures a in m && m[a] == high[a] && a in low && CutSome(m[a := low[a]], high, low, done + [a])
  {
  }

  lemma CutAll(m: Accounts, high: Accounts, low: Accounts, done: seq<Address>)
    requires CutSome(m, high, low, done) && forall a :: a in high && a !in done ==> high[a] == low[a]
    ensures m == low
  {
  }

  lemma CutIsBelow(p: Accounts, a: Address)
    requires a in p && p[a].txs != map[]
    ensures forall b :: Items(p[a := CutOne(p[a])], b) == if b == a then BelowNonce(Items(p, a), Greatest(p[a].txs)) else Items(p, b)
  {
  }

  lemma CutKeepsShape(m: Accounts, a: Address)
    requires Shaped(m, true) && a in m && |m[a].txs| > 1
    ensures Shaped(m[a := CutOne(m[a])], true)
  {
    CardinalityWithout(m[a].txs, Greatest(m[a].txs));
  }

  lemma SingleValue(n: uint64, t: Tx)
    ensures {} + Values(map[n := t]) == {t}
  {
    ValuesMember(map[n := t], n);
  }

  lemma LevelKeys(m: Accounts, locals: set<Address>, level: nat)
    ensures LevelAt(m, locals, level).Keys == m.Keys
  {
  }

  lemma AboveMember(m: Accounts, locals: set<Address>, level: nat, a: Address)
    requires a in Above(m, locals, level)
    ensures a in m && a !in locals && |m[a].txs| > level
  {
  }

  lemma FilterPulls(l: TxL, costLimit: int, gasLimit: uint64, chain: Chain)
    requires !l.strict
    ensures var s := Filtered(l, costLimit, gasLimit, chain);
      var l' := AfterFilter(l, costLimit, gasLimit, chain);
      Divides(l.txs, l'.txs, s.removed) && l'.strict == l.strict
  {
  }

  lemma RemovedIsUnpayable(l: TxL, costLimit: int, gasLimit: uint64, chain: Chain)
    ensures var removed := Filtered(l, costLimit, gasLimit, chain).removed;
      Part(removed, l.txs) && forall n :: n in removed ==> Unpayable(removed[n], costLimit, gasLimit, chain)
  {
  }

  lemma UselessValues(m: Accounts, a: Address, out: TxMap, chain: Chain)
    requires AllFit(m) && Part(out, Items(m, a))
    requires forall n :: n in out ==> n < chain.NonceOf(a) || Unpayable(out[n], chain.BalanceOf(a), chain.maxGas, chain)
    ensures forall t :: t in Values(out) ==> Useless(t, chain)
  {
    forall t | t in Values(out) ensures Useless(t, chain) {
      var n :| n in out && out[n] == t;
      assert Fits(Items(m, a)[n], a, n);
    }
  }

  /** Where local accounts keep their lists, local transactions stay. */
  lemma LocalsKept(p: Accounts, q: Accounts, all: set<Tx>, p': Accounts, q': Accounts, all': set<Tx>,
                   locals: set<Address>)
    requires Partition(p, q, all, {}) && Partition(p', q', all', {})
    requires forall a :: a in locals ==> Items(p', a) == Items(p, a) && Items(q', a) == Items(q, a)
    ensures forall t :: t in all && t !in all' ==> !IsLocal(t, locals)
  {
    forall t | t in all && IsLocal(t, locals) ensures t in all' {
      assert Holds(p, t) || Holds(q, t);
    }
  }

  lemma KeyedPart(m: TxMap, l: TxMap, out: TxMap)
    requires Keyed(m) && Divides(m, l, out)
    ensures Keyed(out)
  {
  }

  /** Cutting the pending list at t leaves exactly the followers in transit. */
  lemma CutTransit(p: Accounts, q: Accounts, all: set<Tx>, t: Tx, l: TxL) returns (transit: set<Tx>)
    requires Partition(p, q, all + {t}, {}) && t !in all && Holds(p, t)
    requires t.From() in p && l == p[t.From()] && l.strict
    ensures transit == Values(Invalidated(l, t.nonce)) && Keyed(Invalidated(l, t.nonce))
    ensures Partition(p[t.From() := l.(txs := Removed(l, t.nonce))], q, all, transit)
  {
    hide Partition, Values;
    var a, n: nat := t.From(), t.nonce;
    var kept, out := l.(txs := BelowNonce(l.txs, n)), FromNonce(l.txs, n);
    KeyedItems(p, q, all + {t}, {}, a);
    PullPending(p, q, all + {t}, {}, a, kept, out);
    ValuesMember(out, n);
    ValuesWithout(out, n);
    assert out - {n} == FromNonce(l.txs, n + 1);
    assert {} + Values(out) == Values(out);
    Forget(p[a := kept], q, all + {t}, Values(out), t);
    assert (all + {t}) - {t} == all;
    transit := Values(out) - {t};
  }

  lemma TakeQueued(p: Accounts, q: Accounts, all: set<Tx>, t: Tx)
    requires Partition(p, q, all + {t}, {}) && t !in all && Holds(q, t)
    ensures t.From() in q
    ensures Partition(p, q[t.From() := q[t.From()].(txs := q[t.From()].txs - {t.nonce})], all, {})
  {
    hide Partition;
    var a := t.From();
    var l := q[a].(txs := q[a].txs - {t.nonce});
    var out: TxMap := map[t.nonce := t];
    PullQueued(p, q, all + {t}, {}, a, l, out);
    ValuesMember(out, t.nonce);
    assert {} + Values(out) == {t};
    Forget(p, q[a := l], all + {t}, {t}, t);
    assert (all + {t}) - {t} == all && {t} - {t} == {};
  }

  lemma NotHeld(p: Accounts, q: Accounts, all: set<Tx>, t: Tx)
    requires Partition(p, q, all, {}) && t !in all
    ensures !Holds(p, t) && !Holds(q, t)
  {
  }

  class TxPool {
    const config: Config
    const priced: TxPricedList
    var chain: Chain
    var gasPrice: int
    var virt: map<Address, uint64>
    var locals: set<Address>
    var pending: Accounts
    var queue: Accounts
    var all: set<Tx>
    var beats: map<Address, int>

    /**
     The books are in order: nothing known is lost or held twice, and every known
     transaction has an entry in the price heap, save those already taken out of
     it and about to be removed (`gone`).
     */
    ghost predicate Books(transit: set<Tx>, gone: set<Tx>)
      reads this, priced
    {
      && priced.Valid()
      && Partition(pending, queue, all, transit)
      && Registered(priced.items, priced.stales, all - gone)
    }

    ghost predicate Shape()
      reads this
    {
      Shaped(pending, true) && Shaped(queue, false)
    }

    ghost predicate Inv()
      reads this, priced
    {
      && Sane(config)
      && Books({}, {})
      && Shape()
      && AboveFloor(all, locals, gasPrice, config.gasMode)
    }

    constructor (config: Config, chain: Chain)
      ensures Inv() && fresh(priced) && NonceRoom(all) && Contiguous(pending, virt, chain)
      ensures this.config == Sanitize(config) && this.chain == chain && gasPrice == Sanitize(config).priceLimit
      ensures pending == map[] && queue == map[] && all == {} && locals == {} && beats == map[]
    {
      this.config, this.chain, gasPrice := Sanitize(config), chain, Sanitize(config).priceLimit;
      virt, locals, pending, queue, all, beats := map[], {}, map[], map[], {}, map[];
      priced := new TxPricedList();
    }

    lemma HasEntries()
      requires Inv()
      ensures Registered(priced.items, priced.stales, all) && Covers(priced.items, all)
    {
      hide Partition, Shaped;
      assert all - {} == all;
    }

    lemma ShapeHolds()
      requires Inv()
      ensures Shaped(pending, true)
    {
    }

    lemma BooksMean(transit: set<Tx>, gone: set<Tx>)
      requires Books(transit, gone)
      ensures Partition(pending, queue, all, transit) && AllFit(pending) && AllFit(queue)
    {
    }

    /** Makes t unknown and counts its entry in the price heap as stale. */
    method CountOut(t: Tx)
      requires priced.Valid() && Registered(priced.items, priced.stales, all)
      modifies `all, priced
      ensures priced.Valid() && Registered(priced.items, priced.stales, all) && all == old(all) - {t}
    {
      hide IsHeap, Registered;
      ghost var items, stales := priced.items, priced.stales;
      all := all - {t};
      priced.Removed(all);
      StillRegistered(items, stales, priced.items, priced.stales, old(all), t);
    }

    /** Removes a transaction that was taken out of a list from the rest of the pool. */
    method DropOne(t: Tx, ghost transit: set<Tx>)
      requires Books(transit, {}) && t in transit
      modifies `all, priced
      ensures Books(transit - {t}, {}) && all == old(all) - {t}
    {
      hide Partition, IsHeap;
      Forget(pending, queue, all, transit, t);
      hide Registered;
      assert all - {} == all;
      CountOut(t);
      assert all - {} == all;
    }

    /** Removes transactions that were taken out of a list from the rest of the pool. */
    method DropOut(out: TxMap, ghost transit: set<Tx>)
      requires Books(transit, {}) && Keyed(out) && Values(out) <= transit
      modifies `all, priced
      ensures Books(transit - Values(out), {}) && all == old(all) - Values(out)
    {
      hide Books, Values;
      var rest := out;
      ghost var left := transit;
      while rest != map[]
        invariant Keyed(rest) && Values(rest) <= Values(out)
        invariant left == (transit - Values(out)) + Values(rest)
        invariant Books(left, {})
        invariant all == old(all) - (Values(out) - Values(rest))
        decreases |rest|
      {
        var n :| n in rest;
        ValuesMember(rest, n);
        ValuesWithout(rest, n);
        CardinalityWithout(rest, n);
        DropOne(rest[n], left);
        left, rest := left - {rest[n]}, rest - {n};
      }
      NoValues();
    }

    /** Makes t known in place of the transaction it replaces, if any, giving it an entry if it had none. */
    method Register(t: Tx, replaced: Option<Tx>, ghost gone: set<Tx>)
      requires priced.Valid() && Registered(priced.items, priced.stales, all - gone) && replaced != Some(t)
      requires (t in all && replaced.None?) || gone == {}
      modifies `all, priced
      ensures priced.Valid() && Registered(priced.items, priced.stales, all - gone)
      ensures all == (if replaced.Some? then old(all) - {replaced.value} else old(all)) + {t}
    {
      hide IsHeap, Registered;
      assert all - {} == all;
      if replaced.Some? {
        CountOut(replaced.value);
      }
      assert gone == {} ==> all - gone == all;
      if t !in all {
        ghost var items, known := priced.items, all;
        all := all + {t};
        priced.Put(t);
        AlsoRegistered(items, priced.stales, priced.items, known, t);
        assert all - gone == all;
      }
    }

    /**
     Puts a transaction that is in no list into the queue, unless a better one
     with its nonce is queued; the one it replaces leaves the pool.
     */
    method EnqueueTx(t: Tx, ghost transit: set<Tx>, ghost gone: set<Tx>) returns (inserted: bool, replaced: bool)
      requires priced.Valid() && Registered(priced.items, priced.stales, all - gone) && Shaped(queue, false)
      requires Partition(pending, queue, all - {t}, transit - {t}) && t.sender.Some? && Free(pending, t)
      requires forall u :: u in transit && u != t ==> u.sender != t.sender || u.nonce != t.nonce
      requires (t in all && Free(queue, t)) || gone == {}
      modifies `queue, `all, priced
      ensures inserted == Accepts(ListOr(old(queue), t.From(), false), t, config.priceBump)
      ensures replaced == (inserted && !Free(old(queue), t))
      ensures !inserted ==> queue == old(queue) && all == old(all)
      ensures inserted ==> queue == old(queue)[t.From() := Added(ListOr(old(queue), t.From(), false), t)]
      ensures inserted ==> all == (if replaced then old(all) - {Items(old(queue), t.From())[t.nonce]} else old(all)) + {t}
      ensures inserted ==> Partition(pending, queue, all, transit - {t})
      ensures priced.Valid() && Registered(priced.items, priced.stales, all - gone) && Shaped(queue, false)
    {
      hide Partition, IsHeap, Accepts, Registered;
      var from := t.From();
      var l := ListOr(queue, from, false);
      if !Accepts(l, t, config.priceBump) {
        return false, false;
      }
      assert l.txs == Items(queue, from);
      PlaceQueued(pending, queue, all, transit, t, Added(l, t));
      replaced := t.nonce in l.txs;
      queue := queue[from := Added(l, t)];
      Register(t, if replaced then Some(l.txs[t.nonce]) else None, gone);
      assert all == (old(all) - {t} - (if replaced then {l.txs[t.nonce]} else {})) + {t};
      inserted := true;
    }

    /**
     Moves a transaction that is in no list to the account's pending ones, unless
     a better one with its nonce is pending, and advances the virtual nonce.
     */
    method PromoteTx(a: Address, t: Tx, now: int, ghost transit: set<Tx>) returns (inserted: bool)
      requires priced.Valid() && Registered(priced.items, priced.stales, all) && Shaped(pending, true)
      requires Partition(pending, queue, all - {t}, transit - {t}) && t.sender == Some(a) && Free(queue, t)
      requires forall u :: u in transit && u != t ==> u.sender != t.sender || u.nonce != t.nonce
      modifies `pending, `all, `virt, `beats, priced
      ensures inserted == Accepts(ListOr(old(pending), a, true), t, config.priceBump)
      ensures !inserted ==> pending == old(pending) && virt == old(virt) && all == old(all) - {t}
      ensures inserted ==> pending == old(pending)[a := Added(ListOr(old(pending), a, true), t)]
      ensures inserted ==> virt == old(virt)[a := AddWrap(t.nonce, 1)]
      ensures beats == if inserted then old(beats)[a := now] else old(beats)
      ensures inserted ==> all == (if Free(old(pending), t) then old(all) else old(all) - {Items(old(pending), a)[t.nonce]}) + {t}
      ensures Books(transit - {t}, {}) && Shaped(pending, true)
    {
      hide Partition, IsHeap, Accepts, Shaped, Registered;
      assert all - {} == all;
      KeepsShape(pending, a, t);
      var l := ListOr(pending, a, true);
      if !Accepts(l, t, config.priceBump) {
        CountOut(t);
        assert all - {} == all;
        return false;
      }
      assert l.txs == Items(pending, a);
      PlacePending(pending, queue, all, transit, t, Added(l, t));
      var replaced := t.nonce in l.txs;
      pending := pending[a := Added(l, t)];
      Register(t, if replaced then Some(l.txs[t.nonce]) else None, {});
      assert all == (old(all) - {t} - (if replaced then {l.txs[t.nonce]} else {})) + {t};
      beats := beats[a := now];
      virt := virt[a := AddWrap(t.nonce, 1)];
      inserted := true;
    }

    /** Puts one transaction taken out of a pending list back into the queue. */
    method DemoteOne(t: Tx, ghost transit: set<Tx>, ghost gone: set<Tx>)
      requires Books(transit, gone) && Shaped(queue, false) && t in transit
      modifies `queue, `all, priced
      ensures Books(transit - {t}, gone) && Shaped(queue, false) && all == old(all)
    {
      hide Partition, IsHeap, Shaped;
      TransitFacts(pending, queue, all, transit, t);
      var inserted, replaced := EnqueueTx(t, transit, gone);
      assert inserted && !replaced;
    }

    /** Puts transactions taken out of a pending list back into the queue; none is lost. */
    method Demote(out: TxMap, ghost transit: set<Tx>, ghost gone: set<Tx>)
      requires Books(transit, gone) && Shaped(queue, false) && Keyed(out) && Values(out) <= transit
      modifies `queue, `all, priced
      ensures Books(transit - Values(out), gone) && Shaped(queue, false) && all == old(all)
    {
      hide Books, Values, Shaped;
      var rest := out;
      ghost var left := transit;
      while rest != map[]
        invariant Keyed(rest) && Values(rest) <= Values(out)
        invariant left == (transit - Values(out)) + Values(rest)
        invariant Books(left, gone) && Shaped(queue, false) && all == old(all)
        decreases |rest|
      {
        var n :| n in rest;
        ValuesMember(rest, n);
        ValuesWithout(rest, n);
        CardinalityWithout(rest, n);
        DemoteOne(rest[n], left, gone);
        left, rest := left - {rest[n]}, rest - {n};
      }
      NoValues();
    }

    /** Deletes an account's pending list if it is empty. */
    method CloseIfEmpty(a: Address, ghost transit: set<Tx>, ghost gone: set<Tx>)
      requires Books(transit, gone) && a in pending && ShapedBut(pending, true, a)
      modifies `pending, `beats
      ensures Books(transit, gone) && Shaped(pending, true)
      ensures SameBut(old(pending), pending, a) && pending.Keys <= old(pending).Keys
      ensures Items(pending, a) == Items(old(pending), a)
      ensures beats == if a in pending then old(beats) else old(beats) - {a}
    {
      hide Partition, IsHeap;
      if pending[a].txs == map[] {
        DeleteEmptyPending(pending, queue, all, transit, a);
        pending, beats := pending - {a}, beats - {a};
      }
    }

    /** Lowers an account's virtual nonce to n if it is above. */
    method LowerVirtual(a: Address, n: uint64)
      modifies `virt
      ensures virt == if VirtualNonce(old(virt), chain, a) > n then old(virt)[a := n] else old(virt)
    {
      if VirtualNonce(virt, chain, a) > n {
        virt := virt[a := n];
      }
    }

    /** Takes t out of the pending list, moving its followers back to the queue. */
    method RemovePending(t: Tx, ghost gone: set<Tx>)
      requires priced.Valid() && Registered(priced.items, priced.stales, all - gone) && Shape()
      requires Partition(pending, queue, all + {t}, {}) && t !in all && Holds(pending, t)
      modifies `pending, `queue, `all, `virt, `beats, priced
      ensures Books({}, gone) && Shape() && all == old(all)
      ensures forall b :: b != t.From() ==> Items(pending, b) == Items(old(pending), b)
      ensures Items(pending, t.From()) == BelowNonce(Items(old(pending), t.From()), t.nonce)
      ensures virt == if VirtualNonce(old(virt), chain, t.From()) > t.nonce then old(virt)[t.From() := t.nonce] else old(virt)
      ensures Silenced(old(beats), beats, old(pending), pending)
    {
      hide Partition, IsHeap, Shaped, ShapedBut, SameBut, Silenced;
      WhereItIs(pending, queue, all + {t}, t);
      var a := t.From();
      var l := pending[a];
      ShapedOne(pending, a);
      RemovedKeepsCapsBound(l, t.nonce);
      ReshapePending(pending, a, l.(txs := Removed(l, t.nonce)));
      var kept, invalids := Removed(l, t.nonce), Invalidated(l, t.nonce);
      ghost var transit := CutTransit(pending, queue, all, t, l);
      ChangeOne(pending, a, l.(txs := kept));
      ghost var p := pending[a := l.(txs := kept)];
      pending := pending[a := l.(txs := kept)];
      CloseIfEmpty(a, transit, gone);
      SameButChain(old(pending), p, pending, a);
      SilencedOne(old(beats), old(pending), pending, a);
      SameItemsBut(old(pending), pending, a);
      Demote(invalids, transit, gone);
      assert transit - Values(invalids) == {};
      LowerVirtual(a, t.nonce);
    }

    /** Takes t out of the queue. */
    method RemoveQueued(t: Tx, ghost gone: set<Tx>)
      requires priced.Valid() && Registered(priced.items, priced.stales, all - gone) && Shape()
      requires Partition(pending, queue, all + {t}, {}) && t !in all && Holds(queue, t)
      modifies `queue
      ensures Books({}, gone) && Shape()
      ensures t.From() in old(queue) && queue == WithoutQueued(old(queue), t)
    {
      hide Partition, IsHeap;
      var a := t.From();
      var l := queue[a].(txs := queue[a].txs - {t.nonce});
      TakeQueued(pending, queue, all, t);
      queue := queue[a := l];
      if l.txs == map[] {
        DeleteEmpty(pending, queue, all, {}, a);
        assert queue - {a} == old(queue) - {a};
        queue := queue - {a};
      }
    }

    /** Makes t unknown, and counts its entry as stale unless it was already taken out of the price heap. */
    method Unlist(t: Tx, outofbound: bool, ghost gone: set<Tx>)
      requires priced.Valid() && Registered(priced.items, priced.stales, all - gone)
      requires if outofbound then gone == {} else t in gone
      modifies `all, priced
      ensures priced.Valid() && Registered(priced.items, priced.stales, all - (gone - {t})) && all == old(all) - {t}
    {
      hide IsHeap, Registered;
      ghost var items, stales := priced.items, priced.stales;
      assert all - {} == all;
      all := all - {t};
      if outofbound {
        priced.Removed(all);
        StillRegistered(items, stales, priced.items, priced.stales, old(all), t);
      }
      assert all - (gone - {t}) == if outofbound then old(all) - {t} else old(all) - gone;
    }

    /**
     Removes one transaction from the pool, by its nonce in its sender's list; its
     pending followers go back to the queue.  Nothing else leaves the pool.
     */
    method RemoveTx(t: Tx, outofbound: bool, ghost gone: set<Tx>)
      requires Books({}, gone) && Shape() && (if outofbound then gone == {} else t in gone)
      modifies `pending, `queue, `all, `virt, `beats, priced
      ensures Books({}, gone - {t}) && Shape() && all == old(all) - {t}
      ensures Contiguous(old(pending), old(virt), chain) ==> Contiguous(pending, virt, chain)
      ensures !Holds(old(pending), t) ==> pending == old(pending) && virt == old(virt) && beats == old(beats)
      ensures t !in old(all) ==> queue == old(queue)
      ensures Holds(old(queue), t) ==> t.From() in old(queue) && queue == WithoutQueued(old(queue), t)
      ensures Silenced(old(beats), beats, old(pending), pending)
    {
      hide Partition, IsHeap, Contiguous, Shaped, Silenced, Registered;
      SilencedNothing(beats, pending);
      if t !in all {
        assert all - (gone - {t}) == all - gone;
        NotHeld(pending, queue, all, t);
        return;
      }
      WhereItIs(pending, queue, all, t);
      assert all - {t} + {t} == all;
      var a := t.From();
      Unlist(t, outofbound, gone);
      if a in pending && t.nonce in pending[a].txs {
        ghost var p, v := pending, virt;
        RemovePending(t, gone - {t});
        if Contiguous(p, v, chain) {
          assert forall b :: Items(pending, b) == if b == a then BelowNonce(Items(p, a), t.nonce) else Items(p, b);
          CutKeepsRuns(p, pending, v, chain, a, t.nonce);
        }
      } else {
        RemoveQueued(t, gone - {t});
      }
    }

    // ---------- promotion ----------

    /** Replaces an account's queued list; what it no longer holds leaves the pool. */
    method DropQueued(a: Address, l: TxL, out: TxMap)
      requires Books({}, {}) && Divides(Items(queue, a), l.txs, out)
      modifies `queue, `all, priced
      ensures Books({}, {}) && queue == old(queue)[a := l] && all == old(all) - Values(out)
    {
      hide Partition, Values, IsHeap, Divides;
      KeyedItems(pending, queue, all, {}, a);
      KeyedPart(Items(queue, a), l.txs, out);
      PullQueued(pending, queue, all, {}, a, l, out);
      queue := queue[a := l];
      DropOut(out, {} + Values(out));
      assert ({} + Values(out)) - Values(out) == {};
    }

    /** Promotes one transaction in transit; nothing is replaced and none is lost. */
    method PromoteOne(a: Address, t: Tx, now: int, ghost transit: set<Tx>)
      requires Books(transit, {}) && Shaped(pending, true) && t in transit && t.sender == Some(a)
      modifies `pending, `all, `virt, `beats, priced
      ensures Books(transit - {t}, {}) && Shaped(pending, true) && all == old(all)
      ensures forall b :: b != a ==> Items(pending, b) == Items(old(pending), b)
      ensures Items(pending, a) == Items(old(pending), a)[t.nonce := t]
      ensures virt == old(virt)[a := AddWrap(t.nonce, 1)] && beats == old(beats)[a := now]
    {
      hide Partition, IsHeap, Shaped;
      TransitFacts(pending, queue, all, transit, t);
      var inserted := PromoteTx(a, t, now, transit);
      assert inserted;
    }

    /** Promotes the transaction at the front of a run. */
    method PromoteFront(a: Address, rest: TxMap, n: nat, now: int, ghost before: Accounts, ghost ready: TxMap)
      requires n in rest && Fits(rest[n], a, n) && Keyed(rest) && rest == FromNonce(ready, n)
      requires Books(Values(rest), {}) && Shaped(pending, true) && Gained(before, pending, a, BelowNonce(ready, n))
      modifies `pending, `all, `virt, `beats, priced
      ensures Books(Values(rest - {n}), {}) && Shaped(pending, true) && all == old(all)
      ensures Gained(before, pending, a, BelowNonce(ready, n + 1))
      ensures virt == old(virt)[a := AddWrap(n, 1)] && beats == old(beats)[a := now]
      ensures Contiguous(old(pending), old(virt), chain) && n == VirtualNonce(old(virt), chain, a) && n < MAX_UINT64 ==>
        Contiguous(pending, virt, chain)
    {
      hide Books, Values, Shaped, Contiguous, Gained;
      ValuesMember(rest, n);
      ValuesWithout(rest, n);
      ghost var p, v := pending, virt;
      PromoteOne(a, rest[n], now, Values(rest));
      GainedOne(before, p, pending, a, ready, n);
      if Contiguous(p, v, chain) && n == VirtualNonce(v, chain, a) {
        AppendKeepsRuns(p, pending, v, chain, a, rest[n]);
      }
    }

    /** Promotes a run of transactions in nonce order. */
    method PromoteReady(a: Address, ready: TxMap, start: nat, now: int)
      requires Books(Values(ready), {}) && Shaped(pending, true) && start <= TWO64 && Run(ready, start, RunEnd(ready, start))
      requires forall n :: n in ready ==> Fits(ready[n], a, n)
      modifies `pending, `all, `virt, `beats, priced
      ensures Books({}, {}) && Shaped(pending, true) && all == old(all)
      ensures virt == if ready == map[] then old(virt) else old(virt)[a := AddWrap(RunEnd(ready, start) - 1, 1)]
      ensures beats == if ready == map[] then old(beats) else old(beats)[a := now]
      ensures Gained(old(pending), pending, a, ready)
      ensures Contiguous(old(pending), old(virt), chain)
           && (ready == map[] || (start == VirtualNonce(old(virt), chain, a) && MAX_UINT64 !in ready))
           ==> Contiguous(pending, virt, chain)
    {
      hide Books, Values, Shaped, Contiguous, RunEnd, Gained, FromNonce, BelowNonce, Run, Fits;
      var n: nat, rest := start, ready;
      RunStarts(ready, start);
      GainedNothing(pending, a, ready, start);
      ghost var contiguous := Contiguous(pending, virt, chain)
        && (ready == map[] || (start == VirtualNonce(virt, chain, a) && MAX_UINT64 !in ready));
      while n in rest
        invariant start <= n <= RunEnd(ready, start) && rest == FromNonce(ready, n)
        invariant Books(Values(rest), {}) && Shaped(pending, true) && all == old(all)
        invariant virt == if n == start then old(virt) else old(virt)[a := AddWrap(n - 1, 1)]
        invariant beats == if n == start then old(beats) else old(beats)[a := now]
        invariant Gained(old(pending), pending, a, BelowNonce(ready, n))
        invariant contiguous ==> Contiguous(pending, virt, chain)
        invariant contiguous && rest != map[] ==> n == VirtualNonce(virt, chain, a)
        decreases TWO64 - n
      {
        RunGoesOn(a, ready, start, n);
        PromoteFront(a, rest, n, now, old(pending), ready);
        rest := rest - {n};
        n := n + 1;
      }
      RunIsOver(ready, start, n);
      NoValues();
    }

    /** Drops an account's queued transactions that are too old. */
    method DropStale(a: Address)
      requires Books({}, {}) && ShapedBut(queue, false, a) && a in queue
      modifies `queue, `all, priced
      ensures Books({}, {}) && ShapedBut(queue, false, a) && all <= old(all) && OnlyUselessLeft(old(all), all, chain)
      ensures queue == old(queue)[a := old(queue)[a].(txs := FromNonce(old(queue)[a].txs, chain.NonceOf(a)))]
    {
      hide Books, Values, Useless, AllFit, ShapedBut;
      var l, threshold := queue[a], chain.NonceOf(a);
      BooksMean({}, {});
      UselessValues(queue, a, BelowNonce(l.txs, threshold), chain);
      ReshapeOne(queue, false, a, FromNonce(l.txs, threshold));
      DropQueued(a, l.(txs := FromNonce(l.txs, threshold)), BelowNonce(l.txs, threshold));
    }

    /** Drops an account's queued transactions that are too costly; what is left is usable. */
    method DropUnpayable(a: Address)
      requires Books({}, {}) && ShapedBut(queue, false, a) && a in queue
      requires forall n :: n in queue[a].txs ==> n >= chain.NonceOf(a)
      modifies `queue, `all, priced
      ensures Books({}, {}) && ShapedBut(queue, false, a) && all <= old(all) && OnlyUselessLeft(old(all), all, chain)
      ensures queue == old(queue)[a := AfterFilter(old(queue)[a], chain.BalanceOf(a), chain.maxGas, chain)]
      ensures Usable(queue[a].txs, chain) && Part(queue[a].txs, old(queue)[a].txs)
    {
      hide Books, Values, Useless, AllFit, ShapedBut, Filtered, AfterFilter;
      var l, balance := queue[a], chain.BalanceOf(a);
      var s := Filtered(l, balance, chain.maxGas, chain);
      ShapeOfOne(queue, false, a);
      FilterPulls(l, balance, chain.maxGas, chain);
      RemovedIsUnpayable(l, balance, chain.maxGas, chain);
      BooksMean({}, {});
      UselessValues(queue, a, s.removed, chain);
      FilteredIsUsable(queue, a, l, chain);
      RefilterOne(queue, false, a, balance, chain.maxGas, chain);
      DropQueued(a, AfterFilter(l, balance, chain.maxGas, chain), s.removed);
    }

    /** Drops an account's queued transactions that are too old or too costly. */
    method DropUnusable(a: Address)
      requires Books({}, {}) && ShapedBut(queue, false, a) && a in queue
      modifies `queue, `all, priced
      ensures Books({}, {}) && ShapedBut(queue, false, a) && a in queue && all <= old(all)
      ensures SameBut(old(queue), queue, a) && OnlyUselessLeft(old(all), all, chain)
      ensures var l := old(queue)[a].(txs := FromNonce(old(queue)[a].txs, chain.NonceOf(a)));
        queue[a] == AfterFilter(l, chain.BalanceOf(a), chain.maxGas, chain)
      ensures Usable(queue[a].txs, chain) && Part(queue[a].txs, old(queue)[a].txs)
      ensures forall n :: n in Items(queue, a) ==> n >= chain.NonceOf(a)
    {
      hide Books, Useless, ShapedBut, SameBut, AfterFilter;
      ghost var q := queue;
      DropStale(a);
      DropUnpayable(a);
      ReplaceOne(q, a, q[a].(txs := FromNonce(q[a].txs, chain.NonceOf(a))), queue[a]);
      ChangeOne(q, a, queue[a]);
    }

    method PromoteRun(a: Address, now: int)
      requires Books({}, {}) && Shaped(pending, true) && ShapedBut(queue, false, a) && a in queue
      requires forall n :: n in Items(queue, a) ==> n >= chain.NonceOf(a)
      modifies `pending, `queue, `all, `virt, `beats, priced
      ensures Books({}, {}) && Shaped(pending, true) && ShapedBut(queue, false, a) && all == old(all)
      ensures var l := old(queue)[a];
        var e := ReadyEnd(l.txs, VirtualNonce(old(virt), chain, a));
        && queue == old(queue)[a := l.(txs := FromNonce(l.txs, e))]
        && Gained(old(pending), pending, a, BelowNonce(l.txs, e))
        && virt == (if BelowNonce(l.txs, e) == map[] then old(virt) else old(virt)[a := AddWrap(e - 1, 1)])
        && beats == (if BelowNonce(l.txs, e) == map[] then old(beats) else old(beats)[a := now])
      ensures Contiguous(old(pending), old(virt), chain) && NonceRoom(old(all)) ==> Contiguous(pending, virt, chain)
    {
      hide Partition, Values, Shaped, ShapedBut, IsHeap, Contiguous, Run;
      hide Divides, RunEnd, ReadyEnd, NonceRoom, Gained, FromNonce, BelowNonce, Fits;
      var l := queue[a];
      var next := VirtualNonce(virt, chain, a);
      var e := ReadyEnd(l.txs, next);
      var ready := BelowNonce(l.txs, e);
      var start: nat := if ready == map[] then 0 else Least(ready);
      ReadyFacts(l.txs, next);
      ReadyIsKnown(pending, queue, all, virt, chain, a);
      PullQueued(pending, queue, all, {}, a, l.(txs := FromNonce(l.txs, e)), ready);
      assert {} + Values(ready) == Values(ready);
      FromIsPart(l.txs, e);
      ReshapeOne(queue, false, a, FromNonce(l.txs, e));
      queue := queue[a := l.(txs := FromNonce(l.txs, e))];
      PromoteReady(a, ready, start, now);
    }

    /** Promotes an account's queued transactions that follow its pending ones. */
    method PromoteQueued(a: Address, now: int)
      requires Books({}, {}) && Shaped(pending, true) && ShapedBut(queue, false, a) && a in queue
      requires forall n :: n in Items(queue, a) ==> n >= chain.NonceOf(a)
      modifies `pending, `queue, `all, `virt, `beats, priced
      ensures Books({}, {}) && Shaped(pending, true) && ShapedBut(queue, false, a) && a in queue && all == old(all)
      ensures Drained(queue, virt, chain, a) && SameBut(old(queue), queue, a) && OnlyVirtual(old(virt), virt, a)
      ensures Part(queue[a].txs, old(queue)[a].txs)
      ensures Beaten(old(beats), beats, old(pending), pending, now) && Shrunk(pending, old(pending))
      ensures forall c :: c != a ==> Items(pending, c) == Items(old(pending), c)
      ensures AllUsable(old(pending), chain) && Usable(old(queue)[a].txs, chain) ==> AllUsable(pending, chain)
      ensures Contiguous(old(pending), old(virt), chain) && NonceRoom(old(all)) ==> Contiguous(pending, virt, chain)
    {
      hide Books, Shaped, ShapedBut, Contiguous, Drained, SameBut, AllUsable, Usable, Gained, ReadyEnd;
      hide Beaten, Shrunk, BelowNonce, FromNonce;
      ghost var p, q, v := pending, queue, virt;
      ghost var e := ReadyEnd(queue[a].txs, VirtualNonce(virt, chain, a));
      ghost var ready := BelowNonce(queue[a].txs, e);
      BooksMean({}, {});
      FromIsPart(queue[a].txs, e);
      FreeOfPending(pending, queue, all, a, ready);
      PromoteRun(a, now);
      GainedBeats(old(beats), p, pending, a, ready, now);
      ReadyDrains(q, queue, v, virt, chain, a);
      ChangeOne(q, a, queue[a]);
      if AllUsable(p, chain) && Usable(q[a].txs, chain) {
        PartIsUsable(ready, q[a].txs, chain);
        MoreIsUsable(p, pending, a, ready, chain);
      }
    }

    /** Drops what a remote account has queued beyond its allowance. */
    method DropExcess(a: Address)
      requires Books({}, {}) && ShapedBut(queue, false, a) && a in queue && a !in locals
      modifies `queue, `all, priced
      ensures Books({}, {}) && ShapedBut(queue, false, a) && all <= old(all)
      ensures queue == old(queue)[a := old(queue)[a].(txs := Lowest(old(queue)[a].txs, config.accountQueue))]
      ensures forall t :: t in old(all) && t !in all ==> Excess(t, queue, locals, config.accountQueue) && t.sender == Some(a)
      ensures |old(queue)[a].txs| <= config.accountQueue ==> all == old(all)
    {
      hide Books, Values, ShapedBut, Lowest, AllFit, Divides, Excess;
      var l := queue[a];
      var kept := Lowest(l.txs, config.accountQueue);
      BooksMean({}, {});
      LowestDivides(l.txs, config.accountQueue);
      ReshapeOne(queue, false, a, kept);
      ExcessValues(queue, a, kept, locals, config.accountQueue);
      DropQueued(a, l.(txs := kept), l.txs - kept.Keys);
      NoValues();
    }

    /** Deletes an account's queue if it is empty. */
    method CloseQueue(a: Address)
      requires Books({}, {}) && ShapedBut(queue, false, a) && a in queue
      modifies `queue
      ensures Books({}, {}) && Shaped(queue, false) && SameBut(old(queue), queue, a)
      ensures forall b :: Items(queue, b) == Items(old(queue), b)
    {
      hide Partition, IsHeap;
      if queue[a].txs == map[] {
        DeleteEmpty(pending, queue, all, {}, a);
        queue := queue - {a};
      }
    }

    /** Drops what a remote account has queued beyond its allowance, and empty lists. */
    method CapQueued(a: Address)
      requires Books({}, {}) && ShapedBut(queue, false, a) && a in queue
      modifies `queue, `all, priced
      ensures Books({}, {}) && Shaped(queue, false) && all <= old(all)
      ensures SameBut(old(queue), queue, a) && Part(Items(queue, a), Items(old(queue), a))
      ensures Items(queue, a) == if a in locals then Items(old(queue), a) else Lowest(Items(old(queue), a), config.accountQueue)
      ensures forall t :: t in old(all) && t !in all ==> Excess(t, queue, locals, config.accountQueue) && t.sender == Some(a)
      ensures a in locals || |Items(old(queue), a)| <= config.accountQueue ==> all == old(all)
    {
      hide Books, Shaped, ShapedBut, SameBut, Lowest, Part, Excess;
      ghost var q := queue;
      SameButSelf(queue, a);
      LowestDivides(queue[a].txs, config.accountQueue);
      assert Part(queue[a].txs, queue[a].txs) by {
        PartSelf(queue[a].txs);
      }
      if a !in locals {
        ChangeOne(queue, a, queue[a].(txs := Lowest(queue[a].txs, config.accountQueue)));
        DropExcess(a);
      }
      ghost var capped := queue;
      CloseQueue(a);
      SameButChain(q, capped, queue, a);
      SameExcess(capped, queue, locals, config.accountQueue);
    }

    /** The pass of promoteExecutables over one account. */
    method PromoteAccount(a: Address, now: int)
      requires Books({}, {}) && Shape()
      modifies `pending, `queue, `all, `virt, `beats, priced
      ensures Books({}, {}) && Shape() && all <= old(all)
      ensures Drained(queue, virt, chain, a) && SameBut(old(queue), queue, a) && OnlyVirtual(old(virt), virt, a)
      ensures Usable(Items(queue, a), chain) && Part(Items(queue, a), Items(old(queue), a))
      ensures Beaten(old(beats), beats, old(pending), pending, now) && Shrunk(pending, old(pending))
      ensures forall c :: c != a ==> Items(pending, c) == Items(old(pending), c)
      ensures AllUsable(old(pending), chain) ==> AllUsable(pending, chain)
      ensures forall t :: t in old(all) && t !in all ==>
        Useless(t, chain) || (Excess(t, queue, locals, config.accountQueue) && t.sender == Some(a))
      ensures a in locals || |Items(old(queue), a)| <= config.accountQueue ==> OnlyUselessLeft(old(all), all, chain)
      ensures a !in locals ==> |Items(queue, a)| <= config.accountQueue
      ensures Contiguous(old(pending), old(virt), chain) && NonceRoom(old(all)) ==> Contiguous(pending, virt, chain)
    {
      hide Books, Contiguous, Useless, Usable, AllUsable, Lowest, AfterFilter, FromNonce, Excess;
      hide Shaped, ShapedBut, SameBut, Part, Drained, OnlyVirtual, Beaten, Shrunk;
      if a !in queue {
        BeatenNothing(beats, pending, now);
        NothingQueued(queue, virt, chain, a);
        return;
      }
      ShapedButOne(queue, a);
      ghost var q0 := queue;
      DropUnusable(a);
      ghost var q1 := queue;
      PromoteQueued(a, now);
      ghost var q2 := queue;
      CapQueued(a);
      QueuePassed(q0, q1, q2, queue, virt, chain, a);
    }

    // ---------- slot limits ----------

    /** Drops the highest nonce of an account's pending list and lowers its virtual nonce to it. */
    method CapOne(a: Address)
      requires Books({}, {}) && Shape() && a in pending && |pending[a].txs| > 1
      modifies `pending, `all, `virt, priced
      ensures Books({}, {}) && Shape() && all <= old(all)
      ensures pending == old(pending)[a := CutOne(old(pending)[a])] && Lowered(old(virt), virt, chain)
      ensures Contiguous(old(pending), old(virt), chain) ==> Contiguous(pending, virt, chain)
    {
      hide Partition, Values, IsHeap, Contiguous, Shaped, Lowered, Lowest, Registered;
      ghost var p := pending;
      CutKeepsShape(pending, a);
      var l := pending[a];
      var n := Greatest(l.txs);
      var t := l.txs[n];
      hide CapsBound;
      CapByOne(l.txs);
      CardinalityWithout(l.txs, n);
      KeyedItems(pending, queue, all, {}, a);
      PullPending(pending, queue, all, {}, a, CutOne(l), map[n := t]);
      pending := pending[a := l.(txs := Lowest(l.txs, |l.txs| - 1))];
      SingleValue(n, t);
      DropOne(t, {t});
      if Contiguous(p, virt, chain) {
        CutIsBelow(p, a);
        CutKeepsRuns(p, pending, virt, chain, a, n);
      }
      LowerOne(virt, chain, a, n);
      LowerVirtual(a, n);
    }

    /** Takes one transaction from each offender, lowering the water line by one. */
    method CutRound(offenders: seq<Address>, count: nat, ghost before: Accounts, ghost level: nat) returns (count': nat)
      requires Books({}, {}) && Shape() && Distinct(offenders) && level > 0 && count == Total(pending)
      requires Elements(offenders) == Above(before, locals, level) && pending == LevelAt(before, locals, level + 1)
      modifies `pending, `all, `virt, priced
      ensures Books({}, {}) && Shape() && all <= old(all)
      ensures pending == LevelAt(before, locals, level) && count' == Total(pending) && Lowered(old(virt), virt, chain)
      ensures Contiguous(old(pending), old(virt), chain) ==> Contiguous(pending, virt, chain)
    {
      hide Books, Total, LevelAt, Above, Contiguous, Shaped, Lowered, CutSome;
      NothingMoved(queue, virt, chain);
      count' := count;
      ghost var high, low := LevelAt(before, locals, level + 1), LevelAt(before, locals, level);
      LevelKeys(before, locals, level);
      LevelKeys(before, locals, level + 1);
      CutNone(high, low);
      for i := 0 to |offenders|
        invariant Books({}, {}) && Shape() && all <= old(all)
        invariant count' == Total(pending) && Lowered(old(virt), virt, chain)
        invariant CutSome(pending, high, low, offenders[..i])
        invariant Contiguous(old(pending), old(virt), chain) ==> Contiguous(pending, virt, chain)
      {
        var a := offenders[i];
        assert a in Elements(offenders);
        AboveMember(before, locals, level, a);
        LevelStep(before, locals, level, a);
        assert a !in offenders[..i];
        CutNext(pending, high, low, offenders[..i], a);
        TotalUpdate(pending, a, CutOne(pending[a]));
        CardinalityWithout(pending[a].txs, Greatest(pending[a].txs));
        ghost var v := virt;
        CapOne(a);
        LoweredChain(old(virt), v, virt, chain);
        count' := count' - 1;
        assert offenders[..i + 1] == offenders[..i] + [a];
      }
      assert offenders[..|offenders|] == offenders;
      forall a | a in before && a !in offenders ensures high[a] == low[a] {
        LevelStep(before, locals, level, a);
      }
      CutAll(pending, high, low, offenders);
    }

    /** Lowers the offenders together until the total fits or they are down to `floor`. */
    method LowerTo(offenders: seq<Address>, floor: nat, count: nat, ghost before: Accounts, ghost top: nat)
      returns (count': nat, ghost level: nat)
      requires Books({}, {}) && Shape() && offenders != [] && Distinct(offenders) && 0 < floor <= top && count == Total(pending)
      requires SameAbove(before, locals, floor, top, Elements(offenders)) && pending == LevelAt(before, locals, top)
      requires forall a :: a in offenders ==> a in before && a !in locals && |before[a].txs| >= top
      modifies `pending, `all, `virt, priced
      ensures Books({}, {}) && Shape() && all <= old(all)
      ensures floor <= level <= top && pending == LevelAt(before, locals, level) && count' == Total(pending)
      ensures count' <= config.globalSlots || level == floor
      ensures Lowered(old(virt), virt, chain)
      ensures level == top || Total(LevelAt(before, locals, level + 1)) > config.globalSlots
      ensures Contiguous(old(pending), old(virt), chain) ==> Contiguous(pending, virt, chain)
    {
      hide Books, Total, LevelAt, Above, Contiguous, Shaped, Lowered;
      NothingMoved(queue, virt, chain);
      count', level := count, top;
      var last := offenders[|offenders| - 1];
      LevelSize(before, locals, level, last);
      while count' > config.globalSlots && |pending[last].txs| > floor
        invariant Books({}, {}) && Shape() && all <= old(all)
        invariant floor <= level <= top && pending == LevelAt(before, locals, level) && count' == Total(pending)
        invariant last in pending && |pending[last].txs| == level && Lowered(old(virt), virt, chain)
        invariant level == top || Total(LevelAt(before, locals, level + 1)) > config.globalSlots
        invariant Contiguous(old(pending), old(virt), chain) ==> Contiguous(pending, virt, chain)
        decreases level
      {
        level := level - 1;
        ghost var v := virt;
        count' := CutRound(offenders, count', before, level);
        LoweredChain(old(virt), v, virt, chain);
        LevelSize(before, locals, level, last);
      }
    }

    /** The number of transactions in all lists. */
    method CountAll(m: Accounts) returns (n: nat)
      ensures n == Total(m)
    {
      hide Total;
      n := 0;
      var rest := m;
      while rest != map[]
        invariant Total(m) == n + Total(rest)
        decreases |rest|
      {
        var a :| a in rest;
        TotalWithout(rest, a);
        FewerAccounts(rest, a);
        n, rest := n + |rest[a].txs|, rest - {a};
      }
      NoTotal();
    }

    /** The priority queue's Pop: one of the accounts with the longest lists. */
    method PopLongest(spammers: set<Address>) returns (a: Address)
      requires spammers != {} && spammers <= pending.Keys
      ensures a in spammers && forall b :: b in spammers ==> |pending[b].txs| <= |pending[a].txs|
    {
      a :| a in spammers;
      var rest := spammers - {a};
      while rest != {}
        invariant rest <= spammers && a in spammers - rest
        invariant forall b :: b in spammers - rest ==> |pending[b].txs| <= |pending[a].txs|
      {
        var b :| b in rest;
        rest := rest - {b};
        if |pending[b].txs| > |pending[a].txs| {
          a := b;
        }
      }
    }

    /** Picks the next offender and lowers the earlier ones to its length. */
    method LowerNext(offenders: seq<Address>, spammers: set<Address>, count: nat, ghost before: Accounts,
                     ghost top: nat)
      returns (offender: Address, count': nat, ghost level: nat)
      requires Books({}, {}) && Shape() && spammers != {} && config.accountSlots > 0
      requires count == Total(pending) && count > config.globalSlots
      requires pending == LevelAt(before, locals, top) && top >= config.accountSlots
      requires Hunt(before, locals, config.accountSlots, offenders, spammers, top, true)
      requires offenders == [] ==> pending == before
      requires pending == before || Total(LevelAt(before, locals, top + 1)) > config.globalSlots
      modifies `pending, `all, `virt, priced
      ensures Books({}, {}) && Shape() && all <= old(all)
      ensures count' == Total(pending) && pending == LevelAt(before, locals, level) && level >= config.accountSlots
      ensures offender in spammers && Lowered(old(virt), virt, chain)
      ensures Hunt(before, locals, config.accountSlots, offenders + [offender], spammers - {offender}, level,
                   count' > config.globalSlots)
      ensures pending == before || Total(LevelAt(before, locals, level + 1)) > config.globalSlots
      ensures Contiguous(old(pending), old(virt), chain) ==> Contiguous(pending, virt, chain)
    {
      hide Books, Total, LevelAt, Contiguous, Shaped, Hunt, Above, Distinct, SameAbove, Lowered;
      NothingMoved(queue, virt, chain);
      var slots := config.accountSlots;
      forall a | a in spammers ensures a in before && a in pending && pending[a] == before[a] && |before[a].txs| > slots {
        SpammerFacts(before, locals, slots, offenders, spammers, top, a);
        LevelKeeps(before, locals, top, a);
      }
      offender := PopLongest(spammers);
      var threshold := |pending[offender].txs|;
      SpammerFacts(before, locals, slots, offenders, spammers, top, offender);
      if offenders == [] {
        LevelDown(before, locals, top, threshold, slots);
        count', level := count, threshold;
      } else {
        HuntLowers(before, locals, slots, offenders, spammers, top, threshold);
        OffendersDistinct(before, locals, slots, offenders, spammers, top);
        count', level := LowerTo(offenders, threshold, count, before, top);
      }
      HuntStep(before, locals, slots, offenders, spammers, top, offender, level, count' > config.globalSlots);
    }

    /**
     Brings the pending total within the global limit by cutting the longest
     remote lists down to a common water line, the highest that does, but never
     below the slots guaranteed to every account.
     */
    method EqualizePending() returns (ghost level: nat)
      requires Books({}, {}) && Shape() && config.accountSlots > 0
      modifies `pending, `all, `virt, priced
      ensures Books({}, {}) && Shape() && all <= old(all)
      ensures level >= config.accountSlots && pending == LevelAt(old(pending), locals, level)
      ensures Total(pending) <= config.globalSlots || level == config.accountSlots
      ensures Total(old(pending)) <= config.globalSlots ==> pending == old(pending) && all == old(all)
      ensures Lowered(old(virt), virt, chain)
      ensures pending == old(pending) || Total(LevelAt(old(pending), locals, level + 1)) > config.globalSlots
      ensures Contiguous(old(pending), old(virt), chain) ==> Contiguous(pending, virt, chain)
    {
      hide Books, Total, LevelAt, Contiguous, Shaped, Hunt, Above, Distinct, SameAbove, Lowered;
      NothingMoved(queue, virt, chain);
      ghost var before := pending;
      var count := CountAll(pending);
      level := TopLevel(before, locals, config.accountSlots);
      if count <= config.globalSlots {
        return;
      }
      var slots := config.accountSlots;
      var spammers := Above(pending, locals, slots);
      HuntStarts(before, locals, slots, level);
      var offenders: seq<Address> := [];
      while count > config.globalSlots && spammers != {}
        invariant Books({}, {}) && Shape() && all <= old(all)
        invariant count == Total(pending) && pending == LevelAt(before, locals, level) && level >= slots
        invariant Hunt(before, locals, slots, offenders, spammers, level, count > config.globalSlots)
        invariant offenders == [] ==> pending == before
        invariant Lowered(old(virt), virt, chain)
        invariant pending == before || Total(LevelAt(before, locals, level + 1)) > config.globalSlots
        invariant Contiguous(old(pending), old(virt), chain) ==> Contiguous(pending, virt, chain)
        decreases |spammers|
      {
        var offender;
        ghost var v := virt;
        offender, count, level := LowerNext(offenders, spammers, count, before, level);
        LoweredChain(old(virt), v, virt, chain);
        spammers, offenders := spammers - {offender}, offenders + [offender];
      }
      if count > config.globalSlots {
        if |offenders| > 0 {
          HuntLowers(before, locals, slots, offenders, spammers, level, slots);
          OffendersDistinct(before, locals, slots, offenders, spammers, level);
          ghost var v := virt;
          count, level := LowerTo(offenders, slots, count, before, level);
          LoweredChain(old(virt), v, virt, chain);
        } else {
          NoSpammers(before, locals, slots, level);
          LevelDown(before, locals, level, slots, slots);
          level := slots;
        }
      }
    }

    /** Removes one queued transaction; pending ones stay as they are. */
    method RemoveOneQueued(a: Address, n: uint64)
      requires Books({}, {}) && Shape() && a in queue && n in queue[a].txs
      modifies `pending, `queue, `all, `virt, `beats, priced
      ensures Books({}, {}) && Shape() && all <= old(all)
      ensures pending == old(pending) && virt == old(virt) && beats == old(beats)
      ensures var l := old(queue)[a].(txs := old(queue)[a].txs - {n});
        queue == if l.txs == map[] then old(queue) - {a} else old(queue)[a := l]
    {
      hide Partition, IsHeap, Shaped, Contiguous;
      var t := queue[a].txs[n];
      QueuedIsKnown(pending, queue, all, {}, a, n);
      WhereItIs(pending, queue, all, t);
      assert {} - {t} == {};
      RemoveTx(t, true, {});
    }

    /** Removes everything an account has queued. */
    method RemoveAllQueued(a: Address)
      requires Books({}, {}) && Shape() && a in queue
      modifies `pending, `queue, `all, `virt, `beats, priced
      ensures Books({}, {}) && Shape() && all <= old(all)
      ensures pending == old(pending) && virt == old(virt) && beats == old(beats)
      ensures queue == old(queue) - {a}
    {
      hide Books;
      while a in queue
        invariant Books({}, {}) && Shape() && all <= old(all)
        invariant pending == old(pending) && virt == old(virt) && beats == old(beats)
        invariant queue - {a} == old(queue) - {a}
        decreases |Items(queue, a)|
      {
        var n := Least(queue[a].txs);
        CardinalityWithout(queue[a].txs, n);
        ReplaceOne(queue, a, queue[a], queue[a].(txs := queue[a].txs - {n}));
        RemoveOneQueued(a, n);
      }
      assert queue - {a} == queue;
    }

    /** Removes an account's highest queued nonce. */
    method RemoveHighest(a: Address)
      requires Books({}, {}) && Shape() && a in queue && |queue[a].txs| > 1
      modifies `pending, `queue, `all, `virt, `beats, priced
      ensures Books({}, {}) && Shape() && all <= old(all)
      ensures pending == old(pending) && virt == old(virt) && beats == old(beats)
      ensures queue == old(queue)[a := CutOne(old(queue)[a])]
    {
      hide Books, Shaped;
      var n := Greatest(queue[a].txs);
      CardinalityWithout(queue[a].txs, n);
      RemoveOneQueued(a, n);
    }

    /** Removes an account's k highest queued nonces. */
    method RemoveLastQueued(a: Address, k: nat)
      requires Books({}, {}) && Shape() && a in queue && k < |queue[a].txs|
      modifies `pending, `queue, `all, `virt, `beats, priced
      ensures Books({}, {}) && Shape() && all <= old(all)
      ensures pending == old(pending) && virt == old(virt) && beats == old(beats)
      ensures queue == old(queue)[a := old(queue)[a].(txs := Lowest(old(queue)[a].txs, |old(queue)[a].txs| - k))]
    {
      hide Books, Shaped, Lowest, SameBut;
      ghost var q, l := queue, queue[a];
      SameButSelf(queue, a);
      var target := |queue[a].txs| - k;
      while |queue[a].txs| > target
        invariant Books({}, {}) && Shape() && all <= old(all)
        invariant pending == old(pending) && virt == old(virt) && beats == old(beats)
        invariant a in queue && queue.Keys == q.Keys && SameBut(q, queue, a) && |queue[a].txs| >= target
        invariant queue[a] == l.(txs := queue[a].txs) && Lowest(queue[a].txs, target) == Lowest(l.txs, target)
        decreases |queue[a].txs|
      {
        LowestAfterCut(queue[a], target);
        ChangeOne(queue, a, CutOne(queue[a]));
        SameButChain(q, queue, queue[a := CutOne(queue[a])], a);
        RemoveHighest(a);
      }
      LowestOfFew(queue[a].txs, target);
      SameButIsUpdate(q, queue, a);
    }

    /** The given accounts in some order. */
    method ListAccounts(s: set<Address>) returns (r: seq<Address>)
      ensures multiset(r) == multiset(s) && Distinct(r) && forall a :: a in r <==> a in s
    {
      r := [];
      var todo := s;
      while todo != {}
        invariant todo <= s && multiset(r) == multiset(s - todo)
        invariant Distinct(r) && forall a :: a in r ==> a !in todo
      {
        var a :| a in todo;
        assert s - (todo - {a}) == (s - todo) + {a};
        todo := todo - {a};
        r := r + [a];
      }
      assert s - todo == s;
      assert forall a :: a in r <==> a in multiset(r);
    }

    /** The given accounts, the least recently active first. */
    method SortByHeartbeat(s: set<Address>) returns (r: seq<Address>)
      ensures Distinct(r) && Elements(r) == s
      ensures forall i, j :: 0 <= i < j < |r| ==> Beat(beats, r[i]) <= Beat(beats, r[j])
    {
      var listed := ListAccounts(s);
      var b := beats;
      var rank := (a: Address) => Beat(b, a);
      r := Sort(listed, rank);
      ListsSet(r, s);
      forall i, j | 0 <= i < j < |r| ensures Beat(beats, r[i]) <= Beat(beats, r[j]) {
        assert rank(r[i]) <= rank(r[j]);
      }
    }

    /** Removes the last waiting account's queue, or only as much of its end as is too much. */
    method TrimLast(ghost before: Accounts, waiting: seq<Address>, drop: nat) returns (drop': nat)
      requires Books({}, {}) && Shape() && drop > 0 && waiting != []
      requires Total(queue) == config.globalQueue + drop
      requires Trimming(before, queue, locals, beats, waiting, false)
      modifies `pending, `queue, `all, `virt, `beats, priced
      ensures Books({}, {}) && Shape() && all <= old(all)
      ensures pending == old(pending) && virt == old(virt) && beats == old(beats)
      ensures Total(queue) == config.globalQueue + drop'
      ensures Trimming(before, queue, locals, beats, waiting[..|waiting| - 1], drop' == 0) && Shrunk(old(queue), queue)
      ensures LowestLeft(before, queue)
    {
      hide Books, Shaped, Total, Lowest, Trimming, SameBut, LowestLeft, Shrunk, Part, Distinct;
      Untouched(before, queue, locals, beats, waiting);
      var a := waiting[|waiting| - 1];
      LastWaiting(before, queue, locals, beats, waiting);
      ghost var q := queue;
      var size := |queue[a].txs|;
      if size <= drop {
        TotalWithout(queue, a);
        ChangeOne(queue, a, queue[a]);
        RemoveAllQueued(a);
        ShrunkByOne(q, a, map[]);
        drop' := drop - size;
      } else {
        TotalUpdate(queue, a, queue[a].(txs := Lowest(queue[a].txs, size - drop)));
        ChangeOne(queue, a, queue[a].(txs := Lowest(queue[a].txs, size - drop)));
        RemoveLastQueued(a, drop);
        LowestDivides(q[a].txs, size - drop);
        ShrunkByOne(q, a, Lowest(q[a].txs, size - drop));
        drop' := 0;
      }
      TrimsHighest(before, q, queue, a);
      TrimStep(before, q, queue, locals, beats, waiting, drop' == 0);
    }

    /**
     Brings the queued total down to the global limit by removing remote queues,
     the most recently active account's first and the last one's highest nonces
     only, or leaves only local queues.
     */
    method TrimQueue()
      requires Books({}, {}) && Shape()
      modifies `pending, `queue, `all, `virt, `beats, priced
      ensures Books({}, {}) && Shape() && all <= old(all)
      ensures pending == old(pending) && virt == old(virt) && beats == old(beats)
      ensures Total(old(queue)) <= config.globalQueue ==> queue == old(queue) && all == old(all)
      ensures Total(old(queue)) > config.globalQueue ==>
        Total(queue) == config.globalQueue || (Total(queue) > config.globalQueue && queue.Keys <= locals)
      ensures forall a :: a in old(queue) && a in locals ==> a in queue && queue[a] == old(queue)[a]
      ensures LatestFirst(old(queue), queue, locals, beats) && LowestLeft(old(queue), queue) && Shrunk(old(queue), queue)
    {
      hide Books, Shaped, Total, Lowest, LatestFirst, LowestLeft, Distinct, Elements, Shrunk;
      NothingMoved(queue, virt, chain);
      var queued := CountAll(queue);
      ghost var before := queue;
      var waiting := SortByHeartbeat(queue.Keys - locals);
      TrimStarts(queue, locals, beats, waiting);
      AllLeft(queue);
      if queued <= config.globalQueue {
        return;
      }
      var drop: nat := queued - config.globalQueue;
      while drop > 0 && waiting != []
        invariant Books({}, {}) && Shape() && all <= old(all)
        invariant pending == old(pending) && virt == old(virt) && beats == old(beats)
        invariant Total(queue) == config.globalQueue + drop
        invariant Trimming(before, queue, locals, beats, waiting, drop == 0) && Shrunk(before, queue) && LowestLeft(before, queue)
        decreases |waiting|
      {
        ghost var q := queue;
        drop := TrimLast(before, waiting, drop);
        ShrunkChain(before, q, queue);
        waiting := waiting[..|waiting| - 1];
      }
      TrimEnds(before, queue, locals, beats, waiting, drop == 0);
      assert drop > 0 ==> queue.Keys <= locals;
    }

    // ---------- demotion ----------

    /** Replaces an account's pending list; `gone` leaves the pool, `back` returns to the queue. */
    method ReplacePending(a: Address, l: TxL, gone: TxMap, back: TxMap)
      requires Books({}, {}) && Shaped(queue, false)
      requires Divides(Items(pending, a), l.txs, gone + back) && gone.Keys !! back.Keys
      modifies `pending, `queue, `all, priced
      ensures Books({}, {}) && Shaped(queue, false)
      ensures pending == old(pending)[a := l] && all == old(all) - Values(gone)
    {
      hide Partition, Values, IsHeap, Divides, Shaped;
      KeyedItems(pending, queue, all, {}, a);
      KeyedPart(Items(pending, a), l.txs, gone + back);
      KeyedUnion(gone, back);
      PullPending(pending, queue, all, {}, a, l, gone + back);
      pending := pending[a := l];
      ghost var transit := {} + Values(gone + back);
      DropOut(gone, transit);
      assert transit - Values(gone) == Values(back);
      Demote(back, Values(back), {});
      assert Values(back) - Values(back) == {};
    }

    /** Drops pending transactions the chain has passed. */
    method ForwardPending(a: Address)
      requires Books({}, {}) && Shaped(queue, false) && a in pending && pending[a].strict
      modifies `pending, `queue, `all, priced
      ensures Books({}, {}) && Shaped(queue, false) && all <= old(all)
      ensures pending == old(pending)[a := old(pending)[a].(txs := FromNonce(old(pending)[a].txs, chain.NonceOf(a)))]
      ensures OnlyUselessLeft(old(all), all, chain)
    {
      hide Books, Values, Useless, AllFit, Shaped;
      var l, nonce := pending[a], chain.NonceOf(a);
      BooksMean({}, {});
      UselessValues(pending, a, BelowNonce(l.txs, nonce), chain);
      ForwardDivides(l, nonce);
      ReplacePending(a, l.(txs := FromNonce(l.txs, nonce)), BelowNonce(l.txs, nonce), map[]);
    }

    /** Drops pending transactions that are too costly and demotes those after them. */
    method FilterPending(a: Address)
      requires Books({}, {}) && Shaped(queue, false) && a in pending && pending[a].strict && CapsBound(pending[a])
      requires forall n :: n in pending[a].txs ==> n >= chain.NonceOf(a)
      modifies `pending, `queue, `all, priced
      ensures Books({}, {}) && Shaped(queue, false) && all <= old(all)
      ensures pending == old(pending)[a := AfterFilter(old(pending)[a], chain.BalanceOf(a), chain.maxGas, chain)]
      ensures OnlyUselessLeft(old(all), all, chain) && Usable(pending[a].txs, chain)
    {
      hide Books, Values, Gapless, Filtered, AfterFilter, Useless, AllFit, Shaped, CapsBound;
      var l, balance := pending[a], chain.BalanceOf(a);
      var s := Filtered(l, balance, chain.maxGas, chain);
      FilterDividesStrict(l, balance, chain.maxGas, chain);
      RemovedIsUnpayable(l, balance, chain.maxGas, chain);
      BooksMean({}, {});
      UselessValues(pending, a, s.removed, chain);
      FilteredIsUsable(pending, a, l, chain);
      ReplacePending(a, AfterFilter(l, balance, chain.maxGas, chain), s.removed, s.invalids);
    }

    /** Demotes the whole list if its first nonce is not the chain's. */
    method PostponeGap(a: Address)
      requires Books({}, {}) && Shaped(queue, false) && a in pending && pending[a].strict
      modifies `pending, `queue, `all, priced
      ensures Books({}, {}) && Shaped(queue, false) && all == old(all)
      ensures pending == if chain.NonceOf(a) in old(pending)[a].txs then old(pending) else old(pending)[a := old(pending)[a].(txs := map[])]
    {
      hide Books, Values, Lowest, Divides, Shaped;
      var l := pending[a];
      if l.txs != map[] && chain.NonceOf(a) !in l.txs {
        CapToNone(l);
        NoValues();
        ReplacePending(a, l.(txs := Lowest(l.txs, 0)), map[], l.txs);
      } else if l.txs == map[] {
        assert pending == pending[a := l.(txs := map[])];
      }
    }

    /** Drops and demotes what an account can no longer execute. */
    method DemoteList(a: Address)
      requires Books({}, {}) && Shaped(queue, false) && a in pending && pending[a].strict && CapsBound(pending[a])
      modifies `pending, `queue, `all, priced
      ensures Books({}, {}) && Shaped(queue, false) && all <= old(all)
      ensures pending == old(pending)[a := Demoted(old(pending)[a], a, chain)]
      ensures OnlyUselessLeft(old(all), all, chain) && Usable(pending[a].txs, chain)
    {
      hide Books, Useless, Shaped, CapsBound, AfterFilter, Usable;
      var l := pending[a];
      SublistKeepsCapsBound(l, FromNonce(l.txs, chain.NonceOf(a)));
      ForwardPending(a);
      FilterKeepsStrict(pending[a], chain.BalanceOf(a), chain.maxGas, chain);
      FilterPending(a);
      NothingIsUsable(chain);
      PostponeGap(a);
    }

    /** Drops and demotes what an account can no longer execute, and its list if nothing is left. */
    method DemoteAccount(a: Address)
      requires Books({}, {}) && Shape() && a in pending
      modifies `pending, `queue, `all, `beats, priced
      ensures Books({}, {}) && Shape() && all <= old(all)
      ensures SameBut(old(pending), pending, a) && pending.Keys <= old(pending).Keys
      ensures Items(pending, a) == Demoted(old(pending)[a], a, chain).txs
      ensures Gapless(old(pending)[a].txs) ==> Rooted(Items(pending, a), chain.NonceOf(a))
      ensures OnlyUselessLeft(old(all), all, chain) && Usable(Items(pending, a), chain)
      ensures Silenced(old(beats), beats, old(pending), pending)
    {
      hide Books, Gapless, Rooted, Useless, Usable, Shaped, ShapedBut, SameBut, Demoted, CapsBound, Silenced;
      ghost var p := pending;
      ShapedOne(pending, a);
      DemotedFacts(pending[a], a, chain);
      ReshapePending(pending, a, Demoted(pending[a], a, chain));
      ChangeOne(pending, a, Demoted(pending[a], a, chain));
      DemoteList(a);
      ghost var mid := pending;
      CloseIfEmpty(a, {}, {});
      SameButChain(p, mid, pending, a);
      SilencedOne(old(beats), p, pending, a);
    }

    // ---------- the pool's operations ----------

    /** Pending totals are within the limit, or every remote account is within its guaranteed slots. */
    ghost predicate WithinSlots()
      reads this
    {
      Total(pending) <= config.globalSlots || forall a :: a in pending && a !in locals ==> |pending[a].txs| <= config.accountSlots
    }

    /** Queued totals are within the limit, or only local accounts have queues. */
    ghost predicate WithinQueue()
      reads this
    {
      Total(queue) <= config.globalQueue || queue.Keys <= locals
    }

    /** Promotes account by account; of those given, and of those with no queue, nothing promotable is left. */
    method PromoteEach(list: seq<Address>, now: int)
      requires Inv()
      modifies `pending, `queue, `all, `virt, `beats, priced
      ensures Inv() && all <= old(all) && LocalsSpared(old(all), all, locals, chain) && Shrunk(old(queue), queue)
      ensures Distinct(list) ==> OnlyExcessLeft(old(all), all, queue, locals, config.accountQueue, chain)
      ensures WithinAllowance(old(queue), locals, config.accountQueue) ==> OnlyUselessLeft(old(all), all, chain)
      ensures forall a :: a in list || a !in old(queue) ==> Drained(queue, virt, chain, a) && Usable(Items(queue, a), chain)
      ensures AllUsable(old(pending), chain) ==> AllUsable(pending, chain)
      ensures Beaten(old(beats), beats, old(pending), pending, now) && Shrunk(pending, old(pending))
      ensures forall a :: a !in list ==> Items(pending, a) == Items(old(pending), a)
      ensures Contiguous(old(pending), old(virt), chain) && NonceRoom(old(all)) ==> Contiguous(pending, virt, chain)
    {
      hide Books, Contiguous, Shaped, Drained, SameBut, OnlyVirtual, Useless, Usable, AllUsable, Shrunk, Part, Excess;
      hide Beaten;
      BeatenNothing(beats, pending, now);
      NoQueueIsDrained(queue, virt, chain);
      NothingMoved(queue, virt, chain);
      for i := 0 to |list|
        invariant Inv() && all <= old(all) && LocalsSpared(old(all), all, locals, chain) && Shrunk(old(queue), queue)
        invariant Distinct(list) ==> forall t :: t in old(all) && t !in all ==>
          Useless(t, chain) || (Excess(t, queue, locals, config.accountQueue) && t.From() in list[..i])
        invariant WithinAllowance(old(queue), locals, config.accountQueue) ==> OnlyUselessLeft(old(all), all, chain)
        invariant forall a :: a in list[..i] || a !in old(queue) ==> Drained(queue, virt, chain, a) && Usable(Items(queue, a), chain)
        invariant AllUsable(old(pending), chain) ==> AllUsable(pending, chain)
        invariant Beaten(old(beats), beats, old(pending), pending, now) && Shrunk(pending, old(pending))
        invariant forall a :: a !in list[..i] ==> Items(pending, a) == Items(old(pending), a)
        invariant Contiguous(old(pending), old(virt), chain) && NonceRoom(old(all)) ==> Contiguous(pending, virt, chain)
      {
        ghost var q, v, b, p := queue, virt, beats, pending;
        ShrunkAllowance(old(queue), queue, list[i]);
        PromoteAccount(list[i], now);
        BeatenChain(old(beats), b, beats, old(pending), p, pending, now);
        DrainedElsewhere(q, queue, v, virt, chain, list[i]);
        OnlyOneShrunk(old(queue), q, queue, list[i]);
        StillExcess(q, queue, list[i], locals, config.accountQueue);
        LocalExcess(queue, locals, config.accountQueue);
        assert list[..i + 1] == list[..i] + [list[i]];
      }
      assert list[..|list|] == list;
    }

    /**
     What promoting leaves of the transactions known before: it drops the useless
     ones and what a remote account has queued beyond its allowance (`mid`), then cuts
     the pending lists at a water line, then trims the queue.
     */
    ghost predicate Settled(before: set<Tx>, mid: Moment)
      reads this
    {
      && all <= mid.known <= before && Partition(mid.pending, mid.queue, mid.known, {})
      && OnlyExcessLeft(before, mid.known, mid.queue, locals, config.accountQueue, chain)
      && Levelled(mid.pending, pending, locals, config) && TrimmedTo(mid.queue, queue, locals, beats, config)
    }

    /** Enforces the limits of the pending lists, then that of the queue; local accounts lose nothing. */
    method EnforceLimits()
      requires Inv()
      modifies `pending, `queue, `all, `virt, `beats, priced
      ensures Inv() && all <= old(all) && WithinSlots() && WithinQueue() && beats == old(beats)
      ensures Levelled(old(pending), pending, locals, config) && TrimmedTo(old(queue), queue, locals, beats, config)
      ensures pending.Keys == old(pending).Keys && Shrunk(old(pending), pending)
      ensures forall t :: t in old(all) && t !in all ==> !IsLocal(t, locals)
      ensures Total(old(pending)) <= config.globalSlots && Total(old(queue)) <= config.globalQueue ==> all == old(all)
      ensures forall a :: Drained(old(queue), old(virt), chain, a) ==> Drained(queue, virt, chain, a)
      ensures forall a :: Usable(Items(old(queue), a), chain) ==> Usable(Items(queue, a), chain)
      ensures AllUsable(old(pending), chain) ==> AllUsable(pending, chain)
      ensures Contiguous(old(pending), old(virt), chain) ==> Contiguous(pending, virt, chain)
    {
      hide Books, Contiguous, Total, Shaped, LatestFirst, LowestLeft, Drained, Lowered;
      hide Usable, AllUsable, Partition, AllFit, Shrunk, LevelAt;
      ghost var p, q, known := pending, queue, all;
      BooksMean({}, {});
      ghost var level := EqualizePending();
      LevelBounds(p, locals, level);
      LevelShrinks(p, locals, level);
      LevelKeys(p, locals, level);
      TrimQueue();
      StillDrained(q, queue, old(virt), virt, chain);
      BooksMean({}, {});
      LocalListsKept(p, pending, q, queue, locals, level);
      LocalsKept(p, q, known, pending, queue, all, locals);
      StillUsable(p, pending, q, queue, chain);
    }

    method PromoteExecutables(accounts: Option<seq<Address>>, now: int) returns (ghost mid: Moment)
      requires Inv()
      modifies `pending, `queue, `all, `virt, `beats, priced
      ensures Inv() && all <= mid.known <= old(all) && WithinSlots() && WithinQueue()
      ensures Partition(mid.pending, mid.queue, mid.known, {}) && Shrunk(old(queue), mid.queue)
      ensures accounts.None? || Distinct(accounts.value) ==>
        OnlyExcessLeft(old(all), mid.known, mid.queue, locals, config.accountQueue, chain)
      ensures Levelled(mid.pending, pending, locals, config) && TrimmedTo(mid.queue, queue, locals, beats, config)
      ensures Beaten(old(beats), beats, old(pending), mid.pending, now) && Shrunk(mid.pending, old(pending))
      ensures accounts.Some? ==> forall a :: a !in accounts.value ==> Items(mid.pending, a) == Items(old(pending), a)
      ensures Shaped(mid.pending, true) && Shaped(pending, true) && pending.Keys == mid.pending.Keys && Shrunk(mid.pending, pending)
      ensures old(beats).Keys == old(pending).Keys ==> beats.Keys == pending.Keys
      ensures LocalsSpared(old(all), all, locals, chain)
      ensures Roomy(old(pending), old(queue), locals, config) ==> OnlyUselessLeft(old(all), all, chain)
      ensures forall a :: accounts.None? || a in accounts.value ==> Drained(queue, virt, chain, a) && Usable(Items(queue, a), chain)
      ensures AllUsable(old(pending), chain) ==> AllUsable(pending, chain)
      ensures Contiguous(old(pending), old(virt), chain) && NonceRoom(old(all)) ==> Contiguous(pending, virt, chain)
    {
      hide Books, Contiguous, Total, Shaped, Drained, Useless, Levelled, TrimmedTo, WithinSlots, WithinQueue;
      hide Usable, AllUsable, Partition, AllFit, Shrunk, Excess, Distinct, Beaten;
      ghost var p0, q0, all0 := pending, queue, all;
      BooksMean({}, {});
      var list;
      if accounts.Some? {
        list := accounts.value;
      } else {
        list := ListAccounts(queue.Keys);
      }
      PromoteEach(list, now);
      mid := Moment(pending, queue, all);
      if old(beats).Keys == old(pending).Keys {
        GrowsInStep(old(beats), beats, p0, pending, now);
      }
      BooksMean({}, {});
      RoomLeft(p0, q0, all0, pending, queue, all);
      EnforceLimits();
    }

    method DemoteUnexecutables()
      requires Inv()
      modifies `pending, `queue, `all, `beats, priced
      ensures Inv() && all <= old(all)
      ensures forall a :: a in old(pending) ==> Items(pending, a) == Demoted(old(pending)[a], a, chain).txs
      ensures pending.Keys <= old(pending).Keys
      ensures OnlyUselessLeft(old(all), all, chain) && AllUsable(pending, chain)
      ensures Silenced(old(beats), beats, old(pending), pending)
    {
      hide Books, Shaped, Useless, Usable, Demoted, Silenced;
      SilencedNothing(beats, pending);
      ghost var p := pending;
      var todo := pending.Keys;
      while todo != {}
        invariant Inv() && all <= old(all) && todo <= pending.Keys <= p.Keys
        invariant OnlyUselessLeft(old(all), all, chain) && Silenced(old(beats), beats, p, pending)
        invariant forall a :: a in todo ==> pending[a] == p[a]
        invariant forall a :: a in p && a !in todo ==> Items(pending, a) == Demoted(p[a], a, chain).txs
        invariant forall a :: a in pending && a !in todo ==> Usable(pending[a].txs, chain)
      {
        var a :| a in todo;
        assert Items(p, a) == p[a].txs;
        todo := todo - {a};
        ghost var b, before := beats, pending;
        DemoteAccount(a);
        SilencedChain(old(beats), b, beats, p, before, pending);
      }
      NothingIsUsable(chain);
    }

    /** Sets every pending account's virtual nonce to the one after its last. */
    method FollowPending()
      requires Inv()
      modifies `virt
      ensures Inv() && virt.Keys == old(virt).Keys + pending.Keys
      ensures forall a :: a in pending ==> pending[a].txs != map[] && virt[a] == AddWrap(Greatest(pending[a].txs), 1)
      ensures forall a :: a in old(virt) && a !in pending ==> virt[a] == old(virt)[a]
    {
      hide Partition, Registered, AboveFloor, Shaped, IsHeap;
      NoneEmpty(pending, true);
      var todo := pending.Keys;
      while todo != {}
        invariant Inv() && todo <= pending.Keys && virt.Keys == old(virt).Keys + (pending.Keys - todo)
        invariant forall a :: a in pending && a !in todo ==> virt[a] == AddWrap(Greatest(pending[a].txs), 1)
        invariant forall a :: a in old(virt) && a !in pending ==> virt[a] == old(virt)[a]
      {
        var a :| a in todo;
        virt := virt[a := AddWrap(Greatest(pending[a].txs), 1)];
        todo := todo - {a};
      }
    }

    /** Only transactions that are no longer known can be dropped from the exceptions. */
    lemma RelaxGone(gone: set<Tx>, gone': set<Tx>)
      requires Books({}, gone) && gone <= gone' && (gone' - gone) !! all
      ensures Books({}, gone')
    {
      hide Partition, Registered;
      assert all - gone' == all - gone;
    }

    /** Removes transactions that were already taken out of the price heap. */
    method RemoveDrops(drop: seq<Tx>)
      requires Books({}, Members(drop)) && Shape()
      modifies `pending, `queue, `all, `virt, `beats, priced
      ensures Books({}, {}) && Shape() && all == old(all) - Members(drop)
      ensures Silenced(old(beats), beats, old(pending), pending)
      ensures Contiguous(old(pending), old(virt), chain) ==> Contiguous(pending, virt, chain)
    {
      hide Books, Contiguous, Shaped, Holds, Silenced;
      SilencedNothing(beats, pending);
      for i := 0 to |drop|
        invariant Books({}, Members(drop[i..])) && Shape() && all == old(all) - Members(drop[..i])
        invariant Silenced(old(beats), beats, old(pending), pending)
        invariant Contiguous(old(pending), old(virt), chain) ==> Contiguous(pending, virt, chain)
      {
        MembersStep(drop, i);
        ghost var gone, b, p := Members(drop[i..]), beats, pending;
        RemoveTx(drop[i], false, gone);
        SilencedChain(old(beats), b, beats, old(pending), p, pending);
        RelaxGone(gone - {drop[i]}, Members(drop[i + 1..]));
      }
      assert drop[..|drop|] == drop && Members(drop[|drop|..]) == {};
    }

    /** Gives up the worst remote transactions of a full pool. */
    method DropWorst()
      requires Inv() && |all| >= config.globalSlots + config.globalQueue
      modifies `pending, `queue, `all, `virt, `beats, priced
      ensures Inv() && all <= old(all) && RoomMade(old(all), all, locals, config.globalSlots + config.globalQueue)
      ensures SingleEntries(old(priced.items), old(all)) ==>
        |all| == config.globalSlots + config.globalQueue - 1 || forall k :: k in all ==> IsLocal(k, locals)
      ensures Silenced(old(beats), beats, old(pending), pending)
      ensures Contiguous(old(pending), old(virt), chain) ==> Contiguous(pending, virt, chain)
    {
      hide Partition, Contiguous, Shaped, IsHeap, Worse, Silenced, Registered;
      HasEntries();
      ghost var items, stales := priced.items, priced.stales;
      var count := |all| - (config.globalSlots + config.globalQueue - 1);
      var drop := priced.Discard(count, locals, all);
      DropSize(items, priced.items, drop, all);
      DropsRegistered(items, stales, priced.items, priced.stales, drop, all);
      RemoveDrops(drop);
    }

    /**
     Makes room in a full pool for t unless it is no dearer than anything there.
     One place is free afterwards if every transaction had a single entry in the
     price heap and a remote one is left.
     */
    method MakeRoom(t: Tx) returns (ok: bool)
      requires Inv() && |all| >= config.globalSlots + config.globalQueue
      modifies `pending, `queue, `all, `virt, `beats, priced
      ensures Inv() && all <= old(all)
      ensures ok == Outbids(t, old(all), locals)
      ensures if ok then RoomMade(old(all), all, locals, config.globalSlots + config.globalQueue) else all == old(all)
      ensures ok && SingleEntries(old(priced.items), old(all)) ==>
        |all| == config.globalSlots + config.globalQueue - 1 || forall k :: k in all ==> IsLocal(k, locals)
      ensures Silenced(old(beats), beats, old(pending), pending)
      ensures Contiguous(old(pending), old(virt), chain) ==> Contiguous(pending, virt, chain)
    {
      hide Partition, Contiguous, Shaped, IsHeap, RoomMade, Silenced, Registered;
      HasEntries();
      SilencedNothing(beats, pending);
      ghost var items0, stales0 := priced.items, priced.stales;
      var under := priced.Underpriced(t, locals, all);
      KeepsRegistered(items0, stales0, priced.items, priced.stales, all);
      assert all - {} == all;
      if under {
        return false;
      }
      DropWorst();
      return true;
    }

    /** Puts a new transaction in place of the pending one with its nonce, if it pays enough more. */
    method ReplacePendingTx(t: Tx) returns (r: AddResult)
      requires Inv() && t !in all && t.sender.Some? && t.From() in pending && t.nonce in pending[t.From()].txs
      requires config.gasMode ==> t.gasPrice >= gasPrice
      modifies `pending, `all, priced
      ensures Inv() && all <= old(all) + {t}
      ensures r == if Accepts(old(pending)[t.From()], t, config.priceBump) then Accepted(true) else Rejected(ReplaceUnderpriced)
      ensures var prev := old(pending)[t.From()].txs[t.nonce];
        r.Accepted? <==> prev.gasPrice < t.gasPrice && 100 * t.gasPrice > prev.gasPrice * (100 + config.priceBump) - 100
      ensures pending.Keys == old(pending).Keys
      ensures r.Rejected? ==> all == old(all)
      ensures r.Accepted? ==> all == old(all) - {old(pending)[t.From()].txs[t.nonce]} + {t}
      ensures forall d :: d in old(all) && d !in all ==> d.From() == t.From() && d.nonce == t.nonce
      ensures Contiguous(old(pending), old(virt), chain) ==> Contiguous(pending, virt, chain)
    {
      hide Partition, IsHeap, Contiguous, Shaped, Accepts, Registered;
      var from := t.From();
      KeepsShape(pending, from, t);
      var l := pending[from];
      AcceptsByPrice(l, t, config.priceBump);
      if !Accepts(l, t, config.priceBump) {
        return Rejected(ReplaceUnderpriced);
      }
      assert all - {t} == all && {} - {t} == {};
      SlotTaken(pending, queue, all, t);
      SlotFits(pending, queue, all, t);
      PlacePending(pending, queue, all, {}, t, Added(l, t));
      if Contiguous(pending, virt, chain) {
        ReplaceKeepsRuns(pending, virt, chain, t, Added(l, t));
      }
      var prev := l.txs[t.nonce];
      pending := pending[from := Added(l, t)];
      Register(t, Some(prev), {});
      return Accepted(true);
    }

    /** Queues a new transaction whose nonce is not pending. */
    method QueueNew(t: Tx) returns (r: AddResult)
      requires Inv() && t !in all && t.sender.Some? && Free(pending, t)
      requires config.gasMode ==> t.gasPrice >= gasPrice
      modifies `queue, `all, priced
      ensures Inv() && all <= old(all) + {t}
      ensures r == if Accepts(ListOr(old(queue), t.From(), false), t, config.priceBump) then Accepted(!Free(old(queue), t)) else Rejected(ReplaceUnderpriced)
      ensures r.Rejected? ==> all == old(all)
      ensures r.Accepted? ==> all == (if r.replaced then old(all) - {Items(old(queue), t.From())[t.nonce]} else old(all)) + {t}
      ensures forall d :: d in old(all) && d !in all ==> d.From() == t.From() && d.nonce == t.nonce
    {
      hide Partition, IsHeap, Accepts, Shaped, Registered;
      assert all - {t} == all && {} - {t} == {};
      assert all - {} == all;
      SlotFits(pending, queue, all, t);
      var inserted, replaced := EnqueueTx(t, {}, {});
      return if inserted then Accepted(replaced) else Rejected(ReplaceUnderpriced);
    }

    method MarkLocal(a: Address)
      requires Inv()
      modifies `locals
      ensures Inv() && locals == old(locals) + {a}
    {
      hide Partition;
      locals := locals + {a};
    }

    /** Puts a valid transaction where it belongs. */
    method Place(t: Tx, local: bool) returns (r: AddResult)
      requires Inv() && t !in all && t.sender.Some? && (config.gasMode ==> t.gasPrice >= gasPrice)
      modifies `pending, `queue, `all, `locals, priced
      ensures Inv() && all <= old(all) + {t}
      ensures r == SlotResult(old(all), t, config.priceBump) && all == KnownAfter(old(all), t, config.priceBump)
      ensures locals == if local && r.Accepted? && Free(old(pending), t) then old(locals) + {t.From()} else old(locals)
      ensures pending.Keys == old(pending).Keys && (r == Accepted(false) ==> Free(pending, t))
      ensures Contiguous(old(pending), old(virt), chain) ==> Contiguous(pending, virt, chain)
    {
      hide Books, Contiguous, Shaped, Accepts;
      BooksMean({}, {});
      PlacingIsSlotResult(pending, queue, all, t, config.priceBump);
      SlotIsHeld(pending, queue, all, t);
      hide SameSlot, Partition;
      var from := t.From();
      if from in pending && t.nonce in pending[from].txs {
        r := ReplacePendingTx(t);
      } else {
        r := QueueNew(t);
        if r.Accepted? && local {
          MarkLocal(from);
        }
      }
    }

    /**
     Validates a transaction and puts it in place of the one with its nonce or
     into the queue.  A full pool first gives up its worst remote transactions.
     */
    method Add(t: Tx, local: bool) returns (r: AddResult, ghost spared: set<Tx>)
      requires Inv()
      modifies `pending, `queue, `all, `virt, `beats, `locals, priced
      ensures Inv() && all <= old(all) + {t} && old(locals) <= locals
      ensures Decides(t, local, old(all), spared, old(locals), r, all, chain, gasPrice, config)
      ensures locals == if local && r.Accepted? && Free(old(pending), t) then old(locals) + {t.From()} else old(locals)
      ensures r.Accepted? ==> forall u :: u in SameSlot(spared, t) ==> Outpays(t, u, config.priceBump)
      ensures r == Rejected(ReplaceUnderpriced) ==> exists u :: u in SameSlot(spared, t) && !Outpays(t, u, config.priceBump)
      ensures Silenced(old(beats), beats, old(pending), pending) && (r == Accepted(false) ==> Free(pending, t))
      ensures Contiguous(old(pending), old(virt), chain) ==> Contiguous(pending, virt, chain)
    {
      hide Inv, Contiguous, Useless, Outbids, RoomMade, SlotResult, SameSlot, Silenced, Free, Outpays;
      hide Validate, KnownAfter, WithinRules;
      SilencedNothing(beats, pending);
      spared := all;
      if t in all {
        r := Rejected(KnownTransaction);
        return;
      }
      var e := Validate(t, chain, gasPrice, config.gasMode);
      AdmittedIsSigned(t, chain, gasPrice, config.gasMode);
      if e.Some? {
        r := Rejected(e.value);
        return;
      }
      if !local && |all| >= config.globalSlots + config.globalQueue {
        var ok := MakeRoom(t);
        if !ok {
          r := Rejected(Underpriced);
          return;
        }
        spared := all;
      }
      ghost var p := pending;
      r := Place(t, local);
      SilencedByKeys(old(beats), beats, old(pending), p, pending);
      SlotOutpaid(spared, t, config.priceBump);
    }

    /** With few enough transactions known there is room for everything. */
    lemma AmpleInPool()
      requires Inv() && Ample(all, locals, config)
      ensures Roomy(pending, queue, locals, config)
    {
      hide Partition, Ample, Roomy;
      AmpleIsRoomy(pending, queue, all, locals, config);
    }

    lemma OneUncontestedStays(t: Tx, local: bool, before: set<Tx>, spared: set<Tx>, locals0: set<Address>, r: AddResult, known: set<Tx>)
      requires Inv() && Decides(t, local, before, spared, locals0, r, known, chain, gasPrice, config)
      requires Ample(before + {t}, locals, config) && Uncontested(t, before + {t}, chain, gasPrice, config)
      requires OnlyUselessLeft(known, all, chain)
      ensures t in all
    {
      hide Decides, SameSlot, Useless, Books, Shaped, AboveFloor;
      SubsetSize(before, before + {t});
      UncontestedIsDecided(t, t, local, before, spared, locals0, r, known, chain, gasPrice, config);
    }

    /** Adds one transaction and promotes what has become executable. */
    method AddTx(t: Tx, local: bool, now: int)
      returns (r: AddResult, ghost spared: set<Tx>, ghost known: set<Tx>, ghost mid: Moment)
      requires Inv()
      modifies `pending, `queue, `all, `virt, `beats, `locals, priced
      ensures Inv() && all <= known <= old(all) + {t} && old(locals) <= locals
      ensures Decides(t, local, old(all), spared, old(locals), r, known, chain, gasPrice, config)
      ensures if r == Accepted(false) then LocalsSpared(known, all, locals, chain) else all == known
      ensures r == Accepted(false) ==> Drained(queue, virt, chain, t.From()) && Usable(Items(queue, t.From()), chain)
      ensures r == Accepted(false) ==> WithinSlots() && WithinQueue() && Settled(known, mid)
      ensures Ample(old(all) + {t}, locals, config) && Uncontested(t, old(all) + {t}, chain, gasPrice, config) ==> t in all
      ensures r != Accepted(false) ==> Silenced(old(beats), beats, old(pending), pending)
      ensures NoOtherBeat(old(beats), beats, now) && (r == Accepted(false) && Holds(pending, t) ==> Beat(beats, t.From()) == now)
      ensures forall a :: a != t.From() ==> if a in old(pending) && a !in pending then a !in beats else SameBeat(old(beats), beats, a)
      ensures old(beats).Keys == old(pending).Keys ==> beats.Keys == pending.Keys
      ensures Contiguous(old(pending), old(virt), chain) && NonceRoom(old(all) + {t}) ==> Contiguous(pending, virt, chain)
    {
      hide Inv, Contiguous, Drained, Usable, Useless, Decides, Free, WithinSlots, WithinQueue;
      hide Silenced, Beaten, NoOtherBeat, SameBeat, Levelled, Shrunk, Holds, Items, SameSlot, Outpays, Shaped, Beat, LocalsSpared;
      hide TrimmedTo, OnlyExcessLeft, Partition, Distinct, Roomy, AllUsable, Ample, Uncontested, OnlyUselessLeft;
      r, spared := Add(t, local);
      known, mid := all, Moment(pending, queue, all);
      ghost var b, p := beats, pending;
      ShapeHolds();
      if old(beats).Keys == old(pending).Keys {
        StillInStep(old(beats), b, old(pending), p);
      }
      if r == Accepted(false) {
        AloneIsDistinct(t.From());
        if Ample(old(all) + {t}, locals, config) {
          FewerIsAmple(old(all) + {t}, known, locals, config);
          AmpleInPool();
        }
        mid := PromoteExecutables(Some([t.From()]), now);
        OnlyNowBeats(old(beats), b, beats, old(pending), p, mid.pending, now);
        BeatsElsewhere(old(beats), b, beats, old(pending), p, mid.pending, pending, now, t.From());
        PromotedBeats(b, beats, p, mid.pending, pending, now, t);
      } else {
        BeatenNothing(beats, pending, now);
        OnlyNowBeats(old(beats), b, beats, old(pending), p, pending, now);
        BeatsElsewhere(old(beats), b, beats, old(pending), p, pending, pending, now, t.From());
        SelfUseless(all, chain);
      }
      if Ample(old(all) + {t}, locals, config) && Uncontested(t, old(all) + {t}, chain, gasPrice, config) {
        OneUncontestedStays(t, local, old(all), spared, old(locals), r, known);
      }
    }

    lemma BatchIsAmple(txs: seq<Tx>, local: bool, before: set<Tx>, locals0: set<Address>, decisions: seq<Decision>,
                       rs: seq<AddResult>)
      requires DecidesAll(txs, local, before, locals0, decisions, rs, chain, gasPrice, config)
      requires Ample(before + Members(txs), locals, config)
      ensures Ample(After(before, decisions), locals, config)
    {
      hide DecidesAll, After, Ample;
      DecidedLength(txs, local, before, locals0, decisions, rs, chain, gasPrice, config);
      BatchBrings(txs, local, before, locals0, decisions, rs, chain, gasPrice, config, |txs|);
      FewerIsAmple(before + Members(txs), After(before, decisions), locals, config);
    }

    /** In a pool with room every uncontested transaction of a batch stays when only useless ones leave. */
    lemma UncontestedStays(txs: seq<Tx>, local: bool, before: set<Tx>, locals0: set<Address>, decisions: seq<Decision>,
                           rs: seq<AddResult>)
      requires Inv() && DecidesAll(txs, local, before, locals0, decisions, rs, chain, gasPrice, config)
      requires Ample(before + Members(txs), locals, config) && OnlyUselessLeft(After(before, decisions), all, chain)
      ensures forall t :: t in txs && Uncontested(t, before + Members(txs), chain, gasPrice, config) ==> t in all
    {
      hide DecidesAll, SameSlot, Useless, After, Books, Shaped, AboveFloor;
      DecidedLength(txs, local, before, locals0, decisions, rs, chain, gasPrice, config);
      forall t | t in txs && Uncontested(t, before + Members(txs), chain, gasPrice, config) ensures t in all {
        var i :| 0 <= i < |txs| && txs[i] == t;
        UncontestedIsKept(txs, local, before, locals0, decisions, rs, chain, gasPrice, config, i, |txs|);
      }
    }

    /** Adds a batch without promoting, and tells which accounts gained a transaction. */
    method AddEach(txs: seq<Tx>, local: bool) returns (rs: seq<AddResult>, dirty: set<Address>, ghost decisions: seq<Decision>)
      requires Inv()
      modifies `pending, `queue, `all, `virt, `beats, `locals, priced
      ensures Inv() && all <= old(all) + Members(txs) && old(locals) <= locals && |rs| == |txs|
      ensures DecidesAll(txs, local, old(all), old(locals), decisions, rs, chain, gasPrice, config)
      ensures all == After(old(all), decisions) && locals == LocalsAfter(old(locals), decisions)
      ensures txs == [] ==> pending == old(pending) && all == old(all) && virt == old(virt) && dirty == {}
      ensures !local ==> locals == old(locals)
      ensures forall i :: 0 <= i < |txs| && rs[i] == Accepted(false) ==> txs[i].From() in dirty
      ensures dirty != {} ==> Accepted(false) in rs
      ensures Silenced(old(beats), beats, old(pending), pending)
      ensures Contiguous(old(pending), old(virt), chain) ==> Contiguous(pending, virt, chain)
    {
      hide Inv, Contiguous, Decides, DecidesAll, Free, Silenced, SameSlot;
      SilencedNothing(beats, pending);
      rs, dirty, decisions := [], {}, [];
      assert DecidesAll(txs[..0], local, all, locals, decisions, rs, chain, gasPrice, config) by {
        NothingDecided(txs, local, all, locals, chain, gasPrice, config);
      }
      for i := 0 to |txs|
        invariant Inv() && all <= old(all) + Members(txs) && old(locals) <= locals && |rs| == i
        invariant DecidesAll(txs[..i], local, old(all), old(locals), decisions, rs, chain, gasPrice, config)
        invariant all == After(old(all), decisions) && locals == LocalsAfter(old(locals), decisions)
        invariant !local ==> locals == old(locals)
        invariant i == 0 ==> pending == old(pending) && all == old(all) && virt == old(virt) && dirty == {}
        invariant forall j :: 0 <= j < i && rs[j] == Accepted(false) ==> txs[j].From() in dirty
        invariant dirty != {} ==> Accepted(false) in rs
        invariant Silenced(old(beats), beats, old(pending), pending)
        invariant Contiguous(old(pending), old(virt), chain) ==> Contiguous(pending, virt, chain)
      {
        assert txs[i] in Members(txs);
        var r;
        ghost var spared, b, p := all, beats, pending;
        r, spared := Add(txs[i], local);
        SilencedChain(old(beats), b, beats, old(pending), p, pending);
        if r == Accepted(false) {
          dirty := dirty + {txs[i].From()};
        }
        DecidesMore(txs, i, local, old(all), old(locals), decisions, Decision(spared, all, locals), rs, r, chain, gasPrice, config);
        rs, decisions := rs + [r], decisions + [Decision(spared, all, locals)];
      }
      assert txs[..|txs|] == txs;
    }

    /** Adds a batch and promotes once for all accounts that gained a transaction. */
    method AddTxs(txs: seq<Tx>, local: bool, now: int)
      returns (rs: seq<AddResult>, ghost decisions: seq<Decision>, ghost mid: Moment)
      requires Inv()
      modifies `pending, `queue, `all, `virt, `beats, `locals, priced
      ensures Inv() && all <= old(all) + Members(txs) && old(locals) <= locals && |rs| == |txs|
      ensures DecidesAll(txs, local, old(all), old(locals), decisions, rs, chain, gasPrice, config)
      ensures txs == [] ==> pending == old(pending) && all == old(all) && virt == old(virt)
      ensures locals == LocalsAfter(old(locals), decisions) && (!local ==> locals == old(locals))
      ensures all <= After(old(all), decisions) && LocalsSpared(After(old(all), decisions), all, locals, chain)
      ensures Ample(After(old(all), decisions), locals, config) ==> OnlyUselessLeft(After(old(all), decisions), all, chain)
      ensures Ample(old(all) + Members(txs), locals, config) ==>
        forall t :: t in txs && Uncontested(t, old(all) + Members(txs), chain, gasPrice, config) ==> t in all
      ensures (forall r :: r in rs ==> r != Accepted(false)) ==> all == After(old(all), decisions)
      ensures Accepted(false) in rs ==> Settled(After(old(all), decisions), mid)
      ensures forall i :: 0 <= i < |txs| && rs[i] == Accepted(false) ==>
        && Drained(queue, virt, chain, txs[i].From()) && Usable(Items(queue, txs[i].From()), chain)
        && WithinSlots() && WithinQueue()
      ensures NoOtherBeat(old(beats), beats, now)
      ensures old(beats).Keys == old(pending).Keys ==> beats.Keys == pending.Keys
      ensures Contiguous(old(pending), old(virt), chain) && NonceRoom(old(all) + Members(txs)) ==> Contiguous(pending, virt, chain)
    {
      hide Inv, Contiguous, Drained, Usable, Useless, WithinSlots, WithinQueue, DecidesAll, After;
      hide Silenced, Beaten, NoOtherBeat, Uncontested;
      hide Roomy, Ample, Levelled, TrimmedTo, OnlyExcessLeft, Shrunk, Distinct;
      var dirty;
      rs, dirty, decisions := AddEach(txs, local);
      mid := Moment(pending, queue, all);
      ghost var b, p := beats, pending;
      if old(beats).Keys == old(pending).Keys {
        StillInStep(old(beats), b, old(pending), p);
      }
      BeatenNothing(b, p, now);
      OnlyNowBeats(old(beats), b, b, old(pending), p, p, now);
      if dirty != {} {
        var accounts := ListAccounts(dirty);
        if Ample(all, locals, config) {
          AmpleInPool();
        }
        mid := PromoteExecutables(Some(accounts), now);
        OnlyNowBeats(old(beats), b, beats, old(pending), p, mid.pending, now);
      }
      if Ample(old(all) + Members(txs), locals, config) {
        BatchIsAmple(txs, local, old(all), old(locals), decisions, rs);
        UncontestedStays(txs, local, old(all), old(locals), decisions, rs);
      }
    }

    /** Raises or lowers the price floor, removing the remote transactions below it. */
    method SetGasPrice(price: int)
      requires Inv()
      modifies `gasPrice, `pending, `queue, `all, `virt, `beats, priced
      ensures Inv() && gasPrice == price && all <= old(all)
      ensures forall t :: t in old(all) && t !in all ==> !IsLocal(t, locals) && t.gasPrice < price
      ensures forall t :: t in all ==> IsLocal(t, locals) || t.gasPrice >= price
      ensures Silenced(old(beats), beats, old(pending), pending)
      ensures Contiguous(old(pending), old(virt), chain) ==> Contiguous(pending, virt, chain)
    {
      hide Partition, Contiguous, Shaped, IsHeap, Silenced;
      gasPrice := price;
      ghost var items, stales := priced.items, priced.stales;
      var drop := priced.Cap(price, locals, all);
      assert all - {} == all;
      DropsRegistered(items, stales, priced.items, priced.stales, drop, all);
      RemoveDrops(drop);
    }

    /** Removes the queues of remote accounts that were inactive for longer than the configured lifetime. */
    method Evict(now: int)
      requires Inv()
      modifies `pending, `queue, `all, `virt, `beats, priced
      ensures Inv() && all <= old(all) && pending == old(pending) && virt == old(virt) && beats == old(beats)
      ensures queue == old(queue) - (set a | a in old(queue) && a !in locals && now - Beat(beats, a) > config.lifetime)
      ensures beats.Keys == pending.Keys && now > config.lifetime ==>
        forall a :: a in old(queue) && a !in locals && a !in pending ==> a !in queue
    {
      hide Books, Shaped;
      var todo := queue.Keys;
      ghost var out: set<Address> := {};
      while todo != {}
        invariant Inv() && all <= old(all) && pending == old(pending) && virt == old(virt) && beats == old(beats)
        invariant todo <= old(queue).Keys && queue == old(queue) - out
        invariant out == set a | a in old(queue) && a !in todo && a !in locals && now - Beat(beats, a) > config.lifetime
      {
        var a :| a in todo;
        todo := todo - {a};
        if a !in locals && now - Beat(beats, a) > config.lifetime {
          RemoveAllQueued(a);
          out := out + {a};
        }
      }
    }

    /** Demotes what the chain's state no longer executes, and makes the virtual nonces follow. */
    method DemoteAndFollow()
      requires Inv()
      modifies `pending, `queue, `all, `virt, `beats, priced
      ensures Inv() && all <= old(all) && OnlyUselessLeft(old(all), all, chain) && AllUsable(pending, chain)
      ensures NonceRoom(old(all)) ==> (Contiguous(pending, virt, chain) <==> Recovers(old(pending), old(virt), chain))
      ensures Silenced(old(beats), beats, old(pending), pending)
    {
      hide Books, Shaped, Useless, Usable, AllUsable, Demoted, Contiguous, Recovers, Silenced, AboveFloor;
      ghost var p, v := pending, virt;
      DemoteUnexecutables();
      FollowPending();
      IsFollowed(p, v, pending, virt, chain);
      hide Followed;
      if NonceRoom(old(all)) {
        BooksMean({}, {});
        PendingNoncesFit(pending, queue, all);
        RecoversIff(p, v, pending, virt, chain);
      }
    }

    /** Demotes what the chain's state no longer executes, and promotes what it now does. */
    method Refresh(now: int) returns (ghost mid: Moment)
      requires Inv()
      modifies `pending, `queue, `all, `virt, `beats, priced
      ensures Inv() && all <= old(all) && LocalsSpared(old(all), all, locals, chain) && Settled(old(all), mid)
      ensures Ample(old(all), locals, config) ==> OnlyUselessLeft(old(all), all, chain)
      ensures WithinSlots() && WithinQueue() && forall a :: Drained(queue, virt, chain, a)
      ensures forall t :: t in all && SelfPaid(t) ==> !Useless(t, chain)
      ensures NoOtherBeat(old(beats), beats, now)
      ensures old(beats).Keys == old(pending).Keys ==> beats.Keys == pending.Keys
      ensures Recovers(old(pending), old(virt), chain) && NonceRoom(old(all)) ==> Contiguous(pending, virt, chain)
    {
      hide Silenced, Beaten, NoOtherBeat;
      hide Contiguous, Recovers, Books, Drained, Useless, Usable, WithinSlots, WithinQueue;
      hide Levelled, TrimmedTo, Excess, Shrunk, Partition, Shaped, Roomy, Ample;
      DemoteAndFollow();
      ghost var b, p := beats, pending;
      if old(beats).Keys == old(pending).Keys {
        StillInStep(old(beats), b, old(pending), p);
      }
      if Ample(old(all), locals, config) {
        FewerIsAmple(old(all), all, locals, config);
        AmpleInPool();
      }
      mid := PromoteExecutables(None, now);
      OnlyNowBeats(old(beats), b, beats, old(pending), p, mid.pending, now);
      BooksMean({}, {});
      KnownIsUsable(pending, queue, all, chain);
    }

    lemma ContiguousRecovers(head: Chain)
      requires Inv() && Contiguous(pending, virt, chain)
      ensures Recovers(pending, map[], head)
    {
      ContiguousIsGapless(pending, virt, chain);
      GaplessRecovers(pending, head);
    }

    /** Takes over the state of a new head; the virtual nonces start afresh. */
    method NewHead(head: Chain)
      requires Inv()
      modifies `chain, `virt
      ensures Inv() && chain == head && virt == map[]
    {
      hide Partition;
      chain, virt := head, map[];
    }

    /**
     Follows the chain to a new head, unless its state cannot be read: reinjects
     the given transactions, demotes what the new state no longer executes, and
     promotes what it now does.  p and v are the pending lists and virtual nonces
     once the transactions are reinjected, rs what became of each of them.
     */
    method Reset(head: Option<Chain>, reinject: seq<Tx>, now: int)
      returns (ghost p: Accounts, ghost v: map<Address, uint64>, ghost rs: seq<AddResult>, ghost decisions: seq<Decision>)
      requires Inv()
      modifies `chain, `pending, `queue, `all, `virt, `beats, `locals, priced
      ensures Inv() && all <= old(all) + Members(reinject) && locals == old(locals)
      ensures chain == if head.Some? then head.value else old(chain)
      ensures head.None? ==> pending == old(pending) && queue == old(queue) && all == old(all) && virt == old(virt)
      ensures head.Some? ==> DecidesAll(reinject, false, old(all), old(locals), decisions, rs, chain, gasPrice, config)
      ensures head.Some? ==> LocalsSpared(After(old(all), decisions), all, locals, chain)
      ensures head.Some? && Ample(old(all) + Members(reinject), locals, config) ==>
        OnlyUselessLeft(After(old(all), decisions), all, chain)
      ensures reinject == [] ==> LocalsSpared(old(all), all, locals, chain)
      ensures NoOtherBeat(old(beats), beats, now)
      ensures old(beats).Keys == old(pending).Keys ==> beats.Keys == pending.Keys
      ensures head.Some? ==> WithinSlots() && WithinQueue() && forall a :: Drained(queue, virt, chain, a)
      ensures head.Some? ==> forall t :: t in all && SelfPaid(t) ==> !Useless(t, chain)
      ensures head.Some? && Recovers(p, v, chain) && NonceRoom(old(all) + Members(reinject)) ==> Contiguous(pending, virt, chain)
      ensures head.Some? && reinject == [] ==> p == old(pending) && v == map[]
      ensures reinject == [] && NonceRoom(old(all)) && Contiguous(old(pending), old(virt), old(chain)) ==>
        Contiguous(pending, virt, chain)
    {
      hide Contiguous, Inv, Recovers, Drained, Useless, Usable, DecidesAll, After, WithinSlots, WithinQueue;
      hide Ample, Settled;
      p, v, rs, decisions := pending, virt, [], [];
      if head.None? {
        return;
      }
      if Contiguous(pending, virt, chain) {
        ContiguousRecovers(head.value);
      }
      NewHead(head.value);
      var errs;
      ghost var mid;
      errs, decisions, mid := AddTxs(reinject, false, now);
      p, v, rs := pending, virt, errs;
      ghost var known := After(old(all), decisions);
      if Ample(old(all) + Members(reinject), locals, config) {
        BatchIsAmple(reinject, false, old(all), old(locals), decisions, rs);
        FewerIsAmple(known, all, locals, config);
      }
      mid := Refresh(now);
    }

    /**
     Follows the chain from one head to another: the transactions that only the old
     branch has are reinjected, and nothing happens if the branches do not meet.
     */
    method ResetTo(tree: Chains.BlockChain, oldHead: Option<Chains.Block>, newHead: Chains.Block, state: Option<Chain>, now: int)
      returns (rooted: bool, ghost reinject: seq<Tx>, ghost gone: seq<Chains.Block>, ghost come: seq<Chains.Block>,
               ghost rs: seq<AddResult>, ghost decisions: seq<Decision>)
      requires Inv() && Chains.Consistent(tree.store) && Chains.IsStored(tree.store, newHead)
      requires oldHead.Some? ==> Chains.IsStored(tree.store, oldHead.value)
      modifies `chain, `pending, `queue, `all, `virt, `beats, `locals, priced
      ensures Inv() && rooted == (oldHead.Some? && oldHead.value.number <= newHead.number <= oldHead.value.number + 64 ==>
        Chains.Related(tree.store, oldHead.value, newHead))
      ensures !rooted ==> pending == old(pending) && queue == old(queue) && all == old(all) && chain == old(chain)
      ensures oldHead.None? || newHead.number < oldHead.value.number || newHead.number > oldHead.value.number + 64 ==> reinject == []
      ensures oldHead.Some? && oldHead.value.number <= newHead.number <= oldHead.value.number + 64 && rooted ==>
        && (forall t :: t in reinject <==> Chains.InBranch(gone, t) && !Chains.InBranch(come, t))
        && (exists c :: Chains.Walk(tree.store, oldHead.value, gone, c) && Chains.Walk(tree.store, newHead, come, c))
      ensures rooted ==> all <= old(all) + Members(reinject) && locals == old(locals)
      ensures rooted && state.Some? ==>
        && DecidesAll(reinject, false, old(all), old(locals), decisions, rs, chain, gasPrice, config)
        && LocalsSpared(After(old(all), decisions), all, locals, chain)
      ensures rooted && state.Some? && Ample(old(all) + Members(reinject), locals, config) ==>
        && OnlyUselessLeft(After(old(all), decisions), all, chain)
        && forall t :: t in reinject && Uncontested(t, old(all) + Members(reinject), chain, gasPrice, config) ==> t in all
      ensures rooted && state.Some? ==> WithinSlots() && WithinQueue() && forall a :: Drained(queue, virt, chain, a)
      ensures rooted && state.Some? ==> chain == state.value && forall t :: t in all && SelfPaid(t) ==> !Useless(t, chain)
      ensures old(beats).Keys == old(pending).Keys ==> beats.Keys == pending.Keys
      ensures rooted && reinject == [] && NonceRoom(old(all)) && Contiguous(old(pending), old(virt), old(chain)) ==>
        Contiguous(pending, virt, chain)
    {
      hide Inv, Contiguous, Drained, Useless, WithinSlots, WithinQueue;
      hide Ample, DecidesAll, Uncontested, After;
      rooted, reinject, gone, come, rs, decisions := true, [], [], [], [], [];
      var txs: Option<seq<Tx>> := Some([]);
      if oldHead.Some? {
        ghost var common;
        txs, common, gone, come := tree.Discarded(oldHead.value, newHead);
        if txs.None? {
          rooted := false;
          return;
        }
        reinject := txs.value;
      }
      ghost var p, v;
      p, v, rs, decisions := Reset(state, txs.value, now);
      if state.Some? && Ample(old(all) + Members(reinject), locals, config) {
        UncontestedStays(reinject, false, old(all), old(locals), decisions, rs);
      }
    }

    // ---------- runs ----------

    /** One operation of the pool. */
    method Step(op: Op)
      requires Inv()
      modifies `chain, `gasPrice, `pending, `queue, `all, `virt, `beats, `locals, priced
      ensures Inv() && all <= old(all) + op.Txs()
      ensures (op.AddOne? || op.AddBatch?) && Ample(old(all) + op.Txs(), locals, config) ==>
        forall t :: t in op.Txs() && Uncontested(t, old(all) + op.Txs(), chain, gasPrice, config) ==> t in all
      ensures chain == LastHead(old(chain), [op]) && gasPrice == LastPrice(old(gasPrice), [op])
      ensures op.Reprice? ==> forall t :: t in all ==> IsLocal(t, locals) || t.gasPrice >= op.price
      ensures op.EvictStale? ==> forall a :: a in queue && a !in locals ==> op.now - Beat(beats, a) <= config.lifetime
      ensures op.Head? && op.head.Some? ==> forall a :: Drained(queue, virt, chain, a)
      ensures old(beats).Keys == old(pending).Keys ==> beats.Keys == pending.Keys
      ensures op.Steady() && NonceRoom(old(all)) && Contiguous(old(pending), old(virt), old(chain)) ==>
        Contiguous(pending, virt, chain)
    {
      hide Inv, Contiguous, Ample, Uncontested, Drained, DecidesAll, Decides, Settled, Silenced, NoOtherBeat, SameBeat;
      match op
      case AddOne(t, local, now) =>
        var r;
        ghost var spared, known, mid;
        r, spared, known, mid := AddTx(t, local, now);
      case AddBatch(txs, local, now) =>
        var rs;
        ghost var decisions;
        ghost var mid;
        rs, decisions, mid := AddTxs(txs, local, now);
      case Reprice(price) =>
        SetGasPrice(price);
        if old(beats).Keys == old(pending).Keys {
          StillInStep(old(beats), beats, old(pending), pending);
        }
      case EvictStale(now) => Evict(now);
      case Head(head, reinject, now) =>
        ghost var p, v, rs, decisions := Reset(head, reinject, now);
    }

    /**
     Over every run the books stay in order, the price floor holds, and an account has
     a heartbeat exactly while it has pending transactions; if no reset reinjects
     anything, the pending lists also stay contiguous throughout.
     */
    method RunAll(ops: seq<Op>)
      requires Inv()
      modifies `chain, `gasPrice, `pending, `queue, `all, `virt, `beats, `locals, priced
      ensures Inv() && chain == LastHead(old(chain), ops) && gasPrice == LastPrice(old(gasPrice), ops)
      ensures forall t :: t in all ==> t in old(all) || exists op :: op in ops && t in op.Txs()
      ensures old(beats).Keys == old(pending).Keys ==> beats.Keys == pending.Keys
      ensures (forall op :: op in ops ==> op.Steady()) && NonceRoom(old(all)) && Contiguous(old(pending), old(virt), old(chain)) ==>
        Contiguous(pending, virt, chain)
    {
      hide Inv, Contiguous;
      ghost var steady := (forall op :: op in ops ==> op.Steady()) && NonceRoom(all) && Contiguous(pending, virt, chain);
      for i := 0 to |ops|
        invariant Inv() && chain == LastHead(old(chain), ops[..i]) && gasPrice == LastPrice(old(gasPrice), ops[..i])
        invariant forall t :: t in all ==> t in old(all) || exists op :: op in ops && t in op.Txs()
        invariant old(beats).Keys == old(pending).Keys ==> beats.Keys == pending.Keys
        invariant steady ==> NonceRoom(all) && Contiguous(pending, virt, chain)
      {
        assert ops[..i + 1][..i] == ops[..i] && [ops[i]][..0] == [];
        Step(ops[i]);
      }
      assert ops[..|ops|] == ops;
    }
  }
}

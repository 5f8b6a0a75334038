/**
 Gas over one transaction and over a block: bought up front, used, partly refunded,
 and paid as a fee, with the block's pool of gas kept along the way.
 A run of the virtual machine is an input: the gas it leaves (at most what it was
 given), its error, what it moves between accounts, and the refund it earned.
 */
module GasAccounting {
  import opened Txs

  const TX_GAS := 21000
  const TX_GAS_CONTRACT_CREATION := 53000
  const TX_DATA_ZERO_GAS := 4
  const TX_DATA_NON_ZERO_GAS := 68

  type Balances = map<Address, int>

  function At(b: Balances, a: Address): int {
    if a in b then b[a] else 0
  }

  function Changed(b: Balances, a: Address, amount: int): Balances {
    b[a := At(b, a) + amount]
  }

  /** Balances after a set of transfers. */
  function Plus(b: Balances, moved: Balances): Balances {
    map a | a in b.Keys + moved.Keys :: At(b, a) + At(moved, a)
  }

  datatype Message = Message(from: Address, payment: Address, to: Option<Address>, nonce: uint64, checkNonce: bool,
                             gas: uint64, gasPrice: nat, fee: Option<nat>, data: seq<nat>)

  /** Who pays for gas: the payer if the message names one, else the sender. */
  function GasPayer(msg: Message): (a: Address)
    ensures a == msg.payment || (msg.payment == EMPTY_ADDRESS && a == msg.from)
    ensures msg.payment == EMPTY_ADDRESS ==> a == msg.from
  {
    if msg.payment != EMPTY_ADDRESS then msg.payment else msg.from
  }

  datatype Failure =
    | NonceTooHigh
    | NonceTooLow
    | InsufficientBalanceForGas
    | InsufficientBalanceForPayerForGas
    | GasLimitReached
    | OutOfGas
    | InsufficientBalance

  // ---------- intrinsic gas ----------

  function ByteGas(b: nat): nat {
    if b == 0 then TX_DATA_ZERO_GAS else TX_DATA_NON_ZERO_GAS
  }

  /** The price of the data, byte by byte. */
  function DataGas(data: seq<nat>): nat {
    if data == [] then 0 else DataGas(data[..|data| - 1]) + ByteGas(data[|data| - 1])
  }

  function Zeros(data: seq<nat>): (z: nat)
    ensures z <= |data|
  {
    multiset(data)[0]
  }

  /** Four for every zero byte, sixty-eight for every other. */
  lemma {:induction false} DataGasIsCounted(data: seq<nat>)
    ensures DataGas(data) == 4 * Zeros(data) + 68 * (|data| - Zeros(data))
    decreases |data|
  {
    if data != [] {
      var front, last := data[..|data| - 1], data[|data| - 1];
      assert data == front + [last];
      DataGasIsCounted(front);
      assert multiset(data) == multiset(front) + multiset{last};
    }
  }

  function BaseGas(creation: bool): nat {
    if creation then TX_GAS_CONTRACT_CREATION else TX_GAS
  }

  /** What a message must pay before it runs. */
  function Intrinsic(msg: Message): (gas: nat)
    ensures gas == (if msg.to.None? then 53000 else 21000) + 4 * Zeros(msg.data) + 68 * (|msg.data| - Zeros(msg.data))
  {
    DataGasIsCounted(msg.data);
    BaseGas(msg.to.None?) + DataGas(msg.data)
  }

  /** The intrinsic gas, or nothing exactly if it does not fit in 64 bits. */
  method IntrinsicGas(data: seq<nat>, creation: bool) returns (r: Option<nat>)
    requires |data| <= MAX_UINT64
    ensures r == if BaseGas(creation) + DataGas(data) <= MAX_UINT64 then Some(BaseGas(creation) + DataGas(data)) else None
  {
    var gas: uint64 := BaseGas(creation);
    if |data| > 0 {
      var nz := 0;
      for i := 0 to |data|
        invariant 0 <= nz <= i
        invariant DataGas(data[..i]) == nz * TX_DATA_NON_ZERO_GAS + (i - nz) * TX_DATA_ZERO_GAS
      {
        assert data[..i + 1][..i] == data[..i];
        if data[i] != 0 {
          nz := nz + 1;
        }
      }
      assert data[..|data|] == data;
      if (MAX_UINT64 - gas) / TX_DATA_NON_ZERO_GAS < nz {
        return None;
      }
      gas := gas + nz * TX_DATA_NON_ZERO_GAS;
      var z := |data| - nz;
      if (MAX_UINT64 - gas) / TX_DATA_ZERO_GAS < z {
        return None;
      }
      gas := gas + z * TX_DATA_ZERO_GAS;
    }
    r := Some(gas);
  }

  // ---------- the pool and the state ----------

  class GasPool {
    var gas: nat

    constructor ()
      ensures gas == 0
    {
      gas := 0;
    }

    /** Puts gas back; pushing the pool above 64 bits panics. */
    method AddGas(amount: nat) returns (panicked: bool)
      requires amount <= MAX_UINT64
      modifies this
      ensures panicked <==> old(gas) + amount > MAX_UINT64
      ensures gas == if panicked then old(gas) else old(gas) + amount
    {
      if gas > MAX_UINT64 - amount {
        return true;
      }
      gas := gas + amount;
      panicked := false;
    }

    method SubGas(amount: nat) returns (enough: bool)
      modifies this
      ensures enough <==> old(gas) >= amount
      ensures gas == if enough then old(gas) - amount else old(gas)
    {
      enough := gas >= amount;
      if enough {
        gas := gas - amount;
      }
    }
  }

  function NonceIn(nonces: map<Address, uint64>, a: Address): uint64 {
    if a in nonces then nonces[a] else 0
  }

  /** CannotTransfer: the sender lacks the value; CannotTransferAll: it lacks the value and the extra fee together. */
  datatype VmError = NoError | CannotTransfer | CannotTransferAll | OtherError

  /** What a run of the virtual machine does; `nonces` are those it sets beyond raising the sender's. */
  datatype VmRun = VmRun(left: nat, error: VmError, moved: Balances, refund: uint64, nonces: map<Address, uint64>)

  /** The sender's nonce is raised before a call, and within a creation once the sender's funds suffice. */
  predicate RaisesNonce(creation: bool, error: VmError) {
    !creation || (error != CannotTransfer && error != CannotTransferAll)
  }

  /** The nonces after a message. */
  function NoncesAfter(nonces: map<Address, uint64>, msg: Message, run: VmRun): (after: map<Address, uint64>)
    ensures forall a :: a !in run.nonces && a != msg.from ==> NonceIn(after, a) == NonceIn(nonces, a)
    ensures forall a :: a in run.nonces ==> NonceIn(after, a) == run.nonces[a]
    ensures msg.from !in run.nonces && run.error != CannotTransfer ==>
      NonceIn(after, msg.from) ==
        if msg.to.None? && run.error == CannotTransferAll then NonceIn(nonces, msg.from) else AddWrap(NonceIn(nonces, msg.from), 1)
  {
    (if RaisesNonce(msg.to.None?, run.error) then nonces[msg.from := AddWrap(NonceIn(nonces, msg.from), 1)] else nonces) + run.nonces
  }

  lemma NoncesOfRun(nonces: map<Address, uint64>, msg: Message, run: VmRun)
    ensures NoncesAfter(nonces, msg, run) ==
      (if msg.to.Some? || RaisesNonce(true, run.error) then nonces[msg.from := AddWrap(NonceIn(nonces, msg.from), 1)] else nonces) + run.nonces
  {
  }

  /**
   A message that went through, the machine having set no nonce of its sender, can be refused
   for its nonce from then on, except exactly a creation whose sender lacked the funds for
   value and extra fee together.
   */
  lemma StaysValidIff(nonces: map<Address, uint64>, msg: Message, run: VmRun)
    requires run.error != CannotTransfer && msg.from !in run.nonces && NonceIn(nonces, msg.from) == msg.nonce
    ensures NonceIn(NoncesAfter(nonces, msg, run), msg.from) == msg.nonce <==> msg.to.None? && run.error == CannotTransferAll
  {
    hide NoncesAfter;
    assert AddWrap(msg.nonce, 1) != msg.nonce;
  }

  function GasLeft(run: VmRun, gas: nat): nat {
    Min(run.left, gas)
  }

  class World {
    var balances: Balances
    var nonces: map<Address, uint64>
    var refund: uint64

    constructor (balances: Balances, nonces: map<Address, uint64>)
      ensures this.balances == balances && this.nonces == nonces
    {
      this.balances, this.nonces, refund := balances, nonces, 0;
    }

    function NonceOf(a: Address): uint64
      reads this
    {
      NonceIn(nonces, a)
    }

    /** A run of the virtual machine with the given gas. */
    method Execute(gas: nat, creator: Option<Address>, run: VmRun) returns (left: nat)
      modifies this
      ensures left == GasLeft(run, gas)
      ensures balances == Plus(old(balances), run.moved) && refund == run.refund
      ensures nonces == (if creator.Some? && RaisesNonce(true, run.error)
        then old(nonces)[creator.value := AddWrap(NonceIn(old(nonces), creator.value), 1)] else old(nonces)) + run.nonces
    {
      left := GasLeft(run, gas);
      if creator.Some? && RaisesNonce(true, run.error) {
        nonces := nonces[creator.value := AddWrap(NonceOf(creator.value), 1)];
      }
      balances, refund, nonces := Plus(balances, run.moved), run.refund, nonces + run.nonces;
    }
  }

  // ---------- one transaction ----------

  datatype Outcome = Done(usedGas: nat, failed: bool) | Failed(reason: Failure) | Panicked

  /**
   Why a message is refused before the virtual machine runs, if it is.  One that is
   not has, if it is checked, exactly the account's nonce; and, if gas is charged,
   its payer has the price of all its gas, the pool has that gas, and it covers the
   intrinsic gas.
   */
  function Refusal(msg: Message, metered: bool, nonce: uint64, balance: int, pool: int): (r: Option<Failure>)
    ensures r.None? <==>
      && (msg.checkNonce ==> nonce == msg.nonce)
      && (metered ==> msg.gas * msg.gasPrice <= balance && Intrinsic(msg) <= msg.gas <= pool)
  {
    if msg.checkNonce && nonce < msg.nonce then Some(NonceTooHigh)
    else if msg.checkNonce && nonce > msg.nonce then Some(NonceTooLow)
    else if !metered then None
    else if balance < msg.gas * msg.gasPrice then
      Some(if msg.payment != EMPTY_ADDRESS then InsufficientBalanceForPayerForGas else InsufficientBalanceForGas)
    else if pool < msg.gas then Some(GasLimitReached)
    else if msg.gas < Intrinsic(msg) then Some(OutOfGas)
    else None
  }

  /** Which reason is given. */
  lemma RefusalIs(msg: Message, metered: bool, nonce: uint64, balance: int, pool: int)
    ensures var r := Refusal(msg, metered, nonce, balance, pool);
      var due := metered && (msg.checkNonce ==> nonce == msg.nonce);
      var broke := balance < msg.gas * msg.gasPrice;
      && (r == Some(NonceTooHigh) <==> msg.checkNonce && nonce < msg.nonce)
      && (r == Some(NonceTooLow) <==> msg.checkNonce && nonce > msg.nonce)
      && (r == Some(InsufficientBalanceForPayerForGas) <==> due && broke && msg.payment != EMPTY_ADDRESS)
      && (r == Some(InsufficientBalanceForGas) <==> due && broke && msg.payment == EMPTY_ADDRESS)
      && (r == Some(GasLimitReached) <==> due && !broke && pool < msg.gas)
      && (r == Some(OutOfGas) <==> due && !broke && pool >= msg.gas && msg.gas < Intrinsic(msg))
      && r != Some(InsufficientBalance)
  {
  }

  /** The gas a message uses: all the machine did not leave, less the refund, which is at most half of that. */
  function UsedGas(msg: Message, metered: bool, run: VmRun): (used: nat)
    ensures !metered ==> used == 0
    ensures metered && Intrinsic(msg) <= msg.gas ==>
      var spent := msg.gas - Min(run.left, msg.gas - Intrinsic(msg));
      && spent - used <= run.refund && 2 * (spent - used) <= spent
      && (spent - used == run.refund || 2 * (spent - used) + 1 >= spent)
  {
    if !metered || msg.gas < Intrinsic(msg) then 0 else
      var spent := msg.gas - GasLeft(run, msg.gas - Intrinsic(msg));
      spent - Min(spent / 2, run.refund)
  }

  /** One account pays an amount, on top of the given transfers. */
  ghost predicate Charged(before: Balances, after: Balances, moved: Balances, payer: Address, amount: int) {
    forall a :: At(after, a) == At(before, a) + At(moved, a) - if a == payer then amount else 0
  }

  function Bought(before: Balances, payer: Address, metered: bool, cost: int): Balances {
    if metered then Changed(before, payer, -cost) else before
  }

  /** Buying gas, any transfers, and selling the rest back: the payer is charged for the gas used. */
  lemma Settled(before: Balances, after: Balances, payer: Address, metered: bool, bought: nat, moved: Balances,
                left: nat, price: nat)
    requires left <= bought && (!metered ==> bought == 0)
    requires after == Changed(Plus(Bought(before, payer, metered, bought * price), moved), payer, left * price)
    ensures Charged(before, after, moved, payer, (bought - left) * price)
  {
    assert (bought - left) * price == bought * price - left * price;
  }

  lemma GasLeftAtMost(run: VmRun, gas: nat)
    ensures GasLeft(run, gas) <= gas
  {
  }

  class StateTransition {
    const pool: GasPool
    const world: World
    const msg: Message
    const metered: bool
    var gas: nat
    var initialGas: nat

    constructor (pool: GasPool, world: World, msg: Message, metered: bool)
      ensures this.pool == pool && this.world == world && this.msg == msg && this.metered == metered
      ensures gas == 0 && initialGas == 0
    {
      this.pool, this.world, this.msg, this.metered := pool, world, msg, metered;
      gas, initialGas := 0, 0;
    }

    /** The used gas in 64-bit arithmetic. */
    function GasUsed(): nat
      requires gas <= MAX_UINT64 && initialGas <= MAX_UINT64
      reads this
    {
      if gas <= initialGas then initialGas - gas else initialGas + TWO64 - gas
    }

    method UseGas(amount: nat) returns (enough: bool)
      modifies `gas
      ensures enough <==> old(gas) >= amount
      ensures gas == if enough then old(gas) - amount else old(gas)
    {
      enough := gas >= amount;
      if enough {
        gas := gas - amount;
      }
    }

    method BuyGas(payer: Address, lacking: Failure) returns (r: Option<Failure>)
      requires gas == 0
      modifies this, pool, world`balances
      ensures var cost := msg.gas * msg.gasPrice;
        if At(old(world.balances), payer) < cost then
          r == Some(lacking) && pool.gas == old(pool.gas) && world.balances == old(world.balances)
        else if old(pool.gas) < msg.gas then
          r == Some(GasLimitReached) && pool.gas == old(pool.gas) && world.balances == old(world.balances)
        else
          && r == None && pool.gas == old(pool.gas) - msg.gas && gas == initialGas == msg.gas
          && world.balances == Changed(old(world.balances), payer, -cost)
    {
      var cost := msg.gas * msg.gasPrice;
      if At(world.balances, payer) < cost {
        return Some(lacking);
      }
      var enough := pool.SubGas(msg.gas);
      if !enough {
        return Some(GasLimitReached);
      }
      gas := AddWrap(gas, msg.gas);
      initialGas := msg.gas;
      world.balances := Changed(world.balances, payer, -cost);
      r := None;
    }

    /** Checks the nonce and buys the gas; what it leaves unchecked is that the gas covers the intrinsic gas. */
    method PreCheck() returns (r: Option<Failure>)
      requires gas == 0 && initialGas == 0
      modifies this, pool, world`balances
      ensures pool.gas <= old(pool.gas)
      ensures Refusal(msg, metered, world.NonceOf(msg.from), At(old(world.balances), GasPayer(msg)), old(pool.gas))
           == if r.Some? then r else if metered && msg.gas < Intrinsic(msg) then Some(OutOfGas) else None
      ensures r == None ==>
        && gas == initialGas == (if metered then msg.gas else 0)
        && pool.gas + gas == old(pool.gas)
        && world.balances == Bought(old(world.balances), GasPayer(msg), metered, initialGas * msg.gasPrice)
    {
      if msg.checkNonce {
        if world.NonceOf(msg.from) < msg.nonce {
          return Some(NonceTooHigh);
        } else if world.NonceOf(msg.from) > msg.nonce {
          return Some(NonceTooLow);
        }
      }
      if !metered {
        return None;
      }
      if msg.payment != EMPTY_ADDRESS {
        r := BuyGas(msg.payment, InsufficientBalanceForPayerForGas);
      } else {
        r := BuyGas(msg.from, InsufficientBalanceForGas);
      }
    }

    /** Refunds at most half of what was used, sells the rest back, and returns it to the pool, which never overflows. */
    method RefundGas() returns (panicked: bool)
      requires gas <= initialGas <= MAX_UINT64 && pool.gas + initialGas <= MAX_UINT64
      modifies this, pool, world`balances
      ensures !panicked && initialGas == old(initialGas)
      ensures old(gas) <= gas <= initialGas
      ensures gas - old(gas) == Min((initialGas - old(gas)) / 2, world.refund)
      ensures pool.gas == old(pool.gas) + gas
      ensures world.balances == Changed(old(world.balances), GasPayer(msg), gas * msg.gasPrice)
    {
      var refund := GasUsed() / 2;
      if refund > world.refund {
        refund := world.refund;
      }
      gas := AddWrap(gas, refund);
      var remaining := gas * msg.gasPrice;
      if msg.payment != EMPTY_ADDRESS {
        world.balances := Changed(world.balances, msg.payment, remaining);
      } else {
        world.balances := Changed(world.balances, msg.from, remaining);
      }
      panicked := pool.AddGas(gas);
    }

    /** The gas a message pays before it runs. */
    method PayIntrinsic() returns (enough: bool)
      requires metered ==> gas == msg.gas
      requires |msg.data| <= MAX_UINT64
      modifies `gas
      ensures enough <==> !metered || msg.gas >= Intrinsic(msg)
      ensures enough ==> gas == old(gas) - if metered then Intrinsic(msg) else 0
    {
      if !metered {
        return true;
      }
      var intrinsic := IntrinsicGas(msg.data, msg.to.None?);
      if intrinsic.None? {
        return false;
      }
      enough := UseGas(intrinsic.value);
    }

    /** Runs the machine; a call raises the sender's nonce first, a creation does so itself. */
    method RunMachine(run: VmRun)
      modifies `gas, world
      ensures gas == GasLeft(run, old(gas)) <= old(gas)
      ensures world.balances == Plus(old(world.balances), run.moved) && world.refund == run.refund
      ensures world.nonces == NoncesAfter(old(world.nonces), msg, run)
    {
      hide Plus, RaisesNonce, NoncesAfter;
      NoncesOfRun(world.nonces, msg, run);
      GasLeftAtMost(run, gas);
      if msg.to.Some? {
        world.nonces := world.nonces[msg.from := AddWrap(world.NonceOf(msg.from), 1)];
      }
      gas := world.Execute(gas, if msg.to.None? then Some(msg.from) else None, run);
    }

    /**
     Runs a message.  Whatever the machine does, a message that goes through takes from
     the pool what it used and from its gas payer exactly the price of that, and from
     nobody else anything but what the machine moved.
     */
    method TransitionDb(run: VmRun) returns (r: Outcome)
      requires gas == 0 && initialGas == 0 && pool.gas <= MAX_UINT64
      requires |msg.data| <= MAX_UINT64
      modifies this, pool, world
      ensures var why := Refusal(msg, metered, old(world.NonceOf(msg.from)), At(old(world.balances), GasPayer(msg)), old(pool.gas));
        r == if why.Some? then Failed(why.value)
             else if run.error == CannotTransfer then Failed(InsufficientBalance)
             else Done(UsedGas(msg, metered, run), run.error != NoError)
      ensures r == Failed(NonceTooHigh) <==> msg.checkNonce && old(world.NonceOf(msg.from)) < msg.nonce
      ensures r == Failed(NonceTooLow) <==> msg.checkNonce && old(world.NonceOf(msg.from)) > msg.nonce
      ensures var due := metered && (msg.checkNonce ==> old(world.NonceOf(msg.from)) == msg.nonce);
        var broke := At(old(world.balances), GasPayer(msg)) < msg.gas * msg.gasPrice;
        && (r == Failed(InsufficientBalanceForPayerForGas) <==> due && broke && msg.payment != EMPTY_ADDRESS)
        && (r == Failed(InsufficientBalanceForGas) <==> due && broke && msg.payment == EMPTY_ADDRESS)
        && (r == Failed(GasLimitReached) <==> due && !broke && old(pool.gas) < msg.gas)
        && (r == Failed(OutOfGas) <==> due && !broke && old(pool.gas) >= msg.gas && msg.gas < Intrinsic(msg))
      ensures r.Done? ==> msg.checkNonce ==> old(world.NonceOf(msg.from)) == msg.nonce
      ensures r.Done? && msg.from !in run.nonces ==>
        world.NonceOf(msg.from) == if msg.to.None? && run.error == CannotTransferAll then old(world.NonceOf(msg.from))
                                   else AddWrap(old(world.NonceOf(msg.from)), 1)
      ensures pool.gas <= old(pool.gas)
      ensures r.Done? ==>
        && pool.gas + r.usedGas == old(pool.gas)
        && r.usedGas <= msg.gas && world.nonces == NoncesAfter(old(world.nonces), msg, run)
        && (metered ==> 2 * r.usedGas >= Intrinsic(msg))
        && Charged(old(world.balances), world.balances, run.moved, GasPayer(msg), r.usedGas * msg.gasPrice)
    {
      hide At, Changed, Plus, Charged, Refusal, Intrinsic, GasPayer, Bought, GasLeft, RaisesNonce, NoncesAfter;
      RefusalIs(msg, metered, world.NonceOf(msg.from), At(world.balances, GasPayer(msg)), pool.gas);
      var refused := PreCheck();
      if refused.Some? {
        return Failed(refused.value);
      }
      var enough := PayIntrinsic();
      if !enough {
        return Failed(OutOfGas);
      }
      RunMachine(run);
      if run.error == CannotTransfer {
        return Failed(InsufficientBalance);
      }
      var panicked := RefundGas();
      if panicked {
        return Panicked;
      }
      Settled(old(world.balances), world.balances, GasPayer(msg), metered, initialGas, run.moved, gas, msg.gasPrice);
      r := Done(GasUsed(), run.error != NoError);
    }
  }
}

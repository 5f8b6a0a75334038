/**
 Gas over a block: the transactions run one after another against one pool, the fees
 are summed, and each receipt's gas can be recovered from the running totals.
 */
module BlockGas {
  import opened Txs
  import opened GasAccounting

  type Hash = nat

  datatype Log = Log(content: nat, blockNumber: nat, blockHash: Hash, txHash: Hash, txIndex: nat, index: nat)

  datatype Receipt = Receipt(failed: bool, cumulative: uint64, gasUsed: nat, txHash: Hash,
                             blockHash: Hash, blockNumber: nat, index: nat, contract: Address, logs: seq<Log>)

  datatype Transaction = Transaction(hash: Hash, msg: Message)

  /**
   What a transaction meets when it is run: whether its sender has the permission and
   its signature is good, what the virtual machine does, whether a contract it creates
   may be registered, and the logs it leaves.
   */
  datatype Execution = Execution(member: bool, signed: bool, run: VmRun, registered: bool, logs: seq<Log>)

  /** The address of the contract a sender's transaction creates. */
  type Creation = (Address, uint64) -> Address

  function ContractOf(create: Creation, msg: Message, otherwise: Address): Address {
    if msg.to.None? then create(msg.from, msg.nonce) else otherwise
  }

  // ---------- sums over a block ----------

  function Used(rs: seq<Receipt>): nat {
    if rs == [] then 0 else Used(rs[..|rs| - 1]) + rs[|rs| - 1].gasUsed
  }

  /** The gas fees of a block, transaction by transaction. */
  function GasFees(txs: seq<Transaction>, rs: seq<Receipt>): int
    requires |txs| == |rs|
  {
    if rs == [] then 0 else GasFees(txs[..|rs| - 1], rs[..|rs| - 1]) + rs[|rs| - 1].gasUsed * txs[|rs| - 1].msg.gasPrice
  }

  /** The extra fees that transactions offer. */
  function ExtraFees(txs: seq<Transaction>): int {
    if txs == [] then 0
    else ExtraFees(txs[..|txs| - 1]) + match txs[|txs| - 1].msg.fee case Some(f) => f case None => 0
  }

  /** What one account pays for gas in the block. */
  function Paid(txs: seq<Transaction>, rs: seq<Receipt>, a: Address): int
    requires |txs| == |rs|
  {
    if rs == [] then 0
    else Paid(txs[..|rs| - 1], rs[..|rs| - 1], a)
         + if GasPayer(txs[|rs| - 1].msg) == a then rs[|rs| - 1].gasUsed * txs[|rs| - 1].msg.gasPrice else 0
  }

  /** What the virtual machine moved to an account over the block. */
  function MovedTo(exs: seq<Execution>, a: Address): int {
    if exs == [] then 0 else MovedTo(exs[..|exs| - 1], a) + At(exs[|exs| - 1].run.moved, a)
  }

  /** Every balance is what it was, plus what the machine moved, less what the account paid for gas. */
  ghost predicate Ledger(before: Balances, after: Balances, exs: seq<Execution>, txs: seq<Transaction>,
                         rs: seq<Receipt>)
    requires |txs| == |rs|
  {
    forall a :: At(after, a) == At(before, a) + MovedTo(exs, a) - Paid(txs, rs, a)
  }

  lemma LedgerStep(before: Balances, mid: Balances, after: Balances, exs: seq<Execution>, ex: Execution,
                   txs: seq<Transaction>, tx: Transaction, rs: seq<Receipt>, r: Receipt)
    requires |txs| == |rs| && Ledger(before, mid, exs, txs, rs)
    requires Charged(mid, after, ex.run.moved, GasPayer(tx.msg), r.gasUsed * tx.msg.gasPrice)
    ensures Ledger(before, after, exs + [ex], txs + [tx], rs + [r])
  {
    assert (exs + [ex])[..|exs|] == exs;
    assert (txs + [tx])[..|rs|] == txs && (rs + [r])[..|rs|] == rs;
    forall a ensures At(after, a) == At(before, a) + MovedTo(exs + [ex], a) - Paid(txs + [tx], rs + [r], a) {
      assert At(mid, a) == At(before, a) + MovedTo(exs, a) - Paid(txs, rs, a);
    }
  }

  /** The sum over a list of accounts of what each pays. */
  function PaidByAll(txs: seq<Transaction>, rs: seq<Receipt>, accounts: seq<Address>): int
    requires |txs| == |rs|
  {
    if accounts == [] then 0 else PaidByAll(txs, rs, accounts[1..]) + Paid(txs, rs, accounts[0])
  }

  lemma {:induction false} PaidByAllStep(txs: seq<Transaction>, rs: seq<Receipt>, accounts: seq<Address>)
    requires |txs| == |rs| > 0
    requires forall i, j :: 0 <= i < j < |accounts| ==> accounts[i] != accounts[j]
    ensures PaidByAll(txs, rs, accounts) == PaidByAll(txs[..|rs| - 1], rs[..|rs| - 1], accounts)
            + if GasPayer(txs[|rs| - 1].msg) in accounts then rs[|rs| - 1].gasUsed * txs[|rs| - 1].msg.gasPrice else 0
    decreases |accounts|
  {
    if accounts != [] {
      PaidByAllStep(txs, rs, accounts[1..]);
      assert accounts == [accounts[0]] + accounts[1..];
    }
  }

  /** A list of accounts, each once, that has everybody who pays for gas in the block. */
  ghost predicate AllPayers(txs: seq<Transaction>, accounts: seq<Address>) {
    && (forall i, j :: 0 <= i < j < |accounts| ==> accounts[i] != accounts[j])
    && (forall i :: 0 <= i < |txs| ==> GasPayer(txs[i].msg) in accounts)
  }

  lemma {:induction false} NothingPaid(accounts: seq<Address>)
    ensures PaidByAll([], [], accounts) == 0
    decreases |accounts|
  {
    if accounts != [] {
      NothingPaid(accounts[1..]);
    }
  }

  /** What all accounts together pay for gas is exactly the gas fees of the block. */
  lemma {:induction false} PaymentsAreFees(txs: seq<Transaction>, rs: seq<Receipt>, accounts: seq<Address>)
    requires |txs| == |rs| && AllPayers(txs, accounts)
    ensures PaidByAll(txs, rs, accounts) == GasFees(txs, rs)
    decreases |rs|
  {
    if rs == [] {
      NothingPaid(accounts);
    } else {
      PaidByAllStep(txs, rs, accounts);
      PaymentsAreFees(txs[..|rs| - 1], rs[..|rs| - 1], accounts);
    }
  }

  /** What a list of accounts has lost beyond what the machine moved. */
  function Debit(before: Balances, after: Balances, exs: seq<Execution>, accounts: seq<Address>): int {
    if accounts == [] then 0
    else Debit(before, after, exs, accounts[1..]) + At(before, accounts[0]) + MovedTo(exs, accounts[0]) - At(after, accounts[0])
  }

  lemma {:induction false} DebitIsPayment(before: Balances, after: Balances, exs: seq<Execution>,
                                          txs: seq<Transaction>, rs: seq<Receipt>, accounts: seq<Address>)
    requires |txs| == |rs| && Ledger(before, after, exs, txs, rs)
    ensures Debit(before, after, exs, accounts) == PaidByAll(txs, rs, accounts)
    decreases |accounts|
  {
    if accounts != [] {
      DebitIsPayment(before, after, exs, txs, rs, accounts[1..]);
      assert At(after, accounts[0]) == At(before, accounts[0]) + MovedTo(exs, accounts[0]) - Paid(txs, rs, accounts[0]);
    }
  }

  /** So what the payers' balances lose beyond the machine's transfers is exactly the gas fees. */
  lemma DebitsAreFees(before: Balances, after: Balances, exs: seq<Execution>, txs: seq<Transaction>, rs: seq<Receipt>)
    requires |txs| == |rs| && Ledger(before, after, exs, txs, rs)
    ensures forall accounts :: AllPayers(txs, accounts) ==> Debit(before, after, exs, accounts) == GasFees(txs, rs)
  {
    forall accounts | AllPayers(txs, accounts) ensures Debit(before, after, exs, accounts) == GasFees(txs, rs) {
      DebitIsPayment(before, after, exs, txs, rs, accounts);
      PaymentsAreFees(txs, rs, accounts);
    }
  }

  // ---------- running a block ----------

  /** Receipt by receipt, the running total is the gas used so far, and within the limit. */
  ghost predicate Running(rs: seq<Receipt>, limit: nat) {
    forall i :: 0 <= i < |rs| ==> rs[i].cumulative == Used(rs[..i + 1]) <= limit
  }

  lemma RunningStep(rs: seq<Receipt>, r: Receipt, limit: nat)
    requires Running(rs, limit) && r.cumulative == Used(rs) + r.gasUsed <= limit
    ensures Running(rs + [r], limit) && Used(rs + [r]) == Used(rs) + r.gasUsed
  {
    var rs' := rs + [r];
    assert rs'[..|rs|] == rs && rs'[..|rs| + 1] == rs';
    forall i | 0 <= i < |rs| ensures rs'[i].cumulative == Used(rs'[..i + 1]) <= limit {
      assert rs'[..i + 1] == rs[..i + 1];
    }
  }

  lemma UsedMore(rs: seq<Receipt>, r: Receipt)
    ensures Used(rs + [r]) == Used(rs) + r.gasUsed
  {
    assert (rs + [r])[..|rs|] == rs;
  }

  lemma BlockStart(balances: Balances, limit: nat)
    ensures Ledger(balances, balances, [], [], []) && Running([], limit)
    ensures GasFees([], []) == 0 && ExtraFees([]) == 0 && Used([]) == 0
  {
  }

  lemma FeesStep(txs: seq<Transaction>, tx: Transaction, rs: seq<Receipt>, r: Receipt)
    requires |txs| == |rs|
    ensures GasFees(txs + [tx], rs + [r]) == GasFees(txs, rs) + r.gasUsed * tx.msg.gasPrice
    ensures ExtraFees(txs + [tx]) == ExtraFees(txs) + ExtraFees([tx])
  {
    assert (txs + [tx])[..|txs|] == txs && (rs + [r])[..|rs|] == rs;
    assert [tx][..0] == [];
  }

  /** An account's balance and nonce before the i-th transaction, and what the pool then has. */
  ghost function BalanceBefore(before: Balances, txs: seq<Transaction>, exs: seq<Execution>, rs: seq<Receipt>,
                               a: Address): int
    requires |rs| <= |txs| == |exs|
  {
    At(before, a) + MovedTo(exs[..|rs|], a) - Paid(txs[..|rs|], rs, a)
  }

  /** The nonces before the i-th transaction. */
  ghost function NoncesBefore(nonces: map<Address, uint64>, txs: seq<Transaction>, exs: seq<Execution>, i: nat): map<Address, uint64>
    requires i <= |txs| == |exs|
  {
    if i == 0 then nonces else NoncesAfter(NoncesBefore(nonces, txs, exs, i - 1), txs[i - 1].msg, exs[i - 1].run)
  }

  ghost function NonceBefore(nonces: map<Address, uint64>, txs: seq<Transaction>, exs: seq<Execution>, i: nat, a: Address): uint64
    requires i <= |txs| == |exs|
  {
    NonceIn(NoncesBefore(nonces, txs, exs, i), a)
  }

  /** With the given receipts for the transactions before it, the next one goes through. */
  ghost predicate Admitted(before: Balances, nonces: map<Address, uint64>, metered: bool, limit: nat,
                           txs: seq<Transaction>, exs: seq<Execution>, rs: seq<Receipt>)
    requires |rs| < |txs| == |exs|
  {
    var msg, ex := txs[|rs|].msg, exs[|rs|];
    && ex.member && (metered || msg.gasPrice == 0) && ex.signed
    && Refusal(msg, metered, NonceBefore(nonces, txs, exs, |rs|, msg.from), BalanceBefore(before, txs, exs, rs, GasPayer(msg)), limit - Used(rs)).None?
    && ex.run.error != CannotTransfer && (msg.to.Some? || ex.registered)
  }

  /**
   The machine sets no nonce below what it was, a sender's raised one included, no sender's is the last a word
   can hold, and no creation lacks the funds for value and extra fee.
   */
  ghost predicate Rising(nonces: map<Address, uint64>, txs: seq<Transaction>, exs: seq<Execution>)
    requires |txs| == |exs|
  {
    forall i: nat :: i < |txs| ==>
      var from, run := txs[i].msg.from, exs[i].run;
      && NonceBefore(nonces, txs, exs, i, from) < MAX_UINT64
      && (txs[i].msg.to.Some? || run.error != CannotTransferAll)
      && forall a :: a in run.nonces ==> run.nonces[a] >= NonceBefore(nonces, txs, exs, i, a) + if a == from then 1 else 0
  }

  lemma NoNonces(nonces: map<Address, uint64>, txs: seq<Transaction>, exs: seq<Execution>)
    requires |txs| == |exs|
    ensures NoncesBefore(nonces, txs, exs, 0) == nonces
  {
  }

  lemma NextNonces(nonces: map<Address, uint64>, txs: seq<Transaction>, exs: seq<Execution>, i: nat)
    requires i < |txs| == |exs|
    ensures NoncesBefore(nonces, txs, exs, i + 1) == NoncesAfter(NoncesBefore(nonces, txs, exs, i), txs[i].msg, exs[i].run)
  {
  }

  lemma OneRunRises(nonces: map<Address, uint64>, txs: seq<Transaction>, exs: seq<Execution>, i: nat, a: Address)
    requires |txs| == |exs| && Rising(nonces, txs, exs) && i < |txs| && exs[i].run.error != CannotTransfer
    ensures NonceBefore(nonces, txs, exs, i, a) + (if a == txs[i].msg.from then 1 else 0) <= NonceBefore(nonces, txs, exs, i + 1, a)
  {
    hide NoncesAfter, NoncesBefore;
    assert NoncesBefore(nonces, txs, exs, i + 1) == NoncesAfter(NoncesBefore(nonces, txs, exs, i), txs[i].msg, exs[i].run) by {
      NextNonces(nonces, txs, exs, i);
    }
  }

  /** No sender has two checked transactions of one nonce, and those it has are in order. */
  ghost predicate NoReplay(txs: seq<Transaction>) {
    forall i, j :: 0 <= i < j < |txs| && txs[i].msg.checkNonce && txs[j].msg.checkNonce && txs[i].msg.from == txs[j].msg.from ==>
      txs[i].msg.nonce < txs[j].msg.nonce
  }

  lemma {:induction false} NoncesRise(nonces: map<Address, uint64>, txs: seq<Transaction>, exs: seq<Execution>, i: nat, j: nat, a: Address)
    requires |txs| == |exs| && i <= j <= |txs| && Rising(nonces, txs, exs)
    requires forall k :: 0 <= k < |txs| ==> exs[k].run.error != CannotTransfer
    ensures NonceBefore(nonces, txs, exs, i, a) <= NonceBefore(nonces, txs, exs, j, a)
    ensures i < j && txs[i].msg.from == a ==> NonceBefore(nonces, txs, exs, i, a) < NonceBefore(nonces, txs, exs, j, a)
    decreases j
  {
    hide Rising, NonceBefore, NoncesBefore;
    if i < j {
      NoncesRise(nonces, txs, exs, i, j - 1, a);
      OneRunRises(nonces, txs, exs, j - 1, a);
    }
  }

  /** What is admitted has the nonce the runs before it have left. */
  lemma AdmittedNonce(before: Balances, nonces: map<Address, uint64>, metered: bool, limit: nat,
                      txs: seq<Transaction>, exs: seq<Execution>, rs: seq<Receipt>)
    requires |rs| < |txs| == |exs| && Admitted(before, nonces, metered, limit, txs, exs, rs)
    ensures txs[|rs|].msg.checkNonce ==> txs[|rs|].msg.nonce == NonceBefore(nonces, txs, exs, |rs|, txs[|rs|].msg.from)
    ensures exs[|rs|].run.error != CannotTransfer
  {
  }

  lemma AcceptedIsNoReplay(before: Balances, nonces: map<Address, uint64>, metered: bool, limit: nat,
                           txs: seq<Transaction>, exs: seq<Execution>, rs: seq<Receipt>)
    requires |rs| == |txs| == |exs| && Rising(nonces, txs, exs)
    requires forall i :: 0 <= i < |txs| ==> Admitted(before, nonces, metered, limit, txs, exs, rs[..i])
    ensures NoReplay(txs)
  {
    hide Admitted, Rising, NonceBefore;
    forall k | 0 <= k < |txs| ensures exs[k].run.error != CannotTransfer {
      AdmittedNonce(before, nonces, metered, limit, txs, exs, rs[..k]);
    }
    forall i, j | 0 <= i < j < |txs| && txs[i].msg.checkNonce && txs[j].msg.checkNonce && txs[i].msg.from == txs[j].msg.from
      ensures txs[i].msg.nonce < txs[j].msg.nonce
    {
      AdmittedNonce(before, nonces, metered, limit, txs, exs, rs[..i]);
      AdmittedNonce(before, nonces, metered, limit, txs, exs, rs[..j]);
      NoncesRise(nonces, txs, exs, i, j, txs[i].msg.from);
    }
  }

  /** A creation whose sender lacks the funds for value and extra fee is admitted twice in one block. */
  lemma RefusedCreationComesTwice()
    ensures var msg := Message(1, EMPTY_ADDRESS, None, 0, true, 0, 0, Some(1), []);
      var tx, ex := Transaction(7, msg), Execution(true, true, VmRun(0, CannotTransferAll, map[], 0, map[]), true, []);
      var r := Receipt(true, 0, 0, 7, 0, 0, 0, 0, []);
      && Admitted(map[], map[], false, 0, [tx, tx], [ex, ex], []) && Admitted(map[], map[], false, 0, [tx, tx], [ex, ex], [r])
      && !NoReplay([tx, tx])
  {
    var msg := Message(1, EMPTY_ADDRESS, None, 0, true, 0, 0, Some(1), []);
    var run := VmRun(0, CannotTransferAll, map[], 0, map[]);
    var tx, ex := Transaction(7, msg), Execution(true, true, run, true, []);
    NextNonces(map[], [tx, tx], [ex, ex], 0);
    StaysValidIff(map[], msg, run);
  }

  lemma LedgerBalance(before: Balances, after: Balances, txs: seq<Transaction>, exs: seq<Execution>,
                      rs: seq<Receipt>, a: Address)
    requires |rs| <= |txs| == |exs| && Ledger(before, after, exs[..|rs|], txs[..|rs|], rs)
    ensures At(after, a) == BalanceBefore(before, txs, exs, rs, a)
  {
  }

  class BlockRun {
    const pool: GasPool
    const world: World
    const metered: bool
    const create: Creation
    var usedGas: uint64
    var feeAmount: int

    constructor (world: World, metered: bool, create: Creation)
      ensures this.world == world && this.metered == metered && this.create == create && fresh(pool) && pool.gas == 0
      ensures usedGas == 0 && feeAmount == 0
    {
      pool := new GasPool();
      this.world, this.metered, this.create, usedGas, feeAmount := world, metered, create, 0, 0;
    }

    /** Runs one transaction, adds its gas to the total and its fees to the fee amount. */
    method ApplyTransaction(tx: Transaction, ex: Execution) returns (r: Option<Receipt>)
      requires |tx.msg.data| <= MAX_UINT64
      requires usedGas + pool.gas <= MAX_UINT64
      modifies `usedGas, `feeAmount, pool, world
      ensures var why := Refusal(tx.msg, metered, old(world.NonceOf(tx.msg.from)), At(old(world.balances), GasPayer(tx.msg)), old(pool.gas));
        r.Some? <==> ex.signed && why.None? && ex.run.error != CannotTransfer && (tx.msg.to.Some? || ex.registered)
      ensures r.None? ==> usedGas == old(usedGas) && feeAmount == old(feeAmount)
      ensures r.Some? ==>
        && r.value.gasUsed == UsedGas(tx.msg, metered, ex.run)
        && usedGas == old(usedGas) + r.value.gasUsed == r.value.cumulative
        && usedGas + pool.gas == old(usedGas + pool.gas) && world.nonces == NoncesAfter(old(world.nonces), tx.msg, ex.run)
        && r.value.txHash == tx.hash && r.value.logs == ex.logs && r.value.failed == (ex.run.error != NoError)
        && r.value.contract == ContractOf(create, tx.msg, EMPTY_ADDRESS)
        && feeAmount == old(feeAmount) + r.value.gasUsed * tx.msg.gasPrice + ExtraFees([tx])
        && Charged(old(world.balances), world.balances, ex.run.moved, GasPayer(tx.msg), r.value.gasUsed * tx.msg.gasPrice)
    {
      hide Charged, Refusal, UsedGas, NoncesAfter;
      if !ex.signed {
        return None;
      }
      var st := new StateTransition(pool, world, tx.msg, metered);
      var outcome := st.TransitionDb(ex.run);
      if !outcome.Done? {
        return None;
      }
      if tx.msg.to.None? && !ex.registered {
        return None;
      }
      usedGas := AddWrap(usedGas, outcome.usedGas);
      feeAmount := feeAmount + outcome.usedGas * tx.msg.gasPrice;
      if tx.msg.fee.Some? {
        feeAmount := feeAmount + tx.msg.fee.value;
      }
      var contract := if tx.msg.to.None? then create(tx.msg.from, tx.msg.nonce) else EMPTY_ADDRESS;
      r := Some(Receipt(outcome.failed, usedGas, outcome.usedGas, tx.hash, 0, 0, 0, contract, ex.logs));
    }

    /** The receipt of a transaction that went through. */
    ghost predicate Receives(tx: Transaction, ex: Execution, r: Receipt) {
      && r.gasUsed == UsedGas(tx.msg, metered, ex.run) && r.failed == (ex.run.error != NoError)
      && r.txHash == tx.hash && r.logs == ex.logs && r.contract == ContractOf(create, tx.msg, EMPTY_ADDRESS)
    }

    /** The next transaction of a block: it goes through exactly if it is admitted. */
    method ProcessNext(gasLimit: nat, txs: seq<Transaction>, exs: seq<Execution>, rs: seq<Receipt>,
                       ghost before: Balances, ghost nonces: map<Address, uint64>) returns (r: Option<Receipt>)
      requires gasLimit <= MAX_UINT64 && |rs| < |txs| == |exs| && |txs[|rs|].msg.data| <= MAX_UINT64
      requires usedGas == Used(rs) && usedGas + pool.gas == gasLimit
      requires Ledger(before, world.balances, exs[..|rs|], txs[..|rs|], rs)
      requires world.nonces == NoncesBefore(nonces, txs, exs, |rs|)
      modifies `usedGas, `feeAmount, pool, world
      ensures r.Some? <==> Admitted(before, nonces, metered, gasLimit, txs, exs, rs)
      ensures r.Some? ==>
        && Receives(txs[|rs|], exs[|rs|], r.value)
        && usedGas == Used(rs + [r.value]) == r.value.cumulative && usedGas + pool.gas == gasLimit
        && Ledger(before, world.balances, exs[..|rs| + 1], txs[..|rs| + 1], rs + [r.value])
        && world.nonces == NoncesBefore(nonces, txs, exs, |rs| + 1)
        && feeAmount == old(feeAmount) + r.value.gasUsed * txs[|rs|].msg.gasPrice + ExtraFees([txs[|rs|]])
    {
      hide Ledger, Charged, ExtraFees, Used, Refusal, UsedGas, BalanceBefore, NoncesAfter;
      ghost var i := |rs|;
      LedgerBalance(before, world.balances, txs, exs, rs, GasPayer(txs[|rs|].msg));
      if !exs[|rs|].member {
        return None;
      }
      if !metered && txs[|rs|].msg.gasPrice != 0 {
        return None;
      }
      ghost var mid := world.balances;
      r := ApplyTransaction(txs[|rs|], exs[|rs|]);
      if r.Some? {
        LedgerStep(before, mid, world.balances, exs[..i], exs[i], txs[..i], txs[i], rs, r.value);
        assert txs[..i + 1] == txs[..i] + [txs[i]] && exs[..i + 1] == exs[..i] + [exs[i]];
        UsedMore(rs, r.value);
      }
    }

    /**
     Runs a block's transactions in order; the first that is not admitted fails the
     block.  `got` are the receipts up to there.  As this holds of any list of
     transactions, it holds after each transaction of a block.
     */
    method Process(gasLimit: nat, txs: seq<Transaction>, exs: seq<Execution>)
      returns (ok: bool, rs: seq<Receipt>, ghost got: seq<Receipt>)
      requires pool.gas == 0 && usedGas == 0 && feeAmount == 0 && gasLimit <= MAX_UINT64
      requires |exs| == |txs| && forall i :: 0 <= i < |txs| ==> |txs[i].msg.data| <= MAX_UINT64
      modifies this, pool, world
      ensures |got| <= |txs| && forall i :: 0 <= i < |got| ==>
        Receives(txs[i], exs[i], got[i]) && Admitted(old(world.balances), old(world.nonces), metered, gasLimit, txs, exs, got[..i])
      ensures !ok ==> rs == [] && |got| < |txs| && !Admitted(old(world.balances), old(world.nonces), metered, gasLimit, txs, exs, got)
      ensures ok ==>
        && rs == got && |rs| == |txs|
        && usedGas == Used(rs) && usedGas + pool.gas == gasLimit
        && Running(rs, gasLimit)
        && feeAmount == GasFees(txs, rs) + ExtraFees(txs)
        && (Rising(old(world.nonces), txs, exs) ==> NoReplay(txs))
        && Ledger(old(world.balances), world.balances, exs, txs, rs)
        && (forall accounts :: AllPayers(txs, accounts) ==>
              Debit(old(world.balances), world.balances, exs, accounts) == feeAmount - ExtraFees(txs))
    {
      hide Ledger, Running, GasFees, ExtraFees, Used, Admitted, Receives, AllPayers, Debit, Rising, NoReplay, NoncesBefore, NonceBefore;
      rs, got := [], [];
      ghost var before, nonces := world.balances, world.nonces;
      var panicked := pool.AddGas(gasLimit);
      BlockStart(world.balances, gasLimit);
      NoNonces(world.nonces, txs, exs);
      for i := 0 to |txs|
        invariant |rs| == i && rs == got && usedGas == Used(rs) && usedGas + pool.gas == gasLimit
        invariant Ledger(before, world.balances, exs[..i], txs[..i], rs)
        invariant world.nonces == NoncesBefore(nonces, txs, exs, i)
        invariant Running(rs, gasLimit)
        invariant feeAmount == GasFees(txs[..i], rs) + ExtraFees(txs[..i])
        invariant forall j :: 0 <= j < i ==> Receives(txs[j], exs[j], rs[j]) && Admitted(before, nonces, metered, gasLimit, txs, exs, rs[..j])
      {
        var r := ProcessNext(gasLimit, txs, exs, rs, before, nonces);
        if r.None? {
          return false, [], got;
        }
        UsedMore(rs, r.value);
        RunningStep(rs, r.value, gasLimit);
        FeesStep(txs[..i], txs[i], rs, r.value);
        assert txs[..i + 1] == txs[..i] + [txs[i]];
        ghost var was := rs;
        rs := rs + [r.value];
        got := rs;
        assert rs[..i] == was && forall j :: 0 <= j < i ==> rs[..j] == was[..j];
      }
      assert txs[..|txs|] == txs && exs[..|exs|] == exs;
      DebitsAreFees(before, world.balances, exs, txs, rs);
      if Rising(nonces, txs, exs) {
        AcceptedIsNoReplay(before, nonces, metered, gasLimit, txs, exs, rs);
      }
      ok := true;
    }
  }

  // ---------- recovering the receipts ----------

  function LogsBefore(rs: seq<Receipt>, j: nat): nat
    requires j <= |rs|
  {
    if j == 0 then 0 else LogsBefore(rs, j - 1) + |rs[j - 1].logs|
  }

  function LocatedLogs(logs: seq<Log>, number: nat, block: Hash, tx: Hash, j: nat, first: nat): seq<Log> {
    seq(|logs|, k requires 0 <= k < |logs| => Log(logs[k].content, number, block, tx, j, first + k))
  }

  /** The j-th receipt with its derived fields filled in. */
  function Located(rs: seq<Receipt>, j: nat, number: nat, block: Hash, create: Creation, tx: Transaction): Receipt
    requires j < |rs|
  {
    var gas := SubWrap(rs[j].cumulative, if j == 0 then 0 else rs[j - 1].cumulative);
    Receipt(rs[j].failed, rs[j].cumulative, gas, tx.hash, block, number, j, ContractOf(create, tx.msg, rs[j].contract),
            LocatedLogs(rs[j].logs, number, block, tx.hash, j, LogsBefore(rs, j)))
  }

  /** The first j receipts have been filled in, the others are as they were. */
  ghost predicate LocatedTo(rs: seq<Receipt>, was: seq<Receipt>, j: nat, number: nat, block: Hash,
                            create: Creation, txs: seq<Transaction>) {
    && |rs| == |was| == |txs| && j <= |rs|
    && (forall i: nat :: i < j ==> rs[i] == Located(was, i, number, block, create, txs[i]))
    && (forall i :: j <= i < |rs| ==> rs[i] == was[i])
  }

  lemma LocatedStart(was: seq<Receipt>, number: nat, block: Hash, create: Creation, txs: seq<Transaction>)
    requires |was| == |txs|
    ensures LocatedTo(was, was, 0, number, block, create, txs) && LogsBefore(was, 0) == 0
  {
  }

  lemma LocatedStep(rs: seq<Receipt>, rs': seq<Receipt>, was: seq<Receipt>, j: nat, number: nat, block: Hash,
                    create: Creation, txs: seq<Transaction>)
    requires LocatedTo(rs, was, j, number, block, create, txs) && j < |rs|
    requires rs' == rs[j := Located(was, j, number, block, create, txs[j])]
    ensures LocatedTo(rs', was, j + 1, number, block, create, txs)
  {
    hide Located;
  }

  method LocateLogs(logs: seq<Log>, number: nat, block: Hash, tx: Hash, j: nat, first: nat)
    returns (located: seq<Log>, next: nat)
    ensures located == LocatedLogs(logs, number, block, tx, j, first) && next == first + |logs|
  {
    located, next := logs, first;
    for k := 0 to |logs|
      invariant |located| == |logs| && next == first + k
      invariant forall i :: 0 <= i < k ==> located[i] == Log(logs[i].content, number, block, tx, j, first + i)
      invariant forall i :: k <= i < |logs| ==> located[i] == logs[i]
    {
      located := located[k := Log(located[k].content, number, block, tx, j, next)];
      next := next + 1;
    }
  }

  /** Derives one receipt's fields, given the running total before it and the index of its first log. */
  method Derive(r: Receipt, previous: uint64, j: nat, number: nat, block: Hash, create: Creation, tx: Transaction,
                first: nat)
    returns (d: Receipt, next: nat)
    requires j == 0 ==> previous == 0
    ensures d == Receipt(r.failed, r.cumulative, SubWrap(r.cumulative, previous), tx.hash, block, number, j,
                         ContractOf(create, tx.msg, r.contract), LocatedLogs(r.logs, number, block, tx.hash, j, first))
    ensures next == first + |r.logs|
  {
    d := r.(txHash := tx.hash, blockHash := block, blockNumber := number, index := j);
    if tx.msg.to.None? {
      d := d.(contract := create(tx.msg.from, tx.msg.nonce));
    }
    if j == 0 {
      d := d.(gasUsed := d.cumulative);
    } else {
      d := d.(gasUsed := SubWrap(d.cumulative, previous));
    }
    var logs;
    logs, next := LocateLogs(d.logs, number, block, d.txHash, j, first);
    d := d.(logs := logs);
  }

  method LocateAt(ghost was: seq<Receipt>, j: nat, number: nat, block: Hash, create: Creation,
                  txs: seq<Transaction>, receipts: array<Receipt>, logIndex: nat)
    returns (next: nat)
    requires j < receipts.Length && LocatedTo(receipts[..], was, j, number, block, create, txs)
    requires logIndex == LogsBefore(was, j)
    modifies receipts
    ensures LocatedTo(receipts[..], was, j + 1, number, block, create, txs) && next == LogsBefore(was, j + 1)
  {
    hide LocatedLogs, SubWrap;
    ghost var rs := receipts[..];
    var previous := if j == 0 then 0 else receipts[j - 1].cumulative;
    var r;
    r, next := Derive(receipts[j], previous, j, number, block, create, txs[j], logIndex);
    assert r == Located(was, j, number, block, create, txs[j]) by {
      assert rs[j] == was[j];
      assert j > 0 ==> rs[j - 1] == Located(was, j - 1, number, block, create, txs[j - 1]);
    }
    receipts[j] := r;
    assert receipts[..] == rs[j := r];
    LocatedStep(rs, receipts[..], was, j, number, block, create, txs);
  }

  /** Fills in the derived fields of a block's receipts, in place. */
  method SetReceiptsData(number: nat, block: Hash, create: Creation, txs: seq<Transaction>, receipts: array<Receipt>)
    returns (ok: bool)
    modifies receipts
    ensures ok <==> |txs| == receipts.Length
    ensures !ok ==> receipts[..] == old(receipts[..])
    ensures ok ==> LocatedTo(receipts[..], old(receipts[..]), |txs|, number, block, create, txs)
  {
    if |txs| != receipts.Length {
      return false;
    }
    hide LocatedTo, LogsBefore;
    ghost var was := receipts[..];
    LocatedStart(was, number, block, create, txs);
    var logIndex := 0;
    for j := 0 to receipts.Length
      invariant logIndex == LogsBefore(was, j)
      invariant LocatedTo(receipts[..], was, j, number, block, create, txs)
    {
      logIndex := LocateAt(was, j, number, block, create, txs, receipts, logIndex);
    }
    ok := true;
  }

  /** All logs of a block's receipts, one after another. */
  function AllLogs(rs: seq<Receipt>): seq<Log> {
    if rs == [] then [] else AllLogs(rs[..|rs| - 1]) + rs[|rs| - 1].logs
  }

  /** Over all receipts of a block the logs are numbered 0, 1, 2, .. and keep their contents and order. */
  lemma {:induction false} LogsAreNumbered(rs: seq<Receipt>, was: seq<Receipt>, j: nat, number: nat, block: Hash,
                                           create: Creation, txs: seq<Transaction>)
    requires LocatedTo(rs, was, |was|, number, block, create, txs) && j <= |was|
    ensures |AllLogs(rs[..j])| == |AllLogs(was[..j])| == LogsBefore(was, j)
    ensures forall k :: 0 <= k < |AllLogs(rs[..j])| ==>
      && AllLogs(rs[..j])[k].index == k && AllLogs(rs[..j])[k].content == AllLogs(was[..j])[k].content
      && AllLogs(rs[..j])[k].blockHash == block && AllLogs(rs[..j])[k].blockNumber == number
    decreases j
  {
    if j > 0 {
      LogsAreNumbered(rs, was, j - 1, number, block, create, txs);
      assert rs[..j][..j - 1] == rs[..j - 1] && was[..j][..j - 1] == was[..j - 1];
      assert rs[j - 1] == Located(was, j - 1, number, block, create, txs[j - 1]);
      var front, back := AllLogs(rs[..j - 1]), rs[j - 1].logs;
      forall k | 0 <= k < |AllLogs(rs[..j])|
        ensures AllLogs(rs[..j])[k].index == k && AllLogs(rs[..j])[k].content == AllLogs(was[..j])[k].content
        ensures AllLogs(rs[..j])[k].blockHash == block && AllLogs(rs[..j])[k].blockNumber == number
      {
        assert AllLogs(rs[..j]) == front + back && AllLogs(was[..j]) == AllLogs(was[..j - 1]) + was[j - 1].logs;
        assert k >= |front| ==> back[k - |front|].index == |front| + (k - |front|);
      }
    }
  }

  /** Each log of a receipt carries that receipt's transaction and position. */
  lemma LogsAreLocated(rs: seq<Receipt>, was: seq<Receipt>, j: nat, number: nat, block: Hash, create: Creation,
                       txs: seq<Transaction>)
    requires LocatedTo(rs, was, |was|, number, block, create, txs) && j < |was|
    ensures rs[j].txHash == txs[j].hash && rs[j].index == j && rs[j].cumulative == was[j].cumulative
    ensures forall k :: 0 <= k < |rs[j].logs| ==> rs[j].logs[k].txHash == txs[j].hash && rs[j].logs[k].txIndex == j
    ensures txs[j].msg.to.None? ==> rs[j].contract == create(txs[j].msg.from, txs[j].msg.nonce)
    ensures txs[j].msg.to.Some? ==> rs[j].contract == was[j].contract
  {
    assert rs[j] == Located(was, j, number, block, create, txs[j]);
  }

  /** From the running totals alone, each receipt of a processed block gets back the gas its transaction used. */
  lemma GasIsRecovered(rs: seq<Receipt>, limit: nat, stored: seq<Receipt>, j: nat, number: nat, block: Hash,
                       create: Creation, tx: Transaction)
    requires Running(rs, limit) && limit <= MAX_UINT64
    requires |stored| == |rs| && forall i :: 0 <= i < |rs| ==> stored[i].cumulative == rs[i].cumulative
    requires j < |rs|
    ensures Located(stored, j, number, block, create, tx).gasUsed == rs[j].gasUsed
  {
    assert rs[..j + 1][..j] == rs[..j];
    assert Used(rs[..j + 1]) == Used(rs[..j]) + rs[j].gasUsed;
  }
}

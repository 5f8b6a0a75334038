/** Machine integers, addresses and transactions as the transaction pool sees them. */
module Txs {

  const TWO64: nat := 0x1_0000_0000_0000_0000
  const MAX_UINT64: nat := 0xFFFF_FFFF_FFFF_FFFF

  type uint64 = n: nat | n < TWO64

  /** Addition of 64-bit words. */
  function AddWrap(a: uint64, b: uint64): (c: uint64)
    ensures a + b < TWO64 ==> c == a + b
  {
    (a + b) % TWO64
  }

  /** Subtraction of 64-bit words. */
  function SubWrap(a: uint64, b: uint64): (c: uint64)
    ensures b <= a ==> c == a - b
  {
    (a - b) % TWO64
  }

  /** n - 1 in 64-bit words. */
  function Prev(n: nat): nat {
    if n == 0 then MAX_UINT64 else n - 1
  }

  function Min(a: nat, b: nat): nat {
    if a < b then a else b
  }

  datatype Option<+T> = None | Some(value: T)

  type Address = nat

  /** The zero address: "no payer", and what a failed signature recovery yields. */
  const EMPTY_ADDRESS: Address := 0

  /**
   A transaction.  Its hash covers every field and is taken to be free of
   collisions, so a transaction is identified with its hash.  `sender` and
   `payer` are what the (fixed) signer recovers, None when recovery fails; a
   transaction without payer recovers the zero address.  `size` is the length of
   the encoding and `intrinsic` the intrinsic gas of the payload, None when it
   exceeds a word; `id` stands for whatever else the hash covers.
   */
  datatype Tx = Tx(id: nat, sender: Option<Address>, payer: Option<Address>,
                   nonce: uint64, gasPrice: int, gas: uint64, value: int, fee: Option<int>,
                   size: nat, intrinsic: Option<uint64>)
  {
    /** The address `from, _ := types.Sender(signer, tx)` yields. */
    function From(): Address {
      if sender.Some? then sender.value else EMPTY_ADDRESS
    }

    function GasCost(): int {
      gasPrice * gas
    }

    function AmountCost(): int {
      value + if fee.Some? then fee.value else 0
    }

    function Cost(): int {
      GasCost() + AmountCost()
    }

    /** Someone other than the sender pays for the gas. */
    predicate PaidByOther() {
      payer.Some? && payer.value != EMPTY_ADDRESS && payer.value != From()
    }
  }

  /** The state of the chain's head that the pool validates against. */
  datatype Chain = Chain(nonces: map<Address, uint64>, balances: map<Address, int>, maxGas: uint64)
  {
    function NonceOf(a: Address): uint64 {
      if a in nonces then nonces[a] else 0
    }

    function BalanceOf(a: Address): int {
      if a in balances then balances[a] else 0
    }
  }
}

/**
 * The values the transaction handler works on: unspent-output identifiers,
 * outputs, inputs, transactions and the pool of unspent outputs.
 *
 * A transaction's hash, the payload an input signs and signature
 * verification are computed by code outside the handler; the hash is a field
 * of the transaction, and the other two are the function values of a
 * `Crypto` record that the handler is given.
 */
module Ledger {

  /** A slot that may be empty, where the source uses null. */
  datatype Option<T> = None | Some(value: T)

  type Bytes = seq<bv8>

  /** A transaction hash, as its raw bytes. */
  type Hash = Bytes

  /** An encoded public key: the owner of an output. */
  type PublicKey = Bytes

  /** An unspent output is named by the hash of the transaction that created
      it and its position among that transaction's outputs; two names are
      equal exactly when both parts are. */
  datatype UTXO = UTXO(txHash: Hash, index: int)

  /** An output: a value and the key whose signature may spend it. */
  datatype Output = Output(value: real, address: PublicKey)

  /** An input claims an earlier output and carries the signature that
      authorises spending it. */
  datatype Input = Input(prevTxHash: Hash, outputIndex: int, signature: Bytes)

  datatype Transaction = Transaction(hash: Hash, inputs: seq<Input>, outputs: seq<Output>)

  /** The pool of unspent outputs. */
  type Pool = map<UTXO, Output>

  /** The cryptographic capabilities the handler relies on:
      `verify(key, message, signature)` and the payload that input `i`
      of a transaction signs. */
  datatype Crypto = Crypto(
    verify: (PublicKey, Bytes, Bytes) -> bool,
    rawDataToSign: (Transaction, nat) -> Bytes)

  /** The output that an input claims. */
  function Claimed(input: Input): UTXO
  {
    UTXO(input.prevTxHash, input.outputIndex)
  }

  /** The identifier under which output `j` of `tx` enters the pool. */
  function Produced(tx: Transaction, j: nat): UTXO
  {
    UTXO(tx.hash, j)
  }
}

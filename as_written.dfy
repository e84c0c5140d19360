/**
 * `isValidTx` as its helpers are written. Every helper loop is written
 * `for (int i = 0; i > size; i++)`: a size is never negative, so the guard
 * fails on entry and no loop body runs. The four early-return helpers then
 * reach `return true`, and the conservation helper compares its two sums
 * while both are still 0. The loop bodies are not modelled here, since no
 * input reaches them. The rest of the model uses `Validation.IsValid`,
 * the checks as the method's documentation states them.
 */
module AsWritten {
  import opened Ledger
  import opened Validation
  import opened Epoch

  /** Whether a helper loop `for (int i = 0; i > size; i++)` runs its body. */
  predicate LoopEntered(size: nat)
  {
    0 > size
  }

  /** isValidTx with its helpers as written: each helper passes when its loop
      is not entered, and the conservation helper compares `0.0 >= 0.0`.
      The loop bodies are not modelled: the value each conjunct takes when
      its loop is entered (false for the first four helpers, true for the
      conservation helper) is a placeholder, and no input reaches it. */
  predicate IsValidTxAsWritten(tx: Transaction, pool: Pool, crypto: Crypto)
  {
    var inputSum, outputSum := 0.0, 0.0;
    && !LoopEntered(|tx.outputs|)
    && !LoopEntered(|tx.inputs|)
    && !LoopEntered(|tx.outputs|)
    && !LoopEntered(|tx.outputs|)
    && (LoopEntered(|tx.outputs|) || LoopEntered(|tx.inputs|) || inputSum >= outputSum)
  }

  /** As written, every transaction passes, whatever the pool. */
  lemma AsWrittenAcceptsEverything(tx: Transaction, pool: Pool, crypto: Crypto)
    ensures IsValidTxAsWritten(tx, pool, crypto)
  {
  }

  /** As written, a transaction paying out a negative value passes;
      with the documented checks it is rejected. */
  lemma AsWrittenAcceptsNegativeOutput(crypto: Crypto, payee: PublicKey, tx: Transaction)
    requires tx == Transaction([1], [], [Output(-1.0, payee)])
    ensures IsValidTxAsWritten(tx, map[], crypto)
    ensures !IsValid(tx, map[], crypto)
  {
    NegativeOutputInvalid(tx, map[], crypto, 0);
  }

  /** As written, once one transaction has spent an output, a second one
      spending the same output still passes against the pool the first left,
      so `handleTxs` would accept both and the epoch would spend one output
      twice; with the documented checks the second is rejected. */
  lemma AsWrittenAcceptsDoubleSpend(crypto: Crypto, owner: PublicKey, payeeA: PublicKey, payeeB: PublicKey,
                                    sigA: Bytes, sigB: Bytes, txA: Transaction, txB: Transaction)
    requires txA == Transaction([1], [Input([0], 0, sigA)], [Output(10.0, payeeA)])
    requires txB == Transaction([2], [Input([0], 0, sigB)], [Output(10.0, payeeB)])
    ensures var pool := map[UTXO([0], 0) := Output(10.0, owner)];
      && IsValidTxAsWritten(txA, pool, crypto)
      && IsValidTxAsWritten(txB, Commit(pool, txA), crypto)
      && Claimed(txA.inputs[0]) == Claimed(txB.inputs[0])
      && !IsValid(txB, Commit(pool, txA), crypto)
  {
    var pool := map[UTXO([0], 0) := Output(10.0, owner)];
    var after := Commit(pool, txA);
    assert Claimed(txA.inputs[0]) == Claimed(txB.inputs[0]) == UTXO([0], 0);
    assert !IsProducedBy(Claimed(txA.inputs[0]), txA);
    MissingClaimInvalid(txB, after, crypto, 0);
  }
}

/**
 * The ledger engine: a handler that owns the current pool of unspent
 * outputs, checks single transactions against it and advances it by one
 * epoch at a time.
 */
module Handler {
  import opened Ledger
  import opened Validation
  import opened Epoch

  class TxHandler {
    /** The current pool of unspent outputs. */
    var utxoPool: Pool
    /** Signature verification and signed payloads, supplied from outside. */
    const crypto: Crypto

    /** A handler whose current pool is `utxoPool`. */
    constructor (utxoPool: Pool, crypto: Crypto)
      ensures this.utxoPool == utxoPool && this.crypto == crypto
    {
      this.utxoPool := utxoPool;
      this.crypto := crypto;
    }

    /** Runs the five checks against the current pool, in order, returning
        false at the first that fails; the pool is only read. */
    method IsValidTx(tx: Transaction) returns (ok: bool)
      ensures ok == IsValid(tx, utxoPool, crypto)
    {
      if !ClaimsInPoolFrom(tx.inputs, utxoPool, 0) { return false; }
      if !SignaturesValidFrom(tx, utxoPool, crypto, 0) { return false; }
      if !NoDoubleClaimsFrom(tx.inputs, 0) { return false; }
      if !NoNegativesFrom(tx.outputs, 0) { return false; }
      if !NoMoreSpentThanInput(tx, utxoPool) { return false; }
      return true;
    }

    /** Removes, input by input, the outputs the inputs of `tx` claim. */
    method RemoveSpent(tx: Transaction)
      modifies this
      ensures utxoPool == old(utxoPool) - Spent(tx)
    {
      var k := 0;
      while k < |tx.inputs|
        invariant k <= |tx.inputs|
        invariant utxoPool == old(utxoPool) - ClaimedSet(tx.inputs[..k])
      {
        assert ClaimedSet(tx.inputs[..k + 1]) == ClaimedSet(tx.inputs[..k]) + {Claimed(tx.inputs[k])};
        utxoPool := utxoPool - {Claimed(tx.inputs[k])};
        k := k + 1;
      }
      assert tx.inputs[..k] == tx.inputs;
    }

    /** Adds, output by output, output `j` of `tx` under `(hash, j)`. */
    method AddCreated(tx: Transaction)
      modifies this
      ensures utxoPool == old(utxoPool) + Created(tx)
    {
      var j := 0;
      while j < |tx.outputs|
        invariant j <= |tx.outputs|
        invariant utxoPool == old(utxoPool) + CreatedUpTo(tx, j)
      {
        AddOneCreated(old(utxoPool), tx, j);
        utxoPool := utxoPool[Produced(tx, j) := tx.outputs[j]];
        j := j + 1;
      }
    }

    /** Commits an accepted transaction: first its claimed outputs leave the
        pool, then its own outputs enter it. */
    method CommitTx(tx: Transaction)
      modifies this
      ensures utxoPool == Commit(old(utxoPool), tx)
    {
      RemoveSpent(tx);
      AddCreated(tx);
    }

    /** Examines candidate `tx` in slot `i` of the result: checks it against
        the current pool and, if it is valid, puts it in its slot and commits
        it. */
    method ExamineCandidate(tx: Transaction, i: nat, validTxs: array<Option<Transaction>>) returns (ok: bool)
      requires i < validTxs.Length
      requires forall k :: i <= k < validTxs.Length ==> validTxs[k] == None
      modifies this, validTxs
      ensures ok == IsValid(tx, old(utxoPool), crypto)
      ensures utxoPool == if ok then Commit(old(utxoPool), tx) else old(utxoPool)
      ensures validTxs[..i + 1] == old(validTxs[..i]) + [if ok then Some(tx) else None]
      ensures forall k :: i + 1 <= k < validTxs.Length ==> validTxs[k] == None
    {
      ok := IsValidTx(tx);
      if ok {
        validTxs[i] := Some(tx);
        CommitTx(tx);
      }
    }

    /** One epoch: each candidate, in array order, is checked against the
        current pool; a valid one takes its slot in the result and is
        committed at once, an invalid one leaves its slot empty. */
    method HandleTxs(possibleTxs: seq<Transaction>) returns (validTxs: array<Option<Transaction>>)
      modifies this
      ensures fresh(validTxs)
      ensures validTxs[..] == RunEpoch(possibleTxs, old(utxoPool), crypto).slots
      ensures utxoPool == RunEpoch(possibleTxs, old(utxoPool), crypto).pool
    {
      validTxs := new Option<Transaction>[|possibleTxs|](_ => None);
      ghost var start := utxoPool;
      for i := 0 to |possibleTxs|
        invariant validTxs[..i] == RunEpoch(possibleTxs[..i], start, crypto).slots
        invariant utxoPool == RunEpoch(possibleTxs[..i], start, crypto).pool
        invariant forall k :: i <= k < validTxs.Length ==> validTxs[k] == None
      {
        var ok := ExamineCandidate(possibleTxs[i], i, validTxs);
        EpochStep(possibleTxs, start, crypto, i, ok);
      }
      assert possibleTxs[..|possibleTxs|] == possibleTxs;
      assert validTxs[..] == validTxs[..|possibleTxs|];
    }
  }
}

/**
 * Validity of one transaction against a pool of unspent outputs: the five
 * checks of `isValidTx` as its documentation states them. Each check is the
 * scan its helper performs (in input or output order, stopping at the first
 * failure, or accumulating a sum), and its contract gives the condition the
 * scan decides.
 */
module Validation {
  import opened Ledger

  /** Check (1): the outputs claimed by inputs `i..` are all in the pool. */
  function ClaimsInPoolFrom(ins: seq<Input>, pool: Pool, i: nat): (r: bool)
    requires i <= |ins|
    ensures r <==> forall k :: i <= k < |ins| ==> Claimed(ins[k]) in pool
    decreases |ins| - i
  {
    i == |ins| || (Claimed(ins[i]) in pool && ClaimsInPoolFrom(ins, pool, i + 1))
  }

  /** Input `k` of `tx` claims a pooled output, and its signature over the
      payload for position `k` verifies under that output's owner key. */
  predicate SignatureVerifies(tx: Transaction, pool: Pool, crypto: Crypto, k: nat)
    requires k < |tx.inputs|
  {
    var u := Claimed(tx.inputs[k]);
    u in pool && crypto.verify(pool[u].address, crypto.rawDataToSign(tx, k), tx.inputs[k].signature)
  }

  /** Check (2): the signatures of inputs `i..` all verify. */
  function SignaturesValidFrom(tx: Transaction, pool: Pool, crypto: Crypto, i: nat): (r: bool)
    requires i <= |tx.inputs|
    ensures r <==> forall k :: i <= k < |tx.inputs| ==> SignatureVerifies(tx, pool, crypto, k)
    decreases |tx.inputs| - i
  {
    i == |tx.inputs| || (SignatureVerifies(tx, pool, crypto, i) && SignaturesValidFrom(tx, pool, crypto, i + 1))
  }

  /** Inner scan of check (3): no input at a position `j..` other than `i`
      claims what input `i` claims. */
  function ClaimNotRepeatedFrom(ins: seq<Input>, i: nat, j: nat): (r: bool)
    requires i < |ins| && j <= |ins|
    ensures r <==> forall k :: j <= k < |ins| && k != i ==> Claimed(ins[k]) != Claimed(ins[i])
    decreases |ins| - j
  {
    j == |ins| || ((j == i || Claimed(ins[j]) != Claimed(ins[i])) && ClaimNotRepeatedFrom(ins, i, j + 1))
  }

  /** Check (3): no input at a position `i..` claims the same output as an
      input at another position. */
  function NoDoubleClaimsFrom(ins: seq<Input>, i: nat): (r: bool)
    requires i <= |ins|
    ensures r <==> forall a, b :: i <= a < |ins| && 0 <= b < |ins| && a != b ==> Claimed(ins[a]) != Claimed(ins[b])
    decreases |ins| - i
  {
    i == |ins| || (ClaimNotRepeatedFrom(ins, i, 0) && NoDoubleClaimsFrom(ins, i + 1))
  }

  /** Check (4): outputs `i..` all have a non-negative value. */
  function NoNegativesFrom(outs: seq<Output>, i: nat): (r: bool)
    requires i <= |outs|
    ensures r <==> forall k :: i <= k < |outs| ==> outs[k].value >= 0.0
    decreases |outs| - i
  {
    i == |outs| || (outs[i].value >= 0.0 && NoNegativesFrom(outs, i + 1))
  }

  /** The total value of outputs `i..`. */
  function OutputSumFrom(outs: seq<Output>, i: nat): (r: real)
    requires i <= |outs|
    ensures (forall k :: i <= k < |outs| ==> outs[k].value >= 0.0) ==> r >= 0.0
    decreases |outs| - i
  {
    if i == |outs| then 0.0 else outs[i].value + OutputSumFrom(outs, i + 1)
  }

  /** The total pool value of the outputs claimed by inputs `i..`. */
  function InputSumFrom(ins: seq<Input>, pool: Pool, i: nat): (r: real)
    requires i <= |ins|
    requires forall k :: i <= k < |ins| ==> Claimed(ins[k]) in pool
    ensures (forall k :: i <= k < |ins| ==> pool[Claimed(ins[k])].value >= 0.0) ==> r >= 0.0
    decreases |ins| - i
  {
    if i == |ins| then 0.0 else pool[Claimed(ins[i])].value + InputSumFrom(ins, pool, i + 1)
  }

  /** Check (5): the claimed value covers the value paid out. */
  predicate NoMoreSpentThanInput(tx: Transaction, pool: Pool)
    requires forall k :: 0 <= k < |tx.inputs| ==> Claimed(tx.inputs[k]) in pool
  {
    InputSumFrom(tx.inputs, pool, 0) >= OutputSumFrom(tx.outputs, 0)
  }

  /** isValidTx: the five checks, in order, each evaluated only when the
      earlier ones passed. */
  predicate IsValid(tx: Transaction, pool: Pool, crypto: Crypto)
  {
    && ClaimsInPoolFrom(tx.inputs, pool, 0)
    && SignaturesValidFrom(tx, pool, crypto, 0)
    && NoDoubleClaimsFrom(tx.inputs, 0)
    && NoNegativesFrom(tx.outputs, 0)
    && NoMoreSpentThanInput(tx, pool)
  }

  /** A transaction is valid exactly when every claim is pooled, every
      signature verifies, no two input positions claim one output, no output
      is negative and the claimed value covers the outputs. */
  lemma ValidExactlyWhenChecksHold(tx: Transaction, pool: Pool, crypto: Crypto)
    ensures IsValid(tx, pool, crypto) <==>
      && (forall k :: 0 <= k < |tx.inputs| ==> Claimed(tx.inputs[k]) in pool)
      && (forall k :: 0 <= k < |tx.inputs| ==> SignatureVerifies(tx, pool, crypto, k))
      && (forall a, b :: 0 <= a < b < |tx.inputs| ==> Claimed(tx.inputs[a]) != Claimed(tx.inputs[b]))
      && (forall k :: 0 <= k < |tx.outputs| ==> tx.outputs[k].value >= 0.0)
      && InputSumFrom(tx.inputs, pool, 0) >= OutputSumFrom(tx.outputs, 0)
  {
    var ins := tx.inputs;
    if forall a, b :: 0 <= a < b < |ins| ==> Claimed(ins[a]) != Claimed(ins[b]) {
      forall a, b | 0 <= a < |ins| && 0 <= b < |ins| && a != b
        ensures Claimed(ins[a]) != Claimed(ins[b])
      {
        if b < a {
          assert Claimed(ins[b]) != Claimed(ins[a]);
        }
      }
    }
  }

  /** An input whose claimed output is not in the pool makes the
      transaction invalid. */
  lemma MissingClaimInvalid(tx: Transaction, pool: Pool, crypto: Crypto, k: nat)
    requires k < |tx.inputs| && Claimed(tx.inputs[k]) !in pool
    ensures !IsValid(tx, pool, crypto)
  {
  }

  /** An input whose signature does not verify under the claimed output's
      owner makes the transaction invalid. */
  lemma BadSignatureInvalid(tx: Transaction, pool: Pool, crypto: Crypto, k: nat)
    requires k < |tx.inputs| && Claimed(tx.inputs[k]) in pool
    requires !crypto.verify(pool[Claimed(tx.inputs[k])].address, crypto.rawDataToSign(tx, k), tx.inputs[k].signature)
    ensures !IsValid(tx, pool, crypto)
  {
    assert !SignatureVerifies(tx, pool, crypto, k);
  }

  /** Two input positions claiming the same output make the transaction
      invalid. */
  lemma DoubleClaimInvalid(tx: Transaction, pool: Pool, crypto: Crypto, a: nat, b: nat)
    requires a < |tx.inputs| && b < |tx.inputs| && a != b
    requires Claimed(tx.inputs[a]) == Claimed(tx.inputs[b])
    ensures !IsValid(tx, pool, crypto)
  {
  }

  /** An output of negative value makes the transaction invalid, whatever
      its other fields. */
  lemma NegativeOutputInvalid(tx: Transaction, pool: Pool, crypto: Crypto, k: nat)
    requires k < |tx.outputs| && tx.outputs[k].value < 0.0
    ensures !IsValid(tx, pool, crypto)
  {
  }

  /** A transaction paying out more than it claims is invalid. */
  lemma OverspendInvalid(tx: Transaction, pool: Pool, crypto: Crypto)
    requires forall k :: 0 <= k < |tx.inputs| ==> Claimed(tx.inputs[k]) in pool
    requires InputSumFrom(tx.inputs, pool, 0) < OutputSumFrom(tx.outputs, 0)
    ensures !IsValid(tx, pool, crypto)
  {
  }

  /** One input claiming an output worth 10 cannot pay out 11, even with a
      signature that verifies. */
  lemma OverspendRejected(crypto: Crypto, owner: PublicKey, payee: PublicKey, sig: Bytes, tx: Transaction)
    requires tx == Transaction([1], [Input([0], 0, sig)], [Output(5.0, payee), Output(6.0, payee)])
    requires crypto.verify(owner, crypto.rawDataToSign(tx, 0), sig)
    ensures !IsValid(tx, map[UTXO([0], 0) := Output(10.0, owner)], crypto)
  {
    var pool := map[UTXO([0], 0) := Output(10.0, owner)];
    assert InputSumFrom(tx.inputs, pool, 0) == 10.0;
    assert OutputSumFrom(tx.outputs, 2) == 0.0;
    assert OutputSumFrom(tx.outputs, 1) == 6.0;
    assert OutputSumFrom(tx.outputs, 0) == 11.0;
  }

  /** A valid transaction conserves value: what it pays out is non-negative
      and at most what it claims, so its implicit fee is non-negative. */
  lemma ValidConserves(tx: Transaction, pool: Pool, crypto: Crypto)
    requires IsValid(tx, pool, crypto)
    ensures forall k :: 0 <= k < |tx.inputs| ==> Claimed(tx.inputs[k]) in pool
    ensures 0.0 <= OutputSumFrom(tx.outputs, 0) <= InputSumFrom(tx.inputs, pool, 0)
  {
  }

  /** `small` is `big` with some entries removed. */
  predicate SubPool(small: Pool, big: Pool)
  {
    forall u :: u in small ==> u in big && big[u] == small[u]
  }

  /** Claims that are pooled in a sub-pool are worth the same in the larger
      pool. */
  lemma {:induction false} InputSumInSubPool(ins: seq<Input>, small: Pool, big: Pool, i: nat)
    requires i <= |ins| && SubPool(small, big)
    requires forall k :: i <= k < |ins| ==> Claimed(ins[k]) in small
    ensures forall k :: i <= k < |ins| ==> Claimed(ins[k]) in big
    ensures InputSumFrom(ins, small, i) == InputSumFrom(ins, big, i)
    decreases |ins| - i
  {
    if i < |ins| {
      InputSumInSubPool(ins, small, big, i + 1);
    }
  }

  /** A transaction valid against a pool is valid against every pool that
      extends it. */
  lemma ValidInLargerPool(tx: Transaction, small: Pool, big: Pool, crypto: Crypto)
    requires SubPool(small, big) && IsValid(tx, small, crypto)
    ensures IsValid(tx, big, crypto)
  {
    InputSumInSubPool(tx.inputs, small, big, 0);
    forall k | 0 <= k < |tx.inputs|
      ensures SignatureVerifies(tx, big, crypto, k)
    {
      assert SignatureVerifies(tx, small, crypto, k);
    }
  }

  /** Rejection survives removal: a transaction invalid against a pool stays
      invalid against every pool obtained from it by removing entries. */
  lemma RejectionSurvivesRemoval(tx: Transaction, small: Pool, big: Pool, crypto: Crypto)
    requires SubPool(small, big) && !IsValid(tx, big, crypto)
    ensures !IsValid(tx, small, crypto)
  {
    if IsValid(tx, small, crypto) {
      ValidInLargerPool(tx, small, big, crypto);
    }
  }
}

/**
 * One epoch of `handleTxs` as a function of the candidates and the pool it
 * starts from: candidates are examined once each, in array order, each
 * against the pool left by the commits before it; a valid one takes its slot
 * in the result and is committed at once, an invalid one leaves its slot
 * empty and the pool as it was.
 */
module Epoch {
  import opened Ledger
  import opened Validation

  /** The outputs claimed by a sequence of inputs. */
  function ClaimedSet(ins: seq<Input>): set<UTXO>
  {
    set k | 0 <= k < |ins| :: Claimed(ins[k])
  }

  /** The outputs an accepted transaction consumes. */
  function Spent(tx: Transaction): set<UTXO>
  {
    ClaimedSet(tx.inputs)
  }

  /** The entries that outputs `0..n` of a transaction add to the pool,
      one output after another. */
  function CreatedUpTo(tx: Transaction, n: nat): map<UTXO, Output>
    requires n <= |tx.outputs|
  {
    if n == 0 then map[] else CreatedUpTo(tx, n - 1)[Produced(tx, n - 1) := tx.outputs[n - 1]]
  }

  /** Outputs `0..n` enter the pool as exactly the keys `(hash, j)` with
      `j < n`, output `j` under `(hash, j)`. */
  lemma {:induction false} CreatedUpToEntries(tx: Transaction, n: nat)
    requires n <= |tx.outputs|
    ensures forall u :: u in CreatedUpTo(tx, n) <==> u.txHash == tx.hash && 0 <= u.index < n
    ensures forall j :: 0 <= j < n ==> CreatedUpTo(tx, n)[Produced(tx, j)] == tx.outputs[j]
  {
    if n > 0 {
      CreatedUpToEntries(tx, n - 1);
    }
  }

  /** Adding output `n` to a pool that holds outputs `0..n-1` gives the pool
      that holds outputs `0..n`. */
  lemma AddOneCreated(pool: Pool, tx: Transaction, n: nat)
    requires n < |tx.outputs|
    ensures (pool + CreatedUpTo(tx, n))[Produced(tx, n) := tx.outputs[n]] == pool + CreatedUpTo(tx, n + 1)
  {
  }

  /** The entries an accepted transaction adds to the pool. */
  function Created(tx: Transaction): map<UTXO, Output>
  {
    CreatedUpTo(tx, |tx.outputs|)
  }

  /** Whether `u` names one of the outputs of `tx`. */
  predicate IsProducedBy(u: UTXO, tx: Transaction)
  {
    u.txHash == tx.hash && 0 <= u.index < |tx.outputs|
  }

  /** The pool after committing `tx`: the outputs its inputs claim are
      removed, then each output `j` is added under `(hash, j)`. */
  function Commit(pool: Pool, tx: Transaction): (r: Pool)
    ensures forall u :: u in r <==> IsProducedBy(u, tx) || (u in pool && u !in Spent(tx))
    ensures forall j :: 0 <= j < |tx.outputs| ==> Produced(tx, j) in r && r[Produced(tx, j)] == tx.outputs[j]
    ensures forall u :: u in r && !IsProducedBy(u, tx) ==> r[u] == pool[u]
    ensures forall k :: 0 <= k < |tx.inputs| && !IsProducedBy(Claimed(tx.inputs[k]), tx) ==> Claimed(tx.inputs[k]) !in r
  {
    var r := (pool - Spent(tx)) + Created(tx);
    CreatedUpToEntries(tx, |tx.outputs|);
    assert forall k :: 0 <= k < |tx.inputs| ==> Claimed(tx.inputs[k]) in Spent(tx);
    r
  }

  /** The outcome of an epoch: one slot per candidate, and the pool. */
  datatype EpochResult = EpochResult(slots: seq<Option<Transaction>>, pool: Pool)

  /** handleTxs over the candidates `txs`, starting from `pool`. */
  function RunEpoch(txs: seq<Transaction>, pool: Pool, crypto: Crypto): (e: EpochResult)
    ensures |e.slots| == |txs|
    ensures forall i :: 0 <= i < |txs| ==> e.slots[i] == None || e.slots[i] == Some(txs[i])
    decreases |txs|
  {
    if txs == [] then EpochResult([], pool)
    else
      var before := RunEpoch(txs[..|txs| - 1], pool, crypto);
      var tx := txs[|txs| - 1];
      if IsValid(tx, before.pool, crypto) then EpochResult(before.slots + [Some(tx)], Commit(before.pool, tx))
      else EpochResult(before.slots + [None], before.pool)
  }

  /** The pool against which candidate `i` is examined. */
  function PoolBefore(txs: seq<Transaction>, pool: Pool, crypto: Crypto, i: nat): Pool
    requires i <= |txs|
  {
    RunEpoch(txs[..i], pool, crypto).pool
  }

  /** The slots of a prefix of the candidates are a prefix of the slots. */
  lemma {:induction false} SlotsOfPrefix(txs: seq<Transaction>, pool: Pool, crypto: Crypto, n: nat)
    requires n <= |txs|
    ensures RunEpoch(txs[..n], pool, crypto).slots == RunEpoch(txs, pool, crypto).slots[..n]
    decreases |txs|
  {
    if n < |txs| {
      var init := txs[..|txs| - 1];
      SlotsOfPrefix(init, pool, crypto, n);
      assert init[..n] == txs[..n];
    } else {
      assert txs[..n] == txs;
    }
  }

  /** Examining candidate `i`: the pool after it is its commit if it is
      valid against the pool before it, and that pool unchanged otherwise. */
  lemma PoolStep(txs: seq<Transaction>, pool: Pool, crypto: Crypto, i: nat)
    requires i < |txs|
    ensures PoolBefore(txs, pool, crypto, i + 1) ==
      if IsValid(txs[i], PoolBefore(txs, pool, crypto, i), crypto)
      then Commit(PoolBefore(txs, pool, crypto, i), txs[i])
      else PoolBefore(txs, pool, crypto, i)
  {
    assert txs[..i + 1][..i] == txs[..i];
  }

  /** Examining candidate `i` extends the slots of the candidates before it
      by one, and commits the candidate if it is valid in turn. */
  lemma EpochStep(txs: seq<Transaction>, pool: Pool, crypto: Crypto, i: nat, valid: bool)
    requires i < |txs|
    requires valid == IsValid(txs[i], RunEpoch(txs[..i], pool, crypto).pool, crypto)
    ensures var before := RunEpoch(txs[..i], pool, crypto);
      RunEpoch(txs[..i + 1], pool, crypto) ==
        if valid
        then EpochResult(before.slots + [Some(txs[i])], Commit(before.pool, txs[i]))
        else EpochResult(before.slots + [None], before.pool)
  {
    assert txs[..i + 1][..i] == txs[..i];
  }

  /** Incremental validity: slot `i` holds candidate `i` exactly when that
      candidate is valid against the pool left by the commits of the
      candidates accepted before it, and is empty otherwise. */
  lemma AcceptedExactlyWhenValidInTurn(txs: seq<Transaction>, pool: Pool, crypto: Crypto, i: nat)
    requires i < |txs|
    ensures RunEpoch(txs, pool, crypto).slots[i] ==
      if IsValid(txs[i], PoolBefore(txs, pool, crypto, i), crypto) then Some(txs[i]) else None
  {
    SlotsOfPrefix(txs, pool, crypto, i + 1);
    assert txs[..i + 1][..i] == txs[..i];
  }

  /** Each candidate is a distinct transaction whose outputs are new: the
      candidates' hashes are pairwise distinct (so no transaction is
      submitted twice and no two collide) and name no output already in the
      pool. */
  predicate HashesFresh(txs: seq<Transaction>, pool: Pool)
  {
    && (forall a, b :: 0 <= a < b < |txs| ==> txs[a].hash != txs[b].hash)
    && (forall a, u :: 0 <= a < |txs| && u in pool ==> u.txHash != txs[a].hash)
  }

  /** Every entry of a pool during the epoch was in the starting pool or was
      created by an earlier candidate. */
  lemma {:induction false} PoolOrigin(txs: seq<Transaction>, pool: Pool, crypto: Crypto, i: nat)
    requires i <= |txs|
    ensures forall u :: u in PoolBefore(txs, pool, crypto, i) ==>
      u in pool || exists l :: 0 <= l < i && txs[l].hash == u.txHash
  {
    if i == 0 {
      assert txs[..0] == [];
    } else {
      PoolOrigin(txs, pool, crypto, i - 1);
      PoolStep(txs, pool, crypto, i - 1);
    }
  }

  /** With fresh hashes, an output in the pool before candidate `i` was not
      created by candidate `i` or any later one. */
  lemma HashNotLater(txs: seq<Transaction>, pool: Pool, crypto: Crypto, i: nat, u: UTXO)
    requires HashesFresh(txs, pool) && i <= |txs|
    requires u in PoolBefore(txs, pool, crypto, i)
    ensures forall m :: i <= m < |txs| ==> txs[m].hash != u.txHash
  {
    PoolOrigin(txs, pool, crypto, i);
  }

  /** Committing `tx` leaves `u` out of the pool when `u` was absent or is
      spent by `tx`, and `tx` does not re-create it. */
  lemma CommitLeavesOut(pool: Pool, tx: Transaction, u: UTXO)
    requires u !in pool || u in Spent(tx)
    requires u.txHash != tx.hash
    ensures u !in Commit(pool, tx)
  {
  }

  /** With fresh hashes, an output spent by accepted candidate `i` is absent
      from the pool before every later candidate `j`. */
  lemma {:induction false} SpentStaysGone(txs: seq<Transaction>, pool: Pool, crypto: Crypto, i: nat, j: nat, u: UTXO)
    requires HashesFresh(txs, pool) && i < j <= |txs|
    requires IsValid(txs[i], PoolBefore(txs, pool, crypto, i), crypto)
    requires u in Spent(txs[i])
    ensures u !in PoolBefore(txs, pool, crypto, j)
    decreases j
  {
    var before := PoolBefore(txs, pool, crypto, i);
    assert u in before by {
      var k :| 0 <= k < |txs[i].inputs| && Claimed(txs[i].inputs[k]) == u;
    }
    HashNotLater(txs, pool, crypto, i, u);
    var m := j - 1;
    assert txs[m].hash != u.txHash;
    if m == i {
      PoolStep(txs, pool, crypto, i);
      CommitLeavesOut(before, txs[i], u);
    } else {
      SpentStaysGone(txs, pool, crypto, i, m, u);
      PoolStep(txs, pool, crypto, m);
      CommitLeavesOut(PoolBefore(txs, pool, crypto, m), txs[m], u);
    }
  }

  /** Conflict-freedom: no output is consumed by two accepted candidates. */
  lemma ConflictFree(txs: seq<Transaction>, pool: Pool, crypto: Crypto)
    requires HashesFresh(txs, pool)
    ensures var e := RunEpoch(txs, pool, crypto);
      forall i, j :: 0 <= i < j < |txs| && e.slots[i].Some? && e.slots[j].Some? ==> Spent(txs[i]) !! Spent(txs[j])
  {
    var e := RunEpoch(txs, pool, crypto);
    forall i, j | 0 <= i < j < |txs| && e.slots[i].Some? && e.slots[j].Some?
      ensures Spent(txs[i]) !! Spent(txs[j])
    {
      AcceptedExactlyWhenValidInTurn(txs, pool, crypto, i);
      AcceptedExactlyWhenValidInTurn(txs, pool, crypto, j);
      forall u | u in Spent(txs[i]) ensures u !in Spent(txs[j]) {
        SpentStaysGone(txs, pool, crypto, i, j, u);
      }
    }
  }

  /** Two candidates spend one output, and the first in array order wins:
      the second fails the existence check once the first has committed,
      and the pool ends holding exactly the first one's output. */
  lemma FirstSeenWins(crypto: Crypto, owner: PublicKey, payeeA: PublicKey, payeeB: PublicKey,
                      sigA: Bytes, sigB: Bytes, txA: Transaction, txB: Transaction)
    requires txA == Transaction([1], [Input([0], 0, sigA)], [Output(10.0, payeeA)])
    requires txB == Transaction([2], [Input([0], 0, sigB)], [Output(10.0, payeeB)])
    requires crypto.verify(owner, crypto.rawDataToSign(txA, 0), sigA)
    ensures RunEpoch([txA, txB], map[UTXO([0], 0) := Output(10.0, owner)], crypto)
         == EpochResult([Some(txA), None], map[UTXO([1], 0) := Output(10.0, payeeA)])
  {
    var pool := map[UTXO([0], 0) := Output(10.0, owner)];
    var txs := [txA, txB];
    assert txs[..1] == [txA] && [txA][..0] == [];
    assert SignatureVerifies(txA, pool, crypto, 0);
    assert IsValid(txA, pool, crypto);
    var after := Commit(pool, txA);
    assert after == map[UTXO([1], 0) := Output(10.0, payeeA)] by {
      assert Produced(txA, 0) == UTXO([1], 0);
      assert after.Keys == {UTXO([1], 0)};
    }
    assert RunEpoch([txA], pool, crypto) == EpochResult([Some(txA)], after);
    MissingClaimInvalid(txB, after, crypto, 0);
    assert txs[..|txs| - 1] == [txA];
  }

  /** A transaction with no inputs and one output of value 0 is valid
      against every pool. */
  lemma FreeMintAccepted(t0: Transaction, pool: Pool, crypto: Crypto)
    requires |t0.inputs| == 0 && |t0.outputs| == 1 && t0.outputs[0].value == 0.0
    ensures IsValid(t0, pool, crypto)
  {
    assert OutputSumFrom(t0.outputs, 1) == 0.0;
  }

  /** A transaction with one input claiming a pooled output of value 0,
      signed by its owner, and paying out 0, is valid. */
  lemma ZeroSpendAccepted(t1: Transaction, pool: Pool, crypto: Crypto, k: PublicKey)
    requires |t1.inputs| == 1 && |t1.outputs| == 1 && t1.outputs[0].value == 0.0
    requires Claimed(t1.inputs[0]) in pool && pool[Claimed(t1.inputs[0])] == Output(0.0, k)
    requires crypto.verify(k, crypto.rawDataToSign(t1, 0), t1.inputs[0].signature)
    ensures IsValid(t1, pool, crypto)
  {
    assert SignatureVerifies(t1, pool, crypto, 0);
    assert InputSumFrom(t1.inputs, pool, 1) == 0.0;
    assert OutputSumFrom(t1.outputs, 1) == 0.0;
  }

  /** Committing a transaction with one input and one output removes the
      claimed output, then pools the new one under `(hash, 0)`. */
  lemma CommitOneToOne(pool: Pool, tx: Transaction)
    requires |tx.inputs| <= 1 && |tx.outputs| == 1
    ensures Commit(pool, tx) == (pool - Spent(tx))[Produced(tx, 0) := tx.outputs[0]]
  {
    var r := Commit(pool, tx);
    var m := (pool - Spent(tx))[Produced(tx, 0) := tx.outputs[0]];
    assert forall u :: u in r <==> u in m;
    assert forall u :: u in r ==> r[u] == m[u];
  }

  /** One more accepted candidate: if the candidates `prefix` leave `slots`
      and pool `p`, and `tx` is valid against `p`, then `prefix + [tx]` leaves
      `tx` in the next slot and `tx` committed to `p`. */
  lemma AcceptedAfter(prefix: seq<Transaction>, tx: Transaction, pool: Pool, crypto: Crypto,
                      slots: seq<Option<Transaction>>, p: Pool)
    requires RunEpoch(prefix, pool, crypto) == EpochResult(slots, p)
    requires IsValid(tx, p, crypto)
    ensures RunEpoch(prefix + [tx], pool, crypto) == EpochResult(slots + [Some(tx)], Commit(p, tx))
  {
    assert (prefix + [tx])[..|prefix|] == prefix;
  }

  /** The pools met by the first two candidates `t0, t1` of the resubmitted
      batch below: `t0` is valid against the empty pool and pools its output
      `u`; `t1` is valid against that pool and replaces `u` by its own
      output. */
  lemma FirstPairPools(crypto: Crypto, k: PublicKey, s: Bytes, t0: Transaction, t1: Transaction)
    requires t0.inputs == [] && |t0.outputs| == 1 && t0.outputs[0] == Output(0.0, k)
    requires t1.inputs == [Input(t0.hash, 0, s)] && |t1.outputs| == 1 && t1.outputs[0].value == 0.0
    requires t0.hash != t1.hash
    requires crypto.verify(k, crypto.rawDataToSign(t1, 0), s)
    ensures IsValid(t0, map[], crypto) && Commit(map[], t0) == map[Produced(t0, 0) := t0.outputs[0]]
    ensures IsValid(t1, map[Produced(t0, 0) := t0.outputs[0]], crypto)
    ensures Commit(map[Produced(t0, 0) := t0.outputs[0]], t1) == map[Produced(t1, 0) := t1.outputs[0]]
  {
    var u := Produced(t0, 0);
    var v := Produced(t1, 0);
    assert Claimed(t1.inputs[0]) == u && Spent(t0) == {} && Spent(t1) == {u};
    var p1 := map[u := t0.outputs[0]];
    FreeMintAccepted(t0, map[], crypto);
    CommitOneToOne(map[], t0);
    ZeroSpendAccepted(t1, p1, crypto, k);
    CommitOneToOne(p1, t1);
    assert (p1 - {u})[v := t1.outputs[0]] == map[v := t1.outputs[0]];
  }

  /** The pools met by the second copies of `t0, t1`: `t0` is valid again
      and re-creates `u` beside `t1`'s output, and `t1` is valid against
      the result. */
  lemma SecondPairPools(crypto: Crypto, k: PublicKey, s: Bytes, t0: Transaction, t1: Transaction)
    requires t0.inputs == [] && |t0.outputs| == 1 && t0.outputs[0] == Output(0.0, k)
    requires t1.inputs == [Input(t0.hash, 0, s)] && |t1.outputs| == 1 && t1.outputs[0].value == 0.0
    requires t0.hash != t1.hash
    requires crypto.verify(k, crypto.rawDataToSign(t1, 0), s)
    ensures IsValid(t0, map[Produced(t1, 0) := t1.outputs[0]], crypto)
    ensures Commit(map[Produced(t1, 0) := t1.outputs[0]], t0)
         == map[Produced(t1, 0) := t1.outputs[0], Produced(t0, 0) := t0.outputs[0]]
    ensures IsValid(t1, map[Produced(t1, 0) := t1.outputs[0], Produced(t0, 0) := t0.outputs[0]], crypto)
  {
    var u := Produced(t0, 0);
    var p2 := map[Produced(t1, 0) := t1.outputs[0]];
    assert Claimed(t1.inputs[0]) == u && Spent(t0) == {};
    FreeMintAccepted(t0, p2, crypto);
    CommitOneToOne(p2, t0);
    ZeroSpendAccepted(t1, p2[u := t0.outputs[0]], crypto, k);
  }

  /** The first half of the resubmitted batch below: `t0` and then `t1` are
      accepted, leaving only `t1`'s output in the pool. */
  lemma ResubmittedFirstPair(crypto: Crypto, k: PublicKey, s: Bytes, t0: Transaction, t1: Transaction)
    requires t0.inputs == [] && |t0.outputs| == 1 && t0.outputs[0] == Output(0.0, k)
    requires t1.inputs == [Input(t0.hash, 0, s)] && |t1.outputs| == 1 && t1.outputs[0].value == 0.0
    requires t0.hash != t1.hash
    requires crypto.verify(k, crypto.rawDataToSign(t1, 0), s)
    ensures RunEpoch([t0, t1], map[], crypto) == EpochResult([Some(t0), Some(t1)], map[Produced(t1, 0) := t1.outputs[0]])
  {
    FirstPairPools(crypto, k, s, t0, t1);
    AcceptedAfter([], t0, map[], crypto, [], map[]);
    assert [] + [t0] == [t0];
    AcceptedAfter([t0], t1, map[], crypto, [Some(t0)], map[Produced(t0, 0) := t0.outputs[0]]);
    assert [t0] + [t1] == [t0, t1];
  }

  /** Resubmission: a batch holding the same two transactions twice, with no
      hash collision, has all four candidates accepted. `t1` spends output
      `(hash of t0, 0)`; the second `t0` re-creates that output after the
      first `t1` removed it, so the second `t1` spends it again. Such a batch
      is not `HashesFresh`. */
  lemma ResubmissionDoubleSpends(crypto: Crypto, k: PublicKey, s: Bytes, t0: Transaction, t1: Transaction)
    requires t0.inputs == [] && |t0.outputs| == 1 && t0.outputs[0] == Output(0.0, k)
    requires t1.inputs == [Input(t0.hash, 0, s)] && |t1.outputs| == 1 && t1.outputs[0].value == 0.0
    requires t0.hash != t1.hash
    requires crypto.verify(k, crypto.rawDataToSign(t1, 0), s)
    ensures RunEpoch([t0, t1, t0, t1], map[], crypto).slots == [Some(t0), Some(t1), Some(t0), Some(t1)]
    ensures UTXO(t0.hash, 0) in Spent(t1)
    ensures !HashesFresh([t0, t1, t0, t1], map[])
  {
    SecondPairPools(crypto, k, s, t0, t1);
    ResubmittedFirstPair(crypto, k, s, t0, t1);
    var p2 := map[Produced(t1, 0) := t1.outputs[0]];
    var p3 := map[Produced(t1, 0) := t1.outputs[0], Produced(t0, 0) := t0.outputs[0]];
    AcceptedAfter([t0, t1], t0, map[], crypto, [Some(t0), Some(t1)], p2);
    assert [t0, t1] + [t0] == [t0, t1, t0];
    AcceptedAfter([t0, t1, t0], t1, map[], crypto, [Some(t0), Some(t1), Some(t0)], p3);
    assert [t0, t1, t0] + [t1] == [t0, t1, t0, t1];
    assert Claimed(t1.inputs[0]) == UTXO(t0.hash, 0);
    assert [t0, t1, t0, t1][0].hash == [t0, t1, t0, t1][2].hash;
  }
}

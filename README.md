# ScroogeCoin transaction handler, modelled in Dafny

This project models `TxHandler`, the ledger engine of ScroogeCoin. The engine
holds a pool of unspent transaction outputs (UTXOs). It decides whether one
transaction is valid against that pool (`isValidTx`). It also advances the
pool by one epoch over an array of candidate transactions (`handleTxs`).

- `ledger.dfy` (module `Ledger`) holds the values:
  - an output identifier `UTXO(txHash, index)`, compared structurally;
  - `Output(value, address)` and `Input(prevTxHash, outputIndex, signature)`;
  - `Transaction(hash, inputs, outputs)`;
  - the pool, a `map<UTXO, Output>`;
  - `Crypto`, which holds signature verification and the signed payload of each input position.
- `validation.dfy` (module `Validation`) has the five checks of `isValidTx`.
  Each check is a recursive scan that follows the documented check, over
  the inputs or the outputs in order. Its contract gives the condition the
  scan decides. `IsValid` joins the five
  checks in the source's order. The lemmas beside it give each rejection
  rule and conservation. They also show that a rejection survives the
  removal of pool entries.
- `epoch.dfy` (module `Epoch`) has two definitions:
  - `Commit`: what accepting one transaction does to the pool;
  - `RunEpoch`: `handleTxs` as a function of the candidates and the starting pool.
  
  The lemmas about them cover the slot-by-slot outcome, incremental
  validity and conflict-freedom.
- `handler.dfy` (module `Handler`) has the class `TxHandler`. It holds the
  pool in a field. Its `HandleTxs` fills a fresh result array slot by slot
  and updates the pool in place. It uses the same loops as the source: one
  over the candidates, then one over the inputs to remove and one over the
  outputs to add. One pass of the candidate loop is the method
  `ExamineCandidate`, and the commit is `CommitTx`. Each method is proved
  against `RunEpoch` and `Commit`.
- `as_written.dfy` (module `AsWritten`) models `isValidTx` with its helpers
  as written. See "## Findings".

The code and the method's documentation disagree about what `isValidTx`
checks: as written, its helpers check nothing (see "## Findings"). The model
follows the documented checks at src/main/java/TxHandler.java:14-21 and
records the as-written behaviour as a finding.

`handleTxs` returns an array as long as its input, with the accepted
transaction in its own slot and null elsewhere. It does not return a
compacted list of accepted transactions. The model follows the code: slots
are `Option<Transaction>`, with `None` for null.

The conflict-freedom lemma `Epoch.ConflictFree` has the hypothesis
`HashesFresh`: the candidates' hashes are pairwise distinct, and none of
them names an output already in the pool. This excludes hash collisions,
and it also excludes a batch that holds the same transaction twice. Without
it, a later accepted candidate with a repeated hash re-creates an output
that was already spent, and a later candidate can spend that output again.
`Epoch.ResubmissionDoubleSpends` shows this for a resubmitted pair (see
"## Findings").

## Model

| member | source | states |
|---|---|---|
| `Handler.TxHandler.constructor` | src/main/java/TxHandler.java:10-12 | The handler's current pool is the given pool. |
| `Handler.TxHandler.IsValidTx` | src/main/java/TxHandler.java:24-32 | Runs the five checks in order and stops at the first that fails. The answer is `IsValid` of the current pool. The method modifies nothing. |
| `Handler.TxHandler.RemoveSpent` | src/main/java/TxHandler.java:50-52 | Removing the claimed outputs one input at a time leaves the old pool minus exactly the outputs the inputs claim. |
| `Handler.TxHandler.AddCreated` | src/main/java/TxHandler.java:55-57 | Adding the outputs one at a time leaves the old pool plus `(hash, j) -> outputs[j]` for every output `j`. |
| `Handler.TxHandler.CommitTx` | src/main/java/TxHandler.java:49-57 | Removing the claimed outputs and then adding the new ones leaves exactly `Commit` of the old pool. |
| `Handler.TxHandler.ExamineCandidate` | src/main/java/TxHandler.java:45-58 | One pass of the epoch loop. The result is `IsValid` against the pool before the pass. An accepted candidate fills its slot and the pool becomes its `Commit`. A rejected candidate leaves its slot empty and the pool unchanged. Later slots stay empty. |
| `Handler.TxHandler.HandleTxs` | src/main/java/TxHandler.java:39-62 | Returns a fresh array as long as the candidates. Its slots are those of `RunEpoch`, and the new pool is `RunEpoch`'s pool, both from the pool before the call. |
| `Validation.ClaimsInPoolFrom` | src/main/java/TxHandler.java:64-75 | Check (1): true exactly when every input from position `i` on claims an output that is in the pool. |
| `Validation.SignaturesValidFrom` | src/main/java/TxHandler.java:77-85 | Check (2): true exactly when each input from `i` on claims a pooled output, and its signature over that position's payload verifies under the output's address. |
| `Validation.ClaimNotRepeatedFrom` | src/main/java/TxHandler.java:89-91 | Inner loop of check (3): true exactly when no input at another position claims the output that input `i` claims. |
| `Validation.NoDoubleClaimsFrom` | src/main/java/TxHandler.java:87-94 | Check (3): true exactly when no two distinct input positions claim the same output. |
| `Validation.NoNegativesFrom` | src/main/java/TxHandler.java:96-101 | Check (4): true exactly when every output value is at least 0. |
| `Validation.OutputSumFrom` | src/main/java/TxHandler.java:107-109 | The output sum is non-negative when every output value is. |
| `Validation.InputSumFrom` | src/main/java/TxHandler.java:111-117 | Sums the pool value of each claimed output, looked up by `(prevTxHash, outputIndex)`. The sum is non-negative when those pool values are. |
| `Validation.SignatureVerifies` | src/main/java/TxHandler.java:79-82 | Input `k` claims a pooled output, and its signature over the payload for position `k` verifies under that output's address. |
| `Validation.NoMoreSpentThanInput` | src/main/java/TxHandler.java:103-121 | Check (5): the pool value of the claimed outputs is at least the value of the outputs (the final comparison at lines 119-120). |
| `Validation.IsValid` | src/main/java/TxHandler.java:14-32 | `isValidTx`: the five checks in order, each evaluated only when the earlier ones pass. Its meaning is stated by `ValidExactlyWhenChecksHold`. |
| `Validation.ValidExactlyWhenChecksHold` | src/main/java/TxHandler.java:14-21 | Valid if and only if all five hold: every claim is pooled; every signature verifies; no two positions claim one output; no output is negative; the input sum is at least the output sum. |
| `Validation.MissingClaimInvalid` | src/main/java/TxHandler.java:64-75 | A transaction with an input whose claimed output is not in the pool is invalid. |
| `Validation.BadSignatureInvalid` | src/main/java/TxHandler.java:77-85 | A transaction is invalid if an input's signature fails to verify under the claimed output's address. |
| `Validation.DoubleClaimInvalid` | src/main/java/TxHandler.java:87-94 | A transaction in which two distinct input positions claim the same output is invalid. |
| `Validation.NegativeOutputInvalid` | src/main/java/TxHandler.java:96-101 | A transaction with any output value below 0 is invalid, whatever its other fields. |
| `Validation.OverspendInvalid` | src/main/java/TxHandler.java:103-121 | A transaction whose input sum is below its output sum is invalid. |
| `Validation.OverspendRejected` | src/main/java/TxHandler.java:103-121 | Example: one input claiming an output worth 10 cannot pay out 5 + 6, even with a signature that verifies. |
| `Validation.ValidConserves` | src/main/java/TxHandler.java:19-20 | A valid transaction's claims are all pooled, and 0 <= output sum <= input sum. So the implicit fee is non-negative. |
| `Validation.InputSumInSubPool` | src/main/java/TxHandler.java:111-117 | If every claim is present in a sub-pool, the claims are present in the larger pool and their input sum is the same in both. |
| `Validation.ValidInLargerPool` | src/main/java/TxHandler.java:24-32 | A transaction valid against a pool stays valid against any pool that extends it. |
| `Validation.RejectionSurvivesRemoval` | src/main/java/TxHandler.java:24-32 | A transaction invalid against a pool stays invalid against any pool obtained by removing entries. |
| `Epoch.Commit` | src/main/java/TxHandler.java:49-57 | After commit, a key is present if and only if it is an output of the transaction, or it was present and not spent. Output `j` sits under `(hash, j)`. Every other entry keeps its old value. Claimed outputs that are not re-created are gone. |
| `Epoch.CreatedUpToEntries` | src/main/java/TxHandler.java:55-57 | After adding outputs `0..n`, the added keys are exactly `(hash, j)` for `j < n`, and output `j` sits under `(hash, j)`. |
| `Epoch.AddOneCreated` | src/main/java/TxHandler.java:56 | Adding output `n` under `(hash, n)` to a pool that already holds outputs `0..n-1` gives the pool that holds outputs `0..n`. |
| `Epoch.CommitLeavesOut` | src/main/java/TxHandler.java:50-57 | Commit does not add an output that was absent or spent, unless the transaction re-creates it under its own hash. |
| `Epoch.RunEpoch` | src/main/java/TxHandler.java:39-62 | There is one slot per candidate. Slot `i` holds either candidate `i` or nothing. |
| `Epoch.SlotsOfPrefix` | src/main/java/TxHandler.java:44-47 | Running the epoch over a prefix of the candidates yields the same prefix of slots. |
| `Epoch.EpochStep` | src/main/java/TxHandler.java:44-58 | Examining candidate `i` adds one slot to those before it. An accepted candidate's slot holds it and the pool is committed. A rejected candidate's slot is empty and the pool is unchanged. |
| `Epoch.PoolStep` | src/main/java/TxHandler.java:44-58 | A rejected candidate leaves the pool unchanged. An accepted candidate commits its transaction. |
| `Epoch.AcceptedExactlyWhenValidInTurn` | src/main/java/TxHandler.java:44-47 | Slot `i` holds candidate `i` if and only if it is valid against the pool left by the commits of the candidates accepted before it. Otherwise the slot is empty. |
| `Epoch.PoolOrigin` | src/main/java/TxHandler.java:55-57 | Every output in the pool during the epoch either was in the starting pool or carries the hash of an earlier candidate. |
| `Epoch.HashNotLater` | src/main/java/TxHandler.java:55-57 | With fresh hashes, an output pooled before candidate `i` does not carry the hash of candidate `i` or of any later candidate. |
| `Epoch.SpentStaysGone` | src/main/java/TxHandler.java:50-52 | With fresh hashes, an output spent by accepted candidate `i` is absent from the pool before every later candidate. |
| `Epoch.ConflictFree` | src/main/java/TxHandler.java:34-38 | With fresh hashes, no two accepted candidates spend a common output. |
| `Epoch.FirstSeenWins` | src/main/java/TxHandler.java:44-57 | Two candidates spend one output worth 10. The first is accepted and the second is rejected. The pool ends holding only `(hash of first, 0) -> 10` for the first one's payee. |
| `Epoch.FreeMintAccepted` | src/main/java/TxHandler.java:24-32 | A transaction with no inputs and one output of value 0 is valid against every pool. |
| `Epoch.ZeroSpendAccepted` | src/main/java/TxHandler.java:24-32 | A transaction is valid if it has one input, signed by the owner, claiming a pooled output of value 0, and pays out 0. |
| `Epoch.CommitOneToOne` | src/main/java/TxHandler.java:50-57 | Committing a transaction with at most one input and one output removes what it spends, then puts its output under `(hash, 0)`. |
| `Epoch.AcceptedAfter` | src/main/java/TxHandler.java:44-58 | If the candidates before `tx` leave some slots and pool `p`, and `tx` is valid against `p`, then `tx` takes the next slot and the pool becomes its commit of `p`. |
| `Epoch.FirstPairPools` | src/main/java/TxHandler.java:44-57 | In the batch `t0, t1, t0, t1`, the first `t0` is valid against the empty pool and pools output `(hash of t0, 0)`. The first `t1` is valid against that pool and replaces that output with its own. |
| `Epoch.SecondPairPools` | src/main/java/TxHandler.java:44-57 | The second `t0` is valid again and re-creates `(hash of t0, 0)` beside `t1`'s output. The second `t1` is valid against the result. |
| `Epoch.ResubmittedFirstPair` | src/main/java/TxHandler.java:44-58 | Both of the first two candidates are accepted, and the pool then holds only `t1`'s output. |
| `Epoch.ResubmissionDoubleSpends` | src/main/java/TxHandler.java:50-57 | Submitting `t0, t1, t0, t1`, where `t1` spends output `(hash of t0, 0)`, gets all four accepted. So two accepted candidates spend one output. The batch is not `HashesFresh`. |
| `AsWritten.IsValidTxAsWritten` | src/main/java/TxHandler.java:24-32 | `isValidTx` with its helpers as written (lines 64-121): every helper loop is skipped, and the conservation helper compares two zero sums. Its meaning is stated by `AsWrittenAcceptsEverything`. |
| `AsWritten.AsWrittenAcceptsEverything` | src/main/java/TxHandler.java:64-121 | With the helpers as written, every transaction passes against every pool. |
| `AsWritten.AsWrittenAcceptsNegativeOutput` | src/main/java/TxHandler.java:96-101 | As written, a transaction with output value -1 passes. The documented checks reject it. |
| `AsWritten.AsWrittenAcceptsDoubleSpend` | src/main/java/TxHandler.java:64-75 | As written, a second transaction passes against the pool the first left, although both spend one output. The documented checks reject it. |

## Findings

| source | as written | input that shows it | evidently intended | confidence | as-written member | corrected member |
|---|---|---|---|---|---|---|
| src/main/java/TxHandler.java:65 | Every helper loop is `for (int i = 0; i > size; i++)` (lines 65, 78, 88, 97, 107, 111). A size is never negative, so no loop body runs. Each helper returns true, and `isValidTx` accepts every transaction. | Pool `{([0], 0) -> 10}`. txA spends `([0], 0)`; once it commits, txB spending `([0], 0)` still passes. Also a transaction with one output of value -1 passes. | The loops run while `i < size`. The five checks hold as documented at lines 14-21. | high (not executed) | `AsWritten.AsWrittenAcceptsDoubleSpend` | `Epoch.ConflictFree` |
| src/main/java/TxHandler.java:50-57 | A commit removes the claimed outputs and then adds `(hash, j)` for each output, with no record of what was already spent. A transaction submitted twice in one batch re-creates its outputs after a later candidate has spent them. | `t0` has no inputs and one output of value 0 under hash `[7]`. `t1` under hash `[8]` spends `([7], 0)` with a valid signature. The batch `t0, t1, t0, t1` is accepted in full, and both copies of `t1` spend `([7], 0)`. | No output is spent by two accepted candidates of one epoch. | medium (not executed) | `Epoch.ResubmissionDoubleSpends` | `Epoch.ConflictFree` |

## Left out

- Cryptography: signature verification and the payload each input signs (`getRawDataToSign`) are function values of `Ledger.Crypto`, supplied from outside. The transaction hash (`getHash`) is a field of the transaction.
- `UTXOPool`, `UTXO` and `Transaction` are not part of this model. The pool is a Dafny map, and the other two are datatypes with structural equality. The enumeration order of `getAllUTXO`, `hashCode` and reference equality are not modelled.
- Output values are `real`, where the source uses `double`. Rounding is not modelled.
- The constructor stores the caller's pool, not a defensive copy (src/main/java/TxHandler.java:7-11). In the model the pool is a map value, so the handler owns it exclusively and aliasing does not arise.
- The helper loop bodies as written are not modelled, because no input reaches them. These bodies have further defects: inner loops increment `i` instead of `j` (lines 67, 89, 112); the existence check compares the transaction's outputs with pool entries by `hashCode` (line 68); `match.equals(null)` dereferences null (line 72); the duplicate check compares outputs by reference and includes `i == j` (line 90); the conservation check matches pool entries by `prevTxHash` alone (line 113). The model's helpers follow the documented checks instead.
- Null candidates, and a transaction whose hash is null, would raise exceptions in the source. They are not modelled.
- The candidate array is a sequence, because `handleTxs` only reads it.
- Epoch.ConflictFree: assumes `HashesFresh` (distinct candidate hashes, none naming a pooled output). This excludes hash collisions and also a transaction submitted twice in one batch; without it a later accepted candidate re-creates an output that was already spent, as `Epoch.ResubmissionDoubleSpends` shows.

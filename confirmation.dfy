/** Receipt lookup and classification after a successful dispatch
    (main.js:130-151). */
module Confirmation {
  import opened Oracle
  import opened RetryPolicy

  /** What is reported for a dispatched transaction. */
  datatype Status = Confirmed(blockNumber: nat) | Reverted | Pending | LookupFailed(error: Error)

  /** The branches of main.js:133-150 over what the retried lookup produced.
      A null receipt is a value `retry` returns at once, so it reads as
      pending; `undefined` (no attempt made) is falsy and reads the same way. */
  function Classify(lookup: RetryResult<Option<Receipt>>): (s: Status)
    ensures s.Confirmed? <==> lookup.Returned? && lookup.value.Some? && lookup.value.value.status == Some(1)
    ensures s.Confirmed? ==> s.blockNumber == lookup.value.value.blockNumber
    ensures s.Reverted? <==> lookup.Returned? && lookup.value.Some? && lookup.value.value.status != Some(1)
    ensures s.Pending? <==> lookup == Returned(None) || lookup.Undefined?
    ensures s.LookupFailed? <==> lookup.Thrown?
    ensures s.LookupFailed? ==> s.error == lookup.error
  {
    match lookup
    case Returned(Some(receipt)) =>
      if receipt.status == Some(1) then Confirmed(receipt.blockNumber) else Reverted
    case Returned(None) => Pending
    case Undefined => Pending
    case Thrown(e) => LookupFailed(e)
  }

  /** The retried lookup of main.js:132 and its classification. */
  function Confirm(net: Network, hash: TxHash): (r: (RetryRun<Option<Receipt>>, Status))
  {
    var lookup := RetryOutcome(net.receipt(hash), MAX_RETRIES);
    (lookup, Classify(lookup.result))
  }

  /** "Pending" is reported after a single lookup: a null receipt on the first
      attempt ends the retry with no warning. */
  lemma PendingAfterOneLookup(net: Network, hash: TxHash)
    requires net.receipt(hash)(0) == Ok(None)
    ensures Confirm(net, hash) == (RetryRun(Returned(None), 1, [], 0), Pending)
  {
    RetrySucceedsAfterFailures(net.receipt(hash), MAX_RETRIES, 0);
    assert Warnings(0, MAX_RETRIES) == [];
  }

  /** A lookup that throws on every attempt is reported as a lookup error
      carrying the last error, after MAX_RETRIES calls. */
  lemma LookupExhaustedIsError(net: Network, hash: TxHash)
    requires forall j :: 0 <= j < MAX_RETRIES ==> net.receipt(hash)(j).Threw?
    ensures Confirm(net, hash).0.calls == MAX_RETRIES
    ensures Confirm(net, hash).1 == LookupFailed(net.receipt(hash)(MAX_RETRIES - 1).error)
  {
    RetryExhausted(net.receipt(hash), MAX_RETRIES);
  }

  /** The status is Confirmed with the receipt's block number exactly when the
      first attempt that did not throw returned a receipt whose status is 1. */
  lemma ConfirmedIffFirstReceiptSucceeded(net: Network, hash: TxHash, k: nat, receipt: Receipt)
    requires k < MAX_RETRIES
    requires forall j :: 0 <= j < k ==> net.receipt(hash)(j).Threw?
    requires net.receipt(hash)(k) == Ok(Some(receipt))
    ensures Confirm(net, hash).0.calls == k + 1
    ensures Confirm(net, hash).1 == if receipt.status == Some(1) then Confirmed(receipt.blockNumber) else Reverted
  {
    RetrySucceedsAfterFailures(net.receipt(hash), MAX_RETRIES, k);
  }
}

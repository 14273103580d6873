/** The per-wallet balance check that decides whether a wallet sends anything
    (main.js:70-89). */
module BalanceGate {
  import opened Oracle
  import opened RetryPolicy

  /** `parseUnits('0.0001', 18)`: 0.0001 token at 18 decimals, in base units. */
  const MIN_BALANCE: nat := 100_000_000_000_000

  datatype Gate = Unavailable(error: Error) | Insufficient(balance: nat) | Eligible(balance: nat)

  /** The decision of main.js:71-89 on the retried balance query: a query that
      exhausted its retries skips the wallet, a balance strictly below the
      threshold skips it, anything else lets it proceed. */
  function GateOn(query: RetryResult<nat>): (g: Gate)
    requires !query.Undefined?
    ensures g.Unavailable? <==> query.Thrown?
    ensures g.Insufficient? <==> query.Returned? && query.value < MIN_BALANCE
    ensures g.Eligible? <==> query.Returned? && MIN_BALANCE <= query.value
    ensures !g.Unavailable? ==> g.balance == query.value
  {
    match query
    case Thrown(e) => Unavailable(e)
    case Returned(balance) => if balance < MIN_BALANCE then Insufficient(balance) else Eligible(balance)
  }

  /** The retried balance query of main.js:72-74 and the decision on it. */
  function CheckBalance(net: Network, sender: Address): (r: (RetryRun<nat>, Gate))
  {
    var query := RetryOutcome<nat>(net.balanceOf(sender), MAX_RETRIES);
    (query, GateOn(query.result))
  }

  /** The wallet is marked unavailable exactly when all MAX_RETRIES balance
      queries throw, and then exactly MAX_RETRIES queries were made. */
  lemma UnavailableIffQueryExhausted(net: Network, sender: Address)
    ensures CheckBalance(net, sender).1.Unavailable?
      <==> forall j :: 0 <= j < MAX_RETRIES ==> net.balanceOf(sender)(j).Threw?
    ensures CheckBalance(net, sender).1.Unavailable? ==> CheckBalance(net, sender).0.calls == MAX_RETRIES
  {
    RetryThrowsIffAllFail(net.balanceOf(sender), MAX_RETRIES);
    RetryShape(net.balanceOf(sender), MAX_RETRIES);
  }

  /** A first answer of exactly the threshold is eligible; one base unit less is not. */
  lemma ThresholdIsInclusive(net: Network, sender: Address, balance: nat)
    requires net.balanceOf(sender)(0) == Ok(balance)
    ensures CheckBalance(net, sender).0.calls == 1
    ensures CheckBalance(net, sender).1 == if balance < MIN_BALANCE then Insufficient(balance) else Eligible(balance)
  {
    RetrySucceedsAfterFailures(net.balanceOf(sender), MAX_RETRIES, 0);
  }
}

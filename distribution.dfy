/** The orchestration of `main` (main.js:62-157): wallets in input order, a
    balance gate per wallet, then `transactionCount` iterations of
    generate -> dispatch -> look up receipt. Console lines are replaced by
    structured reports; a failed balance query ends only its wallet, and a
    failed dispatch or lookup ends only its iteration. */
module Distribution {
  import opened Oracle
  import opened RetryPolicy
  import opened Confirmation
  import opened BalanceGate

  /** One iteration of the transfer loop. `index` is the loop variable `i`
      (from 1). A failed dispatch skips the receipt lookup. */
  datatype IterationReport =
    | SendFailed(index: nat, request: Transfer, dispatch: RetryRun<TxHash>)
    | Sent(index: nat, request: Transfer, hash: TxHash, dispatch: RetryRun<TxHash>,
           lookup: RetryRun<Option<Receipt>>, status: Status)

  /** What happened to one funding wallet. */
  datatype WalletReport =
    | BalanceUnavailable(sender: Address, query: RetryRun<nat>)
    | InsufficientBalance(sender: Address, query: RetryRun<nat>)
    | Processed(sender: Address, query: RetryRun<nat>, iterations: seq<IterationReport>)

  /** Number of iterations of `for (let i = 1; i <= transactionCount; i++)`. */
  function Count(transactionCount: int): nat
  {
    if transactionCount <= 0 then 0 else transactionCount
  }

  /** Iteration `index` of a wallet's loop (main.js:92-151), using the
      `draw`-th fresh recipient and random amount. */
  function Iteration(net: Network, rng: Entropy, sender: Address, index: nat, draw: nat): IterationReport
  {
    var request := Transfer(sender, rng.recipient(draw), rng.amount(draw));
    var dispatch := RetryOutcome(net.transfer(request), MAX_RETRIES);
    match dispatch.result
    case Returned(hash) =>
      var (lookup, status) := Confirm(net, hash);
      Sent(index, request, hash, dispatch, lookup, status)
    case Thrown(_) => SendFailed(index, request, dispatch)
    case Undefined => assert false; SendFailed(index, request, dispatch)
  }

  /** The whole loop of an eligible wallet: iteration k (from 0) is loop
      index k + 1 and uses draw `draw + k`, whatever earlier iterations did. */
  function Iterations(net: Network, rng: Entropy, sender: Address, transactionCount: int, draw: nat): seq<IterationReport>
  {
    seq(Count(transactionCount), (k: nat) => Iteration(net, rng, sender, k + 1, draw + k))
  }

  /** One pass of the outer loop body (main.js:63-156). */
  function Wallet(net: Network, rng: Entropy, sender: Address, transactionCount: int, draw: nat): WalletReport
  {
    var (query, gate) := CheckBalance(net, sender);
    match gate
    case Unavailable(_) => BalanceUnavailable(sender, query)
    case Insufficient(_) => InsufficientBalance(sender, query)
    case Eligible(_) => Processed(sender, query, Iterations(net, rng, sender, transactionCount, draw))
  }

  /** How many fresh recipients a wallet drew. */
  function Draws(report: WalletReport): nat
  {
    if report.Processed? then |report.iterations| else 0
  }

  function TotalDraws(reports: seq<WalletReport>): nat
  {
    if reports == [] then 0 else TotalDraws(reports[..|reports| - 1]) + Draws(reports[|reports| - 1])
  }

  /** The outer loop over `privateKeys` (main.js:62-157), each wallet given by
      its address; wallet k starts drawing where the earlier ones stopped. */
  function Run(net: Network, rng: Entropy, senders: seq<Address>, transactionCount: int): seq<WalletReport>
  {
    if senders == [] then []
    else
      var earlier := Run(net, rng, senders[..|senders| - 1], transactionCount);
      earlier + [Wallet(net, rng, senders[|senders| - 1], transactionCount, TotalDraws(earlier))]
  }

  /** Loop body of main.js:92-151. */
  method RunIteration(net: Network, rng: Entropy, sender: Address, index: nat, draw: nat) returns (report: IterationReport)
    ensures report == Iteration(net, rng, sender, index, draw)
  {
    var recipient := rng.recipient(draw);
    var amount := rng.amount(draw);
    var request := Transfer(sender, recipient, amount);
    var dispatch := Retry(net.transfer(request), MAX_RETRIES);
    match dispatch.result {
      case Thrown(_) =>
        report := SendFailed(index, request, dispatch);
      case Undefined =>
        assert false;
      case Returned(hash) =>
        var lookup := Retry(net.receipt(hash), MAX_RETRIES);
        report := Sent(index, request, hash, dispatch, lookup, Classify(lookup.result));
    }
  }

  /** Outer loop body of main.js:63-156 for one wallet. */
  method ProcessWallet(net: Network, rng: Entropy, sender: Address, transactionCount: int, draw: nat)
    returns (report: WalletReport)
    ensures report == Wallet(net, rng, sender, transactionCount, draw)
  {
    var query := Retry<nat>(net.balanceOf(sender), MAX_RETRIES);
    match GateOn(query.result) {
      case Unavailable(_) =>
        return BalanceUnavailable(sender, query);
      case Insufficient(_) =>
        return InsufficientBalance(sender, query);
      case Eligible(_) =>
    }
    var iterations: seq<IterationReport> := [];
    var i := 1;
    while i <= transactionCount
      invariant 1 <= i && |iterations| == i - 1
      invariant i <= Count(transactionCount) + 1
      invariant forall k :: 0 <= k < |iterations| ==> iterations[k] == Iteration(net, rng, sender, k + 1, draw + k)
      decreases transactionCount - i
    {
      var it := RunIteration(net, rng, sender, i, draw + (i - 1));
      iterations := iterations + [it];
      i := i + 1;
    }
    assert iterations == Iterations(net, rng, sender, transactionCount, draw);
    report := Processed(sender, query, iterations);
  }

  /** main.js:62-157: every wallet, in input order. */
  method Distribute(net: Network, rng: Entropy, senders: seq<Address>, transactionCount: int)
    returns (reports: seq<WalletReport>)
    ensures reports == Run(net, rng, senders, transactionCount)
  {
    reports := [];
    var drawn := 0;
    for w := 0 to |senders|
      invariant reports == Run(net, rng, senders[..w], transactionCount)
      invariant drawn == TotalDraws(reports)
    {
      var report := ProcessWallet(net, rng, senders[w], transactionCount, drawn);
      assert senders[..w + 1][..w] == senders[..w];
      reports := reports + [report];
      assert reports[..|reports| - 1] == Run(net, rng, senders[..w], transactionCount);
      drawn := drawn + Draws(report);
    }
    assert senders[..|senders|] == senders;
  }
}

/** What the orchestration of main.js:62-157 guarantees: every wallet is
    visited in order, the balance gate alone decides whether a wallet sends,
    an eligible wallet runs exactly `transactionCount` independent iterations,
    a receipt is looked up only after a successful dispatch, and every
    iteration draws its own fresh recipient. */
module DistributionProperties {
  import opened Oracle
  import opened RetryPolicy
  import opened Confirmation
  import opened BalanceGate
  import opened Distribution

  /** Transfer calls made by a wallet: the dispatch attempts of its iterations. */
  function DispatchCalls(iterations: seq<IterationReport>): nat
  {
    if iterations == [] then 0
    else DispatchCalls(iterations[..|iterations| - 1]) + iterations[|iterations| - 1].dispatch.calls
  }

  function TransferCalls(report: WalletReport): nat
  {
    if report.Processed? then DispatchCalls(report.iterations) else 0
  }

  /** The recipients a wallet generated, in loop order. */
  function Recipients(report: WalletReport): seq<Address>
  {
    if report.Processed? then
      seq(|report.iterations|, (k: nat) requires k < |report.iterations| => report.iterations[k].request.recipient)
    else []
  }

  /** The recipients of a whole run, wallet after wallet. */
  function AllRecipients(reports: seq<WalletReport>): seq<Address>
  {
    if reports == [] then [] else AllRecipients(reports[..|reports| - 1]) + Recipients(reports[|reports| - 1])
  }

  // ---------------------------------------------------------------- the outer loop

  /** No balance, dispatch or lookup failure stops the run: there is one
      report per wallet, in input order, and wallet k is handled by the same
      rule whatever happened to the wallets before it (they only decide where
      its recipients are drawn). */
  lemma {:induction false} RunVisitsEveryWalletInOrder(net: Network, rng: Entropy, senders: seq<Address>, transactionCount: int)
    ensures var reports := Run(net, rng, senders, transactionCount);
      && |reports| == |senders|
      && forall k :: 0 <= k < |senders| ==>
           reports[k].sender == senders[k]
           && reports[k] == Wallet(net, rng, senders[k], transactionCount, TotalDraws(reports[..k]))
  {
    if senders != [] {
      var n := |senders|;
      var prefix := senders[..n - 1];
      var earlier := Run(net, rng, prefix, transactionCount);
      RunVisitsEveryWalletInOrder(net, rng, prefix, transactionCount);
      var reports := Run(net, rng, senders, transactionCount);
      assert reports == earlier + [reports[n - 1]];
      forall k | 0 <= k < n
        ensures reports[k].sender == senders[k]
        ensures reports[k] == Wallet(net, rng, senders[k], transactionCount, TotalDraws(reports[..k]))
      {
        if k < n - 1 {
          assert reports[..k] == earlier[..k];
        } else {
          assert reports[..k] == earlier;
        }
      }
    }
  }

  // ---------------------------------------------------------------- the balance gate

  /** A wallet whose balance query exhausts its retries, or whose balance is
      below MIN_BALANCE, makes no transfer call and draws no recipient; a
      balance of MIN_BALANCE or more makes it proceed. */
  lemma GateDecidesWhetherWalletSends(net: Network, rng: Entropy, sender: Address, transactionCount: int, draw: nat)
    ensures Wallet(net, rng, sender, transactionCount, draw).BalanceUnavailable?
      <==> forall j :: 0 <= j < MAX_RETRIES ==> net.balanceOf(sender)(j).Threw?
    ensures var query := RetryOutcome<nat>(net.balanceOf(sender), MAX_RETRIES).result;
      Wallet(net, rng, sender, transactionCount, draw).InsufficientBalance?
      <==> query.Returned? && query.value < MIN_BALANCE
    ensures var query := RetryOutcome<nat>(net.balanceOf(sender), MAX_RETRIES).result;
      Wallet(net, rng, sender, transactionCount, draw).Processed?
      <==> query.Returned? && MIN_BALANCE <= query.value
    ensures var report := Wallet(net, rng, sender, transactionCount, draw);
      !report.Processed? ==> TransferCalls(report) == 0 && Recipients(report) == []
  {
    UnavailableIffQueryExhausted(net, sender);
    var query := RetryOutcome<nat>(net.balanceOf(sender), MAX_RETRIES);
    assert CheckBalance(net, sender) == (query, GateOn(query.result));
  }

  // ---------------------------------------------------------------- the transfer loop

  /** An eligible wallet runs exactly `transactionCount` iterations (none when
      it is 0 or negative); iteration k makes one fresh draw, one retried
      dispatch of its own request, and looks the receipt up only when that
      dispatch returned a hash. */
  lemma EligibleWalletLoop(net: Network, rng: Entropy, sender: Address, transactionCount: int, draw: nat)
    requires Wallet(net, rng, sender, transactionCount, draw).Processed?
    ensures var its := Wallet(net, rng, sender, transactionCount, draw).iterations;
      && |its| == (if transactionCount <= 0 then 0 else transactionCount)
      && forall k :: 0 <= k < |its| ==>
           && its[k].index == k + 1
           && its[k].request == Transfer(sender, rng.recipient(draw + k), rng.amount(draw + k))
           && its[k].dispatch == RetryOutcome(net.transfer(its[k].request), MAX_RETRIES)
           && (its[k].Sent? <==> its[k].dispatch.result.Returned?)
           && (its[k].Sent? ==> its[k].hash == its[k].dispatch.result.value
                                && (its[k].lookup, its[k].status) == Confirm(net, its[k].hash))
  {
    var its := Wallet(net, rng, sender, transactionCount, draw).iterations;
    assert its == Iterations(net, rng, sender, transactionCount, draw);
    forall k | 0 <= k < |its|
      ensures its[k] == Iteration(net, rng, sender, k + 1, draw + k)
    {
    }
  }

  lemma {:induction false} DispatchCallsBound(iterations: seq<IterationReport>)
    requires forall k :: 0 <= k < |iterations| ==> 1 <= iterations[k].dispatch.calls <= MAX_RETRIES
    ensures |iterations| <= DispatchCalls(iterations) <= |iterations| * MAX_RETRIES
  {
    if iterations != [] {
      DispatchCallsBound(iterations[..|iterations| - 1]);
    }
  }

  /** An eligible wallet makes between one and MAX_RETRIES transfer calls per
      iteration, so at least `transactionCount` and at most
      `transactionCount` * MAX_RETRIES in all. */
  lemma TransferCallsBound(net: Network, rng: Entropy, sender: Address, transactionCount: int, draw: nat)
    requires Wallet(net, rng, sender, transactionCount, draw).Processed?
    ensures var n := Count(transactionCount);
      n <= TransferCalls(Wallet(net, rng, sender, transactionCount, draw)) <= n * MAX_RETRIES
  {
    var its := Wallet(net, rng, sender, transactionCount, draw).iterations;
    EligibleWalletLoop(net, rng, sender, transactionCount, draw);
    DispatchCallsBound(its);
  }

  /** A dispatch that throws on every attempt ends only its own iteration: it
      is reported as failed with the last error after MAX_RETRIES calls, no
      receipt is looked up, and the loop still has all its other iterations. */
  lemma FailedDispatchEndsOnlyItsIteration(net: Network, rng: Entropy, sender: Address, transactionCount: int, draw: nat, k: nat)
    requires Wallet(net, rng, sender, transactionCount, draw).Processed?
    requires k < Count(transactionCount)
    requires var request := Transfer(sender, rng.recipient(draw + k), rng.amount(draw + k));
      forall j :: 0 <= j < MAX_RETRIES ==> net.transfer(request)(j).Threw?
    ensures var its := Wallet(net, rng, sender, transactionCount, draw).iterations;
      var request := Transfer(sender, rng.recipient(draw + k), rng.amount(draw + k));
      && |its| == Count(transactionCount)
      && its[k] == SendFailed(k + 1, request,
                     RetryRun(Thrown(net.transfer(request)(MAX_RETRIES - 1).error), MAX_RETRIES,
                              Warnings(MAX_RETRIES - 1, MAX_RETRIES), MAX_RETRIES - 1))
      && (k + 1 < |its| ==> its[k + 1] == Iteration(net, rng, sender, k + 2, draw + k + 1))
  {
    var its := Wallet(net, rng, sender, transactionCount, draw).iterations;
    var request := Transfer(sender, rng.recipient(draw + k), rng.amount(draw + k));
    RetryExhausted(net.transfer(request), MAX_RETRIES);
    var dispatch := RetryOutcome(net.transfer(request), MAX_RETRIES);
    assert its == Iterations(net, rng, sender, transactionCount, draw);
    assert its[k] == Iteration(net, rng, sender, k + 1, draw + k);
    assert dispatch.result.Thrown?;
    assert its[k] == SendFailed(k + 1, request, dispatch);
  }

  // ---------------------------------------------------------------- fresh recipients

  lemma WalletRecipients(net: Network, rng: Entropy, sender: Address, transactionCount: int, draw: nat)
    ensures var report := Wallet(net, rng, sender, transactionCount, draw);
      && |Recipients(report)| == Draws(report)
      && forall k :: 0 <= k < Draws(report) ==> Recipients(report)[k] == rng.recipient(draw + k)
  {
    var report := Wallet(net, rng, sender, transactionCount, draw);
    if report.Processed? {
      EligibleWalletLoop(net, rng, sender, transactionCount, draw);
    }
  }

  /** Across the whole run, the d-th recipient used is the d-th fresh address
      drawn: no iteration of any wallet reuses another iteration's draw. */
  lemma {:induction false} RecipientsAreFreshDraws(net: Network, rng: Entropy, senders: seq<Address>, transactionCount: int)
    ensures var reports := Run(net, rng, senders, transactionCount);
      && |AllRecipients(reports)| == TotalDraws(reports)
      && forall d :: 0 <= d < TotalDraws(reports) ==> AllRecipients(reports)[d] == rng.recipient(d)
  {
    if senders != [] {
      var n := |senders|;
      var prefix := senders[..n - 1];
      var earlier := Run(net, rng, prefix, transactionCount);
      RecipientsAreFreshDraws(net, rng, prefix, transactionCount);
      var start := TotalDraws(earlier);
      var last := Wallet(net, rng, senders[n - 1], transactionCount, start);
      var reports := Run(net, rng, senders, transactionCount);
      assert reports == earlier + [last];
      assert reports[..|reports| - 1] == earlier;
      WalletRecipients(net, rng, senders[n - 1], transactionCount, start);
      var before, mine := AllRecipients(earlier), Recipients(last);
      var all := AllRecipients(reports);
      assert all == before + mine;
      assert TotalDraws(reports) == start + Draws(last);
      forall d | 0 <= d < TotalDraws(reports)
        ensures all[d] == rng.recipient(d)
      {
        if d < start {
          assert all[d] == before[d];
        } else {
          assert all[d] == mine[d - start];
        }
      }
    }
  }

  /** When address generation never repeats itself, no recipient receives
      twice within or across wallets. */
  lemma NoRecipientReused(net: Network, rng: Entropy, senders: seq<Address>, transactionCount: int)
    requires forall d, e :: d != e ==> rng.recipient(d) != rng.recipient(e)
    ensures var all := AllRecipients(Run(net, rng, senders, transactionCount));
      forall a, b :: 0 <= a < b < |all| ==> all[a] != all[b]
  {
    RecipientsAreFreshDraws(net, rng, senders, transactionCount);
  }

  // ---------------------------------------------------------------- a scenario

  /** Two wallets, one transaction each: the first holds nothing and sends
      nothing; the second holds one whole token and makes exactly one
      iteration with the first fresh recipient, whose dispatch makes between
      one and MAX_RETRIES calls and is followed by a lookup only if it succeeded. */
  lemma TwoWalletScenario(net: Network, rng: Entropy, a: Address, b: Address)
    requires net.balanceOf(a)(0) == Ok(0)
    requires net.balanceOf(b)(0) == Ok(1_000_000_000_000_000_000)
    ensures var reports := Run(net, rng, [a, b], 1);
      && |reports| == 2
      && reports[0] == InsufficientBalance(a, RetryRun(Returned(0), 1, [], 0))
      && TransferCalls(reports[0]) == 0
      && reports[1].Processed? && |reports[1].iterations| == 1
      && reports[1].iterations[0].request == Transfer(b, rng.recipient(0), rng.amount(0))
      && 1 <= TransferCalls(reports[1]) <= MAX_RETRIES
      && (reports[1].iterations[0].Sent? <==> reports[1].iterations[0].dispatch.result.Returned?)
  {
    var reports := Run(net, rng, [a, b], 1);
    ThresholdIsInclusive(net, a, 0);
    ThresholdIsInclusive(net, b, 1_000_000_000_000_000_000);
    assert Warnings(0, MAX_RETRIES) == [];
    RunVisitsEveryWalletInOrder(net, rng, [a, b], 1);
    assert reports[..1] == [reports[0]];
    assert TotalDraws(reports[..1]) == 0;
    EligibleWalletLoop(net, rng, b, 1, 0);
    TransferCallsBound(net, rng, b, 1, 0);
  }
}

# Evm-Autotf token distributor: dispatch-and-confirmation core in Dafny

This project models the control flow of `main.js`. The program takes a list of funding wallets. For each one it reads the ERC-20 token balance. If the wallet holds at least 0.0001 token, it sends `transactionCount` transfers, each to a freshly generated address. After each successful transfer it runs one retried receipt lookup (1 to 5 calls). No balance, dispatch or lookup failure stops the run. Every network call goes through `retry`, a bounded loop of up to 5 attempts.

The network is replaced by scripted oracles (`Oracle.Network`). For each request (an address, a transfer, a transaction hash), the oracle says what the j-th attempt of one retried call returns or throws. Random address generation and the random amount become `Oracle.Entropy`: two streams indexed by a run-wide draw counter. Console output becomes structured reports. `RetryRun` records what `retry` returned or threw, how many calls it made, the warnings it printed (attempt number and limit) and how many times it slept. `IterationReport` and `WalletReport` record what each iteration and each wallet did.

Modules:
- `Oracle` (oracle.dfy): the data model — attempts, errors, receipts, transfer requests, the scripted network and the randomness streams.
- `RetryPolicy` (retry.dfy): the `retry` loop as a method, the function that specifies it, and its counting lemmas.
- `Confirmation` (confirmation.dfy): receipt classification and the retried lookup.
- `BalanceGate` (balance_gate.dfy): the threshold `MIN_BALANCE` = `parseUnits('0.0001', 18)` = 10^14 base units, and the gate decision.
- `Distribution` (distribution.dfy): the iteration, wallet and whole-run specifications, and the methods with loops that are proved equal to them.
- `DistributionProperties` (distribution_properties.dfy): what the run guarantees — ordering, gating, iteration count, call bounds, skip-and-continue on failure, and recipient freshness.

The message at main.js:143 says the transaction is "still pending after multiple retries", but the code reaches it after a single lookup. A `null` receipt is an ordinary return value for `retry` (main.js:21), so `retry` returns it at once (main.js:132-133), and the model reports Pending after that one call. A lookup that throws is retried like any other call, and it is reported as an error only after all 5 attempts fail (`Confirmation.PendingAfterOneLookup`, `Confirmation.LookupExhaustedIsError`).

## Model

| member | source | states |
|---|---|---|
| `RetryPolicy.Retry` | main.js:18-30 | The counted loop returns exactly the run that `RetryOutcome` specifies: result, number of calls, warnings and sleeps. |
| `RetryPolicy.RetryFrom` | main.js:19-29 | If the loop index is below the limit, the run returns or throws after more calls than the index and at most `maxRetries` calls. Otherwise it returns `undefined`. |
| `RetryPolicy.RetryOutcome` | main.js:18-30 | With a positive limit, `retry` makes between 1 and `maxRetries` calls and never returns `undefined`. With `maxRetries <= 0` it makes no call, prints no warning and returns `undefined`. |
| `RetryPolicy.RetryFromShape` | main.js:19-28 | From any loop index: all attempts before the last one threw, and each was followed by one warning and one sleep. The result is the last attempt's value, or its error only when the attempts ran out. |
| `RetryPolicy.RetryShape` | main.js:18-30 | Full behaviour of `retry` with a positive limit. Calls are in 1..maxRetries. The warnings are `(1/max)..(calls-1/max)`, so no warning follows the final failure. Sleeps equal calls - 1. A value comes from the first attempt that did not throw. An error is the unchanged error of attempt `maxRetries`. |
| `RetryPolicy.RetrySucceedsAfterFailures` | main.js:18-28 | If k < maxRetries attempts fail and the next one succeeds, the value is returned after exactly k+1 calls, with k warnings and k sleeps. |
| `RetryPolicy.RetryExhausted` | main.js:19-27 | If every attempt fails, there are exactly maxRetries calls and maxRetries-1 warnings. The last error is rethrown unchanged. |
| `RetryPolicy.RetryThrowsIffAllFail` | main.js:19-27 | `retry` throws if and only if all of its maxRetries attempts throw. |
| `RetryPolicy.RetryFromNoFurtherCalls` | main.js:19-23 | From any index, the run depends only on the attempts it reports making. |
| `RetryPolicy.RetryNoFurtherCalls` | main.js:18-23 | Two operations that agree on the attempts `retry` made give the same run, so `retry` calls nothing after the first non-throwing return. |
| `Confirmation.Classify` | main.js:133-150 | The status is Confirmed, with the receipt's block number, if and only if a receipt with status 1 was returned. It is Reverted if and only if a receipt with any other status was returned. It is Pending if and only if `null` (or `undefined`) came back. It is an error, carrying the rethrown error, if and only if the lookup threw. |
| `Confirmation.PendingAfterOneLookup` | main.js:130-146 | If the first lookup returns `null`, the result is Pending after exactly one call, with no warning. |
| `Confirmation.LookupExhaustedIsError` | main.js:130-151 | A lookup that throws on every attempt makes MAX_RETRIES calls and reports an error carrying the last error. |
| `Confirmation.ConfirmedIffFirstReceiptSucceeded` | main.js:132-139 | If the first attempt that did not throw is attempt k and it returned a receipt, the lookup made k+1 calls. The status is Confirmed with that receipt's block if its status is 1, and Reverted otherwise. |
| `BalanceGate.GateOn` | main.js:71-89 | The wallet is skipped as unavailable if and only if the query threw. It is skipped as insufficient if and only if the balance is below 10^14. It is eligible if and only if the balance is 10^14 or more. |
| `BalanceGate.UnavailableIffQueryExhausted` | main.js:70-82 | The balance check fails if and only if all 5 queries throw, and in that case exactly 5 queries were made. |
| `BalanceGate.ThresholdIsInclusive` | main.js:84-89 | If the first query answers, one call is made. A balance below 10^14 is insufficient, and exactly 10^14 or more is eligible. |
| `Distribution.RunIteration` | main.js:92-151 | One iteration makes one draw and one retried dispatch. It looks up the receipt only after a successful dispatch. It equals `Iteration`. |
| `Distribution.ProcessWallet` | main.js:63-156 | The balance gate runs, then the `for i := 1..transactionCount` loop runs. Iteration k uses draw `draw + k`. The result equals `Wallet`. |
| `Distribution.Distribute` | main.js:62-157 | The outer loop over wallets equals `Run`. Each wallet starts drawing where the earlier ones stopped. |
| `DistributionProperties.RunVisitsEveryWalletInOrder` | main.js:62-157 | There is one report per wallet, in input order. Wallet k is handled by the same rule whatever happened to the earlier wallets. |
| `DistributionProperties.GateDecidesWhetherWalletSends` | main.js:70-91 | A wallet is unavailable if and only if all 5 balance queries throw. It is insufficient if and only if the balance is below 10^14, and processed if and only if the balance is at least 10^14. An unprocessed wallet makes no transfer call and generates no recipient. |
| `DistributionProperties.EligibleWalletLoop` | main.js:91-151 | An eligible wallet runs exactly `transactionCount` iterations, or none if the count is ≤ 0. Iteration k has index k+1, its own fresh draw and its own retried dispatch. It is Sent if and only if the dispatch returned. Only then is the receipt of the returned hash looked up. |
| `DistributionProperties.DispatchCallsBound` | main.js:103-107 | If every iteration makes 1..MAX_RETRIES transfer calls, n iterations make between n and n·MAX_RETRIES calls. |
| `DistributionProperties.TransferCallsBound` | main.js:15 | An eligible wallet makes between `transactionCount` and `transactionCount` × 5 transfer calls. |
| `DistributionProperties.FailedDispatchEndsOnlyItsIteration` | main.js:103-113 | A dispatch that throws on all 5 attempts makes iteration k a failed send, carrying the last error, with no lookup. The loop still has all its iterations, and iteration k+1 is unaffected. |
| `DistributionProperties.WalletRecipients` | main.js:91-93 | A wallet's recipients are consecutive fresh draws from its starting draw. |
| `DistributionProperties.RecipientsAreFreshDraws` | main.js:62-93 | Across the whole run, the i-th recipient used is the i-th generated address. |
| `DistributionProperties.NoRecipientReused` | main.js:92-93 | If address generation never repeats, no recipient is used twice, within a wallet or across wallets. |
| `DistributionProperties.TwoWalletScenario` | main.js:62-152 | With two wallets and one transaction each: a wallet with balance 0 is skipped after one query and sends nothing. A wallet with 1 token makes exactly one iteration with the first fresh recipient and 1..5 transfer calls. It has a lookup only if the dispatch succeeded. |

## Left out

- The ethers provider, contract and wallet objects (`JsonRpcProvider`, `Contract`, `Wallet`, `balanceOf`, `transfer`, `getTransactionReceipt`) are foreign network code. Their answers are oracle outcomes, and addresses and hashes are opaque strings.
- Deriving a wallet address from a private key is foreign code, so the wallets are given by their addresses.
- `Wallet.createRandom` and the random amount are modelled only as streams (`Oracle.Entropy`). The amount is `Math.random() * (5 - 10) + 15` rounded with `toFixed(6)` and scaled with `parseUnits`. This is floating point and library string conversion, so the amount is an opaque number of base units. As written, the formula gives values in (10, 15], not 15 to 20.
- `sleep` is recorded only as a count in `RetryRun`. Wall-clock waiting is not modelled, so the delays (`RETRY_DELAY` = 1000 ms and the 10 ms pause after dispatch) are not modelled either.
- The console lines, colours and `formatUnits` are replaced by structured reports. The retry warning keeps its attempt number and limit.
- The interactive prompts, the chain catalogue, reading `privateKeys.json`, `displayHeader` and `process.exit` are I/O.
- Two paths end the whole run early, and the model has neither. First, `new ethers.Wallet(privateKey, provider)` (main.js:63) runs outside any `try`. A malformed key throws into the top-level `catch` (main.js:163-166), which exits with status 1, so later wallets are never visited. Second, a call may reject with `null` or `undefined`. Then `${error.message}` throws inside the `catch` at main.js:110 or main.js:149 and ends the run the same way. `Oracle.Error` always carries a message, and wallets are given by their addresses, so the model cannot express either path. Its guarantee that every wallet is visited holds only when neither path occurs.
- The modules under `src/` are not part of this model. The imported `checkBalance` is never used.
- `BalanceGate.GateOn` requires that the balance query did not return `undefined`. In the source, that value would make `BigInt` throw outside any `try` and end the process. It happens only when `maxRetries <= 0`, and `main` always uses MAX_RETRIES = 5. `Distribution.Iteration` treats the same case as impossible for a dispatch.
- The scripted network answers deterministically: the j-th attempt for the same request always gets the same answer. A network whose answers depend on wall-clock time is represented only through this per-request, per-attempt script. One visible effect: a sender listed twice gets the same balance script on both visits, although in the source the second `balanceOf` comes after the first visit's transfers.

/** The outside world of the token distributor, reduced to scripted answers.
    Every network call of main.js (balanceOf, transfer, getTransactionReceipt)
    is an oracle that, for a given request and a given attempt number, either
    returns a value or throws. Random recipient generation and the random
    amount are streams indexed by how many iterations have drawn from them. */
module Oracle {

  datatype Option<+T> = None | Some(value: T)

  /** What a rejected network promise carries; only its message is reported. */
  datatype Error = Error(message: string)

  /** One call of a network operation: it returns a value or it throws. */
  datatype Attempt<+T> = Ok(value: T) | Threw(error: Error)

  type Address = string
  type TxHash = string

  /** A transaction receipt: `status` is 1 for success, another number for a
      revert, or null (None) when the node does not report one. */
  datatype Receipt = Receipt(status: Option<int>, blockNumber: nat)

  /** The arguments of one `transfer` call, in token base units. */
  datatype Transfer = Transfer(sender: Address, recipient: Address, amount: nat)

  /** The scripted network: `balanceOf(a)(j)` is what the j-th attempt (from 0)
      of one retried balance query for address `a` yields, and likewise for
      transfers and receipt lookups. */
  datatype Network = Network(
    balanceOf: Address -> nat -> Attempt<nat>,
    transfer: Transfer -> nat -> Attempt<TxHash>,
    receipt: TxHash -> nat -> Attempt<Option<Receipt>>)

  /** Randomness: the d-th fresh recipient and the d-th random amount. */
  datatype Entropy = Entropy(recipient: nat -> Address, amount: nat -> nat)
}

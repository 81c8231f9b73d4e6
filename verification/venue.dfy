/** The external swap venue, seen only through the contract the settlement relies on.
    Its pools, order book, pricing and instruction encoding are not modelled: a venue is
    any function that, given the swap request and the ledger at the moment of the call,
    either rejects or fills it with some output amount. */
module Venue {
  import opened Wrappers
  import opened Numeric
  import opened Ledger

  /** The swap request built by the settlement: spend exactly `amountIn` from `source`,
      deliver at least `minAmountOut` into `destination`, authorised by `owner`. */
  datatype SwapCall = SwapCall(source: Pubkey, destination: Pubkey, owner: Pubkey, amountIn: u64, minAmountOut: u64)

  /** The venue's answer: no fill at all, or a fill delivering `amountOut` tokens. */
  datatype Fill = Rejected | Filled(amountOut: nat)

  type Venue = (SwapCall, Ledger) -> Fill

  /** Applies the venue's answer to the ledger: the source is debited by exactly `amountIn`
      and the destination credited with the venue's output. The swap fails when the venue
      rejects, when the source cannot pay `amountIn`, when the output is below the requested
      minimum, or when the destination balance would pass u64. */
  function Swap(l: Ledger, call: SwapCall, venue: Venue): (r: Option<Ledger>)
    requires call.source in l && call.destination in l
    ensures venue(call, l).Rejected? ==> r.None?
    ensures l[call.source] < call.amountIn ==> r.None?
    ensures r.Some? ==> venue(call, l).Filled? && venue(call, l).amountOut >= call.minAmountOut
    ensures r.Some? ==> r.value.Keys == l.Keys
    ensures r.Some? ==> forall k :: k in l && k != call.source && k != call.destination ==> r.value[k] == l[k]
    ensures r.Some? && call.source != call.destination ==>
      && r.value[call.source] + call.amountIn == l[call.source]
      && r.value[call.destination] == l[call.destination] + venue(call, l).amountOut
    ensures r.Some? && call.source == call.destination ==>
      r.value[call.source] + call.amountIn == l[call.source] + venue(call, l).amountOut
  {
    match venue(call, l)
    case Rejected => None
    case Filled(out) =>
      if l[call.source] < call.amountIn || out < call.minAmountOut then None
      else
        var debited := l[call.source := l[call.source] - call.amountIn];
        if debited[call.destination] + out > U64_MAX then None
        else Some(debited[call.destination := debited[call.destination] + out])
  }

  /** The ledger total changes only by what the swap takes in and what it pays out. */
  lemma SwapTotal(l: Ledger, call: SwapCall, venue: Venue)
    requires call.source in l && call.destination in l
    requires Swap(l, call, venue).Some?
    ensures Total(Swap(l, call, venue).value) + call.amountIn == Total(l) + venue(call, l).amountOut
  {
    var out := venue(call, l).amountOut;
    var debited := l[call.source := l[call.source] - call.amountIn];
    var credited := debited[call.destination := debited[call.destination] + out];
    assert Swap(l, call, venue).value == credited;
    TotalDebitCredit(l, call.source, call.destination, call.amountIn, out);
    assert Total(credited) + call.amountIn == Total(l) + out;
  }

  /** With a zero minimum output, any fill the accounts can absorb goes through, even one
      that delivers nothing: the request sets no slippage floor. */
  lemma ZeroFloorAcceptsAnyFill(l: Ledger, call: SwapCall, venue: Venue)
    requires call.source in l && call.destination in l && call.source != call.destination
    requires call.minAmountOut == 0
    requires venue(call, l).Filled?
    requires call.amountIn <= l[call.source]
    requires l[call.destination] + venue(call, l).amountOut <= U64_MAX
    ensures Swap(l, call, venue).Some?
  {
  }
}

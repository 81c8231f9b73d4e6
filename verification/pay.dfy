/** The `pay` program's settlement instruction `complete_payment`: expiry check, 1% fee
    on the input, fee transfer to the treasury, swap of the remainder through the venue,
    and the `PaymentCompleted` event. */
module Pay {
  import opened Wrappers
  import opened Numeric
  import opened Ledger
  import opened Venue

  /** The fee rate in basis points: 100 of 10000, that is 1%. */
  const SWAP_FEE: u64 := 100
  const BPS_DENOMINATOR: u64 := 10000

  /** The largest input whose fee product `pay_in_amount * SWAP_FEE` still fits in u64. */
  const MAX_FEE_INPUT: u64 := U64_MAX / 100

  /** The payment request signed by the payer. `payOutAmount` is informational only. */
  datatype Payment = Payment(
    orderId: string,
    payInAmount: u64,
    payOutAmount: u64,
    merchant: Pubkey,
    expiry: i64)

  /** The identities among the instruction's accounts that the settlement reads or moves
      tokens through; the venue's own accounts are passed through untouched and left out. */
  datatype Accounts = Accounts(
    payer: Pubkey,
    merchant: Pubkey,
    treasury: Pubkey,
    payInToken: Pubkey,
    payOutToken: Pubkey,
    fromAta: Pubkey,
    toAta: Pubkey,
    treasuryAta: Pubkey)

  /** The event emitted once a payment has been settled. */
  datatype PaymentCompleted = PaymentCompleted(
    orderId: string,
    payInToken: Pubkey,
    payOutToken: Pubkey,
    payInAmount: u64,
    payOutAmount: u64,
    payer: Pubkey,
    merchant: Pubkey,
    treasury: Pubkey)

  /** Why the instruction aborts. `PaymentExpired` is the program's own error code; the
      others are the runtime panicking on overflow, the token program refusing the fee
      transfer, and the venue's swap failing. */
  datatype Error =
    | PaymentExpired
    | ArithmeticOverflow
    | TransferFailed(cause: TokenError)
    | SwapFailed

  /** A cross-program invocation issued by the instruction. */
  datatype Invocation =
    | TokenTransfer(from: Pubkey, to: Pubkey, authority: Pubkey, amount: u64)
    | VenueSwap(call: SwapCall)

  /** What the instruction body did: aborted with an error after issuing some invocations,
      or completed with a new ledger, the invocations it issued and its one event. */
  datatype Outcome =
    | Aborted(error: Error, issued: seq<Invocation>)
    | Completed(ledger: Ledger, issued: seq<Invocation>, event: PaymentCompleted)

  /** The ledger and event log a transaction leaves behind once the runtime has applied
      the instruction atomically. */
  datatype Committed = Committed(ledger: Ledger, events: seq<PaymentCompleted>, error: Option<Error>)

  /** The fee on an input amount, `pay_in_amount * SWAP_FEE / 10000` in u64 arithmetic,
      or `None` where the product overflows and the program panics. */
  function Fee(payInAmount: u64): (r: Option<u64>)
    ensures r.Some? <==> payInAmount <= MAX_FEE_INPUT
    ensures r.Some? ==> r.value * 100 <= payInAmount < (r.value + 1) * 100
    ensures r.Some? ==> r.value == payInAmount / 100 && r.value <= payInAmount
  {
    match CheckedMul(payInAmount, SWAP_FEE)
    case None => None
    case Some(product) =>
      OnePercent(payInAmount);
      Some(product / BPS_DENOMINATOR)
  }

  /** Taking 100 basis points and truncating is the same as taking a hundredth and truncating. */
  lemma OnePercent(x: nat)
    ensures x * 100 / 10000 == x / 100
    ensures (x / 100) * 100 <= x < (x / 100 + 1) * 100
  {
  }

  /** The event for a completed payment: the request's order, amounts and merchant, the
      accounts' mints, payer and treasury token account. */
  function EventFor(payment: Payment, accts: Accounts): PaymentCompleted
  {
    PaymentCompleted(
      payment.orderId,
      accts.payInToken,
      accts.payOutToken,
      payment.payInAmount,
      payment.payOutAmount,
      accts.payer,
      payment.merchant,
      accts.treasuryAta)
  }

  /** The swap request the instruction builds for a given fee: the rest of the input, from
      the source account `fromAta` into the destination account `toAta`, with no output floor. */
  function SwapCallFor(payment: Payment, accts: Accounts, fee: u64): SwapCall
    requires fee <= payment.payInAmount
  {
    SwapCall(accts.fromAta, accts.toAta, accts.payer, payment.payInAmount - fee, 0)
  }

  /** The token accounts the instruction requires to exist (the account validation done
      before the body runs). */
  predicate AccountsExist(l: Ledger, accts: Accounts)
  {
    accts.fromAta in l && accts.toAta in l && accts.treasuryAta in l
  }

  /** The body of `complete_payment`, run at clock value `now` against venue `venue`. */
  function CompletePayment(l: Ledger, accts: Accounts, payment: Payment, now: i64, venue: Venue): (r: Outcome)
    requires AccountsExist(l, accts)
    ensures r.Aborted? && r.error == PaymentExpired <==> now > payment.expiry
    ensures now > payment.expiry ==> r.issued == []
    ensures r.Completed? ==> now <= payment.expiry && payment.payInAmount <= MAX_FEE_INPUT
    ensures r.Completed? ==>
      var fee := payment.payInAmount / 100;
      r.issued == [TokenTransfer(accts.fromAta, accts.treasuryAta, accts.payer, fee),
                   VenueSwap(SwapCall(accts.fromAta, accts.toAta, accts.payer, payment.payInAmount - fee, 0))]
    ensures r.Completed? ==> r.ledger.Keys == l.Keys
    ensures r.Completed? ==>
      forall k :: k in l && k != accts.fromAta && k != accts.toAta && k != accts.treasuryAta ==> r.ledger[k] == l[k]
    ensures r.Completed? ==> r.event.payOutAmount == payment.payOutAmount && r.event.merchant == payment.merchant
  {
    if now > payment.expiry then Aborted(PaymentExpired, [])
    else match Fee(payment.payInAmount)
      case None => Aborted(ArithmeticOverflow, [])
      case Some(fee) =>
        var feeTransfer := TokenTransfer(accts.fromAta, accts.treasuryAta, accts.payer, fee);
        match Transfer(l, accts.fromAta, accts.treasuryAta, fee)
        case Err(e) => Aborted(TransferFailed(e), [feeTransfer])
        case Ok(afterFee) =>
          var call := SwapCallFor(payment, accts, fee);
          match Swap(afterFee, call, venue)
          case None => Aborted(SwapFailed, [feeTransfer, VenueSwap(call)])
          case Some(afterSwap) => Completed(afterSwap, [feeTransfer, VenueSwap(call)], EventFor(payment, accts))
  }

  /** The transaction as the runtime commits it: all of the instruction's effects, or none. */
  function Execute(l: Ledger, accts: Accounts, payment: Payment, now: i64, venue: Venue): (t: Committed)
    requires AccountsExist(l, accts)
    ensures t.error.Some? ==> t.ledger == l && t.events == []
    ensures t.error.None? <==> |t.events| == 1
    ensures t.error == Some(PaymentExpired) <==> now > payment.expiry
    ensures
      var r := CompletePayment(l, accts, payment, now, venue);
      && (r.Aborted? ==> t == Committed(l, [], Some(r.error)))
      && (r.Completed? ==> t == Committed(r.ledger, [r.event], None))
  {
    match CompletePayment(l, accts, payment, now, venue)
    case Aborted(e, _) => Committed(l, [], Some(e))
    case Completed(settled, _, event) => Committed(settled, [event], None)
  }
}

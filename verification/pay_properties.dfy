/** Properties of `complete_payment`: when it settles, what it moves, in which order, what
    it reports, and that every failure leaves the ledger as it was. */
module PayProperties {
  import opened Wrappers
  import opened Numeric
  import opened Ledger
  import opened Venue
  import opened Pay

  /** The three token accounts the settlement touches are pairwise different. */
  predicate Distinct(accts: Accounts)
  {
    && accts.fromAta != accts.toAta
    && accts.fromAta != accts.treasuryAta
    && accts.toAta != accts.treasuryAta
  }

  /** The ledger right after the fee transfer, for distinct accounts. */
  function AfterFee(l: Ledger, accts: Accounts, fee: u64): Ledger
    requires AccountsExist(l, accts) && fee <= l[accts.fromAta]
    requires l[accts.treasuryAta] + fee <= U64_MAX
  {
    l[accts.fromAta := l[accts.fromAta] - fee][accts.treasuryAta := l[accts.treasuryAta] + fee]
  }

  /** The conditions under which a payment settles, stated without running the instruction:
      not expired, fee product within u64, the source holds the whole input, the treasury
      can absorb the fee, the venue fills the remainder and the destination can absorb it. */
  predicate SettlesWhen(l: Ledger, accts: Accounts, payment: Payment, now: i64, venue: Venue)
    requires AccountsExist(l, accts)
  {
    var fee := payment.payInAmount / 100;
    && now <= payment.expiry
    && payment.payInAmount <= MAX_FEE_INPUT
    && payment.payInAmount <= l[accts.fromAta]
    && l[accts.treasuryAta] + fee <= U64_MAX
    && var call := SwapCall(accts.fromAta, accts.toAta, accts.payer, payment.payInAmount - fee, 0);
       var fill := venue(call, AfterFee(l, accts, fee));
       fill.Filled? && l[accts.toAta] + fill.amountOut <= U64_MAX
  }

  /** For distinct accounts, the instruction completes exactly when `SettlesWhen` holds. */
  lemma CompletesIff(l: Ledger, accts: Accounts, payment: Payment, now: i64, venue: Venue)
    requires AccountsExist(l, accts) && Distinct(accts)
    ensures CompletePayment(l, accts, payment, now, venue).Completed? <==> SettlesWhen(l, accts, payment, now, venue)
  {
  }

  /** A completed settlement, for distinct accounts: the source pays the whole input, the
      treasury gains exactly the fee, the destination gains whatever the venue delivered,
      and no other account changes. */
  lemma SettledBalances(l: Ledger, accts: Accounts, payment: Payment, now: i64, venue: Venue)
    requires AccountsExist(l, accts) && Distinct(accts)
    requires CompletePayment(l, accts, payment, now, venue).Completed?
    ensures
      var fee := payment.payInAmount / 100;
      var call := SwapCall(accts.fromAta, accts.toAta, accts.payer, payment.payInAmount - fee, 0);
      var out := venue(call, AfterFee(l, accts, fee)).amountOut;
      CompletePayment(l, accts, payment, now, venue).ledger
        == l[accts.fromAta := l[accts.fromAta] - payment.payInAmount]
            [accts.treasuryAta := l[accts.treasuryAta] + fee]
            [accts.toAta := l[accts.toAta] + out]
  {
    var fee := payment.payInAmount / 100;
    assert Fee(payment.payInAmount) == Some(fee);
    var afterFee := Transfer(l, accts.fromAta, accts.treasuryAta, fee).value;
    assert afterFee == AfterFee(l, accts, fee);
  }

  /** Across a completed settlement the ledger total falls by what went into the swap and
      rises by what came out; the fee itself only moves between accounts. */
  lemma SettledTotal(l: Ledger, accts: Accounts, payment: Payment, now: i64, venue: Venue)
    requires AccountsExist(l, accts)
    requires CompletePayment(l, accts, payment, now, venue).Completed?
    ensures
      var fee := payment.payInAmount / 100;
      var call := SwapCall(accts.fromAta, accts.toAta, accts.payer, payment.payInAmount - fee, 0);
      var afterFee := Transfer(l, accts.fromAta, accts.treasuryAta, fee).value;
      Total(CompletePayment(l, accts, payment, now, venue).ledger) + call.amountIn
        == Total(l) + venue(call, afterFee).amountOut
  {
    var fee := payment.payInAmount / 100;
    assert Fee(payment.payInAmount) == Some(fee);
    var afterFee := Transfer(l, accts.fromAta, accts.treasuryAta, fee).value;
    var call := SwapCallFor(payment, accts, fee);
    TransferConserves(l, accts.fromAta, accts.treasuryAta, fee);
    SwapTotal(afterFee, call, venue);
  }

  /** The fee is split off the input before the swap and nothing is lost to the subtraction:
      fee plus swap input is exactly the payment's input. */
  lemma FeeSplitsInput(l: Ledger, accts: Accounts, payment: Payment, now: i64, venue: Venue)
    requires AccountsExist(l, accts)
    requires CompletePayment(l, accts, payment, now, venue).Completed?
    ensures
      var issued := CompletePayment(l, accts, payment, now, venue).issued;
      && issued[0].TokenTransfer? && issued[1].VenueSwap?
      && issued[0].amount + issued[1].call.amountIn == payment.payInAmount
      && issued[0].amount * 100 <= payment.payInAmount < (issued[0].amount + 1) * 100
  {
  }

  /** What was issued before an abort: nothing for an expired request or an overflowing fee,
      only the fee transfer when that transfer fails, both calls when the swap fails. */
  lemma IssuedBeforeAbort(l: Ledger, accts: Accounts, payment: Payment, now: i64, venue: Venue)
    requires AccountsExist(l, accts)
    ensures
      var r := CompletePayment(l, accts, payment, now, venue);
      var fee := payment.payInAmount / 100;
      var feeTransfer := TokenTransfer(accts.fromAta, accts.treasuryAta, accts.payer, fee);
      && (r.Aborted? && (r.error == PaymentExpired || r.error == ArithmeticOverflow) ==> r.issued == [])
      && (r.Aborted? && r.error.TransferFailed? ==> r.issued == [feeTransfer])
      && (r.Aborted? && r.error == SwapFailed ==>
            r.issued == [feeTransfer, VenueSwap(SwapCall(accts.fromAta, accts.toAta, accts.payer, payment.payInAmount - fee, 0))])
  {
  }

  /** The fee product overflowing aborts the instruction before any transfer, and is the
      only reason for `ArithmeticOverflow`: no other step of the instruction can overflow. */
  lemma OverflowAbortsIff(l: Ledger, accts: Accounts, payment: Payment, now: i64, venue: Venue)
    requires AccountsExist(l, accts)
    ensures
      var r := CompletePayment(l, accts, payment, now, venue);
      r == Aborted(ArithmeticOverflow, []) <==> now <= payment.expiry && payment.payInAmount > MAX_FEE_INPUT
  {
  }

  /** The expiry check is strict: a request whose clock value equals its expiry settles
      whenever the rest of the settlement can. */
  lemma ExpiryIsInclusive(l: Ledger, accts: Accounts, payment: Payment, venue: Venue)
    requires AccountsExist(l, accts) && Distinct(accts)
    requires SettlesWhen(l, accts, payment, payment.expiry, venue)
    ensures CompletePayment(l, accts, payment, payment.expiry, venue).Completed?
  {
  }

  /** For any accounts, aliased or not, the clock value matters only through the expiry check:
      every `now` up to and including the expiry gives the same outcome as `now == expiry`,
      and none of them aborts with `PaymentExpired`. */
  lemma ClockMattersOnlyForExpiry(l: Ledger, accts: Accounts, payment: Payment, now: i64, venue: Venue)
    requires AccountsExist(l, accts)
    requires now <= payment.expiry
    ensures CompletePayment(l, accts, payment, now, venue) == CompletePayment(l, accts, payment, payment.expiry, venue)
    ensures var r := CompletePayment(l, accts, payment, payment.expiry, venue); r.Aborted? ==> r.error != PaymentExpired
  {
  }

  /** When the treasury token account is the payer's source account, the fee transfer is the
      token program's self-transfer no-op: the settlement still completes when the rest can,
      the payer is charged only the swap input and the fee is never collected. */
  lemma TreasuryIsSource(l: Ledger, accts: Accounts, payment: Payment, now: i64, venue: Venue)
    requires AccountsExist(l, accts)
    requires accts.treasuryAta == accts.fromAta && accts.fromAta != accts.toAta
    requires CompletePayment(l, accts, payment, now, venue).Completed?
    ensures
      var fee := payment.payInAmount / 100;
      var call := SwapCall(accts.fromAta, accts.toAta, accts.payer, payment.payInAmount - fee, 0);
      var r := CompletePayment(l, accts, payment, now, venue);
      && r.ledger[accts.fromAta] == l[accts.fromAta] - (payment.payInAmount - fee)
      && r.ledger[accts.toAta] == l[accts.toAta] + venue(call, l).amountOut
  {
    assert Fee(payment.payInAmount) == Some(payment.payInAmount / 100);
  }

  /** Replaying an expired request gives `PaymentExpired` again and changes nothing either time. */
  lemma ExpiredReplay(l: Ledger, accts: Accounts, payment: Payment, now: i64, venue: Venue)
    requires AccountsExist(l, accts)
    requires now > payment.expiry
    ensures
      var first := Execute(l, accts, payment, now, venue);
      var second := Execute(first.ledger, accts, payment, now, venue);
      first == second == Committed(l, [], Some(PaymentExpired))
  {
  }

  /** A swap failure undoes the fee transfer that already succeeded: the committed ledger is
      the one at entry, not the one after the fee moved, and no event is logged. */
  lemma SwapFailureRollsBackFee(l: Ledger, accts: Accounts, payment: Payment, now: i64, venue: Venue)
    requires AccountsExist(l, accts)
    requires var r := CompletePayment(l, accts, payment, now, venue); r.Aborted? && r.error == SwapFailed
    ensures Transfer(l, accts.fromAta, accts.treasuryAta, payment.payInAmount / 100).Ok?
    ensures Execute(l, accts, payment, now, venue) == Committed(l, [], Some(SwapFailed))
  {
  }

  /** A refused fee transfer aborts the whole instruction: the swap is never issued, the
      committed ledger is the one at entry and no event is logged. */
  lemma FeeTransferFailureRollsBack(l: Ledger, accts: Accounts, payment: Payment, now: i64, venue: Venue)
    requires AccountsExist(l, accts)
    requires now <= payment.expiry && payment.payInAmount <= MAX_FEE_INPUT
    requires Transfer(l, accts.fromAta, accts.treasuryAta, payment.payInAmount / 100).Err?
    ensures
      var e := Transfer(l, accts.fromAta, accts.treasuryAta, payment.payInAmount / 100).error;
      Execute(l, accts, payment, now, venue) == Committed(l, [], Some(TransferFailed(e)))
  {
    assert Fee(payment.payInAmount) == Some(payment.payInAmount / 100);
  }

  /** A fee product beyond u64 aborts the whole instruction with the entry ledger and no event. */
  lemma OverflowRollsBack(l: Ledger, accts: Accounts, payment: Payment, now: i64, venue: Venue)
    requires AccountsExist(l, accts)
    requires now <= payment.expiry && payment.payInAmount > MAX_FEE_INPUT
    ensures Execute(l, accts, payment, now, venue) == Committed(l, [], Some(ArithmeticOverflow))
  {
  }

  /** The event is fixed by the request and the accounts alone: two venues that both let the
      payment settle, whatever they deliver, produce the same event, and its
      `payOutAmount` is the request's declared amount, not a measured one. */
  lemma EventIgnoresVenue(l: Ledger, accts: Accounts, payment: Payment, now: i64, v1: Venue, v2: Venue)
    requires AccountsExist(l, accts)
    requires CompletePayment(l, accts, payment, now, v1).Completed?
    requires CompletePayment(l, accts, payment, now, v2).Completed?
    ensures CompletePayment(l, accts, payment, now, v1).event == CompletePayment(l, accts, payment, now, v2).event
    ensures Execute(l, accts, payment, now, v1).events == [EventFor(payment, accts)]
  {
  }

  /** Only `fromAta`, `toAta` and `treasuryAta` can change: every transfer goes to the treasury
      token account, every swap delivers to `toAta`, and no other balance changes, so the
      `merchant` account itself is never credited. */
  lemma NoOtherAccountCredited(l: Ledger, accts: Accounts, payment: Payment, now: i64, venue: Venue, k: Pubkey)
    requires AccountsExist(l, accts)
    requires k in l && k != accts.fromAta && k != accts.toAta && k != accts.treasuryAta
    ensures Execute(l, accts, payment, now, venue).ledger[k] == l[k]
    ensures forall i | i in CompletePayment(l, accts, payment, now, venue).issued ::
      (i.TokenTransfer? ==> i.to == accts.treasuryAta) && (i.VenueSwap? ==> i.call.destination == accts.toAta)
  {
  }

  /** With no output floor a fill of nothing still settles: the payer pays the full input and
      the destination gains nothing. */
  lemma EmptyFillSettles(l: Ledger, accts: Accounts, payment: Payment, now: i64, venue: Venue)
    requires AccountsExist(l, accts) && Distinct(accts)
    requires now <= payment.expiry && payment.payInAmount <= MAX_FEE_INPUT
    requires payment.payInAmount <= l[accts.fromAta]
    requires l[accts.treasuryAta] + payment.payInAmount / 100 <= U64_MAX
    requires forall c, m :: venue(c, m) == Filled(0)
    ensures CompletePayment(l, accts, payment, now, venue).Completed?
    ensures CompletePayment(l, accts, payment, now, venue).ledger[accts.toAta] == l[accts.toAta]
  {
  }

  /** Fee values at the edges: truncation to zero for tiny inputs, 1% of 10000, and the
      last input whose fee product still fits in u64. */
  lemma FeeExamples()
    ensures Fee(1) == Some(0) && Fee(99) == Some(0) && Fee(100) == Some(1)
    ensures Fee(10000) == Some(100)
    ensures Fee(MAX_FEE_INPUT) == Some(1844674407370955)
    ensures Fee(MAX_FEE_INPUT + 1) == None
  {
  }

  /** An account key made of one repeated byte, for the worked example. */
  function KeyOf(b: bv8): Pubkey
  {
    seq(32, i => b)
  }

  /** A worked settlement: 10000 units in, fee 100 to the treasury, 9900 into the swap, a
      venue that delivers 9500, and an event that still reports the declared 9800. */
  lemma TenThousandExample()
    ensures
      var payer, merchant, fromAta, toAta, treasuryAta := KeyOf(1), KeyOf(2), KeyOf(3), KeyOf(4), KeyOf(5);
      var accts := Accounts(payer, KeyOf(6), KeyOf(7), KeyOf(8), KeyOf(9), fromAta, toAta, treasuryAta);
      var payment := Payment("order-1", 10000, 9800, merchant, 1000);
      var l := map[fromAta := 25000, toAta := 0, treasuryAta := 7];
      var r := CompletePayment(l, accts, payment, 1000, (c: SwapCall, m: Ledger) => Filled(9500));
      && r.Completed?
      && r.issued == [TokenTransfer(fromAta, treasuryAta, payer, 100), VenueSwap(SwapCall(fromAta, toAta, payer, 9900, 0))]
      && r.ledger == map[fromAta := 15000, toAta := 9500, treasuryAta := 107]
      && r.event.payOutAmount == 9800 && r.event.merchant == merchant && r.event.treasury == treasuryAta
  {
    var payer, merchant, fromAta, toAta, treasuryAta := KeyOf(1), KeyOf(2), KeyOf(3), KeyOf(4), KeyOf(5);
    assert fromAta[0] == 3 && toAta[0] == 4 && treasuryAta[0] == 5;
    assert Fee(10000) == Some(100);
  }
}

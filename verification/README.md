# `pay`: the `complete_payment` settlement instruction

This project models the settlement instruction `complete_payment` of the Solana program
`pay` (programs/pay/src/lib.rs) and proves properties of it in Dafny. The instruction
checks the payment request's expiry against the clock. It takes a 1% fee
(`SWAP_FEE = 100` basis points) from the payer's input, and it transfers that fee from the
payer's source token account (`from_ata`) to the treasury token account
(`treasury_ata`). It then swaps the rest of the input through a Raydium pool into the
destination token account `to_ata` with a minimum output of zero. Last, it emits a
`PaymentCompleted` event. A Solana instruction is all-or-nothing: any error discards every
effect of the instruction.

Modules, one per concern:

- `Wrappers` (wrappers.dfy): `Option` and `Result`.
- `Numeric` (numeric.dfy): `u64` and `i64` as subset types of `int`, and the overflow-checked u64
  multiplication.
- `Ledger` (ledger.dfy): token balances as `map<Pubkey, u64>`, their ghost sum `Total`, and the
  token program's `Transfer`.
- `Venue` (venue.dfy): the swap venue as an opaque function. Given the swap request and the ledger,
  it rejects or fills with some output amount. `Swap` applies such a fill: it debits exactly the
  input, credits the output, and may fail.
- `Pay` (pay.dfy): `Payment`, `Accounts`, `PaymentCompleted`, `Error`, the fee, the instruction
  body `CompletePayment`, and `Execute`. `CompletePayment` returns the outcome together with
  the cross-program invocations it issued, in order. `Execute` is the committed transaction:
  either the full effect plus one event, or the entry ledger with no event.
- `PayProperties` (pay_properties.dfy): lemmas relating the instruction to a declarative
  statement of when it settles, what it moves and what it reports.

Things the model keeps exactly as the code has them:

- The fee is charged on the input, before the swap.
- No transfer is ever made to the `merchant` account. The swap output stays in `to_ata`, whoever owns it.
- The event reports the request's declared `pay_out_amount`, not the amount the swap delivered.
  Its `merchant` comes from the request, not from the `merchant` account, and its `treasury`
  field is the treasury *token account* key.

The code has no fee taken after the swap, no measurement of the swap output by comparing
balances before and after the call, and no payout to the merchant. The model has none of
them either.

The u64 product `pay_in_amount * SWAP_FEE` (lib.rs:33) is modelled as a checked multiplication.
Anchor's standard workspace build profile turns overflow checks on, so an overflow panics and
aborts the instruction (`Error.ArithmeticOverflow`) instead of wrapping. Payments above
`MAX_FEE_INPUT = 184467440737095516` units therefore can never settle. The subtraction
`pay_in_amount - fee_amount` (lib.rs:48) is proved never to underflow. The clock value
(`Clock::get()?.unix_timestamp`) is the parameter `now: i64`.

## Model

| member | source | states |
|---|---|---|
| `Pay.Fee` | programs/pay/src/lib.rs:33 | The fee is the input's 1% rounded down: `fee*100 <= pay_in < (fee+1)*100`, so `fee <= pay_in`. It is defined exactly when `pay_in * 100` fits in u64, that is `pay_in <= MAX_FEE_INPUT`. |
| `PayProperties.FeeExamples` | programs/pay/src/lib.rs:33 | Fee of 1 and of 99 is 0, of 100 is 1, of 10000 is 100. The largest input with a fee is `MAX_FEE_INPUT`; the next input overflows. |
| `PayProperties.OverflowAbortsIff` | programs/pay/src/lib.rs:29-33 | The instruction aborts with `ArithmeticOverflow` and no invocation exactly when the request is not expired and the fee product exceeds u64. |
| `Ledger.Transfer` | programs/pay/src/lib.rs:36-46 | The token transfer succeeds iff the source holds the amount and the destination can absorb it (a self-transfer needs only the first). It then debits the source and credits the destination by exactly the amount, or changes nothing for a self-transfer. No other balance changes. |
| `Ledger.TransferConserves` | programs/pay/src/lib.rs:36-46 | A successful transfer leaves the ledger total unchanged. |
| `Venue.Swap` | programs/pay/src/lib.rs:51-97 | A swap succeeds only on a fill meeting the minimum output. It then debits exactly the input from the source and credits the venue's output to the destination; when source and destination are one account, its balance changes by output minus input. No other balance changes. A rejection, or a source short of the input, fails it. |
| `Venue.SwapTotal` | programs/pay/src/lib.rs:51-97 | A successful swap changes the ledger total by output minus input. |
| `Venue.ZeroFloorAcceptsAnyFill` | programs/pay/src/lib.rs:71-72 | With `min_out = 0`, any fill that the accounts can hold succeeds, whatever its size. |
| `Pay.CompletePayment` | programs/pay/src/lib.rs:18-115 | Aborts with `PaymentExpired` iff `now > expiry`, and then issues nothing. On success: not expired; fee within u64; issued exactly [fee transfer `from_ata`→`treasury_ata` of `pay_in/100`, then swap `from_ata`→`to_ata` of `pay_in - pay_in/100` with `min_out` 0]. Only the three token accounts change. The event carries the declared `pay_out_amount` and the request's merchant. |
| `Pay.Execute` | programs/pay/src/lib.rs:18-115 | Every abort of the instruction body commits the entry ledger with no event and reports the body's own error (expiry, overflow, refused fee transfer or failed swap). A completed body commits its settled ledger and exactly its one event. The committed error is `PaymentExpired` iff `now > expiry`. |
| `PayProperties.CompletesIff` | programs/pay/src/lib.rs:29-97 | For distinct token accounts, settlement completes iff all of these hold: not expired; fee product within u64; source holds the whole input; treasury can absorb the fee; the venue fills the remainder; and the destination can absorb the output. |
| `PayProperties.SettledBalances` | programs/pay/src/lib.rs:33-97 | After a settlement over distinct accounts, the source has paid the whole input. The treasury has gained exactly the fee, the destination has gained the venue's output, and nothing else has changed. |
| `PayProperties.SettledTotal` | programs/pay/src/lib.rs:36-97 | Across a settlement the ledger total changes by swap output minus swap input. The fee only moves between accounts. |
| `PayProperties.FeeSplitsInput` | programs/pay/src/lib.rs:33-71 | The fee transfer's amount plus the swap's input equals `pay_in_amount`. The fee is that input's 1% rounded down. |
| `PayProperties.IssuedBeforeAbort` | programs/pay/src/lib.rs:29-97 | Expiry and fee overflow abort before any invocation. A failed fee transfer aborts with only that transfer issued. A failed swap aborts after both the fee transfer and the swap were issued. |
| `PayProperties.ExpiryIsInclusive` | programs/pay/src/lib.rs:29-31 | A request with `now == expiry` settles whenever the other settlement conditions hold. |
| `PayProperties.ExpiredReplay` | programs/pay/src/lib.rs:29-31 | Replaying an expired request twice yields `PaymentExpired` both times with the ledger unchanged and no event. |
| `PayProperties.SwapFailureRollsBackFee` | programs/pay/src/lib.rs:36-97 | When the swap fails, the fee transfer had succeeded. The committed ledger is still the entry ledger, with no event. |
| `PayProperties.FeeTransferFailureRollsBack` | programs/pay/src/lib.rs:36-46 | A refused fee transfer aborts the instruction with that transfer's error, the entry ledger and no event. |
| `PayProperties.OverflowRollsBack` | programs/pay/src/lib.rs:33 | An overflowing fee product aborts the instruction with `ArithmeticOverflow`, the entry ledger and no event. |
| `PayProperties.ClockMattersOnlyForExpiry` | programs/pay/src/lib.rs:29-31 | For any accounts, every `now <= expiry` gives the same outcome as `now == expiry`, and that outcome is never the expiry abort. |
| `PayProperties.TreasuryIsSource` | programs/pay/src/lib.rs:36-71 | When `treasury_ata` is `from_ata`, a completed settlement charges the payer only the swap input: the fee transfer is a self-transfer and no fee is collected. |
| `PayProperties.EventIgnoresVenue` | programs/pay/src/lib.rs:100-112 | The event does not depend on what the venue delivered: it is the request's order, amounts and merchant, the mints, the payer and the treasury token account. |
| `PayProperties.NoOtherAccountCredited` | programs/pay/src/lib.rs:36-97 | Every transfer issued goes to `treasury_ata` and every swap delivers to `to_ata`. No account other than `from_ata`, `to_ata` and `treasury_ata` changes, so the `merchant` account itself is never credited. |
| `PayProperties.EmptyFillSettles` | programs/pay/src/lib.rs:71-72 | A venue that delivers nothing still lets the payment settle. The payer loses the input and the destination gains nothing. |
| `PayProperties.TenThousandExample` | programs/pay/src/lib.rs:18-115 | Input 10000 gives fee 100 to the treasury and 9900 into the swap. With a venue delivering 9500, the event still reports the declared 9800. |

## Left out

- The Raydium instruction encoding (`amm_instruction::swap_base_in`): amm_instruction is not part of this model. The venue is an opaque function, and pool pricing, the order book and slippage belong to it.
- Venue.Swap: the venue's own pool vault balances are not in the ledger, so a swap's input leaves the ledger and its output enters it. This is why the ledger total changes across a swap.
- The account list and Anchor constraints (lib.rs:127-206). The model keeps only the identities the instruction uses. Deserialising `Account<TokenAccount>` becomes the requirement `Pay.AccountsExist`.
- Ledger.Transfer: the token program's mint-match, frozen-account, delegate and ownership checks are not modelled. The ledger records balances only, not owners, so a fee transfer refused because `payer` neither owns nor is a delegate of `from_ata` cannot arise. Nothing in the program checks that ownership beforehand: `from_ata` carries only `#[account(mut)]` (lib.rs:158-159), and `Signer` (lib.rs:130) checks only the signature.
- PayProperties.CompletesIff and PayProperties.IssuedBeforeAbort assume `payer` owns `from_ata`. Without that ownership the program aborts at the fee transfer with one invocation issued, and the model can show no such abort.
- `Clock::get()` and its possible failure: replaced by the `now` parameter.
- `invoke` and the cross-program-invocation runtime, `declare_id!`, lamport fees and compute limits: runtime behaviour, not program logic.
- Pay.Fee: assumes the build's overflow checks are on, so an overflowing product aborts. The workspace Cargo.toml is not part of this model, and a build without overflow checks would wrap instead.
- PayProperties.CompletesIff: stated only for pairwise-distinct `from_ata`, `to_ata` and `treasury_ata`. The program does not require the three accounts to differ (lib.rs:158-165). When two of them coincide, the token program's self-transfer no-op and the swap's combined debit and credit change both the success conditions and the closed-form balances case by case. For aliased accounts, the result is described by `Pay.CompletePayment`'s own contract, `PayProperties.SettledTotal`, `PayProperties.ClockMattersOnlyForExpiry` and, for a treasury account that is also the source, `PayProperties.TreasuryIsSource`.
- PayProperties.SettledBalances: the closed-form balances are stated only for pairwise-distinct `from_ata`, `to_ata` and `treasury_ata`, for the same reason as `CompletesIff`.
- Ownership of `to_ata`: lib.rs:161-162 puts no owner constraint on it, so it may be the payer's account or, for instance, the merchant's own token account. The model treats it as an identity only and says nothing about who receives the swap output.
- PayProperties.ExpiryIsInclusive: stated for distinct accounts, through the conditions of `CompletesIff`. `PayProperties.ClockMattersOnlyForExpiry` states the inclusive check for every account aliasing.
- PayProperties.EmptyFillSettles: stated for distinct accounts, for the same reason as `CompletesIff`.
- tests/pay.ts: its only test has an empty body.

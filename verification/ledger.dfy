/** Token accounts and the token program's `transfer`, as the settlement uses them.
    A ledger maps each token account's key to its balance; balances are u64 like SPL token amounts. */
module Ledger {
  import opened Wrappers
  import opened Numeric

  /** A 32-byte account address. */
  type Pubkey = k: seq<bv8> | |k| == 32 witness seq(32, i => 0 as bv8)

  type Ledger = map<Pubkey, u64>

  /** Why the token program refuses a transfer. */
  datatype TokenError = InsufficientFunds | Overflow

  /** The sum of every balance in the ledger. */
  ghost function Total(l: Ledger): nat
    decreases |l|
  {
    if |l| == 0 then 0
    else
      var k: Pubkey :| k in l;
      RemoveShrinks(l, k);
      l[k] + Total(l - {k})
  }

  lemma RemoveShrinks(l: Ledger, k: Pubkey)
    requires k in l
    ensures |l - {k}| == |l| - 1
  {
  }

  /** The sum does not depend on which account is taken out first. */
  lemma {:induction false} TotalRemove(l: Ledger, k: Pubkey)
    requires k in l
    ensures Total(l) == l[k] + Total(l - {k})
    decreases |l|
  {
    assert |l| != 0;
    var j: Pubkey :| j in l && Total(l) == l[j] + Total(l - {j});
    if j != k {
      var rest := l - {j} - {k};
      assert rest == l - {k} - {j};
      assert k in l - {j} && j in l - {k};
      RemoveShrinks(l, j);
      RemoveShrinks(l, k);
      TotalRemove(l - {j}, k);
      TotalRemove(l - {k}, j);
      assert (l - {j})[k] == l[k] && (l - {k})[j] == l[j];
    }
  }

  /** Overwriting one balance changes the sum by exactly the difference. */
  lemma TotalUpdate(l: Ledger, k: Pubkey, v: u64)
    requires k in l
    ensures Total(l[k := v]) + l[k] == Total(l) + v
  {
    TotalRemove(l, k);
    TotalRemove(l[k := v], k);
    assert l[k := v] - {k} == l - {k};
  }

  /** Debiting one account and then crediting another (or the same) changes the sum by
      the credit less the debit. */
  lemma TotalDebitCredit(l: Ledger, src: Pubkey, dst: Pubkey, debit: u64, credit: u64)
    requires src in l && dst in l && debit <= l[src]
    requires l[src := l[src] - debit][dst] + credit <= U64_MAX
    ensures
      var debited := l[src := l[src] - debit];
      Total(debited[dst := debited[dst] + credit]) + debit == Total(l) + credit
  {
    var debited := l[src := l[src] - debit];
    TotalUpdate(l, src, l[src] - debit);
    TotalUpdate(debited, dst, debited[dst] + credit);
  }

  /** The token program's transfer of `amount` from `from` to `to`, authorised by the
      source's owner: refused when the source holds less than `amount`; a transfer to the
      same account changes nothing; refused when the destination would pass u64. */
  function Transfer(l: Ledger, from: Pubkey, to: Pubkey, amount: u64): (r: Result<Ledger, TokenError>)
    requires from in l && to in l
    ensures r.Ok? <==> amount <= l[from] && (from == to || l[to] + amount <= U64_MAX)
    ensures l[from] < amount ==> r == Err(InsufficientFunds)
    ensures amount <= l[from] && from != to && l[to] + amount > U64_MAX ==> r == Err(Overflow)
    ensures r.Ok? ==> r.value.Keys == l.Keys
    ensures r.Ok? ==> forall k :: k in l && k != from && k != to ==> r.value[k] == l[k]
    ensures r.Ok? && from != to ==> r.value[from] + amount == l[from] && r.value[to] == l[to] + amount
    ensures r.Ok? && from == to ==> r.value == l
  {
    if l[from] < amount then Err(InsufficientFunds)
    else if from == to then Ok(l)
    else if l[to] + amount > U64_MAX then Err(Overflow)
    else Ok(l[from := l[from] - amount][to := l[to] + amount])
  }

  /** A transfer moves tokens between accounts and neither creates nor destroys any. */
  lemma TransferConserves(l: Ledger, from: Pubkey, to: Pubkey, amount: u64)
    requires from in l && to in l
    requires Transfer(l, from, to, amount).Ok?
    ensures Total(Transfer(l, from, to, amount).value) == Total(l)
  {
    if from != to {
      TotalDebitCredit(l, from, to, amount, amount);
    }
  }
}

/** The balance slider's integer arithmetic over the two channel volumes
    (percentages read from and written to the mixer). Every operand here is
    non-negative, so Rust's truncating `/` and Dafny's `/` agree. */
module Balance {

  lemma DivBounds(a: nat, b: nat)
    requires b > 0
    ensures (a / b) * b <= a < (a / b + 1) * b
  {
  }

  lemma DivMonotone(a: nat, c: nat, b: nat)
    requires b > 0 && a <= c * b
    ensures a / b <= c
  {
    DivBounds(a, b);
  }

  lemma MulMonotone(a: nat, b: nat, c: nat)
    requires b <= c
    ensures a * b <= a * c
  {
  }

  /** `balance_percent`: the right channel's share of the total, in whole
      percent, rounded down; 0 when both channels are silent. The `u8`
      conversion cannot fail because the share never exceeds 100. */
  function BalancePercent(left: nat, right: nat): (p: nat)
    ensures left == 0 && right == 0 ==> p == 0
    ensures left + right > 0 ==> p * (left + right) <= right * 100 < (p + 1) * (left + right)
    ensures p <= 100
  {
    if left == 0 && right == 0 then 0
    else
      var p := right * 100 / (left + right);
      DivBounds(right * 100, left + right);
      DivMonotone(right * 100, 100, left + right);
      p
  }

  /** `set_balance`: split the current total so that the right channel gets
      `balance` percent of it (rounded down) and the left one the rest.
      `balance` is a `u8`; the slider only produces 0..=100, and only then
      is the left channel non-negative. */
  function SetBalance(left: nat, right: nat, balance: nat): (r: (int, int))
    requires balance < 256
    ensures r.0 + r.1 == left + right
    ensures r.1 >= 0 && r.1 * 100 <= (left + right) * balance < (r.1 + 1) * 100
    ensures balance <= 100 ==> r.0 >= 0
  {
    var total := left + right;
    var newRight := total * balance / 100;
    DivBounds(total * balance, 100);
    if balance <= 100 then
      MulMonotone(total, balance, 100);
      DivMonotone(total * balance, total, 100);
      (total - newRight, newRight)
    else
      (total - newRight, newRight)
  }

  /** The `BalanceChanged` arm. The guard reads the cached volumes
      (`left`, `right`): while their balance reads 0 the message is ignored.
      Otherwise `set_balance` first re-reads the mixer (`update_balance`),
      which yields `freshLeft`/`freshRight`, and re-splits that fresh total. */
  function BalanceChanged(left: nat, right: nat, freshLeft: nat, freshRight: nat, balance: nat): (r: (int, int))
    requires balance < 256
    ensures BalancePercent(left, right) == 0 ==> r == (left, right)
    ensures BalancePercent(left, right) != 0 ==> r.0 + r.1 == freshLeft + freshRight
    ensures BalancePercent(left, right) != 0 ==>
              r.1 >= 0 && r.1 * 100 <= (freshLeft + freshRight) * balance < (r.1 + 1) * 100
    ensures BalancePercent(left, right) != 0 && balance <= 100 ==> r.0 >= 0
  {
    if BalancePercent(left, right) == 0 then (left, right) else SetBalance(freshLeft, freshRight, balance)
  }
}

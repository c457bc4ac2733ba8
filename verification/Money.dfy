/** Decimal amounts and their storage in a NUMERIC(20, 8) column.

    The unit is 10^-8.  An amount in memory is an exact decimal, here a `real` number of units;
    a stored amount is a whole number of units, here an `int`. */
module Money {

  /** Rounding to the declared scale, ties away from zero (section 8.1.2 of the PostgreSQL documentation). */
  function Quantise(x: real): int {
    if x >= 0.0 then (x + 0.5).Floor else -((0.5 - x).Floor)
  }

  /** What a stored, sufficient balance loses when `amount` is subtracted and the result is stored. */
  function DebitUnits(amount: real): int {
    -((0.5 - amount).Floor)
  }

  /** What a stored, non-negative balance gains when `amount` is added and the result is stored. */
  function CreditUnits(amount: real): int {
    (amount + 0.5).Floor
  }

  /** The smallest stored balance that covers `amount`. */
  function Ceiling(amount: real): int {
    -((-amount).Floor)
  }

  /** `amount` has at most eight fractional digits. */
  predicate Whole(amount: real) {
    amount == amount.Floor as real
  }

  /** `amount` is an odd multiple of half a unit. */
  predicate Tie(amount: real) {
    amount == amount.Floor as real + 0.5
  }

  /** Quantise(x) is the only integer within half a unit of x that is not the tie nearer to zero. */
  lemma QuantiseIsNearest(x: real, n: int)
    ensures n == Quantise(x) <==>
            && -0.5 <= n as real - x <= 0.5
            && (x >= 0.0 ==> n as real - x > -0.5)
            && (x < 0.0 ==> n as real - x < 0.5)
  {
    var f := if x >= 0.0 then (x + 0.5).Floor else (0.5 - x).Floor;
    if x >= 0.0 {
      assert f as real <= x + 0.5 < f as real + 1.0;
    } else {
      assert f as real <= 0.5 - x < f as real + 1.0;
    }
  }

  /** The loss on a debit depends on the amount alone, and never makes the balance negative. */
  lemma DebitIsExact(balance: int, amount: real)
    requires balance as real >= amount
    ensures Quantise(balance as real - amount) == balance - DebitUnits(amount) >= 0
  {
    var d := (0.5 - amount).Floor;
    assert d as real <= 0.5 - amount < d as real + 1.0;
    QuantiseIsNearest(balance as real - amount, balance + d);
  }

  /** The gain on a credit depends on the amount alone. */
  lemma CreditIsExact(balance: int, amount: real)
    requires balance >= 0 && amount > 0.0
    ensures Quantise(balance as real + amount) == balance + CreditUnits(amount)
  {
    var c := (amount + 0.5).Floor;
    assert c as real <= amount + 0.5 < c as real + 1.0;
    QuantiseIsNearest(balance as real + amount, balance + c);
  }

  /** Below a half the credit rounds down, from a half on it rounds up. */
  lemma CreditRounds(amount: real)
    ensures CreditUnits(amount) == amount.Floor + if amount - amount.Floor as real < 0.5 then 0 else 1
  {
    var f := amount.Floor;
    if amount - f as real < 0.5 {
      assert (amount + 0.5).Floor == f;
    } else {
      assert (amount + 0.5).Floor == f + 1;
    }
  }

  /** Up to a half the debit rounds down, above a half it rounds up. */
  lemma DebitRounds(amount: real)
    ensures DebitUnits(amount) == amount.Floor + if amount - amount.Floor as real <= 0.5 then 0 else 1
  {
    var f := amount.Floor;
    if amount - f as real <= 0.5 {
      assert (0.5 - amount).Floor == -f;
    } else {
      assert (0.5 - amount).Floor == -f - 1;
    }
  }

  /** Credit and debit of one amount differ by one unit on a tie, and not otherwise. */
  lemma CreditMinusDebit(amount: real)
    ensures CreditUnits(amount) - DebitUnits(amount) == if Tie(amount) then 1 else 0
    ensures Whole(amount) ==> CreditUnits(amount) == DebitUnits(amount) == amount.Floor
  {
    CreditRounds(amount);
    DebitRounds(amount);
  }

  /** A debit takes no more than the smallest balance that covers it. */
  lemma DebitWithinCeiling(amount: real)
    requires amount >= 0.0
    ensures 0 <= DebitUnits(amount) <= Ceiling(amount)
  {
    DebitRounds(amount);
    if !Whole(amount) {
      assert (-amount).Floor == -amount.Floor - 1;
    }
  }

  /** A stored balance covers `amount` exactly when it reaches the ceiling. */
  lemma CoversCeiling(balance: int, amount: real)
    ensures balance as real >= amount <==> balance >= Ceiling(amount)
  {
    var u := (-amount).Floor;
    assert u as real <= -amount < u as real + 1.0;
  }

  /** A debit and a credit of one positive amount, both stored, leave the sum of the two balances
      unchanged, except that a tie adds exactly one unit of 10^-8. */
  lemma RoundingDrift(source: int, dest: int, amount: real)
    requires source as real >= amount > 0.0 && dest >= 0
    ensures Quantise(source as real - amount) + Quantise(dest as real + amount)
            == source + dest + if Tie(amount) then 1 else 0
  {
    DebitIsExact(source, amount);
    CreditIsExact(dest, amount);
    CreditMinusDebit(amount);
  }
}

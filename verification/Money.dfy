/**
 Order arithmetic in floating point. Every operation is taken as exact but for a relative error of at most
 2^-53, the unit roundoff of a double; `rd` is any such rounding.
 */
module Money {

  /** The unit roundoff. */
  const U: real := 1.0 / 9_007_199_254_740_992.0

  ghost predicate Rounds(rd: real -> real) {
    forall x | x >= 0.0 :: x - U * x <= rd(x) <= x + U * x
  }

  /** A price in cents and a quantity. */
  datatype Priced = Priced(cents: nat, quantity: nat)

  /** A decimal price as a number. */
  function Price(rd: real -> real, cents: nat): real {
    rd(cents as real / 100.0)
  }

  function LineValue(rd: real -> real, line: Priced): real {
    rd(Price(rd, line.cents) * line.quantity as real)
  }

  /** The subtotal's running sum, from zero. */
  function Sum(rd: real -> real, lines: seq<Priced>): real {
    if lines == [] then 0.0 else rd(Sum(rd, lines[..|lines| - 1]) + LineValue(rd, lines[|lines| - 1]))
  }

  /** The cents that toFixed(2) writes (section 21.1.3.3 of ECMA-262). */
  function Fixed2(x: real): int {
    (100.0 * x + 0.5).Floor
  }

  /** They are the closest number of cents, and the larger one of two equally close ones. */
  lemma Fixed2IsClosest(x: real, n: int)
    ensures var distance := (m: int) => if m as real >= 100.0 * x then m as real - 100.0 * x else 100.0 * x - m as real;
            distance(Fixed2(x)) < distance(n) || (distance(Fixed2(x)) == distance(n) && n <= Fixed2(x))
  {
    var m := Fixed2(x);
    if n < m {
      assert n as real <= m as real - 1.0;
    } else if n > m {
      assert n as real >= m as real + 1.0;
    }
  }

  function Exact(lines: seq<Priced>): nat {
    if lines == [] then 0 else Exact(lines[..|lines| - 1]) + lines[|lines| - 1].cents * lines[|lines| - 1].quantity
  }

  /** The largest order the bound covers, in whole currency units: ten times what the column holds. */
  const LIMIT: real := 100_000_000_000.0

  const MAX_LINES := 200

  /** The columns hold ten digits before the point. */
  const COLUMN_CENTS := 1_000_000_000_000

  function Value(cents: nat): real {
    cents as real / 100.0
  }

  lemma Scaled(low: real, p: real, high: real, q: real)
    requires low <= p <= high && q >= 0.0
    ensures low * q <= p * q <= high * q
  {
  }

  lemma Distributes(u: real, x: real, q: real)
    ensures (x - u * x) * q == x * q - u * (x * q)
    ensures (x + u * x) * q == x * q + u * (x * q)
  {
  }

  /** A relative error is not changed by an exact factor. */
  lemma ScaledError(u: real, x: real, p: real, q: real, product: real)
    requires x - u * x <= p <= x + u * x && q >= 0.0 && product == x * q
    ensures product - u * product <= p * q <= product + u * product
  {
    Scaled(x - u * x, p, x + u * x, q);
    Distributes(u, x, q);
  }

  lemma ProductAsReal(a: nat, b: nat)
    ensures (a * b) as real == a as real * b as real
  {
  }

  lemma DividedProduct(a: real, q: real)
    ensures a * q / 100.0 == (a / 100.0) * q
  {
  }

  lemma ValueTimes(cents: nat, quantity: nat)
    ensures Value(cents * quantity) == Value(cents) * quantity as real
  {
    ProductAsReal(cents, quantity);
    DividedProduct(cents as real, quantity as real);
  }

  lemma PriceError(rd: real -> real, cents: nat)
    requires Rounds(rd)
    ensures Value(cents) - U * Value(cents) <= Price(rd, cents) <= Value(cents) + U * Value(cents)
  {
    assert Value(cents) >= 0.0;
  }

  lemma ProductError(rd: real -> real, cents: nat, quantity: nat)
    requires Rounds(rd)
    ensures var exact := Value(cents * quantity);
            exact - U * exact <= Price(rd, cents) * quantity as real <= exact + U * exact
  {
    hide Value, Price, Rounds;
    PriceError(rd, cents);
    ValueTimes(cents, quantity);
    ScaledError(U, Value(cents), Price(rd, cents), quantity as real, Value(cents * quantity));
  }

  /** A line's value is off by at most three roundoffs. */
  lemma LineError(rd: real -> real, line: Priced)
    requires Rounds(rd)
    ensures var exact := Value(line.cents * line.quantity);
            exact - 3.0 * U * exact <= LineValue(rd, line) <= exact + 3.0 * U * exact
  {
    ProductError(rd, line.cents, line.quantity);
    var exact, product := Value(line.cents * line.quantity), Price(rd, line.cents) * line.quantity as real;
    assert product >= exact - U * exact >= 0.0;
    assert product - U * product <= LineValue(rd, line) <= product + U * product;
  }

  /** The running sum after n lines is off by three roundoffs of itself, and two of the limit for each line. */
  ghost predicate SumOk(sum: real, exact: real, n: nat) {
    && sum >= 0.0
    && (exact <= LIMIT ==> exact - 3.0 * U * exact - 2.0 * U * LIMIT * n as real <= sum
                           <= exact + 3.0 * U * exact + 2.0 * U * LIMIT * n as real)
    && (exact > LIMIT ==> sum >= LIMIT - 3.0 * U * LIMIT - 2.0 * U * LIMIT * n as real)
  }

  lemma AddLine(rd: real -> real, sum: real, exact: real, n: nat, value: real, more: real)
    requires Rounds(rd) && SumOk(sum, exact, n) && n < MAX_LINES && exact >= 0.0 && more >= 0.0
    requires more - 3.0 * U * more <= value <= more + 3.0 * U * more
    ensures SumOk(rd(sum + value), exact + more, n + 1)
  {
    assert n as real <= 199.0;
    var added := sum + value;
    assert added >= 0.0 && added - U * added <= rd(added) <= added + U * added;
    if exact + more <= LIMIT {
      assert U * added <= 2.0 * U * LIMIT;
    } else if exact <= LIMIT {
      assert added >= LIMIT - 3.0 * U * LIMIT - 2.0 * U * LIMIT * n as real;
    }
  }

  lemma ValueAdds(a: nat, b: nat)
    ensures Value(a + b) == Value(a) + Value(b)
  {
  }

  lemma {:induction false} SumError(rd: real -> real, lines: seq<Priced>)
    requires Rounds(rd) && |lines| <= MAX_LINES
    ensures SumOk(Sum(rd, lines), Value(Exact(lines)), |lines|)
  {
    if lines != [] {
      var before, line := lines[..|lines| - 1], lines[|lines| - 1];
      SumError(rd, before);
      LineError(rd, line);
      ValueAdds(Exact(before), line.cents * line.quantity);
      AddLine(rd, Sum(rd, before), Value(Exact(before)), |before|, LineValue(rd, line), Value(line.cents * line.quantity));
    }
  }

  /** Within half a cent, rounding finds the cents. */
  lemma HalfACent(x: real, cents: nat)
    requires Value(cents) - 0.005 <= x < Value(cents) + 0.005
    ensures Fixed2(x) == cents
  {
  }

  /** Below the limit a line total is the price times the quantity. */
  lemma LineTotalIsExact(rd: real -> real, line: Priced)
    requires Rounds(rd) && Value(line.cents * line.quantity) <= LIMIT
    ensures Fixed2(LineValue(rd, line)) == line.cents * line.quantity
  {
    LineError(rd, line);
    HalfACent(LineValue(rd, line), line.cents * line.quantity);
  }

  /** Below the limit the subtotal of up to 200 lines is the exact sum. */
  lemma SubtotalIsExact(rd: real -> real, lines: seq<Priced>)
    requires Rounds(rd) && |lines| <= MAX_LINES && Value(Exact(lines)) <= LIMIT
    ensures Fixed2(Sum(rd, lines)) == Exact(lines)
  {
    SumError(rd, lines);
    assert |lines| as real <= 200.0;
    HalfACent(Sum(rd, lines), Exact(lines));
  }

  lemma {:induction false} LineIsPart(lines: seq<Priced>, i: nat)
    requires i < |lines|
    ensures lines[i].cents * lines[i].quantity <= Exact(lines)
  {
    if i < |lines| - 1 {
      LineIsPart(lines[..|lines| - 1], i);
    }
  }

  /**
   A subtotal that the column can hold is exact: so for every order that is stored, subtotal and line totals
   are the exact cents, and the subtotal is the sum of the line totals.
   */
  lemma StoredMoneyIsExact(rd: real -> real, lines: seq<Priced>)
    requires Rounds(rd) && |lines| <= MAX_LINES && Fixed2(Sum(rd, lines)) < COLUMN_CENTS
    ensures Fixed2(Sum(rd, lines)) == Exact(lines)
    ensures forall i | 0 <= i < |lines| :: Fixed2(LineValue(rd, lines[i])) == lines[i].cents * lines[i].quantity
  {
    SumError(rd, lines);
    assert |lines| as real <= 200.0;
    SubtotalIsExact(rd, lines);
    forall i | 0 <= i < |lines| ensures Fixed2(LineValue(rd, lines[i])) == lines[i].cents * lines[i].quantity {
      LineIsPart(lines, i);
      LineTotalIsExact(rd, lines[i]);
    }
  }
}

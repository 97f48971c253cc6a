/** How the channel charge of a transistor is divided between source and drain. */
module ChargePartition {
  import opened Common

  function Cube(x: real): real {
    x * x * x
  }

  function GateNumerator(s: real, d: real): real {
    2.0 * (s * s + d * d + s * d)
  }

  function DrainNumerator(s: real, d: real): real {
    2.0 * (2.0 * Cube(s) + 4.0 * s * s * d + 6.0 * s * d * d + 3.0 * Cube(d))
  }

  function Square(x: real): real {
    Times(x, x)
  }

  datatype Charges = Charges(gate: real, drain: real)

  /** Charges below this sum of terms are reported as zero. */
  const NEGLIGIBLE := 1e-12

  /** The charges of a gate of the given capacitance, from the source and drain charge terms. */
  function Calculate(capacitance: real, s: real, d: real): Charges {
    var sum := s + d;
    if sum < NEGLIGIBLE then Charges(0.0, 0.0)
    else
      SquarePositive(sum);
      Charges(capacitance * GateNumerator(s, d) / (3.0 * sum),
              capacitance * DrainNumerator(s, d) / (15.0 * Square(sum)))
  }

  lemma SquarePositive(x: real)
    requires x > 0.0
    ensures Square(x) > 0.0
  {
    TimesSign(x, x);
  }

  /** The two drain numerators, with the ends exchanged, make up the gate numerator. */
  lemma NumeratorsAdd(s: real, d: real)
    ensures DrainNumerator(s, d) + DrainNumerator(d, s) == 5.0 * Times(s + d, GateNumerator(s, d))
  {}

  /** The drain numerator is between two and three fifths of that whole. */
  lemma NumeratorBounds(s: real, d: real)
    requires s >= 0.0 && d >= 0.0
    ensures 2.0 * Times(s + d, GateNumerator(s, d)) <= DrainNumerator(s, d) <= 3.0 * Times(s + d, GateNumerator(s, d))
  {}

  /** The gate numerator lies between 3/2 and 2 squares of the sum. */
  lemma GateBounds(s: real, d: real)
    requires s >= 0.0 && d >= 0.0
    ensures 1.5 * Square(s + d) <= GateNumerator(s, d) <= 2.0 * Square(s + d)
  {
    TimesSign(s - d, s - d);
    assert GateNumerator(s, d) - 1.5 * Square(s + d) == 0.5 * ((s - d) * (s - d));
    TimesSign(s, d);
    assert 2.0 * Square(s + d) - GateNumerator(s, d) == 2.0 * (s * d);
  }

  lemma QuotientLaw(n: real, m: real)
    requires m > 0.0
    ensures n / m * m == n
  {}

  lemma Compare(x: real, y: real, m: real)
    requires m > 0.0
    ensures x * m <= y * m <==> x <= y
    ensures x * m == y * m <==> x == y
  {}

  /** Both charges over the common denominator 15 * sum^2. */
  lemma CommonDenominator(c: real, s: real, d: real)
    requires s + d >= NEGLIGIBLE
    ensures var q := Calculate(c, s, d);
            && Times(q.gate, 15.0 * Square(s + d)) == Times(c, 5.0 * Times(s + d, GateNumerator(s, d)))
            && Times(q.drain, 15.0 * Square(s + d)) == Times(c, DrainNumerator(s, d))
            && q.gate * (3.0 * (s + d)) == c * GateNumerator(s, d)
  {
    hide GateNumerator, DrainNumerator;
    var t, g := s + d, GateNumerator(s, d);
    SquarePositive(t);
    QuotientLaw(c * g, 3.0 * t);
    QuotientLaw(c * DrainNumerator(s, d), 15.0 * Square(t));
    var q := c * g / (3.0 * t);
    assert q * (15.0 * Square(t)) == q * (3.0 * t) * (5.0 * t);
    assert c * g * (5.0 * t) == c * (5.0 * Times(t, g));
  }

  /** Nothing is lost: what the drain takes and what it would take with the ends exchanged,
      that is what the source takes, is the whole gate charge. */
  lemma PartitionIsComplete(c: real, s: real, d: real)
    ensures Calculate(c, s, d).drain + Calculate(c, d, s).drain == Calculate(c, s, d).gate
    ensures Calculate(c, s, d).gate == Calculate(c, d, s).gate
  {
    if s + d >= NEGLIGIBLE {
      hide Calculate, DrainNumerator, Square;
      assert GateNumerator(s, d) == GateNumerator(d, s);
      hide GateNumerator;
      var m := 15.0 * Square(s + d);
      SquarePositive(s + d);
      CommonDenominator(c, s, d);
      CommonDenominator(c, d, s);
      NumeratorsAdd(s, d);
      assert s + d == d + s;
      var x, y, g := Calculate(c, s, d).drain, Calculate(c, d, s).drain, Calculate(c, s, d).gate;
      assert c * (DrainNumerator(s, d) + DrainNumerator(d, s)) == c * DrainNumerator(s, d) + c * DrainNumerator(d, s);
      assert (x + y) * m == x * m + y * m;
      Compare(x + y, g, m);
      Compare(g, Calculate(c, d, s).gate, m);
    }
  }

  /** The drain takes between two and three fifths of the gate charge. */
  lemma DrainShare(c: real, s: real, d: real)
    requires c >= 0.0 && s >= 0.0 && d >= 0.0
    ensures var q := Calculate(c, s, d);
            0.4 * q.gate <= q.drain <= 0.6 * q.gate
  {
    if s + d >= NEGLIGIBLE {
      hide Calculate, DrainNumerator, GateNumerator, Square, Times;
      var q, m := Calculate(c, s, d), 15.0 * Square(s + d);
      var whole := 5.0 * Times(s + d, GateNumerator(s, d));
      SquarePositive(s + d);
      CommonDenominator(c, s, d);
      NumeratorBounds(s, d);
      ShareFromNumerators(c, whole, DrainNumerator(s, d), q.gate, q.drain, m);
    }
  }

  lemma ShareFromNumerators(c: real, w: real, n: real, gate: real, drain: real, m: real)
    requires c >= 0.0 && m > 0.0 && 0.4 * w <= n <= 0.6 * w
    requires Times(gate, m) == Times(c, w) && Times(drain, m) == Times(c, n)
    ensures 0.4 * gate <= drain <= 0.6 * gate
  {}

  /** Per unit of capacitance the gate charge lies between 1/2 and 2/3 of the sum of the terms. */
  lemma GateRange(s: real, d: real)
    requires s >= 0.0 && d >= 0.0 && s + d >= NEGLIGIBLE
    ensures (s + d) / 2.0 <= Calculate(1.0, s, d).gate <= 2.0 * (s + d) / 3.0
  {
    hide Calculate, GateNumerator, Square;
    CommonDenominator(1.0, s, d);
    GateBounds(s, d);
    RangeFromNumerator(s + d, Calculate(1.0, s, d).gate);
  }

  lemma RangeFromNumerator(t: real, g: real)
    requires t > 0.0 && 1.5 * Square(t) <= g * (3.0 * t) <= 2.0 * Square(t)
    ensures t / 2.0 <= g <= 2.0 * t / 3.0
  {}

  /** Which end is the drain: by how much the drain charge exceeds what it would be with the ends
      exchanged. */
  lemma DrainExcess(c: real, s: real, d: real)
    requires s + d >= NEGLIGIBLE
    ensures Times(Calculate(c, s, d).drain - Calculate(c, d, s).drain, 15.0 * Square(s + d))
         == Times(2.0 * c * (d - s), s * s + 3.0 * s * d + d * d)
  {
    hide Calculate, Square;
    CommonDenominator(c, s, d);
    CommonDenominator(c, d, s);
    assert s + d == d + s;
    var x, y, m := Calculate(c, s, d).drain, Calculate(c, d, s).drain, 15.0 * Square(s + d);
    assert Times(x - y, m) == Times(x, m) - Times(y, m);
    NumeratorsDiffer(s, d);
    var k := s * s + 3.0 * s * d + d * d;
    assert c * DrainNumerator(s, d) - c * DrainNumerator(d, s) == c * (DrainNumerator(s, d) - DrainNumerator(d, s));
    assert c * (2.0 * Times(d - s, k)) == Times(2.0 * c * (d - s), k);
  }

  lemma NumeratorsDiffer(s: real, d: real)
    ensures DrainNumerator(s, d) - DrainNumerator(d, s) == 2.0 * Times(d - s, s * s + 3.0 * s * d + d * d)
  {}

  /** The end with the smaller term takes less than half. */
  lemma SmallerEndTakesLess(c: real, s: real, d: real)
    requires c > 0.0 && 0.0 <= d < s && s + d >= NEGLIGIBLE
    ensures Calculate(c, s, d).drain < Calculate(c, s, d).gate / 2.0
  {
    hide Calculate, Square;
    var x, y, m := Calculate(c, s, d).drain, Calculate(c, d, s).drain, 15.0 * Square(s + d);
    PartitionIsComplete(c, s, d);
    DrainExcess(c, s, d);
    SquarePositive(s + d);
    var k := s * s + 3.0 * s * d + d * d;
    SumPositive(s, d);
    TimesSign(2.0 * c, s - d);
    Negative(2.0 * c * (d - s), k);
    BelowZero(x - y, m);
  }

  lemma SumPositive(s: real, d: real)
    requires 0.0 <= d < s
    ensures s * s + 3.0 * s * d + d * d > 0.0
  {}

  lemma Negative(x: real, k: real)
    requires x < 0.0 && k > 0.0
    ensures Times(x, k) < 0.0
  {}

  lemma BelowZero(x: real, m: real)
    requires m > 0.0 && Times(x, m) < 0.0
    ensures x < 0.0
  {}

  /** The gate charge itself, at its two extremes: a uniform channel and one pinched off at the
      drain; and nothing at all below the cutoff. */
  lemma GateCharge(c: real, s: real, d: real)
    ensures s + d < 1e-12 ==> Calculate(c, s, d) == Charges(0.0, 0.0)
    ensures s + d >= 1e-12 ==> Times(Calculate(c, s, d).gate, 3.0 * (s + d)) == Times(2.0 * c, s * s + s * d + d * d)
    ensures s + d >= 1e-12 && d == s ==> Calculate(c, s, d).gate == c * s
    ensures s + d >= 1e-12 && d == 0.0 ==> Calculate(c, s, d).gate == 2.0 * (c * s) / 3.0
  {
    if s + d >= NEGLIGIBLE {
      hide Calculate;
      CommonDenominator(c, s, d);
      var g := Calculate(c, s, d).gate;
      assert c * GateNumerator(s, d) == Times(2.0 * c, s * s + s * d + d * d);
      if d == s {
        Uniform(c, s, g);
      }
      if d == 0.0 {
        PinchedOff(c, s, g);
      }
    }
  }

  lemma Uniform(c: real, s: real, g: real)
    requires s > 0.0 && g * (3.0 * (s + s)) == 2.0 * c * (s * s + s * s + s * s)
    ensures g == c * s
  {
    var x := c * s;
    assert 2.0 * c * (s * s + s * s + s * s) == x * (6.0 * s);
    Compare(g, x, 6.0 * s);
  }

  lemma PinchedOff(c: real, s: real, g: real)
    requires s > 0.0 && g * (3.0 * s) == 2.0 * c * (s * s)
    ensures g == 2.0 * (c * s) / 3.0
  {
    var x := c * s;
    assert 2.0 * c * (s * s) == 2.0 * x * s;
    Compare(3.0 * g, 2.0 * x, s);
  }
}

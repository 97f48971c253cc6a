/** The current of a transistor behind contact resistances: bracket the fixed point of the
    device current under its own voltage drop, then bisect. */
module ContactSolver {
  import opened Common
  import opened Powers

  const TINY := 1e-30
  const RELATIVE := 1e-12
  const STEPS: nat := 80

  /** A device current as any function of gate and drain voltage, with the bias and the total
      contact resistance, half of which lies on the source side. */
  datatype Device = Device(current: (real, real) -> real, vgs: real, vds: real, rsd: real) {
    predicate WellFormed() {
      vds > 0.0 && rsd > 0.0
    }

    /** The contacts alone carry at most this current. */
    function Limit(): real
      requires WellFormed()
    {
      vds / rsd
    }

    /** By how much the device would exceed x amperes if x amperes flowed. */
    function Residual(x: real): real {
      current(vgs - x * (rsd / 2.0), MaxReal(vds - x * rsd, 0.0)) - x
    }

    /** The first upper end tried and its doublings, capped at the limit. */
    function Candidate(k: nat): real
      requires WellFormed()
    {
      if k == 0 then MinReal(MaxReal(current(vgs, vds), TINY), Limit())
      else MinReal(Candidate(k - 1) * 2.0, Limit())
    }

    /** No candidate up to the k-th closes the bracket. */
    predicate AllOpen(k: nat)
      requires WellFormed()
    {
      Residual(Candidate(k)) > 0.0 && (k > 0 ==> AllOpen(k - 1))
    }

    /** The first candidate from the k-th on that closes the bracket, or the last one. */
    function Top(k: nat): real
      requires WellFormed() && k <= STEPS
      decreases STEPS - k
    {
      if k == STEPS || Residual(Candidate(k)) <= 0.0 then Candidate(k) else Top(k + 1)
    }

    function Step(b: Bracket): Bracket {
      var mid := (b.low + b.high) / 2.0;
      if Residual(mid) > 0.0 then Bracket(mid, b.high) else Bracket(b.low, mid)
    }

    /** The bracket after i bisections of (0, high]. */
    function After(high: real, i: nat): Bracket {
      if i == 0 then Bracket(0.0, high) else Step(After(high, i - 1))
    }
  }

  datatype Bracket = Bracket(low: real, high: real) {
    function Width(): real {
      high - low
    }

    predicate Close() {
      Width() <= MaxReal(TINY, RELATIVE * high)
    }
  }

  datatype Outcome = Solved(current: real) | InvalidVoltage | NotBracketed | NotConverged | NonpositiveCurrent

  /** A bracket keeps a sign change of the residual: nonpositive at its upper end, and positive
      at its lower end unless that is still zero. */
  predicate Encloses(d: Device, b: Bracket) {
    && 0.0 <= b.low < b.high
    && d.Residual(b.high) <= 0.0
    && (b.low == 0.0 || (b.low >= b.Width() && d.Residual(b.low) > 0.0))
  }

  lemma StepEncloses(d: Device, b: Bracket)
    requires Encloses(d, b)
    ensures Encloses(d, d.Step(b))
    ensures d.Step(b).Width() == b.Width() / 2.0
    ensures b.low <= d.Step(b).low && d.Step(b).high <= b.high
    ensures b.high / 2.0 <= d.Step(b).high
  {}

  lemma HalvedAgain(x: real, i: nat)
    ensures x / Pow2(i) as real / 2.0 == x / Pow2(i + 1) as real
  {}

  /** After i bisections the bracket still encloses and is 2^i times narrower. */
  lemma {:induction false} AfterEncloses(d: Device, high: real, i: nat)
    requires high > 0.0 && d.Residual(high) <= 0.0
    ensures Encloses(d, d.After(high, i))
    ensures d.After(high, i).Width() == high / Pow2(i) as real
    ensures d.After(high, i).high <= high
  {
    hide Device.Residual;
    if i > 0 {
      AfterEncloses(d, high, i - 1);
      StepEncloses(d, d.After(high, i - 1));
      HalvedAgain(high, i - 1);
    }
  }

  /** Stopping early never changes the verdict: a bracket that is close stays close. */
  lemma CloseStays(d: Device, b: Bracket)
    requires Encloses(d, b) && b.Close()
    ensures d.Step(b).Close()
  {}

  lemma {:induction false} CloseUntil(d: Device, high: real, i: nat, j: nat)
    requires high > 0.0 && d.Residual(high) <= 0.0
    requires i <= j && d.After(high, i).Close()
    ensures d.After(high, j).Close()
    decreases j - i
  {
    if i < j {
      AfterEncloses(d, high, i);
      CloseStays(d, d.After(high, i));
      CloseUntil(d, high, i + 1, j);
    }
  }

  lemma Pow2Eighty()
    ensures Pow2(40) == 0x100_0000_0000 && Pow2(80) == 0x100_0000_0000 * 0x100_0000_0000
  {
    assert Pow2(10) == 1024;
    Pow2Add(10, 10);
    Pow2Add(20, 20);
    Pow2Add(40, 40);
  }

  /** From any upper end of at most a microampere, eighty bisections always suffice. */
  lemma SmallBracketConverges(d: Device, high: real)
    requires 0.0 < high <= 1e-6 && d.Residual(high) <= 0.0
    ensures d.After(high, STEPS).Close()
  {
    hide Device.Residual, Device.After, Pow2;
    AfterEncloses(d, high, STEPS);
    Pow2Eighty();
    QuotientSign(high, Pow2(STEPS) as real, TINY);
  }

  lemma {:induction false} LowOnlyRises(d: Device, high: real, i: nat, j: nat)
    requires high > 0.0 && d.Residual(high) <= 0.0 && i <= j
    ensures d.After(high, i).low <= d.After(high, j).low
    decreases j - i
  {
    hide Device.Residual;
    if i < j {
      AfterEncloses(d, high, i);
      StepEncloses(d, d.After(high, i));
      LowOnlyRises(d, high, i + 1, j);
    }
  }

  /** From any upper end at all, they suffice once one of the first forty probes is positive:
      the lower end then dwarfs the final width. */
  lemma EarlySignConverges(d: Device, high: real)
    requires high > 0.0 && d.Residual(high) <= 0.0
    requires d.After(high, 40).low > 0.0
    ensures d.After(high, STEPS).Close()
  {
    hide Device.Residual, Device.After, Pow2;
    AfterEncloses(d, high, 40);
    AfterEncloses(d, high, STEPS);
    LowOnlyRises(d, high, 40, STEPS);
    Pow2Eighty();
    NarrowEnough(high, d.After(high, STEPS).high);
  }

  lemma NarrowEnough(high: real, x: real)
    requires high > 0.0 && x >= high / (0x100_0000_0000 as real)
    ensures high / (0x100_0000_0000 * 0x100_0000_0000) as real <= RELATIVE * x
  {}

  /** As long as every probe has been nonpositive the lower end is zero, so that premise is
      about the residual at the first forty halvings of the upper end. */
  lemma {:induction false} ProbesFromTheTop(d: Device, high: real, i: nat)
    requires high > 0.0 && d.Residual(high) <= 0.0
    ensures d.After(high, i).low == 0.0 ==> d.After(high, i).high == high / Pow2(i) as real
    ensures d.After(high, i).low == 0.0 <==> forall j :: 1 <= j <= i ==> d.Residual(high / Pow2(j) as real) <= 0.0
  {
    hide Device.Residual;
    if i > 0 {
      ProbesFromTheTop(d, high, i - 1);
      AfterEncloses(d, high, i - 1);
      HalvedAgain(high, i - 1);
      StepEncloses(d, d.After(high, i - 1));
    }
  }

  /** If none of the first forty-one is, the lower end comes too late to help, and eighty
      bisections suffice exactly for upper ends of at most 2^80 * 1e-30 amperes. */
  lemma LateSignConvergesIffSmall(d: Device, high: real)
    requires high > 0.0 && d.Residual(high) <= 0.0
    requires forall j :: 1 <= j <= 41 ==> d.Residual(high / Pow2(j) as real) <= 0.0
    ensures d.After(high, STEPS).Close() <==> high <= TINY * Pow2(STEPS) as real
  {
    hide Device.Residual, Device.After, Pow2;
    ProbesFromTheTop(d, high, 41);
    AfterEncloses(d, high, STEPS);
    HighOnlyFalls(d, high, 41, STEPS);
    Pow2Eighty();
    Pow2Add(40, 1);
    assert Pow2(1) == 2 by {
      FloorLog2OfPow2(1);
    }
    NotNarrow(high, d.After(high, STEPS).high);
    QuotientSign(high, Pow2(STEPS) as real, TINY);
  }

  lemma {:induction false} HighOnlyFalls(d: Device, high: real, i: nat, j: nat)
    requires high > 0.0 && d.Residual(high) <= 0.0 && i <= j
    ensures d.After(high, j).high <= d.After(high, i).high
    decreases j - i
  {
    hide Device.Residual;
    if i < j {
      AfterEncloses(d, high, i);
      StepEncloses(d, d.After(high, i));
      HighOnlyFalls(d, high, i + 1, j);
    }
  }

  lemma NotNarrow(high: real, x: real)
    requires high > 0.0 && x <= high / (0x200_0000_0000 as real)
    ensures high / (0x100_0000_0000 * 0x100_0000_0000) as real > RELATIVE * x
  {}

  /** Every upper end is a whole number of final widths. */
  lemma {:induction false} OnGrid(d: Device, high: real, i: nat) returns (m: nat)
    requires high > 0.0 && d.Residual(high) <= 0.0
    ensures m >= 1 && d.After(high, i).high == Times(m as real, high / Pow2(i) as real)
  {
    hide Device.Residual;
    if i == 0 {
      m := 1;
    } else {
      var n := OnGrid(d, high, i - 1);
      AfterEncloses(d, high, i - 1);
      HalvedAgain(high, i - 1);
      m := if d.After(high, i).high == d.After(high, i - 1).high then 2 * n else 2 * n - 1;
      Halves(n, high / Pow2(i - 1) as real);
    }
  }

  lemma Halves(n: nat, w: real)
    ensures Times((2 * n) as real, w / 2.0) == Times(n as real, w)
    ensures Times((2 * n - 1) as real, w / 2.0) == Times(n as real, w) - w / 2.0
  {}

  /** More current through the device means more drop, so the residual changes sign once. */
  ghost predicate SignFalls(d: Device) {
    forall x, y :: 0.0 < x < y && d.Residual(y) > 0.0 ==> d.Residual(x) > 0.0
  }

  /** The current below which an upper end of eighty bisections is too coarse to settle. */
  function Resolved(high: real): real {
    Times(999_999_999_999.0, high / Pow2(STEPS) as real)
  }

  /** The last bracket is close exactly if the upper end was small or it lies, as a whole, above
      that current. */
  lemma CloseIffAbove(d: Device, high: real)
    requires high > 0.0 && d.Residual(high) <= 0.0
    ensures var b := d.After(high, STEPS);
            && (b.Close() <==> high <= TINY * Pow2(STEPS) as real || b.high > Resolved(high))
            && (b.high > Resolved(high) <==> b.low >= Resolved(high))
    ensures 0.0 < Resolved(high) < high
  {
    hide Device.Residual, Device.After, Pow2, Times, Bracket.Close;
    AfterEncloses(d, high, STEPS);
    QuotientSign(high, Pow2(STEPS) as real, TINY);
    var m := OnGrid(d, high, STEPS);
    CloseOnGrid(d.After(high, STEPS), m, high / Pow2(STEPS) as real);
    ResolvedBelow(high);
  }

  lemma ResolvedBelow(high: real)
    requires high > 0.0
    ensures 0.0 < Resolved(high) < high
  {
    hide Pow2;
    Pow2Eighty();
  }

  /** For such a device the solver converges exactly when the upper end is small or the device
      still exceeds the smallest current the bisection can resolve. */
  lemma FallingConvergesIff(d: Device, high: real)
    requires high > 0.0 && d.Residual(high) <= 0.0 && SignFalls(d)
    ensures d.After(high, STEPS).Close() <==> high <= TINY * Pow2(STEPS) as real || d.Residual(Resolved(high)) > 0.0
  {
    hide Device.Residual, Device.After, Pow2, Resolved, Bracket.Close;
    AfterEncloses(d, high, STEPS);
    CloseIffAbove(d, high);
  }

  lemma CloseOnGrid(b: Bracket, m: nat, w: real)
    requires w > 0.0 && b.Width() == w && b.high == Times(m as real, w)
    ensures b.high > Times(999_999_999_999.0, w) > 0.0 ==> b.Close()
    ensures b.high > Times(999_999_999_999.0, w) <==> b.low >= Times(999_999_999_999.0, w)
    ensures b.low < Times(999_999_999_999.0, w) ==> (b.Close() <==> w <= TINY)
    ensures Times(999_999_999_999.0, w) > 0.0
  {
    hide Times;
    GridAgainst(m, w);
  }

  lemma GridAgainst(m: nat, w: real)
    requires w > 0.0
    ensures Times(m as real, w) > Times(999_999_999_999.0, w) ==> w <= RELATIVE * Times(m as real, w)
    ensures Times(m as real, w) - w < Times(999_999_999_999.0, w) ==> w > RELATIVE * Times(m as real, w)
    ensures Times(m as real, w) > Times(999_999_999_999.0, w) <==> Times(m as real, w) - w >= Times(999_999_999_999.0, w)
    ensures Times(999_999_999_999.0, w) > 0.0
  {
    if m >= 1_000_000_000_000 {
      TimesSign(m as real - 1e12, w);
    } else {
      assert m as real <= 999_999_999_999.0;
      TimesSign(999_999_999_999.0 - m as real, w);
    }
  }

  /** For any device at all, where k more bisections of b end depends only on the probes on the
      way to the target: the first that disagrees with it decides, and if none does the bracket
      closes around it from above. */
  predicate EndsAbove(d: Device, target: real, b: Bracket, k: nat)
    decreases k
  {
    k == 0 ||
    var mid := (b.low + b.high) / 2.0;
    if target >= mid
    then d.Residual(mid) > 0.0 && EndsAbove(d, target, b.(low := mid), k - 1)
    else d.Residual(mid) > 0.0 || EndsAbove(d, target, b.(high := mid), k - 1)
  }

  function Run(d: Device, b: Bracket, k: nat): Bracket
    decreases k
  {
    if k == 0 then b else Run(d, d.Step(b), k - 1)
  }

  lemma {:induction false} RunNarrows(d: Device, b: Bracket, k: nat)
    requires b.low < b.high
    ensures b.low <= Run(d, b, k).low < Run(d, b, k).high <= b.high
    decreases k
  {
    hide Device.Residual;
    if k > 0 {
      RunNarrows(d, d.Step(b), k - 1);
    }
  }

  lemma {:induction false} EndsAboveIff(d: Device, target: real, b: Bracket, k: nat)
    requires b.low <= target < b.high
    ensures Run(d, b, k).high > target <==> EndsAbove(d, target, b, k)
    decreases k
  {
    hide Device.Residual;
    if k > 0 {
      var mid := (b.low + b.high) / 2.0;
      if (target >= mid) == (d.Residual(mid) > 0.0) {
        EndsAboveIff(d, target, d.Step(b), k - 1);
      } else {
        RunNarrows(d, d.Step(b), k - 1);
      }
    }
  }

  lemma {:induction false} RunIsAfter(d: Device, high: real, i: nat, k: nat)
    ensures Run(d, d.After(high, i), k) == d.After(high, i + k)
    decreases k
  {
    hide Device.Step;
    if k > 0 {
      RunIsAfter(d, high, i + 1, k - 1);
    }
  }

  /** So for any device the solver converges exactly when the upper end is small or those eighty
      fixed probes lead above the smallest current the bisection can resolve. */
  lemma ConvergesIff(d: Device, high: real)
    requires high > 0.0 && d.Residual(high) <= 0.0
    ensures d.After(high, STEPS).Close()
            <==> high <= TINY * Pow2(STEPS) as real || EndsAbove(d, Resolved(high), Bracket(0.0, high), STEPS)
  {
    hide Device.Residual, Device.After, Pow2, Bracket.Close, EndsAbove, Run, Resolved;
    CloseIffAbove(d, high);
    FromTheTop(d, high);
    EndsAboveIff(d, Resolved(high), Bracket(0.0, high), STEPS);
  }

  lemma FromTheTop(d: Device, high: real)
    ensures Run(d, Bracket(0.0, high), STEPS) == d.After(high, STEPS)
  {
    RunIsAfter(d, high, 0, STEPS);
  }

  /** A device that is cut off by any drop at all. */
  function Switch(): Device {
    Device((g: real, v: real) => if g >= 1.0 then 1.0 else 0.0, 1.0, 1.0, 1.0)
  }

  lemma SwitchIsCutOff(x: real)
    requires x > 0.0
    ensures Switch().Residual(x) <= 0.0
  {}

  lemma SwitchIsBracketed()
    ensures Switch().WellFormed() && Switch().Candidate(0) == 1.0
    ensures !Switch().AllOpen(STEPS) && Switch().Top(0) == 1.0
  {
    var d := Switch();
    assert d.Candidate(0) == 1.0;
    SwitchIsCutOff(1.0);
    hide Device.Residual, Device.Candidate;
    if d.AllOpen(STEPS) {
      OpenPrefix(d, 0, STEPS);
    }
  }

  /** It is bracketed at once and never converges. */
  lemma SwitchDoesNotConverge()
    ensures Switch().WellFormed() && SignFalls(Switch())
    ensures !Switch().AllOpen(STEPS) && Switch().Top(0) == 1.0
    ensures !Switch().After(1.0, STEPS).Close()
  {
    hide Device.After, Device.Residual, Device.AllOpen, Device.Top, Pow2, Times, Bracket.Close;
    var d := Switch();
    SwitchIsBracketed();
    forall x | x > 0.0
      ensures d.Residual(x) <= 0.0
    {
      SwitchIsCutOff(x);
    }
    Pow2Eighty();
    TimesSign(999_999_999_999.0, 1.0 / Pow2(STEPS) as real);
    FallingConvergesIff(d, 1.0);
  }

  lemma QuotientSign(x: real, p: real, y: real)
    requires p > 0.0 && x > 0.0
    ensures x / p <= y <==> x <= y * p
    ensures x / p > 0.0
  {}

  /** The residual of a probe no larger than the contact limit: the drain keeps a nonnegative
      voltage, so the clamp in the residual never acts. */
  method Probe(d: Device, x: real) returns (r: real)
    requires d.WellFormed() && 0.0 < x <= d.Limit()
    ensures r == d.Residual(x)
    ensures r == d.current(d.vgs - x * (d.rsd / 2.0), d.vds - x * d.rsd) - x
  {
    DropWithinSupply(x, d.vds, d.rsd);
    r := d.current(d.vgs - x * (d.rsd / 2.0), MaxReal(d.vds - x * d.rsd, 0.0)) - x;
  }

  lemma DropWithinSupply(x: real, vds: real, rsd: real)
    requires rsd > 0.0 && x <= vds / rsd
    ensures x * rsd <= vds
  {}

  lemma CandidatesPositive(d: Device, k: nat)
    requires d.WellFormed()
    ensures 0.0 < d.Candidate(k) <= d.Limit()
  {}

  /** The upper ends tried: the device's own current, at least 1e-30 amperes, doubled so and so
      often, and never more than the contacts can carry. */
  lemma {:induction false} CandidateClosed(d: Device, k: nat)
    requires d.WellFormed()
    ensures d.Candidate(k) == MinReal(Times(MaxReal(d.current(d.vgs, d.vds), 1e-30), Pow2(k) as real), d.vds / d.rsd)
  {
    var first := MaxReal(d.current(d.vgs, d.vds), TINY);
    if k > 0 {
      CandidateClosed(d, k - 1);
      CandidatesPositive(d, k - 1);
      TwiceAsMuch(first, Pow2(k - 1));
    }
  }

  lemma TwiceAsMuch(x: real, p: nat)
    requires x > 0.0
    ensures Times(x, (2 * p) as real) == 2.0 * Times(x, p as real) && Times(x, p as real) >= 0.0
  {}

  /** At the limit there is nothing left to double. */
  lemma LimitIsLast(d: Device, k: nat, n: nat)
    requires d.WellFormed() && k <= n && d.Candidate(k) == d.Limit() && d.AllOpen(k)
    ensures d.AllOpen(n)
    ensures d.Candidate(n) == d.Limit()
  {
    hide Device.Residual;
    if k < n {
      CandidatesPositive(d, k);
      LimitIsLast(d, k, n - 1);
    }
  }

  lemma TopAtLimit(d: Device, k: nat)
    requires d.WellFormed() && k <= STEPS && d.Candidate(k) == d.Limit() && d.AllOpen(k)
    ensures d.Top(k) == d.Limit()
    decreases STEPS - k
  {
    hide Device.Residual;
    if k < STEPS {
      LimitIsLast(d, k, k + 1);
      TopAtLimit(d, k + 1);
    }
  }

  lemma OpenPrefix(d: Device, k: nat, n: nat)
    requires d.WellFormed() && k <= n && d.AllOpen(n)
    ensures d.AllOpen(k)
    decreases n
  {}

  /** Double the upper end until the residual is no longer positive there. */
  method FindBracket(d: Device) returns (ok: bool, high: real)
    requires d.WellFormed()
    ensures ok <==> !d.AllOpen(STEPS)
    ensures 0.0 < high <= d.Limit()
    ensures ok ==> d.Residual(high) <= 0.0
    ensures high == d.Top(0)
    ensures ok ==> exists k: nat ::
                     && k <= STEPS && high == MinReal(Times(MaxReal(d.current(d.vgs, d.vds), 1e-30), Pow2(k) as real), d.vds / d.rsd)
                     && (k > 0 ==> d.AllOpen(k - 1))
  {
    hide Device.Residual;
    CandidatesPositive(d, 0);
    high := MinReal(MaxReal(d.current(d.vgs, d.vds), TINY), d.Limit());
    var residualHigh := Probe(d, high);
    var expansion := 0;
    while residualHigh > 0.0 && high < d.Limit() && expansion < STEPS
      invariant expansion <= STEPS && high == d.Candidate(expansion)
      invariant 0.0 < high <= d.Limit() && residualHigh == d.Residual(high)
      invariant expansion > 0 ==> d.AllOpen(expansion - 1)
      invariant d.Top(0) == d.Top(expansion)
      decreases STEPS - expansion
    {
      CandidatesPositive(d, expansion + 1);
      high := MinReal(high * 2.0, d.Limit());
      residualHigh := Probe(d, high);
      expansion := expansion + 1;
    }
    ok := residualHigh <= 0.0;
    CandidateClosed(d, expansion);
    if ok {
      if d.AllOpen(STEPS) {
        OpenPrefix(d, expansion, STEPS);
      }
    } else if expansion < STEPS {
      LimitIsLast(d, expansion, STEPS);
      TopAtLimit(d, expansion);
    }
  }

  /** Bisect (0, top] until the bracket is close, at most eighty times. */
  method Bisect(d: Device, top: real) returns (converged: bool, b: Bracket, ghost i: nat)
    requires d.WellFormed() && 0.0 < top <= d.Limit() && d.Residual(top) <= 0.0
    ensures converged <==> d.After(top, STEPS).Close()
    ensures Encloses(d, b) && b.high <= top
    ensures converged ==> 0 < i <= STEPS && b == d.After(top, i) && b.Close() && (i > 1 ==> !d.After(top, i - 1).Close())
  {
    hide Device.Residual, Pow2;
    b, converged := Bracket(0.0, top), false;
    var n := 0;
    while n < STEPS && !converged
      invariant n <= STEPS && b == d.After(top, n) && Encloses(d, b) && b.high <= top
      invariant converged <==> n > 0 && b.Close()
      invariant n > 1 ==> !d.After(top, n - 1).Close()
    {
      StepEncloses(d, b);
      var mid := 0.5 * (b.low + b.high);
      var residualMid := Probe(d, mid);
      b := if residualMid > 0.0 then b.(low := mid) else b.(high := mid);
      n := n + 1;
      converged := b.high - b.low <= MaxReal(TINY, RELATIVE * b.high);
    }
    i := n;
    if converged {
      CloseUntil(d, top, n, STEPS);
    }
  }

  /** The drain current at the external terminals, and after how many bisections it was found. */
  method SolveExternal(d: Device) returns (out: Outcome, ghost i: nat)
    requires d.rsd >= 0.0
    ensures out == InvalidVoltage <==> d.vds <= 0.0
    ensures d.vds > 0.0 && d.rsd == 0.0 ==> out == Solved(d.current(d.vgs, d.vds))
    ensures out != NonpositiveCurrent
    ensures d.WellFormed() ==> (out == NotBracketed <==> d.AllOpen(STEPS))
    ensures d.WellFormed() ==> (out == NotConverged <==> !d.AllOpen(STEPS) && !d.After(d.Top(0), STEPS).Close())
    ensures d.WellFormed() && out.Solved? ==>
              var b := d.After(d.Top(0), i);
              && Encloses(d, b) && b.Close() && b.high <= d.Limit()
              && 0 < i <= STEPS && (i > 1 ==> !d.After(d.Top(0), i - 1).Close())
              && out.current == (b.low + b.high) / 2.0 > 0.0
  {
    hide Device.Residual;
    i := 0;
    if d.vds <= 0.0 {
      out := InvalidVoltage;
      return;
    }
    if d.rsd == 0.0 {
      out := Solved(d.current(d.vgs, d.vds));
      return;
    }
    var ok, high := FindBracket(d);
    if !ok {
      out := NotBracketed;
      return;
    }
    var converged, bracket, n := Bisect(d, high);
    i := n;
    if !converged {
      out := NotConverged;
      return;
    }
    var current := 0.5 * (bracket.low + bracket.high);
    out := if current <= 0.0 then NonpositiveCurrent else Solved(current);
  }

  /** Where the residual falls strictly with the current, its only root lies in the bracket, so
      the answer is within half the tolerance of it. */
  lemma AnswerNearRoot(d: Device, b: Bracket, root: real)
    requires Encloses(d, b) && b.Close()
    requires root > 0.0 && d.Residual(root) == 0.0
    requires forall x, y :: 0.0 < x < y ==> d.Residual(x) > d.Residual(y)
    ensures b.low <= root <= b.high
    ensures -MaxReal(TINY, RELATIVE * b.high) / 2.0 <= (b.low + b.high) / 2.0 - root <= MaxReal(TINY, RELATIVE * b.high) / 2.0
  {}
}

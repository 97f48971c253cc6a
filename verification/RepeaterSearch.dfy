/** Trading wire delay for energy and leakage by weakening the repeaters of a wire. */
module RepeaterSearch {
  import opened Common

  type Positive = x: real | x > 0.0 witness 1.0

  /** Unit delay, energy and leakage of a repeated wire, as any positive functions of repeater
      size and spacing. */
  datatype WireModel = WireModel(
    delay: (real, real) -> Positive,
    energy: (real, real) -> Positive,
    leakage: (real, real) -> Positive)
  {
    function EnergyLeakage(size: real, spacing: real): real {
      Times(energy(size, spacing), leakage(size, spacing))
    }

    /** A size is taken over the best so far if it is fast enough and the relative energy and
        leakage add up to less than two. */
    predicate Accepts(target: real, spacing: real, size: real, best: real) {
      && delay(size, spacing) <= target
      && energy(size, spacing) / energy(best, spacing) + leakage(size, spacing) / leakage(best, spacing) < 2.0
    }

    /** The sizes from `size` down to one, one by one. */
    function Descend(target: real, spacing: real, size: real, best: real): real
      decreases size
    {
      if size < 1.0 then best
      else Descend(target, spacing, size - 1.0, if Accepts(target, spacing, size, best) then size else best)
    }
  }

  /** Two positive numbers that add up to less than two multiply to less than one. */
  lemma SumBelowTwo(x: real, y: real)
    requires x > 0.0 && y > 0.0 && x + y < 2.0
    ensures Times(x, y) < 1.0
  {
    hide Times;
    Compare(x, y, 2.0 - x);
    BelowOne(x, 2.0 - x, 1.0 - x);
  }

  lemma Compare(x: real, y: real, u: real)
    requires x > 0.0 && y < u
    ensures Times(x, y) < Times(x, u)
  {}

  lemma BelowOne(a: real, b: real, z: real)
    requires a == 1.0 - z && b == 1.0 + z
    ensures Times(a, b) <= 1.0
  {}

  lemma RatioProduct(a: real, b: real, c: real, d: real)
    requires a > 0.0 && b > 0.0 && c > 0.0 && d > 0.0
    requires a / b + c / d < 2.0
    ensures Times(a, c) < Times(b, d)
  {
    hide Times;
    RatioOf(a, b);
    RatioOf(c, d);
    SumBelowTwo(a / b, c / d);
    Factor(a / b, b, c / d, d);
    Shrink(Times(a / b, c / d), Times(b, d));
  }

  lemma RatioOf(a: real, b: real)
    requires a > 0.0 && b > 0.0
    ensures a / b > 0.0 && Times(a / b, b) == a
  {}

  lemma Factor(x: real, b: real, y: real, d: real)
    requires b > 0.0 && d > 0.0
    ensures Times(Times(x, b), Times(y, d)) == Times(Times(x, y), Times(b, d))
    ensures Times(b, d) > 0.0
  {}

  lemma Shrink(k: real, m: real)
    requires k < 1.0 && m > 0.0
    ensures Times(k, m) < m
  {}

  /** Without the quotients: the crossed products of the two sizes stay below twice the product
      of the best. */
  lemma AcceptsIff(w: WireModel, target: real, spacing: real, size: real, best: real)
    ensures w.Accepts(target, spacing, size, best)
            <==> && w.delay(size, spacing) <= target
                 && Times(w.energy(size, spacing), w.leakage(best, spacing)) + Times(w.leakage(size, spacing), w.energy(best, spacing))
                    < 2.0 * Times(w.energy(best, spacing), w.leakage(best, spacing))
  {
    CrossedProducts(w.energy(size, spacing), w.energy(best, spacing), w.leakage(size, spacing), w.leakage(best, spacing));
  }

  lemma CrossedProducts(a: real, b: real, c: real, d: real)
    requires a > 0.0 && b > 0.0 && c > 0.0 && d > 0.0
    ensures a / b + c / d < 2.0 <==> Times(a, d) + Times(c, b) < 2.0 * Times(b, d)
  {
    var x, y := a / b, c / d;
    assert x * b == a && y * d == c;
    TimesSign(b, d);
    var m := b * d;
    assert a * d == x * m && c * b == y * m;
    assert (x + y) * m == x * m + y * m;
    Ordered(x + y, 2.0, m);
  }

  lemma Ordered(x: real, y: real, m: real)
    requires m > 0.0
    ensures x < y <==> x * m < y * m
  {}

  /** Each accepted step strictly lowers energy times leakage. */
  lemma AcceptedIsCheaper(w: WireModel, target: real, spacing: real, size: real, best: real)
    requires w.Accepts(target, spacing, size, best)
    ensures w.EnergyLeakage(size, spacing) < w.EnergyLeakage(best, spacing)
  {
    RatioProduct(w.energy(size, spacing), w.energy(best, spacing), w.leakage(size, spacing), w.leakage(best, spacing));
  }

  /** The sizes the search passes on its way down from a start. */
  predicate OnLadder(start: real, size: real) {
    size <= start && (start - size).Floor as real == start - size
  }

  /** Where the descent ends: on the ladder, fast enough, never costlier than the best it was
      given, and with no smaller size on the ladder that would still be accepted over it. */
  lemma {:induction false} DescendResult(w: WireModel, target: real, spacing: real, size: real, best: real)
    requires w.delay(best, spacing) <= target
    ensures var r := w.Descend(target, spacing, size, best);
            && (r == best || (1.0 <= r <= size && w.EnergyLeakage(r, spacing) < w.EnergyLeakage(best, spacing)))
            && w.delay(r, spacing) <= target
            && (r != best ==> OnLadder(size, r))
    decreases size
  {
    hide WireModel.Accepts, WireModel.EnergyLeakage;
    if size >= 1.0 {
      var next := if w.Accepts(target, spacing, size, best) then size else best;
      if w.Accepts(target, spacing, size, best) {
        AcceptedIsCheaper(w, target, spacing, size, best);
        AcceptedIsFast(w, target, spacing, size, best);
      }
      DescendResult(w, target, spacing, size - 1.0, next);
      var r := w.Descend(target, spacing, size, best);
      if r != next {
        LadderStep(size, r);
      }
    }
  }

  lemma AcceptedIsFast(w: WireModel, target: real, spacing: real, size: real, best: real)
    requires w.Accepts(target, spacing, size, best)
    ensures w.delay(size, spacing) <= target
  {}

  lemma LadderStep(start: real, size: real)
    requires OnLadder(start - 1.0, size)
    ensures OnLadder(start, size)
  {}

  /** No smaller size on the ladder would be accepted over the result; if the best it was given
      is the result, no size at all. */
  lemma {:induction false} DescendIsFinal(w: WireModel, target: real, spacing: real, size: real, best: real, s: real)
    requires w.delay(best, spacing) <= target
    requires 1.0 <= s && OnLadder(size, s)
    requires s < w.Descend(target, spacing, size, best) || w.Descend(target, spacing, size, best) == best
    ensures !w.Accepts(target, spacing, s, w.Descend(target, spacing, size, best))
    decreases size
  {
    hide WireModel.Accepts, WireModel.EnergyLeakage;
    var accepted := w.Accepts(target, spacing, size, best);
    var next := if accepted then size else best;
    if accepted {
      AcceptedIsCheaper(w, target, spacing, size, best);
      AcceptedIsFast(w, target, spacing, size, best);
    }
    DescendResult(w, target, spacing, size, best);
    DescendResult(w, target, spacing, size - 1.0, next);
    if s < size {
      LadderBelow(size, s);
      DescendIsFinal(w, target, spacing, size - 1.0, next, s);
    }
  }

  lemma LadderBelow(start: real, size: real)
    requires OnLadder(start, size) && size < start
    ensures OnLadder(start - 1.0, size)
  {}

  class Wire {
    var repeaterSize: real
    var repeaterSpacing: real

    /** Reduce the repeater size at the given spacing.  Spacings are stepped through as well, but
        the size is not restored between them, so only the first spacing is ever searched. */
    method FindPenalizedRepeater(w: WireModel, penalty: real)
      requires penalty >= 0.0 && repeaterSpacing > 0.0
      modifies this
      ensures repeaterSpacing == old(repeaterSpacing)
      ensures repeaterSize == w.Descend(Times(w.delay(old(repeaterSize), old(repeaterSpacing)), 1.0 + penalty), repeaterSpacing,
                                        old(repeaterSize), old(repeaterSize))
      ensures w.delay(repeaterSize, repeaterSpacing) <= Times(w.delay(old(repeaterSize), old(repeaterSpacing)), 1.0 + penalty)
      ensures w.EnergyLeakage(repeaterSize, repeaterSpacing) <= w.EnergyLeakage(old(repeaterSize), old(repeaterSpacing))
      ensures repeaterSize == old(repeaterSize) || 1.0 <= repeaterSize < old(repeaterSize)
    {
      hide WireModel.EnergyLeakage, Times;
      ghost var size0, spacing0 := repeaterSize, repeaterSpacing;
      var targetDelay := Times(w.delay(repeaterSize, repeaterSpacing), 1.0 + penalty);
      var currentDynamicEnergy := w.energy(repeaterSize, repeaterSpacing);
      var currentLeakage := w.leakage(repeaterSize, repeaterSpacing);
      var targetRepeaterSpacing, targetRepeaterSize := repeaterSpacing, repeaterSize;
      var stepSpacing, stepSize, endSize := 1e-4, 1.0, 1.0;
      var endSpacing := 4.0 * repeaterSpacing;
      ghost var final := w.Descend(targetDelay, spacing0, size0, size0);
      while repeaterSpacing <= endSpacing
        invariant targetRepeaterSpacing == spacing0
        invariant repeaterSpacing == spacing0 ==> repeaterSize == targetRepeaterSize == size0
        invariant repeaterSpacing != spacing0 ==> repeaterSize < 1.0 && targetRepeaterSize == final
        invariant currentDynamicEnergy == w.energy(targetRepeaterSize, spacing0)
        invariant currentLeakage == w.leakage(targetRepeaterSize, spacing0)
        invariant repeaterSpacing >= spacing0
        decreases (endSpacing - repeaterSpacing) * 1e4
      {
        ghost var spacing := repeaterSpacing;
        while repeaterSize >= endSize
          invariant repeaterSpacing == spacing
          invariant targetRepeaterSpacing == spacing0
          invariant repeaterSpacing != spacing0 ==> repeaterSize < 1.0 && targetRepeaterSize == final
          invariant repeaterSpacing == spacing0 ==> final == w.Descend(targetDelay, spacing0, repeaterSize, targetRepeaterSize)
          invariant currentDynamicEnergy == w.energy(targetRepeaterSize, spacing0)
          invariant currentLeakage == w.leakage(targetRepeaterSize, spacing0)
          decreases repeaterSize
        {
          var thisDelay := w.delay(repeaterSize, repeaterSpacing);
          var thisDynamicEnergy := w.energy(repeaterSize, repeaterSpacing);
          var thisLeakage := w.leakage(repeaterSize, repeaterSpacing);
          if thisDelay <= targetDelay && thisDynamicEnergy / currentDynamicEnergy + thisLeakage / currentLeakage < 2.0 {
            currentDynamicEnergy, currentLeakage := thisDynamicEnergy, thisLeakage;
            targetRepeaterSpacing, targetRepeaterSize := repeaterSpacing, repeaterSize;
          }
          repeaterSize := repeaterSize - stepSize;
        }
        repeaterSpacing := repeaterSpacing + stepSpacing;
      }
      repeaterSpacing, repeaterSize := targetRepeaterSpacing, targetRepeaterSize;
      WithinPenalty(w.delay(size0, spacing0), penalty);
      DescendResult(w, targetDelay, spacing0, size0, size0);
    }
  }

  lemma WithinPenalty(x: real, penalty: real)
    requires x > 0.0 && penalty >= 0.0
    ensures x <= Times(x, 1.0 + penalty)
  {}
}

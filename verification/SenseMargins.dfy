/** The reference a binary sense amplifier compares the two states of a resistive cell with. */
module SenseMargins {
  import opened Common

  const LEAST_MARGIN := 0.1

  datatype Verdict = Invalid | Fallback | Sensed(reference: real, margin: real)

  /** How far a state lies from the reference, relative to the larger of the two. */
  function Separation(state: real, reference: real): real
    requires state > 0.0 && reference > 0.0
  {
    if state >= reference then (state - reference) / state else (reference - state) / reference
  }

  /** The reference is the harmonic mean of the states, written without their product. */
  lemma ReferenceIsHarmonic(on: real, off: real)
    requires 0.0 < on <= off
    ensures 0.5 + 0.5 * on / off > 0.0
    ensures var r := on / (0.5 + 0.5 * on / off);
            Times(r, on + off) == 2.0 * Times(on, off) && on <= r <= off
  {
    var q := on / off;
    Shares(on, off);
    assert 0.5 * on / off == 0.5 * q;
    var w := 0.5 + 0.5 * q;
    var r := on / w;
    assert r * w == on;
    assert w * off == (on + off) / 2.0;
    assert r * (w * off) == on * off;
    Between(r, w, on, off);
  }

  lemma Shares(x: real, y: real)
    requires 0.0 < x <= y
    ensures 0.0 < x / y <= 1.0 && x / y * y == x
  {}

  lemma Between(r: real, w: real, on: real, off: real)
    requires 0.0 < on <= off && r * w == on && w * off == (on + off) / 2.0 && 0.5 < w <= 1.0
    ensures on <= r <= off
  {
    assert Times(r - on, w) == Times(on, 1.0 - w);
    assert Times(off - r, w) == (off - on) / 2.0;
    TimesSign(on, 1.0 - w);
    TimesSign(on - r, w);
    TimesSign(r - off, w);
    assert Times(on - r, w) == -Times(r - on, w) && Times(r - off, w) == -Times(off - r, w);
  }

  /** The separation of the on state is the reduced expression of the code, and it is the
      smaller of the two. */
  lemma OnSideIsSmaller(on: real, off: real, r: real)
    requires 0.0 < on <= r <= off && Times(r, on + off) == 2.0 * Times(on, off)
    ensures Separation(on, r) == (off - on) / off * 0.5 <= Separation(off, r)
  {
    var m := (off - on) / off * 0.5;
    assert m * off == (off - on) / 2.0;
    OnSide(on, off, r, m);
    OffSide(on, off, r, m);
  }

  lemma OnSide(on: real, off: real, r: real, m: real)
    requires 0.0 < on <= r <= off && r * (on + off) == 2.0 * (on * off) && m * off == (off - on) / 2.0
    ensures Separation(on, r) == m
  {
    assert (r - on) * off == m * off * r;
    var x := m * r;
    assert (r - on - x) * off == 0.0;
    assert r - on == x;
    assert (r - on) / r == m;
  }

  lemma OffSide(on: real, off: real, r: real, m: real)
    requires 0.0 < on <= r <= off && r * (on + off) == 2.0 * (on * off) && m * off == (off - on) / 2.0
    ensures m <= Separation(off, r)
  {
    assert (off - r) * (on + off) == off * (off - on);
    var d := off - r;
    assert d * (2.0 * off) >= d * (on + off);
    assert d >= (off - on) / 2.0;
    var e := d / off;
    assert e * off == d;
    assert Times(m - e, off) <= 0.0;
    TimesSign(m - e, off);
  }

  /** A margin of at least a tenth asks that the on resistance be at most four fifths of the off
      resistance. */
  lemma CutoffIff(on: real, off: real)
    requires 0.0 < on <= off
    ensures (off - on) / off * 0.5 >= LEAST_MARGIN <==> on <= 0.8 * off
    ensures (off - on) / off * 0.5 >= 0.0
  {
    var q := (off - on) / off;
    assert q * off == off - on;
  }

  /** The reference conducts the mean of what the two states conduct. */
  lemma MeanConductance(on: real, off: real, r: real)
    requires 0.0 < on <= r <= off && Times(r, on + off) == 2.0 * Times(on, off)
    ensures 2.0 / r == 1.0 / on + 1.0 / off
  {
    var x, y, z := 1.0 / on, 1.0 / off, 2.0 / r;
    assert x * on == 1.0 && y * off == 1.0 && z * r == 2.0;
    Conductances(on, off, r, x, y, z);
  }

  lemma Conductances(on: real, off: real, r: real, x: real, y: real, z: real)
    requires on > 0.0 && off > 0.0 && r > 0.0 && r * (on + off) == 2.0 * (on * off)
    requires x * on == 1.0 && y * off == 1.0 && z * r == 2.0
    ensures z == x + y
  {
    var p := on * off;
    assert (x + y) * p == on + off by {
      assert x * p == x * on * off == off;
      assert y * p == y * off * on == on;
    }
    var u := x + y;
    assert u * p * r == (on + off) * r == 2.0 * p;
    assert z * (p * r) == z * r * p == 2.0 * p;
    assert u * (p * r) == u * p * r;
    TimesSign(p, r);
    TimesSign(on, off);
    Same(u, z, p * r);
  }

  lemma Same(u: real, z: real, m: real)
    requires m > 0.0 && u * m == z * m
    ensures u == z
  {}

  lemma MarginIsShare(on: real, off: real)
    requires 0.0 < on <= off
    ensures 2.0 * Times((off - on) / off * 0.5, off) == off - on
  {
    var q := (off - on) / off;
    assert q * off == off - on;
  }

  /** The reference and margin of an operating point.  Sensing is offered exactly for states that
      are a fifth apart; the reference lies between them, both are separated from it by at least
      the margin, and one of them by no more. */
  method ChooseReference(on: real, off: real) returns (v: Verdict)
    ensures v == Invalid <==> on <= 0.0 || off < on
    ensures v.Sensed? <==> 0.0 < on <= 0.8 * off
    ensures v.Sensed? ==>
              && Times(v.reference, on + off) == 2.0 * Times(on, off)
              && 2.0 * Times(v.margin, off) == off - on
              && v.reference > 0.0 && 2.0 / v.reference == 1.0 / on + 1.0 / off
              && on <= v.reference <= off && v.margin >= LEAST_MARGIN
              && v.margin == Separation(on, v.reference) <= Separation(off, v.reference)
  {
    if on <= 0.0 || off < on {
      return Invalid;
    }
    ReferenceIsHarmonic(on, off);
    CutoffIff(on, off);
    var reference := on / (0.5 + 0.5 * on / off);
    var margin := (off - on) / off * 0.5;
    OnSideIsSmaller(on, off, reference);
    MeanConductance(on, off, reference);
    MarginIsShare(on, off);
    if reference <= 0.0 || margin < 0.0 {
      return Invalid;
    }
    v := if margin < LEAST_MARGIN then Fallback else Sensed(reference, margin);
  }
}

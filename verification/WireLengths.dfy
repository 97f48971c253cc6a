/** How long the wires of each H-tree level must be, bottom-up from the subarray: what the
    length arrays satisfy and what follows from it. */
module WireLengths {
  import opened Common
  import opened Powers
  import opened HtreeLevels

  /** The wire one level down from level i. */
  function Below(ls: seq<real>, i: nat): real
    requires i + 1 < |ls|
  {
    ls[i + 1]
  }

  /** The floorplan constants: the subarray's size, how many wires share one repeater pitch
      and that pitch, which is zero for wires without repeaters. */
  datatype Floorplan = Floorplan(height: real, width: real, sharing: nat, pitch: real) {
    predicate WellFormed() {
      height >= 0.0 && width >= 0.0 && sharing >= 1 && pitch >= 0.0
    }

    /** Half the breadth of the tracks a bundle takes: ceil(bits / sharing) * pitch / 2. */
    function HalfTracks(l: Level): real
      requires l.Level? && sharing >= 1
    {
      ((l.Bits() + sharing - 1) / sharing) as real * pitch / 2.0
    }
  }

  /** Every slot has been routed, with a nonnegative number of wires. */
  predicate Routed(ls: seq<Level>) {
    forall i :: 0 <= i < |ls| ==> ls[i].Level? && ls[i].Bits() >= 0
  }

  /** Levels of the longer dimension that have no partner in the shorter one. */
  function Surplus(long: nat, short: nat): nat {
    if long > short then long - short else 0
  }

  /** The breadth of the vertical tracks from level k down, crossed by the lowest horizontal wire. */
  function TracksFrom(f: Floorplan, v: seq<Level>, k: nat): real
    requires f.WellFormed() && Routed(v) && k <= |v|
    decreases |v| - k
  {
    if k == |v| then 0.0 else f.HalfTracks(v[k]) + TracksFrom(f, v, k + 1)
  }

  /** What a vertical wire above the lowest adds to twice its child: the horizontal tracks of
      its partner's child. */
  function VerticalExtra(f: Floorplan, h: seq<Level>, rows: nat, j: nat): real
    requires f.WellFormed() && Routed(h)
  {
    var p := j + Surplus(|h|, rows) + 1;
    if p < |h| then f.HalfTracks(h[p]) else 0.0
  }

  /** What a horizontal wire above the lowest adds to twice its child: the vertical tracks it crosses. */
  function HorizontalExtra(f: Floorplan, v: seq<Level>, columns: nat, i: nat): real
    requires f.WellFormed() && Routed(v)
  {
    var s := Surplus(columns, |v|);
    if s <= i < s + |v| then f.HalfTracks(v[i - s]) else 0.0
  }

  /** The lowest horizontal wire spans a subarray and the vertical tracks beside it. */
  function LowestHorizontal(f: Floorplan, v: seq<Level>, columns: nat): real
    requires f.WellFormed() && Routed(v) && columns >= 1
  {
    f.width + TracksFrom(f, v, if |v| == 0 then 0 else Min(columns, |v|) - 1)
  }

  ghost predicate VerticalFrom(f: Floorplan, h: seq<Level>, lv: seq<real>, k: int)
    requires f.WellFormed() && Routed(h)
  {
    && (0 < |lv| && k < |lv| ==> lv[|lv| - 1] == f.height / 2.0)
    && forall j {:trigger Below(lv, j)} :: 0 <= j < |lv| - 1 && k <= j ==>
         lv[j] == 2.0 * Below(lv, j) + VerticalExtra(f, h, |lv|, j)
  }

  ghost predicate HorizontalFrom(f: Floorplan, v: seq<Level>, lh: seq<real>, k: int)
    requires f.WellFormed() && Routed(v)
  {
    && (0 < |lh| && k < |lh| ==> lh[|lh| - 1] == LowestHorizontal(f, v, |lh|))
    && forall i {:trigger Below(lh, i)} :: 0 <= i < |lh| - 1 && k <= i ==>
         lh[i] == 2.0 * Below(lh, i) + HorizontalExtra(f, v, |lh|, i)
  }

  /** Every entry of both length arrays has its value. */
  ghost predicate Measured(f: Floorplan, h: seq<Level>, v: seq<Level>, lh: seq<real>, lv: seq<real>)
    requires f.WellFormed() && Routed(h) && Routed(v)
  {
    |lh| == |h| && |lv| == |v| && VerticalFrom(f, h, lv, 0) && HorizontalFrom(f, v, lh, 0)
  }

  lemma TracksNonnegative(f: Floorplan, l: Level)
    requires f.WellFormed() && l.Level? && l.Bits() >= 0
    ensures f.HalfTracks(l) >= 0.0
    ensures f.pitch == 0.0 ==> f.HalfTracks(l) == 0.0
  {
    var n := l.Bits() + f.sharing - 1;
    DivModLaw(n, f.sharing);
    if n / f.sharing < 0 {
      MulOrder(n / f.sharing, f.sharing);
    }
    TimesSign((n / f.sharing) as real, f.pitch);
  }

  /** A bundle takes the least whole number of tracks that holds its wires. */
  lemma TracksHoldTheWires(f: Floorplan, l: Level) returns (n: int)
    requires f.WellFormed() && l.Level?
    ensures (n - 1) * f.sharing < l.addressBits + l.distributeBits + l.broadcastBits <= n * f.sharing
    ensures f.HalfTracks(l) == n as real * f.pitch / 2.0
  {
    var m := l.Bits() + f.sharing - 1;
    n := m / f.sharing;
    DivModLaw(m, f.sharing);
    Distribute(n, 1, f.sharing);
  }

  /** A vertical wire and the horizontal one beside it: each is twice its child and half of the
      tracks it crosses, the vertical one those of the horizontal child and the horizontal one
      those of the vertical wire itself; wires without a partner just double. */
  lemma WirePartners(f: Floorplan, h: seq<Level>, v: seq<Level>, lh: seq<real>, lv: seq<real>, i: nat, j: nat)
    requires f.WellFormed() && Routed(h) && Routed(v) && Measured(f, h, v, lh, lv)
    ensures j + 1 < |v| && i + 1 < |h| && i == (if |h| > |v| then j + (|h| - |v|) else j) ==>
              lv[j] == 2.0 * lv[j + 1] + f.HalfTracks(h[i + 1])
    ensures j < |v| && i + 1 < |h| && i == (if |h| > |v| then j + (|h| - |v|) else j) ==>
              lh[i] == 2.0 * lh[i + 1] + f.HalfTracks(v[j])
    ensures |h| <= j + 1 < |v| ==> lv[j] == 2.0 * lv[j + 1]
    ensures |v| + i < |h| && i + 1 < |h| ==> lh[i] == 2.0 * lh[i + 1]
    ensures |v| > 0 ==> lv[|v| - 1] == f.height / 2.0
    ensures |h| > 0 && |v| == 0 ==> lh[|h| - 1] == f.width
    ensures |h| > 0 && |v| > 0 ==> lh[|h| - 1] == f.width + TracksFrom(f, v, (if |h| < |v| then |h| else |v|) - 1)
  {
    hide Floorplan.HalfTracks, TracksFrom;
    assert j + 1 < |lv| ==> Below(lv, j) == lv[j + 1];
    assert i + 1 < |lh| ==> Below(lh, i) == lh[i + 1];
    if |h| > 0 && |v| == 0 {
      NoTracks(f, v, |h|);
    }
  }

  lemma {:induction false} TracksFromNonnegative(f: Floorplan, v: seq<Level>, k: nat)
    requires f.WellFormed() && Routed(v) && k <= |v|
    ensures TracksFrom(f, v, k) >= 0.0
    ensures f.pitch == 0.0 ==> TracksFrom(f, v, k) == 0.0
    decreases |v| - k
  {
    if k < |v| {
      TracksNonnegative(f, v[k]);
      TracksFromNonnegative(f, v, k + 1);
    }
  }

  /** Each wire is at least twice as long as the one below it, whatever the repeater pitch. */
  lemma WiresAtLeastDouble(f: Floorplan, h: seq<Level>, v: seq<Level>, lh: seq<real>, lv: seq<real>)
    requires f.WellFormed() && Routed(h) && Routed(v) && Measured(f, h, v, lh, lv)
    ensures forall j {:trigger Below(lv, j)} :: 0 <= j < |lv| - 1 ==> lv[j] >= 2.0 * Below(lv, j)
    ensures forall i {:trigger Below(lh, i)} :: 0 <= i < |lh| - 1 ==> lh[i] >= 2.0 * Below(lh, i)
  {
    forall l | l in h ensures f.HalfTracks(l) >= 0.0 { TracksNonnegative(f, l); }
    forall l | l in v ensures f.HalfTracks(l) >= 0.0 { TracksNonnegative(f, l); }
  }

  function Total(ls: seq<real>): real {
    if ls == [] then 0.0 else ls[0] + Total(ls[1..])
  }

  /** A chain of doublings that ends in x sums to one wire short of the next doubling. */
  lemma {:induction false} DoublingTotal(ls: seq<real>, x: real)
    requires |ls| > 0 && ls[|ls| - 1] == x
    requires forall i {:trigger Below(ls, i)} :: 0 <= i < |ls| - 1 ==> ls[i] == 2.0 * Below(ls, i)
    ensures ls[0] == Pow2(|ls| - 1) as real * x
    ensures Total(ls) == (Pow2(|ls|) - 1) as real * x
  {
    if |ls| == 1 {
      assert ls[1..] == [];
    } else {
      var t := ls[1..];
      forall i {:trigger Below(t, i)} | 0 <= i < |t| - 1 ensures t[i] == 2.0 * Below(t, i) {
        assert ls[i + 1] == 2.0 * Below(ls, i + 1);
      }
      DoublingTotal(t, x);
      assert ls[0] == 2.0 * Below(ls, 0);
      AddDoubled(Pow2(|t| - 1) as real, x);
    }
  }

  lemma AddDoubled(p: real, x: real)
    ensures 2.0 * (p * x) == 2.0 * p * x
    ensures 2.0 * p * x + (2.0 * p - 1.0) * x == (4.0 * p - 1.0) * x
  {}

  /** Without repeaters the tracks cost nothing, and the wires along a path add up to the
      distances the geometry dictates: vertically (2^V - 1) half heights, which is half the
      bank less half a subarray; horizontally (2^H - 1) widths. */
  lemma TotalsWithoutRepeaters(f: Floorplan, h: seq<Level>, v: seq<Level>, lh: seq<real>, lv: seq<real>)
    requires f.WellFormed() && Routed(h) && Routed(v) && Measured(f, h, v, lh, lv)
    requires f.pitch == 0.0
    ensures Total(lv) == (Pow2(|v|) - 1) as real * (f.height / 2.0)
    ensures Total(lh) == (Pow2(|h|) - 1) as real * f.width
  {
    hide Floorplan.HalfTracks, Total, Pow2, TracksFrom, VerticalExtra, HorizontalExtra, LowestHorizontal;
    VerticalTotal(f, h, lv);
    HorizontalTotal(f, v, lh);
  }

  lemma VerticalTotal(f: Floorplan, h: seq<Level>, lv: seq<real>)
    requires f.WellFormed() && Routed(h) && f.pitch == 0.0 && VerticalFrom(f, h, lv, 0)
    ensures Total(lv) == (Pow2(|lv|) - 1) as real * (f.height / 2.0)
  {
    hide Floorplan.HalfTracks;
    if |lv| > 0 {
      forall l | l in h ensures f.HalfTracks(l) == 0.0 { TracksNonnegative(f, l); }
      DoublingTotal(lv, f.height / 2.0);
    }
  }

  lemma HorizontalTotal(f: Floorplan, v: seq<Level>, lh: seq<real>)
    requires f.WellFormed() && Routed(v) && f.pitch == 0.0 && HorizontalFrom(f, v, lh, 0)
    ensures Total(lh) == (Pow2(|lh|) - 1) as real * f.width
  {
    hide Floorplan.HalfTracks, TracksFrom;
    if |lh| > 0 {
      forall l | l in v ensures f.HalfTracks(l) == 0.0 { TracksNonnegative(f, l); }
      TracksFromNonnegative(f, v, if |v| == 0 then 0 else Min(|lh|, |v|) - 1);
      DoublingTotal(lh, f.width);
    }
  }

  // ---------------------------------------------------------------- filling the arrays

  method SetVertical(f: Floorplan, ghost h: seq<Level>, lv: array<real>, k: nat, x: real)
    requires f.WellFormed() && Routed(h) && k < lv.Length
    requires VerticalFrom(f, h, lv[..], k + 1)
    requires x == if k == lv.Length - 1 then f.height / 2.0 else 2.0 * lv[k + 1] + VerticalExtra(f, h, lv.Length, k)
    modifies lv
    ensures VerticalFrom(f, h, lv[..], k)
  {
    hide VerticalExtra;
    ghost var before := lv[..];
    lv[k] := x;
    ghost var after := lv[..];
    forall j {:trigger Below(after, j)} | 0 <= j < |after| - 1 && k <= j
      ensures after[j] == 2.0 * Below(after, j) + VerticalExtra(f, h, |after|, j)
    {
      assert Below(after, j) == Below(before, j);
    }
  }

  method SetHorizontal(f: Floorplan, ghost v: seq<Level>, lh: array<real>, k: nat, x: real)
    requires f.WellFormed() && Routed(v) && k < lh.Length
    requires HorizontalFrom(f, v, lh[..], k + 1)
    requires x == if k == lh.Length - 1 then LowestHorizontal(f, v, lh.Length)
                  else 2.0 * lh[k + 1] + HorizontalExtra(f, v, lh.Length, k)
    modifies lh
    ensures HorizontalFrom(f, v, lh[..], k)
  {
    hide HorizontalExtra, LowestHorizontal;
    ghost var before := lh[..];
    lh[k] := x;
    ghost var after := lh[..];
    forall i {:trigger Below(after, i)} | 0 <= i < |after| - 1 && k <= i
      ensures after[i] == 2.0 * Below(after, i) + HorizontalExtra(f, v, |after|, i)
    {
      assert Below(after, i) == Below(before, i);
    }
  }

  /** The tracks of the vertical levels from k down, added up from the top. */
  method SumTracks(f: Floorplan, vertical: array<Level>, k: nat, start: real) returns (x: real)
    requires f.WellFormed() && Routed(vertical[..]) && k <= vertical.Length
    ensures x == start + TracksFrom(f, vertical[..], k)
  {
    x := start;
    for i := k to vertical.Length
      invariant x + TracksFrom(f, vertical[..], i) == start + TracksFrom(f, vertical[..], k)
    {
      x := x + f.HalfTracks(vertical[i]);
    }
  }

  lemma NothingMeasured(f: Floorplan, h: seq<Level>, v: seq<Level>, lh: seq<real>, lv: seq<real>)
    requires f.WellFormed() && Routed(h) && Routed(v)
    ensures VerticalFrom(f, h, lv, |lv|) && HorizontalFrom(f, v, lh, |lh|)
  {}

  /** One vertical wire and the horizontal one it is paired with. */
  method MeasurePair(f: Floorplan, horizontal: array<Level>, vertical: array<Level>,
                     lengthHorizontal: array<real>, lengthVertical: array<real>, h: nat, v: nat)
    requires f.WellFormed() && Routed(horizontal[..]) && Routed(vertical[..])
    requires lengthHorizontal.Length == horizontal.Length && lengthVertical.Length == vertical.Length
    requires lengthHorizontal != lengthVertical
    requires h < horizontal.Length && v < vertical.Length && h == v + Surplus(horizontal.Length, vertical.Length)
    requires VerticalFrom(f, horizontal[..], lengthVertical[..], v + 1)
    requires HorizontalFrom(f, vertical[..], lengthHorizontal[..], h + 1)
    modifies lengthHorizontal, lengthVertical
    ensures VerticalFrom(f, horizontal[..], lengthVertical[..], v)
    ensures HorizontalFrom(f, vertical[..], lengthHorizontal[..], h)
  {
    hide HorizontalFrom, VerticalFrom, Floorplan.HalfTracks, TracksFrom;
    var x;
    if v == vertical.Length - 1 {
      x := f.height / 2.0;
    } else if h == horizontal.Length - 1 {
      x := lengthVertical[v + 1] * 2.0;
    } else {
      x := lengthVertical[v + 1] * 2.0 + f.HalfTracks(horizontal[h + 1]);
    }
    SetVertical(f, horizontal[..], lengthVertical, v, x);
    if h == horizontal.Length - 1 {
      x := SumTracks(f, vertical, v, f.width);
    } else {
      x := lengthHorizontal[h + 1] * 2.0 + f.HalfTracks(vertical[v]);
    }
    SetHorizontal(f, vertical[..], lengthHorizontal, h, x);
  }

  /** Measure every wire, from the subarrays up: surplus vertical levels, then pairs of one
      vertical and one horizontal level, then surplus horizontal levels. */
  method MeasureWires(f: Floorplan, horizontal: array<Level>, vertical: array<Level>,
                      lengthHorizontal: array<real>, lengthVertical: array<real>)
    requires f.WellFormed() && Routed(horizontal[..]) && Routed(vertical[..])
    requires lengthHorizontal.Length == horizontal.Length && lengthVertical.Length == vertical.Length
    requires lengthHorizontal != lengthVertical
    modifies lengthHorizontal, lengthVertical
    ensures Measured(f, horizontal[..], vertical[..], lengthHorizontal[..], lengthVertical[..])
  {
    hide HorizontalFrom, VerticalFrom, Floorplan.HalfTracks, Routed, TracksFrom;
    ghost var hs, vs := horizontal[..], vertical[..];
    NothingMeasured(f, hs, vs, lengthHorizontal[..], lengthVertical[..]);
    var h, v := horizontal.Length - 1, vertical.Length - 1;
    while v > h
      invariant -1 <= v < vertical.Length && h == horizontal.Length - 1
      invariant v < vertical.Length - 1 ==> v >= h
      invariant VerticalFrom(f, hs, lengthVertical[..], v + 1)
      invariant HorizontalFrom(f, vs, lengthHorizontal[..], h + 1)
    {
      var x := if v == vertical.Length - 1 then f.height / 2.0 else lengthVertical[v + 1] * 2.0;
      SetVertical(f, hs, lengthVertical, v, x);
      v := v - 1;
    }
    while v >= 0
      invariant -1 <= v < vertical.Length && h == v + Surplus(|hs|, |vs|)
      invariant VerticalFrom(f, hs, lengthVertical[..], v + 1)
      invariant HorizontalFrom(f, vs, lengthHorizontal[..], h + 1)
    {
      MeasurePair(f, horizontal, vertical, lengthHorizontal, lengthVertical, h, v);
      h, v := h - 1, v - 1;
    }
    while h >= 0
      invariant -1 <= h < Surplus(|hs|, |vs|)
      invariant VerticalFrom(f, hs, lengthVertical[..], 0)
      invariant HorizontalFrom(f, vs, lengthHorizontal[..], h + 1)
    {
      var x := f.width;
      if h == horizontal.Length - 1 {
        NoTracks(f, vs, |hs|);
      } else {
        x := lengthHorizontal[h + 1] * 2.0;
      }
      SetHorizontal(f, vs, lengthHorizontal, h, x);
      h := h - 1;
    }
  }

  lemma NoTracks(f: Floorplan, v: seq<Level>, columns: nat)
    requires f.WellFormed() && Routed(v) && columns >= 1 && |v| == 0
    ensures LowestHorizontal(f, v, columns) == f.width
  {}
}

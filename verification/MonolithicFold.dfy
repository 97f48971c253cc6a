/** Folding the cell array of a mat over memory tiers stacked on its peripheral logic. */
module MonolithicFold {
  import opened Common
  import opened Powers

  /** The areas that compete: the unfolded cell array, the logic below it, and the vias that
      each tier adds to the logic layer. */
  datatype FoldProblem = FoldProblem(memory: real, logic: real, vias: real) {
    predicate WellFormed() {
      memory >= 0.0 && logic >= 0.0 && vias >= 0.0
    }

    /** The footprint with t tiers: the larger of one tier's share and the logic layer. */
    function Footprint(t: nat): real
      requires t >= 1
    {
      MaxReal(memory / t as real, logic + vias * t as real)
    }
  }

  /** The area of n vias. */
  function Vias(n: nat, area: real): real {
    Times(n as real, area)
  }

  lemma Halving(x: real, t: nat)
    requires t >= 1
    ensures x / t as real / 2.0 == x / (2 * t) as real
    ensures x / t as real * t as real == x
  {}

  lemma ShareShrinks(x: real, s: nat, t: nat)
    requires x >= 0.0 && 1 <= s <= t
    ensures 0.0 <= x / t as real <= x / s as real
  {}

  lemma ViasGrow(v: real, s: nat, t: nat)
    requires v >= 0.0 && s <= t
    ensures v * s as real <= v * t as real
  {}

  /** If doubling t tiers does not pay, no larger stack pays either: past that point the logic
      layer dominates, and it only grows. */
  lemma StopIsFinal(p: FoldProblem, t: nat, u: nat)
    requires p.WellFormed() && 1 <= t && 2 * t <= u
    requires p.Footprint(2 * t) >= p.Footprint(t)
    ensures p.Footprint(u) >= p.Footprint(t)
  {
    Halving(p.memory, t);
    ShareShrinks(p.memory, t, 2 * t);
    ViasGrow(p.vias, t, 2 * t);
    ViasGrow(p.vias, 2 * t, u);
  }

  /** Vias for one tier: word lines and bit lines of each array, times the redundancy, rounded up. */
  function BaseSignals(kind: CellKind, rows: nat, columns: nat): nat {
    match kind
    case GainCell => 4 * (rows + columns)
    case BitlinePair => 2 * (rows + 2 * columns)
    case _ => 2 * (rows + columns)
  }

  function Ceiling(x: real): int {
    -(-x).Floor
  }

  type Length = x: real | 0.0 <= x

  /** What the vias and the longer wires between layers of different size add to the lines.
      `extension` is the length by which layers of so different an area miss each other, the
      square root in the code and any function here. */
  datatype Loads = Loads(
    viaWidth: real,
    viaCap: real,
    viaRes: real,
    capPerUnit: real,
    resPerUnitBitline: real,
    resPerUnitWordline: real,
    extension: real -> Length)
  {
    /** The wire that passes the vias of all tiers and the extension, and the vias themselves. */
    function Cap(tiers: nat, ext: real): real {
      Times(Times(viaWidth, tiers as real) + ext, capPerUnit) + Times(viaCap, tiers as real)
    }

    function Res(tiers: nat, ext: real, perUnit: real): real {
      Times(Times(viaWidth, tiers as real) + ext, perUnit) + Times(viaRes, tiers as real)
    }

    /** The extension for the layers of a folded mat. */
    function Extension(memoryArea: real, logicArea: real): real {
      extension(MaxReal(memoryArea - logicArea, logicArea - memoryArea))
    }

    method Extend(memoryArea: real, logicArea: real) returns (ext: real)
      ensures ext == Extension(memoryArea, logicArea)
    {
      var mismatch := memoryArea - logicArea;
      ext := extension(if mismatch < 0.0 then -mismatch else mismatch);
    }

    /** The additions term by term. */
    method Deltas(tiers: nat, ext: real) returns (cap: real, bitlineRes: real, wordlineRes: real)
      ensures cap == Cap(tiers, ext)
      ensures bitlineRes == Res(tiers, ext, resPerUnitBitline) && wordlineRes == Res(tiers, ext, resPerUnitWordline)
    {
      var t := tiers as real;
      cap := viaWidth * t * capPerUnit + ext * capPerUnit + viaCap * t;
      bitlineRes := viaWidth * t * resPerUnitBitline + viaRes * t + ext * resPerUnitBitline;
      wordlineRes := viaWidth * t * resPerUnitWordline + viaRes * t + ext * resPerUnitWordline;
      Spread(viaWidth * t, ext, capPerUnit);
      Spread(viaWidth * t, ext, resPerUnitBitline);
      Spread(viaWidth * t, ext, resPerUnitWordline);
    }

    lemma Spread(x: real, y: real, z: real)
      ensures Times(x + y, z) == x * z + y * z
    {}

    predicate Negative(tiers: nat, ext: real) {
      Cap(tiers, ext) < 0.0 || Res(tiers, ext, resPerUnitBitline) < 0.0 || Res(tiers, ext, resPerUnitWordline) < 0.0
    }
  }

  /** How a cell that shares its charge with the bit line is sensed. */
  datatype Sharing = Sharing(cellCap: real, vdd: real, minSenseVoltage: real) {
    /** The charge of the cell spread over cell and bit line reaches the least voltage the
        amplifier can sense. */
    predicate Senses(capBitline: real) {
      && cellCap + capBitline > 0.0 && vdd * cellCap > 0.0
      && Times(minSenseVoltage, cellCap + capBitline) <= vdd / 2.0 * cellCap
    }
  }

  /** A folded mat: its unfolded lines, the tiers and vias, one tier, the logic layer and the
      outline. */
  datatype Stack = Stack(
    lenBitline: real,
    lenWordline: real,
    tiers: nat,
    mivsPerTier: nat,
    totalMivCount: nat,
    memoryHeight: real,
    memoryWidth: real,
    memoryArea: real,
    logicArea: real,
    area: real,
    height: real,
    width: real,
    logicDominates: bool)
  {
    /** As many tiers as folds allow, alternating from the taller dimension, of equal area, with
        the best footprint and its shape. */
    ghost predicate Fits(h: nat, w: nat, limit: nat, peripheralLogicArea: real, viaArea: real) {
      var p := FoldProblem(Times(lenBitline, lenWordline), peripheralLogicArea, Times(mivsPerTier as real, viaArea));
      && tiers == Pow2(h + w) <= limit
      && h == (if lenBitline > lenWordline then (h + w + 1) / 2 else (h + w) / 2)
      && Unfold(memoryHeight, h) == lenBitline && Unfold(memoryWidth, w) == lenWordline
      && memoryArea == Times(lenBitline, lenWordline) / tiers as real
      && totalMivCount == mivsPerTier * tiers <= UINT64_MAX
      && Optimal(p, h + w, limit)
      && area == p.Footprint(tiers)
      && logicArea == peripheralLogicArea + Times(totalMivCount as real, viaArea)
      && area == MaxReal(logicArea, memoryArea)
      && Times(height, width) == area && width == memoryWidth
      && (logicDominates <==> area == logicArea)
    }
  }

  class Mat {
    const kind: CellKind
    const numRow: nat
    const numColumn: nat
    const lenBitline: real
    const lenWordline: real
    /** Repeaters cut the word line into sections. */
    const numRepeaters: nat
    const gateCapRep: real
    var resBitline: real
    var resWordline: real
    var capBitline: real
    var capWordline: real
    /** Gain cells are read through lines of their own. */
    var capBitlineRead: real
    var capWordlineRead: real
    var sectionCapMux: real
    /** What the decoders and the precharger drive. */
    var rowDecoderCap: real
    var muxDecoderCap: real
    var decoderRes: real
    var prechargerCap: real
    var prechargerRes: real
    var senseVoltage: real
    var memoryHeight: real
    var memoryWidth: real
    var memoryArea: real
    var stackedMemTiers: nat
    var mivsPerTier: nat
    var totalMivCount: nat
    var logicArea: real
    var area: real
    var height: real
    var width: real
    var logicDominates: bool
    var invalid: bool

    constructor (kind: CellKind, numRow: nat, numColumn: nat, lenBitline: real, lenWordline: real,
                 resBitline: real, resWordline: real, capBitline: real, capWordline: real,
                 capBitlineRead: real, capWordlineRead: real, sectionCapMux: real, numRepeaters: nat, gateCapRep: real)
      ensures this.lenBitline == lenBitline && this.lenWordline == lenWordline
      ensures this.kind == kind && this.numRow == numRow && this.numColumn == numColumn
      ensures this.resBitline == resBitline && this.resWordline == resWordline
      ensures this.capBitline == capBitline && this.capWordline == capWordline
      ensures this.capBitlineRead == capBitlineRead && this.capWordlineRead == capWordlineRead
      ensures this.sectionCapMux == sectionCapMux && this.numRepeaters == numRepeaters && this.gateCapRep == gateCapRep
      ensures !invalid
    {
      this.kind, this.numRow, this.numColumn := kind, numRow, numColumn;
      this.lenBitline, this.lenWordline := lenBitline, lenWordline;
      this.resBitline, this.resWordline := resBitline, resWordline;
      this.capBitline, this.capWordline, senseVoltage := capBitline, capWordline, 0.0;
      this.capBitlineRead, this.capWordlineRead, this.sectionCapMux := capBitlineRead, capWordlineRead, sectionCapMux;
      this.numRepeaters, this.gateCapRep := numRepeaters, gateCapRep;
      rowDecoderCap, muxDecoderCap, decoderRes, prechargerCap, prechargerRes := 0.0, 0.0, 0.0, 0.0, 0.0;
      memoryHeight, memoryWidth, memoryArea, logicArea, area, height, width := 0.0, 0.0, 0.0, 0.0, 0.0, 0.0, 0.0;
      invalid := false;
    }

    /** The problem the fold loop solves for vias of a given area. */
    ghost function Problem(peripheralLogicArea: real, viaArea: real): FoldProblem
      reads this
    {
      FoldProblem(Times(lenBitline, lenWordline), peripheralLogicArea, Vias(mivsPerTier, viaArea))
    }

    /** The dimensions and line resistances after h folds of the height and w of the width,
        starting from resistances b and c. */
    ghost predicate Folded(h: nat, w: nat, b: real, c: real)
      reads this
    {
      && Unfold(memoryHeight, h) == lenBitline && Unfold(resBitline, h) == b
      && Unfold(memoryWidth, w) == lenWordline && Unfold(resWordline, w) == c
    }

    /** One fold halves one dimension, the resistance along it and the area of a tier. */
    method FoldOnce(reduceHeight: bool, ghost h: nat, ghost w: nat, ghost b: real, ghost c: real)
      requires Folded(h, w, b, c) && memoryArea == Times(memoryHeight, memoryWidth)
      modifies this`memoryHeight, this`memoryWidth, this`memoryArea, this`resBitline, this`resWordline
      ensures if reduceHeight then Folded(h + 1, w, b, c) else Folded(h, w + 1, b, c)
      ensures memoryArea == Times(memoryHeight, memoryWidth) == old(memoryArea) / 2.0
    {
      hide Unfold, Times;
      HalfOfProduct(memoryHeight, memoryWidth);
      if reduceHeight {
        HalfUnfolds(memoryHeight, h);
        HalfUnfolds(resBitline, h);
        memoryHeight := memoryHeight / 2.0;
        resBitline := resBitline / 2.0;
      } else {
        HalfUnfolds(memoryWidth, w);
        HalfUnfolds(resWordline, w);
        memoryWidth := memoryWidth / 2.0;
        resWordline := resWordline / 2.0;
      }
      memoryArea := Times(memoryHeight, memoryWidth);
    }

    /** Halve the taller dimension first and then alternate, as long as the footprint strictly
        falls and the tier limit allows.  The result is the smallest of the best stacks. */
    method Fold(limit: nat, peripheralLogicArea: real, viaArea: real) returns (tiers: nat, ghost h: nat, ghost w: nat)
      requires 1 <= limit && lenBitline >= 0.0 && lenWordline >= 0.0 && peripheralLogicArea >= 0.0 && viaArea >= 0.0
      modifies this`memoryHeight, this`memoryWidth, this`memoryArea, this`resBitline, this`resWordline
      ensures tiers == Pow2(h + w) <= limit
      ensures h == if lenBitline > lenWordline then (h + w + 1) / 2 else (h + w) / 2
      ensures Folded(h, w, old(resBitline), old(resWordline))
      ensures memoryArea == Times(memoryHeight, memoryWidth) == Times(lenBitline, lenWordline) / tiers as real
      ensures limit <= UINT64_MAX ==> Optimal(Problem(peripheralLogicArea, viaArea), h + w, limit)
    {
      hide FoldProblem.Footprint, Folded, Pow2, Times, Falling, Optimal;
      memoryHeight, memoryWidth := lenBitline, lenWordline;
      memoryArea := Times(memoryHeight, memoryWidth);
      var reduceHeight := memoryHeight > memoryWidth;
      tiers, h, w := 1, 0, 0;
      ghost var p := Problem(peripheralLogicArea, viaArea);
      Unfolded(p);
      var better := true;
      while better
        invariant tiers == Pow2(h + w) <= limit
        invariant h == if lenBitline > lenWordline then (h + w + 1) / 2 else (h + w) / 2
        invariant reduceHeight <==> ((lenBitline > lenWordline) <==> (h + w) % 2 == 0)
        invariant Folded(h, w, old(resBitline), old(resWordline))
        invariant memoryArea == Times(memoryHeight, memoryWidth) == p.memory / tiers as real
        invariant Falling(p, h + w)
        invariant !better && limit <= UINT64_MAX ==> Stopped(p, h + w, limit)
        decreases limit - tiers, better
      {
        NextPow2(h + w);
        better := DoublingPays(tiers, limit, memoryArea, mivsPerTier, peripheralLogicArea, viaArea, p);
        if better {
          FoldOnce(reduceHeight, h, w, old(resBitline), old(resWordline));
          Halving(p.memory, tiers);
          StillFalling(p, h + w);
          if reduceHeight {
            h := h + 1;
          } else {
            w := w + 1;
          }
          reduceHeight := !reduceHeight;
          tiers := tiers * 2;
        }
      }
      if limit <= UINT64_MAX {
        ProblemIsWellFormed(peripheralLogicArea, viaArea);
        assert p == Problem(peripheralLogicArea, viaArea);
        StoppedIsOptimal(p, h + w, limit);
      }
    }

    lemma ProblemIsWellFormed(peripheralLogicArea: real, viaArea: real)
      requires lenBitline >= 0.0 && lenWordline >= 0.0 && peripheralLogicArea >= 0.0 && viaArea >= 0.0
      ensures Problem(peripheralLogicArea, viaArea).WellFormed()
    {}

    /** The vias one tier asks for: four for every row and column of a gain cell, two for a row and
        four for a column with a pair of bit lines, two for either otherwise, times the redundancy. */
    ghost function ViaDemand(redundancy: real): real {
      var rows, columns := numRow as real, numColumn as real;
      if kind == GainCell then (4.0 * rows + 4.0 * columns) * redundancy
      else if kind == BitlinePair then (2.0 * rows + 4.0 * columns) * redundancy
      else (2.0 * rows + 2.0 * columns) * redundancy
    }

    /** When the fold is refused, in terms of its inputs alone.  The guards on the total via
        count and on the tier count in the code never fire. */
    ghost predicate Refused(redundancy: real, maxMatLayers: int, peripheralLogicArea: real, viaArea: real) {
      || redundancy <= 0.0 || maxMatLayers <= 0
      || !(0.0 < ViaDemand(redundancy) <= INT_MAX as real)
      || peripheralLogicArea <= 0.0 || viaArea <= 0.0 || Times(lenBitline, lenWordline) <= 0.0
    }

    ghost function Chosen(): Stack
      reads this
    {
      Stack(lenBitline, lenWordline, stackedMemTiers, mivsPerTier, totalMivCount, memoryHeight, memoryWidth, memoryArea,
            logicArea, area, height, width, logicDominates)
    }

    /** The folded layout of a mat, and the loads its lines end up with. */
    method CalculateArea(redundancy: real, maxMatLayers: int, peripheralLogicArea: real, viaArea: real, l: Loads, c: Sharing)
      returns (ghost h: nat, ghost w: nat, ghost ext: real)
      requires !invalid && maxMatLayers <= INT_MAX && lenBitline >= 0.0 && lenWordline >= 0.0
      modifies this
      ensures Refused(redundancy, maxMatLayers, peripheralLogicArea, viaArea) ==> invalid
      ensures !Refused(redundancy, maxMatLayers, peripheralLogicArea, viaArea) ==>
                && Chosen().Fits(h, w, maxMatLayers, peripheralLogicArea, viaArea)
                && (mivsPerTier - 1) as real < ViaDemand(redundancy) <= mivsPerTier as real
                && ext == l.Extension(memoryArea, peripheralLogicArea)
                && (invalid <==> l.Negative(stackedMemTiers, ext)
                                 || (kind == Dram && !c.Senses(old(capBitline) + l.Cap(stackedMemTiers, ext))))
      ensures !invalid ==> Loaded(h, w, l, ext, old(resBitline), old(resWordline), old(capBitline), old(capWordline))
      ensures !invalid ==> Driven(l.Cap(stackedMemTiers, ext), old(capBitlineRead), old(capWordlineRead), old(sectionCapMux))
      ensures !invalid && kind == Dram ==> Times(senseVoltage, c.cellCap + capBitline) == c.vdd / 2.0 * c.cellCap
    {
      hide FoldProblem.Footprint, Driven, Loads.Negative, Sharing.Senses, ViaDemand, Stack.Fits, Unfold, Pow2, Times, Optimal, Loads.Cap, Loads.Res, Loads.Extension;
      h, w, ext := 0, 0, 0.0;
      var counted := CountVias(redundancy, maxMatLayers);
      if !counted || peripheralLogicArea <= 0.0 || viaArea < 0.0 {
        invalid := true;
        return;
      }
      h, w := FoldAndConclude(maxMatLayers, peripheralLogicArea, viaArea);
      if invalid {
        return;
      }
      var wireExtension := l.Extend(memoryArea, peripheralLogicArea);
      ext := wireExtension;
      LoadLines(l, wireExtension, c);
    }

    /** Whole vias for one tier, as few as meet the demand. */
    method CountVias(redundancy: real, maxMatLayers: int) returns (ok: bool)
      modifies this`mivsPerTier
      ensures ok <==> redundancy > 0.0 && maxMatLayers > 0 && 0.0 < ViaDemand(redundancy) <= INT_MAX as real
      ensures ok ==> 1 <= mivsPerTier <= INT_MAX && (mivsPerTier - 1) as real < ViaDemand(redundancy) <= mivsPerTier as real
    {
      hide ViaDemand;
      var scaledMivs := Ceiling(BaseSignals(kind, numRow, numColumn) as real * redundancy);
      DemandIsMet(redundancy);
      if redundancy <= 0.0 || scaledMivs <= 0 || scaledMivs > INT_MAX || maxMatLayers <= 0 {
        return false;
      }
      mivsPerTier := scaledMivs;
      ok := true;
    }

    lemma DemandIsMet(redundancy: real)
      ensures var n := Ceiling(BaseSignals(kind, numRow, numColumn) as real * redundancy);
              && (n - 1) as real < ViaDemand(redundancy) <= n as real
              && (0 < n <= INT_MAX <==> 0.0 < ViaDemand(redundancy) <= INT_MAX as real)
    {
      var n := BaseSignals(kind, numRow, numColumn);
      assert n as real * redundancy == ViaDemand(redundancy);
    }

    method FoldAndConclude(limit: nat, peripheralLogicArea: real, viaArea: real) returns (ghost h: nat, ghost w: nat)
      requires !invalid && 1 <= limit <= INT_MAX && 1 <= mivsPerTier <= INT_MAX
      requires lenBitline >= 0.0 && lenWordline >= 0.0 && peripheralLogicArea > 0.0 && viaArea >= 0.0
      modifies this
      ensures mivsPerTier == old(mivsPerTier) && capBitline == old(capBitline) && capWordline == old(capWordline)
      ensures capBitlineRead == old(capBitlineRead) && capWordlineRead == old(capWordlineRead) && sectionCapMux == old(sectionCapMux)
      ensures invalid <==> viaArea <= 0.0 || Times(lenBitline, lenWordline) <= 0.0
      ensures !invalid ==> Chosen().Fits(h, w, limit, peripheralLogicArea, viaArea)
      ensures Unfold(resBitline, h) == old(resBitline) && Unfold(resWordline, w) == old(resWordline)
    {
      hide FoldProblem.Footprint, Unfold, Pow2, Times, Optimal;
      var tiers;
      tiers, h, w := Fold(limit, peripheralLogicArea, viaArea);
      ghost var p := Problem(peripheralLogicArea, viaArea);
      Conclude(tiers, peripheralLogicArea, viaArea);
      assert p == Problem(peripheralLogicArea, viaArea);
    }

    /** The lines of the folded mat: halved resistances, and the loads of the vias on top. */
    ghost predicate Loaded(h: nat, w: nat, l: Loads, ext: real, resBit: real, resWord: real, capBit: real, capWord: real)
      reads this
    {
      && Unfold(resBitline - l.Res(stackedMemTiers, ext, l.resPerUnitBitline), h) == resBit
      && Unfold(resWordline - l.Res(stackedMemTiers, ext, l.resPerUnitWordline), w) == resWord
      && capBitline == capBit + l.Cap(stackedMemTiers, ext)
      && capWordline == capWord + l.Cap(stackedMemTiers, ext)
    }

    /** The sections the repeaters leave add up to the line, each decoder drives one of them and
        the first repeater, and the precharger drives the bit line that is read. */
    ghost predicate Driven(delta: real, bitlineRead: real, wordlineRead: real, mux: real)
      reads this
    {
      var n, gate := (numRepeaters + 1) as real, if numRepeaters > 0 then gateCapRep else 0.0;
      && Times(decoderRes, n) == resWordline
      && Times(rowDecoderCap - gate, n) == capWordline
      && Times(muxDecoderCap - gate - mux, n) == delta && sectionCapMux == muxDecoderCap - gate
      && prechargerCap == (if kind == GainCell then capBitlineRead else capBitline) && prechargerRes == resBitline
      && capBitlineRead == (if kind == GainCell then bitlineRead + delta else bitlineRead)
      && capWordlineRead == (if kind == GainCell then wordlineRead + delta else wordlineRead)
    }

    /** Pass the loads on to the circuits at the ends of the lines. */
    method DriveLines(delta: real)
      modifies this`capBitlineRead, this`capWordlineRead, this`sectionCapMux, this`rowDecoderCap, this`muxDecoderCap
      modifies this`decoderRes, this`prechargerCap, this`prechargerRes
      ensures Driven(delta, old(capBitlineRead), old(capWordlineRead), old(sectionCapMux))
    {
      hide Times;
      if kind == GainCell {
        capBitlineRead := capBitlineRead + delta;
        capWordlineRead := capWordlineRead + delta;
      }
      var n := (numRepeaters + 1) as real;
      var gate := if numRepeaters > 0 then gateCapRep else 0.0;
      SharedCharge(resWordline, n, 0.0);
      SharedCharge(capWordline, n, 0.0);
      SharedCharge(delta, n, 0.0);
      decoderRes := resWordline / n;
      sectionCapMux := sectionCapMux + delta / n;
      rowDecoderCap := capWordline / n + gate;
      muxDecoderCap := sectionCapMux + gate;
      prechargerCap := if kind == GainCell then capBitlineRead else capBitline;
      prechargerRes := resBitline;
      assert muxDecoderCap - gate - old(sectionCapMux) == delta / n;
      assert rowDecoderCap - gate == capWordline / n;
    }

    /** Add the loads, and for a cell that shares its charge see what is left to sense. */
    method LoadLines(l: Loads, ext: real, c: Sharing)
      requires !invalid
      modifies this`invalid, this`capBitline, this`capWordline, this`resBitline, this`resWordline, this`senseVoltage
      modifies this`capBitlineRead, this`capWordlineRead, this`sectionCapMux, this`rowDecoderCap, this`muxDecoderCap
      modifies this`decoderRes, this`prechargerCap, this`prechargerRes
      ensures invalid <==> l.Negative(stackedMemTiers, ext)
                           || (kind == Dram && !c.Senses(old(capBitline) + l.Cap(stackedMemTiers, ext)))
      ensures !invalid ==>
                && resBitline == old(resBitline) + l.Res(stackedMemTiers, ext, l.resPerUnitBitline)
                && resWordline == old(resWordline) + l.Res(stackedMemTiers, ext, l.resPerUnitWordline)
                && capBitline == old(capBitline) + l.Cap(stackedMemTiers, ext)
                && capWordline == old(capWordline) + l.Cap(stackedMemTiers, ext)
                && Driven(l.Cap(stackedMemTiers, ext), old(capBitlineRead), old(capWordlineRead), old(sectionCapMux))
      ensures !invalid && kind == Dram ==> Times(senseVoltage, c.cellCap + capBitline) == c.vdd / 2.0 * c.cellCap
    {
      hide Loads.Cap, Loads.Res, Times;
      var capDelta, bitlineResDelta, wordlineResDelta := l.Deltas(stackedMemTiers, ext);
      if capDelta < 0.0 || bitlineResDelta < 0.0 || wordlineResDelta < 0.0 {
        invalid := true;
        return;
      }
      capBitline := capBitline + capDelta;
      capWordline := capWordline + capDelta;
      resBitline := resBitline + bitlineResDelta;
      resWordline := resWordline + wordlineResDelta;
      DriveLines(capDelta);
      if kind == Dram {
        var sharingCap := c.cellCap + capBitline;
        if sharingCap <= 0.0 {
          invalid := true;
          return;
        }
        senseVoltage := c.vdd / 2.0 * c.cellCap / sharingCap;
        SharedCharge(c.vdd / 2.0 * c.cellCap, sharingCap, c.minSenseVoltage);
        if senseVoltage <= 0.0 || senseVoltage < c.minSenseVoltage {
          invalid := true;
        }
      }
    }

    /** Total the vias, compare the two layers and keep the folded width. */
    method Conclude(tiers: nat, peripheralLogicArea: real, viaArea: real)
      requires !invalid && 1 <= tiers <= INT_MAX && 1 <= mivsPerTier <= INT_MAX
      requires lenBitline >= 0.0 && lenWordline >= 0.0 && peripheralLogicArea > 0.0 && viaArea >= 0.0
      requires memoryArea == Times(memoryHeight, memoryWidth) == Times(lenBitline, lenWordline) / tiers as real
      modifies this`invalid, this`totalMivCount, this`logicArea, this`area, this`logicDominates, this`stackedMemTiers
      modifies this`height, this`width
      ensures invalid <==> viaArea <= 0.0 || Times(lenBitline, lenWordline) <= 0.0
      ensures !invalid ==> stackedMemTiers == tiers
      ensures !invalid ==> totalMivCount == mivsPerTier * stackedMemTiers <= UINT64_MAX
      ensures !invalid ==> area == Problem(peripheralLogicArea, viaArea).Footprint(stackedMemTiers)
      ensures !invalid ==> Times(height, width) == area && width == memoryWidth
      ensures !invalid ==> (logicDominates <==> area == logicArea)
      ensures !invalid ==> logicArea == peripheralLogicArea + Times(totalMivCount as real, viaArea) && area == MaxReal(logicArea, memoryArea)
    {
      hide FoldProblem.Footprint, Times;
      CountFits(mivsPerTier, tiers);
      var overflows := mivsPerTier > UINT64_MAX / tiers;
      totalMivCount := mivsPerTier * tiers;
      var totalMivArea := Vias(totalMivCount, viaArea);
      logicArea := peripheralLogicArea + totalMivArea;
      area := MaxReal(logicArea, memoryArea);
      logicDominates := logicArea >= memoryArea;
      TimesSign(lenBitline, lenWordline);
      Positive(Times(lenBitline, lenWordline), tiers, totalMivCount, viaArea);
      if overflows || totalMivArea <= 0.0 || logicArea <= 0.0 || memoryArea <= 0.0 || area <= 0.0 || tiers > INT_MAX {
        invalid := true;
        return;
      }
      stackedMemTiers := tiers;
      FinalFootprint(Problem(peripheralLogicArea, viaArea), mivsPerTier, tiers, viaArea, memoryArea, logicArea);
      SetShape();
    }

    method SetShape()
      requires area > 0.0 && memoryArea == Times(memoryHeight, memoryWidth) > 0.0
      modifies this`height, this`width
      ensures Times(height, width) == area && width == memoryWidth
    {
      FinalShape(memoryHeight, memoryWidth, area);
      var areaRatio := memoryHeight / memoryArea;
      height := areaRatio * area;
      width := area / height;
    }

    lemma Unfolded(p: FoldProblem)
      requires memoryHeight == lenBitline && memoryWidth == lenWordline
      ensures Folded(0, 0, resBitline, resWordline) && Pow2(0) == 1 && Falling(p, 0)
      ensures p.memory / 1.0 == p.memory
    {}
  }

  lemma NextPow2(k: nat)
    ensures Pow2(k + 1) == 2 * Pow2(k)
  {}

  /** A dimension or resistance before k halvings. */
  function Unfold(x: real, k: nat): real {
    x * Pow2(k) as real
  }

  lemma HalfUnfolds(x: real, k: nat)
    ensures Unfold(x / 2.0, k + 1) == Unfold(x, k)
  {}

  lemma HalfOfProduct(x: real, y: real)
    ensures Times(x / 2.0, y) == Times(x, y / 2.0) == Times(x, y) / 2.0
  {}

  /** Every stack on the way to 2^k tiers has a strictly larger footprint than 2^k tiers. */
  ghost predicate Falling(p: FoldProblem, k: nat) {
    forall i :: 0 <= i < k ==> p.Footprint(Pow2(i)) > p.Footprint(Pow2(k))
  }

  ghost predicate Stopped(p: FoldProblem, k: nat, limit: nat) {
    Pow2(k + 1) <= limit ==> p.Footprint(Pow2(k + 1)) >= p.Footprint(Pow2(k))
  }

  /** No power-of-two stack within the limit is better than 2^k tiers, and no smaller one is as good. */
  ghost predicate Optimal(p: FoldProblem, k: nat, limit: nat) {
    && (forall j: nat :: Pow2(j) <= limit ==> p.Footprint(Pow2(j)) >= p.Footprint(Pow2(k)))
    && (forall j: nat :: j < k ==> p.Footprint(Pow2(j)) > p.Footprint(Pow2(k)))
  }

  /** Every power-of-two stack is either one the greedy loop passed on its way down or one
      above the point where it stopped. */
  lemma StoppedIsOptimal(p: FoldProblem, k: nat, limit: nat)
    requires p.WellFormed() && Falling(p, k) && Stopped(p, k, limit)
    ensures Optimal(p, k, limit)
  {
    hide FoldProblem.Footprint;
    forall j: nat | Pow2(j) <= limit ensures p.Footprint(Pow2(j)) >= p.Footprint(Pow2(k)) {
      if j > k {
        Pow2Monotone(k + 1, j);
        StopIsFinal(p, Pow2(k), Pow2(j));
      }
    }
  }

  lemma StillFalling(p: FoldProblem, k: nat)
    requires Falling(p, k) && p.Footprint(Pow2(k + 1)) < p.Footprint(Pow2(k))
    ensures Falling(p, k + 1)
  {}

  /** Compare the footprint now with the footprint after one more fold. */
  method DoublingPays(tiers: nat, limit: nat, memoryArea: real, mivsPerTier: nat, peripheralLogicArea: real, viaArea: real,
                      ghost p: FoldProblem)
    returns (pays: bool)
    requires tiers >= 1 && memoryArea == p.memory / tiers as real
    requires p.logic == peripheralLogicArea && p.vias == Vias(mivsPerTier, viaArea)
    ensures pays ==> 2 * tiers <= limit && p.Footprint(2 * tiers) < p.Footprint(tiers)
    ensures limit <= UINT64_MAX && !pays && 2 * tiers <= limit ==> p.Footprint(2 * tiers) >= p.Footprint(tiers)
  {
    hide Vias, FoldProblem.Footprint;
    if tiers > UINT64_MAX / 2 {
      return false;
    }
    var nextTiers := tiers * 2;
    if nextTiers > limit {
      return false;
    }
    var currentMivArea := Vias(mivsPerTier * tiers, viaArea);
    var nextMivArea := Vias(mivsPerTier * nextTiers, viaArea);
    Halving(p.memory, tiers);
    FinalFootprint(p, mivsPerTier, tiers, viaArea, memoryArea, peripheralLogicArea + currentMivArea);
    FinalFootprint(p, mivsPerTier, nextTiers, viaArea, memoryArea / 2.0, peripheralLogicArea + nextMivArea);
    var currentProjectedArea := MaxReal(memoryArea, peripheralLogicArea + currentMivArea);
    var nextProjectedArea := MaxReal(memoryArea / 2.0, peripheralLogicArea + nextMivArea);
    pays := nextProjectedArea < currentProjectedArea;
  }

  lemma CountFits(m: nat, t: nat)
    requires 1 <= m <= INT_MAX && 1 <= t <= INT_MAX
    ensures 1 <= m * t <= UINT64_MAX && m <= UINT64_MAX / t
  {
    MulMonotone(m, t, INT_MAX, INT_MAX);
    MulMonotone(1, 1, m, t);
    DivModLaw(UINT64_MAX, t);
    var q := UINT64_MAX / t;
    if q < m {
      MulMonotone(q + 1, t, m, t);
      Distribute(q, -1, t);
    }
  }

  /** What is positive stays positive, and a via without area is caught. */
  lemma Positive(x: real, t: nat, n: nat, v: real)
    requires t >= 1 && n >= 1 && v >= 0.0 && x >= 0.0
    ensures Vias(n, v) > 0.0 <==> v > 0.0
    ensures x / t as real > 0.0 <==> x > 0.0
    ensures Vias(n, v) >= 0.0
  {}

  lemma FinalFootprint(p: FoldProblem, m: nat, t: nat, v: real, memoryArea: real, logicArea: real)
    requires t >= 1 && p.vias == Vias(m, v)
    requires memoryArea == p.memory / t as real && logicArea == p.logic + Vias(m * t, v)
    ensures p.Footprint(t) == MaxReal(logicArea, memoryArea)
  {}

  lemma SharedCharge(q: real, cap: real, least: real)
    requires cap > 0.0
    ensures Times(q / cap, cap) == q
    ensures q / cap > 0.0 <==> q > 0.0
    ensures q / cap >= least <==> Times(least, cap) <= q
  {}

  /** Keeping the folded width, the footprint fixes the height. */
  lemma FinalShape(mh: real, mw: real, a: real)
    requires Times(mh, mw) > 0.0 && a > 0.0
    ensures var h := mh / Times(mh, mw) * a;
            h != 0.0 && a / h == mw && h * (a / h) == a
  {}
}

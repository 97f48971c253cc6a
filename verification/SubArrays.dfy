/** A subarray turns the address, data and way bits it is given into the rows and columns of
    its mats and into the widths of its predecoder blocks. */
module SubArrays {
  import opened Powers
  import opened Organisations

  predicate WellFormed(r: SubArrayRequest) {
    r.mats.WellFormed() && r.muxes.Positive() && r.numWay >= 1
  }

  /** Address bits left after selecting the active mats. */
  function EffectiveBits(r: SubArrayRequest): int
    requires WellFormed(r)
  {
    r.numAddressBit - r.mats.GatingBits()
  }

  /** Address bits left for the row decoder once the column muxes have taken theirs. */
  function RowBits(r: SubArrayRequest): int
    requires WellFormed(r)
  {
    EffectiveBits(r) - NearLog2(r.muxes.Degree(), 1)
  }

  /** The ways of a data array lie in different rows of its mats. */
  function WaysInRows(r: SubArrayRequest): nat {
    if r.memoryType == Data then r.numWay else 1
  }

  function MatRows(r: SubArrayRequest): nat
    requires WellFormed(r) && EffectiveBits(r) >= 0
  {
    DegreePositive(r.muxes);
    Quotient(Product(Pow2(EffectiveBits(r)), WaysInRows(r)), r.muxes.Degree())
  }

  function MatColumns(r: SubArrayRequest): nat
    requires WellFormed(r)
  {
    var c := Product(Quotient(r.numDataBit, r.mats.Active()), r.muxes.Degree());
    if r.memoryType == Tag then Product(c, r.numWay) else c
  }

  function Shape(r: SubArrayRequest): MatShape
    requires WellFormed(r) && EffectiveBits(r) >= 0
  {
    MatShape(MatRows(r), MatColumns(r), r.numRowPerSet > 1, r.muxes)
  }

  /** A forced mat size filters data arrays and never touches tag arrays. */
  predicate PassesFilter(r: SubArrayRequest, env: Environment)
    requires WellFormed(r) && EffectiveBits(r) >= 0
  {
    r.memoryType == Data && env.forcedMat.Some? ==> env.forcedMat.value == (MatRows(r), MatColumns(r))
  }

  /** When a subarray can be built, in terms of bit budgets alone. */
  predicate Accepts(r: SubArrayRequest, env: Environment)
    requires WellFormed(r)
  {
    && EffectiveBits(r) > 0
    && MatRows(r) >= 1
    && RowBits(r) >= 0
    && r.numDataBit >= r.mats.Active()
    && PassesFilter(r, env)
    && env.matIsFeasible(Shape(r))
  }

  /** A pair of predecoder blocks uses the second only beyond three bits, and then evenly. */
  predicate Balanced(b: (nat, nat)) {
    if b.0 + b.1 <= 3 then b.1 == 0 else b.1 <= b.0 <= b.1 + 1
  }

  /** A balanced pair that decodes a mux of some degree: exactly for a power of two, and within
      2^0.1 of the next one otherwise. */
  predicate Decodes(b: (nat, nat), degree: nat) {
    && Balanced(b)
    && (IsPow2(degree) ==> Pow2(b.0 + b.1) == degree)
    && Tenth(Pow2(b.0 + b.1)) <= 2 * Tenth(degree) < Tenth(Pow2(b.0 + b.1 + 1))
  }

  lemma SplitDecodes(degree: nat)
    requires degree >= 1
    ensures Decodes(SplitBits(NearLog2(degree, 1)), degree)
  {
    hide NearLog2, Tenth, Pow2, IsPow2;
    NearLog2Rounds(degree, 1);
    if IsPow2(degree) {
      NearLog2OfPow2(degree);
      LogExact(degree);
    }
  }

  /** Up to three bits go to one predecoder block; more are shared by two. */
  function SplitBits(b: nat): (s: (nat, nat))
    ensures s.0 + s.1 == b
    ensures if b <= 3 then s.1 == 0 else s.1 <= s.0 <= s.1 + 1
  {
    if b > 3 then (b - b / 2, b / 2) else (b, 0)
  }

  /** The row count's division by the mux degree is exact, unless the row decoder would be
      left with a negative number of bits. */
  lemma RowDivision(bits: nat, ways: nat, mux: nat)
    requires mux <= bits
    requires ways >= 1
    ensures Quotient(Pow2(bits) * ways, Pow2(mux)) == Pow2(bits - mux) * ways
    ensures Pow2(bits - mux) * ways >= 1
  {
    Pow2Add(bits - mux, mux);
    CancelFactor(Pow2(bits - mux), Pow2(mux), ways);
  }

  /** So with power-of-two muxes the mats have 2^(row bits) rows for each way, and every address
      bit is decoded once. */
  lemma Pow2Muxes(r: SubArrayRequest)
    requires WellFormed(r) && r.muxes.WellFormed() && RowBits(r) >= 0
    ensures MatRows(r) == Product(Pow2(RowBits(r)), WaysInRows(r)) >= 1
    ensures RowBits(r) == EffectiveBits(r) - r.muxes.Bits()
    ensures RowBits(r) + r.muxes.SelectBits() == EffectiveBits(r)
    ensures r.muxes.Degree() == Pow2(r.muxes.Bits())
  {
    hide NearLog2, Pow2, FloorLog2, IsPow2, Quotient, Grid.GatingBits;
    DegreeIsPow2(r.muxes);
    RowDivision(EffectiveBits(r), WaysInRows(r), r.muxes.Bits());
  }

  lemma CancelFactor(p: nat, d: nat, w: nat)
    requires p >= 1 && d >= 1 && w >= 1
    ensures Quotient(p * d * w, d) == p * w >= 1
  {
    assert p * d * w == p * w * d;
    DivExact(p * w, d);
    MulAtLeast(p, w);
  }

  lemma ColumnDivision(n: nat, d: nat)
    requires d >= 1
    ensures Quotient(n, d) == 0 <==> n < d
  {}

  /** `(int)(log2(x) + 0.1)` of a power of two. */
  method Log2(x: nat) returns (e: nat)
    requires IsPow2(x)
    ensures e == FloorLog2(x)
  {
    NearLog2OfPow2(x);
    e := NearLog2(x, 1);
  }

  /** The address bits that power-gate the units of a grid that an access leaves idle. */
  method CountGatingBits(g: Grid) returns (bits: nat)
    requires g.WellFormed()
    ensures bits == g.GatingBits()
  {
    GatingExact(g);
    bits := NearLog2(g.Groups(), 1);
  }

  /** Rows of a mat: words and ways, distributed over the mux degree. */
  method CountRows(r: SubArrayRequest, bits: nat) returns (rows: nat)
    requires WellFormed(r) && bits == EffectiveBits(r)
    ensures rows == MatRows(r)
    ensures r.muxes.WellFormed() && RowBits(r) >= 0 ==> rows == Product(Pow2(RowBits(r)), WaysInRows(r)) >= 1
  {
    hide NearLog2, Quotient, Pow2, RowBits;
    DegreePositive(r.muxes);
    rows := Pow2(bits);
    if r.memoryType == Data {
      rows := rows * r.numWay;
    }
    rows := Quotient(rows, r.muxes.senseAmp * r.muxes.outputLev1 * r.muxes.outputLev2);
    if r.muxes.WellFormed() && RowBits(r) >= 0 {
      Pow2Muxes(r);
    }
  }

  /** Columns of a mat before muxing: the bits one active mat contributes to a word. */
  method CountBitsPerMat(r: SubArrayRequest) returns (bits: nat)
    requires WellFormed(r)
    ensures bits == Quotient(r.numDataBit, r.mats.Active())
    ensures bits == 0 <==> r.numDataBit < r.mats.Active()
  {
    GroupsExact(r.mats);
    var c := r.mats.Clamped();
    ColumnDivision(r.numDataBit, r.mats.Active());
    bits := Quotient(r.numDataBit, c.activePerRow * c.activePerColumn);
  }

  method CountColumns(r: SubArrayRequest, bitsPerMat: nat) returns (columns: nat)
    requires WellFormed(r) && bitsPerMat == Quotient(r.numDataBit, r.mats.Active())
    ensures columns == MatColumns(r)
  {
    columns := bitsPerMat * (r.muxes.senseAmp * r.muxes.outputLev1 * r.muxes.outputLev2);
    if r.memoryType == Tag {
      columns := columns * r.numWay;
    }
  }

  class SubArray {
    var initialized: bool
    var invalid: bool
    var mats: Grid
    var numAddressBit: int
    var numDataBit: nat
    var numWay: nat
    var numRowPerSet: nat
    var muxes: Muxes
    var memoryType: MemoryType
    /** The dimensions given to every mat. */
    var matRows: nat
    var matColumns: nat
    /** Bits decoded by each pair of predecoder blocks. */
    var rowBlocks: (nat, nat)
    var bitlineMuxBlocks: (nat, nat)
    var muxLev1Blocks: (nat, nat)
    var muxLev2Blocks: (nat, nat)

    constructor ()
      ensures !initialized && !invalid
    {
      initialized, invalid := false, false;
      mats, muxes, memoryType := Grid(1, 1, 1, 1), Muxes(1, 1, 1), Data;
      rowBlocks, bitlineMuxBlocks, muxLev1Blocks, muxLev2Blocks := (0, 0), (0, 0), (0, 0), (0, 0);
    }

    ghost function PredecodedBits(): nat
      reads `rowBlocks, `bitlineMuxBlocks, `muxLev1Blocks, `muxLev2Blocks
    {
      rowBlocks.0 + rowBlocks.1 + bitlineMuxBlocks.0 + bitlineMuxBlocks.1
      + muxLev1Blocks.0 + muxLev1Blocks.1 + muxLev2Blocks.0 + muxLev2Blocks.1
    }

    /** Size the mats and predecoders for a request.  A subarray that was refused once stays
        refused: nothing here takes the verdict back. */
    method Initialize(r: SubArrayRequest, env: Environment)
      requires WellFormed(r)
      modifies this
      ensures initialized
      ensures invalid <==> old(invalid) || !Accepts(r, env)
      ensures !invalid ==> Sized(r)
      ensures !invalid && r.memoryType == Data && env.forcedMat.Some? ==>
                matRows == env.forcedMat.value.0 && matColumns == env.forcedMat.value.1
    {
      hide RowBits, MatRows, MatColumns, Shape, PassesFilter, Pow2, FloorLog2, NearLog2, Grid.GatingBits, Records, Decoded;
      Record(r);
      var gating := CountGatingBits(r.mats);
      var bits := r.numAddressBit - gating;
      if bits <= 0 {
        invalid, initialized := true, true;
        return;
      }

      var ok := SizeMats(r, env, bits);
      if ok {
        ok := SizePredecoders(r, bits);
      }
      if !ok {
        invalid := true;
      }
      initialized := true;
    }

    ghost predicate Records(r: SubArrayRequest)
      reads `mats, `muxes, `memoryType, `numAddressBit, `numDataBit, `numWay, `numRowPerSet
    {
      && mats == r.mats.Clamped() && muxes == r.muxes && memoryType == r.memoryType
      && numAddressBit == r.numAddressBit && numDataBit == r.numDataBit && numWay == r.numWay && numRowPerSet == r.numRowPerSet
    }

    method Record(r: SubArrayRequest)
      modifies `mats, `muxes, `memoryType, `numAddressBit, `numDataBit, `numWay, `numRowPerSet
      ensures Records(r)
    {
      mats, muxes, memoryType := r.mats.Clamped(), r.muxes, r.memoryType;
      numAddressBit, numDataBit := r.numAddressBit, r.numDataBit;
      numWay, numRowPerSet := r.numWay, r.numRowPerSet;
    }

    /** The rows and columns of a mat, which may turn out empty, not the forced size or infeasible. */
    method SizeMats(r: SubArrayRequest, env: Environment, bits: nat) returns (ok: bool)
      requires WellFormed(r) && bits == EffectiveBits(r)
      modifies this`matRows, this`matColumns
      ensures ok <==> MatRows(r) >= 1 && r.numDataBit >= r.mats.Active() && PassesFilter(r, env) && env.matIsFeasible(Shape(r))
      ensures ok ==> matRows == MatRows(r) && matColumns == MatColumns(r)
      ensures ok && r.memoryType == Data && env.forcedMat.Some? ==> matRows == env.forcedMat.value.0 && matColumns == env.forcedMat.value.1
    {
      hide MatRows, MatColumns, NearLog2, Pow2, Grid.GatingBits;
      var rows := CountRows(r, bits);
      if rows == 0 {
        return false;
      }
      var columns := CountBitsPerMat(r);
      if columns == 0 {
        return false;
      }
      columns := CountColumns(r, columns);
      if r.memoryType == Data && env.forcedMat.Some? && (rows, columns) != env.forcedMat.value {
        return false;
      }
      matRows, matColumns := rows, columns;
      ok := env.matIsFeasible(MatShape(rows, columns, r.numRowPerSet > 1, r.muxes));
    }

    /** The dimensions and predecoder widths a request leads to. */
    ghost predicate Sized(r: SubArrayRequest)
      requires WellFormed(r) && EffectiveBits(r) >= 0
      reads this
    {
      && Records(r) && Decoded(r)
      && matRows == MatRows(r) && matColumns == MatColumns(r)
    }

    /** The row blocks decode the address bits the muxes leave, and each mux has a pair of blocks
        of its own.  With power-of-two muxes all together decode exactly the address bits that
        are left for the mats. */
    ghost predicate Decoded(r: SubArrayRequest)
      requires WellFormed(r)
      reads `rowBlocks, `bitlineMuxBlocks, `muxLev1Blocks, `muxLev2Blocks
    {
      && rowBlocks.0 + rowBlocks.1 == RowBits(r) && Balanced(rowBlocks)
      && Decodes(bitlineMuxBlocks, r.muxes.senseAmp)
      && Decodes(muxLev1Blocks, r.muxes.outputLev1)
      && Decodes(muxLev2Blocks, r.muxes.outputLev2)
      && PredecodedBits() == RowBits(r) + r.muxes.SelectBits()
      && (r.muxes.WellFormed() ==> PredecodedBits() == EffectiveBits(r))
    }

    /** Share the address bits among the predecoder blocks, unless the muxes take more bits
        than there are. */
    method SizePredecoders(r: SubArrayRequest, bits: nat) returns (ok: bool)
      requires WellFormed(r) && bits == EffectiveBits(r)
      modifies this`rowBlocks, this`bitlineMuxBlocks, this`muxLev1Blocks, this`muxLev2Blocks
      ensures ok <==> RowBits(r) >= 0
      ensures ok ==> Decoded(r)
    {
      hide Pow2, IsPow2, FloorLog2, NearLog2, EffectiveBits, Decodes;
      SplitDecodes(r.muxes.senseAmp);
      SplitDecodes(r.muxes.outputLev1);
      SplitDecodes(r.muxes.outputLev2);
      var muxBits := NearLog2(r.muxes.senseAmp * r.muxes.outputLev1 * r.muxes.outputLev2, 1);
      ok := bits - muxBits >= 0;
      if ok {
        rowBlocks := SplitBits(bits - muxBits);
        bitlineMuxBlocks := SplitBits(NearLog2(r.muxes.senseAmp, 1));
        muxLev1Blocks := SplitBits(NearLog2(r.muxes.outputLev1, 1));
        muxLev2Blocks := SplitBits(NearLog2(r.muxes.outputLev2, 1));
        if r.muxes.WellFormed() {
          Pow2Muxes(r);
        }
      }
    }
  }
}

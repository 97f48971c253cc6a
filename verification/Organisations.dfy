/** The parameters of one trial organisation, what a bank hands to its subarrays, and
    the parts of the environment the routing and sizing code consults. */
module Organisations {
  import opened Common
  import opened Powers

  datatype MemoryType = Data | Tag | Cam

  /** Column multiplexing before the sense amplifiers and at the two output levels. */
  datatype Muxes = Muxes(senseAmp: nat, outputLev1: nat, outputLev2: nat) {
    predicate WellFormed() {
      IsPow2(senseAmp) && IsPow2(outputLev1) && IsPow2(outputLev2)
    }

    /** Ways that do not form a power of two can leave degrees that are none either. */
    predicate Positive() {
      senseAmp >= 1 && outputLev1 >= 1 && outputLev2 >= 1
    }

    function Degree(): nat {
      senseAmp * outputLev1 * outputLev2
    }

    /** log2 of the degree, for power-of-two levels. */
    function Bits(): nat
      requires WellFormed()
    {
      FloorLog2(senseAmp) + FloorLog2(outputLev1) + FloorLog2(outputLev2)
    }

    /** The address bits the decoders of the three levels take between them. */
    function SelectBits(): nat {
      NearLog2(senseAmp, 1) + NearLog2(outputLev1, 1) + NearLog2(outputLev2, 1)
    }
  }

  lemma DegreePositive(m: Muxes)
    requires m.Positive()
    ensures m.Degree() >= 1
  {}

  lemma DegreeIsPow2(m: Muxes)
    requires m.WellFormed()
    ensures m.Positive() && IsPow2(m.Degree()) && FloorLog2(m.Degree()) == m.Bits()
    ensures m.Degree() == Pow2(m.Bits())
    ensures NearLog2(m.Degree(), 1) == m.Bits() == m.SelectBits()
  {
    hide NearLog2;
    NearLog2OfPow2(m.senseAmp);
    NearLog2OfPow2(m.outputLev1);
    NearLog2OfPow2(m.outputLev2);
    Pow2Product(m.senseAmp, m.outputLev1);
    Pow2Product(m.senseAmp * m.outputLev1, m.outputLev2);
    LogExact(m.Degree());
    NearLog2OfPow2(m.Degree());
  }

  /** A grid of equal units, some of which one access activates.  The source clamps an
      activation count that exceeds the grid. */
  datatype Grid = Grid(rows: nat, columns: nat, activePerRow: nat, activePerColumn: nat) {
    predicate WellFormed() {
      IsPow2(rows) && IsPow2(columns) && IsPow2(activePerRow) && IsPow2(activePerColumn)
    }

    /** The clamp: at most `columns` units of a row and `rows` units of a column. */
    function Clamped(): Grid {
      Grid(rows, columns, Min(activePerRow, columns), Min(activePerColumn, rows))
    }

    function Units(): nat {
      rows * columns
    }

    /** log2 of the number of units active at once. */
    function ActiveBits(): nat
      requires WellFormed()
    {
      var c := Clamped();
      FloorLog2(c.activePerRow) + FloorLog2(c.activePerColumn)
    }

    function Active(): nat
      requires WellFormed()
    {
      Pow2(ActiveBits())
    }

    /** How many groups of simultaneously active units the grid holds. */
    function Groups(): nat
      requires WellFormed()
    {
      var c := Clamped();
      Quotient(Quotient(Units(), c.activePerColumn), c.activePerRow)
    }

    /** How many address bits tell the active group from the inactive ones. */
    function GatingBits(): nat
      requires WellFormed()
    {
      var c := Clamped();
      LogMonotone(c.activePerRow, columns);
      LogMonotone(c.activePerColumn, rows);
      FloorLog2(rows) + FloorLog2(columns) - ActiveBits()
    }
  }

  /** The clamp leaves an activation that fits alone and cuts one that does not to the grid. */
  lemma ClampMeans(g: Grid)
    ensures var c := g.Clamped();
            && c.rows == g.rows && c.columns == g.columns && c.Clamped() == c
            && (if g.activePerRow <= g.columns then c.activePerRow == g.activePerRow else c.activePerRow == g.columns)
            && (if g.activePerColumn <= g.rows then c.activePerColumn == g.activePerColumn else c.activePerColumn == g.rows)
  {}

  /** Units = active units * groups, where the number of groups is 2^gating bits. */
  lemma GroupsExact(g: Grid)
    requires g.WellFormed()
    ensures g.Clamped().activePerRow * g.Clamped().activePerColumn == g.Active()
    ensures g.Groups() == Pow2(g.GatingBits()) && IsPow2(g.Groups())
    ensures g.Units() == Pow2(g.ActiveBits() + g.GatingBits())
  {
    var c := g.Clamped();
    LogMonotone(c.activePerRow, g.columns);
    LogMonotone(c.activePerColumn, g.rows);
    Pow2Product(c.activePerRow, c.activePerColumn);
    LogExact(c.activePerRow * c.activePerColumn);
    LogExact(g.rows);
    LogExact(g.columns);
    LogExact(c.activePerRow);
    LogExact(c.activePerColumn);
    GatingExponents(g.rows, FloorLog2(g.rows), g.columns, FloorLog2(g.columns),
                    c.activePerColumn, FloorLog2(c.activePerColumn), c.activePerRow, FloorLog2(c.activePerRow));
  }

  /** The source's logarithm of the number of groups is exact. */
  lemma GatingExact(g: Grid)
    requires g.WellFormed()
    ensures NearLog2(g.Groups(), 1) == g.GatingBits()
  {
    GroupsExact(g);
    NearLog2OfPow2(g.Groups());
    FloorLog2OfPow2(g.GatingBits());
  }

  lemma GatingExponents(rows: nat, r: nat, columns: nat, c: nat, x: nat, a: nat, y: nat, b: nat)
    requires rows == Pow2(r) && columns == Pow2(c) && x == Pow2(a) && y == Pow2(b)
    requires a + b <= r + c && a <= r
    ensures Quotient(Quotient(rows * columns, x), y) == Pow2(r + c - a - b)
    ensures IsPow2(Pow2(r + c - a - b))
    ensures rows * columns == Pow2(r + c)
  {
    Pow2Add(r, c);
    Pow2Quotient(r + c, a);
    Pow2Quotient(r + c - a, b);
    FloorLog2OfPow2(r + c - a - b);
  }

  /** One trial of the design-space loops: a bank of subarrays of mats. */
  datatype Organisation = Organisation(
    subarrays: Grid,
    mats: Grid,
    capacity: nat,
    blockSize: nat,
    associativity: nat,
    numRowPerSet: nat,
    muxes: Muxes,
    internalSenseAmp: bool,
    memoryType: MemoryType,
    stackedDieCount: nat)
  {
    /** The doubling loops start every count at a power of two; capacity, word width and
        associativity come from the configuration and may be any positive number. */
    predicate WellFormed() {
      && subarrays.WellFormed() && mats.WellFormed() && muxes.WellFormed()
      && IsPow2(numRowPerSet) && IsPow2(stackedDieCount)
      && blockSize >= 1 && associativity >= 1
    }

    /** Bits that select a set on one die. */
    function AddressBits(): nat
      requires blockSize >= 1 && associativity >= 1 && stackedDieCount >= 1
    {
      MulAtLeast(blockSize, associativity);
      MulAtLeast(blockSize * associativity, stackedDieCount);
      NearLog2(capacity, blockSize * associativity * stackedDieCount)
    }

    /** Bits spread over the active subarrays: the word of a data array, the ways of a tag array. */
    function DistributeBits(): nat {
      match memoryType
      case Data => blockSize
      case Tag => associativity
      case Cam => 0
    }

    /** Bits every active subarray receives in full. */
    function BroadcastBits(): nat
      requires associativity >= 1
    {
      match memoryType
      case Data => FloorLog2(associativity)
      case Tag => blockSize
      case Cam => blockSize
    }
  }

  /** The arguments a router passes to a subarray. */
  datatype SubArrayRequest = SubArrayRequest(
    mats: Grid,
    numAddressBit: int,
    numDataBit: nat,
    numWay: nat,
    numRowPerSet: nat,
    muxes: Muxes,
    memoryType: MemoryType)

  /** The arguments a subarray passes to a mat. */
  datatype MatShape = MatShape(rows: nat, columns: nat, multipleRowPerSet: bool, muxes: Muxes)

  /** What the routing code reads besides its arguments.  `matIsFeasible` stands for the
      electrical feasibility verdict of a mat, an arbitrary function of the mat's shape, and
      `globalSenseAmpIsFeasible` for that of the sense amplifiers outside the subarrays. */
  datatype Environment = Environment(
    dramLike: bool,
    globalWireRepeated: bool,
    forcedMat: Option<(nat, nat)>,
    matIsFeasible: MatShape -> bool,
    globalSenseAmpIsFeasible: bool)

  /** The mux degrees that w ways side by side in a row need in addition.  A DRAM-like
      cell cannot mux before its sense amplifiers. */
  function ExtraMuxes(dramLike: bool, w: nat): Muxes {
    if w <= 1 then Muxes(1, 1, 1)
    else
      var k := NearLog2(w, 1);
      if dramLike then
        var lev2 := Pow2(k / 2);
        Muxes(1, Quotient(w, lev2), lev2)
      else
        var lev := Pow2(k / 3);
        Muxes(Quotient(Quotient(w, lev), lev), lev, lev)
  }

  function Scaled(m: Muxes, x: Muxes): Muxes {
    Muxes(m.senseAmp * x.senseAmp, m.outputLev1 * x.outputLev1, m.outputLev2 * x.outputLev2)
  }

  /** The redistribution neither loses nor invents a way: the extra degrees are powers of two
      whose product is the number of ways per row. */
  lemma ExtraMuxesExact(dramLike: bool, w: nat)
    requires IsPow2(w)
    ensures var x := ExtraMuxes(dramLike, w);
            && x.WellFormed()
            && x.Bits() == FloorLog2(w)
            && x.Degree() == w
            && (dramLike ==> x.senseAmp == 1)
  {
    LogExact(w);
    NearLog2OfPow2(w);
    FloorLog2OfPow2(0);
    if w > 1 {
      if dramLike {
        SplitInTwo(w, FloorLog2(w));
      } else {
        SplitInThree(w, FloorLog2(w));
      }
    }
    DegreeIsPow2(ExtraMuxes(dramLike, w));
  }

  /** The ways each level of the redistribution rounds to. */
  function MuxStep(dramLike: bool, w: nat): nat {
    if w <= 1 then 1 else if dramLike then Pow2(NearLog2(w, 1) / 2) else Pow2(2 * (NearLog2(w, 1) / 3))
  }

  /** For any number of ways the extra degrees are positive, and their product is the ways
      rounded down to what the divided levels divide. */
  lemma ExtraMuxesFloor(dramLike: bool, w: nat)
    requires w >= 1
    ensures MuxStep(dramLike, w) >= 1
    ensures var x := ExtraMuxes(dramLike, w);
            x.Positive() && 1 <= x.Degree() == w - w % MuxStep(dramLike, w) <= w
  {
    hide NearLog2, Pow2, FloorLog2;
    if w > 1 {
      var k := NearLog2(w, 1);
      LogAtMost(w);
      if dramLike {
        StepFits(w, k / 2);
        FloorOf(w, Pow2(k / 2));
      } else {
        StepFits(w, 2 * (k / 3));
        var lev := Pow2(k / 3);
        Pow2Add(k / 3, k / 3);
        DivDiv(w, lev, lev);
        FloorOf(w, lev * lev);
        Associate(Quotient(Quotient(w, lev), lev), lev, lev);
      }
    }
  }

  lemma LogAtMost(w: nat)
    requires w > 1
    ensures NearLog2(w, 1) <= FloorLog2(w) + 1 && FloorLog2(w) >= 1
  {}

  lemma StepFits(w: nat, e: nat)
    requires w >= 1 && e <= FloorLog2(w)
    ensures Pow2(e) <= w
  {}

  lemma FloorOf(w: nat, d: nat)
    requires 1 <= d <= w
    ensures 1 <= Quotient(w, d) && 1 <= Quotient(w, d) * d == w - w % d <= w
  {}

  /** How the ways are spread: a DRAM-like cell splits them evenly over its two output levels, the
      first taking the odd factor; other cells spread them over three, both output levels alike
      and the sense amplifiers taking what is over. */
  lemma ExtraMuxesBalanced(dramLike: bool, w: nat)
    requires IsPow2(w)
    ensures var x := ExtraMuxes(dramLike, w);
            if dramLike
            then x.senseAmp == 1 && x.outputLev2 <= x.outputLev1 <= 2 * x.outputLev2
            else x.outputLev1 == x.outputLev2 <= x.senseAmp <= 4 * x.outputLev2
  {
    hide NearLog2, FloorLog2, IsPow2, Quotient;
    LogExact(w);
    NearLog2OfPow2(w);
    var k := FloorLog2(w);
    if w > 1 {
      if dramLike {
        Pow2Quotient(k, k / 2);
        Near(k / 2, k - k / 2);
      } else {
        Pow2Quotient(k, k / 3);
        Pow2Quotient(k - k / 3, k / 3);
        Near(k / 3, k - k / 3 - k / 3);
      }
    }
  }

  lemma Near(a: nat, b: nat)
    requires a <= b <= a + 2
    ensures Pow2(a) <= Pow2(b) <= 4 * Pow2(a)
    ensures b <= a + 1 ==> Pow2(b) <= 2 * Pow2(a)
  {
    Pow2Monotone(a, b);
    assert Pow2(a + 1) == 2 * Pow2(a) && Pow2(a + 2) == 2 * Pow2(a + 1);
  }

  /** For any number of ways the levels that are not divided last are powers of two, of a half
      or a third of the logarithm. */
  lemma ExtraMuxesLevels(dramLike: bool, w: nat)
    requires w > 1
    ensures var x, k := ExtraMuxes(dramLike, w), NearLog2(w, 1);
            if dramLike
            then x.senseAmp == 1 && x.outputLev2 == Pow2(k / 2) && x.outputLev1 * x.outputLev2 <= w < (x.outputLev1 + 1) * x.outputLev2
            else x.outputLev1 == x.outputLev2 == Pow2(k / 3)
  {
    hide NearLog2, Pow2;
    var x := ExtraMuxes(dramLike, w);
    DivModLaw(w, x.outputLev2);
    Distribute(x.outputLev1, -1, x.outputLev2);
  }

  lemma SplitInTwo(w: nat, k: nat)
    requires w == Pow2(k)
    ensures var lev2 := Pow2(k / 2);
            && IsPow2(lev2) && FloorLog2(lev2) == k / 2
            && IsPow2(Quotient(w, lev2)) && FloorLog2(Quotient(w, lev2)) == k - k / 2
  {
    Pow2Quotient(k, k / 2);
    FloorLog2OfPow2(k / 2);
    FloorLog2OfPow2(k - k / 2);
  }

  lemma SplitInThree(w: nat, k: nat)
    requires w == Pow2(k)
    ensures var lev := Pow2(k / 3);
            && IsPow2(lev) && FloorLog2(lev) == k / 3
            && IsPow2(Quotient(Quotient(w, lev), lev))
            && FloorLog2(Quotient(Quotient(w, lev), lev)) == k - k / 3 - k / 3
  {
    Pow2Quotient(k, k / 3);
    Pow2Quotient(k - k / 3, k / 3);
    FloorLog2OfPow2(k / 3);
    FloorLog2OfPow2(k - k / 3 - k / 3);
  }

  /** Each level is scaled by its own extra degree, which dividing recovers. */
  lemma ScaledUndone(m: Muxes, x: Muxes)
    requires m.Positive()
    ensures Quotient(Scaled(m, x).senseAmp, m.senseAmp) == x.senseAmp
    ensures Quotient(Scaled(m, x).outputLev1, m.outputLev1) == x.outputLev1
    ensures Quotient(Scaled(m, x).outputLev2, m.outputLev2) == x.outputLev2
  {
    DivExact(x.senseAmp, m.senseAmp);
    DivExact(x.outputLev1, m.outputLev1);
    DivExact(x.outputLev2, m.outputLev2);
  }

  lemma ScaledDegree(m: Muxes, x: Muxes)
    requires m.Positive() && x.Positive()
    ensures Scaled(m, x).Positive() && Scaled(m, x).Degree() == m.Degree() * x.Degree()
  {
    MulMonotone(1, 1, m.senseAmp, x.senseAmp);
    MulMonotone(1, 1, m.outputLev1, x.outputLev1);
    MulMonotone(1, 1, m.outputLev2, x.outputLev2);
    Interchange(m.senseAmp, x.senseAmp, m.outputLev1, x.outputLev1);
    Interchange(m.senseAmp * m.outputLev1, x.senseAmp * x.outputLev1, m.outputLev2, x.outputLev2);
  }

  lemma ScaledExact(m: Muxes, x: Muxes)
    requires m.WellFormed() && x.WellFormed()
    ensures Scaled(m, x).WellFormed()
    ensures Scaled(m, x).Bits() == m.Bits() + x.Bits()
  {
    Pow2Product(m.senseAmp, x.senseAmp);
    Pow2Product(m.outputLev1, x.outputLev1);
    Pow2Product(m.outputLev2, x.outputLev2);
  }
}

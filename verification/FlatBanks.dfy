/** A bank whose subarrays are reached without an H-tree; the split of address and data bits
    is computed at once instead of being walked level by level. */
module FlatBanks {
  import opened Powers
  import opened Organisations
  import opened SubArrays

  /** A count shared out over the active subarrays, by column and then by row. */
  function Share(n: nat, g: Grid): nat
    requires g.WellFormed()
  {
    var c := g.Clamped();
    LogExact(c.activePerColumn);
    LogExact(c.activePerRow);
    Quotient(Quotient(n, c.activePerColumn), c.activePerRow)
  }

  lemma ShareExact(n: nat, g: Grid)
    requires g.WellFormed()
    ensures Share(n, g) == Quotient(n, g.Active())
  {
    var c := g.Clamped();
    LogExact(c.activePerColumn);
    LogExact(c.activePerRow);
    DivDiv(n, c.activePerColumn, c.activePerRow);
    GroupsExact(g);
    assert c.activePerColumn * c.activePerRow == c.activePerRow * c.activePerColumn;
  }

  function FlatWaysPerRow(o: Organisation): nat
    requires o.WellFormed()
  {
    LogExact(o.numRowPerSet);
    Quotient(o.associativity, o.numRowPerSet)
  }

  /** The ways that share a row, as many as fit. */
  lemma FlatWaysFit(o: Organisation)
    requires o.WellFormed()
    ensures FlatWaysPerRow(o) * o.numRowPerSet <= o.associativity < (FlatWaysPerRow(o) + 1) * o.numRowPerSet
  {
    LogExact(o.numRowPerSet);
    DivModLaw(o.associativity, o.numRowPerSet);
    Distribute(FlatWaysPerRow(o), -1, o.numRowPerSet);
  }

  function FlatAddressBits(o: Organisation): int
    requires o.WellFormed()
  {
    LogExact(o.stackedDieCount);
    o.AddressBits() - o.subarrays.GatingBits()
  }

  /** What the bank hands to each of its subarrays. */
  function FlatRequest(o: Organisation, env: Environment): SubArrayRequest
    requires o.WellFormed()
  {
    match o.memoryType
    case Data =>
      SubArrayRequest(o.mats.Clamped(), FlatAddressBits(o), Share(o.blockSize, o.subarrays), o.associativity, o.numRowPerSet,
                      Scaled(o.muxes, ExtraMuxes(env.dramLike, FlatWaysPerRow(o))), Data)
    case Tag =>
      SubArrayRequest(o.mats.Clamped(), FlatAddressBits(o), o.blockSize, Share(o.associativity, o.subarrays), o.numRowPerSet, o.muxes, Tag)
    case Cam =>
      SubArrayRequest(o.mats.Clamped(), FlatAddressBits(o), o.blockSize, 1, o.numRowPerSet, o.muxes, Cam)
  }

  /** The ways of a set fit. */
  predicate FlatOffers(o: Organisation)
    requires o.WellFormed()
  {
    && (o.memoryType == Data ==> o.numRowPerSet <= o.associativity)
    && (o.memoryType == Tag ==> o.numRowPerSet <= 1 && Share(o.associativity, o.subarrays) >= 1)
  }

  /** The mux degrees are positive for any associativity; only where the ways that share a row
      are a power of two are they powers of two. */
  lemma FlatMuxes(o: Organisation, env: Environment)
    requires o.WellFormed()
    ensures FlatRequest(o, env).muxes.Positive()
    ensures FlatRequest(o, env).muxes.Degree()
         == o.muxes.Degree() * if o.memoryType == Data then ExtraMuxes(env.dramLike, FlatWaysPerRow(o)).Degree() else 1
  {
    hide NearLog2, Pow2, FloorLog2, Quotient;
    DegreeIsPow2(o.muxes);
    if o.memoryType == Data {
      if FlatWaysPerRow(o) >= 1 {
        ExtraMuxesFloor(env.dramLike, FlatWaysPerRow(o));
      }
      ScaledDegree(o.muxes, ExtraMuxes(env.dramLike, FlatWaysPerRow(o)));
    }
  }

  lemma FlatRequestIsWellFormed(o: Organisation, env: Environment)
    requires o.WellFormed() && FlatOffers(o)
    ensures WellFormed(FlatRequest(o, env))
    ensures (o.memoryType == Data ==> IsPow2(o.associativity)) ==> FlatRequest(o, env).muxes.WellFormed()
  {
    hide NearLog2, Pow2, FloorLog2, Quotient;
    FlatMuxes(o, env);
    if o.memoryType == Data && IsPow2(o.associativity) {
      Pow2WaysPerRow(o);
      ExtraMuxesExact(env.dramLike, FlatWaysPerRow(o));
      ScaledExact(o.muxes, ExtraMuxes(env.dramLike, FlatWaysPerRow(o)));
    }
  }

  lemma Pow2WaysPerRow(o: Organisation)
    requires o.WellFormed() && IsPow2(o.associativity) && o.numRowPerSet <= o.associativity
    ensures IsPow2(FlatWaysPerRow(o))
  {
    var a, b := FloorLog2(o.associativity), FloorLog2(o.numRowPerSet);
    LogExact(o.associativity);
    LogExact(o.numRowPerSet);
    LogMonotone(o.numRowPerSet, o.associativity);
    Pow2Quotient(a, b);
    FloorLog2OfPow2(a - b);
  }

  /** Sense amplifiers outside the subarrays need unrepeated wires and are not for DRAM-like
      cells. */
  predicate SensingWorks(o: Organisation, env: Environment) {
    o.internalSenseAmp || (!env.dramLike && !env.globalWireRepeated && env.globalSenseAmpIsFeasible)
  }

  predicate FlatAccepts(o: Organisation, env: Environment)
    requires o.WellFormed()
  {
    SensingWorks(o, env) && FlatOffers(o) && (FlatRequestIsWellFormed(o, env); Accepts(FlatRequest(o, env), env))
  }

  class BankWithoutHtree {
    var initialized: bool
    var invalid: bool
    var subarrays: Grid
    var mats: Grid
    var muxes: Muxes
    var numWay: nat
    var numAddressBitRouteToSubArray: int
    var numDataBitRouteToSubArray: nat
    var subarray: SubArray

    constructor ()
      ensures !initialized && !Tainted() && fresh(subarray)
    {
      initialized, invalid := false, false;
      subarrays, mats, muxes := Grid(1, 1, 1, 1), Grid(1, 1, 1, 1), Muxes(1, 1, 1);
      subarray := new SubArray();
    }

    /** What a used bank carries over into its next initialisation. */
    predicate Tainted()
      reads this, subarray
    {
      (invalid && !initialized) || subarray.invalid
    }

    /** The bank holds a subarray built for o. */
    ghost predicate Built(o: Organisation, env: Environment)
      requires o.WellFormed() && FlatAccepts(o, env)
      reads this, subarray
    {
      FlatRequestIsWellFormed(o, env);
      && subarrays == o.subarrays.Clamped() && mats == o.mats.Clamped() && muxes == o.muxes
      && numWay == FlatRequest(o, env).numWay
      && numAddressBitRouteToSubArray == FlatRequest(o, env).numAddressBit
      && numDataBitRouteToSubArray == FlatRequest(o, env).numDataBit
      && subarray.Sized(FlatRequest(o, env))
    }

    /** Split the signals, build the subarray and, where sensing happens outside of it, the
        sense amplifiers. */
    method Initialize(o: Organisation, env: Environment)
      requires o.WellFormed()
      modifies this, subarray
      ensures subarray == old(subarray)
      ensures invalid <==> !FlatAccepts(o, env) || old(Tainted())
      ensures initialized <==> o.internalSenseAmp || !env.dramLike
      ensures !invalid ==> initialized && Built(o, env)
      ensures !invalid && !o.internalSenseAmp ==> !env.dramLike && !env.globalWireRepeated && env.globalSenseAmpIsFeasible
    {
      hide NearLog2, Accepts, SubArray.Sized, FlatRequest, IsPow2, FloorLog2, Pow2;
      if initialized {
        initialized, invalid := false, false;
      }
      if !o.internalSenseAmp {
        if env.dramLike {
          invalid := true;
          return;
        } else if env.globalWireRepeated {
          invalid, initialized := true, true;
          return;
        }
      }
      subarrays, mats := o.subarrays.Clamped(), o.mats.Clamped();
      var ok := SplitSignals(o, env);
      if !ok {
        invalid, initialized := true, true;
        return;
      }
      var r := SubArrayRequest(mats, numAddressBitRouteToSubArray, numDataBitRouteToSubArray, numWay, o.numRowPerSet, muxes, o.memoryType);
      FlatRequestIsWellFormed(o, env);
      subarray.Initialize(r, env);
      if subarray.invalid || (!o.internalSenseAmp && !env.globalSenseAmpIsFeasible) {
        invalid, initialized := true, true;
        return;
      }
      muxes := o.muxes;
      initialized := true;
    }

    /** Bits and ways for one subarray, with the ways that share a row moved into the muxes. */
    method SplitSignals(o: Organisation, env: Environment) returns (ok: bool)
      requires o.WellFormed()
      modifies this`muxes, this`numWay, this`numAddressBitRouteToSubArray, this`numDataBitRouteToSubArray
      ensures ok <==> FlatOffers(o)
      ensures ok ==>
                SubArrayRequest(o.mats.Clamped(), numAddressBitRouteToSubArray, numDataBitRouteToSubArray, numWay,
                                o.numRowPerSet, muxes, o.memoryType) == FlatRequest(o, env)
    {
      ok, muxes, numWay := true, o.muxes, 1;
      var gating := CountGatingBits(o.subarrays);
      LogExact(o.stackedDieCount);
      numAddressBitRouteToSubArray := o.AddressBits() - gating;
      numDataBitRouteToSubArray := o.blockSize;
      if o.memoryType == Data {
        numDataBitRouteToSubArray := Share(o.blockSize, o.subarrays);
        if o.numRowPerSet > o.associativity {
          return false;
        }
        numWay := o.associativity;
        muxes := Scaled(muxes, ExtraMuxes(env.dramLike, FlatWaysPerRow(o)));
      } else if o.memoryType == Tag {
        if o.numRowPerSet > 1 {
          return false;
        }
        numWay := Share(o.associativity, o.subarrays);
        if numWay < 1 {
          return false;
        }
      }
    }
  }
}

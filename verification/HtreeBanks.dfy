/** A bank whose subarrays are reached through an H-tree. */
module HtreeBanks {
  import opened Common
  import opened Powers
  import opened Organisations
  import opened HtreeLevels
  import opened SubArrays
  import opened WireLengths
  import opened RefreshBudgets

  /** The tree an organisation asks for. */
  function TreeOf(o: Organisation): Tree
    requires o.WellFormed()
  {
    var c := o.subarrays.Clamped();
    LogMonotone(c.activePerRow, c.columns);
    LogMonotone(c.activePerColumn, c.rows);
    LogExact(o.stackedDieCount);
    Tree(FloorLog2(c.columns), FloorLog2(c.rows), FloorLog2(c.activePerRow), FloorLog2(c.activePerColumn),
         o.AddressBits(), o.DistributeBits(), o.BroadcastBits())
  }

  /** The address bits of the tree select among as many sets as the capacity holds, to within the
      tolerance of the logarithm. */
  lemma AddressBitsMean(o: Organisation)
    requires o.WellFormed()
    requires o.capacity >= Product(Product(o.blockSize, o.associativity), o.stackedDieCount)
    ensures var n, full := TreeOf(o).addressBits, Product(Product(o.blockSize, o.associativity), o.stackedDieCount);
            Tenth(Product(Pow2(n), full)) <= 2 * Tenth(o.capacity) < Tenth(Product(Pow2(n + 1), full))
  {
    hide NearLog2, Tenth, Pow2, IsPow2, FloorLog2;
    LogExact(o.stackedDieCount);
    MulAtLeast(o.blockSize, o.associativity);
    MulAtLeast(o.blockSize * o.associativity, o.stackedDieCount);
    NearLog2Rounds(o.capacity, o.blockSize * o.associativity * o.stackedDieCount);
  }

  /** The ways a data subarray holds, spread over as many rows as the organisation asks. */
  function WaysPerRow(o: Organisation): nat
    requires o.WellFormed()
  {
    LogExact(o.numRowPerSet);
    Quotient(Pow2(o.BroadcastBits()), o.numRowPerSet)
  }

  /** What the H-tree hands to each of its subarrays. */
  function HtreeRequest(o: Organisation, env: Environment): SubArrayRequest
    requires o.WellFormed()
  {
    var t := TreeOf(o);
    var l := t.At(t.columns, t.rows);
    match o.memoryType
    case Data =>
      SubArrayRequest(o.mats.Clamped(), l.addressBits, l.distributeBits, Pow2(o.BroadcastBits()), o.numRowPerSet,
                      Scaled(o.muxes, ExtraMuxes(env.dramLike, WaysPerRow(o))), Data)
    case Tag =>
      SubArrayRequest(o.mats.Clamped(), l.addressBits, o.BroadcastBits(), l.distributeBits, o.numRowPerSet, o.muxes, Tag)
    case Cam =>
      SubArrayRequest(o.mats.Clamped(), l.addressBits, o.BroadcastBits(), 1, o.numRowPerSet, o.muxes, Cam)
  }

  /** The organisations for which the H-tree gets as far as asking for a subarray: the tree is
      routable and the ways of a set fit. */
  predicate HtreeOffers(o: Organisation)
    requires o.WellFormed()
  {
    var t := TreeOf(o);
    && o.internalSenseAmp
    && t.Routable()
    && (o.memoryType == Data ==> o.numRowPerSet <= Pow2(o.BroadcastBits()))
    && (o.memoryType == Tag ==> o.numRowPerSet <= 1 && t.At(t.columns, t.rows).distributeBits > 0)
  }

  /** Ways per row is a power of two whenever a set fits. */
  lemma WaysPerRowIsPow2(o: Organisation)
    requires o.WellFormed() && o.memoryType == Data
    requires o.numRowPerSet <= Pow2(o.BroadcastBits())
    ensures IsPow2(WaysPerRow(o))
    ensures FloorLog2(o.numRowPerSet) <= o.BroadcastBits()
    ensures FloorLog2(WaysPerRow(o)) == o.BroadcastBits() - FloorLog2(o.numRowPerSet)
  {
    LogExact(o.numRowPerSet);
    FloorLog2OfPow2(o.BroadcastBits());
    LogMonotone(o.numRowPerSet, Pow2(o.BroadcastBits()));
    Pow2Quotient(o.BroadcastBits(), FloorLog2(o.numRowPerSet));
    FloorLog2OfPow2(o.BroadcastBits() - FloorLog2(o.numRowPerSet));
  }

  /** What is handed over is always a legal request, and the mux degree grows by exactly the
      ways that share a row. */
  lemma RequestIsWellFormed(o: Organisation, env: Environment)
    requires o.WellFormed() && HtreeOffers(o)
    ensures WellFormed(HtreeRequest(o, env)) && HtreeRequest(o, env).muxes.WellFormed()
    ensures HtreeRequest(o, env).muxes.Bits()
         == o.muxes.Bits() + if o.memoryType == Data then FloorLog2(WaysPerRow(o)) else 0
  {
    if o.memoryType == Data {
      WaysPerRowIsPow2(o);
      ExtraMuxesExact(env.dramLike, WaysPerRow(o));
      ScaledExact(o.muxes, ExtraMuxes(env.dramLike, WaysPerRow(o)));
    }
    DegreeIsPow2(HtreeRequest(o, env).muxes);
  }

  /** The organisations for which the whole bank can be built. */
  predicate HtreeAccepts(o: Organisation, env: Environment)
    requires o.WellFormed()
  {
    HtreeOffers(o) && (RequestIsWellFormed(o, env); Accepts(HtreeRequest(o, env), env))
  }

  /** What is still to be routed below the current point of the walk. */
  datatype Walk = Walk(
    rowToActive: nat,
    columnToActive: nat,
    addressBits: int,
    distributeBits: nat,
    broadcastBits: nat)
  {
    predicate Exhausted() {
      distributeBits + broadcastBits == 0 || addressBits == 0
    }

    /** The walk stands below h horizontal and v vertical branchings of t. */
    ghost predicate At(t: Tree, h: nat, v: nat) {
      && addressBits >= 0
      && addressBits == t.At(h, v).addressBits
      && distributeBits == t.At(h, v).distributeBits
      && broadcastBits == t.broadcastBits
      && columnToActive == Pow2(t.activeColumns - Min(h, t.activeColumns))
      && rowToActive == Pow2(t.activeRows - Min(v, t.activeRows))
    }
  }

  /** An exhausted walk cannot come from a routable tree. */
  lemma ExhaustionIsFinal(t: Tree, w: Walk, h: nat, v: nat)
    requires w.At(t, h, v) && w.Exhausted()
    requires v <= t.rows && h <= t.LastColumn()
    ensures !t.Routable()
  {
    StarvationSpreads(t, h, v, t.LastColumn(), t.rows);
  }

  lemma TreeIsWellFormed(o: Organisation)
    requires o.WellFormed()
    ensures TreeOf(o).WellFormed()
    ensures o.subarrays.Clamped().activePerRow == Pow2(TreeOf(o).activeColumns)
    ensures o.subarrays.Clamped().activePerColumn == Pow2(TreeOf(o).activeRows)
  {
    var c := o.subarrays.Clamped();
    LogMonotone(c.activePerRow, c.columns);
    LogMonotone(c.activePerColumn, c.rows);
    LogExact(c.activePerRow);
    LogExact(c.activePerColumn);
  }

  /** The last horizontal branching leads from the tree into a subarray and has no wires of
      its own. */
  method EnterSubarray(w: Walk, levelHorizontal: nat, ghost t: Tree) returns (ok: bool, w': Walk)
    requires t.WellFormed() && levelHorizontal == t.columns && w.At(t, t.LastColumn(), t.rows)
    ensures ok <==> t.Routable()
    ensures ok ==> w'.At(t, t.columns, t.rows) && w'.rowToActive == 1 && w'.columnToActive == 1
  {
    if w.Exhausted() {
      return false, w;
    }
    ok, w' := true, w;
    if w.columnToActive > 1 {
      w' := w.(distributeBits := w.distributeBits / 2, columnToActive := w.columnToActive / 2);
    } else if levelHorizontal > 0 {
      w' := w.(addressBits := w.addressBits - 1);
    }
  }

  /** The first k horizontal levels carry the wires of t; the others are untouched. */
  ghost predicate FilledHorizontal(a: array<Level>, t: Tree, k: nat)
    reads a
  {
    && (forall i :: 0 <= i < k && i < a.Length ==> a[i] == t.At(i, t.VerticalAbove(i)))
    && (forall i :: k <= i < a.Length ==> a[i] == Unrouted)
  }

  ghost predicate FilledVertical(a: array<Level>, t: Tree, k: nat)
    reads a
  {
    && (forall j :: 0 <= j < k && j < a.Length ==> a[j] == t.At(t.HorizontalAbove(j), j + 1))
    && (forall j :: k <= j < a.Length ==> a[j] == Unrouted)
  }

  class BankWithHtree {
    var initialized: bool
    var invalid: bool
    var subarrays: Grid
    var mats: Grid
    var muxes: Muxes
    var memoryType: MemoryType
    var numRowPerSet: nat
    var stackedDieCount: nat
    var numAddressBit: nat
    var numDataDistributeBit: nat
    var numDataBroadcastBit: nat
    var levelHorizontal: nat
    var levelVertical: nat
    /** The per-level wire counts, one record per level. */
    var horizontal: array<Level>
    var vertical: array<Level>
    var lengthHorizontal: array<real>
    var lengthVertical: array<real>
    var refreshLatency: real
    var subarray: SubArray

    constructor ()
      ensures Pristine() && fresh(subarray)
    {
      initialized, invalid := false, false;
      subarrays, mats, muxes, memoryType := Grid(1, 1, 1, 1), Grid(1, 1, 1, 1), Muxes(1, 1, 1), Data;
      horizontal := new Level[0];
      vertical := new Level[0];
      lengthHorizontal := new real[0];
      lengthVertical := new real[0];
      refreshLatency := 0.0;
      subarray := new SubArray();
    }

    /** A bank as the constructor leaves it. */
    ghost predicate Pristine()
      reads this, subarray
    {
      !initialized && !invalid && !subarray.initialized && !subarray.invalid
    }

    /** The fields `Route` starts from agree with a tree, and no level has been filled yet. */
    ghost predicate ReadyToRoute(t: Tree)
      reads this, horizontal, vertical
    {
      && t.WellFormed()
      && horizontal != vertical
      && horizontal.Length == levelHorizontal == t.columns
      && vertical.Length == levelVertical == t.rows
      && subarrays.activePerRow == Pow2(t.activeColumns)
      && subarrays.activePerColumn == Pow2(t.activeRows)
      && numAddressBit == t.addressBits
      && numDataDistributeBit == t.distributeBits
      && numDataBroadcastBit == t.broadcastBits
      && FilledHorizontal(horizontal, t, 0) && FilledVertical(vertical, t, 0)
    }

    /** Branch into horizontal level k and fill its slot. */
    method DescendHorizontal(w: Walk, above: Level, k: nat, ghost t: Tree, ghost v: nat) returns (w': Walk)
      requires t.WellFormed() && 1 <= k < horizontal.Length && v == t.VerticalAbove(k)
      requires w.At(t, k - 1, v) && !w.Exhausted() && above == t.At(k - 1, v)
      requires FilledHorizontal(horizontal, t, k)
      modifies horizontal
      ensures w'.At(t, k, v)
      ensures FilledHorizontal(horizontal, t, k + 1) && horizontal[k] == t.At(k, v)
    {
      var active := above.activeWire;
      if w.columnToActive > 1 {
        w' := w.(distributeBits := w.distributeBits / 2, columnToActive := w.columnToActive / 2);
        active := 2 * active;
      } else {
        w' := w.(addressBits := w.addressBits - 1);
      }
      assert horizontal[k] == Unrouted;
      horizontal[k] := Level(w'.addressBits, w'.distributeBits, w'.broadcastBits, 2 * above.sumWire, active);
    }

    /** Branch into vertical level k and fill its slot. */
    method DescendVertical(w: Walk, above: Level, k: nat, ghost t: Tree, ghost h: nat) returns (w': Walk)
      requires t.WellFormed() && k < vertical.Length && h == t.HorizontalAbove(k)
      requires w.At(t, h, k) && !w.Exhausted() && above == t.At(h, k)
      requires FilledVertical(vertical, t, k)
      modifies vertical
      ensures w'.At(t, h, k + 1)
      ensures FilledVertical(vertical, t, k + 1) && vertical[k] == t.At(h, k + 1)
    {
      StepVertical(t, h, k);
      var active := above.activeWire;
      if w.rowToActive > 1 {
        w' := w.(distributeBits := w.distributeBits / 2, rowToActive := w.rowToActive / 2);
        active := 2 * active;
      } else {
        w' := w.(addressBits := w.addressBits - 1);
      }
      assert vertical[k] == Unrouted;
      vertical[k] := Level(w'.addressBits, w'.distributeBits, w'.broadcastBits, 2 * above.sumWire, active);
    }

    /** The level arrays have the lengths of t and the walk w stands where x horizontal and y
        vertical levels have been filled. */
    ghost predicate Standing(t: Tree, w: Walk, x: nat, y: nat)
      reads this, horizontal, vertical
    {
      && t.WellFormed() && horizontal != vertical
      && horizontal.Length == levelHorizontal == t.columns
      && vertical.Length == levelVertical == t.rows
      && x <= t.columns && y <= t.rows && (t.columns > 0 ==> x > 0)
      && FilledHorizontal(horizontal, t, x) && FilledVertical(vertical, t, y)
      && w.At(t, if x > 0 then x - 1 else 0, y)
    }

    /** Where the tree is wider than tall, the surplus horizontal levels come first. */
    method RouteSurplusColumns(ghost t: Tree, w0: Walk) returns (ok: bool, w: Walk, h: nat)
      requires t.columns > t.rows + 1 && Standing(t, w0, 1, 0)
      modifies horizontal
      ensures t.Routable() ==> ok
      ensures ok ==> h == t.rows && Standing(t, w, t.columns - h, 0)
    {
      ok, w, h := true, w0, levelHorizontal - 1;
      while h > levelVertical
        invariant t.rows <= h < t.columns
        invariant Standing(t, w, t.columns - h, 0)
      {
        if w.Exhausted() {
          ExhaustionIsFinal(t, w, t.columns - h - 1, 0);
          return false, w, h;
        }
        w := DescendHorizontal(w, horizontal[levelHorizontal - h - 1], levelHorizontal - h, t, 0);
        h := h - 1;
      }
    }

    /** Where it is taller than wide, the surplus vertical levels come first. */
    method RouteSurplusRows(ghost t: Tree, w0: Walk, h: nat) returns (ok: bool, w: Walk, v: nat)
      requires h == t.LastColumn() < t.rows && Standing(t, w0, Min(1, t.columns), 0)
      modifies vertical
      ensures t.Routable() ==> ok
      ensures ok ==> v == h && Standing(t, w, Min(1, t.columns), t.rows - v)
    {
      ok, w, v := true, w0, levelVertical;
      while v > h
        invariant h <= v <= t.rows
        invariant Standing(t, w, Min(1, t.columns), t.rows - v)
      {
        if w.Exhausted() {
          ExhaustionIsFinal(t, w, 0, t.rows - v);
          return false, w, v;
        }
        var above := if v == levelVertical
                     then Level(w.addressBits, w.distributeBits, w.broadcastBits, 1, 1)
                     else vertical[levelVertical - v - 1];
        w := DescendVertical(w, above, levelVertical - v, t, 0);
        v := v - 1;
      }
    }

    /** One horizontal and one vertical level, with h of each remaining. */
    method RoutePair(ghost t: Tree, w0: Walk, h: nat, v: nat) returns (ok: bool, w: Walk)
      requires 0 < h == v && h <= t.LastColumn() && v <= t.rows
      requires Standing(t, w0, t.columns - h, t.rows - v)
      modifies horizontal, vertical
      ensures t.Routable() ==> ok
      ensures ok ==> Standing(t, w, t.columns - h + 1, t.rows - v + 1)
    {
      w := w0;
      if w.Exhausted() {
        ExhaustionIsFinal(t, w, t.columns - h - 1, t.rows - v);
        return false, w;
      }
      var above := if v == levelVertical then horizontal[levelHorizontal - h - 1] else vertical[levelVertical - v - 1];
      w := DescendHorizontal(w, above, levelHorizontal - h, t, t.rows - v);
      if w.Exhausted() {
        ExhaustionIsFinal(t, w, t.columns - h, t.rows - v);
        return false, w;
      }
      w := DescendVertical(w, horizontal[levelHorizontal - h], levelVertical - v, t, t.columns - h);
      ok := true;
    }

    /** The rest of the walk, where as many horizontal as vertical levels remain and they alternate. */
    method RouteAlternating(ghost t: Tree, w0: Walk, remaining: nat) returns (ok: bool, w: Walk)
      requires remaining <= t.LastColumn() && remaining <= t.rows
      requires Standing(t, w0, t.columns - remaining, t.rows - remaining)
      modifies horizontal, vertical
      ensures t.Routable() ==> ok
      ensures ok ==> Standing(t, w, t.columns, t.rows)
    {
      ok, w := true, w0;
      var h, v := remaining, remaining;
      while h > 0 && ok
        invariant h == v <= remaining
        invariant t.Routable() ==> ok
        invariant ok ==> Standing(t, w, t.columns - h, t.rows - v)
      {
        ok, w := RoutePair(t, w, h, v);
        h, v := h - 1, v - 1;
      }
    }

    /** The root of the tree is a horizontal level, if there is any. */
    method RouteRoot(ghost t: Tree) returns (ok: bool, w: Walk)
      requires ReadyToRoute(t)
      modifies horizontal
      ensures t.Routable() ==> ok
      ensures ok ==> Standing(t, w, Min(1, t.columns), 0)
    {
      ok := true;
      w := Walk(subarrays.activePerColumn, subarrays.activePerRow, numAddressBit, numDataDistributeBit, numDataBroadcastBit);
      if levelHorizontal > 0 {
        if w.Exhausted() {
          ExhaustionIsFinal(t, w, 0, 0);
          return false, w;
        }
        horizontal[0] := Level(w.addressBits, w.distributeBits, w.broadcastBits, 1, 1);
      }
    }

    /** The walk from the root to a subarray.  Every slot is written once, while it is still
        `Unrouted`, and the walk fails exactly on the trees that are not routable. */
    method Route(ghost t: Tree) returns (ok: bool, w: Walk)
      requires ReadyToRoute(t)
      modifies horizontal, vertical
      ensures ok <==> t.Routable()
      ensures ok ==> FilledHorizontal(horizontal, t, t.columns) && FilledVertical(vertical, t, t.rows)
      ensures ok ==> w.At(t, t.columns, t.rows) && w.rowToActive == 1 && w.columnToActive == 1
    {
      hide Walk.At, Tree.At, Pow2, FilledHorizontal, FilledVertical;
      ok, w := RouteRoot(t);
      if !ok {
        return;
      }
      var h, v := if levelHorizontal > 0 then levelHorizontal - 1 else 0, levelVertical;
      if h > v {
        ok, w, h := RouteSurplusColumns(t, w);
      } else if v > h {
        ok, w, v := RouteSurplusRows(t, w, h);
      }
      if ok {
        ok, w := RouteAlternating(t, w, h);
      }
      if ok {
        ok, w := EnterSubarray(w, levelHorizontal, t);
      }
    }

    method Record(o: Organisation)
      modifies this`subarrays, this`mats, this`muxes, this`memoryType, this`numRowPerSet, this`stackedDieCount
      ensures Records(o)
    {
      subarrays, mats, muxes, memoryType := o.subarrays.Clamped(), o.mats.Clamped(), o.muxes, o.memoryType;
      numRowPerSet, stackedDieCount := o.numRowPerSet, o.stackedDieCount;
    }

    /** Record the tree to route and allocate the level arrays. */
    method Prepare(t: Tree)
      requires t.WellFormed()
      requires subarrays.activePerRow == Pow2(t.activeColumns) && subarrays.activePerColumn == Pow2(t.activeRows)
      modifies this`numAddressBit, this`numDataDistributeBit, this`numDataBroadcastBit
      modifies this`levelHorizontal, this`levelVertical
      modifies this`horizontal, this`vertical, this`lengthHorizontal, this`lengthVertical
      ensures fresh(horizontal) && fresh(vertical)
      ensures ReadyToRoute(t) && LengthsAllocated()
    {
      hide Tree.At, Pow2, FilledHorizontal, FilledVertical;
      numAddressBit, numDataDistributeBit, numDataBroadcastBit := t.addressBits, t.distributeBits, t.broadcastBits;
      levelHorizontal, levelVertical := t.columns, t.rows;
      AllocateLevels(t);
    }

    method LayOut(o: Organisation, t: Tree)
      requires t.WellFormed()
      requires o.subarrays.Clamped().activePerRow == Pow2(t.activeColumns)
      requires o.subarrays.Clamped().activePerColumn == Pow2(t.activeRows)
      modifies this
      ensures subarray == old(subarray) && invalid == old(invalid) && initialized == old(initialized)
      ensures fresh(horizontal) && fresh(vertical)
      ensures ReadyToRoute(t) && Records(o) && LengthsAllocated()
    {
      hide Pow2, ReadyToRoute;
      Record(o);
      Prepare(t);
    }

    method AllocateLevels(ghost t: Tree)
      modifies this`horizontal, this`vertical, this`lengthHorizontal, this`lengthVertical
      ensures fresh(horizontal) && fresh(vertical) && horizontal != vertical
      ensures horizontal.Length == levelHorizontal && vertical.Length == levelVertical
      ensures LengthsAllocated()
      ensures FilledHorizontal(horizontal, t, 0) && FilledVertical(vertical, t, 0)
    {
      horizontal := new Level[levelHorizontal](_ => Unrouted);
      vertical := new Level[levelVertical](_ => Unrouted);
      lengthHorizontal := new real[levelHorizontal];
      lengthVertical := new real[levelVertical];
    }

    ghost predicate LengthsAllocated()
      reads this
    {
      && lengthHorizontal != lengthVertical
      && lengthHorizontal.Length == levelHorizontal && lengthVertical.Length == levelVertical
    }

    ghost predicate Records(o: Organisation)
      reads this
    {
      && subarrays == o.subarrays.Clamped() && mats == o.mats.Clamped() && muxes == o.muxes
      && memoryType == o.memoryType && numRowPerSet == o.numRowPerSet && stackedDieCount == o.stackedDieCount
    }

    /** What a used bank carries over into its next initialisation: its own verdict where the
        bank did not get as far as being initialised, and in any case that of its subarray. */
    predicate Tainted()
      reads this, subarray
    {
      (invalid && !initialized) || subarray.invalid
    }

    /** Route, check that a set's ways fit, redistribute them over the muxes and build the
        subarray.  The bank's own mux degrees are the ones it was given, for reporting. */
    method Initialize(o: Organisation, env: Environment)
      requires o.subarrays.rows == 0 || o.subarrays.columns == 0 || o.WellFormed()
      modifies this, subarray
      ensures subarray == old(subarray)
      ensures invalid <==> o.subarrays.rows == 0 || o.subarrays.columns == 0 || !HtreeAccepts(o, env) || old(Tainted())
      ensures initialized <==> o.subarrays.rows == 0 || o.subarrays.columns == 0 || o.internalSenseAmp
      ensures !invalid ==> initialized && Built(o, env)
    {
      hide IsPow2, FloorLog2, Pow2, NearLog2, Tree.At, TreeOf, HtreeRequest, Accepts, SubArray.Sized;
      hide FilledHorizontal, FilledVertical, Walk.At;
      if o.subarrays.rows == 0 || o.subarrays.columns == 0 {
        invalid, initialized := true, true;
        return;
      }
      if initialized {
        initialized, invalid := false, false;
      }
      if !o.internalSenseAmp {
        invalid := true;
        return;
      }
      var t := PlanTree(o);
      TreeIsWellFormed(o);
      LayOut(o, t);
      var ok, w := Route(t);
      if !ok {
        invalid, initialized := true, true;
        return;
      }
      BuildSubarray(o, env, w);
    }

    /** From the bottom of the tree: check that the ways fit and build what is asked of the subarray. */
    method BuildSubarray(o: Organisation, env: Environment, w: Walk)
      requires o.WellFormed() && o.internalSenseAmp && TreeOf(o).Routable()
      requires w.At(TreeOf(o), TreeOf(o).columns, TreeOf(o).rows)
      modifies this`invalid, this`initialized, subarray
      ensures initialized
      ensures invalid <==> old(invalid) || !HtreeAccepts(o, env) || old(subarray.invalid)
      ensures !invalid ==> (RequestIsWellFormed(o, env); subarray.Sized(HtreeRequest(o, env)))
    {
      hide IsPow2, FloorLog2, Pow2, NearLog2, Tree.At, TreeOf, HtreeRequest, Accepts, SubArray.Sized, Walk.At;
      initialized := true;
      var request := ChooseRequest(o, env, w);
      if request == None {
        invalid := true;
        return;
      }
      RequestIsWellFormed(o, env);
      subarray.Initialize(request.value, env);
      if subarray.invalid {
        invalid := true;
      }
    }

    /** The bank holds the routed tree of o and a subarray built for it. */
    ghost predicate Built(o: Organisation, env: Environment)
      requires o.WellFormed() && HtreeAccepts(o, env)
      reads this, horizontal, vertical, subarray
    {
      var t := TreeOf(o);
      RequestIsWellFormed(o, env);
      var r := HtreeRequest(o, env);
      && Records(o) && LengthsAllocated()
      && numAddressBit == t.addressBits && numDataDistributeBit == t.distributeBits && numDataBroadcastBit == t.broadcastBits
      && levelHorizontal == horizontal.Length == t.columns && levelVertical == vertical.Length == t.rows
      && FilledHorizontal(horizontal, t, t.columns) && FilledVertical(vertical, t, t.rows)
      && subarray.Sized(r)
    }

    lemma BuiltIsRouted(o: Organisation, env: Environment)
      requires o.WellFormed() && HtreeAccepts(o, env) && Built(o, env)
      ensures Routed(horizontal[..]) && Routed(vertical[..])
    {
      hide TreeOf, HtreeRequest, MatRows, MatColumns, Tree.At, Accepts;
      RecordedLevelsCarryAddresses(TreeOf(o));
    }

    /** The wire lengths of the area calculation. */
    method CalculateWireLengths(o: Organisation, env: Environment, f: Floorplan)
      requires o.WellFormed() && HtreeAccepts(o, env) && Built(o, env) && f.WellFormed()
      modifies lengthHorizontal, lengthVertical
      ensures Built(o, env)
      ensures Routed(horizontal[..]) && Routed(vertical[..])
      ensures Measured(f, horizontal[..], vertical[..], lengthHorizontal[..], lengthVertical[..])
    {
      hide HtreeAccepts, TreeOf, HtreeRequest, Measured, MatRows, MatColumns, Tree.At, Routed, FilledHorizontal, FilledVertical;
      BuiltIsRouted(o, env);
      MeasureWires(f, horizontal, vertical, lengthHorizontal, lengthVertical);
    }

    /** The time to refresh the bank: every row of every mat of a subarray row, one subarray
        column after the other, and the wires to reach them.  A bank of cells that need
        refreshing and that cannot finish within the retention time is invalid. */
    method CalculateRefreshLatency(c: RefreshCosts, dramLike: bool)
      modifies this`refreshLatency, this`invalid
      ensures refreshLatency
           == Times(subarray.matRows as real * mats.columns as real * subarrays.columns as real, c.accessLatency + c.restoreDelay)
              + Times(mats.columns as real * subarrays.columns as real, c.predecoderLatency)
              + c.WireTime(lengthHorizontal[..]) + c.WireTime(lengthVertical[..])
      ensures invalid <==> old(invalid) || (dramLike && refreshLatency > c.retention)
      ensures !invalid && dramLike ==>
                Times(subarray.matRows as real * mats.columns as real * subarrays.columns as real, c.accessLatency + c.restoreDelay) <= c.retention
    {
      hide RefreshCosts.WireTime, RefreshCosts.Subarray;
      refreshLatency := c.Subarray(subarray.matRows, mats.columns) * subarrays.columns as real;
      refreshLatency := AddWireTimes(c, refreshLatency, lengthHorizontal);
      refreshLatency := AddWireTimes(c, refreshLatency, lengthVertical);
      BankIsExact(c, subarray.matRows, mats.columns, subarrays.columns, lengthHorizontal[..], lengthVertical[..]);
      if dramLike && refreshLatency > c.retention {
        invalid := true;
      } else if dramLike {
        WithinBudget(c, subarray.matRows, mats.columns, subarrays.columns, lengthHorizontal[..], lengthVertical[..]);
      }
    }
  }

  /** Count the levels of the tree and the signals to route through it. */
  method PlanTree(o: Organisation) returns (t: Tree)
    requires o.WellFormed()
    ensures t == TreeOf(o)
    ensures Pow2(t.columns) == o.subarrays.columns && Pow2(t.rows) == o.subarrays.rows
    ensures Pow2(t.activeColumns) == Min(o.subarrays.activePerRow, o.subarrays.columns)
    ensures Pow2(t.activeRows) == Min(o.subarrays.activePerColumn, o.subarrays.rows)
    ensures match o.memoryType
            case Data => t.distributeBits == o.blockSize && Pow2(t.broadcastBits) <= o.associativity < Pow2(t.broadcastBits + 1)
            case Tag => t.distributeBits == o.associativity && t.broadcastBits == o.blockSize
            case Cam => t.distributeBits == 0 && t.broadcastBits == o.blockSize
  {
    var c := o.subarrays.Clamped();
    var columns := Log2(c.columns);
    var rows := Log2(c.rows);
    var activeColumns := Log2(c.activePerRow);
    var activeRows := Log2(c.activePerColumn);
    LogExact(o.stackedDieCount);
    LogExact(c.columns);
    LogExact(c.rows);
    LogExact(c.activePerRow);
    LogExact(c.activePerColumn);
    FloorLog2Bounds(o.associativity);
    t := Tree(columns, rows, activeColumns, activeRows, o.AddressBits(), o.DistributeBits(), o.BroadcastBits());
  }

  /** Decide whether the ways of a set fit the subarray and what to ask of it. */
  method ChooseRequest(o: Organisation, env: Environment, w: Walk) returns (r: Option<SubArrayRequest>)
    requires o.WellFormed() && o.internalSenseAmp
    requires TreeOf(o).Routable() && w.At(TreeOf(o), TreeOf(o).columns, TreeOf(o).rows)
    ensures r == if HtreeOffers(o) then Some(HtreeRequest(o, env)) else None
  {
    if o.memoryType == Data && o.numRowPerSet > Pow2(w.broadcastBits) {
      return None;
    }
    if o.memoryType == Tag && (o.numRowPerSet > 1 || w.distributeBits == 0) {
      return None;
    }
    match o.memoryType
    case Data =>
      var numWay := Pow2(w.broadcastBits);
      LogExact(o.numRowPerSet);
      var numWayPerRow := Quotient(numWay, o.numRowPerSet);
      var muxes := Scaled(o.muxes, ExtraMuxes(env.dramLike, numWayPerRow));
      r := Some(SubArrayRequest(o.mats.Clamped(), w.addressBits, w.distributeBits, numWay, o.numRowPerSet, muxes, Data));
    case Tag =>
      r := Some(SubArrayRequest(o.mats.Clamped(), w.addressBits, w.broadcastBits, w.distributeBits, o.numRowPerSet, o.muxes, Tag));
    case Cam =>
      r := Some(SubArrayRequest(o.mats.Clamped(), w.addressBits, w.broadcastBits, 1, o.numRowPerSet, o.muxes, Cam));
  }
}

/** Across the two routers and the subarray: they agree with each other, and what they build
    stores exactly the bits asked for, or fails to under a condition stated in advance. */
module Capacity {
  import opened Common
  import opened Powers
  import opened Organisations
  import opened HtreeLevels
  import opened SubArrays
  import opened HtreeBanks
  import opened FlatBanks

  // ---------------------------------------------------------------- router agreement

  /** At the bottom of the tree everything has been split and gated: the walk's remainders
      are the quotients the flat router computes. */
  lemma BottomOfTree(o: Organisation)
    requires o.WellFormed()
    ensures var t := TreeOf(o);
            var l := t.At(t.columns, t.rows);
            && l.addressBits == FlatAddressBits(o)
            && l.distributeBits == Share(o.DistributeBits(), o.subarrays)
  {
    var t := TreeOf(o);
    TreeIsWellFormed(o);
    AtClosedForm(t, t.columns, t.rows);
    ShareExact(o.DistributeBits(), o.subarrays);
    GroupsExact(o.subarrays);
  }

  /** Whenever the H-tree asks for a subarray, both routers ask for the same one exactly when
      the associativity of a data array is a power of two. */
  lemma RequestsAgree(o: Organisation, env: Environment)
    requires o.WellFormed() && HtreeOffers(o)
    ensures HtreeRequest(o, env) == FlatRequest(o, env) <==> (o.memoryType == Data ==> IsPow2(o.associativity))
  {
    BottomOfTree(o);
    if o.memoryType == Data {
      if IsPow2(o.associativity) {
        LogExact(o.associativity);
      } else {
        FloorLog2OfPow2(FloorLog2(o.associativity));
        assert HtreeRequest(o, env).numWay != FlatRequest(o, env).numWay;
      }
    }
  }

  /** A subarray the flat router can build is never starved of bits on the way down the tree. */
  lemma FlatImpliesRoutable(o: Organisation, env: Environment)
    requires o.WellFormed() && FlatAccepts(o, env)
    ensures TreeOf(o).Routable()
  {
    hide NearLog2, MatRows, MatColumns, Shape, PassesFilter;
    var t := TreeOf(o);
    FlatRequestIsWellFormed(o, env);
    BottomOfTree(o);
    if t.Starved(t.LastColumn(), t.rows) {
      StarvationSpreads(t, t.LastColumn(), t.rows, t.columns, t.rows);
    }
  }

  /** The H-tree needs internal sensing; given that, the level-by-level walk and the closed
      split accept the same organisations. */
  lemma RoutersAgree(o: Organisation, env: Environment)
    requires o.WellFormed()
    requires o.memoryType == Data ==> IsPow2(o.associativity)
    ensures HtreeAccepts(o, env) <==> o.internalSenseAmp && FlatAccepts(o, env)
    ensures HtreeAccepts(o, env) ==> HtreeRequest(o, env) == FlatRequest(o, env)
  {
    hide NearLog2, MatRows, MatColumns, Shape, PassesFilter, Accepts;
    BottomOfTree(o);
    if o.memoryType == Data {
      LogExact(o.associativity);
    }
    if o.internalSenseAmp && FlatAccepts(o, env) {
      FlatImpliesRoutable(o, env);
      assert HtreeOffers(o);
    }
    if HtreeOffers(o) {
      RequestsAgree(o, env);
    }
  }

  // ---------------------------------------------------------------- capacity conservation

  /** The product the program compares with the requested capacity before it keeps a bank. */
  function StoredBits(o: Organisation, rows: nat, columns: nat): int {
    columns * rows * o.subarrays.columns * o.subarrays.rows * o.mats.columns * o.mats.rows * o.stackedDieCount
  }

  /** That product for the bank the H-tree builds. */
  function StoredByHtree(o: Organisation, env: Environment): int
    requires o.WellFormed() && HtreeAccepts(o, env)
  {
    RequestIsWellFormed(o, env);
    var r := HtreeRequest(o, env);
    StoredBits(o, MatRows(r), MatColumns(r))
  }

  /** And for the bank without H-tree. */
  function StoredByFlat(o: Organisation, env: Environment): int
    requires o.WellFormed() && FlatAccepts(o, env)
  {
    FlatRequestIsWellFormed(o, env);
    var r := FlatRequest(o, env);
    StoredBits(o, MatRows(r), MatColumns(r))
  }

  lemma RegroupProduct(c: int, r: int, sc: int, sr: int, mc: int, mr: int, d: int)
    ensures c * r * sc * sr * mc * mr * d == c * r * (sr * sc) * (mr * mc) * d
  {}

  lemma StoredInUnits(o: Organisation, rows: nat, columns: nat)
    requires o.WellFormed()
    ensures StoredBits(o, rows, columns)
         == columns * rows * Pow2(o.subarrays.ActiveBits() + o.subarrays.GatingBits())
            * Pow2(o.mats.ActiveBits() + o.mats.GatingBits()) * o.stackedDieCount
  {
    GroupsExact(o.subarrays);
    GroupsExact(o.mats);
    RegroupProduct(columns, rows, o.subarrays.columns, o.subarrays.rows, o.mats.columns, o.mats.rows, o.stackedDieCount);
  }

  /** Powers of two collect whatever order they were multiplied in. */
  lemma CollectPowers(x: int, m: nat, p: nat, y: int, s: nat, t: nat)
    ensures x * Pow2(m) * (Pow2(p) * y) * Pow2(s) * Pow2(t) == Pow2(p + m + s + t) * (x * y)
  {
    Pow2Add(p, m);
    Pow2Add(p + m, s);
    Pow2Add(p + m + s, t);
    CollectFactors(x, Pow2(m), Pow2(p), y, Pow2(s), Pow2(t));
  }

  lemma CollectFactors(x: int, m: int, p: int, y: int, s: int, t: int)
    ensures x * m * (p * y) * s * t == p * m * s * t * (x * y)
  {}

  /** What the power-of-two pieces of the organisation multiply to: the sets, times the units
      one access activates. */
  lemma StoredByRequest(o: Organisation, r: SubArrayRequest, p: nat, x: nat, m: nat, y: nat)
    requires o.WellFormed() && WellFormed(r) && r.mats == o.mats.Clamped() && r.muxes.WellFormed()
    requires r.numAddressBit == FlatAddressBits(o)
    requires RowBits(r) == p && m == r.muxes.Bits()
    ensures StoredBits(o, Pow2(p) * y, x * Pow2(m))
         == Pow2(o.AddressBits() + o.subarrays.ActiveBits() + o.mats.ActiveBits()) * (x * y) * o.stackedDieCount
  {
    hide NearLog2, StoredBits, IsPow2, FloorLog2, Pow2, Floored, Quotient;
    LogExact(o.stackedDieCount);
    Pow2Muxes(r);
    StoredInUnits(o, Pow2(p) * y, x * Pow2(m));
    CollectPowers(x, m, p, y, o.subarrays.ActiveBits() + o.subarrays.GatingBits(), o.mats.ActiveBits() + o.mats.GatingBits());
  }

  /** n rounded down to a multiple of d. */
  function Floored(n: nat, d: nat): nat
    requires d >= 1
  {
    n - n % d
  }

  lemma FlooredExact(n: nat, e: nat)
    ensures Pow2(e) * Quotient(n, Pow2(e)) == Floored(n, Pow2(e))
  {}

  /** Bits of a word that the active mats of the active subarrays can hold between them. */
  function ActiveMats(o: Organisation): (m: nat)
    requires o.WellFormed()
    ensures m >= 1
  {
    Pow2(o.subarrays.ActiveBits() + o.mats.ActiveBits())
  }

  /** The sets of one die, times the dies. */
  function Sets(o: Organisation): nat
    requires o.WellFormed()
  {
    LogExact(o.stackedDieCount);
    Product(Pow2(o.AddressBits()), o.stackedDieCount)
  }

  /** A request's mats are clamped already; clamping again changes nothing. */
  lemma SameMats(o: Organisation, r: SubArrayRequest)
    requires o.WellFormed() && r.mats == o.mats.Clamped()
    ensures r.mats.WellFormed() && r.mats.ActiveBits() == o.mats.ActiveBits() && r.mats.GatingBits() == o.mats.GatingBits()
  {}

  lemma TwoShares(n: nat, a: nat, b: nat)
    ensures Quotient(Quotient(n, Pow2(a)), Pow2(b)) == Quotient(n, Pow2(a + b))
  {
    DivDiv(n, Pow2(a), Pow2(b));
    Pow2Add(a, b);
  }

  lemma GatherData(n: nat, k: nat, q: int, w: int, d: int)
    ensures Pow2(n + k) * (q * w) * d == Pow2(n) * d * w * (Pow2(k) * q)
  {
    Pow2Add(n, k);
    GatherFactors(Pow2(n), Pow2(k), q, w, d);
  }

  lemma GatherFactors(n: int, k: int, q: int, w: int, d: int)
    ensures n * k * (q * w) * d == n * d * w * (k * q)
  {}

  /** A data array the H-tree and the subarray accept stores, in every set, the largest power
      of two of ways not above the associativity, each as wide as the active mats divide. */
  lemma DataStorage(o: Organisation, env: Environment)
    requires o.WellFormed() && o.memoryType == Data && HtreeAccepts(o, env)
    ensures StoredByHtree(o, env) == Sets(o) * Pow2(FloorLog2(o.associativity)) * Floored(o.blockSize, ActiveMats(o))
    ensures o.blockSize >= ActiveMats(o)
  {
    hide NearLog2, StoredBits, IsPow2, FloorLog2, Pow2, Floored, Quotient;
    RequestIsWellFormed(o, env);
    BottomOfTree(o);
    LogExact(o.stackedDieCount);
    var r := HtreeRequest(o, env);
    SameMats(o, r);
    ShareExact(o.blockSize, o.subarrays);
    var sa, ma := o.subarrays.ActiveBits(), o.mats.ActiveBits();
    TwoShares(o.blockSize, sa, ma);
    var q, w := Quotient(o.blockSize, Pow2(sa + ma)), Pow2(FloorLog2(o.associativity));
    ColumnDivision(r.numDataBit, Pow2(ma));
    ColumnDivision(o.blockSize, Pow2(sa + ma));
    Pow2Muxes(r);
    StoredByRequest(o, r, RowBits(r), q, r.muxes.Bits(), w);
    GatherData(o.AddressBits(), sa + ma, q, w, o.stackedDieCount);
    FlooredExact(o.blockSize, sa + ma);
  }

  lemma GatherTag(n: nat, sa: nat, ma: nat, q: int, w: int, d: int)
    ensures Pow2(n + sa + ma) * (q * w) * d == Pow2(n) * d * (Pow2(sa) * w) * (Pow2(ma) * q)
  {
    GatherData(n, sa + ma, q, w, d);
    Pow2Add(sa, ma);
    var u := Pow2(n) * d;
    assert u * w * (Pow2(sa) * Pow2(ma) * q) == u * (Pow2(sa) * w) * (Pow2(ma) * q) by {
      TagFactors(u, w, Pow2(sa), Pow2(ma), q);
    }
  }

  lemma TagFactors(u: int, w: int, a: int, b: int, q: int)
    ensures u * w * (a * b * q) == u * (a * w) * (b * q)
  {}

  /** A tag array keeps the tag bits its active mats divide and the ways its active subarrays
      divide. */
  lemma TagStorage(o: Organisation, env: Environment)
    requires o.WellFormed() && o.memoryType == Tag && HtreeAccepts(o, env)
    ensures StoredByHtree(o, env) == Sets(o) * Floored(o.associativity, o.subarrays.Active()) * Floored(o.blockSize, o.mats.Active())
    ensures o.blockSize >= o.mats.Active() && o.associativity >= o.subarrays.Active()
  {
    hide NearLog2, StoredBits, IsPow2, FloorLog2, Pow2, Floored, Quotient, Product;
    RequestIsWellFormed(o, env);
    BottomOfTree(o);
    LogExact(o.stackedDieCount);
    var r := HtreeRequest(o, env);
    SameMats(o, r);
    ShareExact(o.associativity, o.subarrays);
    ColumnDivision(o.associativity, o.subarrays.Active());
    Pow2Muxes(r);
    TagProduct(o, r, RowBits(r), Quotient(o.blockSize, o.mats.Active()), r.muxes.Bits(),
               Quotient(o.associativity, o.subarrays.Active()));
    FlooredExact(o.blockSize, o.mats.ActiveBits());
    FlooredExact(o.associativity, o.subarrays.ActiveBits());
  }

  lemma TagProduct(o: Organisation, r: SubArrayRequest, p: nat, q: nat, m: nat, w: nat)
    requires o.WellFormed() && WellFormed(r) && r.mats == o.mats.Clamped() && r.muxes.WellFormed()
    requires r.numAddressBit == FlatAddressBits(o)
    requires RowBits(r) == p && m == r.muxes.Bits()
    ensures StoredBits(o, Product(Pow2(p), 1), Product(Product(q, Pow2(m)), w))
         == Sets(o) * (o.subarrays.Active() * w) * (o.mats.Active() * q)
  {
    hide NearLog2, StoredBits, IsPow2, FloorLog2, Pow2;
    LogExact(o.stackedDieCount);
    StoredByRequest(o, r, p, q * w, m, 1);
    assert q * Pow2(m) * w == q * w * Pow2(m);
    GatherTag(o.AddressBits(), o.subarrays.ActiveBits(), o.mats.ActiveBits(), q, w, o.stackedDieCount);
  }

  // ---------------------------------------------------------------- when the check passes

  lemma FlooredBounds(n: nat, d: nat)
    requires d >= 1
    ensures 0 <= Floored(n, d) <= n
    ensures d <= n ==> 1 <= Floored(n, d)
    ensures Floored(n, d) == n <==> n % d == 0
  {}

  lemma Uncut(s: nat, w: nat, a: nat, f: nat, b: nat)
    requires 1 <= s && 1 <= w <= a && 1 <= f <= b
    ensures s * w * f == s * (a * b) <==> w == a && f == b
  {}

  lemma Cancel(s: int, x: int, y: int)
    requires s >= 1
    ensures s * x == s * y <==> x == y
  {}

  lemma SetsPositive(o: Organisation)
    requires o.WellFormed()
    ensures Sets(o) >= 1
  {}

  lemma PowerOfItsLog(a: nat)
    requires a >= 1
    ensures Pow2(FloorLog2(a)) == a <==> IsPow2(a)
  {}

  /** The bits of every set that an accepted bank keeps: of a data array the largest power of
      two of ways, each as wide as the active mats divide; of a tag array the ways its active
      subarrays divide, each as wide as the active mats of one of them divide. */
  function BitsPerSet(o: Organisation): nat
    requires o.WellFormed() && o.memoryType != Cam
  {
    if o.memoryType == Data
    then Product(Pow2(FloorLog2(o.associativity)), Floored(o.blockSize, ActiveMats(o)))
    else Product(Floored(o.associativity, o.subarrays.Active()), Floored(o.blockSize, o.mats.Active()))
  }

  lemma StoredAsExpected(o: Organisation, env: Environment)
    requires o.WellFormed() && o.memoryType != Cam && HtreeAccepts(o, env)
    ensures StoredByHtree(o, env) == Sets(o) * BitsPerSet(o)
    ensures 1 <= BitsPerSet(o) <= o.associativity * o.blockSize
  {
    hide StoredByHtree, IsPow2, FloorLog2, Pow2, Sets, HtreeAccepts, HtreeRequest, MatRows, MatColumns, Floored;
    if o.memoryType == Data {
      DataStorage(o, env);
      FloorLog2Bounds(o.associativity);
      FlooredBounds(o.blockSize, ActiveMats(o));
      SetProduct(Sets(o), Pow2(FloorLog2(o.associativity)), o.associativity, Floored(o.blockSize, ActiveMats(o)), o.blockSize);
    } else {
      TagStorage(o, env);
      FlooredBounds(o.associativity, o.subarrays.Active());
      FlooredBounds(o.blockSize, o.mats.Active());
      SetProduct(Sets(o), Floored(o.associativity, o.subarrays.Active()), o.associativity,
                 Floored(o.blockSize, o.mats.Active()), o.blockSize);
    }
  }

  lemma SetProduct(s: nat, w: nat, a: nat, f: nat, b: nat)
    requires 1 <= w <= a && 1 <= f <= b
    ensures s * w * f == s * Product(w, f) && 1 <= Product(w, f) <= a * b
  {}

  /** An accepted bank has at least one set per die. */
  lemma AtLeastOneSet(o: Organisation, env: Environment)
    requires o.WellFormed() && HtreeAccepts(o, env)
    ensures o.stackedDieCount >= 1 && o.AddressBits() >= 1
    ensures 1 <= o.blockSize * o.associativity * o.stackedDieCount <= o.capacity
  {
    hide MatRows, MatColumns, Shape, PassesFilter, IsPow2, FloorLog2, Pow2, HtreeRequest;
    LogExact(o.stackedDieCount);
    BottomOfTree(o);
    RequestIsWellFormed(o, env);
    RequestAddress(o, env);
    MulAtLeast(o.blockSize, o.associativity);
    MulAtLeast(o.blockSize * o.associativity, o.stackedDieCount);
  }

  lemma RequestAddress(o: Organisation, env: Environment)
    requires o.WellFormed()
    ensures HtreeRequest(o, env).numAddressBit == FlatAddressBits(o)
    ensures HtreeRequest(o, env).mats == o.mats.Clamped()
  {
    hide NearLog2, IsPow2, FloorLog2, Pow2;
    BottomOfTree(o);
  }

  /** Of all numbers of sets, k is the one the rounded logarithm finds in a capacity of
      2^k * d * kept bits exactly when rounding the set up to a * b bits stays within the
      tolerance. */
  lemma FoundIff(cap: nat, a: nat, b: nat, d: nat, kept: nat, k: nat)
    requires 1 <= kept <= a * b && 1 <= d && 1 <= b * a * d <= cap
    requires cap == Pow2(k) * (d * kept)
    ensures NearLog2(cap, b * a * d) == k <==> Tenth(a * b) <= 2 * Tenth(kept)
  {
    hide NearLog2, Pow2, Power, Tenth;
    SetFactors(Pow2(k), b, a, d);
    Associate(Pow2(k), d, kept);
    MulMonotone(1, 1, Pow2(k), d);
    MulMonotone(Pow2(k) * d, kept, Pow2(k) * d, a * b);
    NearLog2Iff(cap, b * a * d, k);
    TenthScales(Pow2(k) * d, a * b, kept);
  }

  /** A capacity is a power of two of sets per die, each keeping so many of its full bits, and
      what a set loses is within the tolerance of 2^0.1 of the logarithm. */
  ghost predicate Meets(cap: nat, d: nat, full: nat, kept: nat) {
    (exists n: nat :: cap == Pow2(n) * (d * kept)) && Tenth(full) <= 2 * Tenth(kept)
  }

  /** The rounded logarithm finds a number of sets that makes up the capacity exactly when
      there is one and the tolerance covers what the sets lose. */
  lemma MeetsIff(cap: nat, a: nat, b: nat, d: nat, kept: nat)
    requires 1 <= kept <= a * b && 1 <= d && 1 <= b * a * d <= cap
    ensures Pow2(NearLog2(cap, b * a * d)) * d * kept == cap <==> Meets(cap, d, a * b, kept)
  {
    hide NearLog2, Pow2, Power, Tenth;
    Associate(Pow2(NearLog2(cap, b * a * d)), d, kept);
    if Pow2(NearLog2(cap, b * a * d)) * (d * kept) == cap {
      FoundIff(cap, a, b, d, kept, NearLog2(cap, b * a * d));
    }
    if Meets(cap, d, a * b, kept) {
      var k: nat :| cap == Pow2(k) * (d * kept);
      FoundIff(cap, a, b, d, kept, k);
    }
  }

  /** The sets of an organisation make up its capacity, as they are kept. */
  ghost predicate CapacityConserved(o: Organisation)
    requires o.WellFormed() && o.memoryType != Cam
  {
    Meets(o.capacity, o.stackedDieCount, Product(o.associativity, o.blockSize), BitsPerSet(o))
  }

  /** Capacity conservation, for every capacity, word and associativity: the check before an
      accepted bank is kept passes exactly for the organisations that conserve. */
  lemma CapacityIff(o: Organisation, env: Environment)
    requires o.WellFormed() && o.memoryType != Cam && HtreeAccepts(o, env)
    ensures StoredByHtree(o, env) == o.capacity
            <==> CapacityConserved(o)
  {
    hide StoredByHtree, IsPow2, FloorLog2, Pow2, NearLog2, Meets;
    hide HtreeAccepts, HtreeRequest, MatRows, MatColumns, BitsPerSet;
    StoredAsExpected(o, env);
    AtLeastOneSet(o, env);
    MeetsIff(o.capacity, o.associativity, o.blockSize, o.stackedDieCount, BitsPerSet(o));
  }

  /** Spelled out for data arrays. */
  lemma DataCapacity(o: Organisation, env: Environment)
    requires o.WellFormed() && o.memoryType == Data && HtreeAccepts(o, env)
    ensures StoredByHtree(o, env) == o.capacity
            <==> Meets(o.capacity, o.stackedDieCount, Product(o.associativity, o.blockSize),
                 Product(Pow2(FloorLog2(o.associativity)), Floored(o.blockSize, ActiveMats(o))))
  {
    hide StoredByHtree, IsPow2, FloorLog2, Pow2, Floored, Meets, HtreeAccepts, HtreeRequest, MatRows, MatColumns;
    CapacityIff(o, env);
  }

  /** Spelled out for tag arrays. */
  lemma TagCapacity(o: Organisation, env: Environment)
    requires o.WellFormed() && o.memoryType == Tag && HtreeAccepts(o, env)
    ensures StoredByHtree(o, env) == o.capacity
            <==> Meets(o.capacity, o.stackedDieCount, Product(o.associativity, o.blockSize),
                 Product(Floored(o.associativity, o.subarrays.Active()), Floored(o.blockSize, o.mats.Active())))
  {
    hide StoredByHtree, IsPow2, FloorLog2, Pow2, Floored, Meets, HtreeAccepts, HtreeRequest, MatRows, MatColumns;
    CapacityIff(o, env);
  }

  // ---------------------------------------------------------------- what the search meets

  /** A capacity of 2^e full sets per die is recognised exactly. */
  lemma WholeSets(o: Organisation, e: nat)
    requires o.WellFormed()
    requires o.capacity == Pow2(e) * (o.blockSize * o.associativity * o.stackedDieCount)
    ensures o.stackedDieCount >= 1 && o.AddressBits() == e
    ensures o.capacity == Sets(o) * (o.associativity * o.blockSize)
  {
    hide IsPow2, FloorLog2, Pow2, NearLog2;
    LogExact(o.stackedDieCount);
    MulAtLeast(o.blockSize, o.associativity);
    MulAtLeast(o.blockSize * o.associativity, o.stackedDieCount);
    NearLog2Exact(e, o.blockSize * o.associativity * o.stackedDieCount);
    SetFactors(Pow2(e), o.blockSize, o.associativity, o.stackedDieCount);
  }

  lemma SetFactors(p: int, b: int, a: int, d: int)
    ensures p * (b * a * d) == p * d * (a * b)
  {}

  /** Of such a capacity a data bank may lose nothing: the check passes exactly when the
      associativity is a power of two and the active mats divide the word. */
  lemma WholeSetsOfData(o: Organisation, env: Environment, e: nat)
    requires o.WellFormed() && o.memoryType == Data && HtreeAccepts(o, env)
    requires o.capacity == Pow2(e) * (o.blockSize * o.associativity * o.stackedDieCount)
    ensures StoredByHtree(o, env) == o.capacity <==> IsPow2(o.associativity) && o.blockSize % ActiveMats(o) == 0
  {
    hide StoredByHtree, IsPow2, FloorLog2, Pow2, Floored, Sets, HtreeAccepts, HtreeRequest;
    WholeSets(o, e);
    DataStorage(o, env);
    SetsPositive(o);
    FloorLog2Bounds(o.associativity);
    FlooredBounds(o.blockSize, ActiveMats(o));
    Uncut(Sets(o), Pow2(FloorLog2(o.associativity)), o.associativity, Floored(o.blockSize, ActiveMats(o)), o.blockSize);
    PowerOfItsLog(o.associativity);
  }

  /** Nor may a tag bank: the active subarrays must divide the associativity and the active mats
      of one of them the tag. */
  lemma WholeSetsOfTags(o: Organisation, env: Environment, e: nat)
    requires o.WellFormed() && o.memoryType == Tag && HtreeAccepts(o, env)
    requires o.capacity == Pow2(e) * (o.blockSize * o.associativity * o.stackedDieCount)
    ensures StoredByHtree(o, env) == o.capacity
            <==> o.associativity % o.subarrays.Active() == 0 && o.blockSize % o.mats.Active() == 0
  {
    hide StoredByHtree, IsPow2, FloorLog2, Pow2, Floored, Sets, HtreeAccepts, HtreeRequest;
    WholeSets(o, e);
    TagStorage(o, env);
    SetsPositive(o);
    FlooredBounds(o.associativity, o.subarrays.Active());
    FlooredBounds(o.blockSize, o.mats.Active());
    Uncut(Sets(o), Floored(o.associativity, o.subarrays.Active()), o.associativity,
          Floored(o.blockSize, o.mats.Active()), o.blockSize);
  }

  lemma Pow2Divides(x: nat, e: nat)
    requires IsPow2(x) && Pow2(e) <= x
    ensures x % Pow2(e) == 0
  {
    LogExact(x);
    var k := FloorLog2(x);
    if k < e {
      Pow2StrictlyMonotone(k, e);
    } else {
      Pow2Add(k - e, e);
      DivExact(Pow2(k - e), Pow2(e));
    }
  }

  /** A power of two holds any smaller one a power of two of times. */
  lemma Pow2Times(x: nat, y: nat) returns (e: nat)
    requires IsPow2(x) && IsPow2(y) && y <= x
    ensures x == Pow2(e) * y
  {
    LogMonotone(y, x);
    LogExact(x);
    LogExact(y);
    e := FloorLog2(x) - FloorLog2(y);
    Pow2Add(e, FloorLog2(y));
  }

  /** For a power-of-two capacity, word and associativity no accepted data bank ever trips the
      capacity check. */
  lemma DataCheckNeverFires(o: Organisation, env: Environment)
    requires o.WellFormed() && o.memoryType == Data && HtreeAccepts(o, env)
    requires IsPow2(o.capacity) && IsPow2(o.associativity) && IsPow2(o.blockSize)
    ensures StoredByHtree(o, env) == o.capacity
  {
    hide StoredByHtree, IsPow2, FloorLog2, Pow2, NearLog2, HtreeAccepts, HtreeRequest;
    AtLeastOneSet(o, env);
    Pow2Product(o.blockSize, o.associativity);
    Pow2Product(o.blockSize * o.associativity, o.stackedDieCount);
    var e := Pow2Times(o.capacity, o.blockSize * o.associativity * o.stackedDieCount);
    WholeSetsOfData(o, env, e);
    DataStorage(o, env);
    Pow2Divides(o.blockSize, o.subarrays.ActiveBits() + o.mats.ActiveBits());
  }

  /** The tag search widens a tag to a multiple of everything active before it tries a bank. */
  function RoundedTagWidth(raw: nat, active: nat): nat
    requires active >= 1
  {
    if raw % active == 0 then raw else Product(Quotient(raw, active) + 1, active)
  }

  lemma RoundedTagDivides(raw: nat, a: nat, b: nat)
    ensures RoundedTagWidth(raw, Pow2(a + b)) % Pow2(a + b) == 0
    ensures RoundedTagWidth(raw, Pow2(a + b)) % Pow2(b) == 0
    ensures raw <= RoundedTagWidth(raw, Pow2(a + b)) < raw + Pow2(a + b)
  {
    var k := Pow2(a + b);
    var w := RoundedTagWidth(raw, k);
    DivModLaw(raw, k);
    var q := if raw % k == 0 then raw / k else raw / k + 1;
    Distribute(raw / k, -1, k);
    assert w == q * k;
    Pow2Add(a, b);
    Associate(q, Pow2(a), Pow2(b));
    DivExact(q * Pow2(a), Pow2(b));
    DivExact(q, k);
  }

  /** The lines of a cache of so many bytes, each of which needs a tag. */
  function Lines(bytes: nat, word: nat): nat
    requires word >= 1
  {
    Quotient(8 * bytes, word)
  }

  lemma Pow2Lines(bytes: nat, word: nat)
    requires IsPow2(bytes) && IsPow2(word) && Lines(bytes, word) >= 1
    ensures IsPow2(Lines(bytes, word))
  {
    hide NearLog2;
    FloorLog2OfPow2(3);
    assert Pow2(3) == 8;
    Pow2Product(8, bytes);
    ColumnDivision(8 * bytes, word);
    LogMonotone(word, 8 * bytes);
    LogExact(word);
    LogExact(8 * bytes);
    Pow2Quotient(FloorLog2(8 * bytes), FloorLog2(word));
    FloorLog2OfPow2(FloorLog2(8 * bytes) - FloorLog2(word));
  }

  lemma LinesFill(lines: nat, b: nat, a: nat, d: nat)
    requires b >= 1 && b * a * d <= lines * b
    ensures a * d <= lines
  {}

  /** For a cache of a power of two of bytes, words of a power of two of bits and a
      power-of-two associativity, with the tag widened like that, no accepted tag bank ever
      trips the capacity check. */
  lemma TagCheckNeverFires(o: Organisation, env: Environment, raw: nat, bytes: nat, word: nat)
    requires o.WellFormed() && o.memoryType == Tag && HtreeAccepts(o, env)
    requires IsPow2(bytes) && IsPow2(word) && IsPow2(o.associativity)
    requires o.blockSize == RoundedTagWidth(raw, ActiveMats(o)) && o.capacity == Lines(bytes, word) * o.blockSize
    ensures StoredByHtree(o, env) == o.capacity
  {
    hide StoredByHtree, IsPow2, FloorLog2, Pow2, NearLog2, HtreeAccepts, HtreeRequest, RoundedTagWidth, Lines;
    AtLeastOneSet(o, env);
    LogExact(word);
    var lines := Lines(bytes, word);
    LinesFill(lines, o.blockSize, o.associativity, o.stackedDieCount);
    MulMonotone(1, 1, o.associativity, o.stackedDieCount);
    Pow2Lines(bytes, word);
    Pow2Product(o.associativity, o.stackedDieCount);
    var e := Pow2Times(lines, o.associativity * o.stackedDieCount);
    SetsFirst(Pow2(e), o.associativity, o.stackedDieCount, o.blockSize);
    WholeSetsOfTags(o, env, e);
    TagStorage(o, env);
    Pow2Divides(o.associativity, o.subarrays.ActiveBits());
    RoundedTagDivides(raw, o.subarrays.ActiveBits(), o.mats.ActiveBits());
  }

  lemma SetsFirst(p: int, a: int, d: int, b: int)
    ensures p * (a * d) * b == p * (b * a * d)
  {}

  // ---------------------------------------------------------------- the bank without H-tree

  /** For power-of-two associativities, what the bank without H-tree builds stores the same. */
  lemma FlatStoresTheSame(o: Organisation, env: Environment)
    requires o.WellFormed() && o.internalSenseAmp
    requires o.memoryType == Data ==> IsPow2(o.associativity)
    requires FlatAccepts(o, env)
    ensures HtreeAccepts(o, env) && StoredByFlat(o, env) == StoredByHtree(o, env)
  {
    hide IsPow2, FloorLog2, Pow2, NearLog2, StoredBits, MatRows, MatColumns, HtreeAccepts, FlatAccepts, HtreeRequest, FlatRequest;
    RoutersAgree(o, env);
  }

  /** The degree of column multiplexing in the bank without H-tree. */
  function FlatDegree(o: Organisation, env: Environment): (d: nat)
    requires o.WellFormed()
    ensures d >= 1
  {
    FlatMuxes(o, env);
    DegreePositive(FlatRequest(o, env).muxes);
    FlatRequest(o, env).muxes.Degree()
  }

  /** Address bits that select among groups of subarrays and of mats. */
  function Gating(o: Organisation): nat
    requires o.WellFormed()
  {
    o.subarrays.GatingBits() + o.mats.GatingBits()
  }

  /** What a data bank without H-tree stores in 2^n sets per die: the rows of a mat are its
      share of the ways of all sets, rounded down to a multiple of the mux degree. */
  function FlatBits(o: Organisation, degree: nat, n: nat): nat
    requires o.WellFormed() && degree >= 1 && n >= Gating(o)
  {
    Product(Product(Product(Floored(Product(Pow2(n - Gating(o)), o.associativity), degree), Pow2(Gating(o))), o.stackedDieCount),
            Floored(o.blockSize, ActiveMats(o)))
  }

  /** 2^n full sets on every die. */
  function FullBits(o: Organisation, n: nat): nat {
    Product(Pow2(n), Product(Product(o.blockSize, o.associativity), o.stackedDieCount))
  }

  lemma FlatFactors(q: int, f: int, a: int, s: int, b: int, t: int, d: int)
    ensures q * f * (a * s) * (b * t) * d == f * (s * t) * d * (a * b * q)
  {}

  /** For any associativity, word and capacity. */
  lemma FlatDataStorage(o: Organisation, env: Environment)
    requires o.WellFormed() && o.memoryType == Data && FlatAccepts(o, env)
    ensures o.stackedDieCount >= 1 && o.AddressBits() > Gating(o)
    ensures o.blockSize >= ActiveMats(o)
    ensures StoredByFlat(o, env) == FlatBits(o, FlatDegree(o, env), o.AddressBits())
  {
    hide NearLog2, StoredBits, IsPow2, FloorLog2, Pow2, Quotient, Product, Floored, Shape, PassesFilter, ExtraMuxes, Grid.GatingBits;
    LogExact(o.stackedDieCount);
    FlatRequestIsWellFormed(o, env);
    var r := FlatRequest(o, env);
    SameMats(o, r);
    ShareExact(o.blockSize, o.subarrays);
    var sa, ma := o.subarrays.ActiveBits(), o.mats.ActiveBits();
    TwoShares(o.blockSize, sa, ma);
    ColumnDivision(r.numDataBit, Pow2(ma));
    ColumnDivision(o.blockSize, Pow2(sa + ma));
    var q := Quotient(o.blockSize, Pow2(sa + ma));
    FlatProduct(o, q, Product(Pow2(EffectiveBits(r)), o.associativity), FlatDegree(o, env));
  }

  lemma FlatProduct(o: Organisation, q: nat, t: nat, degree: nat)
    requires o.WellFormed() && degree >= 1
    requires q == Quotient(o.blockSize, ActiveMats(o))
    ensures StoredBits(o, Quotient(t, degree), Product(q, degree))
         == Product(Product(Product(Floored(t, degree), Pow2(Gating(o))), o.stackedDieCount), Floored(o.blockSize, ActiveMats(o)))
  {
    hide NearLog2, StoredBits, IsPow2, FloorLog2, Pow2, Grid.GatingBits, Grid.ActiveBits;
    var sa, ma, sg, mg := o.subarrays.ActiveBits(), o.mats.ActiveBits(), o.subarrays.GatingBits(), o.mats.GatingBits();
    StoredInUnits(o, Quotient(t, degree), Product(q, degree));
    Pow2Add(sa, sg);
    Pow2Add(ma, mg);
    Pow2Add(sg, mg);
    Pow2Add(sa, ma);
    DivModLaw(t, degree);
    Regather(q, degree, t / degree);
    FlatFactors(q, Floored(t, degree), Pow2(sa), Pow2(sg), Pow2(ma), Pow2(mg), o.stackedDieCount);
    FlooredExact(o.blockSize, sa + ma);
  }

  lemma Regather(q: int, d: int, x: int)
    ensures q * d * x == q * (x * d)
  {}

  /** The row decoder keeps at least the address bits that the factors of two in the mux degree
      take. */
  lemma DegreeWithinRows(o: Organisation, env: Environment)
    requires o.WellFormed() && o.memoryType == Data && FlatAccepts(o, env)
    ensures o.stackedDieCount >= 1 && TwoExponent(FlatDegree(o, env)) <= o.AddressBits() - Gating(o)
    ensures 1 <= FlatDegree(o, env) <= Product(Pow2(o.AddressBits() - Gating(o)), o.associativity)
  {
    hide NearLog2, IsPow2, FloorLog2, Pow2, Shape, PassesFilter, ExtraMuxes, Grid.GatingBits, TwoExponent;
    LogExact(o.stackedDieCount);
    FlatRequestIsWellFormed(o, env);
    var r := FlatRequest(o, env);
    SameMats(o, r);
    Parts(FlatDegree(o, env));
    LogAtLeast(FlatDegree(o, env));
    ColumnDivision(Product(Pow2(EffectiveBits(r)), o.associativity), FlatDegree(o, env));
  }

  /** The ways of the sets of a mat lie in rows, and the rows are a multiple of the mux degree
      exactly when the odd part of the degree divides the ways. */
  lemma RowsUncut(o: Organisation, env: Environment)
    requires o.WellFormed() && o.memoryType == Data && FlatAccepts(o, env)
    ensures o.stackedDieCount >= 1 && o.AddressBits() > Gating(o)
    ensures var t := Product(Pow2(o.AddressBits() - Gating(o)), o.associativity);
            && 1 <= Floored(t, FlatDegree(o, env)) <= t
            && (Floored(t, FlatDegree(o, env)) == t <==> o.associativity % OddPart(FlatDegree(o, env)) == 0)
  {
    hide NearLog2, FlatDegree, IsPow2, FloorLog2, Pow2, Floored, FlatAccepts, Gating, OddPart, TwoExponent, Product;
    FlatDataStorage(o, env);
    DegreeWithinRows(o, env);
    FlooredBounds(Product(Pow2(o.AddressBits() - Gating(o)), o.associativity), FlatDegree(o, env));
    DividesIffOddPart(FlatDegree(o, env), o.AddressBits() - Gating(o), o.associativity);
  }

  /** The bank without H-tree stores every way, to the width the mats divide, exactly when the
      odd part of its mux degree divides the ways. */
  lemma FlatLossless(o: Organisation, env: Environment)
    requires o.WellFormed() && o.memoryType == Data && FlatAccepts(o, env)
    ensures StoredByFlat(o, env) == Sets(o) * o.associativity * Floored(o.blockSize, ActiveMats(o))
            <==> o.associativity % OddPart(FlatDegree(o, env)) == 0
  {
    hide NearLog2, StoredByFlat, FlatDegree, IsPow2, FloorLog2, Pow2, Floored, FlatAccepts, Gating, ActiveMats, OddPart;
    FlatDataStorage(o, env);
    RowsUncut(o, env);
    FlooredBounds(o.blockSize, ActiveMats(o));
    var n, g := o.AddressBits(), Gating(o);
    Pow2Add(n - g, g);
    var t := Product(Pow2(n - g), o.associativity);
    Lossless(Floored(t, FlatDegree(o, env)), Pow2(n - g), o.associativity, Pow2(g), o.stackedDieCount, Floored(o.blockSize, ActiveMats(o)));
  }

  /** Then the check passes exactly as for the H-tree, with every way of a set kept. */
  lemma FlatLosslessCapacity(o: Organisation, env: Environment)
    requires o.WellFormed() && o.memoryType == Data && FlatAccepts(o, env)
    requires o.associativity % OddPart(FlatDegree(o, env)) == 0
    ensures StoredByFlat(o, env) == o.capacity
            <==> Meets(o.capacity, o.stackedDieCount, Product(o.associativity, o.blockSize),
                       Product(o.associativity, Floored(o.blockSize, ActiveMats(o))))
  {
    hide StoredByFlat, FlatDegree, IsPow2, FloorLog2, Pow2, NearLog2, Floored, FlatAccepts, Gating, ActiveMats, OddPart, Meets;
    FlatLossless(o, env);
    FlatDataStorage(o, env);
    FlooredBounds(o.blockSize, ActiveMats(o));
    SomeSets(o);
    SetProduct(Sets(o), o.associativity, o.associativity, Floored(o.blockSize, ActiveMats(o)), o.blockSize);
    MeetsIff(o.capacity, o.associativity, o.blockSize, o.stackedDieCount,
             Product(o.associativity, Floored(o.blockSize, ActiveMats(o))));
  }

  /** Of a capacity of 2^e full sets per die the bank without H-tree may lose nothing either: the
      check passes exactly when the odd part of its mux degree divides the ways and the active
      mats divide the word. */
  lemma WholeSetsOfFlatData(o: Organisation, env: Environment, e: nat)
    requires o.WellFormed() && o.memoryType == Data && FlatAccepts(o, env)
    requires o.capacity == Pow2(e) * (o.blockSize * o.associativity * o.stackedDieCount)
    ensures StoredByFlat(o, env) == o.capacity
            <==> o.associativity % OddPart(FlatDegree(o, env)) == 0 && o.blockSize % ActiveMats(o) == 0
  {
    hide NearLog2, StoredByFlat, FlatDegree, IsPow2, FloorLog2, Pow2, Floored, FlatAccepts, Gating, ActiveMats, OddPart, Sets;
    WholeSets(o, e);
    FlatDataStorage(o, env);
    RowsUncut(o, env);
    FlooredBounds(o.blockSize, ActiveMats(o));
    var g := Pow2(Gating(o));
    var t := Product(Pow2(e - Gating(o)), o.associativity);
    var f := Floored(t, FlatDegree(o, env));
    Pow2Add(e - Gating(o), Gating(o));
    SpreadFactors(Pow2(e - Gating(o)), o.associativity, g, o.stackedDieCount, o.blockSize);
    MulMonotone(1, 1, g, o.stackedDieCount);
    Uncut(Product(g, o.stackedDieCount), f, t, Floored(o.blockSize, ActiveMats(o)), o.blockSize);
    Gathered(f, g, o.stackedDieCount, Floored(o.blockSize, ActiveMats(o)));
    Gathered(t, g, o.stackedDieCount, o.blockSize);
    Associate(Product(g, o.stackedDieCount), t, o.blockSize);
  }

  lemma Gathered(f: int, g: int, d: int, b: int)
    ensures f * g * d * b == g * d * f * b
  {}

  lemma Lossless(f: nat, e: nat, a: nat, g: nat, d: nat, b: nat)
    requires g >= 1 && d >= 1 && b >= 1
    ensures f * g * d * b == e * g * d * a * b <==> f == e * a
  {
    var k := g * d * b;
    MulMonotone(1, 1, g, d);
    MulMonotone(1, 1, g * d, b);
    assert f * g * d * b == k * f by {
      Associate(f, g, d);
      Associate(f, g * d, b);
    }
    assert e * g * d * a * b == k * (e * a) by {
      Associate(e, g, d);
      Interchange(e, g * d, a, b);
    }
    Cancel(k, f, e * a);
  }

  /** The whole law: the check passes exactly if some number of sets makes up the capacity and
      lies within the tolerance of the logarithm. */
  lemma FlatDataCapacity(o: Organisation, env: Environment)
    requires o.WellFormed() && o.memoryType == Data && FlatAccepts(o, env)
    ensures StoredByFlat(o, env) == o.capacity
            <==> exists n: nat :: && n > Gating(o) && o.capacity == FlatBits(o, FlatDegree(o, env), n)
                                  && Tenth(FullBits(o, n)) <= 2 * Tenth(o.capacity)
  {
    hide NearLog2, StoredByFlat, FlatDegree, FlatBits, Tenth, IsPow2, FloorLog2, Pow2, FlatAccepts, Gating, ActiveMats;
    FlatDataStorage(o, env);
    var den := o.blockSize * o.associativity * o.stackedDieCount;
    var degree := FlatDegree(o, env);
    SomeSets(o);
    forall n: nat | n > Gating(o) && o.capacity == FlatBits(o, degree, n)
      ensures o.AddressBits() == n <==> Tenth(FullBits(o, n)) <= 2 * Tenth(o.capacity)
    {
      FlatBitsAtMost(o, degree, n);
      NearLog2Iff(o.capacity, den, n);
    }
  }

  lemma SomeSets(o: Organisation)
    requires o.WellFormed() && o.stackedDieCount >= 1 && o.AddressBits() > 0
    ensures 1 <= o.blockSize * o.associativity * o.stackedDieCount <= o.capacity
  {
    MulAtLeast(o.blockSize, o.associativity);
    MulAtLeast(o.blockSize * o.associativity, o.stackedDieCount);
  }

  lemma FlatBitsAtMost(o: Organisation, degree: nat, n: nat)
    requires o.WellFormed() && degree >= 1 && n >= Gating(o)
    ensures FlatBits(o, degree, n) <= FullBits(o, n)
  {
    hide NearLog2, IsPow2, FloorLog2, Pow2, Floored, Gating, ActiveMats;
    var g, e := Pow2(Gating(o)), Pow2(n - Gating(o));
    var t := Product(e, o.associativity);
    FlooredBounds(t, degree);
    FlooredBounds(o.blockSize, ActiveMats(o));
    Pow2Add(n - Gating(o), Gating(o));
    MulMonotone(Floored(t, degree), g, t, g);
    MulMonotone(Floored(t, degree) * g, o.stackedDieCount, t * g, o.stackedDieCount);
    MulMonotone(Floored(t, degree) * g * o.stackedDieCount, Floored(o.blockSize, ActiveMats(o)), t * g * o.stackedDieCount, o.blockSize);
    SpreadFactors(e, o.associativity, g, o.stackedDieCount, o.blockSize);
  }

  lemma SpreadFactors(e: int, a: int, g: int, d: int, b: int)
    ensures e * a * g * d * b == e * g * (b * a * d)
  {}

  /** The sensing scheme does not change what is built. */
  lemma SensingIsIrrelevant(o: Organisation, env: Environment)
    requires o.WellFormed() && FlatAccepts(o, env)
    ensures var i := o.(internalSenseAmp := true);
            && i.WellFormed() && FlatAccepts(i, env) && FlatRequest(i, env) == FlatRequest(o, env)
            && StoredByFlat(i, env) == StoredByFlat(o, env)
  {
    hide NearLog2, IsPow2, FloorLog2, Pow2, MatRows, MatColumns, Accepts, ExtraMuxes, Scaled, Share;
    SameRequest(o, env);
  }

  lemma SameRequest(o: Organisation, env: Environment)
    requires o.WellFormed()
    ensures var i := o.(internalSenseAmp := true);
            i.WellFormed() && FlatRequest(i, env) == FlatRequest(o, env) && (FlatOffers(i) <==> FlatOffers(o))
  {
    hide NearLog2, IsPow2, FloorLog2, Pow2, ExtraMuxes, Scaled, Share;
  }

  /** A tag bank without H-tree conserves under the same condition as one with it. */
  lemma FlatTagCapacity(o: Organisation, env: Environment)
    requires o.WellFormed() && o.memoryType == Tag && FlatAccepts(o, env)
    ensures StoredByFlat(o, env) == o.capacity <==> CapacityConserved(o)
  {
    hide StoredByFlat, StoredByHtree, IsPow2, FloorLog2, Pow2, NearLog2, FlatAccepts, HtreeAccepts, Meets, BitsPerSet;
    var i := o.(internalSenseAmp := true);
    SensingIsIrrelevant(o, env);
    FlatStoresTheSame(i, env);
    CapacityIff(i, env);
    SameBits(o);
  }

  lemma SameBits(o: Organisation)
    requires o.WellFormed() && o.memoryType != Cam
    ensures var i := o.(internalSenseAmp := true);
            i.WellFormed() && BitsPerSet(i) == BitsPerSet(o)
  {
    hide IsPow2, FloorLog2, Pow2;
  }

  /** The condition for a bank without H-tree: a tag bank as with it, a data bank if some number
      of sets makes up the capacity within the tolerance of the logarithm. */
  ghost predicate FlatConserved(o: Organisation, env: Environment)
    requires o.WellFormed() && o.memoryType != Cam
  {
    if o.memoryType == Tag then CapacityConserved(o)
    else exists n: nat :: && n > Gating(o) && o.capacity == FlatBits(o, FlatDegree(o, env), n)
                          && Tenth(FullBits(o, n)) <= 2 * Tenth(o.capacity)
  }

  lemma FlatCapacityIff(o: Organisation, env: Environment)
    requires o.WellFormed() && o.memoryType != Cam && FlatAccepts(o, env)
    ensures StoredByFlat(o, env) == o.capacity <==> FlatConserved(o, env)
  {
    hide StoredByFlat, IsPow2, FloorLog2, Pow2, NearLog2, Tenth, FlatBits, FlatDegree, FullBits, Gating, FlatAccepts, CapacityConserved;
    if o.memoryType == Tag {
      FlatTagCapacity(o, env);
    } else {
      FlatDataCapacity(o, env);
    }
  }

  // ---------------------------------------------------------------- one trial of the search

  /** The outcome of trying one organisation. */
  datatype Trial = Rejected | Kept | Aborted

  /** Build a bank for an organisation, and if it is valid compare what it stores with the
      capacity; a mismatch ends the program.  Which organisations end it is known in advance.
      `refusedLater` is the verdict of the area, delay and refresh calculations in between. */
  method TryBank(o: Organisation, env: Environment, refusedLater: bool) returns (t: Trial)
    requires o.WellFormed() && o.memoryType != Cam
    ensures t == Rejected <==> !HtreeAccepts(o, env) || refusedLater
    ensures t == Aborted
            <==> HtreeAccepts(o, env) && !refusedLater && !CapacityConserved(o)
  {
    hide StoredBits, IsPow2, FloorLog2, Pow2, NearLog2, HtreeAccepts, HtreeRequest, MatRows, MatColumns, BitsPerSet, CapacityConserved;
    LogPositive(o);
    var bank := new BankWithHtree();
    bank.Initialize(o, env);
    if bank.invalid || refusedLater {
      return Rejected;
    }
    CapacityIff(o, env);
    var stored := StoredBits(o, bank.subarray.matRows, bank.subarray.matColumns);
    t := if stored != o.capacity then Aborted else Kept;
  }

  /** The same trial where the configuration asks for a bank without H-tree. */
  method TryBankWithoutHtree(o: Organisation, env: Environment, refusedLater: bool) returns (t: Trial)
    requires o.WellFormed() && o.memoryType != Cam
    ensures t == Rejected <==> !FlatAccepts(o, env) || refusedLater
    ensures t == Aborted
            <==> FlatAccepts(o, env) && !refusedLater && !FlatConserved(o, env)
  {
    hide StoredBits, IsPow2, FloorLog2, Pow2, NearLog2, FlatAccepts, FlatRequest, MatRows, MatColumns, FlatConserved;
    var bank := new BankWithoutHtree();
    bank.Initialize(o, env);
    if bank.invalid || refusedLater {
      return Rejected;
    }
    FlatCapacityIff(o, env);
    var stored := StoredBits(o, bank.subarray.matRows, bank.subarray.matColumns);
    t := if stored != o.capacity then Aborted else Kept;
  }

  lemma LogPositive(o: Organisation)
    requires o.WellFormed()
    ensures o.subarrays.rows >= 1 && o.subarrays.columns >= 1
  {}
}

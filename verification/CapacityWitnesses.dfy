/** Organisations on which the capacity checks fail, pass by rounding, or tell the routers
    apart, each within reach of the search. */
module CapacityWitnesses {
  import opened Common
  import opened Powers
  import opened Organisations
  import opened HtreeLevels
  import opened SubArrays
  import opened HtreeBanks
  import opened FlatBanks
  import opened Capacity

  const ANY_MAT := Environment(false, false, None, (m: MatShape) => true, true)
  const ONE := Grid(1, 1, 1, 1)
  const TWO_ACTIVE := Grid(1, 2, 2, 1)
  const SIXTEEN_ACTIVE := Grid(4, 4, 4, 4)
  const NO_MUX := Muxes(1, 1, 1)

  /** One way at a time, one row per set and no muxes. */
  predicate Plain(o: Organisation) {
    && o.WellFormed() && o.muxes == NO_MUX && o.numRowPerSet == 1 && o.internalSenseAmp && o.memoryType != Cam
    && (o.memoryType == Data ==> o.associativity == 1)
  }

  lemma NoMux()
    ensures NO_MUX.WellFormed() && NO_MUX.Degree() == 1 && NO_MUX.Bits() == 0 && NearLog2(1, 1) == 0
    ensures ExtraMuxes(false, 1) == NO_MUX && Scaled(NO_MUX, NO_MUX) == NO_MUX
  {
    DegreeIsPow2(NO_MUX);
  }

  /** A plain organisation is accepted as soon as its address, word and ways go round. */
  lemma PlainIsAccepted(o: Organisation)
    requires Plain(o) && o.stackedDieCount >= 1 && o.AddressBits() > Gating(o)
    requires if o.memoryType == Data then o.blockSize >= ActiveMats(o)
             else o.blockSize >= o.mats.Active() && o.associativity >= o.subarrays.Active()
    ensures HtreeAccepts(o, ANY_MAT)
  {
    hide NearLog2, IsPow2, Pow2, FloorLog2, Grid.GatingBits, ExtraMuxes, Scaled, MatRows, MatColumns, Quotient, HtreeAccepts;
    NoMux();
    PlainRequest(o);
    var r := FlatRequest(o, ANY_MAT);
    Pow2Muxes(r);
    RoutersAgree(o, ANY_MAT);
  }

  lemma PlainRequest(o: Organisation)
    requires Plain(o) && o.stackedDieCount >= 1 && o.AddressBits() > Gating(o)
    requires if o.memoryType == Data then o.blockSize >= ActiveMats(o)
             else o.blockSize >= o.mats.Active() && o.associativity >= o.subarrays.Active()
    ensures FlatOffers(o)
    ensures var r := FlatRequest(o, ANY_MAT);
            && WellFormed(r) && r.muxes == NO_MUX && r.numDataBit >= r.mats.Active()
            && EffectiveBits(r) == o.AddressBits() - Gating(o)
  {
    hide NearLog2, IsPow2, Pow2, FloorLog2, Grid.GatingBits, ExtraMuxes, Scaled;
    NoMux();
    var r := FlatRequest(o, ANY_MAT);
    SameMats(o, r);
    if o.memoryType == Data {
      assert FlatWaysPerRow(o) == 1;
      ShareExact(o.blockSize, o.subarrays);
      TwoShares(o.blockSize, o.subarrays.ActiveBits(), o.mats.ActiveBits());
      ColumnDivision(o.blockSize, ActiveMats(o));
      ColumnDivision(r.numDataBit, o.mats.Active());
    } else {
      ShareExact(o.associativity, o.subarrays);
      ColumnDivision(o.associativity, o.subarrays.Active());
    }
    FlatRequestIsWellFormed(o, ANY_MAT);
  }

  /** With whole sets, a plain data array trips the check exactly where its active mats do not
      divide its word. */
  lemma PlainDataVerdict(o: Organisation, e: nat)
    requires Plain(o) && o.memoryType == Data && e > Gating(o) && o.blockSize >= ActiveMats(o)
    requires o.capacity == Pow2(e) * (o.blockSize * o.associativity * o.stackedDieCount)
    ensures HtreeAccepts(o, ANY_MAT)
    ensures StoredByHtree(o, ANY_MAT) == o.capacity <==> o.blockSize % ActiveMats(o) == 0
  {
    hide NearLog2, FloorLog2, Pow2, StoredByHtree, HtreeAccepts, Gating, ActiveMats;
    WholeSets(o, e);
    PlainIsAccepted(o);
    WholeSetsOfData(o, ANY_MAT, e);
  }

  /** And a plain tag array exactly where its active subarrays do not divide its ways or its
      active mats its tag. */
  lemma PlainTagVerdict(o: Organisation, e: nat)
    requires Plain(o) && o.memoryType == Tag && e > Gating(o)
    requires o.blockSize >= o.mats.Active() && o.associativity >= o.subarrays.Active()
    requires o.capacity == Pow2(e) * (o.blockSize * o.associativity * o.stackedDieCount)
    ensures HtreeAccepts(o, ANY_MAT)
    ensures StoredByHtree(o, ANY_MAT) == o.capacity
            <==> o.associativity % o.subarrays.Active() == 0 && o.blockSize % o.mats.Active() == 0
  {
    hide NearLog2, FloorLog2, Pow2, StoredByHtree, HtreeAccepts, Gating, Grid.Active;
    WholeSets(o, e);
    PlainIsAccepted(o);
    WholeSetsOfTags(o, ANY_MAT, e);
  }

  lemma SmallPowers()
    ensures IsPow2(1) && IsPow2(2) && IsPow2(4) && FloorLog2(1) == 0 && FloorLog2(2) == 1 && FloorLog2(4) == 2
    ensures Pow2(0) == 1 && Pow2(1) == 2 && Pow2(2) == 4 && Pow2(4) == 16 && Pow2(5) == 32 && Pow2(6) == 64
  {}

  lemma SmallGrids()
    ensures ONE.WellFormed() && ONE.ActiveBits() == 0 && ONE.GatingBits() == 0
    ensures TWO_ACTIVE.WellFormed() && TWO_ACTIVE.ActiveBits() == 1 && TWO_ACTIVE.GatingBits() == 0
    ensures SIXTEEN_ACTIVE.WellFormed() && SIXTEEN_ACTIVE.ActiveBits() == 4 && SIXTEEN_ACTIVE.GatingBits() == 0
  {
    hide IsPow2, FloorLog2, Pow2, Grid.ActiveBits, Grid.GatingBits;
    SmallPowers();
    FullyActive(ONE);
    FullyActive(TWO_ACTIVE);
    FullyActive(SIXTEEN_ACTIVE);
  }

  lemma FullyActive(g: Grid)
    requires g.WellFormed() && g.activePerRow == g.columns && g.activePerColumn == g.rows
    ensures g.GatingBits() == 0
    ensures g.rows >= 1 && g.columns >= 1 && g.ActiveBits() == FloorLog2(g.columns) + FloorLog2(g.rows)
  {}

  // ---------------------------------------------------------------- the data check

  /** Twelve bytes of three-bit words over two active mats. */
  function OddWord(): Organisation {
    Organisation(ONE, TWO_ACTIVE, 96, 3, 1, 1, NO_MUX, true, Data, 1)
  }

  lemma OddWordFacts()
    ensures Plain(OddWord()) && Gating(OddWord()) == 0 && ActiveMats(OddWord()) == 2 && Pow2(5) == 32
  {}

  /** The check fires on a word the active mats do not divide, though the search's guard lets it
      through because it has at least one bit for each of them. */
  lemma OddWordTripsTheCheck()
    ensures Plain(OddWord()) && HtreeAccepts(OddWord(), ANY_MAT)
    ensures OddWord().blockSize >= ActiveMats(OddWord())
    ensures StoredByHtree(OddWord(), ANY_MAT) != OddWord().capacity
  {
    hide IsPow2, FloorLog2, Pow2, NearLog2, Plain, Gating, ActiveMats, HtreeAccepts, StoredByHtree;
    OddWordFacts();
    PlainDataVerdict(OddWord(), 5);
  }

  /** Five bytes of one-byte words: nothing is cut, but five is no power of two. */
  function FiveBytes(): Organisation {
    Organisation(ONE, ONE, 40, 8, 1, 1, NO_MUX, true, Data, 1)
  }

  lemma FiveBytesFacts()
    ensures Plain(FiveBytes()) && Gating(FiveBytes()) == 0 && ActiveMats(FiveBytes()) == 1 && BitsPerSet(FiveBytes()) == 8
    ensures FiveBytes().AddressBits() >= 1
  {
    FiveSets();
    hide IsPow2, FloorLog2, Pow2, NearLog2, Grid.ActiveBits, Grid.GatingBits, Grid.WellFormed;
    SmallPowers();
    SmallGrids();
    NoMux();
  }

  lemma FiveSets()
    ensures NearLog2(40, 8) >= 1
  {}

  lemma FiveIsNoPower(n: nat)
    ensures Pow2(n) != 5
  {}

  /** The check fires on a capacity that is not a power of two of sets. */
  lemma FiveBytesTripTheCheck()
    ensures Plain(FiveBytes()) && HtreeAccepts(FiveBytes(), ANY_MAT)
    ensures FiveBytes().blockSize % ActiveMats(FiveBytes()) == 0
    ensures StoredByHtree(FiveBytes(), ANY_MAT) != FiveBytes().capacity
  {
    hide IsPow2, FloorLog2, Pow2, NearLog2, Tenth, Plain, Gating, ActiveMats, HtreeAccepts, StoredByHtree, BitsPerSet;
    hide Organisation.AddressBits;
    FiveBytesFacts();
    assert Plain(FiveBytes()) ==> FiveBytes().WellFormed() by { PlainIsWellFormed(FiveBytes()); }
    PlainIsAccepted(FiveBytes());
    CapacityIff(FiveBytes(), ANY_MAT);
    forall n: nat
      ensures 40 != Pow2(n) * (1 * 8)
    {
      FiveIsNoPower(n);
    }
  }

  lemma PlainIsWellFormed(o: Organisation)
    requires Plain(o)
    ensures o.WellFormed() && o.memoryType != Cam
  {}

  /** Eight bytes of seventeen-bit words over sixteen active mats. */
  function Seventeen(): Organisation {
    Organisation(ONE, SIXTEEN_ACTIVE, 64, 17, 1, 1, NO_MUX, true, Data, 1)
  }

  lemma SeventeenFacts()
    ensures Plain(Seventeen()) && Gating(Seventeen()) == 0 && ActiveMats(Seventeen()) == 16 && BitsPerSet(Seventeen()) == 16
    ensures Seventeen().AddressBits() == 2 && Pow2(2) == 4
  {
    FourSets();
    hide IsPow2, FloorLog2, Pow2, NearLog2, Grid.ActiveBits, Grid.GatingBits, Grid.WellFormed;
    SmallPowers();
    SmallGrids();
    NoMux();
  }

  lemma WithinTolerance()
    ensures Tenth(17) <= 2 * Tenth(16)
  {}

  lemma FourSets()
    ensures NearLog2(64, 17) == 2
  {}

  /** The check passes although every word loses a bit: the rounded logarithm finds the four
      sets that make up the capacity again. */
  lemma SeventeenPassesTheCheck()
    ensures Plain(Seventeen()) && HtreeAccepts(Seventeen(), ANY_MAT)
    ensures Seventeen().blockSize % ActiveMats(Seventeen()) != 0
    ensures StoredByHtree(Seventeen(), ANY_MAT) == Seventeen().capacity
  {
    hide IsPow2, FloorLog2, Pow2, NearLog2, Tenth, Plain, Gating, ActiveMats, HtreeAccepts, StoredByHtree, BitsPerSet;
    hide Organisation.AddressBits;
    SeventeenFacts();
    PlainIsWellFormed(Seventeen());
    PlainIsAccepted(Seventeen());
    CapacityIff(Seventeen(), ANY_MAT);
    WithinTolerance();
    assert 64 == Pow2(2) * (1 * 16);
  }

  // ---------------------------------------------------------------- the tag check

  const ADDRESS_BITS := 48

  /** Bits of a tag: the address without the bits that select a set and a byte, and the dirty
      and valid bits. */
  function TagWidth(bytes: nat, word: nat, ways: nat): int
    requires word >= 1 && ways >= 1
  {
    ADDRESS_BITS - NearLog2(Quotient(Lines(bytes, word), ways), 1) - NearLog2(word / 8, 1) + 2
  }

  /** The tags of twelve kilobytes in lines of 64 bytes and three ways, over two active subarrays. */
  function OddWays(): Organisation {
    Organisation(TWO_ACTIVE, ONE, 7296, 38, 3, 1, NO_MUX, true, Tag, 1)
  }

  lemma OddWaysFacts()
    ensures Plain(OddWays()) && Gating(OddWays()) == 0 && ActiveMats(OddWays()) == 2 && Pow2(6) == 64
    ensures OddWays().subarrays.Active() == 2 && OddWays().mats.Active() == 1
  {
    hide IsPow2, FloorLog2, Pow2, Grid.ActiveBits, Grid.GatingBits, Grid.WellFormed;
    SmallPowers();
    SmallGrids();
    NoMux();
  }

  /** The search does come to this tag array: it is the one a cache of that size needs, it is a
      multiple of everything active already, and the guard of the search lets it through. */
  lemma OddWaysAreReached()
    ensures Plain(OddWays()) && TagWidth(12288, 512, 3) == 38
    ensures OddWays().blockSize == RoundedTagWidth(38, ActiveMats(OddWays()))
    ensures OddWays().capacity == Lines(12288, 512) * OddWays().blockSize
    ensures OddWays().blockSize >= ActiveMats(OddWays())
  {
    hide NearLog2, FloorLog2, Pow2, IsPow2, Plain, Gating, ActiveMats;
    OddWaysFacts();
    NearLog2Exact(6, 1);
  }

  /** The check fires on a third way that two active subarrays cannot share. */
  lemma OddWaysTripTheCheck()
    ensures Plain(OddWays()) && HtreeAccepts(OddWays(), ANY_MAT)
    ensures StoredByHtree(OddWays(), ANY_MAT) != OddWays().capacity
  {
    hide IsPow2, FloorLog2, Pow2, NearLog2, Plain, Gating, Grid.Active, HtreeAccepts, StoredByHtree;
    OddWaysFacts();
    PlainTagVerdict(OddWays(), 6);
  }

  // ---------------------------------------------------------------- the two routers

  /** 192 bytes of one-byte words in three ways. */
  function ThreeWays(): Organisation {
    Organisation(ONE, ONE, 1536, 8, 3, 1, NO_MUX, true, Data, 1)
  }

  lemma ThreeWaysFacts()
    ensures ThreeWays().WellFormed() && ThreeWays().AddressBits() == 6
    ensures TreeOf(ThreeWays()) == Tree(0, 0, 0, 0, 6, 8, 1)
  {
    hide IsPow2, FloorLog2, Pow2, NearLog2, Grid.ActiveBits, Grid.GatingBits, Sets;
    SmallPowers();
    SmallGrids();
    NoMux();
    ThreeWaysMuxes();
    WholeSets(ThreeWays(), 6);
  }

  lemma ThreeWaysMuxes()
    ensures FloorLog2(3) == 1 && NearLog2(2, 1) == 1 && NearLog2(3, 1) == 1
  {
    FloorLog2OfPow2(1);
    NearLog2OfPow2(2);
    assert Tenth(4) > 2 * Tenth(3);
  }

  lemma ExtraForTwoAndThree()
    ensures ExtraMuxes(false, 2) == Muxes(2, 1, 1) && ExtraMuxes(false, 3) == Muxes(3, 1, 1)
  {}

  lemma ThreeWaysByTree()
    ensures ThreeWays().WellFormed() && HtreeOffers(ThreeWays())
    ensures HtreeRequest(ThreeWays(), ANY_MAT) == SubArrayRequest(ONE, 6, 8, 2, 1, Muxes(2, 1, 1), Data)
  {
    hide NearLog2, FloorLog2, Pow2, IsPow2, ExtraMuxes, TreeOf, Organisation.AddressBits, Grid.WellFormed, Muxes.WellFormed;
    ThreeWaysFacts();
    ThreeWaysMuxes();
    ExtraForTwoAndThree();
    SmallPowers();
    assert Tree(0, 0, 0, 0, 6, 8, 1).At(0, 0) == Level(6, 8, 1, 1, 1);
  }

  lemma WholeShare(n: nat, g: Grid)
    requires g.WellFormed() && g.ActiveBits() == 0
    ensures Share(n, g) == n
  {}

  lemma ThreeWaysShares()
    ensures ThreeWays().WellFormed() && FlatAddressBits(ThreeWays()) == 6 && FlatWaysPerRow(ThreeWays()) == 3
    ensures Share(8, ONE) == 8
  {
    hide NearLog2, FloorLog2, Pow2, IsPow2, Organisation.AddressBits, Organisation.WellFormed, Grid.WellFormed;
    hide Grid.GatingBits, Grid.ActiveBits, Share;
    ThreeWaysFacts();
    SmallGrids();
    WholeShare(8, ONE);
  }

  lemma ThreeWaysAtOnce()
    ensures ThreeWays().WellFormed() && FlatOffers(ThreeWays())
    ensures FlatRequest(ThreeWays(), ANY_MAT) == SubArrayRequest(ONE, 6, 8, 3, 1, Muxes(3, 1, 1), Data)
  {
    hide NearLog2, IsPow2, ExtraMuxes, Organisation.WellFormed, FlatAddressBits, FlatWaysPerRow, Share;
    ThreeWaysShares();
    ExtraForTwoAndThree();
  }

  /** The routers ask for different subarrays: two ways behind a mux of two, or three ways
      behind a mux of three. */
  lemma ThreeWaysTellTheRoutersApart()
    ensures ThreeWays().WellFormed() && HtreeOffers(ThreeWays()) && FlatOffers(ThreeWays())
    ensures var h, f := HtreeRequest(ThreeWays(), ANY_MAT), FlatRequest(ThreeWays(), ANY_MAT);
            && h == SubArrayRequest(ONE, 6, 8, 2, 1, Muxes(2, 1, 1), Data)
            && f == SubArrayRequest(ONE, 6, 8, 3, 1, Muxes(3, 1, 1), Data)
            && h.numWay != f.numWay && h.muxes != f.muxes
  {
    hide HtreeOffers, FlatOffers, HtreeRequest, FlatRequest, Organisation.WellFormed;
    ThreeWaysByTree();
    ThreeWaysAtOnce();
  }

  /** 896 bytes of one-byte words in fourteen ways. */
  function FourteenWays(): Organisation {
    Organisation(ONE, ONE, 7168, 8, 14, 1, NO_MUX, true, Data, 1)
  }

  lemma FourteenLogs()
    ensures NearLog2(14, 1) == 3 && NearLog2(12, 1) == 3
  {
    assert FloorLog2(14) == 3 && FloorLog2(12) == 3;
    assert Tenth(16) > 2 * Tenth(14) && Tenth(14) >= Tenth(12);
  }

  lemma FourteenMuxes()
    ensures ExtraMuxes(false, 14) == Muxes(3, 2, 2) && Scaled(NO_MUX, Muxes(3, 2, 2)) == Muxes(3, 2, 2)
    ensures Muxes(3, 2, 2).Degree() == 12 && OddPart(12) == 3
  {
    hide NearLog2;
    FourteenLogs();
    assert Pow2(1) == 2;
    assert OddPart(12) == OddPart(6) == OddPart(3);
  }

  lemma FourteenFacts()
    ensures FourteenWays().WellFormed() && FourteenWays().AddressBits() == 6 && Pow2(6) == 64
    ensures FlatAddressBits(FourteenWays()) == 6 && FlatWaysPerRow(FourteenWays()) == 14 && Share(8, ONE) == 8
    ensures Gating(FourteenWays()) == 0 && ActiveMats(FourteenWays()) == 1
  {
    hide IsPow2, FloorLog2, Pow2, NearLog2, Grid.ActiveBits, Grid.GatingBits, Grid.WellFormed, Sets, Share;
    SmallPowers();
    SmallGrids();
    NoMux();
    WholeSets(FourteenWays(), 6);
    WholeShare(8, ONE);
  }

  lemma FourteenRequest()
    ensures FourteenWays().WellFormed() && FlatOffers(FourteenWays())
    ensures FlatRequest(FourteenWays(), ANY_MAT) == SubArrayRequest(ONE, 6, 8, 14, 1, Muxes(3, 2, 2), Data)
  {
    hide NearLog2, IsPow2, ExtraMuxes, Scaled, Organisation.WellFormed, FlatAddressBits, FlatWaysPerRow, Share;
    FourteenFacts();
    FourteenMuxes();
  }

  /** The mat is 74 rows of 96 columns: of the 896 ways of 64 sets, twelve to a row, eight are
      left over. */
  lemma FourteenMat(r: SubArrayRequest)
    requires r == SubArrayRequest(ONE, 6, 8, 14, 1, Muxes(3, 2, 2), Data)
    ensures WellFormed(r) && EffectiveBits(r) == 6 && MatRows(r) == 74 && MatColumns(r) == 96 && Accepts(r, ANY_MAT)
  {
    hide NearLog2, IsPow2, FloorLog2, Pow2, Grid.ActiveBits, Grid.GatingBits, Grid.WellFormed;
    SmallPowers();
    SmallGrids();
    FourteenLogs();
    FourteenMuxes();
  }

  /** The bank without H-tree loses ways and trips the check: twelve is the degree of the muxes
      and three, its odd part, does not divide fourteen. */
  lemma FourteenWaysTripTheCheck()
    ensures FourteenWays().WellFormed() && FlatAccepts(FourteenWays(), ANY_MAT)
    ensures FlatDegree(FourteenWays(), ANY_MAT) == 12 && OddPart(12) == 3
    ensures StoredByFlat(FourteenWays(), ANY_MAT) == 7104 != FourteenWays().capacity
  {
    hide IsPow2, FloorLog2, Pow2, NearLog2, FlatOffers, FlatRequest, Accepts, MatRows, MatColumns, Organisation.WellFormed, EffectiveBits;
    FourteenRequest();
    FourteenMuxes();
    FourteenMat(FlatRequest(FourteenWays(), ANY_MAT));
  }
}

/** Design constraints are relative to the best of each target, so every cell technology of a
    constrained run is searched under limits of its own. */
module ConstrainedCells {
  import opened Common
  import opened DesignSpace

  /** How far above the best each figure of merit may lie, as a fraction of it. */
  datatype Constraints = Constraints(
    readLatency: real,
    writeLatency: real,
    readDynamicEnergy: real,
    writeDynamicEnergy: real,
    readEdp: real,
    writeEdp: real,
    area: real,
    leakage: real)

  /** What the first, unconstrained pass over a cell keeps for a target. */
  function Best(t: Target, start: Candidate, cs: seq<Candidate>): Candidate {
    Search(t, NO_LIMITS, Cleared(start), cs)
  }

  function Relaxed(t: Target, start: Candidate, cs: seq<Candidate>, constraint: real): real {
    Cost(t, Best(t, start, cs)) * (constraint + 1.0)
  }

  /** The limits of the second pass. */
  function Allowed(k: Constraints, start: Candidate, cs: seq<Candidate>): Limits {
    Limits(Relaxed(ReadLatency, start, cs, k.readLatency), Relaxed(WriteLatency, start, cs, k.writeLatency),
           Relaxed(ReadEnergy, start, cs, k.readDynamicEnergy), Relaxed(WriteEnergy, start, cs, k.writeDynamicEnergy),
           Relaxed(ReadEdp, start, cs, k.readEdp), Relaxed(WriteEdp, start, cs, k.writeEdp),
           NO_LIMITS.readBandwidth, NO_LIMITS.writeBandwidth,
           Relaxed(Area, start, cs, k.area), Relaxed(Leakage, start, cs, k.leakage))
  }

  /** The limit and the constraint that belong to a target. */
  function LimitOf(t: Target, l: Limits): real {
    match t
    case ReadLatency => l.readLatency
    case WriteLatency => l.writeLatency
    case ReadEnergy => l.readDynamicEnergy
    case WriteEnergy => l.writeDynamicEnergy
    case ReadEdp => l.readEdp
    case WriteEdp => l.writeEdp
    case ReadBandwidth => l.readBandwidth
    case WriteBandwidth => l.writeBandwidth
    case Area => l.area
    case Leakage => l.leakage
    case FullExploration => 0.0
  }

  function ConstraintOf(t: Target, k: Constraints): real {
    match t
    case ReadLatency => k.readLatency
    case WriteLatency => k.writeLatency
    case ReadEnergy => k.readDynamicEnergy
    case WriteEnergy => k.writeDynamicEnergy
    case ReadEdp => k.readEdp
    case WriteEdp => k.writeEdp
    case Area => k.area
    case Leakage => k.leakage
    case _ => 0.0
  }

  /** Every limit of the second pass is the best of its own target and its own constraint on top;
      the bandwidths keep the limits they were created with. */
  lemma LimitsAreRelative(t: Target, k: Constraints, start: Candidate, cs: seq<Candidate>)
    ensures t == ReadBandwidth || t == WriteBandwidth ==> LimitOf(t, Allowed(k, start, cs)) == LimitOf(t, NO_LIMITS)
    ensures t != ReadBandwidth && t != WriteBandwidth && t != FullExploration ==>
              var best := Cost(t, Best(t, start, cs));
              LimitOf(t, Allowed(k, start, cs)) == best + best * ConstraintOf(t, k)
  {
    hide Best, Cost;
    Raise(Cost(t, Best(t, start, cs)), ConstraintOf(t, k));
  }

  lemma Raise(x: real, k: real)
    ensures x * (k + 1.0) == x + x * k
  {}

  /** A candidate is admitted exactly if each target's own figure is within its own limit. */
  lemma AdmitsByTarget(l: Limits, c: Candidate)
    ensures l.Admit(c) <==> forall t :: t != FullExploration ==>
                              if t == ReadBandwidth || t == WriteBandwidth then -Cost(t, c) >= LimitOf(t, l) else Cost(t, c) <= LimitOf(t, l)
  {
    hide Candidate.GetReadBandwidth, Candidate.GetWriteBandwidth;
    if forall t :: t != FullExploration ==>
         if t == ReadBandwidth || t == WriteBandwidth then -Cost(t, c) >= LimitOf(t, l) else Cost(t, c) <= LimitOf(t, l) {
      assert Cost(ReadLatency, c) <= LimitOf(ReadLatency, l) && Cost(WriteLatency, c) <= LimitOf(WriteLatency, l);
      assert Cost(ReadEnergy, c) <= LimitOf(ReadEnergy, l) && Cost(WriteEnergy, c) <= LimitOf(WriteEnergy, l);
      assert Cost(ReadEdp, c) <= LimitOf(ReadEdp, l) && Cost(WriteEdp, c) <= LimitOf(WriteEdp, l);
      assert -Cost(ReadBandwidth, c) >= LimitOf(ReadBandwidth, l) && -Cost(WriteBandwidth, c) >= LimitOf(WriteBandwidth, l);
      assert Cost(Area, c) <= LimitOf(Area, l) && Cost(Leakage, c) <= LimitOf(Leakage, l);
    }
  }

  /** What the second pass over a cell keeps. */
  function Constrained(t: Target, k: Constraints, start: Candidate, cs: seq<Candidate>): Candidate {
    Search(t, Allowed(k, start, cs), Cleared(Best(t, start, cs)), cs)
  }

  /** The comparison of two cells after their constrained passes. */
  function Compared(t: Target, k: Constraints, start: Candidate, cs: seq<Candidate>, start': Candidate, ds: seq<Candidate>): Candidate {
    Keep(t, Allowed(k, start, cs), Constrained(t, k, start, cs), Constrained(t, k, start', ds))
  }

  /** One pass over both cells under the limits of the first. */
  function Together(t: Target, k: Constraints, start: Candidate, cs: seq<Candidate>, ds: seq<Candidate>): Candidate {
    Search(t, Allowed(k, start, cs), Cleared(Best(t, start, cs)), cs + ds)
  }

  /** Comparing the winners of two cells achieves what one search under the first cell's limits
      achieves exactly if the second cell cannot beat the first under those limits, or its
      winner meets them and is as cheap as any of its candidates that do. */
  lemma ComparedIsTogetherIff(t: Target, k: Constraints, start: Candidate, cs: seq<Candidate>, start': Candidate, ds: seq<Candidate>)
    ensures var l, kept, champion := Allowed(k, start, cs), Constrained(t, k, start, cs), Constrained(t, k, start', ds);
            Cost(t, Compared(t, k, start, cs, start', ds)) == Cost(t, Together(t, k, start, cs, ds))
            <==> Unbeaten(t, l, kept, ds) || (l.Admit(champion) && Unbeaten(t, l, champion, ds))
  {
    hide Cost, Limits.Admit, Search, Keep, Unbeaten, Allowed, Best;
    ClearedIsWorst(t, Best(t, start, cs), Best(t, start', ds));
    ChampionOfChampions(t, Allowed(k, start, cs), Allowed(k, start', ds), Cleared(Best(t, start, cs)),
                        Cleared(Best(t, start', ds)), cs, ds);
  }

  // ---------------------------------------------------------------- where it does not

  /** A bank of some read latency and area; everything else is one. */
  function Bank(latency: real, area: real): Candidate {
    Candidate(latency, 1.0, 1.0, 1.0, 1.0, 1.0, 1.0, area, 8, MatTiming(1.0, 1.0, 1.0, 1.0, 1.0, 1.0), 0, 0, Some(OtherCell))
  }

  /** Half as much area again as the best, and ten times the best of everything else. */
  const TIGHT_AREA := Constraints(9.0, 9.0, 9.0, 9.0, 9.0, 9.0, 0.5, 9.0)

  const FIRST_CELL := [Bank(5.0, 1.0)]
  const SECOND_CELL := [Bank(1.0, 2.1), Bank(3.0, 1.4)]

  lemma BanksAreUsable(t: Target, latency: real, area: real)
    requires 0.0 < latency <= 10.0 && 0.0 < area <= 10.0 && t != FullExploration
    ensures Usable(t, Bank(latency, area))
    ensures Bank(latency, area).GetReadBandwidth() == 1.0 == Bank(latency, area).GetWriteBandwidth()
  {}

  /** Among usable candidates the first pass finds the least cost. */
  lemma BestIsLeast(t: Target, start: Candidate, cs: seq<Candidate>, c: Candidate)
    requires c in cs && Usable(t, c)
    requires forall x :: x in cs ==> Cost(t, c) <= Cost(t, x)
    ensures Cost(t, Best(t, start, cs)) == Cost(t, c)
  {
    hide Search, Cost, Improves;
    SearchIsMinimum(t, NO_LIMITS, Cleared(start), cs);
    AnyAdmittedBankIsKept(t, NO_LIMITS, start, cs, c);
  }

  lemma BestOfFirst(t: Target, start: Candidate)
    requires t != FullExploration
    ensures Cost(t, Best(t, start, FIRST_CELL)) == Cost(t, Bank(5.0, 1.0))
  {
    hide Usable, Best;
    BanksAreUsable(t, 5.0, 1.0);
    BestIsLeast(t, start, FIRST_CELL, Bank(5.0, 1.0));
  }

  lemma BestOfSecond(t: Target, start: Candidate)
    requires t != FullExploration
    ensures Cost(t, Best(t, start, SECOND_CELL)) == Cost(t, if t == Area then Bank(3.0, 1.4) else Bank(1.0, 2.1))
  {
    hide Usable, Best, Candidate.GetReadBandwidth, Candidate.GetWriteBandwidth;
    BanksAreUsable(t, 1.0, 2.1);
    BanksAreUsable(t, 3.0, 1.4);
    BestIsLeast(t, start, SECOND_CELL, if t == Area then Bank(3.0, 1.4) else Bank(1.0, 2.1));
  }

  lemma AllowedToFirst(start: Candidate)
    ensures Allowed(TIGHT_AREA, start, FIRST_CELL)
         == Limits(50.0, 10.0, 10.0, 10.0, 50.0, 10.0, NO_LIMITS.readBandwidth, NO_LIMITS.writeBandwidth, 1.5, 10.0)
  {
    hide Best;
    forall t | t != FullExploration
      ensures Cost(t, Best(t, start, FIRST_CELL)) == Cost(t, Bank(5.0, 1.0))
    {
      BestOfFirst(t, start);
    }
  }

  lemma AllowedToSecond(start: Candidate)
    ensures Allowed(TIGHT_AREA, start, SECOND_CELL)
         == Limits(10.0, 10.0, 10.0, 10.0, 10.0, 10.0, NO_LIMITS.readBandwidth, NO_LIMITS.writeBandwidth, 2.1, 10.0)
  {
    hide Best;
    forall t | t != FullExploration
      ensures Cost(t, Best(t, start, SECOND_CELL)) == Cost(t, if t == Area then Bank(3.0, 1.4) else Bank(1.0, 2.1))
    {
      BestOfSecond(t, start);
    }
  }

  /** Under its own area limit of 2.1 the second cell offers its fastest bank, which the first
      cell's limit of 1.5 turns away; its slower bank of area 1.4, which would have met that
      limit and beaten the first cell, was never offered. */
  lemma OwnLimitsLoseABank(start: Candidate, start': Candidate)
    ensures Compared(ReadLatency, TIGHT_AREA, start, FIRST_CELL, start', SECOND_CELL) == Bank(5.0, 1.0)
    ensures Together(ReadLatency, TIGHT_AREA, start, FIRST_CELL, SECOND_CELL) == Bank(3.0, 1.4)
  {
    hide Best, Allowed;
    AllowedToFirst(start);
    AllowedToSecond(start');
    BanksAreUsable(ReadLatency, 5.0, 1.0);
    BanksAreUsable(ReadLatency, 1.0, 2.1);
    BanksAreUsable(ReadLatency, 3.0, 1.4);
    hide Candidate.GetReadBandwidth, Candidate.GetWriteBandwidth;
    var l, m := Allowed(TIGHT_AREA, start, FIRST_CELL), Allowed(TIGHT_AREA, start', SECOND_CELL);
    var x, y := Cleared(Best(ReadLatency, start, FIRST_CELL)), Cleared(Best(ReadLatency, start', SECOND_CELL));
    TwoSteps(ReadLatency, m, y, Bank(1.0, 2.1), Bank(3.0, 1.4));
    OneStep(ReadLatency, l, x, Bank(5.0, 1.0));
    SearchConcat(ReadLatency, l, x, FIRST_CELL, SECOND_CELL);
    TwoSteps(ReadLatency, l, Bank(5.0, 1.0), Bank(1.0, 2.1), Bank(3.0, 1.4));
  }

  lemma OneStep(t: Target, l: Limits, start: Candidate, c: Candidate)
    ensures Search(t, l, start, [c]) == Keep(t, l, start, c)
  {
    hide Keep;
    assert [c][..0] == [];
  }

  lemma TwoSteps(t: Target, l: Limits, start: Candidate, c: Candidate, d: Candidate)
    ensures Search(t, l, start, [c, d]) == Keep(t, l, Keep(t, l, start, c), d)
  {
    hide Keep;
    assert [c, d][..1] == [c];
    OneStep(t, l, start, c);
  }
}

/** The search keeps, for each optimisation target, one result that every candidate within the
    limits is compared with. */
module DesignSpace {
  import opened Common

  const INVALID := 1e41
  const INVALID_MIN := 1e-41

  datatype Target =
    | ReadLatency | WriteLatency | ReadEnergy | WriteEnergy | ReadEdp | WriteEdp
    | ReadBandwidth | WriteBandwidth | Leakage | Area | FullExploration

  /** Timing of the mat inside a bank, as the bandwidths read it. */
  datatype MatTiming = MatTiming(
    readLatency: real,
    writeLatency: real,
    rowDecoderLatency: real,
    gainCellRowDecoderLatency: real,
    prechargerLatency: real,
    dramReadCycleLatency: real)

  /** A bank with the wires and the cell it was evaluated with. */
  datatype Candidate = Candidate(
    readLatency: real,
    writeLatency: real,
    readDynamicEnergy: real,
    writeDynamicEnergy: real,
    leakage: real,
    height: real,
    width: real,
    area: real,
    blockSize: int,
    mat: MatTiming,
    localWire: nat,
    globalWire: nat,
    cell: Option<CellKind>)
  {
    /** Time between two reads of a mat. */
    function ReadCycle(): real
      requires cell.Some?
    {
      match cell.value
      case Dram => mat.dramReadCycleLatency
      case GainCell => mat.readLatency - mat.gainCellRowDecoderLatency + mat.prechargerLatency
      case _ => mat.readLatency - mat.rowDecoderLatency + mat.prechargerLatency
    }

    /** Bytes per second; zero for anything that cannot be a working bank. */
    function GetReadBandwidth(): real {
      if cell == None || readLatency >= INVALID / 10.0 || blockSize <= 0 then 0.0
      else if ReadCycle() <= 0.0 || ReadCycle() >= INVALID / 10.0 then 0.0
      else blockSize as real / ReadCycle() / 8.0
    }

    function GetWriteBandwidth(): real {
      if cell == None || writeLatency >= INVALID / 10.0 || blockSize <= 0 then 0.0
      else if mat.writeLatency <= 0.0 || mat.writeLatency >= INVALID / 10.0 then 0.0
      else blockSize as real / mat.writeLatency / 8.0
    }
  }

  /** A bank can be read back to back: it belongs to a cell, has a block, and both its latency
      and the time between two reads are real.  That time is the cycle of a DRAM, and otherwise
      a read that overlaps its decoding with the precharge of the one before. */
  predicate Readable(c: Candidate) {
    && c.cell.Some? && c.readLatency < INVALID / 10.0 && c.blockSize > 0
    && (c.cell == Some(Dram) ==> 0.0 < c.mat.dramReadCycleLatency < INVALID / 10.0)
    && (c.cell == Some(GainCell) ==> 0.0 < c.mat.readLatency - c.mat.gainCellRowDecoderLatency + c.mat.prechargerLatency < INVALID / 10.0)
    && (c.cell == Some(BitlinePair) || c.cell == Some(OtherCell) ==>
          0.0 < c.mat.readLatency - c.mat.rowDecoderLatency + c.mat.prechargerLatency < INVALID / 10.0)
  }

  predicate Writable(c: Candidate) {
    && c.cell.Some? && c.writeLatency < INVALID / 10.0 && c.blockSize > 0
    && 0.0 < c.mat.writeLatency < INVALID / 10.0
  }

  /** Bandwidth is positive exactly for working banks, and then the bytes moved in one cycle
      are the block. */
  lemma BandwidthMeaning(c: Candidate)
    ensures c.GetReadBandwidth() > 0.0 <==> Readable(c)
    ensures c.GetWriteBandwidth() > 0.0 <==> Writable(c)
    ensures Readable(c) && c.cell == Some(Dram) ==>
              Times(8.0 * c.GetReadBandwidth(), c.mat.dramReadCycleLatency) == c.blockSize as real
    ensures Readable(c) && c.cell == Some(GainCell) ==>
              Times(8.0 * c.GetReadBandwidth(), c.mat.readLatency - c.mat.gainCellRowDecoderLatency + c.mat.prechargerLatency)
              == c.blockSize as real
    ensures Readable(c) && (c.cell == Some(BitlinePair) || c.cell == Some(OtherCell)) ==>
              Times(8.0 * c.GetReadBandwidth(), c.mat.readLatency - c.mat.rowDecoderLatency + c.mat.prechargerLatency)
              == c.blockSize as real
    ensures Writable(c) ==> Times(8.0 * c.GetWriteBandwidth(), c.mat.writeLatency) == c.blockSize as real
  {}

  datatype Limits = Limits(
    readLatency: real,
    writeLatency: real,
    readDynamicEnergy: real,
    writeDynamicEnergy: real,
    readEdp: real,
    writeEdp: real,
    readBandwidth: real,
    writeBandwidth: real,
    area: real,
    leakage: real)
  {
    predicate Admit(c: Candidate) {
      && c.readLatency <= readLatency && c.writeLatency <= writeLatency
      && c.readDynamicEnergy <= readDynamicEnergy && c.writeDynamicEnergy <= writeDynamicEnergy
      && c.readLatency * c.readDynamicEnergy <= readEdp
      && c.writeLatency * c.writeDynamicEnergy <= writeEdp
      && c.GetReadBandwidth() >= readBandwidth
      && c.GetWriteBandwidth() >= writeBandwidth
      && c.area <= area && c.leakage <= leakage
    }
  }

  const NO_LIMITS := Limits(INVALID, INVALID, INVALID, INVALID, INVALID, INVALID, INVALID_MIN, INVALID_MIN, INVALID, INVALID)

  /** The comparison each target makes. */
  predicate Improves(t: Target, c: Candidate, kept: Candidate) {
    match t
    case ReadLatency => c.readLatency < kept.readLatency
    case WriteLatency => c.writeLatency < kept.writeLatency
    case ReadEnergy => c.readDynamicEnergy < kept.readDynamicEnergy
    case WriteEnergy => c.writeDynamicEnergy < kept.writeDynamicEnergy
    case ReadEdp => c.readLatency * c.readDynamicEnergy < kept.readLatency * kept.readDynamicEnergy
    case WriteEdp => c.writeLatency * c.writeDynamicEnergy < kept.writeLatency * kept.writeDynamicEnergy
    case ReadBandwidth => c.GetReadBandwidth() > kept.GetReadBandwidth()
    case WriteBandwidth => c.GetWriteBandwidth() > kept.GetWriteBandwidth()
    case Area => c.area < kept.area
    case Leakage => c.leakage < kept.leakage
    case FullExploration => false
  }

  /** What a target minimises. */
  function Cost(t: Target, c: Candidate): real {
    match t
    case ReadLatency => c.readLatency
    case WriteLatency => c.writeLatency
    case ReadEnergy => c.readDynamicEnergy
    case WriteEnergy => c.writeDynamicEnergy
    case ReadEdp => c.readLatency * c.readDynamicEnergy
    case WriteEdp => c.writeLatency * c.writeDynamicEnergy
    case ReadBandwidth => -c.GetReadBandwidth()
    case WriteBandwidth => -c.GetWriteBandwidth()
    case Area => c.area
    case Leakage => c.leakage
    case FullExploration => 0.0
  }

  lemma ImprovesLowersCost(t: Target, c: Candidate, kept: Candidate)
    ensures Improves(t, c, kept) <==> Cost(t, c) < Cost(t, kept)
  {}

  /** For the bandwidth targets in terms of what a bank does: of two banks that can be read, the
      one that moves more of its block per unit of time is better, and one that cannot be read
      never is; the same for writing. */
  lemma BandwidthTargets(c: Candidate, kept: Candidate)
    ensures Improves(ReadBandwidth, c, kept) ==> Readable(c)
    ensures Readable(c) && !Readable(kept) ==> Improves(ReadBandwidth, c, kept)
    ensures Readable(c) && Readable(kept) && c.cell == kept.cell == Some(Dram) ==>
              (Improves(ReadBandwidth, c, kept)
               <==> Times(c.blockSize as real, kept.mat.dramReadCycleLatency) > Times(kept.blockSize as real, c.mat.dramReadCycleLatency))
    ensures Improves(WriteBandwidth, c, kept) ==> Writable(c)
    ensures Writable(c) && !Writable(kept) ==> Improves(WriteBandwidth, c, kept)
    ensures Writable(c) && Writable(kept) ==>
              (Improves(WriteBandwidth, c, kept)
               <==> Times(c.blockSize as real, kept.mat.writeLatency) > Times(kept.blockSize as real, c.mat.writeLatency))
  {
    hide Times;
    NoBandwidth(c);
    NoBandwidth(kept);
    if Readable(c) && Readable(kept) && c.cell == kept.cell == Some(Dram) {
      FasterIff(c.blockSize as real, c.mat.dramReadCycleLatency, kept.blockSize as real, kept.mat.dramReadCycleLatency);
    }
    if Writable(c) && Writable(kept) {
      FasterIff(c.blockSize as real, c.mat.writeLatency, kept.blockSize as real, kept.mat.writeLatency);
    }
  }

  lemma NoBandwidth(c: Candidate)
    ensures !Readable(c) ==> c.GetReadBandwidth() == 0.0
    ensures !Writable(c) ==> c.GetWriteBandwidth() == 0.0
    ensures Readable(c) ==> c.GetReadBandwidth() > 0.0
    ensures Writable(c) ==> c.GetWriteBandwidth() > 0.0
  {
    BandwidthMeaning(c);
  }

  lemma FasterIff(a: real, t: real, b: real, u: real)
    requires a > 0.0 && b > 0.0 && t > 0.0 && u > 0.0
    ensures a / t / 8.0 > b / u / 8.0 <==> Times(a, u) > Times(b, t)
  {
    var x, y := a / t, b / u;
    assert x * t == a && y * u == b;
    TimesSign(t, u);
    var m := t * u;
    assert a * u == x * m && b * t == y * m;
    InOrder(x, y, m);
  }

  lemma InOrder(x: real, y: real, m: real)
    requires m > 0.0
    ensures x > y <==> x * m > y * m
  {}

  function Keep(t: Target, l: Limits, kept: Candidate, c: Candidate): Candidate {
    if l.Admit(c) && Improves(t, c, kept) then c else kept
  }

  /** What is kept after a run of candidates. */
  function Search(t: Target, l: Limits, start: Candidate, cs: seq<Candidate>): Candidate {
    if cs == [] then start else Keep(t, l, Search(t, l, start, cs[..|cs| - 1]), cs[|cs| - 1])
  }

  /** k is the earliest of the cheapest admitted candidates, and it is cheaper than the start. */
  ghost predicate EarliestBest(t: Target, l: Limits, start: Candidate, cs: seq<Candidate>, k: nat)
    requires k < |cs|
  {
    && l.Admit(cs[k])
    && Cost(t, cs[k]) < Cost(t, start)
    && (forall j :: 0 <= j < |cs| && l.Admit(cs[j]) ==> Cost(t, cs[k]) <= Cost(t, cs[j]))
    && (forall j :: 0 <= j < k && l.Admit(cs[j]) ==> Cost(t, cs[k]) < Cost(t, cs[j]))
  }

  /** No admitted candidate is cheaper than the start. */
  ghost predicate NothingBetter(t: Target, l: Limits, start: Candidate, cs: seq<Candidate>) {
    forall j :: 0 <= j < |cs| && l.Admit(cs[j]) ==> Cost(t, start) <= Cost(t, cs[j])
  }

  /** The index the search settles on, or the length of the run if it keeps the start. */
  ghost function Winner(t: Target, l: Limits, start: Candidate, cs: seq<Candidate>): nat {
    if cs == [] then 0
    else
      var init := cs[..|cs| - 1];
      var c := cs[|cs| - 1];
      if l.Admit(c) && Improves(t, c, Search(t, l, start, init)) then |cs| - 1
      else if Winner(t, l, start, init) < |init| then Winner(t, l, start, init)
      else |cs|
  }

  /** A result kept after a run: the candidate at k, or the start if k is past the end. */
  ghost predicate Settled(t: Target, l: Limits, start: Candidate, cs: seq<Candidate>, kept: Candidate, k: nat) {
    && k <= |cs|
    && (k < |cs| ==> kept == cs[k] && EarliestBest(t, l, start, cs, k))
    && (k == |cs| ==> kept == start && NothingBetter(t, l, start, cs))
  }

  lemma CheaperWins(t: Target, l: Limits, start: Candidate, init: seq<Candidate>, kept: Candidate, k: nat, c: Candidate)
    requires Settled(t, l, start, init, kept, k) && l.Admit(c) && Cost(t, c) < Cost(t, kept)
    ensures Settled(t, l, start, init + [c], c, |init|)
  {}

  lemma OtherwiseKept(t: Target, l: Limits, start: Candidate, init: seq<Candidate>, kept: Candidate, k: nat, c: Candidate)
    requires Settled(t, l, start, init, kept, k) && (l.Admit(c) ==> Cost(t, kept) <= Cost(t, c))
    ensures Settled(t, l, start, init + [c], kept, if k < |init| then k else |init| + 1)
  {}

  /** What the search keeps: the start if nothing admitted is better, and otherwise the
      earliest candidate of least cost. */
  lemma {:induction false} SearchKeepsEarliestBest(t: Target, l: Limits, start: Candidate, cs: seq<Candidate>)
    ensures Settled(t, l, start, cs, Search(t, l, start, cs), Winner(t, l, start, cs))
  {
    if cs != [] {
      hide Cost, Improves, Limits.Admit, Settled;
      var init, c := cs[..|cs| - 1], cs[|cs| - 1];
      var kept, k := Search(t, l, start, init), Winner(t, l, start, init);
      SearchKeepsEarliestBest(t, l, start, init);
      ImprovesLowersCost(t, c, kept);
      assert cs == init + [c];
      if l.Admit(c) && Improves(t, c, kept) {
        CheaperWins(t, l, start, init, kept, k, c);
      } else {
        OtherwiseKept(t, l, start, init, kept, k, c);
      }
    }
  }

  /** The kept cost is a lower bound on the start and on every admitted candidate, and is attained. */
  lemma SearchIsMinimum(t: Target, l: Limits, start: Candidate, cs: seq<Candidate>)
    ensures var s := Search(t, l, start, cs);
            && Cost(t, s) <= Cost(t, start)
            && (forall c :: c in cs && l.Admit(c) ==> Cost(t, s) <= Cost(t, c))
            && (s == start || (s in cs && l.Admit(s)))
  {
    hide Cost, Improves, Limits.Admit, Search;
    SearchKeepsEarliestBest(t, l, start, cs);
  }

  /** The order of the candidates does not matter for what is achieved. */
  lemma OrderIrrelevant(t: Target, l: Limits, start: Candidate, cs: seq<Candidate>, ds: seq<Candidate>)
    requires multiset(cs) == multiset(ds)
    ensures Cost(t, Search(t, l, start, cs)) == Cost(t, Search(t, l, start, ds))
  {
    hide Cost, Improves, Limits.Admit, Search;
    SearchIsMinimum(t, l, start, cs);
    SearchIsMinimum(t, l, start, ds);
    assert forall c :: c in cs <==> c in multiset(cs);
    assert forall c :: c in ds <==> c in multiset(ds);
  }

  lemma {:induction false} SearchConcat(t: Target, l: Limits, start: Candidate, cs: seq<Candidate>, ds: seq<Candidate>)
    ensures Search(t, l, start, cs + ds) == Search(t, l, Search(t, l, start, cs), ds)
  {
    hide Cost, Improves, Limits.Admit;
    if ds == [] {
      assert cs + ds == cs;
    } else {
      SearchConcat(t, l, start, cs, ds[..|ds| - 1]);
      assert (cs + ds)[..|cs + ds| - 1] == cs + ds[..|ds| - 1];
    }
  }

  /** Searching each cell technology on its own and then comparing the winners keeps exactly
      the candidate that one search over all of them would have kept, if the limits are shared. */
  lemma SharedLimits(t: Target, l: Limits, start: Candidate, start': Candidate, cs: seq<Candidate>, ds: seq<Candidate>)
    requires Cost(t, start) == Cost(t, start')
    ensures Search(t, l, start, cs + ds) == Keep(t, l, Search(t, l, start, cs), Search(t, l, start', ds))
  {
    hide Cost, Improves, Limits.Admit, Search;
    var kept := Search(t, l, start, cs);
    SearchConcat(t, l, start, cs, ds);
    SearchIsMinimum(t, l, start, cs);
    SearchKeepsEarliestBest(t, l, start', ds);
    SearchKeepsEarliestBest(t, l, kept, ds);
    ImprovesLowersCost(t, Search(t, l, start', ds), kept);
    var i, j := Winner(t, l, start', ds), Winner(t, l, kept, ds);
    if i < |ds| && j < |ds| {
      assert i == j;
    }
  }

  /** No candidate of ds that l admits is cheaper than what is kept. */
  ghost predicate Unbeaten(t: Target, l: Limits, kept: Candidate, ds: seq<Candidate>) {
    forall c :: c in ds && l.Admit(c) ==> Cost(t, kept) <= Cost(t, c)
  }

  /** But each cell is searched under its own limits, and its winner admitted under those of the
      first.  What comes out is the candidate one search under the first limits would keep
      exactly if the second cell cannot beat the first under those limits, or its winner is also
      the one they would have chosen; and it costs as little exactly if the second cell cannot
      beat the first, or its winner is admitted and as cheap as any admitted one. */
  lemma ChampionOfChampions(t: Target, l: Limits, m: Limits, start: Candidate, start': Candidate,
                            cs: seq<Candidate>, ds: seq<Candidate>)
    requires Cost(t, start) == Cost(t, start')
    ensures var kept, champion := Search(t, l, start, cs), Search(t, m, start', ds);
            var merged, whole := Keep(t, l, kept, champion), Search(t, l, start, cs + ds);
            && (merged == whole <==> Unbeaten(t, l, kept, ds) || champion == Search(t, l, start', ds))
            && (Cost(t, merged) == Cost(t, whole)
                <==> Unbeaten(t, l, kept, ds) || (l.Admit(champion) && Unbeaten(t, l, champion, ds)))
  {
    hide Cost, Improves, Limits.Admit, Search;
    var kept, champion := Search(t, l, start, cs), Search(t, m, start', ds);
    SharedLimits(t, l, start, start', cs, ds);
    SearchConcat(t, l, start, cs, ds);
    SearchIsMinimum(t, l, start, cs);
    SearchIsMinimum(t, l, kept, ds);
    SearchIsMinimum(t, m, start', ds);
    SearchIsMinimum(t, l, start', ds);
    ImprovesLowersCost(t, champion, kept);
    ImprovesLowersCost(t, Search(t, l, start', ds), kept);
  }

  /** The two limits admit the same of those candidates that are cheaper than the start. */
  ghost predicate AdmitAlike(t: Target, l: Limits, m: Limits, start: Candidate, ds: seq<Candidate>) {
    forall c :: c in ds && Cost(t, c) < Cost(t, start) ==> (l.Admit(c) <==> m.Admit(c))
  }

  lemma {:induction false} AlikeSearches(t: Target, l: Limits, m: Limits, start: Candidate, ds: seq<Candidate>)
    requires AdmitAlike(t, l, m, start, ds)
    ensures Search(t, l, start, ds) == Search(t, m, start, ds)
  {
    hide Cost, Improves, Limits.Admit;
    if ds != [] {
      var init, c := ds[..|ds| - 1], ds[|ds| - 1];
      AlikeSearches(t, l, m, start, init);
      SearchIsMinimum(t, l, start, init);
      ImprovesLowersCost(t, c, Search(t, l, start, init));
    }
  }

  /** One cell technology after the first: its own limits, start and candidates. */
  datatype CellRun = CellRun(limits: Limits, start: Candidate, candidates: seq<Candidate>)

  /** The comparison with each further cell in turn. */
  function Merged(t: Target, l: Limits, kept: Candidate, runs: seq<CellRun>): Candidate {
    if runs == [] then kept
    else
      var r := runs[|runs| - 1];
      Keep(t, l, Merged(t, l, kept, runs[..|runs| - 1]), Search(t, r.limits, r.start, r.candidates))
  }

  function AllCandidates(cs: seq<Candidate>, runs: seq<CellRun>): seq<Candidate> {
    if runs == [] then cs else AllCandidates(cs, runs[..|runs| - 1]) + runs[|runs| - 1].candidates
  }

  /** For any number of cells, if the limits of each admit alike. */
  lemma {:induction false} MergedIsOneSearch(t: Target, l: Limits, start: Candidate, cs: seq<Candidate>, runs: seq<CellRun>)
    requires forall r :: r in runs ==> Cost(t, r.start) == Cost(t, start) && AdmitAlike(t, l, r.limits, r.start, r.candidates)
    ensures Merged(t, l, Search(t, l, start, cs), runs) == Search(t, l, start, AllCandidates(cs, runs))
  {
    hide Cost, Improves, Limits.Admit, Search, AdmitAlike;
    if runs != [] {
      var init, r := runs[..|runs| - 1], runs[|runs| - 1];
      MergedIsOneSearch(t, l, start, cs, init);
      AlikeSearches(t, l, r.limits, r.start, r.candidates);
      SharedLimits(t, l, start, r.start, AllCandidates(cs, init), r.candidates);
    }
  }

  /** The reset values of a result, which leave its block size, timing, wires and cell alone. */
  function Cleared(c: Candidate): Candidate {
    c.(readLatency := INVALID, writeLatency := INVALID, readDynamicEnergy := INVALID, writeDynamicEnergy := INVALID,
       leakage := INVALID, height := INVALID, width := INVALID, area := INVALID)
  }

  /** Every result that is kept really is a working bank: with positive bandwidth limits, which
      is how results are created, a kept candidate can be read and written, so in particular its
      latencies are below a tenth of the invalid value. */
  lemma KeptBanksWork(t: Target, l: Limits, start: Candidate, cs: seq<Candidate>)
    requires l.readBandwidth > 0.0 && l.writeBandwidth > 0.0
    ensures var s := Search(t, l, start, cs);
            s == start || (s in cs && Readable(s) && Writable(s))
  {}

  /** A candidate that stands a chance against a cleared result without user limits: for the
      plain energy, area and leakage targets it must be strictly below the invalid value. */
  predicate Usable(t: Target, c: Candidate) {
    && NO_LIMITS.Admit(c) && t != FullExploration
    && (t == ReadEnergy ==> c.readDynamicEnergy < INVALID)
    && (t == WriteEnergy ==> c.writeDynamicEnergy < INVALID)
    && (t == Area ==> c.area < INVALID)
    && (t == Leakage ==> c.leakage < INVALID)
  }

  /** Clearing makes a result as bad as it can be, whatever it held before. */
  lemma ClearedIsWorst(t: Target, a: Candidate, b: Candidate)
    ensures Cleared(a).GetReadBandwidth() == 0.0 == Cleared(a).GetWriteBandwidth()
    ensures Cost(t, Cleared(a)) == Cost(t, Cleared(b))
    ensures Usable(t, b) ==> Improves(t, b, Cleared(a))
  {}

  /** So nothing of the past shows in what a search keeps afterwards: from any two cleared
      results it keeps the same candidate, or none. */
  lemma {:induction false} ClearingForgets(t: Target, l: Limits, a: Candidate, b: Candidate, cs: seq<Candidate>)
    ensures var x, y := Search(t, l, Cleared(a), cs), Search(t, l, Cleared(b), cs);
            x == y || (x == Cleared(a) && y == Cleared(b))
  {
    hide Cost, Improves, Limits.Admit;
    if cs != [] {
      var c := cs[|cs| - 1];
      ClearingForgets(t, l, a, b, cs[..|cs| - 1]);
      ClearedIsWorst(t, a, b);
      ImprovesLowersCost(t, c, Cleared(a));
      ImprovesLowersCost(t, c, Cleared(b));
    }
  }

  /** From a cleared result, one usable candidate within the limits is enough for a search to
      keep a real bank. */
  lemma AnyAdmittedBankIsKept(t: Target, l: Limits, start: Candidate, cs: seq<Candidate>, c: Candidate)
    requires c in cs && l.Admit(c) && Usable(t, c)
    ensures var s := Search(t, l, Cleared(start), cs);
            s in cs && l.Admit(s)
  {
    hide Search, Cost, Improves;
    SearchIsMinimum(t, l, Cleared(start), cs);
    ClearedIsWorst(t, start, c);
    ImprovesLowersCost(t, c, Cleared(start));
  }

  class Result {
    var kept: Candidate
    var limits: Limits
    var target: Target

    constructor (bank: Candidate, target: Target)
      ensures kept == Cleared(bank) && limits == NO_LIMITS && this.target == target
    {
      kept, limits, this.target := Cleared(bank), NO_LIMITS, target;
    }

    /** Start over: the wires, the cell and the timing stay, the bandwidths vanish, any usable
        candidate is an improvement, and the next search keeps what it would keep from any other
        cleared result. */
    method Reset()
      modifies this`kept
      ensures kept == Cleared(old(kept))
      ensures kept.GetReadBandwidth() == 0.0 == kept.GetWriteBandwidth()
      ensures forall c :: Usable(target, c) ==> Improves(target, c, kept)
      ensures forall l, b, cs ::
                var x, y := Search(target, l, kept, cs), Search(target, l, Cleared(b), cs);
                x == y || (x == kept && y == Cleared(b))
    {
      hide Search, Usable, Improves, Cost;
      ghost var before := kept;
      kept := kept.(readLatency := INVALID, writeLatency := INVALID,
                    readDynamicEnergy := INVALID, writeDynamicEnergy := INVALID, leakage := INVALID,
                    height := INVALID, width := INVALID, area := INVALID);
      forall c ensures Usable(target, c) ==> Improves(target, c, kept) {
        ClearedIsWorst(target, before, c);
      }
      forall l, b, cs
        ensures var x, y := Search(target, l, kept, cs), Search(target, l, Cleared(b), cs);
                x == y || (x == kept && y == Cleared(b))
      {
        ClearingForgets(target, l, before, b, cs);
      }
      ClearedIsWorst(target, before, before);
    }

    /** Before the second pass of a constrained search: forget the first and bound the rest. */
    method ApplyLimits(allowed: Limits)
      modifies this`kept, this`limits
      ensures kept == Cleared(old(kept))
      ensures limits == allowed.(readBandwidth := old(limits).readBandwidth, writeBandwidth := old(limits).writeBandwidth)
      ensures forall b, cs ::
                var x, y := Search(target, limits, kept, cs), Search(target, limits, Cleared(b), cs);
                x == y || (x == kept && y == Cleared(b))
    {
      Reset();
      limits := allowed.(readBandwidth := limits.readBandwidth, writeBandwidth := limits.writeBandwidth);
    }

    method CompareAndUpdate(c: Candidate) returns (toUpdate: bool)
      modifies this`kept
      ensures kept == Keep(target, limits, old(kept), c) == if toUpdate then c else old(kept)
      ensures toUpdate <==> limits.Admit(c) && Cost(target, c) < Cost(target, old(kept))
    {
      hide Candidate.GetReadBandwidth, Candidate.GetWriteBandwidth;
      ImprovesLowersCost(target, c, kept);
      toUpdate := false;
      if && c.readLatency <= limits.readLatency && c.writeLatency <= limits.writeLatency
         && c.readDynamicEnergy <= limits.readDynamicEnergy && c.writeDynamicEnergy <= limits.writeDynamicEnergy
         && c.readLatency * c.readDynamicEnergy <= limits.readEdp
         && c.writeLatency * c.writeDynamicEnergy <= limits.writeEdp
         && c.GetReadBandwidth() >= limits.readBandwidth
         && c.GetWriteBandwidth() >= limits.writeBandwidth
         && c.area <= limits.area && c.leakage <= limits.leakage {
        match target {
          case ReadLatency => toUpdate := c.readLatency < kept.readLatency;
          case WriteLatency => toUpdate := c.writeLatency < kept.writeLatency;
          case ReadEnergy => toUpdate := c.readDynamicEnergy < kept.readDynamicEnergy;
          case WriteEnergy => toUpdate := c.writeDynamicEnergy < kept.writeDynamicEnergy;
          case ReadEdp => toUpdate := c.readLatency * c.readDynamicEnergy < kept.readLatency * kept.readDynamicEnergy;
          case WriteEdp => toUpdate := c.writeLatency * c.writeDynamicEnergy < kept.writeLatency * kept.writeDynamicEnergy;
          case ReadBandwidth => toUpdate := c.GetReadBandwidth() > kept.GetReadBandwidth();
          case WriteBandwidth => toUpdate := c.GetWriteBandwidth() > kept.GetWriteBandwidth();
          case Area => toUpdate := c.area < kept.area;
          case Leakage => toUpdate := c.leakage < kept.leakage;
          case FullExploration =>
        }
        if toUpdate {
          kept := c;
        }
      }
    }

    /** Offer every candidate of a run in turn. */
    method Explore(cs: seq<Candidate>)
      modifies this`kept
      ensures kept == Search(target, limits, old(kept), cs)
    {
      for i := 0 to |cs|
        invariant kept == Search(target, limits, old(kept), cs[..i])
      {
        assert cs[..i + 1][..i] == cs[..i];
        var _ := CompareAndUpdate(cs[i]);
      }
      assert cs[..|cs|] == cs;
    }
  }
}

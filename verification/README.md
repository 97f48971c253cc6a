# NS-Cache, verified

NS-Cache searches for the best organisation of a cache or memory array: how many subarrays and
mats, how many of them an access activates, how columns are multiplexed, how wires are routed.
This project models the parts of it that carry integer and algorithmic invariants and proves what
they promise, for every input.

* **The organisation pipeline.** `HtreeBanks` walks the H-tree level by level, `FlatBanks` makes the
  same split in closed form, `SubArrays` turns what it is handed into the rows and columns of a mat,
  and `Capacity` proves across all of them when what the program checks with "Shouldn't happen" does not
  happen: that the pieces multiply back to the requested capacity. `CapacityWitnesses` holds the organisations
  on which it does, each within reach of the search. `HtreeLevels` is the tree itself, `WireLengths` and
  `RefreshBudgets` are the wire lengths and the refresh time computed from the same level arrays.
* **The monolithic-3D fold** of a mat over memory tiers (`MonolithicFold`).
* **The numeric searches**: the contact-resistance solver (`ContactSolver`), the penalised repeater
  search (`RepeaterSearch`) and the channel charge partition (`ChargePartition`).
* **The design-space fold** that keeps the best candidate for each target (`DesignSpace`), and the constrained
  search over several cell technologies (`ConstrainedCells`).
* **The reference of the binary sense amplifier** (`SenseMargins`).
* **The strict option parsers** (`StrictParsing`).

`Powers` and `Common` hold powers of two, logarithms and small shared definitions.

## What turned out to be false

* *The data capacity check can fire.* `Capacity.DataCapacity` says exactly when, for every capacity, word
  and associativity: it passes if and only if the capacity is a power of two of sets of
  K = 2^floor(log2 ways) * (the word rounded down to a multiple of the active mats) bits on every die, and
  ways * word is at most 2^0.1 * K. Three things make it fail, none of them refused by the program: a word the
  active mats do not divide (`CapacityWitnesses.OddWordTripsTheCheck`; the guard at `src/main.cpp:536` only
  skips words narrower than the active mats are many), a capacity that is not a power of two of sets
  (`CapacityWitnesses.FiveBytesTripTheCheck`), and an associativity that is not a power of two, which
  `src/main.cpp:733-736` reports. Conversely a bank that cuts its words can pass, because the tolerant
  logarithm makes up for it (`CapacityWitnesses.SeventeenPassesTheCheck`). For power-of-two capacity, word and
  associativity the check never fires (`Capacity.DataCheckNeverFires`).
* *The tag capacity check can fire*, with K = (the ways rounded down to a multiple of the active
  subarrays) * (the tag rounded down to a multiple of the active mats of one of them)
  (`Capacity.TagCapacity`). The search widens tags, so the second factor is never cut; the associativity and
  the number of sets can still fail (`CapacityWitnesses.OddWaysTripTheCheck`).
  For power-of-two cache size, line and associativity it never fires (`Capacity.TagCheckNeverFires`).
* *The two routers differ* on data arrays exactly when the associativity is not a power of two
  (`Capacity.RequestsAgree`, `CapacityWitnesses.ThreeWaysTellTheRoutersApart`): one keeps a power of two of
  ways, the other all of them behind muxes that need not be powers of two.
* *The bank without H-tree can lose ways as well.* It keeps every way exactly when the odd part of its mux
  degree divides the associativity (`Capacity.FlatLossless`); with fourteen ways behind a mux of twelve it
  does not, and the check ends the program (`CapacityWitnesses.FourteenWaysTripTheCheck`). For a capacity of
  2^e full sets that and a word the active mats divide are exactly what it takes to pass
  (`Capacity.WholeSetsOfFlatData`).
* *Comparing the winners of several cell technologies is not one search over all of them* when design
  constraints apply. Each cell is searched under limits relative to its own best banks, and its winner is
  then admitted under those of the first cell (`src/main.cpp:270`, `src/main.cpp:670-683`); a bank that meets
  the first cell's limits and beats it can be lost behind one that does not meet them
  (`ConstrainedCells.OwnLimitsLoseABank`). `DesignSpace.ChampionOfChampions` says exactly when nothing is lost,
  and `DesignSpace.MergedIsOneSearch` that without constraints, where the limits are shared, nothing is, for
  any number of cells.
* *A bank that was refused can stay refused.* Re-initialising a bank does not reset its subarray, nor a
  verdict the bank reached before it counted as initialised; the search itself takes a new bank for every trial
  (`HtreeBanks.BankWithHtree.Initialize`, `FlatBanks.BankWithoutHtree.Initialize`).
* *The repeater search never varies the spacing.* Its inner loop does not restore the repeater size, so
  every spacing after the first is skipped (`RepeaterSearch.Wire.FindPenalizedRepeater`).
* *The solver's "did not converge" is reachable* for some current functions:
  `ContactSolver.SwitchDoesNotConverge` gives one. `ContactSolver.ConvergesIff` says exactly when the
  solver converges, for any current function; `ContactSolver.FallingConvergesIff` is the short form for a
  device whose excess over the probed current changes sign only once.

## Conventions

Integers are unbounded; `real` stands for `double`, without rounding, infinities or NaN.
`(int)(log2(x) + 0.1)` is modelled exactly, on all positive ratios of at least one, through tenth
powers (`Powers.NearLog2`); below one the source obtains a count of zero or less, which every path
refuses, and the model obtains zero. Counts that the search loops double (subarrays, mats, active
units, mux degrees, rows per set, dies) are powers of two; capacity, word width and associativity are
arbitrary. The level arrays of the H-tree, which share an index and are filled together, are one array
of records per direction. Electrical feasibility of a mat and of sense amplifiers, device current, wire delay,
energy and leakage, and the square root in the loads of a folded mat are arbitrary functions or verdicts given
as parameters.

## Model

| member | source | states |
|---|---|---|
| `Powers.NearLog2Rounds` | src/BankWithHtree.cpp:174-179 | the tolerant logarithm k of any ratio r of at least one satisfies 2^k <= r * 2^0.1 < 2^(k+1) |
| `Powers.NearLog2Exact` | src/BankWithHtree.cpp:174-179 | on 2^e times the denominator the tolerance changes nothing and the result is e |
| `Powers.NearLog2Iff` | src/BankWithHtree.cpp:174-179 | a number of at most 2^k denominators has tolerant logarithm k exactly when it is within a factor 2^0.1 of that |
| `Powers.DividesIffOddPart` | src/SubArray.cpp:86-90 | a number with at most e factors of two divides 2^e * a exactly if its odd part divides a |
| `Organisations.GroupsExact` | src/SubArray.cpp:76-78 | the grid is its active units times 2^(gating bits) groups, after clamping the activation |
| `Organisations.GatingExact` | src/SubArray.cpp:76-78 | the logarithm of the group quotient is exactly the number of gating bits |
| `Organisations.ClampMeans` | src/BankWithHtree.cpp:192-225 | an activation that fits the grid is left alone, one that does not is cut to it, and clamping twice is clamping once |
| `Organisations.ExtraMuxesExact` | src/BankWithHtree.cpp:445-465 | redistributing the ways of a row over the mux levels gives powers of two whose product is the number of ways; a DRAM-like cell gets none before its sense amplifiers |
| `Organisations.ExtraMuxesFloor` | src/BankWithoutHtree.cpp:130-151 | for any number of ways the extra degrees are positive and multiply to the ways rounded down to what the divided mux levels divide |
| `Organisations.ExtraMuxesBalanced` | src/BankWithHtree.cpp:445-465 | power-of-two ways are spread evenly: over the two output levels of DRAM-like cells, the first taking the odd factor of two, and over three levels otherwise, the output levels alike and the sense amplifiers taking at most a factor of four more |
| `Organisations.ExtraMuxesLevels` | src/BankWithoutHtree.cpp:130-151 | for any ways the undivided levels are powers of two of half or a third of the logarithm, and the divided output level is as large as the ways allow |
| `Organisations.ScaledUndone` | src/BankWithHtree.cpp:445-465 | each mux level is multiplied by its own extra degree, which dividing recovers |
| `Organisations.DegreeIsPow2` | src/SubArray.cpp:132 | for power-of-two muxes the tolerant logarithm of the product of the degrees is exact and is the sum of those of the three levels |
| `SubArrays.RowDivision` | src/SubArray.cpp:86-95 | the division of the rows by the mux degree is exact and nonzero whenever the row decoder keeps a nonnegative number of bits |
| `SubArrays.Pow2Muxes` | src/SubArray.cpp:86-132 | with power-of-two muxes and enough address bits a mat has 2^(row bits) rows per way and the row and mux decoders take every address bit exactly once |
| `SubArrays.SplitBits` | src/SubArray.cpp:138-142 | the two predecoder blocks together take all the bits; up to three bits need one block, more are shared with at most one bit of difference |
| `SubArrays.SplitDecodes` | src/SubArray.cpp:154-183 | a pair of blocks for a mux of any degree decodes exactly that degree if it is a power of two and within 2^0.1 of the next power otherwise, in the second block only beyond three bits and then evenly |
| `SubArrays.CountGatingBits` | src/SubArray.cpp:76-78 | computes the gating bits in exponents |
| `SubArrays.CountRows` | src/SubArray.cpp:86-90 | the rows of a mat for any mux degree, and in exponents for power-of-two muxes |
| `SubArrays.CountBitsPerMat` | src/SubArray.cpp:97-102 | the bits per mat are the word's share and vanish exactly when the word is narrower than the active mats |
| `SubArrays.CountColumns` | src/SubArray.cpp:104-106 | mat columns are bits per mat times the mux degree, times the ways in a tag array |
| `SubArrays.SubArray.SizeMats` | src/SubArray.cpp:86-130 | refuses exactly empty, filtered and infeasible mats and otherwise records their dimensions, which are the forced ones where a data array is forced |
| `SubArrays.SubArray.SizePredecoders` | src/SubArray.cpp:132-188 | fails exactly when the muxes take more address bits than there are; otherwise the row blocks take the rest, each of the three muxes has a pair that decodes its own degree, and with power-of-two muxes all together decode every effective address bit |
| `SubArrays.SubArray.Initialize` | src/SubArray.cpp:34-201 | for any positive mux degrees and also on a used subarray: refused exactly if it was before, a bit budget is negative, a mat would be empty, the forced size does not match or the mat is infeasible; otherwise it records the request and has the closed-form rows and columns and the predecoder blocks of each mux |
| `HtreeLevels.AtClosedForm` | src/BankWithHtree.cpp:276-396 | the wires below h horizontal and v vertical branchings depend only on how many of them split, in whatever order they are taken |
| `HtreeLevels.StepVertical` | src/BankWithHtree.cpp:374-393 | a vertical branching acts alike below any number of horizontal ones |
| `HtreeLevels.StarvationSpreads` | src/BankWithHtree.cpp:278-282 | once nothing is left to route, nothing is left anywhere below |
| `HtreeLevels.LevelConservesData` | src/BankWithHtree.cpp:283-296 | active bundles times the bits of each is the distributed word rounded down to a multiple of the bundles |
| `HtreeLevels.LevelConservesAddresses` | src/BankWithHtree.cpp:283-296 | 2^(address bits) times all bundles is the address space times the active bundles |
| `HtreeLevels.DivisibilityDescends` | src/BankWithHtree.cpp:283-293 | if the active subarrays divide the distributed bits no level drops any |
| `HtreeLevels.LevelConservation` | src/BankWithHtree.cpp:258-396 | under the same divisibility 2^(address bits) * data bits * bundles is the same on every level |
| `HtreeLevels.RecordedLevelsCarryAddresses` | src/BankWithHtree.cpp:258-396 | every level a completed walk records has address bits left |
| `HtreeLevels.RecordedLevelsConserve` | src/BankWithHtree.cpp:258-396 | both conservation laws on every recorded horizontal and vertical level |
| `HtreeBanks.ExhaustionIsFinal` | src/BankWithHtree.cpp:278-282 | any of the checks that fails on the way refuses only trees the last check would refuse |
| `HtreeBanks.EnterSubarray` | src/BankWithHtree.cpp:398-410 | the last branching succeeds exactly for routable trees and leaves no row or column to activate |
| `HtreeBanks.BankWithHtree.constructor` | src/BankWithHtree.cpp:24-42 | a new bank is neither initialised nor invalid |
| `HtreeBanks.BankWithHtree.DescendHorizontal` | src/BankWithHtree.cpp:343-368 | writes the still empty slot of the next horizontal level with the wires of the tree at that point |
| `HtreeBanks.BankWithHtree.DescendVertical` | src/BankWithHtree.cpp:374-393 | the same for the next vertical level |
| `HtreeBanks.BankWithHtree.RouteRoot` | src/BankWithHtree.cpp:248-271 | fills the root level if the tree has one, failing only on unroutable trees |
| `HtreeBanks.BankWithHtree.RouteSurplusColumns` | src/BankWithHtree.cpp:276-299 | fills the surplus horizontal levels, failing only on unroutable trees |
| `HtreeBanks.BankWithHtree.RouteSurplusRows` | src/BankWithHtree.cpp:300-335 | fills the surplus vertical levels, failing only on unroutable trees |
| `HtreeBanks.BankWithHtree.RoutePair` | src/BankWithHtree.cpp:337-396 | fills one horizontal and one vertical level |
| `HtreeBanks.BankWithHtree.RouteAlternating` | src/BankWithHtree.cpp:336-396 | fills all remaining levels of both directions |
| `HtreeBanks.BankWithHtree.Route` | src/BankWithHtree.cpp:248-410 | the walk succeeds exactly on routable trees; then every slot of both arrays holds the wires of the tree at its place in the interleaving, and rows and columns to activate have both come down to one |
| `HtreeBanks.PlanTree` | src/BankWithHtree.cpp:174-240 | the tree of an organisation: two to its levels and active levels are the grid and the clamped activation, and the distributed and broadcast bits of each memory type |
| `HtreeBanks.AddressBitsMean` | src/BankWithHtree.cpp:174-179 | two to the address bits of the tree times a full set on every die is the capacity, to within the tolerance of the logarithm |
| `HtreeBanks.WaysPerRowIsPow2` | src/BankWithHtree.cpp:412-420 | ways per row is a power of two whenever a set's rows do not exceed its ways |
| `HtreeBanks.RequestIsWellFormed` | src/BankWithHtree.cpp:438-478 | what is handed to the subarray is always legal, with power-of-two muxes, and its mux degree has grown by exactly the ways per row |
| `HtreeBanks.ChooseRequest` | src/BankWithHtree.cpp:412-478 | decides exactly whether the ways fit and hands over the address bits, data bits, ways and muxes of the bottom of the tree |
| `HtreeBanks.BankWithHtree.BuildSubarray` | src/BankWithHtree.cpp:412-499 | from the bottom of a routed tree the bank becomes invalid exactly if the ways do not fit, the subarray refuses or was refused before; otherwise the subarray is sized for the request |
| `HtreeBanks.BankWithHtree.Initialize` | src/BankWithHtree.cpp:76-499 | also on a used bank: invalid exactly when the grid is empty, sensing is external, the tree is not routable, the ways do not fit, the subarray refuses, or the bank or its subarray carries over a verdict that is not reset; otherwise it holds the filled levels and the closed-form mat |
| `HtreeBanks.BankWithHtree.CalculateWireLengths` | src/BankWithHtree.cpp:552-600 | every entry of both length arrays of a built bank is assigned and satisfies its recurrence |
| `HtreeBanks.BankWithHtree.CalculateRefreshLatency` | src/BankWithHtree.cpp:666-799 | the refresh time is rows * mat columns * subarray columns read cycles, the predecoders once per mat, and the delay of every wire of both directions; a bank of refreshing cells becomes invalid exactly if that exceeds retention, and otherwise the read cycles alone do not |
| `WireLengths.SetVertical` | src/BankWithHtree.cpp:555-577 | extends the measured vertical levels upwards by one |
| `WireLengths.SetHorizontal` | src/BankWithHtree.cpp:578-600 | extends the measured horizontal levels upwards by one |
| `WireLengths.SumTracks` | src/BankWithHtree.cpp:579-584 | adds the tracks of all vertical levels below |
| `WireLengths.MeasurePair` | src/BankWithHtree.cpp:565-593 | measures one vertical wire and its horizontal partner |
| `WireLengths.MeasureWires` | src/BankWithHtree.cpp:552-600 | all three loops together assign every length |
| `WireLengths.WiresAtLeastDouble` | src/BankWithHtree.cpp:552-600 | each wire is at least twice its child for every nonnegative pitch |
| `WireLengths.TracksHoldTheWires` | src/BankWithHtree.cpp:571-574 | a bundle takes the least whole number of repeater tracks that holds its address, distributed and broadcast wires, and half of them count |
| `WireLengths.WirePartners` | src/BankWithHtree.cpp:552-600 | which tracks each wire crosses: a vertical wire those of the child of the horizontal wire beside it, a horizontal wire those of the vertical wire beside it, a wire without a partner none, and the lowest horizontal wire those of all vertical wires from its partner down |
| `WireLengths.TotalsWithoutRepeaters` | src/BankWithHtree.cpp:517-600 | without repeaters the vertical wires of a path add up to (2^V - 1)/2 subarray heights and the horizontal ones to 2^H - 1 widths |
| `RefreshBudgets.AddWireTimes` | src/BankWithHtree.cpp:686-726 | adds the delay of every level of one direction |
| `RefreshBudgets.WireTimeIsSum` | src/BankWithHtree.cpp:686-726 | the wire time of a path is the sum of the delays of its wires |
| `RefreshBudgets.BankIsExact` | src/BankWithHtree.cpp:666-726 | the accumulated time multiplied out |
| `RefreshBudgets.WithinBudget` | src/BankWithHtree.cpp:795-799 | a refresh time within retention leaves time for a full read cycle of every row, through the multiplications by mat columns and subarray columns and the wires |
| `FlatBanks.ShareExact` | src/BankWithoutHtree.cpp:122-123 | sharing by column and then by row is one division by the active subarrays |
| `FlatBanks.FlatWaysFit` | src/BankWithoutHtree.cpp:130-131 | as many ways share a row as fit |
| `FlatBanks.FlatMuxes` | src/BankWithoutHtree.cpp:130-151 | the mux degree grows by the product of the extra degrees and stays positive for every associativity |
| `FlatBanks.FlatRequestIsWellFormed` | src/BankWithoutHtree.cpp:116-180 | the request to the subarray is legal for every associativity, and has power-of-two muxes where a data array has power-of-two ways |
| `FlatBanks.BankWithoutHtree.constructor` | src/BankWithoutHtree.cpp:25-29 | a new bank is neither initialised nor invalid |
| `FlatBanks.BankWithoutHtree.SplitSignals` | src/BankWithoutHtree.cpp:116-170 | succeeds exactly when the ways fit and then holds the bits, ways and muxes of the closed split |
| `FlatBanks.BankWithoutHtree.Initialize` | src/BankWithoutHtree.cpp:36-240 | for every associativity, for internal and external sensing and also on a used bank: invalid exactly when sensing cannot work, the ways do not fit, the subarray refuses or an old verdict is carried over; otherwise it holds the closed-form mat |
| `Capacity.BottomOfTree` | src/BankWithoutHtree.cpp:116-123 | the walk's remaining address and data bits are the quotients of the closed split |
| `Capacity.RequestsAgree` | src/BankWithoutHtree.cpp:116-180 | whenever the H-tree asks for a subarray both routers ask for the same one, exactly when the associativity of a data array is a power of two |
| `Capacity.FlatImpliesRoutable` | src/BankWithHtree.cpp:398-402 | an organisation the closed split can build is never starved on the way down the tree, for every associativity |
| `Capacity.RoutersAgree` | src/BankWithoutHtree.cpp:116-180 | unless a data array has a non-power-of-two associativity, the H-tree accepts exactly what the other router accepts with internal sensing, and both hand over the same request |
| `Capacity.DataStorage` | src/macros.h:138-151 | an accepted data bank stores sets * 2^floor(log2 ways) * the word rounded down to a multiple of the active mats, for every capacity, word width and associativity |
| `Capacity.DataCapacity` | src/macros.h:138-151 | for every capacity, word and associativity an accepted data bank passes the check if and only if the capacity is a power of two of sets of K bits per die and ways * word <= 2^0.1 * K, with K = 2^floor(log2 ways) * the word rounded down to a multiple of the active mats |
| `Capacity.TagStorage` | src/macros.h:163-176 | an accepted tag bank stores sets * ways rounded down to the active subarrays * tag bits rounded down to the active mats |
| `Capacity.MeetsIff` | src/BankWithHtree.cpp:174-179 | the sets found by the tolerant logarithm make up a capacity exactly when some power of two of sets does and what a set loses is within the tolerance |
| `Capacity.CapacityIff` | src/macros.h:138-176 | the check on an accepted data or tag bank passes exactly for the organisations whose sets, as they are kept, make up the capacity |
| `Capacity.TagCapacity` | src/macros.h:163-176 | the same for tag banks, with K = the ways rounded down to a multiple of the active subarrays * the tag rounded down to a multiple of the active mats of a subarray |
| `Capacity.WholeSets` | src/BankWithHtree.cpp:174-179 | a capacity of 2^e full sets per die is recognised as e address bits |
| `Capacity.WholeSetsOfData` | src/macros.h:138-151 | of such a capacity the check on a data bank passes exactly when the associativity is a power of two and the active mats divide the word |
| `Capacity.WholeSetsOfTags` | src/macros.h:163-176 | and on a tag bank exactly when the active subarrays divide the associativity and the active mats of one the tag |
| `Capacity.DataCheckNeverFires` | src/macros.h:138-151 | for power-of-two capacity, word and associativity an accepted bank never violates the capacity |
| `Capacity.RoundedTagDivides` | src/main.cpp:443-450 | the widened tag is the next multiple of everything active, so the active mats divide it |
| `Capacity.TagCheckNeverFires` | src/main.cpp:439-460 | for power-of-two cache size, word and associativity and tags widened like that an accepted bank never violates the capacity |
| `Capacity.FlatStoresTheSame` | src/macros.h:113-126 | for a power-of-two associativity what the bank without H-tree builds, the H-tree bank also builds, and both store the same bits |
| `Capacity.FlatDataStorage` | src/BankWithoutHtree.cpp:116-180 | what an accepted data bank without H-tree stores, for every capacity, word and associativity: the ways that share a mat rounded down to a multiple of the mux degree, times the word rounded down to a multiple of the active mats |
| `Capacity.FlatLossless` | src/BankWithoutHtree.cpp:124-151 | it keeps every way, to the width the mats divide, exactly when the odd part of its mux degree divides the associativity |
| `Capacity.RowsUncut` | src/SubArray.cpp:86-95 | the division of the rows of an accepted bank by the mux degree is exact exactly when the odd part of the degree divides the associativity |
| `Capacity.FlatLosslessCapacity` | src/macros.h:138-151 | then its check passes if and only if the capacity is a power of two of sets of K bits per die and ways * word <= 2^0.1 * K, with K = ways * the word rounded down to a multiple of the active mats |
| `Capacity.WholeSetsOfFlatData` | src/macros.h:138-151 | of a capacity of 2^e full sets the check on a data bank without H-tree passes exactly when the odd part of its mux degree divides the associativity and the active mats divide the word |
| `Capacity.FlatDataCapacity` | src/macros.h:138-151 | its check passes if and only if some number of sets makes up the capacity and lies within the tolerance of the logarithm |
| `Capacity.FlatTagCapacity` | src/macros.h:163-176 | a tag bank without H-tree, with either sensing scheme, passes the check under the same condition as one with it |
| `Capacity.FlatCapacityIff` | src/macros.h:138-176 | the pass condition for data and tag banks without H-tree together |
| `Capacity.StoredAsExpected` | src/macros.h:138-176 | an accepted bank stores its sets times the bits it keeps of each, which is at least one and at most a full set |
| `Capacity.TryBank` | src/macros.h:113-176 | with the H-tree router a trial is rejected, kept or ends the program exactly as the parameters foretell, whatever the area, delay and refresh calculations refuse in between |
| `Capacity.TryBankWithoutHtree` | src/macros.h:113-176 | the same for the other router |
| `CapacityWitnesses.OddWordTripsTheCheck` | src/main.cpp:535-549 | twelve bytes of three-bit words over two active mats pass the guard, are accepted and violate the capacity |
| `CapacityWitnesses.PlainIsAccepted` | src/BankWithHtree.cpp:398-436 | an organisation without muxes and with one row per set is accepted as soon as its address, word and ways suffice |
| `CapacityWitnesses.FiveBytesTripTheCheck` | src/main.cpp:535-549 | five bytes of one-byte words lose nothing to partitioning, are accepted and violate the capacity |
| `CapacityWitnesses.SeventeenPassesTheCheck` | src/main.cpp:535-549 | eight bytes of seventeen-bit words over sixteen active mats lose a bit of every word and still pass |
| `CapacityWitnesses.OddWaysAreReached` | src/main.cpp:431-452 | the search comes to the tag array of a three-way cache of twelve kilobytes: its width, rounding, capacity and guard |
| `CapacityWitnesses.OddWaysTripTheCheck` | src/main.cpp:453-460 | that tag array is accepted and violates the capacity |
| `CapacityWitnesses.ThreeWaysTellTheRoutersApart` | src/BankWithoutHtree.cpp:124-151 | for a three-way data array one router asks for two ways behind a mux of two, the other for three behind a mux of three |
| `CapacityWitnesses.FourteenWaysTripTheCheck` | src/main.cpp:535-549 | 896 bytes in fourteen ways: the bank without H-tree is accepted with mats of 74 by 96, stores 7104 of 7168 bits and violates the capacity |
| `MonolithicFold.StopIsFinal` | src/Mat.cpp:893-901 | if doubling the tiers does not pay, no larger stack pays |
| `MonolithicFold.StoppedIsOptimal` | src/Mat.cpp:883-912 | the greedy stop is a global minimum over all power-of-two stacks within the limit, and every smaller stack is strictly worse |
| `MonolithicFold.DoublingPays` | src/Mat.cpp:884-901 | compares the footprints of t and 2t tiers exactly |
| `MonolithicFold.Mat.FoldOnce` | src/Mat.cpp:902-910 | halves one dimension, the resistance along it and the area of a tier |
| `MonolithicFold.Mat.Fold` | src/Mat.cpp:872-912 | tiers are 2^(height folds + width folds) within the limit, folds alternate from the taller dimension, tiers times tier area is the array, resistances halve with their own dimension, and the stack is optimal |
| `MonolithicFold.CountFits` | src/Mat.cpp:914-919 | the total via count always fits in 64 bits, so the overflow guard never fires |
| `MonolithicFold.Mat.Conclude` | src/Mat.cpp:914-940 | the area is the footprint of the chosen stack and the layout is refused exactly for vias or arrays without area |
| `MonolithicFold.Mat.SetShape` | src/Mat.cpp:937-940 | height times width is the footprint and the width is the folded memory width |
| `MonolithicFold.Mat.CalculateArea` | src/Mat.cpp:834-1002 | the vias of a tier are the least whole number that meets the demand of its rows and columns; the fold is refused exactly for a redundancy, tier limit, via demand, logic, via or array area outside its range; otherwise tiers, alternation, conservation, optimality and footprint hold, and the layout is refused exactly for negative loads or a DRAM bit line on which the cell can no longer be sensed |
| `MonolithicFold.Mat.CountVias` | src/Mat.cpp:836-857 | the least whole number of vias that meets four per row and column of a gain cell, two per row and four per column with bit-line pairs, two per row and column otherwise, times the redundancy |
| `MonolithicFold.Mat.FoldAndConclude` | src/Mat.cpp:872-940 | the fold and its totals together, for vias and logic of nonnegative area |
| `MonolithicFold.Mat.LoadLines` | src/Mat.cpp:942-1001 | adds the via and extension loads to the lines and passes them on, and refuses exactly negative loads or, for DRAM, a bit line too heavy for the least sense voltage |
| `MonolithicFold.Loads.Deltas` | src/Mat.cpp:944-951 | the additions term by term are the load of the wire that passes the vias and the extension, and of the vias themselves |
| `MonolithicFold.Loads.Extend` | src/Mat.cpp:943 | the extension depends on how far the two layers differ, whichever is larger |
| `MonolithicFold.Mat.DriveLines` | src/Mat.cpp:962-985 | the sections between repeaters that the decoders drive add up to the loaded word line, and the precharger drives the bit line that is read, which for gain cells is another one |
| `MonolithicFold.SharedCharge` | src/Mat.cpp:991-1000 | the sense voltage times the shared capacitance is the charge of the cell, and reaches the least voltage exactly when that times the capacitance does not exceed the charge |
| `ContactSolver.StepEncloses` | src/AOSFETCompactModel.cpp:325-335 | a bisection keeps the sign change and halves the bracket |
| `ContactSolver.AfterEncloses` | src/AOSFETCompactModel.cpp:323-340 | after i bisections the bracket is the first one divided by 2^i and still encloses |
| `ContactSolver.CloseStays` | src/AOSFETCompactModel.cpp:336-339 | a bracket within tolerance stays within tolerance |
| `ContactSolver.CloseUntil` | src/AOSFETCompactModel.cpp:325-340 | so stopping early gives the verdict of all eighty steps |
| `ContactSolver.SmallBracketConverges` | src/AOSFETCompactModel.cpp:325-342 | a bracket of at most a microampere always converges |
| `ContactSolver.EarlySignConverges` | src/AOSFETCompactModel.cpp:325-342 | any bracket converges if one of the first forty halvings has a positive residual |
| `ContactSolver.ProbesFromTheTop` | src/AOSFETCompactModel.cpp:325-335 | the lower end is zero exactly while all probes so far were nonpositive halvings of the upper end |
| `ContactSolver.LateSignConvergesIffSmall` | src/AOSFETCompactModel.cpp:325-342 | if none of the first forty-one halvings is positive the solver converges exactly for brackets of at most 2^80 * 1e-30 amperes |
| `ContactSolver.OnGrid` | src/AOSFETCompactModel.cpp:325-335 | every upper end is a whole number of current bracket widths |
| `ContactSolver.CloseIffAbove` | src/AOSFETCompactModel.cpp:325-342 | the last bracket is within tolerance exactly when the first was at most 2^80 * 1e-30 amperes or the last lies above (10^12 - 1)/2^80 of it |
| `ContactSolver.FallingConvergesIff` | src/AOSFETCompactModel.cpp:325-342 | if the residual changes sign once, the solver converges exactly when the bracket is at most 2^80 * 1e-30 amperes or the residual is still positive at (10^12 - 1)/2^80 of it |
| `ContactSolver.EndsAboveIff` | src/AOSFETCompactModel.cpp:325-335 | whether bisection ends above a target is decided by the first probe on the target's own path that disagrees with it |
| `ContactSolver.ConvergesIff` | src/AOSFETCompactModel.cpp:325-342 | for any current function the solver converges exactly when the bracket is small or eighty fixed probes lead above the smallest current it can resolve |
| `ContactSolver.SwitchDoesNotConverge` | src/AOSFETCompactModel.cpp:341-342 | a device cut off by any drop is bracketed at one ampere and does not converge |
| `ContactSolver.Probe` | src/AOSFETCompactModel.cpp:309-312 | for a probe within the contact limit the clamp of the drain voltage never acts |
| `ContactSolver.CandidateClosed` | src/AOSFETCompactModel.cpp:306-318 | the upper ends tried are the device's own current, at least 1e-30 amperes, times powers of two, and never more than the contacts carry |
| `ContactSolver.FindBracket` | src/AOSFETCompactModel.cpp:306-321 | fails exactly when the residual is positive at every doubling of the device's own current up to the contact limit, and otherwise returns the first doubling where it is not |
| `ContactSolver.Bisect` | src/AOSFETCompactModel.cpp:323-342 | converges exactly when eighty bisections would, and then returns the first bracket within tolerance, which encloses a sign change |
| `ContactSolver.SolveExternal` | src/AOSFETCompactModel.cpp:296-349 | exactly when each error occurs, that the nonpositive-current error never does, and that the answer is the positive middle of the first bracket within tolerance, which encloses a sign change below the contact limit |
| `ContactSolver.AnswerNearRoot` | src/AOSFETCompactModel.cpp:336-348 | for a strictly falling residual the answer is within half the tolerance of its root |
| `ChargePartition.PartitionIsComplete` | src/AOSFETCompactModel.cpp:375-389 | drain charge plus drain charge with the ends exchanged is the gate charge |
| `ChargePartition.DrainShare` | src/AOSFETCompactModel.cpp:375-389 | for nonnegative end terms the drain takes between two and three fifths of the gate charge |
| `ChargePartition.DrainExcess` | src/AOSFETCompactModel.cpp:384-389 | by how much the drain charge exceeds what it would be with the ends exchanged, which with completeness fixes it |
| `ChargePartition.SmallerEndTakesLess` | src/AOSFETCompactModel.cpp:384-389 | a drain with the smaller term takes less than half of the gate charge |
| `ChargePartition.GateCharge` | src/AOSFETCompactModel.cpp:372-383 | the gate charge without its quotient, for a uniform channel and one pinched off at the drain, and zero below the cutoff |
| `ChargePartition.GateRange` | src/AOSFETCompactModel.cpp:375-383 | for nonnegative end terms above the cutoff the normalised gate charge lies between 1/2 and 2/3 of their sum |
| `SenseMargins.ReferenceIsHarmonic` | src/BinarySenseAmp.cpp:218-219 | the reference is the harmonic mean of the two resistances and lies between them |
| `SenseMargins.OnSideIsSmaller` | src/BinarySenseAmp.cpp:220-223 | the reduced margin is the separation of the on state from the reference, and that of the off state is no smaller |
| `SenseMargins.CutoffIff` | src/BinarySenseAmp.cpp:226-227 | the cutoff admits exactly an on resistance of at most four fifths of the off resistance |
| `SenseMargins.ChooseReference` | src/BinarySenseAmp.cpp:194-227 | which pairs of resistances are invalid, refused or sensed; a sensed pair gets the harmonic mean as reference, which conducts the mean of what the states conduct, and the margin of the on state, and both states are at least that far away |
| `DesignSpace.BandwidthMeaning` | src/Result.cpp:328-359 | a bandwidth is positive exactly for a working bank, and at that bandwidth one block moves in a DRAM cycle, or in a read without the decoder of its own kind of cell and with the precharge |
| `DesignSpace.ImprovesLowersCost` | src/Result.cpp:371-415 | each target's comparison is a strict decrease of one cost |
| `DesignSpace.BandwidthTargets` | src/Result.cpp:396-403 | an unreadable bank never improves the read bandwidth, a readable one always beats it, and of two DRAM banks the one with more block per cycle wins; likewise for writing |
| `DesignSpace.SearchKeepsEarliestBest` | src/Result.cpp:361-425 | after any run the kept result is the start if nothing admitted is better, and otherwise the earliest of the cheapest admitted candidates |
| `DesignSpace.SearchIsMinimum` | src/Result.cpp:361-425 | the kept cost is the minimum over the start and all admitted candidates |
| `DesignSpace.OrderIrrelevant` | src/macros.h:129-135 | any reordering of the candidates achieves the same cost |
| `DesignSpace.SearchConcat` | src/macros.h:74-91 | continuing a search from what it has kept is one longer search |
| `DesignSpace.ChampionOfChampions` | src/main.cpp:270-274 | for two cells with limits of their own, comparing the winners keeps what one search under the first limits keeps exactly if the second cell cannot beat the first under them or its winner is the one they would choose, and costs the same exactly if it cannot or its winner meets them and is cheapest among those that do |
| `DesignSpace.SharedLimits` | src/main.cpp:270-274 | under shared limits the comparison keeps exactly the candidate of one search over both cells |
| `DesignSpace.AlikeSearches` | src/main.cpp:670-683 | limits that admit the same of the candidates cheaper than the start lead to the same winner |
| `DesignSpace.MergedIsOneSearch` | src/main.cpp:266-291 | for any number of cells whose limits admit alike the comparisons in turn keep the candidate of one search over all of them |
| `ConstrainedCells.ComparedIsTogetherIff` | src/main.cpp:670-683 | with limits derived from each cell's own first pass, two constrained cells compared achieve what one constrained search achieves exactly under that condition |
| `ConstrainedCells.LimitsAreRelative` | src/main.cpp:670-680 | every limit of the second pass is the best of its own target and its own constraint on top, and the bandwidth limits stay |
| `ConstrainedCells.AdmitsByTarget` | src/Result.cpp:364-370 | a candidate is admitted exactly if the figure of each target is within the limit of that target |
| `ConstrainedCells.BestIsLeast` | src/main.cpp:670-680 | the first pass over usable candidates finds the least cost of each target, from which the limits are derived |
| `ConstrainedCells.OwnLimitsLoseABank` | src/main.cpp:670-683 | two cells under one set of constraints for which the comparison keeps a bank of latency 5 and one search a bank of latency 3 |
| `DesignSpace.KeptBanksWork` | src/Result.cpp:328-370 | with positive bandwidth limits whatever replaces the start can be read and written: positive block, cycles and latencies below a tenth of the invalid value |
| `DesignSpace.ClearedIsWorst` | src/Result.cpp:317-326 | a cleared result has no bandwidth, costs the same whatever it held, and loses to every usable candidate |
| `DesignSpace.ClearingForgets` | src/macros.h:316-326 | under any limits a search from a cleared result keeps the candidate it would keep from any other cleared result, or none from either |
| `DesignSpace.AnyAdmittedBankIsKept` | src/macros.h:316-326 | from a cleared result, under any limits, one usable candidate within them suffices to keep a real bank: for energy, area and leakage usable means strictly below the invalid value |
| `DesignSpace.Result.constructor` | src/Result.cpp:269-305 | a new result holds the invalid metrics and no limits |
| `DesignSpace.Result.Reset` | src/Result.cpp:317-326 | wires, cell and timing stay, both bandwidths vanish, every usable candidate improves on the result, and every later search keeps what it would keep from any cleared result |
| `DesignSpace.Result.ApplyLimits` | src/macros.h:316-326 | before the constrained pass all limits but the bandwidths are replaced and nothing of the first pass shows in what the second keeps |
| `DesignSpace.Result.CompareAndUpdate` | src/Result.cpp:361-425 | replaces the kept result exactly by an admitted candidate of strictly lower cost |
| `DesignSpace.Result.Explore` | src/macros.h:129-135 | a run of comparisons is the fold |
| `RepeaterSearch.SumBelowTwo` | src/Wire.cpp:918 | two relative costs that add up to less than two multiply to less than one |
| `RepeaterSearch.AcceptsIff` | src/Wire.cpp:918 | a size is accepted exactly if it is fast enough and the crossed products of energy and leakage stay below twice the product of the best |
| `RepeaterSearch.AcceptedIsCheaper` | src/Wire.cpp:918-923 | an accepted step strictly lowers energy times leakage |
| `RepeaterSearch.DescendResult` | src/Wire.cpp:914-924 | the chosen size is on the ladder, within the delay budget, and cheaper than the start unless it is the start |
| `RepeaterSearch.DescendIsFinal` | src/Wire.cpp:914-924 | no size on the ladder below the chosen one would be accepted over it |
| `RepeaterSearch.Wire.FindPenalizedRepeater` | src/Wire.cpp:899-928 | the size is that of the descent at the starting spacing, delay is within the penalty, energy times leakage has not risen, and the spacing is unchanged |
| `StrictParsing.SkipSpaces` | src/InputParameter.cpp:42-45 | the first position that is not a space, with only spaces before it |
| `StrictParsing.SkipDigits` | src/InputParameter.cpp:97-103 | the first position that is not a digit, with only digits before it |
| `StrictParsing.CharacterClasses` | src/InputParameter.cpp:42-45 | the six spaces and ten digits one by one |
| `StrictParsing.SkipWhitespace` | src/InputParameter.cpp:42-45 | the loop finds that position |
| `StrictParsing.OverflowTest` | src/InputParameter.cpp:99 | the test without overflow is exactly the overflow of the next value |
| `StrictParsing.ValueGrows` | src/InputParameter.cpp:97-103 | a longer digit run is never smaller, so rejecting early is right |
| `StrictParsing.Token` | src/InputParameter.cpp:92-106 | a token fits in 64 bits and ends after its start |
| `StrictParsing.ParseUnsignedToken` | src/InputParameter.cpp:92-106 | a digit run is accepted exactly when its value is below 2^64, with that value |
| `StrictParsing.ParseStrictPositiveUint64` | src/InputParameter.cpp:108-114 | computes the positive integer a text denotes, if any |
| `StrictParsing.ParseStrictMatSize` | src/InputParameter.cpp:116-128 | computes the mat size a text denotes, if any |
| `StrictParsing.TokenRead` | src/InputParameter.cpp:92-106 | spaces and a digit run read as the number they spell, or not at all if it does not fit |
| `StrictParsing.PositiveIntegerRead` | src/InputParameter.cpp:108-114 | every spelling of an integer is accepted exactly when it is positive and fits |
| `StrictParsing.PositiveIntegerOnly` | src/InputParameter.cpp:108-114 | nothing but such a spelling of a positive integer that fits is accepted |
| `StrictParsing.MatSizeRead` | src/InputParameter.cpp:116-128 | every spelling of a mat size is accepted exactly when both numbers are positive and fit, with those numbers |
| `StrictParsing.MatSizeOnly` | src/InputParameter.cpp:116-128 | nothing but those spellings is accepted |
| `StrictParsing.MatSizeRoundTrip` | src/InputParameter.cpp:116-128 | any spacing of r x c or r X c parses back to r and c |

## Left out

- Device and wire tables, gate and wire formulas, latency, power and area formulas of the circuit blocks: constants and closed formulas with nothing to prove.
- Floating-point rounding, NaN and infinity checks, transcendental functions, and with them the surface-potential iteration.
- 32-bit overflow: `1 << bits` is undefined in the source from 31 effective address bits on; the model's integers are unbounded.
- Non-power-of-two subarray, mat, activation, mux, row-per-set and die counts, which a configuration can force but the doubling loops never produce from their default start.
- The capacity law of CAM arrays, for which the H-tree distributes no data bits; routing and router agreement cover them.
- The horizontal and vertical wire counts per tier, special-cased on two horizontal levels, and the bank's height, width and aspect ratio that use them.
- Dynamic energy and leakage sums over the level arrays: the same loops with other weights.
- MonolithicFold.Mat.DriveLines: the further copies of the same loads in the output drivers, the gain-cell row decoder and the write driver are not modelled.
- Predecode blocks, output drivers, decoders and sense amplifiers: sizing by electrical formulas.
- SenseMargins.ChooseReference: the other tests of the sense amplifier (cell, access, node, temperature, bias) and its fitted latency and power are not modelled: equalities with constants and fits.
- RepeaterSearch.Wire.FindPenalizedRepeater: the unit delay, energy and leakage are arbitrary positive functions, not the formulas of the wire.
- StrictParsing.ParseUnsignedToken: what is written through the output pointers of a failed parse is not described.
- The ten per-target results of a search as one array: each is an independent fold.
- Printing, CSV output, configuration files, the gem5 command and everything under gem5_llc_refresh.

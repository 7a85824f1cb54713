# NVSim: organisation arithmetic and design-space search

NVSim sizes a memory by trying every organisation of a bank. Under its device
physics lies exact integer arithmetic: a capacity is cut into mats, subarrays,
rows, columns and multiplexers, signals are routed to the mats through an
H-tree or directly, and a search keeps the best design for each of eight
metrics. This project models that arithmetic and that search, and proves that
nothing is lost and nothing better is missed.

- `Banks`, `Mats`, `SubArrays`, `BanksWithHtree`, `BanksWithoutHtree`: the four
  initialisations. Their classes keep the source's fields and in-place updates,
  and each `Initialize` is proved equal to a plan (`PlanMat`, `PlanBank`) that
  the laws are about.
- `Htrees`, `HtreeLaws`, `HtreeWires`, `BankWires`: what each level of an H-tree carries,
  written as a closed form that the four-phase walk is proved to fill in.
- `MatLaws`, `BankLaws`, `SearchLaws`: conservation of cells, address bits and
  word bits, and the refinement of the closed form by the walk.
- `DesignSpace`, `Results`, `Search`, `Refinement`, `Program`: the nested search
  loops, the eight running optima, the refinement over wires, the second pass
  under constraints, and a whole run for one array.
- `RepeatedWires`, `PredecodeBlocks`, `OutputDrivers`: three smaller algorithms.
- `PowersOfTwo`, `Organisation`: shared arithmetic and vocabulary.

`dafny verify dfyconfig.toml` checks everything.

## How the source is represented

- `(int)(log2(x) + 0.1)` is `LogRound`, defined on exact reals for every
  positive argument and pinned down by `LogRoundAboveOne` and
  `LogRoundBelowOne`; only floating-point rounding is set aside. A plain
  `(int)log2(x)` of an integer is `FloorLog2`.
- Integers are unbounded: `1 << n` does not wrap.
- The six integer arrays that an H-tree keeps for each direction are one array
  of `Level` records; a bank's inherited configuration fields are one
  `BankConfig` record.
- The thirteen nested loops of `BIGFOR` are one method that calls itself for the
  loops inside it and returns the choices in the order of the loops.
- The `invalid` flag of a mat or subarray is never cleared by the source;
  `Usable` and `Fresh` say when an initialisation starts from a clean one.
- The physics of an initialised bank is an unknown function of its
  configuration, its integer plan and its wires, which may also reject the bank.
  So is the electrical legality of a subarray, of its own arguments. The n-th
  root and the transistor formulas of drivers and wires are unknown functions
  constrained only by `Sound` and `Physical`.
- `Realistic` says that working banks have non-negative metrics below the
  sentinel 1e41, and energy-delay products within it.

## Where the code falls short

Each of these has its exact condition, and a lemma at a concrete input where it
does not hold at every one. The last three concern drivers that the program does not
build, or only at sizes out of all proportion.

- The capacity check "shouldn't happen", but ordinary configuration files reach it.
  A data search exits exactly when it accepts a choice for which the capacity is
  not the addresses times the ways times the evenly cut word (`DataSearchExits`).
  With a power-of-two number of sets that means an activation that does not
  divide the word (`FitsPow2Sets`), and with an even cut a number of sets that is
  not a power of two (`FitsEvenWord`). A tag search exits exactly when it accepts
  anything at all and the sets are not a power of two (`TagSearchExits`). The
  program asks for a power-of-two associativity (main.cpp:496) but neither for
  such a number of sets nor for such a word. `UnevenSearchExits`,
  `OddSetsSearchExits` and `OddCacheExits`, a cache of three megabytes, are inputs.
- A tree with exactly two horizontal levels counts half of its vertical wiring
  tiers (BankWithHtree.cpp:376-380) where a column split lies above
  (`TiersOfGroups`). Every bank of four columns and two rows of mats shows it
  (`BankTiersLost`).
- `findPenalizedRepeater` does not reset the repeater size, so after the first
  spacing no other is tried: the spacing never changes, at any input.
- From nineteen address bits on, a predecoder shifts the size of its first group
  without having set it; the stage sizes multiply to the number of lines exactly
  when that memory held one (`StageSizesNeedOne`, and `ZeroedStageSize` over
  zeroed memory). A mat splits its row bits over two predecoders, so it would
  take 37 row bits to get there, which the source's 32-bit shifts do not reach.
- A clamped last stage can leave an effort per stage below one. The chain then
  widens toward its input and the stage before the last exceeds the greatest
  width of the process; `LatencyTaperedIff` is the exact condition for arbitrary
  arguments. No driver that the program builds is such a one
  (`DriversAreTapered`): all callers drive from an inverter of least width or a
  NAND whose NMOS are as many times wider as it has inputs, and the gate
  capacitance is proportional to the width, because `capPolywire` is zero for
  every technology (Technology.cpp:1291, formula.cpp:48-50). A clamped last stage
  loads such a gate enough exactly if the greatest width is not below the least
  one (`GateLoadsItself`), which an early return guarantees (OutputDriver.cpp:68).
  `ClampedChainWidens` needs a `capPolywire` above zero.
- The cap on inverter chains breaks the parity of an inverting chain exactly
  when it acts, from an effort of 4^21 / 2 on (`CapBreaksParity`, `ParityLost`),
  which is a load about a million million times the input.
- A latency-first driver that need not invert and has an effort below eight
  would index before its arrays (`LatencyHasStage`), but all callers ask for an
  inverting one (RowDecoder.cpp:88,95, BasicDecoder.cpp:70,86, Precharger.cpp:73).
  A trade-off driver would index behind them from an effort of 4^20 / 2 on, or
  4^21 / 2 if it need not invert (`TradeOffFits`). For the gates of the program
  that effort is the width of the last stage in least widths (`GateTradeOffEffort`),
  so it takes a greatest width of over 5 * 10^11 least ones (`DriversStayInArrays`,
  `OutsideTheArrays`). Staying inside is the precondition of
  `OutputDriver.Initialize`.

## Model

| member | source | states |
|---|---|---|
| PowersOfTwo.LogRoundAboveOne | BankWithHtree.cpp:169 | For x of at least one the conversion yields the k with 2^k <= x * 2^0.1 < 2^(k+1), compared on tenth powers |
| PowersOfTwo.LogRoundBelowOne | BankWithHtree.cpp:169 | Below one the conversion truncates toward zero: it is minus the largest k with 2^k * 2^0.1 <= 1/x |
| PowersOfTwo.LogRoundOfPow2 | BankWithHtree.cpp:217-218 | On powers of two the conversion is the exact logarithm |
| PowersOfTwo.LogRoundAtLeastFloor | BankWithHtree.cpp:217-218 | The conversion never falls below the floor of the logarithm, so there are always enough levels to halve the active mats |
| SubArrays.SubArray.Initialize | SubArray.cpp:54-114 | Invalid exactly when it was before, an integer rule fails or the electrical check does; a valid one has the column counts after each multiplexer level |
| SubArrays.LegalByCell | SubArray.cpp:73-114 | Which subarrays are legal for each kind of cell, once the electrical checks pass |
| Mats.SplitBits | Mat.cpp:139-143 | Two predecoder blocks together take all bits, differ by at most one, and the second is used only above three bits |
| Mats.ActiveFits | Mat.cpp:70-92 | After clamping there is at least one selectable group, and dividing by both active counts in turn equals dividing by their product |
| Mats.Mat.Initialize | Mat.cpp:52-183 | A fresh mat ends invalid exactly when it has no plan, and otherwise holds the whole plan; a mat once invalid stays so |
| MatLaws.RowsAreExact | Mat.cpp:101-105 | With power-of-two multiplexers the division is exact: one row for each address left after column decoding, and for data one for each way |
| MatLaws.GridExponents | Mat.cpp:92 | Gating takes one address bit for each halving from all units to the active ones |
| MatLaws.MatConservesAddressBits | Mat.cpp:91-176 | Gating, row and the three multiplexer predecoders decode exactly the address bits of the mat, and a data subarray has one row for each row address and way |
| MatLaws.PredecodersSelectDegrees | Mat.cpp:151-176 | The bitline, level-one and level-two predecoders each select one of as many lines as the degree of their own multiplexer |
| MatLaws.MatIsValidExactly | Mat.cpp:88-137 | A mat of powers of two is valid exactly if gating leaves an address bit and the bits of the multiplexers, every active subarray gets a bit, and the subarray of the resulting size is legal |
| MatLaws.MatDeliversWord | Mat.cpp:112-121 | The columns left by all multiplexers, over the active subarrays, are the largest evenly cut part of the word, once for data and once per way for tags |
| MatLaws.MultiplexersDivideColumns | SubArray.cpp:403-407 | Each multiplexer level divides its columns by its own degree without a rest |
| MatLaws.MatKeepsEveryCell | Mat.cpp:88-124 | Rows times columns times subarrays is addresses times ways times the evenly cut word, for every valid mat of powers of two |
| BanksWithHtree.Walk | BankWithHtree.cpp:238-400 | For every tree the walk fills all levels of both directions with the closed form, ends with what reaches a mat, and fails exactly when the tree runs out of data or address before its last split |
| BanksWithHtree.WalkColumns | BankWithHtree.cpp:267-289 | The first loop lowers the horizontal level to the vertical one, keeps every level written so far right, and stops early only in a tree that aborts |
| BanksWithHtree.WalkRows | BankWithHtree.cpp:291-325 | The same for the vertical direction, whose first level has no level above it to read |
| BanksWithHtree.SplitColumns | BankWithHtree.cpp:333-358 | The column half of an alternating step halves the data or drops an address bit, reading only levels already written |
| BanksWithHtree.SplitRows | BankWithHtree.cpp:364-385 | The row half reads the horizontal level just written, with the tier count that depends on having exactly two horizontal levels |
| Htrees.StuckAborts | BankWithHtree.cpp:248-253 | A walk without data or address at any point could not have finished: the early exits reject nothing that a completed walk would accept |
| Htrees.ColumnStep | BankWithHtree.cpp:274-288 | One step between columns keeps the walk on the closed form and doubles the groups, and the active groups too when it halves the data |
| Htrees.WalkSucceeds | BankWithHtree.cpp:388-400 | Passing the final check means the tree does not abort, and the last halving gives the mat exactly the closed form's share |
| BanksWithHtree.BankWithHtree.RouteSignals | BankWithHtree.cpp:168-400 | Sets up the signal and level counts and leaves the levels of the configuration's tree, failing exactly when it aborts |
| BanksWithHtree.BankWithHtree.Initialize | BankWithHtree.cpp:149-479 | Invalid exactly for a bank that was unusable or has no plan; a valid bank holds the plan, all levels, and its own configuration with the original multiplexers restored |
| BanksWithoutHtree.BankWithoutHtree.Initialize | BankWithoutHtree.cpp:53-236 | The same against the closed-form plan, including both refusals of external sensing |
| BanksWithoutHtree.BankWithoutHtree.RouteSignals | BankWithoutHtree.cpp:128-134 | Each mat gets the address less the gating bits, and its share of the word or of the ways |
| Banks.WayMuxPositive | BankWithHtree.cpp:436-454 | For every number of ways, power of two or not, the rounded logarithm is never so large that a multiplexer degree becomes zero |
| Banks.RoutedMatPositive | BankWithHtree.cpp:465-467 | Whatever passes the checks reaches the mat with positive ways and multiplexers and no negative width |
| Banks.MatForExactly | BankWithHtree.cpp:402-426 | The ways can be laid out exactly if a data set has no more rows than ways, or a tag has one row and a way; everything else of the bank is handed to the mat as it is |
| BankLaws.SensingExactly | BankWithoutHtree.cpp:66-76 | External sensing is refused with an H-tree, for both kinds of DRAM and for repeated global wires, and for nothing else |
| BankLaws.SubArraysAreLegal | Mat.cpp:123-131 | The subarrays of every valid bank are legal at the size they have, for the mat's multiplexers and the local wires |
| BankLaws.TreeShares | BankWithHtree.cpp:393-400 | Below all levels, address and data are the bank's less the gating bits and divided by the active mats |
| BankLaws.TreeRefinesDirect | BankWithHtree.cpp:238-467 | With internal sensing and a power-of-two grid of mats, and for data a power-of-two associativity, both kinds of bank have the same verdict and the same mat, in spite of the early exits of the walk |
| BankLaws.NoAddressNoMat | Mat.cpp:93-99 | Routing no address bit to a mat makes it invalid, which is why the early exit on the address is harmless |
| BankLaws.NoDataNoMat | Mat.cpp:112-117 | The same for routing no data |
| BankLaws.WayMuxFactors | BankWithHtree.cpp:435-455 | The extra multiplexers multiply to exactly the ways of a row, as evenly as powers of two allow, and leave DRAM bitlines unshared |
| BankLaws.MuxOfWays | BankWithHtree.cpp:435-455 | The degree of each multiplexer level of a data mat with 2^k ways in a row: DRAM puts half of k, rounded up, on level one and the rest on level two; other cells a third on both levels and the rest before the sense amplifier |
| BankLaws.MatOfPow2 | BankWithHtree.cpp:435-467 | Extra multiplexing times rows per set is the number of ways, and the subarrays asked of a mat need no clamping |
| BankLaws.BankKeepsEveryCell | macros.h:166-168 | Every valid bank, tree or not, has sets times ways times the evenly cut word as its number of cells |
| BankLaws.CapacityConserved | macros.h:166-177 | For a power-of-two number of sets the capacity check passes exactly when everything active together divides the word |
| BankLaws.CapacityNeedsPow2Sets | macros.h:166-177 | For an evenly cut word it passes exactly when the number of sets is a power of two |
| BankLaws.DeliveredWidth | SubArray.cpp:403-407 | Columns surviving all multiplexers over active subarrays and mats are the evenly cut word, for tags once per way |
| BankLaws.Reinitialised | Bank.cpp:73-90 | Initialising again from the stored fields of any bank asks for the same mat and gives the same plan |
| BankLaws.BankGroupCount | BankWithHtree.cpp:217-386 | The wire groups of a bank's tree number its mats less one, or twice its rows less two for a single column |
| HtreeLaws.PointConserves | BankWithHtree.cpp:274-286 | After any splits, active groups carry the evenly cut data between them and all groups are the active ones times the dropped addresses |
| HtreeLaws.EveryLevelConserves | BankWithHtree.cpp:248-386 | That holds on every level of both directions, and the active groups carry all of the data exactly if their number divides it |
| HtreeLaws.TiersOfGroups | BankWithHtree.cpp:353-381 | Horizontal tiers always account for the groups; vertical ones exactly unless there are two horizontal levels and a column split above |
| HtreeLaws.TiersHalved | BankWithHtree.cpp:376-380 | Otherwise vertical tiers account for exactly half of the groups |
| HtreeLaws.LevelsInterleave | BankWithHtree.cpp:266-386 | The direction with more levels runs alone first, then the two alternate, and what lies above what agrees between them |
| BankLaws.BankTiersLost | BankWithHtree.cpp:376-381 | A bank of two rows and four columns has four vertical groups and counts two |
| HtreeLaws.GroupsAbove | BankWithHtree.cpp:267-386 | At every point of the walk the levels above form a complete binary tree |
| HtreeLaws.GroupCount | BankWithHtree.cpp:248-386 | All groups of a tree, for any number of levels |
| HtreeWires.CalculateLengths | BankWithHtree.cpp:527-575 | The three loops give every entry of both arrays its length, reading only entries already assigned |
| HtreeWires.SumDetours | BankWithHtree.cpp:554-559 | The inner loop adds up the detours of all vertical levels from the current one |
| HtreeWires.DetourIsLeast | BankWithHtree.cpp:547-550 | A detour is half the pitch times the least number of shared widths for all address, distributed and broadcast bits |
| HtreeWires.VerticalLengthExactly | BankWithHtree.cpp:530-552 | At any pitch a vertical wire is half a mat doubled for each level below, with a detour around every horizontal level below doubled with it |
| HtreeWires.HorizontalLengthExactly | BankWithHtree.cpp:553-565 | At any pitch a horizontal wire beside a vertical level is a mat doubled for each level below, with the detours around that level and all below it |
| HtreeWires.HorizontalLengthAlone | BankWithHtree.cpp:569-575 | Horizontal wires above all vertical levels are the one below doubled |
| HtreeWires.VerticalLengthBound | BankWithHtree.cpp:530-552 | Each vertical level is at least half a mat high doubled per level below it, and exactly that without pitch |
| HtreeWires.HorizontalLengthBound | BankWithHtree.cpp:553-575 | Each horizontal level is at least a mat wide doubled per level below it, and exactly that without pitch |
| HtreeWires.RouteSpansBank | BankWithHtree.cpp:527-575 | Without pitch, one wire of every horizontal level and the mat they end at are together as wide as the bank |
| HtreeWires.RouteSpansHalfHeight | BankWithHtree.cpp:527-552 | Without pitch, one wire of every vertical level and the half mat they end at are together as high as half the bank |
| HtreeWires.RoutedLevelsCarryWires | BankWithHtree.cpp:248-386 | Where an address is left for the mats, no level on the way has a negative number of wires |
| BankWires.RoutedLengths | BankWithHtree.cpp:527-575 | So in every valid bank the levels carry wires and both length bounds hold, with equality without pitch |
| DesignSpace.BigFor | macros.h:125-138 | The loops terminate for minima of at least one and list the choices in loop order |
| DesignSpace.SearchIsExhaustive | macros.h:125-138 | A choice is visited exactly when each count is its minimum doubled some times within its maximum, with active counts bounded by the totals |
| DesignSpace.VisitsByCount | macros.h:125-138 | The same count by count: minima doubled up to the maxima, both lowered to the total for active counts, rows per set also within the associativity, and every level of area optimisation |
| DesignSpace.SearchVisitsOnce | macros.h:125-138 | Choices are visited in lexicographic order, none twice |
| SearchLaws.VisitsAreChoices | macros.h:125-138 | With minima of at least one all visited counts are positive |
| SearchLaws.VisitedIsPow2 | macros.h:125-138 | From power-of-two minima all visited counts are powers of two and no active count exceeds its total |
| SearchLaws.VisitedConfig | BankWithHtree.cpp:182-215 | So the clamps of the initialisation never change a visited configuration |
| SearchLaws.ConfigAsks | macros.h:142-150 | Which loop variable becomes which argument of the bank, and how a tag is widened |
| SearchLaws.ChoicesAreDistinct | macros.h:125-150 | No two choices ask for the same bank |
| SearchLaws.DataViolation | macros.h:166-177 | A visit of the data search ends the program exactly if it is accepted and the capacity is not that of all addresses, ways and evenly cut words, for any number of sets |
| SearchLaws.TagViolation | macros.h:189-200 | A visit of the tag search does exactly if it is accepted and the number of sets is not a power of two |
| SearchLaws.AcceptedExactly | main.cpp:287-294 | A visit is a solution or a violation exactly if it is accepted, and it is skipped exactly if the word is narrower than everything that is active together |
| SearchLaws.DataSolution | main.cpp:291-301 | A data visit is a solution exactly if it is accepted and the capacity fits |
| SearchLaws.TagSolution | main.cpp:206-213 | A tag visit is a solution exactly if it is accepted and the sets are a power of two |
| SearchLaws.SolutionReports | macros.h:157-163 | A solution is the bank asked for with the physics of its plan and the wires in use |
| SearchLaws.EveryAcceptedCounts | main.cpp:286-302 | A search that does not exit counts exactly its accepted visits, so it has a solution as soon as there is one |
| SearchLaws.DataSearchExits | main.cpp:286-302 | A data search over a power-of-two space exits exactly if the space has an accepted choice whose capacity does not fit |
| SearchLaws.TagSearchExits | main.cpp:193-214 | A tag search exits exactly if the sets are not a power of two and the space has an accepted choice |
| SearchLaws.FitsPow2Sets | macros.h:167-168 | For power-of-two sets the capacity fits exactly if the activation divides the word |
| SearchLaws.FitsEvenWord | macros.h:167-168 | For an activation that divides the word it fits exactly if the sets are a power of two |
| SearchLaws.DataNeverViolates | macros.h:166-177 | For power-of-two sets and words no visit does, under either routing and any limits |
| SearchLaws.TagNeverViolates | macros.h:189-200 | For power-of-two sets no visit does, whatever the width of the tag |
| SearchLaws.UnevenWordViolates | main.cpp:287-294 | A three-bit word over two active subarrays passes the search's own guard and is built with 32 of its 48 cells |
| SearchLaws.UnevenSearchExits | main.cpp:286-294 | If the physics accepts that bank, every data search that visits its organisation ends the program |
| SearchLaws.OddSetsSearchExits | main.cpp:286-294 | So does a search for 48 words of one bit that visits a single mat |
| Program.OddCacheExits | main.cpp:184-210 | So does the tag search of a cache of three megabytes with 64-byte lines and eight ways |
| Search.RoundUpIsLeast | main.cpp:200-203 | The widened tag is the least multiple of the activation that holds it |
| Search.Calculate | macros.h:142-154 | Building and evaluating a bank depends only on its configuration and wires, through its plan |
| Search.UpdateBest | macros.h:157-163 | One candidate is compared with every one of the eight results, each by its own metric and limits |
| Search.Explore | main.cpp:286-302 | A pass exits exactly if some visit violates the check; otherwise it counts the solutions and every result holds the best of them |
| Results.BestIsFirstMinimum | Result.cpp:102-152 | After any candidates a result is the first of the least ones within its limits and below what it held, taken whole, or unchanged if there is none |
| Results.BestIsLeast | Result.cpp:102-152 | Comparing never worsens a result, and no admitted candidate is better than it |
| Results.ScoreOrders | Result.cpp:109-145 | Each of the eight targets compares its own metric, the two products included |
| Results.ReplacedExactly | Result.cpp:102-150 | A candidate replaces a result exactly if it meets all eight limits and is strictly better in the metric of the target |
| Results.EightOptima | Result.cpp:102-152 | After any candidates each of the eight results is least in its own metric among those within the limits, field by field |
| Results.BelowWorstScores | Result.cpp:57-65 | Metrics below the sentinel beat an empty result on every target, products included |
| Results.Result.CompareAndUpdate | Result.cpp:102-152 | One comparison replaces organisation, metrics and both wires together or none of them |
| Results.Result.Reset | Result.cpp:91-100 | Forgets the metrics but keeps organisation, wires, target and limits |
| Refinement.WiresIn | macros.h:76-87 | The filtered loops list exactly the wires in range in the order of the loops, none twice, with low swing only where there is no repeater |
| Refinement.ListedExactly | macros.h:76-87 | The wires tried, by type, repeater and low swing |
| Refinement.ListedInOrder | macros.h:76-87 | Their order: by type, then by repeater, then without low swing first |
| Refinement.ListIsUnique | macros.h:76-87 | There is only one such list, so ties between wires are decided as the loops decide them |
| Refinement.TryAndUpdate | macros.h:104-121 | A trial builds the stored organisation with the given wires and never changes the organisation |
| Refinement.RefineLocal | main.cpp:304-319 | Every result, with its own global wire, is compared with all local wires |
| Refinement.RefineGlobal | main.cpp:320-332 | Every result, with its own local wire, is compared with all global wires |
| Refinement.LocalDescent | main.cpp:307-319 | After the local pass a result is no worse, differs at most in its local wire and is minimal over the wires tried |
| Refinement.GlobalDescent | main.cpp:320-332 | The same for the global pass |
| Refinement.ApplyLimits | main.cpp:406-419 | All eight limits are taken from the optima before any result is reset |
| Refinement.AllowedByMetric | main.cpp:407-416 | Each limit is the optimum of its own metric plus the allowed share of it |
| Refinement.GuardIsWithin | main.cpp:429-432 | The written-out guard and the limits of the results admit the same metrics |
| Refinement.GuardedSolutions | main.cpp:423-439 | The second pass compares exactly the feasible solutions of the first, in their order, and cannot newly violate the check |
| Refinement.GuardIsRedundant | main.cpp:429-436 | Filtering by the guard before comparing changes no result |
| Refinement.ConstrainedOptimum | main.cpp:406-440 | If any solution is counted, every result meets all eight limits and is the first of the best feasible ones |
| Program.DesignArray | main.cpp:285-440 | A whole run: exit exactly on a violation, otherwise the refined optima of the space, or the constrained ones with limits taken from them |
| Program.SolutionIsStable | macros.h:109-112 | A solution built again from its stored fields with its own wires is the same design |
| Program.ExploredDesign | main.cpp:286-302 | The explored result is an organisation of the searched space, evaluated with the wires it is stored with, and unbeaten in the space |
| Program.ReportedDesign | main.cpp:285-333 | After both refinements it still is, and valid; no tried local wire is better with the global wire of the exploration, and no tried global wire would improve it |
| Program.RefinedIsEvaluated | main.cpp:304-333 | Refinement keeps the organisation and the agreement of metrics with wires, and never worsens the metric |
| Program.InvalidIsWorst | macros.h:113-119 | An invalid trial has the worst of all metrics, so no result ever becomes invalid |
| Program.ConstrainedDesign | main.cpp:406-440 | The design reported under constraints is an organisation of the space, evaluated with its wires, within all limits and unbeaten among those within them |
| Program.CacheNeverViolates | main.cpp:184-302 | For a cache of powers of two neither the tag nor the data search can reach its capacity exit, in any access mode |
| Program.CacheWidths | main.cpp:188-277 | The widths of words, tags and addresses of both arrays of a cache, in each access mode |
| RepeatedWires.UnitsPositive | Wire.cpp:734-775 | Unit delay, energy and leakage of a repeated wire are positive |
| RepeatedWires.UnitsInParts | Wire.cpp:734-775 | Delay, energy and leakage of one repeater and its wire, in terms of the transistor models |
| RepeatedWires.AcceptsExactly | Wire.cpp:722 | The acceptance test without its divisions |
| RepeatedWires.AcceptedIsBetter | Wire.cpp:722 | Every accepted step lowers the product of energy and leakage |
| RepeatedWires.FinalIsBetter | Wire.cpp:718-728 | So does a whole scan, whose pick is one of the sizes scanned and within the delay budget |
| RepeatedWires.FinalAcceptsNoMore | Wire.cpp:718-728 | No smaller size that the scan goes on to would still be accepted after its pick |
| RepeatedWires.RepeatedWire.ScanSizes | Wire.cpp:718-728 | The loop over sizes ends with the pick of the greedy scan and leaves the size below one |
| RepeatedWires.RepeatedWire.FindPenalizedRepeater | Wire.cpp:703-732 | Both loops end; the spacing is unchanged, the delay within the penalty, and the size changes only for a smaller product of energy and leakage |
| PredecodeBlocks.CutIsExactAndLeast | PredecodeBlock.cpp:93-106 | The decoders use every bit once and number a third of the bits rounded up, the least for any decomposition |
| PredecodeBlocks.GroupsDecodeAddress | PredecodeBlock.cpp:107-163 | The lines of the groups multiply to the lines of the whole address |
| PredecodeBlocks.Shares | PredecodeBlock.cpp:107-162 | The decoders are shared as evenly as two or three groups allow, the larger groups first |
| PredecodeBlocks.StageSizesNeedOne | PredecodeBlock.cpp:163-164 | Above eighteen bits the sizes as computed do so exactly if the unset field held one |
| PredecodeBlocks.ZeroedStageSize | PredecodeBlock.cpp:163-164 | Nineteen bits over zeroed memory leave the first group without a line |
| PredecodeBlocks.PredecodeBlock.Initialize | PredecodeBlock.cpp:75-252 | Exits exactly above 27 bits; otherwise the stages are those of the number of bits, all decoders are connected, take in every bit, and each drives all lines of its group; the sizes multiply to all lines, from nineteen bits on exactly if the unset field held one |
| PredecodeBlocks.PredecodeBlock.SizeStages | PredecodeBlock.cpp:122-164 | The sizes written for each number of decoders, over whatever the first group's field held |
| PredecodeBlocks.ConnectGroupA | PredecodeBlock.cpp:201-237 | In each case of the first group, fan-out times outputs is the size of the group and no decoder is missing |
| OutputDrivers.FloorLog4Bracket | OutputDriver.cpp:77 | The stage estimate's logarithm is the exact floor |
| OutputDrivers.EstimateBelow | OutputDriver.cpp:77 | The estimated number of stages, exactly |
| OutputDrivers.MinDriverIsLeast | OutputDriver.cpp:65-66 | The driver width is the least that the process allows and that carries the current |
| OutputDrivers.LatencyHasStage | OutputDriver.cpp:77-93 | A latency-first chain is empty exactly if it need not invert and the effort is below eight |
| OutputDrivers.CapBreaksParity | OutputDriver.cpp:79-86 | An inverting chain stays odd under the cap exactly if the cap does not act, with the bound on the effort |
| OutputDrivers.TradeOffFits | OutputDriver.cpp:127-140 | The final driver of a trade-off chain fits the arrays exactly up to a given effort |
| OutputDrivers.TaperStep | OutputDriver.cpp:112-120 | For an effort of at least one each clamped stage is between its successor divided by the effort and its successor |
| OutputDrivers.TaperExactly | OutputDriver.cpp:112-120 | The width of every stage: the last one divided by a power of the effort, or the least width |
| OutputDrivers.LastStageEffort | OutputDriver.cpp:91-94 | With linear gates the last stage carries the load at no more than the effort per stage, and at exactly that unless it has the least width |
| OutputDrivers.EffortIsShared | OutputDriver.cpp:90-120 | In a chain that nowhere falls to the least width the driving gate bears the same effort as every stage |
| OutputDrivers.LatencyEffort | OutputDriver.cpp:76-104 | So it does in a latency-first chain, clamped or not |
| OutputDrivers.TradeOffEffort | OutputDriver.cpp:125-143 | And in a trade-off chain |
| OutputDrivers.TaperedIff | OutputDriver.cpp:112-120 | A chain within the widths of the process keeps every ratio of neighbours between one and the effort exactly if it has one stage or an effort of at least one |
| OutputDrivers.LatencyTaperedIff | OutputDriver.cpp:75-122 | A latency-first chain does exactly if it has one stage, was not clamped, or its clamped last stage loads the chain at least as much as its input; otherwise a stage exceeds the greatest width |
| OutputDrivers.TradeOffIsTapered | OutputDriver.cpp:124-153 | A trade-off chain always does, and has the parity asked for |
| OutputDrivers.ChosenTaperedIff | OutputDriver.cpp:75-163 | The same for whatever chain is chosen, which always carries the load current and fits the arrays, with its parity |
| OutputDrivers.GateLoadsItself | RowDecoder.cpp:74-95 | For an inverter or NAND of the program and linear gates, the widest last stage loads the gate at least as much as its input exactly if the greatest width is not below the least |
| OutputDrivers.DriversAreTapered | OutputDriver.cpp:75-163 | So every valid driver that the program builds keeps all widths in range and all ratios between one and its effort, clamped or not |
| OutputDrivers.GateTradeOffEffort | OutputDriver.cpp:125-127 | The effort of a trade-off chain of such a gate is the width of its last stage over the least width |
| OutputDrivers.DriversStayInArrays | OutputDriver.cpp:124-140 | A driver of the program stays inside its arrays exactly if no trade-off chain ends in a stage of 4^20 / 2 least widths or more |
| OutputDrivers.ClampedChainWidens | OutputDriver.cpp:96-104 | With a poly wire capacitance, which no technology of the program has, an inverter of least width can drive three stages of which the clamped last one is the narrowest |
| OutputDrivers.ParityLost | OutputDriver.cpp:82-86 | An effort of 4^21 gives an inverting chain twenty stages |
| OutputDrivers.OutsideTheArrays | OutputDriver.cpp:93-140 | A demand at which the source would index before its arrays, and one of an inverter of least width, on a process of 4^20 least widths, behind them |
| OutputDrivers.RootAtLeastOne | OutputDriver.cpp:90 | The effort per stage is at least one exactly if that of the chain is |
| OutputDrivers.RelativeEffort | OutputDriver.cpp:100-103 | After clamping the last stage the effort stays at least one exactly if that stage loads the chain at least as much as its input does |
| OutputDrivers.OutputDriver.FillChain | OutputDriver.cpp:110-120 | The loop fills the arrays from the last stage to the first with the clamped taper |
| OutputDrivers.OutputDriver.SizeForLatency | OutputDriver.cpp:75-122 | Too weak exactly if the last stage, clamped or not, does not carry the current; otherwise both arrays hold the latency-first chain, every width of it |
| OutputDrivers.OutputDriver.SizeForTradeOff | OutputDriver.cpp:124-153 | Both arrays hold the chain that ends in the narrowest driver for the load current, every width of it |
| OutputDrivers.OutputDriver.Initialize | OutputDriver.cpp:52-169 | Newly invalid exactly if no allowed width carries the current; otherwise both arrays hold the chosen chain, which is the trade-off one where the latency-first one is too weak |

## Left out

- Content-addressable memories, multi-level NAND and the other organisations that the program rejects or marks as unfinished.
- Device physics: areas, capacitances, latencies and powers are values of unknown functions; the aspect-ratio test of CalculateArea and the check of the global sense amplifier count as rejections by the physics.
- Floating-point rounding, and the wrap-around of 32-bit shifts and products.
- Reading configuration and cell files, printing, and CSV output, also of each explored point; the full-exploration mode is the same search.
- The pruning block of the main program, which only assigns limits.
- The constants of REDUCE_SEARCH_SIZE and RESTORE_SEARCH_SIZE: bounds and wire ranges are parameters, under the conditions that the counts start at one or more and low swing is a truth value. The main program's return after a tag search without a solution is not modelled.
- INITIAL_BASIC_WIRE: the wires of the exploration are parameters.
- Pointers and their ownership. An H-tree bank gets new arrays from each initialisation.
- The order in which decoders and drivers are created inside a predecoder, and their electrical loads: only counts, widths and fan-outs are kept.
- A mat keeps the bit widths of its predecoders but does not hold PredecodeBlock objects, so their exit above 27 bits is stated for the block alone.
- The wires' share of a bank's height and width (BankWithHtree.cpp:507-514), and its case of no wire sharing a width; lengths are modelled for at least one.
- SearchLaws.DataSearchExits, SearchLaws.TagSearchExits, BankLaws.CapacityConserved: stated for loop minima that are powers of two, as the search has them unless an organisation is forced; forced organisations of other sizes are initialised as in the source but covered by no capacity law.
- BankLaws.TreeRefinesDirect: stated for a power-of-two grid of mats, since the levels of a tree halve it, and for data a power-of-two associativity, which the program demands.
- BankLaws.DeliveredWidth: the width of an unevenly cut word is its evenly cut part, because the source drops the remainder.
- MatLaws.MatConservesAddressBits: stated for multiplexers of powers of two, since otherwise a rounded logarithm is not an address width.
- OutputDrivers.OutputDriver.Initialize: requires that the source stays inside its arrays, for the branches it takes; LatencyHasStage and TradeOffFits give that as bounds on the effort.
- OutputDrivers.FloorLog4Bracket: the quotient of two floating-point logarithms is taken as the exact base-four logarithm.
- RepeatedWires.RepeatedWire.FindPenalizedRepeater: stated for a positive size and spacing and for positive transistor values, which is where the source's quotients are defined.

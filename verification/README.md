# Verified model of the tensor-unit functional simulator

This project models, in Dafny, the parts of the TinyTU C simulator that schedule, move and combine data, and proves what
they promise for every input, every configuration in range and every run. `dafny verify dfyconfig.toml` checks all of it.

What is modelled, and where:

- **DMA descriptor engine.** `DmaEngine` is the engine as a state machine: submission with five binding policies, tick
  with four arbiters over one shared bus or independent channels, flush, credits, cursor, "continue this visit" and
  scheduler delay. Deficit round robin (DRR) is stated in closed form (`DrrArbiter`). `DmaEngineLoop` is the engine as an
  object whose methods scan, grant, charge and start in loops, each proved to take the state to the one `DmaEngine` names.
  `DmaRuns` defines runs under one configuration, `DrrSetters` what the setters do to a live engine, and `LiveRuns` runs
  that also change settings and share the memory with other accesses. `DmaInvariants` and `DrrLedger` are about live runs;
  `DrrFairness`, `DmaWaiting`, `AgingWaiting` and `TimingOnly` about runs under one configuration; `DrrSettings` says what
  survives a change, and `DrrExamples` reaches states in which something does not. Four modules tell one step in the
  fields of configuration, channels and descriptors alone, without the functions the loops are proved against:
  `EngineInFields` (retiring, starting, completion times), `DrrInFields`, `RankInFields` (who wins and what is left
  behind) and `SubmitInFields` (binding, acceptance, effects).
- **Service cost.** `BurstSplit` (cutting a segment into bursts), `ServiceCost` (bursts, beats, issue, latency, DRR
  charge), `CostBounds` (how the options relate) and `CostInFields` (the cost from the addresses of the copies made).
- **Admission and copying.** `Descriptor`, `Constructors` (the functions that build descriptors), `SramSpans` (the
  admission check against the bytes the copy loops touch), `CopiesInFields` (the same in fields), `Transfers` (the copy
  loops, and what a store after a load gives back) and `Multicasts` (the loop over several regions).
- **SRAM bandwidth.** `Sram` (budgets, metering), `SramRefill` (what a passed window gives back), `SramRegion` (the region
  as an object) and `DmaBandwidth` (what DMA transfers take from the budgets, alone and among other accesses).
- **Attention and softmax.** `SoftmaxLaws`, `Streaming` (what rows hold after each tile, and what the result means),
  `SoftmaxSums` (textbook softmax as sums), `AttentionLoops` (the loops over arrays), `AttentionTiling` (the tile
  chooser), `FloatRules` (infinities and NaN) and `SoftmaxRows` (the two row algorithms).
- **Convolution and matrix unit.** `Convolution`, `ConvolutionLoops`, `Mma`, and over nested tensors that the flat arrays
  flatten, `Tensors`, `ConvolutionTensors` and `MmaTensors`.
- **Interconnect.** `Cluster` (distances, neighbours, routes), `ClusterPaths` (shortest walks) and `ClusterTraffic` (walks
  over the link table, estimate).
- `Words`, `Cursors` and `Grids` hold shared arithmetic: C's fixed widths, rotating cursors, row-major numbering.

Conventions. Integers are exact unless a C width matters; then it is written out (`Wrap32`, `Wrap64`, `SatAdd`). Floating
point is modelled by exact reals, with infinities and NaN where they can arise (`SoftmaxLaws.Score`, `FloatRules`), the
exponential by any function with the laws in `SoftmaxLaws.IsExponential`, and conversions between FP16 and FP32 by the
identity. Validated configuration ranges are preconditions (`ValidConfig`, `ValidCost`, `ValidNet`). Error returns are
`Option` results or booleans.

Findings where the code differs from its documentation or from what one might expect:

- The cut-off at 87 below the running maximum makes tiled attention depend on the tile width: `Streaming.StreamingIsSoftmax`
  gives the exact condition under which it is softmax, `Streaming.CutOffDependsOnTiles` an input on which widths differ.
- The two softmax row algorithms are documented as alternatives. On a row with a finite score and no NaN or positive
  infinity they agree exactly if the first entry is not masked and no finite score lies more than 87 below the maximum
  (`SoftmaxRows.RowsAgree`, which also settles all other rows). A masked first entry turns the online sum into NaN for good
  (`SoftmaxRows.LeadingMaskPoisons`), and the row is then divided by its length: `SoftmaxRows.MaskedFirstEntry` is an input
  whose probabilities add up to one half. `SoftmaxRows.WideRowDiffers` is one for the cut-off.
- tu_cmodel/compute/softmax_engine.c:37-38 and docs/TU_SOFTMAX.md:65,192 promise a uniform row when all inputs are negative
  infinity. The code subtracts negative infinity from itself there: a two-pass entry is NaN exactly if no score is finite or
  some score is NaN or positive infinity (`SoftmaxRows.TwoPassNaN`; `SoftmaxRows.FullyMaskedIsNaN` is the input), and the
  branch for a sum of zero is never taken (`SoftmaxRows.UniformNeverTaken`).
- The output-dimension check divides toward zero, so it accepts a kernel larger than the padded input by less than a stride
  (`Convolution.AcceptedExactly`, `Convolution.OversizedKernelAccepted`).
- Span admission refuses a descriptor whose 32-bit row width wraps even if the copy would touch nothing
  (`SramSpans.WrappedWidthRefused`); `SramSpans.AdmissionExact` carries the width condition for that reason.
- Changing the DRR service or weights on a live engine ends a visit without clearing its credit; the credit bound survives
  exactly if that credit is below the largest cost (`DrrSettings.ChangeKeepsBound`).
  `DrrExamples.ServiceChangeBreaksBound` reaches a state in three steps in which it is not. A new round-issue or round-cost
  value clears credits, so it is timing only exactly if there were none (`DrrSettings.RoundPricingClears`;
  `DrrExamples.NewRoundIssueLosesCredit` has some).
- A mesh routing reaches every core from every core exactly if the rows are full or there is only one
  (`Cluster.MeshComplete`, with the pair it fails for otherwise; `Cluster.RaggedMeshFails` is the smallest case). The
  traffic estimate then reports an error although a distance exists.

## Model

| member | source | states |
|---|---|---|
| BurstSplit.Split | tu_cmodel/dma_descriptor.c:1370-1398 | The greedy cut is legal: positive bursts that add up to the segment, none above the limit or across an active boundary |
| BurstSplit.AddAddressBoundedSegment | tu_cmodel/dma_descriptor.c:1370-1398 | The loop terminates and adds exactly the cut's bursts and beats to the totals |
| BurstSplit.SplitIsMinimal | tu_cmodel/dma_descriptor.c:1370-1398 | No legal cut of a segment has fewer bursts than the greedy one |
| BurstSplit.GreedyStaysAhead | tu_cmodel/dma_descriptor.c:1370-1398 | Started anywhere ahead of a legal cut, the greedy cut needs no more bursts than that cut |
| BurstSplit.AlignedBlocksTouched | tu_cmodel/dma_descriptor.c:1370-1398 | With only SRAM bounded at the burst size, bursts are the aligned blocks the segment touches |
| BurstSplit.UnboundedSplit | tu_cmodel/dma_descriptor.c:1490-1516 | Without boundaries the loop gives the closed forms of the size-only mode for bursts and beats |
| BurstSplit.SplitIgnoresWholeBoundaries | tu_cmodel/dma_descriptor.c:1370-1398 | Moving the external address by whole boundaries changes nothing, so its 64-bit wrap-around is harmless |
| BurstSplit.CutBeatsAtLeastWhole | tu_cmodel/dma_descriptor.c:1370-1398 | Cutting a segment never needs fewer beats than moving it whole |
| ServiceCost.AddressBoundedTotals | tu_cmodel/dma_descriptor.c:1404-1488 | The walk over all pieces of a descriptor yields the burst and beat totals of their cuts |
| CostBounds.WalkWithoutBoundaries | tu_cmodel/dma_descriptor.c:1404-1537 | In size-only mode the walk equals the closed forms used instead of it |
| CostBounds.WalkBounds | tu_cmodel/dma_descriptor.c:1404-1488 | Totals of the walk lie between the size-only figures and the bytes |
| CostBounds.BoundaryNeverSavesBursts | tu_cmodel/dma_descriptor.c:1490-1505 | Turning an address boundary on never lowers the burst count, for every shape and segmentation of exact size |
| CostBounds.PayloadBounds | tu_cmodel/dma_descriptor.c:1518-1537 | Under every scope and boundary, payload cycles lie between the packed transfer and one beat per byte |
| CostBounds.FinerScopeCostsMore | tu_cmodel/dma_descriptor.c:1518-1537 | Packed, per-segment and per-burst payload are ordered for every shape, under logical segmentation or any address boundary |
| CostBounds.OccupiedCoversUseful | tu_cmodel/dma_descriptor.c:1580-1597 | Occupied bytes, and the charge based on them, are at least the useful bytes when the size product does not wrap |
| CostBounds.OverlapBetween | tu_cmodel/dma_descriptor.c:1556-1570 | Overlapped time lies between the slower stage and both in sequence, with the exact case of equality |
| CostBounds.RoundedCharge | tu_cmodel/dma_descriptor.c:1580-1597 | Quantum rounding charges the least multiple of the quantum that covers the exact cost, or the largest 64-bit value exactly where rounding would leave 64 bits; it never adds a whole quantum |
| CostBounds.Built2DIsExact | tu_cmodel/dma_descriptor.c:869-909 | A 2D constructor's size is exact if its product fits 32 bits |
| CostBounds.Built3DIsExact | tu_cmodel/dma_descriptor.c:912-958 | The same for 3D |
| CostBounds.BuiltMulticastIsExact | tu_cmodel/dma_descriptor.c:1030-1068 | The same for multicast |
| CostBounds.BuiltIndexedIsExact | tu_cmodel/dma_descriptor.c:980-1028 | The same for scatter and gather |
| CostInFields.WalkVisitsCopies | tu_cmodel/dma_descriptor.c:1404-1488 | Piece k of the cost walk is the k-th copy of the transfer: its SRAM offset, its length, and the bus address of its host side, for every shape of exact size |
| CostInFields.AllCopiesVisited | tu_cmodel/dma_descriptor.c:1404-1488 | The walk visits every copy and no more |
| CostInFields.GreedyIsSplit | tu_cmodel/dma_descriptor.c:1370-1398 | The engine cuts a copy into the one list of bursts that stay within the limit of their direction and inside one block of the sides the boundary mode bounds, and of which none could be longer |
| CostInFields.BoundedCost | tu_cmodel/dma_descriptor.c:1404-1537 | With an address boundary, bursts and burst-aligned beats of a transfer are those of the greedy cuts of its copies |
| CostInFields.BoundedCostIsLeast | tu_cmodel/dma_descriptor.c:1404-1505 | No way to cut the copies of a transfer into allowed bursts has fewer |
| CostInFields.SizedBursts | tu_cmodel/dma_descriptor.c:1490-1505 | Without an address boundary bursts are the least number that covers the transfer, or that number for each segment |
| CostInFields.SizedPayload | tu_cmodel/dma_descriptor.c:1507-1537 | Data beats packed, per segment and per burst, in the sizes of the transfer |
| CostInFields.TransferTime | tu_cmodel/dma_descriptor.c:1539-1578 | A transfer takes latency once or per segment, then issues and payload one after the other or overlapped behind the first issue, each of the direction it has |
| CostInFields.EmptyTransferTime | tu_cmodel/dma_descriptor.c:1539-1578 | A transfer of nothing takes its latency, unless that is counted per segment |
| CostInFields.ChargeInFields | tu_cmodel/dma_descriptor.c:1580-1597 | The charge is the bytes moved, the bytes the bus is occupied for, or the cycles, exact or rounded up to whole quanta |
| CostInFields.StrideCostsABurst | tu_cmodel/dma_descriptor.c:1404-1488 | Two rows of 64 bytes that lie 96 bytes apart need three bursts where packed rows need two |
| Constructors.LinearIsBuilt | tu_cmodel/dma_descriptor.c:834-867 | The linear constructor builds what the other results call built, in every direction |
| Constructors.Strided2DIsBuilt | tu_cmodel/dma_descriptor.c:869-909 | The 2D constructor too |
| Constructors.Strided3DIsBuilt | tu_cmodel/dma_descriptor.c:912-958 | The 3D constructor too |
| Constructors.IndexedIsBuilt | tu_cmodel/dma_descriptor.c:980-1028 | The scatter and gather constructors too |
| Constructors.MulticastIsBuilt | tu_cmodel/dma_descriptor.c:1030-1068 | The multicast constructor too, where it returns a descriptor |
| Constructors.StaysBuilt | tu_cmodel/dma_descriptor.c:971-977 | Setting a bus address or a priority keeps a descriptor built |
| SramSpans.AdmissionExact | tu_cmodel/dma_descriptor.c:1200-1317 | For every descriptor a constructor builds, the check accepts exactly if it is a multicast or its direction's SRAM side names a region, its 32-bit row width is the real one, every SRAM byte the copies touch lies in its region, and unstrided ranges, empty ones included, start inside it |
| CopiesInFields.AdmissionInFields | tu_cmodel/dma_descriptor.c:1200-1317 | The same in fields: a built load or store is accepted exactly if its destination or source names a region that has every byte it means to move, a multicast exactly if every target does, and a TU-to-TU descriptor never |
| SramSpans.EndsDecide | tu_cmodel/dma_descriptor.c:1200-1317 | Checking the ends of pieces decides about all their bytes |
| SramSpans.LastSliceDecides | tu_cmodel/dma_descriptor.c:1218-1233 | The last row of the last slice decides a 3D span |
| SramSpans.WrappedWidthRefused | tu_cmodel/dma_descriptor.c:1207-1233 | A wrapped row width is refused although the copy touches nothing |
| SramSpans.MulticastSkipUnreachable | tu_cmodel/dma_descriptor.c:1166-1186 | After admission the multicast loop's own overflow test never skips a target |
| Transfers.CopyBytes | tu_cmodel/dma_descriptor.c:1087-1095 | A byte loop replaces exactly the destination range by the source range |
| Transfers.CopyRows | tu_cmodel/dma_descriptor.c:1097-1114 | The row loop performs the listed row copies in order |
| Transfers.ExecuteLinear | tu_cmodel/dma_descriptor.c:1087-1095 | A linear transfer performs its one piece |
| Transfers.ExecuteStrided2D | tu_cmodel/dma_descriptor.c:1097-1114 | The 2D loops perform the pieces the admission check looked at |
| Transfers.ExecuteStrided3D | tu_cmodel/dma_descriptor.c:1116-1142 | The same for 3D, slice by slice |
| Transfers.ExecuteIndexed | tu_cmodel/dma_descriptor.c:1144-1164 | The scatter and gather loops perform one piece per index, in order |
| Multicasts.ExecuteMulticast | tu_cmodel/dma_descriptor.c:1166-1186 | The loop over the targets performs one copy per target, in order, and its own overflow test skips none |
| Multicasts.AdmittedFits | tu_cmodel/dma_descriptor.c:1166-1186 | Every admitted multicast meets what that loop relies on |
| Multicasts.LastTargetWins | tu_cmodel/dma_descriptor.c:1166-1186 | Afterwards a byte that some target covers holds the source byte of the last such target, and every other byte is as before |
| Transfers.StoreUndoesLoad | tu_cmodel/dma_descriptor.c:1087-1164 | A store after a load (gather after scatter) restores every host byte read and no other, and SRAM outside the ranges is unchanged, when the SRAM ranges are disjoint |
| Transfers.CopiedSurvives | tu_cmodel/dma_descriptor.c:1097-1164 | With disjoint destinations every copied byte survives later copies |
| Transfers.OutsideUntouched | tu_cmodel/dma_descriptor.c:1097-1164 | Bytes outside all destination ranges keep their value |
| Sram.BudgetHolds | tu_cmodel/tu_sram.c:21-131 | In every run each bank serves at most one grant per refill window begun |
| Sram.BanksAfterRun | tu_cmodel/tu_sram.c:21-46 | After consecutive words each bank has lost its hits from its budget and counted the rest as stalls |
| Sram.StallsAreExcess | tu_cmodel/tu_sram.c:145-157 | An access stalls the penalty times the sum over banks of hits beyond the budget |
| Sram.SpanCountsWordsMet | tu_cmodel/tu_sram.c:145-157 | Address-span metering counts exactly the aligned words the byte range meets |
| Sram.SpanAgainstSize | tu_cmodel/tu_sram.c:145-157 | Address-span metering sees the size-only count or one more, with the exact case |
| SramRefill.RefillRestores | tu_cmodel/tu_sram.c:108-131 | Passing time gives the whole grant back to exactly the banks whose window has passed, and changes nothing else |
| SramRefill.EvenHits | tu_cmodel/tu_sram.c:21-46 | Consecutive words hit each bank once per full round, and the rest the banks next in turn |
| SramRefill.StallFreeExactly | tu_cmodel/tu_sram.c:108-157 | Once every window has passed, consecutive words move without a stall exactly as long as they are no more than the grants of all banks together, or a stall costs nothing |
| SramRegion.Region.BwConsume | tu_cmodel/tu_sram.c:21-46 | One word is served or stalls, as the bank function says |
| SramRegion.Region.MeterAccess | tu_cmodel/tu_sram.c:145-157 | The metering loop charges the counted words to consecutive banks |
| SramRegion.Region.RefillBw | tu_cmodel/tu_sram.c:114-131 | Refill restores the budget of every bank whose window has passed, and of no other |
| SramRegion.Region.AdvanceCycle | tu_cmodel/tu_sram.c:108-112 | Advancing moves the clock and refills |
| SramRegion.Region.ReadBulk | tu_cmodel/tu_sram.c:200-208 | A read returns the range and is metered, or has no effect when out of range |
| SramRegion.Region.WriteBulk | tu_cmodel/tu_sram.c:210-218 | A write replaces exactly the range and is metered, or has no effect when out of range |
| DmaBandwidth.StallIsAccess | tu_cmodel/dma_descriptor.c:1704-1729 | A transfer's word loop stalls, and leaves the banks, as a metered access of those words would, while its 32-bit offsets do not wrap |
| EngineInFields.StallInFields | tu_cmodel/dma_descriptor.c:1704-1729 | A transfer stalls the penalty for every word beyond what its bank has left, after its own bus time has passed for the region it is charged to |
| EngineInFields.MetersInFields | tu_cmodel/dma_descriptor.c:1704-1729 | Each bank of that region, and of no other, serves or stalls the words that fall on it, as writes for a load and reads for a store |
| EngineInFields.NoStall | tu_cmodel/dma_descriptor.c:1704-1729 | Multicasts, and transfers of a region whose bandwidth is not modelled, stall nothing and leave the meters |
| DmaBandwidth.TrafficWithinBudget | tu_cmodel/dma_descriptor.c:1704-1729 | In every live run, whatever DMA traffic and other accesses share a region, no bank serves more than one grant per refill window begun |
| DrrArbiter.NeedIsThreshold | tu_cmodel/dma_descriptor.c:2030-2050 | A head becomes affordable at visit max(1, ceil((cost - credit) / grant)), one later while its visit continues, saturation included |
| DrrArbiter.BestIsBest | tu_cmodel/dma_descriptor.c:2011-2076 | The closed form picks the fewest visits needed, the earliest probe among equals |
| DrrArbiter.VerdictUnique | tu_cmodel/dma_descriptor.c:2011-2076 | Exactly one verdict meets that description |
| DmaEngine.WinnerCanPay | tu_cmodel/dma_descriptor.c:2045-2052 | The verdict's winner can afford its head in the verdict's round |
| DmaEngine.BestRankIsBest | tu_cmodel/dma_descriptor.c:2078-2091 | The best rank is the maximum over waiting heads |
| DmaEngine.FirstEligibleIsFirst | tu_cmodel/dma_descriptor.c:2092-2105 | No probe before the served one is eligible |
| RankInFields.RankTick | tu_cmodel/dma_descriptor.c:2078-2117 | A tick of round robin, strict or aging priority that finds the bus free starts the waiting head of greatest standing, nearest the cursor among equals: none, the descriptor's priority, or that priority plus a capped boost per quantum waited or grant missed since submission or heading the queue, at most 255. The cursor moves past it, the epoch counts on, and the next head starts to age |
| RankInFields.RankIsStanding | tu_cmodel/dma_descriptor.c:1893-1920 | The rank the loops compare is nothing under round robin, the descriptor's priority under strict priority, and its aged priority, by both metrics and scopes and with the cap, under aging |
| DrrInFields.DrrTick | tu_cmodel/dma_descriptor.c:2001-2076 | A tick of DRR that finds the bus free starts the first head, in cursor order and lap by lap, that its credit covers when each visit adds the configured quantum times the configured weight; every channel's credit, the cursor, the continuation and the clock afterwards |
| DrrInFields.FreshVisitAdds | tu_cmodel/dma_descriptor.c:2026-2044 | A visit that continues none adds the quantum of the cost mode times the weight, or times one if that is zero, up to 64 bits |
| EngineInFields.BusFreedExactly | tu_cmodel/dma_descriptor.c:1980-2009 | A tick finds the shared bus free exactly if whatever is active is over when the clock has advanced |
| EngineInFields.SharedTick | tu_cmodel/dma_descriptor.c:1976-2123 | On a shared bus a tick retires and counts exactly what is over, takes at most the head of a queue, and does that only when the bus is free |
| EngineInFields.IndependentTick | tu_cmodel/dma_descriptor.c:1976-1999 | On independent channels each channel retires what is over, and then starts its head exactly if it has one and its slot is free |
| EngineInFields.StartedOccupies | tu_cmodel/dma_descriptor.c:1682-1732 | What a tick of the shared bus starts completes after its bus time and stalls, counted from the clock arbitration left, or at once without a host pointer |
| Cursors.FirstLeastIsFirst | tu_cmodel/dma_descriptor.c:1797-1838 | The binding search finds the least load, its earliest probe, and fails exactly if no load is below the limit |
| SubmitInFields.Submission | tu_cmodel/dma_descriptor.c:1771-1891 | A built descriptor goes to the channel the policy names: the caller's, the next in turn, or the one with the fewest transfers, bytes or remaining cycles, first in turn among equals. It is accepted exactly if its bytes exist, a needed bus address is given and that channel exists and has room; then it joins the queue, or is executed with all before it, and otherwise nothing changes |
| SubmitInFields.ChoiceIsLeast | tu_cmodel/dma_descriptor.c:1797-1838 | A least-burden policy binds to the channel of least transfers, bytes or cycles, and keeps the caller's channel only if none is below the limit |
| DmaEngineLoop.EarliestLeast | tu_cmodel/dma_descriptor.c:1797-1838 | The search loop computes that choice |
| DmaEngineLoop.Engine.constructor | tu_cmodel/dma_descriptor.c:240-250 | A new engine is empty with its cursors at zero |
| DmaEngineLoop.Engine.ArbitrateDrrLoop | tu_cmodel/dma_descriptor.c:2011-2076 | The unbounded selection loop terminates and gives the closed-form state: winner, credits, cursor, continuation, clock |
| DmaEngineLoop.Engine.ScanRound | tu_cmodel/dma_descriptor.c:2013-2072 | One round of visits either starts the closed form's winner or leaves every credit one visit further |
| DmaEngineLoop.Engine.Visit | tu_cmodel/dma_descriptor.c:2014-2048 | A visit resets or grants credit and tells whether the head is affordable |
| DmaEngineLoop.VisitAgainstVerdict | tu_cmodel/dma_descriptor.c:2011-2076 | A visit meets an affordable head exactly when the closed form names it |
| DmaEngineLoop.Engine.ArbitrateRankLoop | tu_cmodel/dma_descriptor.c:2078-2117 | The round-robin and priority loops serve the first head of best rank from the cursor |
| DmaEngineLoop.Engine.TickOnce | tu_cmodel/dma_descriptor.c:1976-2123 | A tick takes the engine to the specified state and returns the number of transfers retired |
| DmaEngineLoop.Engine.RetireChannel | tu_cmodel/dma_descriptor.c:1980-1999 | Retiring and, on independent channels, starting, one channel at a time |
| DmaEngineLoop.Engine.SubmitOne | tu_cmodel/dma_descriptor.c:1771-1891 | A submission is accepted exactly if admissible, which for built descriptors is `SubmitInFields.MayJoin` in fields, with every rejection before any change, and leaves the specified state |
| DmaEngineLoop.Engine.DrainQueue | tu_cmodel/dma_descriptor.c:1876-1888 | The synchronous loop executes a whole queue, head first, and counts it completed |
| DmaEngineLoop.Engine.FlushChannel | tu_cmodel/dma_descriptor.c:2125-2146 | A flush executes what is queued and retires the active transfer |
| DmaEngineLoop.Engine.Change | tu_cmodel/dma_descriptor.c:252-346 | A setter refuses arguments out of range, or installs the setting and clears exactly the credits the setting clears |
| DmaEngineLoop.Engine.SetService | tu_cmodel/dma_descriptor.c:252-273 | Takes service mode and weights, ends the visit, and refuses vectors with some zeros |
| DmaEngineLoop.Engine.SetIdlePolicy | tu_cmodel/dma_descriptor.c:276-291 | Takes the idle policy and, switching to reset, the credits of idle channels |
| DmaEngineLoop.Engine.SetCostGranularity | tu_cmodel/dma_descriptor.c:293-308 | Takes the rounding of charges and, if it is new, all credits |
| DmaEngineLoop.Engine.SetRoundIssue | tu_cmodel/dma_descriptor.c:310-322 | Takes the round-issue cycles and, if they are new, all credits |
| DmaEngineLoop.Engine.SetRoundCostMode | tu_cmodel/dma_descriptor.c:324-337 | Takes the round-cost mode and, if it is new, all credits |
| DmaInvariants.FirstInFirstOut | tu_cmodel/dma_descriptor.c:1771-2146 | In every live run the transfers started on a channel, followed by its queue, are the accepted submissions in order |
| DmaInvariants.ReachableSound | tu_cmodel/dma_descriptor.c:1771-2146 | In every state a live run reaches, submitted is completed plus queued plus active, depth is within its limit, and a shared bus has one user at most |
| DmaInvariants.BusNeverIdles | tu_cmodel/dma_descriptor.c:2001-2121 | A tick that finds the shared bus free starts exactly one transfer if anything waits, under every policy |
| DmaInvariants.ServiceDisjoint | tu_cmodel/dma_descriptor.c:1976-2123 | Service intervals of a shared bus are ordered and disjoint in every live run without flush, while the clock lasts |
| DmaRuns.RetireShared | tu_cmodel/dma_descriptor.c:1976-1999 | On a shared bus, retiring changes the clock and the active slots only |
| DrrFairness.CreditsBounded | tu_cmodel/dma_descriptor.c:2018-2067 | Work-conserving with idle reset: in every reachable state a credit is below the largest cost, plus one grant while its visit continues |
| DrrFairness.StepBounded | tu_cmodel/dma_descriptor.c:2018-2067 | Every event keeps that bound |
| DrrFairness.RunLedger | tu_cmodel/dma_descriptor.c:2018-2067 | Over a backlogged interval credit moves by grants less charges exactly |
| DrrFairness.RunSweep | tu_cmodel/dma_descriptor.c:2013-2069 | Grants of a backlogged channel are the cursor's turns, up to its side of the cursor |
| DrrFairness.EqualGrants | tu_cmodel/dma_descriptor.c:2013-2069 | Two channels backlogged over an interval are granted equally often, up to one |
| DrrFairness.WeightedFairness | tu_cmodel/dma_descriptor.c:2010-2076 | Over any interval of any run in which two channels stay backlogged, served cost per configured weight, where zero counts as one, differs by less than three quanta plus one largest cost per weight of each |
| DrrFairness.ByteFairness | tu_cmodel/dma_descriptor.c:2010-2076 | With exact charging of useful bytes the same of the bytes served, in configured quantum and weights alone |
| DrrLedger.Ledger | tu_cmodel/dma_descriptor.c:2018-2067 | In every state a live run reaches, under every service and idle mode, credit is what was granted less what was charged, forfeited to the idle policy or a setter, and lost to 64-bit saturation |
| DrrLedger.StepBooks | tu_cmodel/dma_descriptor.c:2018-2067 | Every step balances those entries for every channel, saturating or not |
| DrrLedger.ForfeitsAreLosses | tu_cmodel/dma_descriptor.c:2018-2058 | Forfeits are never negative, and zero when residual credit is retained |
| DrrSetters.ChangeIsValid | tu_cmodel/dma_descriptor.c:252-346 | Every setter leaves a valid engine, and a refused one changes nothing |
| DrrSettings.ChangeKeepsBound | tu_cmodel/dma_descriptor.c:252-346 | Every setter keeps the credit bound except a change of service during a visit, which keeps it exactly if that credit is below the largest cost |
| DrrSettings.PricingKeepsSame | tu_cmodel/dma_descriptor.c:339-346 | Select-issue and scan-width changes on a live engine stay timing only |
| DrrSettings.RoundPricingClears | tu_cmodel/dma_descriptor.c:310-337 | A new round-issue or round-cost value is timing only exactly if there was no credit and no visit to lose |
| DrrExamples.ServiceChangeBreaksBound | tu_cmodel/dma_descriptor.c:252-273 | A state two submissions and a tick reach, within the credit bound, that a change of service takes outside it |
| DrrExamples.NewRoundIssueLosesCredit | tu_cmodel/dma_descriptor.c:310-337 | In the same state a new round-issue value loses credit, so the engine no longer matches one left alone |
| DmaWaiting.InterleavedBoundedWaiting | tu_cmodel/dma_descriptor.c:2014-2070 | Interleaved service: a head is started after at most n - 1 others per visit it still needs, in every run |
| DmaWaiting.InterleavedWait | tu_cmodel/dma_descriptor.c:2014-2070 | Each transfer started instead uses up one of the positions ahead of the head |
| DmaWaiting.NeedDrops | tu_cmodel/dma_descriptor.c:2030-2048 | Unsuccessful visits bring the need down one for one |
| AgingWaiting.AgingBoundedWaiting | tu_cmodel/dma_descriptor.c:1893-1920 | Uncapped missed-grant aging: a head is served after at most ceil((255 - priority) / increment) + n - 1 grants to others |
| AgingWaiting.TopWhenAged | tu_cmodel/dma_descriptor.c:1893-1920 | A head reaches top priority exactly when its age reaches that patience |
| AgingWaiting.ServeOvertakes | tu_cmodel/dma_descriptor.c:2092-2117 | Each grant to another channel ages the head and uses up one of the grants left, also once priorities have saturated |
| TimingOnly.KnobsAreTimingOnly | tu_cmodel/dma_descriptor.c:1944-2076 | DRR engines that differ from the start only in scan-pricing knobs start and complete the same transfers on the same ticks, with equal credits, cursor and continuation, up to a clock offset |
| TimingOnly.TickSame | tu_cmodel/dma_descriptor.c:1976-2076 | One tick keeps two such engines in step |
| SoftmaxLaws.MassRebase | tu_cmodel/compute/attention_engine.c:90-97 | Moving the reference maximum multiplies every weighted sum of exponentials by the same factor |
| SoftmaxLaws.TopIsHighest | tu_cmodel/compute/attention_engine.c:103-116 | The running maximum is reached by a score or the start and exceeded by none |
| Streaming.AbsorbTile | tu_cmodel/compute/attention_engine.c:98-148 | Rescaling and adding one tile takes max, sum and accumulator from one tile boundary to the next |
| Streaming.SumPositive | tu_cmodel/compute/attention_engine.c:116-128 | The row sum is positive once any score was finite, so the zero test detects exactly the empty row |
| Streaming.StreamingIsSoftmax | tu_cmodel/compute/attention_engine.c:363-518 | Tiled attention is softmax of the whole row for every column of values exactly if no finite score is more than 87 below the maximum seen in its tile |
| Streaming.TilingIndependent | tu_cmodel/compute/attention_engine.c:363-518 | Two tile widths agree on every column of values exactly if they keep the same scores |
| Streaming.TilesKeepMore | tu_cmodel/compute/attention_engine.c:117-125 | Tiling never drops a score the whole row keeps |
| Streaming.NarrowSpread | tu_cmodel/compute/attention_engine.c:98-148 | Scores within 87 of each other give softmax under every tile width, ragged last tile included |
| Streaming.FullyMasked | tu_cmodel/compute/attention_engine.c:90-97 | A fully masked row gives zero |
| Streaming.CutOffDependsOnTiles | tu_cmodel/compute/attention_engine.c:117-125 | An input on which tile widths one and two differ |
| Streaming.MeanIsSoftmax | tu_cmodel/compute/attention_engine.c:98-148 | Subtracting the maximum does not change softmax |
| SoftmaxSums.SoftmaxIsQuotient | tu_cmodel/compute/attention_engine.c:506-518 | The softmax these results speak of is the sum of exponentials times values over the sum of exponentials |
| AttentionLoops.NormalizeRow | tu_cmodel/compute/attention_engine.c:98-148 | One row's loops perform the streaming update in place, or refuse a row with NaN or positive infinity |
| AttentionLoops.NormalizeTile | tu_cmodel/compute/attention_engine.c:98-148 | The row loop does so for every row, or reports a refused score |
| AttentionLoops.ShareRow | tu_cmodel/compute/attention_engine.c:98-148 | Without streaming, a row's probabilities are divided by their sum in place |
| AttentionLoops.AttendTiles | tu_cmodel/compute/attention_engine.c:363-504 | The loop over key tiles keeps every row at its streaming state, for every tile width and ragged last tile |
| AttentionLoops.Attend | tu_cmodel/compute/attention_engine.c:254-518 | The outputs are the tiled means of scores and values, streaming or whole-row; it fails exactly if some score is refused |
| AttentionLoops.DivideOut | tu_cmodel/compute/attention_engine.c:506-518 | The final division, with zero for rows that accumulated nothing |
| AttentionLoops.SharesAttend | tu_cmodel/compute/attention_engine.c:137-145 | Dividing before or after multiplying with the values is the same |
| AttentionTiling.AutoTile | tu_cmodel/compute/attention_engine.c:177-210 | The chosen pair is admitted and maximises the tile area over at most 64 query rows and all key counts, fewest rows among equals, zeros if nothing is admitted |
| AttentionTiling.TriedIsLargest | tu_cmodel/compute/attention_engine.c:190-202 | The closed-form tile of keys is the largest admitted one for its rows, across the jump at full length |
| AttentionTiling.AdmittedPerRow | tu_cmodel/compute/attention_engine.c:158-175 | The footprint check split into a key budget and an output budget per row |
| AttentionTiling.NothingChosen | tu_cmodel/compute/attention_engine.c:177-210 | Zero is returned exactly if no pair is admitted |
| AttentionTiling.BestUnique | tu_cmodel/compute/attention_engine.c:203-208 | The tie rule makes the choice unique |
| AttentionTiling.AdmittedLayout | tu_cmodel/compute/attention_engine.c:301-326 | An admitted pair gives buffers that fit and do not overlap |
| AttentionTiling.AdmittedExactly | tu_cmodel/compute/attention_engine.c:158-175 | The footprint check admits a pair exactly if there is room for every buffer |
| SoftmaxRows.SoftmaxTwoPass | tu_cmodel/compute/softmax_engine.c:82-136 | The two-pass loops compute, in place, clamped exponentials over their sum for every row of floats, and report maximum and sum |
| SoftmaxRows.OnlinePass | tu_cmodel/compute/softmax_engine.c:164-186 | One pass keeps the maximum and the rescaled sum for every row of floats |
| SoftmaxRows.ScaledEntry | tu_cmodel/compute/softmax_engine.c:91-97 | Scaling multiplies finite scores, leaves or flips infinities by its sign, and zero means none |
| SoftmaxRows.SoftmaxOnline | tu_cmodel/compute/softmax_engine.c:154-212 | The online loops compute, in place, clamped exponentials over the online sum, or over the row length if that is not positive |
| SoftmaxRows.RowsAgree | tu_cmodel/compute/softmax_engine.c:82-212 | The two algorithms give the same row exactly if: for a row with a finite score and no NaN or positive infinity, its first entry is finite and no finite score is more than 87 below the maximum; for any other row, nothing is finite and the infinities have one sign |
| SoftmaxRows.OnlineIsSoftmax | tu_cmodel/compute/softmax_engine.c:154-212 | With masked entries or not, the online row is textbook softmax exactly if its first entry is finite and no finite score is more than 87 below the maximum |
| SoftmaxRows.TwoPassIsSoftmax | tu_cmodel/compute/softmax_engine.c:82-136 | The two-pass row is textbook softmax exactly if no finite score is more than 87 below the maximum |
| SoftmaxRows.LeadingMaskPoisons | tu_cmodel/compute/softmax_engine.c:167-186 | A masked or NaN first entry makes the online sum NaN, whatever follows |
| SoftmaxRows.OnlineSumIsEvery | tu_cmodel/compute/softmax_engine.c:167-186 | Otherwise the online sum of a row without NaN or positive infinity is the exact sum of all its exponentials from the maximum |
| SoftmaxRows.TwoPassNaN | tu_cmodel/compute/softmax_engine.c:91-136 | An entry of a two-pass row is NaN exactly if no score is finite, or some score is NaN or positive infinity |
| SoftmaxRows.UniformNeverTaken | tu_cmodel/compute/softmax_engine.c:104-123 | The sum the uniform branch tests is a positive number or NaN for every nonempty row, never zero |
| SoftmaxRows.FullyMaskedIsNaN | tu_cmodel/compute/softmax_engine.c:37-38 | A fully masked row comes out as NaN throughout, not uniform |
| SoftmaxRows.MaskedFirstEntry | tu_cmodel/compute/softmax_engine.c:154-212 | On a masked entry followed by a zero the two algorithms give [0, 1] and [0, 1/2] |
| SoftmaxRows.WideRowDiffers | tu_cmodel/compute/softmax_engine.c:82-212 | On two scores 88 apart the two algorithms differ |
| SoftmaxRows.TwoPassSum | tu_cmodel/compute/softmax_engine.c:104-136 | A nonempty two-pass row sums to one if some score is finite and none is NaN or positive infinity, and to NaN otherwise |
| SoftmaxRows.SumsCompared | tu_cmodel/compute/softmax_engine.c:104-118 | With masked entries or not, both sums are positive, and equal exactly if every finite score is near the maximum |
| Convolution.GemmIsConv | tu_cmodel/compute/convolution_engine.c:264-396 | Unrolling and multiplying gives the nested convolution sum for every group, stride, padding and dilation |
| Convolution.UnrolledIsPixel | tu_cmodel/compute/convolution_engine.c:53-112 | The unrolled matrix holds, for every channel, kernel offset and position, the pixel the convolution sees |
| Convolution.TapOfGroup | tu_cmodel/compute/convolution_engine.c:355-361 | A weight's tap within its group is its row of the unrolled matrix |
| Convolution.AcceptedExactly | tu_cmodel/compute/convolution_engine.c:22-37 | A dimension is accepted exactly if the kernel exceeds the padded input by less than a stride |
| Convolution.OutDimCountsPlacements | tu_cmodel/compute/convolution_engine.c:22-37 | The dimension counts the placements that fit when the kernel fits at all |
| Convolution.OversizedKernelAccepted | tu_cmodel/compute/convolution_engine.c:22-37 | An accepted kernel that fits nowhere |
| ConvolutionLoops.Im2col | tu_cmodel/compute/convolution_engine.c:53-112 | The six loops write every entry of the unrolled matrix |
| ConvolutionLoops.UnrollRow | tu_cmodel/compute/convolution_engine.c:87-108 | One row is written with its pixels or zeros, and no other row changes |
| ConvolutionLoops.GemmPlane | tu_cmodel/compute/convolution_engine.c:365-380 | One filter over one image is computed and no other output cell changes |
| ConvolutionLoops.ConvGemm | tu_cmodel/compute/convolution_engine.c:336-396 | Whatever the output held, im2col plus grouped multiplication leaves the convolution, bias and activation included |
| ConvolutionLoops.ConvDirect | tu_cmodel/compute/convolution_engine.c:264-330 | The direct loops leave the same output |
| ConvolutionLoops.DirectSum | tu_cmodel/compute/convolution_engine.c:297-311 | Skipping pixels outside the input gives the full nested sum |
| ConvolutionLoops.OutputComplete | tu_cmodel/compute/convolution_engine.c:336-396 | With every cell computed and activated, the flat output is the convolution |
| ConvolutionTensors.ConvolvesTensors | tu_cmodel/compute/convolution_engine.c:264-396 | On arrays that flatten an image tensor and a filter tensor by concatenation, the output flattens the tensor of nested sums over their elements, with groups, stride, dilation, padding, bias and activation |
| ConvolutionTensors.IdentityReturnsInput | tu_cmodel/compute/convolution_engine.c:264-396 | The one-by-one convolution with identity weights returns its input |
| Grids.GridNumbers | tu_cmodel/compute/convolution_engine.c:374-378 | Row-major cell numbers are in range and distinct: no output cell is written twice |
| Grids.GridCovers | tu_cmodel/compute/convolution_engine.c:374-378 | Every number in range is a cell: none is missed |
| Mma.Multiply | tu_cmodel/tu_cmodel.c:311-380 | For every shape and tile size each output number in memory gains its full product once, memory beyond the output stays, and the operations counted are 2MNK |
| Mma.MultiplyWithBias | tu_cmodel/tu_cmodel.c:303-380 | With half-width biases in the output buffer, widening and multiplying in that one buffer leaves bias plus the matrix product |
| MmaTensors.MultipliesMatrices | tu_cmodel/tu_cmodel.c:369-377 | On memory that flattens three matrices row by row, the multiplication leaves the flattening of O plus the matrix product of W and A |
| Mma.AddTile | tu_cmodel/tu_cmodel.c:369-377 | One tile adds exactly its partial products to its block |
| Mma.TilesCover | tu_cmodel/tu_cmodel.c:311-314 | The rounded-up number of tiles is exactly the number that begin inside the extent, and after the last it is covered |
| Mma.Widen | tu_cmodel/tu_cmodel.c:303-309 | The descending in-place widening reads every source before overwriting it |
| Mma.Narrow | tu_cmodel/compute/attention_engine.c:73-88 | The ascending in-place narrowing does too |
| Mma.AscendingClobbers | tu_cmodel/tu_cmodel.c:303-309 | Widening in the other order destroys a source |
| Cluster.NeighborsAreOneHop | tu_cmodel/tu_cluster.c:288-337 | The neighbours of a core are exactly the cores one hop away |
| Cluster.NeighborsSymmetric | tu_cmodel/tu_cluster.c:288-337 | Being neighbours is mutual |
| Cluster.DistanceSymmetric | tu_cmodel/tu_cluster.c:118-152 | Distance is symmetric and zero only from a core to itself |
| Cluster.PlaceInside | tu_cmodel/tu_cluster.c:136-144 | An existing core never fails the row test |
| Cluster.MeshRoute | tu_cmodel/tu_cluster.c:197-224 | On a ragged mesh a route exists exactly if its corner core does; it walks neighbour links, as many as the distance |
| Cluster.SomeRoutingSucceeds | tu_cmodel/tu_cluster.c:197-224 | At least one of the two routings succeeds, and both on a full mesh |
| Cluster.MeshComplete | tu_cmodel/tu_cluster.c:197-224 | A routing connects every pair of cores exactly if the rows are full or there is only one; otherwise it fails between the last core and the end of the first row, in the direction named |
| Cluster.RaggedMeshFails | tu_cmodel/tu_cluster.c:197-224 | Three cores in two rows: no columns-first route from core 2 to core 1 |
| Cluster.RingRouteShortest | tu_cmodel/tu_cluster.c:185-196 | The ring walk succeeds and takes the shorter way |
| Cluster.RouteIsDistance | tu_cmodel/tu_cluster.c:118-225 | Every successful route has exactly as many links as the distance |
| ClusterPaths.OneHopIsWire | tu_cmodel/tu_cluster.c:118-152 | Two cores are one hop apart exactly if a wire joins them: next to each other on the ring, in a row or in a column |
| ClusterPaths.NoShorterWalk | tu_cmodel/tu_cluster.c:118-152 | No walk over wires is shorter than the distance |
| ClusterPaths.ShortestWalkExists | tu_cmodel/tu_cluster.c:118-152 | A walk over wires of that length exists, also on a ragged mesh |
| ClusterPaths.Reachable | tu_cmodel/tu_cluster.c:118-152 | Cores of a ring or mesh always have a distance, isolated ones to themselves only |
| ClusterTraffic.MessageTime | tu_cmodel/tu_cluster.c:154-176 | A message alone pays latency per hop; cut-through adds its length once, store-and-forward once per hop, hop-only switching nothing |
| ClusterTraffic.ServiceRoundsUp | tu_cmodel/tu_cluster.c:255-266 | A message occupies a link for the least cycles that carry its bytes |
| ClusterTraffic.WalkRing | tu_cmodel/tu_cluster.c:185-196 | The ring loop terminates and adds the service to each link of the route |
| ClusterTraffic.WalkRow | tu_cmodel/tu_cluster.c:206-213 | The row loop does so along a row, or fails where the route does |
| ClusterTraffic.WalkColumn | tu_cmodel/tu_cluster.c:214-221 | The column loop likewise |
| ClusterTraffic.AddRoute | tu_cmodel/tu_cluster.c:182-225 | A message is added to the links of its route and nothing else, or refused exactly if it has no route |
| ClusterTraffic.LoadedAt | tu_cmodel/tu_cluster.c:177-180 | Each link's load grows by the service for every use |
| ClusterTraffic.LoadedTotal | tu_cmodel/tu_cluster.c:182-225 | A route adds hops times service to the table in total |
| ClusterTraffic.LoadConserved | tu_cmodel/tu_cluster.c:227-263 | The loads of all links add up to hops times service over all messages |
| ClusterTraffic.LoadOfLink | tu_cmodel/tu_cluster.c:177-263 | The load in a link's table cell is exactly the service of the messages that cross that link, once per crossing |
| ClusterTraffic.CellUnique | tu_cmodel/tu_cluster.c:177-180 | A cell of the load table names one link |
| ClusterTraffic.Busiest | tu_cmodel/tu_cluster.c:265-274 | The bottleneck is the largest load and the first link that carries it |
| ClusterTraffic.EstimateTraffic | tu_cmodel/tu_cluster.c:227-286 | The estimate succeeds exactly if every message can be sent, combines the largest isolated time, bottleneck and route latency, and names the first link that carries the largest load |

## Left out

- Descriptor chains: a submission is a single descriptor; the queue's tail and depth do not follow a chain, so the queue invariants do not hold for chains (tu_cmodel/dma_descriptor.c:1867-1875).
- DmaEngine: the engine's state holds bandwidth meters, not memory contents; the bytes a transfer moves are the subject of `Transfers`.
- Byte, transfer and occupancy counters, error messages, status strings, tracing and memory ownership.
- The configuration wrappers `tu_dma_init_config_*` and the JSON configuration: validated ranges are preconditions.
- ServiceCost.TransferCycles and ServiceCost.CombinePayloadIssue: the product of burst count and issue cycles is exact where the code computes it modulo 2^64.
- CostInFields.BoundedCost: for transfers with a host side whose 32-bit size product does not wrap, as are the other results of that module.
- EngineInFields.StallInFields: for transfers whose 32-bit word offsets do not wrap.
- TimingOnly.KnobsAreTimingOnly: stated where the 64-bit clock neither saturates nor wraps.
- DrrFairness.WeightedFairness: costs are bounded by a given largest cost that with one grant fits 64 bits; the deficit is not bounded in interleaved mode, so no fairness bound is stated there.
- AgingWaiting.AgingBoundedWaiting: for missed-grant aging without a boost cap, in runs too short for the 64-bit grant counter to wrap; wait-cycle aging depends on how often the clock is ticked.
- DmaEngineLoop.Engine.SubmitOne: a submission is a single descriptor, not a chain, and the channel number written back into it is not kept (tu_cmodel/dma_descriptor.c:1853-1866).
- DmaInvariants.ServiceDisjoint: runs with flushes are excluded, since a flush retires a transfer before its completion time.
- AttentionLoops.Attend: one tile of query rows of one head; the loops over heads and query tiles repeat it. It takes scaled and masked scores as given; the products of queries and keys go through a dataflow plug-in that is not part of this model, and FP16 packing is the identity.
- AttentionLoops.AttendWhole: models the whole-row path of custom masks; the unmasked whole-row path calls the softmax engine, which is `SoftmaxRows`.
- SoftmaxRows: the logarithmic mode, the application of masks and mask fill before a row is normalized, and scales that are not finite.
- Convolution and Mma: index products are exact where the code computes them in 32 bits; NCHW layout and cycle estimates are left out.
- Mma.Multiply: the inline tiled loop; dispatch to a plug-in dataflow is not part of this model, nor are pipeline cycle counts.
- ClusterTraffic.EstimateTraffic: loads and cycles are exact where the code uses 64-bit sums; the link width is positive, as configuration demands; the comment that calls the estimate a lower bound is not claimed.
- Floating-point rounding, FP8, FP16 and TF32 conversion, transcendental accuracy.
- Command queue, double buffering, context manager, DPI and Python bindings, VCD, JSON and assembly text.

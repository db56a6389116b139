# HPCAgent-Bench in Dafny: schedulers, fuzzed sizes, profiles, clocks, configuration, packets and caches

A model of the parts of HPCAgent-Bench that compute something hard to see at a glance, with proofs of what they promise.
`dafny verify dfyconfig.toml` checks all of it.

- **Packing** (`Packing`, `PackingTheorems`, `LptBound`): kernels are dealt over ranks longest first. Graham's bound holds
  against every other assignment, ties and memory caps included, and the packing does not depend on the order of the
  selection.
- **Rung growth** (`Rung`, `Bits`): the XL rung grown to constant bytes, aligned axis by axis and bisected where the
  constraints refuse it.
- **Fuzzed sizes** (`NumberTheory`, `SmoothSizes`, `Expressions`, `Resolve`, `SizeMoves`): the table of smooth sizes and
  the snaps to it and to structural classes; the expression evaluator; the fixpoint that resolves derived sizes, whose
  outcome is decided by the draws and changed by no order.
- **Shapes** (`Shapes`): the shape parser agrees with the evaluator, so the bytes charged are the bytes allocated.
- **Call graphs** (`CallGraph`, `HotPaths`, `FlatProfile`): stacks folded into a mutable trie, the hottest connected part
  found best first, and a flat profile that counts a recursive stack once.
- **Phase clock** (`PhaseClock`): nested measurements and marks conserve time.
- **Configuration** (`Config`, `ConfigRuns`): the memoized configuration is the configuration, over whole runs.
- **Packets** (`Registry`, `Composition`, `Vocabulary`, `Plugins`, `Specs`, `PageOrder`, `Expansion`, `Packets`): the
  registry, the check that keeps packets from composing themselves, expansion with conflict detection, and recorded
  identities.
- **Scaled sizes** (`ScaleDim`): a size scaled down stays a power of two, a cube, or both.
- **Generated siblings** (`Markers`, `Autogen`): the fingerprint-guarded cache agrees with emitting afresh, and a
  hand-written file is never touched.

`Arithmetic`, `Orders`, `Outcomes` and `Rounding` hold what several of these share.

How the source's things appear:

- Floats are exact reals: loads, percentages, fractions, seconds and scale factors are not rounded to IEEE doubles. Where
  the source rounds on purpose (`round`, `int`, `//`, `%`, `.2f` percentages) the rounding is modelled. Square and cube
  roots: the square root is exact; a rounded cube root is any integer that is the floor or the ceiling of the exact one.
  The per-axis growth factor is the exact root.
- Draws of the random generator are arbitrary values in their interval. Float power, rounding to digits and parsing text
  as a number are parameters of the evaluator.
- What the files do not decide is a parameter: the constraints and byte ceiling of a rung, the page files and placeholder
  values of a packet, the parsers and validators of configuration keys, the emitters and their fingerprint (assumed
  injective).
- Error messages are data: each refusal is a constructor naming what the message names.
- Dictionaries are maps; where their order can be seen (registries, fuzz tables, page lists) it is kept beside them, and
  where it cannot the order of a loop over one is arbitrary.
- Nested `with` blocks are trees of blocks. A body that raises is one that stops early, as its exit still runs.

Where code and comments differ the model follows the code. A shape dimension written `True` is accepted by the shape
parser and refused by the byte counter (`Shapes.BareBoolDisagrees`; `BytesAgree` says exactly when the bytes agree). A
smooth snap stays in its interval, where that holds a smooth size, for every draw the sampler makes
(`Resolve.SmoothDrawStaysInside`), not for every number (`SmoothSizes.SnapStaysInside` says for which). The 128-step
class search answers None for an interval that holds members for exactly the draws `SmoothSizes.Missed` describes
(`SearchIsExact`; an instance is `SearchFallsShort`), such as draws that a divisibility snap has lifted far out of their
interval. A registered key with outer space is lost when recorded through an alias (`Packets.PaddedKeyIsLost`).

## Model

| member | source | states |
|---|---|---|
| LptBound.ListSchedulingBound | hpcagent_bench/sizing.py:438-444 | for any greedy schedule, m times the load a job lands on is at most the work up to that job plus m-1 times the job |
| LptBound.LongJobsFit | hpcagent_bench/sizing.py:438-444 | when every job exceeds a third of a capacity some schedule meets, greedy placement in descending order meets it too |
| LptBound.LptWithinFourThirds | hpcagent_bench/sizing.py:438-444 | descending greedy placement is within (4m-1)/(3m) of the capacity of every other schedule, empty machines and zero-length jobs included |
| PackingTheorems.PackingIsNearOptimal | hpcagent_bench/sizing.py:417-452 | with m ranks the predicted time of any shard the packer makes is at most (4m-1)/(3m) of the longest shard of every other assignment of the same selection |
| PackingTheorems.InputOrderIrrelevant | hpcagent_bench/sizing.py:417-452 | reordering the selection never moves a kernel with a prediction to another rank |
| PackingTheorems.UnknownDealtEvenly | hpcagent_bench/sizing.py:445-446 | kernels without a prediction are dealt so that two ranks differ by at most one, the earlier rank having more |
| Packing.PackLpt | hpcagent_bench/sizing.py:417-452 | the packing loops return the partition the specification describes, or the same refusal: no rank, half a memory cap, or a cap overrun with its violations |
| Packing.PartitionCovers | hpcagent_bench/sizing.py:417-452 | the shards together hold every selected kernel as often as it was selected, and nothing else |
| Packing.PartitionIsStride | hpcagent_bench/sizing.py:433-435 | with no prediction at all the packing is the plain stride |
| Packing.StrideDealsInTurn | hpcagent_bench/sizing.py:376-380 | the k-th kernel of rank r is the selection's kernel at r + k * ranks, and rank r has a k-th kernel exactly when the selection reaches that far |
| Packing.PresetCost | hpcagent_bench/sizing.py:356-368 | a cost is a prediction exactly when the preset is declared, the shapes are, and their bytes are known and positive; then it holds those bytes and the time proportional to them, else nothing and the reason that applies |
| Packing.NodeFootprintViolations | hpcagent_bench/sizing.py:383-414 | the two loops list exactly the violations of the specification: kernels over their rank share, then overfull nodes in node order with each rank's largest kernel |
| PackingTheorems.MemoryCheckMeaning | hpcagent_bench/sizing.py:383-414 | the memory check reports nothing exactly when every kernel fits its rank share and, whichever kernel each rank of a node holds, the node fits |
| PackingTheorems.PeakIsWorst | hpcagent_bench/sizing.py:383-414 | the peak charged for a rank is the most its shard can hold at one moment, and some kernel reaches it |
| PackingTheorems.PackedIsSafe | hpcagent_bench/sizing.py:430-452 | a partition returned under a memory cap fits every rank share and every node, a selection without predictions included |
| Bits.LowestBit | hpcagent_bench/sizing.py:493-495 | `value & -value` in two's complement is the power of two that exactly divides the value, whatever its sign |
| Bits.NoLargerPow2 | hpcagent_bench/sizing.py:493-495 | no larger power of two divides the value |
| Rung.Grown | hpcagent_bench/sizing.py:498-508 | filling in the axes one after another gives the grown rung, and fails exactly when some axis is missing, no integer, or zero |
| Rung.GrownAxisWithin | hpcagent_bench/sizing.py:498-508 | a positive axis ends between its base and base times the per-axis factor, a negative one at its base, and both are multiples of the base's alignment |
| Rung.NoGrowth | hpcagent_bench/sizing.py:498-508 | growing none of the way gives the base back |
| Rung.GrownAxisGrows | hpcagent_bench/sizing.py:498-508 | growing further never makes an axis smaller |
| Rung.Bisect | hpcagent_bench/sizing.py:541-545 | after 40 bisections the rung is the growth by a fraction that is admitted (or zero), and the fraction 2^-40 above is refused |
| Rung.DatatypeRung | hpcagent_bench/sizing.py:526-547 | the authored rung and growth 1 when nothing may grow; else the full growth when admissible, else the bisected one, with the product of the axis ratios |
| Rung.ChosenIsAdmissible | hpcagent_bench/sizing.py:526-547 | the rung is the authored one or an admissible one, and only the scaled axes differ |
| Rung.ChosenKeepsBytes | hpcagent_bench/sizing.py:526-547 | the total growth is at least 1 and at most the datatype factor; no axis shrinks, outgrows its share or loses its alignment |
| Rung.ChosenIsLargest | hpcagent_bench/sizing.py:526-547 | if admissibility once lost stays lost, no fraction 2^-40 or more above the chosen one is admissible |
| NumberTheory.TrialDivision | hpcagent_bench/fuzz.py:138 | trial division up to the integer square root decides primality |
| NumberTheory.PrimesAreThePrimes | hpcagent_bench/fuzz.py:138 | the list built is every prime up to the bound, ascending |
| NumberTheory.Euclid | hpcagent_bench/fuzz.py:136-148 | a prime dividing a product divides a factor: what makes the table free of repeats and complete |
| SmoothSizes.SmoothNumbers | hpcagent_bench/fuzz.py:136-148 | the table is strictly ascending and holds exactly the integers from 1 to the limit whose prime divisors are at most the bound (only [1] when there is no prime) |
| SmoothSizes.SnapSmooth | hpcagent_bench/fuzz.py:151-159 | the largest smooth size up to the draw if that reaches the interval, else the smallest in the interval, else the largest up to the draw |
| SmoothSizes.SnapStaysInside | hpcagent_bench/fuzz.py:151-159 | for any draw, the result is inside the interval exactly when the interval holds a smooth size and none lies above the interval up to the draw |
| Resolve.SmoothDrawStaysInside | hpcagent_bench/fuzz.py:454-465 | for every draw the sampler makes, the result is inside the interval exactly when the interval holds a smooth size |
| SmoothSizes.SnapToClass | hpcagent_bench/fuzz.py:659-668 | what is returned is the nearest class member of the interval, ties going down, smooth if asked; None exactly when none is within 128 steps, or there is no smooth member at all |
| SmoothSizes.SearchIsExact | hpcagent_bench/fuzz.py:664-668 | for any draw, the search answers None exactly when the interval holds no member or its nearest member, which the condition computes, is more than 128 steps away |
| SmoothSizes.SearchFallsShort | hpcagent_bench/fuzz.py:664-668 | from 200 the search answers None for [1, 9], which holds odd sizes |
| Expressions.Weakening | hpcagent_bench/fuzz.py:387-451 | a value or an error of the evaluator is unchanged in every extension of the namespace, through lazy and/or/if and chained comparison |
| Expressions.UnboundIsMissing | hpcagent_bench/fuzz.py:402-451 | a name reported unbound really is missing |
| Resolve.Confluence | hpcagent_bench/fuzz.py:468-507 | whatever one order of resolving reaches, every order that gets stuck has reached, with the same values |
| Resolve.ResolveSizes | hpcagent_bench/fuzz.py:486-507 | the result, a refusal included, is what some draws of the leaves and constructs decide alone: the outcome of the definitions so drawn, which no order of resolving them changes |
| Resolve.OneOutcome | hpcagent_bench/fuzz.py:486-507 | on derives alone there is nothing to draw: one outcome |
| Resolve.SolvesOnSuccess | hpcagent_bench/fuzz.py:486-507 | on success every size to resolve has a value its spec explains in the final namespace |
| Resolve.SucceedsIffOrderable | hpcagent_bench/fuzz.py:486-507 | it succeeds exactly when the drawn definitions can be ordered so that each needs earlier ones alone |
| Resolve.EquationsHold | hpcagent_bench/fuzz.py:486-507 | on success every drawn definition, so every derive equation, holds in the final namespace |
| Resolve.UnresolvableNames | hpcagent_bench/fuzz.py:502-506 | the names reported are exactly those no order reaches, and each waits for a name that is undefined or itself reported |
| Resolve.StuckMeansNoFault | hpcagent_bench/fuzz.py:468-507 | an order that ends without an evaluation error rules one out for every order |
| SizeMoves.ApplySizeClass | hpcagent_bench/fuzz.py:671-697 | the loop is a sequence of turns, one a name in dictionary order, up to the end or to the turn that raises |
| SizeMoves.MovedSampleIsValid | hpcagent_bench/fuzz.py:671-697 | the sample is the draw itself or satisfies all constraints and all derive equations |
| SizeMoves.SizesStayMoved | hpcagent_bench/fuzz.py:671-697 | a size ends as drawn or in the class, inside its interval and smooth if asked; once in the class it never moves, and other names never change |
| SizeMoves.UnmovedForAReason | hpcagent_bench/fuzz.py:685-696 | a movable size stays put only when its interval holds no member, its draw misses those it holds, or the constraints refuse the nearest one |
| Shapes.DimsAgree | hpcagent_bench/initialize.py:100-115 | a dimension the shape parser accepts has the same value under the general evaluator |
| Shapes.ShapesAgree | hpcagent_bench/initialize.py:94-118 | a shape the parser accepts gives the byte counter the same extents exactly when no dimension is a bare bool |
| Shapes.BareBoolDisagrees | hpcagent_bench/initialize.py:100-118 | the parser takes True for a dimension; the byte counter refuses it |
| Shapes.WorkingBytes | hpcagent_bench/sizing.py:207-227 | the dense sum of the extents times storage widths of the declared arrays asked for; unknown when nothing is declared, none of the names asked for is, or a shape does not resolve |
| Shapes.BytesAgree | hpcagent_bench/sizing.py:207-227 | the bytes charged are the bytes of the arrays allocated from the same shapes, exactly when no dimension is a bare bool; else they are unknown |
| CallGraph.Fold | hpcagent_bench/perf_reports.py:305-319 | after folding any stacks, every node of the tree counts the stacks through its path and those ending there, with a node for exactly the paths taken |
| CallGraph.AddStack | hpcagent_bench/perf_reports.py:313-318 | folding one more stack keeps those counts true of the stacks so far |
| CallGraph.Child | hpcagent_bench/perf_reports.py:197-198 | the child of a frame, made when missing; the tree stays a tree |
| CallGraph.ParentIsHotter | hpcagent_bench/perf_reports.py:305-319 | totals never increase going down |
| CallGraph.NodeTotalSplits | hpcagent_bench/perf_reports.py:186-189 | a node's total is its own samples plus the totals of its children |
| CallGraph.CountsIgnoreOrder | hpcagent_bench/perf_reports.py:305-319 | the counts of a path do not depend on the order of the stacks |
| CallGraph.FoldIgnoresOrder | hpcagent_bench/perf_reports.py:305-319 | trees folded from the same stacks in different orders have the same paths and counts |
| HotPaths.PercentGrows | hpcagent_bench/perf_reports.py:225-227 | more samples never show a smaller rounded share |
| HotPaths.OrderedChildren | hpcagent_bench/perf_reports.py:200-202 | exactly the children, each once, hottest first and ties by name |
| HotPaths.LeftOutIsColder | hpcagent_bench/perf_reports.py:230-248 | best-first search is right: whatever it has not reached hangs below a frontier node at least as hot, so nothing kept is colder |
| HotPaths.ShownNodes | hpcagent_bench/perf_reports.py:230-248 | exactly min(limit, eligible) nodes, closed under parents, none colder than an eligible node dropped, and truncated exactly when more than `limit` are eligible |
| FlatProfile.AddPath | hpcagent_bench/perf_reports.py:373-383 | visiting a node adds its own samples to its frame, and its total only where the frame is outermost: each stack is counted once |
| FlatProfile.AllCounted | hpcagent_bench/perf_reports.py:373-383 | over all nodes of a subtree the sums are the stacks through its start ending in the frame and those containing it from there on, however recursive |
| FlatProfile.Flatten | hpcagent_bench/perf_reports.py:373-383 | the flat profile holds exactly the frames of the subtree, its start's included, with those two counts |
| FlatProfile.Hotspots | hpcagent_bench/perf_reports.py:366-387 | from any start node, the report is the leading rows of the ranking by self count then name, cut as Python slices, rows without own samples left out |
| PhaseClock.RunConserves | hpcagent_bench/phase_clock.py:60-105 | over any well-nested run a running clock gains exactly the marked time and the credits, and no phase drops below zero |
| PhaseClock.ShiftConserves | hpcagent_bench/phase_clock.py:66-72 | shifting moves seconds, never more than the source holds |
| PhaseClock.MeasurementConserves | hpcagent_bench/phase_clock.py:95-105 | a finished clock's phases sum to its wall time plus the credits issued while it ran; none is negative; the clamp never fires |
| PhaseClock.EveryMeasurementConserves | hpcagent_bench/phase_clock.py:95-105 | the same for every measurement finished anywhere in a run, however nested |
| PhaseClock.CreditRunning | hpcagent_bench/phase_clock.py:60-63 | the credit reaches every running clock once |
| PhaseClock.ShiftRunning | hpcagent_bench/phase_clock.py:66-72 | the shift is applied to every running clock |
| PhaseClock.RunMarked | hpcagent_bench/phase_clock.py:76-91 | a mark gives every running clock its elapsed time less its nested marks, and its elapsed time to the mark around it |
| PhaseClock.RunMeasuring | hpcagent_bench/phase_clock.py:95-105 | the clock object ends with the reading the specification gives its block |
| PhaseClock.Run | hpcagent_bench/phase_clock.py:50-105 | the clock and mark objects of any run read what the specification says, and every finished clock what its block comes to |
| Config.NestThenLookup | hpcagent_bench/config.py:830-836 | what is nested at a key is read back there |
| Config.NestElsewhere | hpcagent_bench/config.py:830-836 | nesting at a key changes no key that neither leads through it nor is led through by it |
| Config.Resolve | hpcagent_bench/config.py:1025-1037 | resolving nests the variables of the keys and then the overrides, whatever keys they are for, and validates the tree; it fails naming the unknown variables, the first that does not parse, or a misplaced key |
| Config.LayersWin | hpcagent_bench/config.py:1025-1037 | in the tree validated, a key whose overrides do not lead through one another has its override, else its variable parsed, else its default |
| Config.KeysResolve | hpcagent_bench/config.py:1025-1037 | with overrides of keys alone there is a tree to validate exactly when every variable set for a key parses |
| Config.ResolutionReadsPrefixed | hpcagent_bench/config.py:1040-1043 | two environments with the same prefixed variables resolve alike: the cache key is enough |
| Config.EnvValueAgrees | hpcagent_bench/config.py:996-1021 | reading one variable agrees with the merged environment, an inner scope hides an outer one, and a name scoped to None is unset |
| Config.OverrideTable.Put | hpcagent_bench/config.py:921-924 | a new version stands for the new table; earlier versions keep what they stood for |
| Config.OverrideTable.Drop | hpcagent_bench/config.py:926-930 | dropping an absent key changes neither table nor version |
| Config.OverrideTable.Replace | hpcagent_bench/config.py:932-935 | replacing the table takes a new version |
| ConfigRuns.Process.GetCurrent | hpcagent_bench/config.py:1024-1043 | the memoized answer is the resolution of the present environment and overrides, whatever was remembered or evicted |
| ConfigRuns.Process.RunSteps | hpcagent_bench/config.py:945-1043 | over every run of set, clear, restore, reload, environment changes and nested blocks, the answers are those of resolving afresh each time, each nesting into copies |
| Config.NestingWritesNothing | hpcagent_bench/config.py:830-836 | nesting in place leaves the override table as it was while no key leads into an earlier one's value |
| Config.NestingLeavesBehind | hpcagent_bench/config.py:830-836 | otherwise it need not: a later clear can leave a value behind in a restored dictionary |
| ConfigRuns.BlocksRestore | hpcagent_bench/config.py:968-979 | leaving nested override and scope blocks restores the override table exactly, its order included |
| ConfigRuns.Process.SetOverride | hpcagent_bench/config.py:945-950 | an unknown key or a refused value changes nothing |
| Registry.Kind.Add | hpcagent_bench/registry.py:26-37 | refused exactly when the key or an alias is taken or given twice, changing nothing; else the key takes the next slot and earlier entries, slots and aliases stay |
| Registry.SlotsDiffer | hpcagent_bench/registry.py:36 | slotted keys hold distinct slots in registration order, below the next free one |
| Registry.ListedBySlot | hpcagent_bench/registry.py:48-50 | sorting by slot lists the unslotted keys first, then the slotted, both in registration order |
| Registry.Kind.Keys | hpcagent_bench/registry.py:48-50 | every key once, in that order |
| Registry.Kind.CanonicalOnce | hpcagent_bench/registry.py:66-68 | resolving an alias gives a key, and resolving twice is resolving once |
| Composition.RefusesExactlyLoops | hpcagent_bench/plugins.py:272-278 | the check returns normally exactly when no walk from the key meets a token twice |
| Composition.FoundIsLoop | hpcagent_bench/plugins.py:272-278 | the chain it names is a walk that comes back |
| Composition.StaysAcyclic | hpcagent_bench/plugins.py:265-267 | packets that pass keep an acyclic graph acyclic, also where old packets already named the new ones |
| Composition.HeightDrops | hpcagent_bench/packets.py:285-290 | in an acyclic graph what a packet composes reaches less deep: the recursions end |
| Plugins.ClaimNames | hpcagent_bench/plugins.py:256-263 | a packet's names are refused exactly when one is taken, a shipped page's, claimed before, or given twice |
| Plugins.RegisterPackets | hpcagent_bench/plugins.py:242-269 | all packets are added in order with the next slots and their aliases exactly when every table validates, no page hides a shipped one, every name is new, every packet sound and none reaches itself; else none is; acyclic before means acyclic after |
| Specs.PartsIgnoreOrder | hpcagent_bench/packets.py:84-87 | specs with the same tokens, in any order, repeated or spaced out, have the same parts |
| Specs.SplitJoin | hpcagent_bench/packets.py:396 | joining clean tokens and splitting gives them back |
| Specs.DevicePartsIgnoreOrder | hpcagent_bench/packets.py:101-105 | the same for a spec renamed for a device language |
| Expansion.Collected.ExpandToken | hpcagent_bench/packets.py:238-271 | one visit keeps: pages and settings of what is finished, everything below a finished packet visited, only reached tokens visited; ends on any graph; a fault names a real one; on an acyclic graph the pages are added in the order the token spells them, though nothing is visited twice |
| Expansion.Collected.AddEnv | hpcagent_bench/packets.py:267-271 | the settings of a packet are added, or refused for an unset variable or a second value |
| Expansion.Expand | hpcagent_bench/packets.py:343-352 | expansion fails exactly when something reached does not resolve by itself or two reached packets give one setting different values; else it collects exactly what is reached, pages in the order of the tokens written out in full |
| Packets.ReachedKeysAreReached | hpcagent_bench/packets.py:285-290 | the keys listed are exactly the registered keys reached |
| Packets.LeavesAreReached | hpcagent_bench/packets.py:317-325 | the leaves are exactly what the tokens reached stage themselves |
| Packets.Resolve | hpcagent_bench/packets.py:328-380 | a spec resolves exactly when its parts are known, fine and consistent; the packet lists exactly what they reach, sorted, and the pages in spec and definition order |
| Packets.ResolutionIgnoresOrder | hpcagent_bench/packets.py:328-380 | permuting, repeating or spacing out tokens changes neither whether a spec resolves nor anything it resolves to but the display text and the order of the pages |
| Packets.CanonicalIgnoresOrder | hpcagent_bench/packets.py:383-396 | permuting, repeating or spacing out tokens does not change the recorded key |
| Packets.CanonicalIdempotent | hpcagent_bench/packets.py:383-396 | where a spec's parts and the key that matches them hold no separator or outer space, the recorded key of its recorded key is itself |
| Packets.PaddedKeyIsLost | hpcagent_bench/packets.py:383-396 | a registered key with outer space, recorded through an alias, is read back as another |
| Packets.PartsAreClean | hpcagent_bench/packets.py:84-87 | parts are distinct non-empty names, none an alias, and hold no separator or outer space unless an alias names them |
| Packets.JoinedPartsRoundTrip | hpcagent_bench/packets.py:396 | the joined key splits into its parts again |
| Packets.TakeVocab | hpcagent_bench/study_tags.py:215-244 | the vocabulary read off the registry has the invariants resolution rests on |
| Bits.Pow2Test | hpcagent_bench/numerical_oracle.py:553 | for a positive size `v & (v - 1)` is zero exactly for the powers of two |
| ScaleDim.CubeTest | hpcagent_bench/numerical_oracle.py:377-382 | trying the rounded cube root and its neighbours finds exactly the positive cubes |
| ScaleDim.BothMeansPow8 | hpcagent_bench/numerical_oracle.py:556-560 | a power of two is a cube exactly when it is a power of eight |
| ScaleDim.PowerOfEight | hpcagent_bench/numerical_oracle.py:556-560 | the loop ends on the largest power of eight up to the target |
| ScaleDim.PowerOfTwo | hpcagent_bench/numerical_oracle.py:562-563 | the shift by the bit length is the largest power of two up to the target |
| ScaleDim.LargestCube | hpcagent_bench/numerical_oracle.py:565-569 | the loop ends on the largest cube up to the target |
| ScaleDim.Scale | hpcagent_bench/numerical_oracle.py:551-570 | a scaled size keeps being a power of two, a cube, or both, as large as the target allows; any other size becomes the target |
| ScaleDim.BothKept | hpcagent_bench/numerical_oracle.py:551-570 | a size that is a power of two and a cube is scaled to one that is both |
| ScaleDim.FitsTheCap | hpcagent_bench/numerical_oracle.py:551-570 | no scaled size exceeds the cap, or 10 |
| Markers.StampedIsGenerated | hpcagent_bench/translators/numpyto_common/emit_io.py:70-118 | what the writer stamps, with the comment lead of any of the languages, is told as generated |
| Autogen.KernelOfIsValid | hpcagent_bench/translators/numpyto_common/emit_io.py:99-118 | so every file an emitter writes through it is told as generated |
| Autogen.KernelDir.LoadGenerated | hpcagent_bench/framework_cache.py:130-140 | a hit leaves the sibling equal to a fresh emit of the present inputs; a miss changes nothing |
| Autogen.KernelDir.SaveGenerated | hpcagent_bench/framework_cache.py:143-150 | the sibling is cached under the fingerprint, and every sidecar still names the fingerprint its cached file was emitted from |
| Autogen.KernelDir.EmitOne | hpcagent_bench/autogen.py:160-172 | a fresh emit is written and cached under the present fingerprint; a refused one removes what was generated |
| Autogen.KernelDir.Ensure | hpcagent_bench/autogen.py:128-172 | without a reference file nothing changes; else each requested sibling is an untouched override, a fresh emit of the present inputs, or absent because that emit is refused; no other sibling changes; what could be emitted is cached for the present inputs |
| Autogen.KernelDir.EditInputs | hpcagent_bench/autogen.py:128-142 | editing the reference leaves every sidecar honest |
| Autogen.KernelDir.DropReference | hpcagent_bench/autogen.py:128-142 | so does deleting it |
| Autogen.KernelDir.EditSibling | hpcagent_bench/autogen.py:128-142 | so does writing a sibling by hand or deleting it, and nothing else changes |

## Left out

- Compiler, MPI, GPU and perf probing, argument templates, containers and the process seal: results depend on foreign
  tools.
- Command lines, the judge's HTTP routes, prompts, figure names and YAML or pydantic schemas: plumbing or finite tables.
- Sparse layouts of `working_bytes` and `size_cap` handling: finite tables around the dense sum.
- `snap_divisible`: it runs after derives are computed, so derive equations are claimed only for `resolve_sizes` and for
  the moves of `apply_size_class`.
- `leading_axis`: which axis a rung grows by default is a parameter.
- `kernel_subtree` and the text and JSON renderings of a call graph: they print the nodes `ShownNodes` keeps.
- Frozen packets, prompt overlays and workflows: they only list.
- Packets.Resolve: the text a joined spec is displayed by comes from a parameter.
- The rules a plugin's manifest is validated by: a plugin arrives with whether its tables validate and, for each packet,
  whether its phases and prompt tables exist.
- Thread interleavings of the configuration (the lock around the override table): runs are sequential.
- Kills between the three writes of a cache entry, the `.seconds` sidecar and the credit of a cache hit: runs are
  crash-free and the clock is modelled by itself.
- The native C, C++ and Fortran caches and the parsed DaCe graph: the same guard with other files.
- ScaleDim.Scale: the floating cube root is not modelled; its rounding is assumed to be the floor or the ceiling.
- Packets.CanonicalIdempotent: for specs whose parts and matching key can be spelled in a spec; the registry does not
  refuse keys with separators or outer space.
- Config.Resolve: nests into copies, where the code nests in place; the two differ only when a key of a restored table
  leads into the dictionary an earlier override holds (`Config.NestingWritesNothing`).
- ConfigRuns.Process.RunSteps: for the same tables; there the code writes into the dictionary at the first resolution,
  and clearing the inner key later leaves its value behind (`Config.NestingLeavesBehind`).

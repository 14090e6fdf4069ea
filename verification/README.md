# A Dafny model of lapidary

Lapidary turns a running process into gem5 checkpoints and simulates them in parallel. This project
models its central algorithms and proves what they are for; it also models several self-contained
algorithms of the gem5 scripts that the repository carries. There is one module per component:

- `MemoryLayout`, `MemoryImage`: placing the memory regions of a process, the page table handed to
  gem5, and the memory image assembled from backing files and core segments. Main result:
  `ImageCorrect` and `CreateCheckpoint`, every mapped address reads back the byte it had.
- `CptUpgrader`, `UpgradeLoading`, `UpgradeOrder`: loading upgrader scripts, resolving their
  dependencies, the worklist that migrates a checkpoint, and the order in which it runs the scripts.
  Main results: `LoadedEdges`, `StuckIffCycle`, `ProcessFile`, `ProcessTwice`, `CompletesIff`,
  `RunOrderIff`, `LegacyOrderIff`, `PromiseIff`.
- `EvenSelection`, `Scheduler`, `SchedulerPasses`, `SchedulerRuns`: picking evenly spaced checkpoints,
  and the scheduler that simulates them, as a step relation over observations of clocks and tasks,
  refined by a class with the source's dictionaries and loops. Main results: `RunConsistent`, `RunKeeps`,
  `ShortExitComplete`, `PollResult`, `StragglerResult`, `RunBudget`, `StragglersEnd`, `OvershootIff`,
  `WindowUpper`, `WindowLower`.
- `Protolib` (over `Streams`): varints and length-delimited messages. Main results: `DecodeAny`,
  `DecodeIs`, `FramingRoundTrip`, `CutInPrefix`.
- `ReorderQueue`, `Timeline` (over `PipeTrace`): the bounded sorting queue of the pipeline viewer and
  its charts. Main results: `OutputIs`, `OutputSorted`, `BoundIsTight`, `ChartShows`, `RowWidth`.
- `DepTrace`, `DateRanges` (over `Text`): the dependency-trace text format and the copyright years.
  Main results: `TraceRoundTrip`, `ParseLineIs`, `DateRoundTrip`, `RunsShortest`.
- `PortBinding`, `PortOrders`, `TesterTree`, `Aggregator`: binding vector ports from a configuration,
  building the tree of memory testers, merging checkpoints. Main results: `BindingSound`,
  `BindingComplete`, `OrderableIff`, `Build`, `CacheServes`, `EntryReads`, `RangeSizeExact`.

`Basics`, `Arithmetic` and `Graphs` hold shared types and facts. Code that works by updating state is
modelled by methods with loops, and by classes where the source has objects, dictionaries or files;
each is proved equal to a specification function, and the properties are lemmas about those functions.
Clocks, polling results, the order in which sets are visited, the contents of files and the output of
gdb are parameters. `dafny verify dfyconfig.toml` checks the project.

Where a promise of the source does not hold on all its inputs, the code is modelled as it is and the
exact condition is proved:

- Migrating a checkpoint runs missing legacy versions in ascending order for every file with a legacy
  version number (`LegacyFileAscending`). For a file with tags, the worklist runs in rounds, and version
  a is sure to run before version b exactly when fewer versions in a row are missing up to a than up to b
  (`LegacyOrderIff`, from `RunOrderIff` for all scripts); `GapUnordered` gives a failing family.
- The comment at custom_gem5/util/cpt_upgrader.py:60-65 wants a tag with a downgrader to be removed
  before the scripts that depend on it run. The code at lines 140-144 requires the tag to be present
  instead. For a file that is migrated to the end the documented order is kept in every run exactly when
  no script to run depends on such a tag (`PromiseIff`, with the input of `PromiseBroken`), and a file
  without the tag cannot be migrated (`AbsentAborts`); `CompletesIff` says which files can.
- The scheduler can count more successes than its target, after a polling timeout; some run does so
  exactly when the start needs a success and has more candidates than it needs (`OvershootIff`).
- `bind_ports` says that one of each pair of connections is bindable because the list is sorted.
  `SortedMisses` is a wiring that can be bound in order and on which it raises all the same;
  `BindingComplete` says when it raises and `OrderableIff` which wirings can be bound at all.
- A message stream reads back exactly if no message is empty (`FramingRoundTrip`); the recorded memory
  size of merged checkpoints is exact exactly if the memory files are complete (`RangeSizeExact`); years
  read back exactly if neighbouring years have four digits (`DateRoundTrip`); a chart row keeps its width
  exactly if no two stages drawn in it have ticks in the same column (`RowWidth`, with the input of
  `TooWide`), and an instruction without ticks cannot be drawn (`PrintInst`).

## Model

| member | source | states |
|---|---|---|
| `MemoryLayout.GetMemoryRegions` | lapidary/checkpoint/GDBEngine.py:97-108 | each region is placed where the sum of the sizes before it ends, with flags 0 |
| `MemoryLayout.CreateMappings` | lapidary/checkpoint/GDBEngine.py:110-138 | the dictionary filled in the nested loops is the page table when expanded and the region table otherwise |
| `MemoryLayout.CalculateMemorySize` | lapidary/checkpoint/GDBEngine.py:171-176 | the result is twice the least bound on the ends of all mappings, 0 when there are none |
| `MemoryLayout.PlacementDisjoint` | lapidary/checkpoint/GDBEngine.py:103-106 | physical ranges of different regions never overlap, and neighbours touch |
| `MemoryLayout.PlacedAboveZero` | lapidary/checkpoint/GDBEngine.py:128 | only the first region is placed at physical address 0, so the test for 0 singles out that region |
| `MemoryLayout.RegionTableAt` | lapidary/checkpoint/GDBEngine.py:134 | every region is found under its own virtual address |
| `MemoryLayout.RegionTableKey` | lapidary/checkpoint/GDBEngine.py:134 | every key of the region table is the address of some region |
| `MemoryLayout.AddPagesAt` | lapidary/checkpoint/GDBEngine.py:127-132 | expanding one region adds exactly its page addresses and leaves every other key as it was |
| `MemoryLayout.PageTableAt` | lapidary/checkpoint/GDBEngine.py:120-132 | the page table holds exactly the page addresses inside regions, each with its region and offset |
| `MemoryLayout.PagePhysical` | lapidary/checkpoint/GDBEngine.py:128 | the special case for physical address 0 never changes a page of well-formed regions: every page keeps its offset in the region |
| `MemoryLayout.TranslationAgrees` | lapidary/checkpoint/GDBEngine.py:110-138 | translating through the page table and through the region table gives the same physical address for every mapped address |
| `MemoryLayout.TranslationDomain` | lapidary/checkpoint/GDBEngine.py:110-138 | an address translates if and only if it lies in some region |
| `MemoryLayout.TranslationInjective` | lapidary/checkpoint/GDBEngine.py:110-138 | no two mapped addresses share a physical address |
| `MemoryLayout.MemorySizesAgree` | lapidary/checkpoint/GDBEngine.py:207-212 | the size computed from the page table is the size the region table would give: twice the total size of the regions |
| `MemoryLayout.LastPage` | lapidary/checkpoint/GDBEngine.py:127-132 | the last page of the last region ends at the total size |
| `MemoryImage.PmemFile.Truncate` | lapidary/checkpoint/CheckpointConvert.py:58 | the file has exactly the size asked for, its old bytes as far as they go and zeros beyond |
| `MemoryImage.WriteAtIs` | lapidary/checkpoint/CheckpointConvert.py:83-84 | after a write each byte is the written one inside it, the old one elsewhere, and zero in the hole a write past the end leaves |
| `MemoryImage.CopyRegion` | lapidary/checkpoint/CheckpointConvert.py:65-84 | one write of the file slice for every loadable segment that does not span the region |
| `MemoryImage.CopyFiles` | lapidary/checkpoint/CheckpointConvert.py:60-84 | the first pass is the replay of all regions' file writes, in dictionary order |
| `MemoryImage.LoadSegments` | lapidary/checkpoint/CheckpointConvert.py:86-101 | the second pass succeeds if and only if every loadable segment passes the three assertions, and is then the replay of the core writes |
| `MemoryImage.CreatePmemFile` | lapidary/checkpoint/CheckpointConvert.py:49-103 | on success the file is the two passes replayed over zeros; it fails exactly when an assertion does |
| `MemoryImage.ReplayAt` | lapidary/checkpoint/CheckpointConvert.py:57-101 | where all writes that touch a byte agree on it, the replay leaves that value; where none does, the old byte |
| `MemoryImage.SpanContiguous` | lapidary/checkpoint/CheckpointConvert.py:91-101 | regions that cover an address range without holes are laid out without holes |
| `MemoryImage.SegmentPlaced` | lapidary/checkpoint/CheckpointConvert.py:91-101 | a segment that starts at a region and covers only mapped addresses lands, byte by byte, where the page table translates it, also across several adjacent regions |
| `MemoryImage.CoreWriteHits` | lapidary/checkpoint/CheckpointConvert.py:91-101 | a segment write touches the image of a mapped address if and only if the segment covers that address |
| `MemoryImage.FileWriteHits` | lapidary/checkpoint/CheckpointConvert.py:65-84 | a file write stays inside its own region and there puts the byte of the backing file |
| `MemoryImage.BackingPlaced` | lapidary/checkpoint/CheckpointConvert.py:60-84 | after the first pass every mapped byte is the backing file's byte when the file is there and long enough, the region is not the null page, and some loadable segment starts above the region start or ends at or below it; otherwise 0 |
| `MemoryImage.CorePlaced` | lapidary/checkpoint/CheckpointConvert.py:86-101 | after the second pass a byte under some segment is that segment's, and every other byte is untouched |
| `MemoryImage.ImageCorrect` | lapidary/checkpoint/CheckpointConvert.py:49-103 | reading the finished image through the page table gives, at every mapped address, the byte of a loadable segment over it that starts where a region does; otherwise the byte of the region's file, when it is there and long enough, the region is not the null page and some loadable segment does not reach over the region start; otherwise 0 |
| `MemoryImage.ImageLength` | lapidary/checkpoint/CheckpointConvert.py:57-101 | no write extends the image past its declared size |
| `MemoryImage.ContainsStack` | lapidary/checkpoint/GDBEngine.py:214 | the test on names finds the word stack exactly where it occurs |
| `MemoryImage.CountStacks` | lapidary/checkpoint/GDBEngine.py:214-215 | the count is one exactly when a single region has the word in its name |
| `MemoryImage.CreateCheckpoint` | lapidary/checkpoint/GDBEngine.py:198-234 | engine and converter together: they succeed exactly when one mapping is a stack, every loadable segment is whole pages with its file size equal to its memory size, and those that start at a region hold that many bytes; then the page table and the image read back every mapped address as described for the image |
| `CptUpgrader.Registry.Register` | custom_gem5/util/cpt_upgrader.py:94-138 | registration keeps the tables by tag and by version in step with the list of scripts |
| `CptUpgrader.Registry.ChainLegacy` | custom_gem5/util/cpt_upgrader.py:167-171 | every reached legacy version ends up depending on its predecessor alone; the step fails exactly when version 3 exists without version 2 |
| `CptUpgrader.Registry.AddForward` | custom_gem5/util/cpt_upgrader.py:174-180 | exactly the targets of forward dependencies gain the dependency; it fails exactly when a target is unknown |
| `CptUpgrader.Registry.Audit` | custom_gem5/util/cpt_upgrader.py:181-185 | accepts a tag exactly when all its dependencies are known |
| `CptUpgrader.Registry.ResolveAndAudit` | custom_gem5/util/cpt_upgrader.py:173-185 | the interleaved resolving and auditing accepts exactly the script lists whose declared dependencies all exist, whatever the order of the tags |
| `CptUpgrader.Registry.LoadAll` | custom_gem5/util/cpt_upgrader.py:160-185 | loading succeeds exactly for loadable script lists; the table then holds their tags and versions, its edges are exactly the declared, chained and forward dependencies, and it is audited |
| `CptUpgrader.TablesAre` | custom_gem5/util/cpt_upgrader.py:135-138 | the lookup tables point to scripts with that tag or version |
| `CptUpgrader.LegacyChained` | custom_gem5/util/cpt_upgrader.py:167-171 | with distinct tags every reached legacy version depends on the version before it |
| `UpgradeLoading.LoadedEdges` | custom_gem5/util/cpt_upgrader.py:167-185 | a loaded script waits for exactly the legacy version before it, if none is missing from 2 up to its own, or else what it declares, and for the scripts that name it as a forward dependency |
| `UpgradeLoading.LoadedTags` | custom_gem5/util/cpt_upgrader.py:119-138 | the tags to add and to remove and the legacy versions are exactly those of the upgraders and downgraders |
| `UpgradeLoading.LoadableIff` | custom_gem5/util/cpt_upgrader.py:167-185 | loading succeeds exactly if version 3 comes with version 2 and every tag a script waits for or forwards to exists |
| `CptUpgrader.NotReadyWaits` | custom_gem5/util/cpt_upgrader.py:140-144 | in an upgrade-only table a script is not ready exactly when it waits on a missing tag |
| `CptUpgrader.RoundShrinks` | custom_gem5/util/cpt_upgrader.py:241-252 | a round with a ready script strictly shrinks the pending set |
| `CptUpgrader.BlockedHasCycle` | custom_gem5/util/cpt_upgrader.py:241-246 | a non-empty set of tags that all wait on each other contains a dependency cycle |
| `CptUpgrader.CycleBlocked` | custom_gem5/util/cpt_upgrader.py:241-246 | the tags of a cycle all wait on each other |
| `CptUpgrader.DrainStuck` | custom_gem5/util/cpt_upgrader.py:241-252 | what the worklist leaves is a set that waits on itself and contains every other such set |
| `CptUpgrader.StuckIffCycle` | custom_gem5/util/cpt_upgrader.py:240-252 | the worklist gets stuck if and only if the pending tags contain a dependency cycle; otherwise it ends with the initial tags and all known ones |
| `CptUpgrader.Update` | custom_gem5/util/cpt_upgrader.py:146-154 | an upgrader adds its tag, a downgrader removes it and fails when it is absent |
| `CptUpgrader.ApplyRound` | custom_gem5/util/cpt_upgrader.py:248-250 | whatever order the set of ready tags is visited in, the round runs each of them once and leaves the same tags |
| `CptUpgrader.TagsAt` | custom_gem5/util/cpt_upgrader.py:146-154 | after any number of rounds a tag to remove is there exactly while its downgrader is pending, and any other tag exactly if it was there before or its upgrader has run |
| `CptUpgrader.Removable` | custom_gem5/util/cpt_upgrader.py:151-154 | with distinct scripts a downgrader that is due always finds its tag, so the removal never fails |
| `CptUpgrader.Migrate` | custom_gem5/util/cpt_upgrader.py:240-252 | what ran is a run of the round-based worklist, nothing is left exactly when the worklist ever empties, and then every script to apply ran once; where no tag has two scripts, no removal fails and the tags at the end are those before plus the added minus the removed; on an upgrade-only table each script ran when its dependencies were present |
| `CptUpgrader.ProcessFile` | custom_gem5/util/cpt_upgrader.py:187-262 | the outcome for every version information where no tag has two scripts, with downgraders or without: fatal without any, a missing key exactly when a version from 2 to the file's has no script, an abort exactly when the worklist does not empty (without downgraders: exactly on a cycle among the pending tags), or a run of exactly the scripts that add a tag the file does not have or remove one it has, a file at version n having the tags of versions 2 to n; the final tags, and whether the file changed |
| `CptUpgrader.ProcessTwice` | custom_gem5/util/cpt_upgrader.py:187-262 | processing the result of a successful run again runs nothing and changes nothing, with downgraders or without |
| `CptUpgrader.LegacyAscending` | custom_gem5/util/cpt_upgrader.py:167-171 | legacy versions that are missing without a gap run in ascending order in every dependency order |
| `CptUpgrader.LegacyFileAscending` | custom_gem5/util/cpt_upgrader.py:211-222 | for a file with a legacy version number the missing versions always run in ascending order |
| `UpgradeOrder.OnTime` | custom_gem5/util/cpt_upgrader.py:241-252 | as long as no tag to remove goes missing too early, a script is pending after k rounds if and only if it heads a chain of k upgraders to wait for |
| `UpgradeOrder.InItsRound` | custom_gem5/util/cpt_upgrader.py:241-252 | where the worklist empties, every script runs in exactly the round whose number is the length of its longest chain of upgraders to wait for |
| `UpgradeOrder.HasLevel` | custom_gem5/util/cpt_upgrader.py:241-252 | without a cycle every script has such a length, no more than the number of upgraders to run |
| `UpgradeOrder.CompletesIff` | custom_gem5/util/cpt_upgrader.py:240-252 | with downgraders, everything runs if and only if the upgraders to run do not depend on each other in a cycle and every tag to remove that a script depends on is there and has a chain at least as long as the script's |
| `UpgradeOrder.RunOrderIff` | custom_gem5/util/cpt_upgrader.py:241-252 | where the worklist empties, over all runs and all visiting orders, one script is sure to run before another if and only if its longest chain is shorter |
| `UpgradeOrder.LoadedProper` | custom_gem5/util/cpt_upgrader.py:94-138 | scripts with different tags load into a table where each tag has an upgrader or a downgrader, not both |
| `UpgradeOrder.LoadedChain` | custom_gem5/util/cpt_upgrader.py:167-171 | scripts with different tags load into a chain of legacy versions if those are upgraders, version 2 declares no dependency, and none is forwarded to them, whatever other scripts there are |
| `UpgradeOrder.GapIs` | custom_gem5/util/cpt_upgrader.py:223-224 | the number of missing versions in a row up to version a is its distance from the highest version, a itself or below, that the file has, or from version 1 |
| `UpgradeOrder.LegacyHeads` | custom_gem5/util/cpt_upgrader.py:167-171 | the chains of upgraders that a legacy version waits for are those of the missing versions in a row up to it |
| `UpgradeOrder.LegacyOrderIff` | custom_gem5/util/cpt_upgrader.py:223-252 | where the worklist empties, missing version a is sure to run before missing version b if and only if fewer versions in a row are missing up to a than up to b |
| `UpgradeOrder.GapUnordered` | custom_gem5/util/cpt_upgrader.py:223-252 | an older missing version is not sure to run before a missing version whose predecessor is there |
| `UpgradeOrder.NotGone` | custom_gem5/util/cpt_upgrader.py:60-65 | where the worklist empties, a tag to remove is there as long as a script that depends on it is pending, so it never goes in an earlier round |
| `UpgradeOrder.AbsentAborts` | custom_gem5/util/cpt_upgrader.py:60-65 | a script that depends on a tag to remove which the file does not have stays pending for ever |
| `UpgradeOrder.PromiseIff` | custom_gem5/util/cpt_upgrader.py:60-65 | in all runs of a completing file, removed tags are removed before the scripts that depend on them, as documented, if and only if no script to run depends on such a tag |
| `UpgradeOrder.PromiseBroken` | custom_gem5/util/cpt_upgrader.py:60-65 | a table on which a completing run breaks the documented order, and on which a file without the tag is stuck |
| `EvenSelection.SelectEvenlySpaced` | lapidary/utils/Utils.py:98-113 | as many keys as wanted, all of them when fewer exist, none for a negative number; every one a given key |
| `EvenSelection.PickDistance` | lapidary/utils/Utils.py:106-108 | the positions of picks i and i+k differ from the exact k n/m by less than one |
| `EvenSelection.PickAscends` | lapidary/utils/Utils.py:106-108 | picked positions strictly increase |
| `EvenSelection.FirstPick` | lapidary/utils/Utils.py:106-108 | the first pick is at n//(2m) |
| `EvenSelection.PickInRange` | lapidary/utils/Utils.py:106-108 | all m picks are inside the list |
| `EvenSelection.PickGap` | lapidary/utils/Utils.py:106-108 | neighbouring picks are n//m or n//m+1 apart |
| `EvenSelection.WindowUpper` | lapidary/utils/Utils.py:106-108 | any window of L positions holds fewer than L m/n + 1 picks |
| `EvenSelection.WindowLower` | lapidary/utils/Utils.py:106-108 | any window of L positions inside the list that starts at or after n//(2m) holds more than L m/n - 1 picks |
| `EvenSelection.SelectionDistinct` | lapidary/utils/Utils.py:98-113 | selection repeats no key |
| `EvenSelection.SelectionInOrder` | lapidary/utils/Utils.py:106-108 | selected keys come from strictly increasing positions inside the sorted list |
| `Scheduler.FinishConserved` | lapidary/simulate/ParallelSim.py:248-257 | finishing a task keeps the split of the candidates, the agreement of the dictionaries and the counters |
| `Scheduler.PollConserved` | lapidary/simulate/ParallelSim.py:243-263 | so does a whole polling pass, with the finished tasks still to be swept |
| `Scheduler.StragglersConserved` | lapidary/simulate/ParallelSim.py:280-303 | so does a whole straggler pass |
| `Scheduler.SweepConserved` | lapidary/simulate/ParallelSim.py:265 | sweeping the finished tasks makes the three dictionaries agree again |
| `Scheduler.SubmitConserved` | lapidary/simulate/ParallelSim.py:221-235 | a main-loop round starts at least one checkpoint and no more than needed, exactly as many as it removes from the candidates, and loses none |
| `Scheduler.StepConsistent` | lapidary/simulate/ParallelSim.py:218-310 | every step from one loop head to the next keeps conservation and what each loop exit implies |
| `Scheduler.RunConsistent` | lapidary/simulate/ParallelSim.py:203-310 | at every loop head of every run the candidates split exactly into unsubmitted, in flight and finished, the dictionaries have the same keys, and each counter is its starting value plus this run's outcomes |
| `Scheduler.ShortExitComplete` | lapidary/simulate/ParallelSim.py:275-310 | a run that ends short of its target has nothing in flight, every candidate has a final status, and the counters account for all of them |
| `Scheduler.RunKeeps` | lapidary/simulate/ParallelSim.py:218-310 | over any stretch of any run a final status never changes and a submitted checkpoint never becomes submittable again |
| `Scheduler.PollUnderTarget` | lapidary/simulate/ParallelSim.py:239-271 | a polling pass keeps successes plus tasks in flight under the target |
| `Scheduler.NoOvershoot` | lapidary/simulate/ParallelSim.py:218-310 | in a run without a polling timeout the success count never passes the target |
| `SchedulerPasses.MainResult` | lapidary/simulate/ParallelSim.py:218-235 | at the head of the main loop: the run is done when the target is reached, waits for stragglers when no candidate is left, and otherwise starts the candidates at the evenly spaced places, in order, each with its own start time; the others stay in their order |
| `SchedulerPasses.PollResult` | lapidary/simulate/ParallelSim.py:239-271 | a polling pass counts each finished task as a success if it has a result file and as a failure otherwise, and its checkpoint says so; no other status changes; waiting tasks stay, with a new start time behind a finished one; the round is over exactly when all have finished, the target is reached, or none has finished and one has run for more than an hour |
| `SchedulerPasses.StragglerResult` | lapidary/simulate/ParallelSim.py:277-306 | a straggler pass does the same, and records tasks that have run for an hour as timed out and failed; the run ends exactly when every straggler is of that kind |
| `SchedulerRuns.RunBudget` | lapidary/simulate/ParallelSim.py:218-235 | tasks started plus candidates left never change, so a run starts at most as many tasks as there are candidates, and no more rounds than tasks |
| `SchedulerRuns.StragglersEnd` | lapidary/simulate/ParallelSim.py:275-306 | once every straggler is ready or has run too long, two more passes end the run |
| `SchedulerRuns.SuccessesBounded` | lapidary/simulate/ParallelSim.py:218-310 | no run counts more new successes than it had candidates |
| `SchedulerRuns.Overshoots` | lapidary/simulate/ParallelSim.py:218-273 | for every start with more candidates than are needed, a run with a clock that never goes back which passes its target |
| `SchedulerRuns.OvershootIff` | lapidary/simulate/ParallelSim.py:218-310 | some run with a clock that never goes back passes its target if and only if the start needs at least one success and has more candidates than it needs |
| `Scheduler.ParallelSim.LaunchTask` | lapidary/simulate/ParallelSim.py:229-235 | a started task enters all three dictionaries |
| `Scheduler.ParallelSim.SubmitRound` | lapidary/simulate/ParallelSim.py:221-235 | the loops of a round compute the submission step |
| `Scheduler.ParallelSim.Conclude` | lapidary/simulate/ParallelSim.py:249-257 | a finished task leaves two dictionaries, is counted, and its checkpoint gets its status |
| `Scheduler.ParallelSim.PollTasks` | lapidary/simulate/ParallelSim.py:239-271 | the polling loop computes the polling pass and the decision to stop waiting |
| `Scheduler.ParallelSim.PollStragglers` | lapidary/simulate/ParallelSim.py:277-306 | the straggler loop computes the straggler pass and the decision to terminate |
| `Scheduler.ParallelSim.Start` | lapidary/simulate/ParallelSim.py:186-310 | the nested loops follow the step relation for every sequence of observations, and end in a consistent state |
| `Scheduler.Recount` | lapidary/simulate/ParallelSim.py:64-84 | the candidates are those without an earlier status other than not run, and the counters are the numbers of earlier successes and failures |
| `Scheduler.Resume` | lapidary/simulate/ParallelSim.py:64-133 | the constructor fails exactly when no candidate left over by earlier runs has an image; otherwise those without are marked invalid, earlier results are kept and counted, the run starts consistent, at or under its target, and the target is the smaller of what was asked and what is available |
| `Protolib.EncodeVarint32` | custom_gem5/util/protolib.py:146-158 | the loop writes the base-128 digits, low first, all but the last with the top bit set |
| `Protolib.DecodeVarint32` | custom_gem5/util/protolib.py:101-129 | the loop reads the first varint of the stream and consumes exactly the bytes it looked at |
| `Protolib.DecodeEncoded` | custom_gem5/util/protolib.py:101-129 | decoding an encoded value from any point of a decode adds its shifted value, or fails after ten bytes |
| `Protolib.DecodeAny` | custom_gem5/util/protolib.py:101-129 | for any bytes: the number ends at the first byte below 128 among the first ten and is their low seven bits, lowest first; fewer bytes without such an end are the end of input, ten of them an error |
| `Protolib.DecodeIs` | custom_gem5/util/protolib.py:101-129 | what decoding an encoded value gives for every value: itself modulo 2^32 below 2^63, that less 2^32 up to 2^70, an error above |
| `Protolib.RoundTrip` | custom_gem5/util/protolib.py:101-158 | every value below 2^32 decodes to itself whatever follows, in at most five bytes |
| `Protolib.EncodedLength` | custom_gem5/util/protolib.py:146-158 | the encoding has one byte per seven bits |
| `Protolib.LengthBound` | custom_gem5/util/protolib.py:146-158 | at most k bytes if and only if the value is below 2^(7k) |
| `Protolib.PrefixFree` | custom_gem5/util/protolib.py:146-158 | no encoding is a prefix of another |
| `Protolib.EncodeMessage` | custom_gem5/util/protolib.py:160-166 | appends the length and the payload |
| `Protolib.DecodeMessage` | custom_gem5/util/protolib.py:131-144 | reads one message and leaves the stream behind it; a zero length is the end |
| `Protolib.DecodeAll` | custom_gem5/util/decode_inst_dep_trace.py:157 | decoding until the first failure collects exactly the messages of the stream |
| `Protolib.ReadStream` | custom_gem5/util/protolib.py:131-166 | messages written before any tail are read back first, in order |
| `Protolib.CutInPrefix` | custom_gem5/util/protolib.py:131-144 | a stream cut inside a later length prefix reads as the messages before it |
| `Protolib.CutInPayload` | custom_gem5/util/protolib.py:131-144 | a stream cut inside a payload hands over the shortened payload |
| `Protolib.EmptyStops` | custom_gem5/util/protolib.py:138-139 | an empty message ends the reading, whatever follows |
| `Protolib.ReadHuge` | custom_gem5/util/protolib.py:131-144 | a length from 2^63 to 2^70 is taken for a negative one, and all that is left is read as one message |
| `Protolib.FramingRoundTrip` | custom_gem5/util/protolib.py:131-166 | a stream reads back as exactly the messages written if and only if none of them is empty |
| `ReorderQueue.InstQueue.PopTo` | custom_gem5/util/o3-pipeview.py:170-188 | pops from the front until the given number is left and prints those that pass the filters |
| `ReorderQueue.InstQueue.PrintInsts` | custom_gem5/util/o3-pipeview.py:166-188 | sorts the queue and pops the lowest |
| `ReorderQueue.InstQueue.QueueInst` | custom_gem5/util/o3-pipeview.py:159-164 | appends and flushes above the maximum, so that at most the maximum number waits between calls |
| `ReorderQueue.ProcessTrace` | custom_gem5/util/o3-pipeview.py:128-149 | the whole trace pushed and then flushed to the end: the output is, each as often as it arrived, the instructions inside the window of sequence numbers and fetch ticks, retired ones only if asked; sorted under bounded disorder |
| `ReorderQueue.LowestBelowFuture` | custom_gem5/util/o3-pipeview.py:47-52 | under bounded disorder an entry with that many above it in the queue is not above anything still to arrive |
| `ReorderQueue.FlushInOrder` | custom_gem5/util/o3-pipeview.py:166-188 | a flush down to the minimum keeps the output sorted and below everything waiting or to come |
| `ReorderQueue.PushInOrder` | custom_gem5/util/o3-pipeview.py:159-164 | so does every arrival |
| `ReorderQueue.OutputSorted` | custom_gem5/util/o3-pipeview.py:157-188 | if no instruction is preceded by more than the minimum threshold of larger ones, the output is sorted and is exactly the instructions that pass the filters |
| `ReorderQueue.OutputIs` | custom_gem5/util/o3-pipeview.py:170-188 | for every trace, in whatever order, the output is exactly the instructions that were asked for |
| `ReorderQueue.BoundIsTight` | custom_gem5/util/o3-pipeview.py:47-52 | for every pair of thresholds there is a trace with disorder one above the minimum that comes out unsorted |
| `Timeline.DrawEvents` | custom_gem5/util/o3-pipeview.py:265-283 | the loop over the events writes dots and letters from left to right |
| `Timeline.DrawRow` | custom_gem5/util/o3-pipeview.py:250-283 | one row of the chart; fails exactly when it is the only row and has no events |
| `Timeline.RowsCover` | custom_gem5/util/o3-pipeview.py:227-254 | the rows cover every tick from the start of the first row to the last event, each in exactly one row, and the last row holds the last event |
| `Timeline.NoEvents` | custom_gem5/util/o3-pipeview.py:253-266 | the only row is without events exactly when no stage has a tick |
| `Timeline.PrintInst` | custom_gem5/util/o3-pipeview.py:190-294 | all rows of an instruction; fails exactly on an instruction without ticks |
| `Timeline.LineLength` | custom_gem5/util/o3-pipeview.py:268-283 | a row is its width plus one cell for each letter that shares a column with another |
| `Timeline.NoCollisions` | custom_gem5/util/o3-pipeview.py:268-283 | no column is shared if and only if the columns strictly ascend |
| `Timeline.RowWidth` | custom_gem5/util/o3-pipeview.py:250-283 | for any ticks, a row has exactly its width if and only if no two different stages drawn in it have ticks in the same column |
| `Timeline.TooWide` | custom_gem5/util/o3-pipeview.py:268-283 | an instruction decoded in the tick of its fetch gets a row that is too wide |
| `Timeline.OnOwnRow` | custom_gem5/util/o3-pipeview.py:251-262 | each event falls into exactly one row |
| `Timeline.RowAscending` | custom_gem5/util/o3-pipeview.py:255-281 | on a well-timed chart the letters of a row are in strictly ascending columns inside the row |
| `Timeline.TimelineShows` | custom_gem5/util/o3-pipeview.py:190-294 | on a well-timed chart a cell shows a stage's letter if and only if it is the cell of that stage's cycle |
| `Timeline.ChartShows` | custom_gem5/util/o3-pipeview.py:190-294 | a cell shows f, d, n, p, i, c, r or s where the tick of fetch, decode, rename, dispatch (unless it is that of issue), issue, complete, retire or store falls in it, and otherwise a dot for a retired instruction and = for an abandoned one |
| `Timeline.RowCount` | custom_gem5/util/o3-pipeview.py:236-244 | an instruction that ends within a row of its fetch gets one row; any other as many as reach exactly to its last stage |
| `Timeline.TiesByName` | custom_gem5/util/o3-pipeview.py:264 | letters are drawn by their offset in the row, and by the names of the stages where that is the same |
| `DepTrace.PrintRecords` | custom_gem5/util/decode_inst_dep_trace.py:157-206 | the loop writes the printed form of all records and counts packets and those with register and with order dependencies |
| `DepTrace.PrintFields` | custom_gem5/util/decode_inst_dep_trace.py:160-191 | the fields in the order of the script, absent pc and weight as their defaults, absent address fields left out |
| `DepTrace.PrintDeps` | custom_gem5/util/decode_inst_dep_trace.py:194-204 | each dependency behind a comma |
| `DepTrace.LineIs` | custom_gem5/util/decode_inst_dep_trace.py:160-206 | the text of a line, character by character: sequence number, pc or 0, weight or 1, type, the address fields that are there, delay, and the two lists of dependencies, each number behind a comma, behind colons |
| `DepTrace.ParseTrace` | custom_gem5/util/encode_inst_dep_trace.py:150-198 | all lines parsed, stopping at the first that is not a record |
| `DepTrace.ParseLineIs` | custom_gem5/util/encode_inst_dep_trace.py:151-195 | any line is read as a record exactly if it has three parts between colons, numerals where the record has numbers, the name of a valid type, four more fields for loads and stores and one otherwise, and the numerals of the dependencies between commas |
| `DepTrace.DepsRoundTrip` | custom_gem5/util/encode_inst_dep_trace.py:184-195 | printed dependencies parse back in order |
| `DepTrace.LineSplits` | custom_gem5/util/encode_inst_dep_trace.py:151-152 | a printed line splits into exactly the fields and dependencies that were printed |
| `DepTrace.FieldsRoundTrip` | custom_gem5/util/encode_inst_dep_trace.py:155-180 | printed fields parse back, with defaults filled in, if and only if address, size and flags are there exactly for loads and stores and the type is valid |
| `DepTrace.RecordRoundTrip` | custom_gem5/util/encode_inst_dep_trace.py:150-198 | the same for a whole line |
| `DepTrace.TraceRoundTrip` | custom_gem5/util/encode_inst_dep_trace.py:150-198 | a printed trace parses back to its records, defaults filled in, if and only if every record is of that shape |
| `DateRanges.DateStr` | custom_gem5/util/find_copyrights.py:175-199 | the sorted years as comma-separated runs; fails exactly on the empty set |
| `DateRanges.PrintRuns` | custom_gem5/util/find_copyrights.py:179-197 | the loop over first and second prints the runs |
| `DateRanges.ProcessDates` | custom_gem5/util/find_copyrights.py:98-116 | a year is read exactly if some piece between commas starts with four digits, a hyphen with white space around it and four digits, and the year lies between them, or starts with no such range and is its numeral |
| `DateRanges.MatchRangeIs` | custom_gem5/util/find_copyrights.py:97 | the matcher finds a range exactly where there is one |
| `DateRanges.RunsAre` | custom_gem5/util/find_copyrights.py:175-199 | the runs are ascending, disjoint, never adjacent, and cover exactly the years |
| `DateRanges.RunsShortest` | custom_gem5/util/find_copyrights.py:175-199 | no shorter list of ranges covers the same years |
| `DateRanges.ReadRange` | custom_gem5/util/find_copyrights.py:98-116 | a printed range is read as part of itself, and as all of itself if and only if it is one year or a range of four-digit years |
| `DateRanges.ReadRanges` | custom_gem5/util/find_copyrights.py:98-116 | separated ranges read back as what they cover if and only if each is readable |
| `DateRanges.DateRoundTrip` | custom_gem5/util/find_copyrights.py:98-199 | a printed set of years reads back as itself if and only if neighbouring years both have four digits; in particular for four-digit years |
| `PortBinding.CompareIs` | custom_gem5/configs/example/read_config.py:148-150 | connections compare by object name, port name and index of the first end and then of the second, names as in a dictionary |
| `PortBinding.SortIs` | custom_gem5/configs/example/read_config.py:322 | the sorted list has the same connections, in that order |
| `PortBinding.SortUnique` | custom_gem5/configs/example/read_config.py:322 | there is only one such list |
| `PortBinding.ZeroCounts` | custom_gem5/configs/example/read_config.py:298-301 | exactly the ports that connections come from start counting at 0 |
| `PortBinding.Consider` | custom_gem5/configs/example/read_config.py:325-331 | a connection is made exactly when both ends are the next element of their ports; the lookup fails exactly when the first end is next and the second port is unknown |
| `PortBinding.Pass` | custom_gem5/configs/example/read_config.py:321-331 | the loop makes the greedy list, and fails exactly when a lookup does |
| `PortBinding.BindPorts` | custom_gem5/configs/example/read_config.py:290-336 | the three outcomes: unknown port, not half of the connections made, or the greedy list |
| `PortBinding.SetPorts` | custom_gem5/configs/example/read_config.py:339-344 | the ports after appending the bindings one by one |
| `PortBinding.UsedInOrder` | custom_gem5/configs/example/read_config.py:303-309 | the used elements of a port are always its first ones |
| `PortBinding.NeverTwice` | custom_gem5/configs/example/read_config.py:320-331 | no connection is made twice, nor in both directions |
| `PortBinding.HalfIsAll` | custom_gem5/configs/example/read_config.py:333-336 | the test for half of the connections holds if and only if each was made, and then each was made in exactly one direction |
| `PortBinding.AppendsHold` | custom_gem5/configs/example/read_config.py:339-344 | appending bindings in order puts a peer at a position if and only if that connection was made |
| `PortBinding.NoUnknownPort` | custom_gem5/configs/example/read_config.py:290-301 | with both directions listed no lookup fails |
| `PortBinding.BindingSound` | custom_gem5/configs/example/read_config.py:290-344 | without an exception each connection is made in exactly one direction, each port's elements in order, and the ports hold exactly the configured peers |
| `PortBinding.GreedyKeepsUp` | custom_gem5/configs/example/read_config.py:311-331 | against any choice of directions along the list that binds elements in order, the pass has made whatever the choice has made |
| `PortBinding.BindingComplete` | custom_gem5/configs/example/read_config.py:311-336 | the exception is raised if and only if no choice of directions along the sorted list makes every connection in order |
| `PortBinding.Bind` | custom_gem5/configs/example/read_config.py:290-344 | the whole operation: a result holds exactly the configured wiring, and there is one exactly when some choice of directions works along the connections in tuple order |
| `PortBinding.CrossedPorts` | custom_gem5/configs/example/read_config.py:311-313 | two ports connected crosswise: nothing can be bound |
| `PortOrders.OrderableIff` | custom_gem5/configs/example/read_config.py:290-336 | the connections can be made in some order if and only if no element is left out below a connected one and no connections wait for each other in a cycle |
| `PortOrders.BoundIsOrderable` | custom_gem5/configs/example/read_config.py:333-336 | whatever the pass succeeds on can be ordered |
| `PortOrders.SortedMisses` | custom_gem5/configs/example/read_config.py:311-336 | three connections, listed in both directions, that can be made in order and of which the sorted pass makes only two, so that it raises |
| `TesterTree.Multipliers` | custom_gem5/configs/example/memtest.py:119-123 | the multiplier of a level is the product of the cache counts before it |
| `TesterTree.NumTesters` | custom_gem5/configs/example/memtest.py:118-129 | the sum of testers times multipliers, over the shorter of the two lists |
| `TesterTree.Check` | custom_gem5/configs/example/memtest.py:154-179 | accepts exactly the specifications with matching lengths, positive cache counts, non-negative testers, some at the top, and no more than the block size in all |
| `TesterTree.Prototypes` | custom_gem5/configs/example/memtest.py:192-216 | one prototype per level, the L1 prototype last, each scaled from the next |
| `TesterTree.PrototypeAt` | custom_gem5/configs/example/memtest.py:196-216 | outwards from L1, sizes, associativity and miss registers multiply by the cache counts, all latencies by ten, and inclusion and clean writeback alternate |
| `TesterTree.NamesDiffer` | custom_gem5/configs/example/memtest.py:247 | different levels or indices give different attribute names |
| `TesterTree.Tree.Attach` | custom_gem5/configs/example/memtest.py:241-247 | a new subsystem gets the next index of its level and never an existing name |
| `TesterTree.Tree.MakeCacheLevel` | custom_gem5/configs/example/memtest.py:238-299 | every lookup is in range; a subtree adds to each level as many subsystems as its fan-out and as many testers as its cache counts call for, and every cache that fans out gets its subsystem; it fails exactly at a leaf without a cache |
| `TesterTree.Tree.MakeSubtrees` | custom_gem5/configs/example/memtest.py:279-281 | the loop over the tree caches adds that many subtrees |
| `TesterTree.FanIsProduct` | custom_gem5/configs/example/memtest.py:238-281 | a level holds as many subsystems as the product of the cache counts nearer memory |
| `TesterTree.TestersAgree` | custom_gem5/configs/example/memtest.py:118-299 | the recursive construction creates exactly the number of testers of the product-sum formula |
| `TesterTree.CacheServes` | custom_gem5/configs/example/memtest.py:279-281 | exactly one subsystem hangs on each cache that fans out |
| `TesterTree.HangsOnCache` | custom_gem5/configs/example/memtest.py:269-281 | every subsystem but the one nearest memory hangs on a cache of a subsystem one level nearer memory |
| `TesterTree.Build` | custom_gem5/configs/example/memtest.py:192-302 | for every accepted specification: testers created, subsystems per level, names that are all different, and in each subsystem its testers with their interval and progress limit, an L1 cache for each, its caches that fan out, scaled from L1 by the cache counts, its crossbar and the cache it hangs on |
| `Aggregator.CopyPages` | custom_gem5/util/checkpoint_aggregator.py:105-112 | copies the declared pages, or the whole file when it is shorter |
| `Aggregator.Relocate` | custom_gem5/util/checkpoint_aggregator.py:72-77 | every physical address moves up by the pages before |
| `Aggregator.Merge` | custom_gem5/util/checkpoint_aggregator.py:61-115 | the loop over the checkpoints: relocated entries, total pages, largest tick, concatenated memories |
| `Aggregator.Pad` | custom_gem5/util/checkpoint_aggregator.py:121-129 | whole pages of the character 0 until the size asked for is reached, and no more |
| `Aggregator.Aggregate` | custom_gem5/util/checkpoint_aggregator.py:44-145 | the merged configuration and memory for any list of checkpoints; fails on the empty list |
| `Aggregator.BodyLength` | custom_gem5/util/checkpoint_aggregator.py:98-112 | a checkpoint's memory starts where its pages start if and only if all memory files before it are complete |
| `Aggregator.RangeSizeExact` | custom_gem5/util/checkpoint_aggregator.py:121-134 | the recorded range size is the exact length written if and only if every memory file holds its declared pages |
| `Aggregator.RelocatedByte` | custom_gem5/util/checkpoint_aggregator.py:74-112 | the merged memory holds at a relocated address the byte the checkpoint had |
| `Aggregator.EntryReads` | custom_gem5/util/checkpoint_aggregator.py:74-112 | following any relocated page-table entry reads what the entry's own checkpoint holds |
| `Aggregator.RelocationInjective` | custom_gem5/util/checkpoint_aggregator.py:74-99 | in-range addresses of different checkpoints never meet after relocation |

## Left out

- gdb commands, register values, template rendering, ELF parsing, gzip, progress bars, process pools, argument parsing and logging: input and output or foreign calls, whose results are parameters.
- MemoryLayout.WellFormed, MemoryImage.Dumped: the null page that the engine puts first, then non-empty, ascending, page-aligned and disjoint regions, and segments that are disjoint and cover mapped addresses; apart from the null page this is what gdb and the kernel deliver, not something the code checks.
- CptUpgrader.Migrate: where a tag has two scripts, the final tags and the failure of a removal are not stated; the comment at custom_gem5/util/cpt_upgrader.py:64-65 rules this out.
- CptUpgrader.Registry.Register: the exits for script attributes of the wrong type or for a script with neither an upgrader nor a downgrader; scripts are given as well-formed values.
- UpgradeLoading.LoadedEdges: for scripts with different tags and different legacy versions; where two share one, the tables keep the later, as `CptUpgrader.Registry.Register` says.
- UpgradeOrder.LegacyOrderIff: for legacy versions that are upgraders and depend on their predecessor alone, as `LoadedChain` describes; `RunOrderIff` covers all scripts.
- The effect of an upgrader script on the rest of the checkpoint file, and the text form of the tag list.
- Exceptions raised inside a simulation task (lapidary/simulate/ParallelSim.py:247): they end the run.
- Scheduler.ParallelSim.Start: a run is followed as far as a finite sequence of observations takes it, which covers every loop head of every run; that the tasks finish or time out is up to them, `StragglersEnd` says that the run then ends.
- Scheduler.Recount: a status `failed (timeout)` of an earlier run is not counted again, as in the source.
- Scheduler.NoOvershoot: one direction; a run with a polling timeout may or may not pass the target, and `OvershootIff` says when some run does.
- EvenSelection.SelectEvenlySpaced: the natural sort order of the keys is taken as given; candidates are listed in that order to begin with. A result file is identified by its checkpoint.
- Protolib.DecodeMessage: message contents are opaque bytes, so errors in parsing them are not modelled.
- Protolib.CutInPayload: hands over the shortened payload, as the code does; whether it then parses is up to the message type.
- ReorderQueue.ProcessTrace: trace lines are given as instructions, and the trace is read to its end; the early-stop flush at custom_gem5/util/o3-pipeview.py:134 passes one argument too few.
- Timeline.PrintInst: the rows as cells; colours and the text to the right of the chart are formatting.
- Timeline.ChartShows, Timeline.TimelineShows: for well-timed charts, in which ticks are multiples of the cycle time, none precedes fetch, and no two drawn stages share a tick; `RowWidth` covers all ticks.
- DepTrace.ParseTrace: numbers are plain digits; Python's `long` also accepts signs, white space and a suffix. Virtual addresses and address-space identifiers are not part of the printed form.
- DateRanges.ProcessDates: years are plain digits; Python's `int` also accepts signs.
- Parsing of configuration files and of port names (custom_gem5/configs/example/read_config.py:125-150): the connections are given.
- PortBinding.SetPorts: assigning a vector port is an append at both ends, in place of the simulator's port objects.
- PortBinding.BindingComplete: relative to the sorted order that the code fixes; which wirings some order can bind is `PortOrders.OrderableIff`.
- TesterTree.Tree.MakeCacheLevel: the ports inside a subsystem, from testers to their own caches and from caches to the crossbar.
- TesterTree.Build: the ports inside a subsystem, and the physical memory behind the last one.
- The random tester trees (custom_gem5/configs/example/memtest.py:135-145): they satisfy the accepted conditions by construction.
- Aggregator.Merge: the other items of the configuration, which are copied or renamed as text.
- Aggregator.Aggregate: of the configuration, the page-table entries, page count, process count, range size and tick; the other sections are text.
- Statistics and reports, the other gem5 configuration scripts and the disk-image tools: library wrappers or easy members.

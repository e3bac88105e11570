# Darwini population engine, modelled in Dafny

Darwini evolves robot controllers (perceptrons) with a genetic algorithm. The
class `Population` holds a list of individuals and a generation counter. Each
individual's controller is kept in the population directory as
`Individual<i>.xml`, where `i` is the individual's index; `Population` itself
never writes such a record (that is left to `Individual`, which is not part of
this model), it only copies, deletes and renames them. This project models
that class as a Dafny class, `Genetic.Population`, and proves what its
generation change does to the list and to the directory.

`nextGeneration` ranks the individuals by fitness, best first. `saveBest`
copies `Individual<i>.xml` to `Temp_Individual<i>.xml` for each survivor slot
`i` and renumbers the survivors `1 .. nbSurvivors`. The copied record is
whichever one held number `i` before ranking; see "## Findings" for why the
class copies the survivor's own record instead. `killWeaklings` deletes
`Individual1..size.xml` and truncates the list to the survivors. `loadBest` renames the temporary
records back. `generateChildren` appends children numbered
`nbSurvivors + 1 .. size`, each bred from two distinct survivors.
`nextGeneration` then increments the generation.

Files:

- `individuals.dfy`: `Individual` (index, controller, fitness) and `Controller`, which records how a controller was made (fresh, or crossed from two parents).
- `ranking.dfy`: `Collections.sort` as a stable ascending insertion sort (`Sorted`), `Collections.reverse` (`Reversed`) and their composition `Ranked`, with the permutation, ordering and top-`n` lemmas.
- `storage.dfy`: the directory as a `map<Key, Blob>`. Keys are `Live(i)`, `Temp(i)` and `Active`, the exported controller. The file also defines copy, delete and rename, the three loops of the protocol (`Snapshot`, `Purge`, `Restore`), and the lemmas that say what each record holds after them.
- `breeding.dfy`: `random(min, max)` over a caller-supplied sample in `[0, 1)`, the father-resampling loop's stopping condition (`Resamples`), and the children (`Brood`).
- `population.dfy`: the class. It has one method for each Java method that updates or reads the population. Each loop carries invariants tying it to the functions above. `copyFile`, `random` and `createDirs` are functions in `storage.dfy` and `breeding.dfy`, or are left out.

How the model reads the source:

- The individuals' natural order is taken to be ascending fitness. Sorting and then reversing therefore yields non-increasing fitness. Members of equal fitness come out in the reverse of their prior order (`Ranking.RankedReversesTies`, for any list).
- The constructor never checks `nbSurvivors`, and only logs a failure to create the directories. Instead, `NextGeneration` requires what the code needs in order to finish (see "## Left out"). Among these are draws on which every father-resampling loop stops, which is impossible with fewer than two survivors (`Breeding.DrawableNeedsTwoSurvivors`).
- A file operation whose source file is missing is logged by the Java code and changes nothing; the model does the same.
- Random choices are supplied by the caller. Each child gets one `Draw`: a sample for the mother and the samples the `do … while` loop consumes for the father.

## Model

| member | source | states |
|---|---|---|
| Ranking.SortedIsAscendingPermutation | src/model/genetic/Population.java:122 | the sort keeps exactly the same members (equal multisets) and orders them by ascending fitness |
| Ranking.ReversedAt | src/model/genetic/Population.java:123 | the reversal puts element k at position size-1-k and keeps the same members |
| Ranking.RankedIsDescendingPermutation | src/model/genetic/Population.java:122-123 | after sort-then-reverse the list is a permutation of the previous members with non-increasing fitness from front to back |
| Ranking.SurvivorsDominate | src/model/genetic/Population.java:122-129 | the first n ranked members and the rest together are the old members, and every kept member is at least as fit as every discarded one |
| Ranking.RankedFirstIsFittest | src/model/genetic/Population.java:257-267 | the first ranked member belongs to the population and its fitness is at least that of every member |
| Ranking.SortedIsStable | src/model/genetic/Population.java:122 | the sort is stable: for every fitness f, the members of fitness f keep their relative order |
| Ranking.RankedReversesTies | src/model/genetic/Population.java:122-123 | for every list and every fitness f, the members of fitness f come out of the ranking in the reverse of their prior order |
| Storage.Copy | src/model/genetic/Population.java:301-315 | the destination receives the source's bytes when the source exists; every other record, and everything when it does not, is unchanged |
| Storage.Delete | src/model/genetic/Population.java:168-170 | the record is absent afterwards and every other record is unchanged |
| Storage.Rename | src/model/genetic/Population.java:215-217 | an existing source moves to the destination and disappears; otherwise nothing changes |
| Storage.SnapshotAt | src/model/genetic/Population.java:146-154 | after the copy loop, Temp(i) holds the record copied for slot i when that record existed, and every other record is unchanged |
| Storage.PurgeAt | src/model/genetic/Population.java:167-177 | after the delete loop, Live(1..m) are absent and every other record is unchanged |
| Storage.RestoreAt | src/model/genetic/Population.java:214-224 | after the rename loop, Temp(1..m) are absent, each Live(i) holds what Temp(i) held (if Temp(i) existed), and every other record is unchanged |
| Storage.ProtocolAt | src/model/genetic/Population.java:125-129 | the record held under every key after the save, kill and load sequence, as a function of the records before it |
| Storage.AsWrittenRestoresPositions | src/model/genetic/Population.java:146-149 | with the copies as written, Live(i) holds its pre-advance bytes for i in 1..nbSurvivors, Live(nbSurvivors+1..size) are absent, and no Temp(1..nbSurvivors) remains |
| Storage.SurvivorRecordsFollowSurvivors | src/model/genetic/Population.java:125-129 | copying from the survivors' former indices, Live(i) holds the pre-advance record of the survivor now numbered i, Live(nbSurvivors+1..size) are absent, and no Temp(1..nbSurvivors) remains |
| Breeding.Trunc | src/model/genetic/Population.java:327 | the int cast truncates toward zero: the result is within one of the value, on the zero side |
| Breeding.Random | src/model/genetic/Population.java:326-328 | for a sample in [0, 1) the result lies in [min, max) when min < max, and equals min when min == max |
| Breeding.FatherOf | src/model/genetic/Population.java:240-242 | the father the resampling loop settles on differs from the mother and lies in [0, nbSurvivors) |
| Breeding.Parents | src/model/genetic/Population.java:239-242 | a child's mother and father positions lie in [0, nbSurvivors) and are distinct |
| Breeding.BroodWellFormed | src/model/genetic/Population.java:237-246 | one child per draw, the c-th numbered first+c, each crossed from two distinct members among the first nbSurvivors |
| Breeding.DrawableNeedsTwoSurvivors | src/model/genetic/Population.java:240-242 | the resampling loop can only stop when nbSurvivors is at least 2 |
| Genetic.TotalFitnessBounds | src/model/genetic/Population.java:280-282 | the accumulated fitness lies between length*lo and length*hi when every member's fitness lies in [lo, hi] |
| Genetic.AverageFitnessBounds | src/model/genetic/Population.java:276-286 | for a population of exactly size members, size > 0, whose fitness lies in [lo, hi], the average `AverageFitness` returns (total over size) lies in [lo, hi] |
| Genetic.AsWrittenMisplacesSurvivorRecord | src/model/genetic/Population.java:146-149 | concrete case with size 3, two survivors and fitness 0, 5, 3: the survivors are members 2 and 3. Afterwards Live(1) holds the discarded member 1's record, Live(2) holds record 2, and record 3 is nowhere in the store |
| Genetic.CorrectedKeepsSurvivorRecord | src/model/genetic/Population.java:146-153 | in the same case, copying from the former index leaves record 2 in Live(1) and record 3 in Live(2), each survivor's own |
| Genetic.Population.constructor | src/model/genetic/Population.java:72-90 | generation 1, size and nbSurvivors as given, exactly size members where position k holds index k+1 with a fresh controller, and the directory untouched |
| Genetic.Population.MakeFight | src/model/genetic/Population.java:99-109 | each member's fitness becomes its fight score; order, indices and controllers are unchanged |
| Genetic.Population.NextGeneration | src/model/genetic/Population.java:117-137 | length is size again and generation increases by exactly 1. Positions hold indices 1..size in order. The first nbSurvivors members are the top ranked, renumbered; the rest are their children. The store is the protocol's result with the corrected copy (from the survivors' former indices; see "## Findings") |
| Genetic.Population.SaveBest | src/model/genetic/Population.java:144-156 | members 0..nbSurvivors-1 get index k+1, and all others and the order are unchanged. Corrected copy: each survivor's record, under its former index, is snapshotted to Temp of its new number (line 148 copies Live(i); see "## Findings") |
| Genetic.Population.KillWeaklings | src/model/genetic/Population.java:163-183 | the list becomes the old list's first nbSurvivors members in the same order, and Live(1..size) are deleted |
| Genetic.Population.LoadBest | src/model/genetic/Population.java:210-226 | the store becomes the result of renaming Temp(i) to Live(i) for i in 1..nbSurvivors |
| Genetic.Population.GenerateChildren | src/model/genetic/Population.java:233-248 | the old list is kept as a prefix and exactly size-nbSurvivors children are appended, numbered nbSurvivors+1..size in order, each from the parents its draws select |
| Genetic.Population.BestIndividual | src/model/genetic/Population.java:255-269 | the list is ranked, the returned member is its first, belongs to the population and is at least as fit as every member, and record 1 is exported as the active controller |
| Genetic.Population.AverageFitness | src/model/genetic/Population.java:276-286 | the result is the members' total fitness divided by size (not by the list length), or undefined when size is 0 |

## Left out

- Genetic.Population.SaveBest: copies `Live(<former index of the member ranked i>)` to `Temp(i)`, the corrected form from "## Findings". Line 148 copies `Live(i)`. The code as written is modelled as `Storage.Protocol(st, Storage.Positions(n), size)`, with `Storage.AsWrittenRestoresPositions` and `Genetic.AsWrittenMisplacesSurvivorRecord`.
- Genetic.Population.NextGeneration: the list, generation and index results are as written. Its store result is the protocol with the corrected `SaveBest` copy, `Protocol(old(store), Indices(Ranked(old(individuals))[..nbSurvivors]), size)`. The code as written leaves `Protocol(old(store), Positions(nbSurvivors), size)`. The two differ exactly in which record each `Live(1 .. nbSurvivors)` receives.
- Genetic.Population.NextGeneration: `requires 0 <= nbSurvivors <= size`. When `nbSurvivors > size`, `individuals.get` at line 153 throws `IndexOutOfBoundsException`; when `nbSurvivors < 0`, `individuals.remove(-1)` at line 180 throws it. Neither exception path is modelled.
- Genetic.Population.constructor, Genetic.Population.MakeFight, Genetic.Population.NextGeneration: the store changes only through `Population`'s own copy, delete and rename. If `Individual`'s constructors or `fight` write `Individual<i>.xml`, then the constructor's `store == disk`, `MakeFight` leaving the store alone, and the absence of `Live(nbSurvivors + 1 .. size)` after `NextGeneration` do not hold of the program; the children created at line 244 may write their own records.
- Genetic.Population.BestIndividual: `requires |individuals| > 0`. On an empty list `individuals.get(0)` at line 267 throws `IndexOutOfBoundsException`, and that exception path is not modelled.
- Genetic.Population.constructor: `requires 0 <= s`. For a negative `s`, `new ArrayList<Individual>(s)` at line 78 throws `IllegalArgumentException`, and that exception path is not modelled.

- The bytes of a copy are not streamed: `copyFile` moves a whole `Blob` at once, and its 1024-byte buffer loop is not modelled.
- Failures other than a missing source file are not modelled. These include permission errors, a full disk and a failed `mkdir`. The code only logs them. The protocol lemmas describe a store where no such failure occurs.
- `createDirs` is not modelled: the directories are assumed to exist, and the constructor takes their current contents as a parameter.
- `Math.random()` and double arithmetic are replaced by exact reals. A sample is a real in [0, 1), and `random` is exact real multiplication followed by truncation.
- `Individual` itself is not part of this model. This covers `fight`, `compareTo`, the perceptron's random initialisation and the crossover and mutation of the two-parent constructor. Fight scores are parameters of `MakeFight`. A controller is represented only by its lineage. A new individual's fitness is taken to be 0.
- Individuals are values, not shared objects: `setIndex` replaces the list element. This means the model cannot show a caller who holds the reference returned by `bestIndividual` seeing a later renumbering.
- `Genetic.Population.BestIndividual` always exports record 1. It reads the constants of `RefactoGeneticAlgorithm`, which is not part of this model; they are assumed to name the same population directory and file name. After a fight, the top-ranked member need not be the one numbered 1. The model states this behaviour as written and proves nothing about which controller is exported.
- Console output, stack traces, `sortIndividuals` and `IndividualsComparator` are left out. The last two are unused: their only call is commented out.
- 32-bit overflow of `generation` and of the loop counters is not modelled; integers are unbounded.
- `averageFitness` sums in double precision; the model sums exact integers and divides as reals.

## Findings

| source | as written | input that shows it | evidently intended | confidence | as-written member | corrected member |
|---|---|---|---|---|---|---|
| src/model/genetic/Population.java:146-149 | `saveBest` copies `Individual<i>.xml` to `Temp_Individual<i>.xml`, the record of whoever held index i before ranking, not the record of the member ranked i | size 3, two survivors, records 1, 2 and 3 on disk, fitness 0, 5, 3: the survivors are members 2 and 3. Once `loadBest` returns, `Individual1.xml` holds the discarded member 1's record, `Individual2.xml` holds record 2 (the survivor now numbered 1), and survivor 3's record is deleted | copy the record of the member ranked i, under its index before renumbering, to `Temp_Individual<i>.xml` | medium, not executed | Genetic.AsWrittenMisplacesSurvivorRecord | Genetic.Population.SaveBest |

The corrected `SaveBest` copies `Live(individuals[i-1].index)` before renumbering, and the rest of the model uses it. `Storage.SurvivorRecordsFollowSurvivors` proves that each renumbered survivor then finds its own record under its new number. `Storage.AsWrittenRestoresPositions` states what the code as written does guarantee: every record `1 .. nbSurvivors` gets its own old bytes back.

# AGoL simulation engine in Dafny

This project models the simulation engine of AGoL, a browser toy in which
creatures with small genomes live in an 800 by 600 world (`jslife.js`).
Creatures eat, flee, crowd, starve, breed and mutate. Rendering, the page
and the statistics table are outside the model. What is modelled:

- **Genes** (`genes.dfy`): the module list, the string tags and the order
  the default array sort gives them, the fingerprint primes, and the
  per-gene creation and upkeep costs.
- **Genomes** (`genome.dfy`): canonical (alphabetically sorted) genomes,
  `in_genome` and `mutate` with its random numbers made explicit. Also the
  prime fingerprint `genome_prime`, its reverse lookup `genome_of_prime`
  with the memo, the creation and upkeep costs, and `genome_for_kids`.
- **Geometry** (`geometry.dfy`): `fit` and `move`.
- **Creatures** (`creature.dfy`): the `creature` constructor, the traits
  it derives from the genome, `die` and `key`, and the invariant every
  creature keeps (`WellFormed`). The invariant says nothing about the
  position, because `move` can take a creature out of the world.
- **Behaviour** (`behaviour.dfy`): a creature's `step`, in priority order:
  suffocation, hatching, carrion decay, starvation, then the neighbour
  scan as a fold over the neighbours `each_other` reports, followed by
  movement, crowding and birth.
- **Space** (`space.dfy`): `each_other`, that is, the binary search for the
  first collidable thing that can be in range and the walk over the box of
  half-side `sight`.
- **Universe** (`universe.dfy`): the universe constructor, `remove`, `add`,
  the universe `step`, and `loop` without its rendering. That covers the
  extinction countdown, the rebuild of the collidable list sorted by x,
  and the cursor loop that steps every thing, newborns included, exactly
  once.

The universe keeps its things in a map from identifiers to creature states.
Its thing list and collidable list hold identifiers, the way the program's
two arrays share object references. A thing's identifier is never reused.
`Valid` is the universe invariant: the lists name known things without
repetition, and every known thing is a well-formed creature.

Random numbers are parameters:

- `MutationDraws`: four uniform draws per mutation;
- `Birth`: where each child is placed;
- `Dice`: the extinction coins and the reset draw.

The square root and `Math.pow(0.6, _)` are the two fields of a `Maths`
record. Numbers are mathematical reals.

## Model

| member | source | states |
|---|---|---|
| Genes.ModulesAreAllGenes | jslife.js:90-100 | the module list names every gene exactly once, each at its own index |
| Genes.AlphaRankIsTagOrder | jslife.js:158 | ordering genes by alphabetical rank agrees, in both directions, with the default array sort's code-unit order on their tags |
| Genes.PrimeIsPrime | jslife.js:164-174 | every gene's fingerprint number is a prime |
| Genes.PrimesCoprime | jslife.js:164-174 | the prime of one gene never divides the prime of another |
| Genes.PrimeFollowsModuleOrder | jslife.js:164-174 | the primes increase along the module list, in both directions |
| Genes.CreationCostAtLeastHalf | jslife.js:208-218 | every gene costs at least 0.5 to create |
| Genomes.InGenome | jslife.js:129-133 | the count of a module in a genome is its multiplicity in the genome's multiset |
| Genomes.CanonicalIsOwnSort | jslife.js:140-158 | a genome has its genes in alphabetical order exactly when sorting it leaves it unchanged, so every result of `mutate` is canonical |
| Genomes.CanonicalUnique | jslife.js:140-141 | two canonical genomes with the same genes are equal |
| Genomes.Mutate | jslife.js:142-160 | the result is canonical, and its multiset is the input's minus the removed gene plus the added module; the length changes accordingly |
| Genomes.MutateNothing | jslife.js:142-160 | with neither removal nor addition, a canonical genome comes back unchanged |
| Genomes.MutateIgnoresOrder | jslife.js:146-158 | a mutation without removal depends only on the input's genes, not on their order |
| Genomes.UnitIndex | jslife.js:149 | `floor(r * n)` for `r` in [0, 1) is an index below `n`, and it is the floor |
| Genomes.Choice | jslife.js:148-156 | removal fires exactly when the genome is non-empty and the draw is below 0.05, at an index inside the genome; addition fires exactly when its draw is below 0.025 |
| Genomes.MutateDrawn | jslife.js:142-160 | a drawn mutation is canonical and changes the length by at most one; an empty genome grows to at most one gene |
| Genomes.MutationCost | jslife.js:142-160 | the gene-cost sum of a mutant is the parent's, minus the removed gene's cost, plus the added module's |
| Genomes.GenomePrime | jslife.js:176-183 | a fingerprint is at least one, and at least two exactly when the genome is not empty |
| Genomes.AbsentPrimeDoesNotDivide | jslife.js:179-183 | the prime of a gene absent from the genome does not divide its fingerprint |
| Genomes.PresentPrimeDivides | jslife.js:179-183 | the prime of a present gene divides the fingerprint, and dividing removes exactly that gene |
| Genomes.DecodeFrom | jslife.js:190-197 | the factorisation loop from a module index yields genes in module-list order, none earlier than that index, and stops at once on a number of at most one |
| Genomes.GenomeOfPrime | jslife.js:186-200 | the reverse lookup lists genes in module-list order, and nothing for a number of at most one |
| Genomes.DecodeFromFingerprint | jslife.js:190-197 | factorising a fingerprint from a module index gives back the genome's genes when none of them is earlier than that index |
| Genomes.FingerprintRoundTrip | jslife.js:179-200 | `genome_of_prime(genome_prime(g))` is `g` sorted into module-list order, with the same multiset |
| Genomes.FingerprintIdentifiesGenes | jslife.js:176-183 | two genomes share a fingerprint exactly when they have the same genes |
| Genomes.FingerprintInjective | jslife.js:176-183 | canonical genomes with equal fingerprints are equal |
| Genomes.CachedGenomeOfPrime | jslife.js:186-203 | the memoised lookup returns what decoding computes; the memo stays sound, gains the key, and keeps its old entries |
| Genomes.CachedLookupRoundTrip | jslife.js:186-203 | a memoised lookup of a genome's fingerprint yields its genes in module-list order |
| Genomes.GeneCostSumAtLeast | jslife.js:229-235 | the sum of gene costs is at least half the gene count |
| Genomes.CreationCost | jslife.js:229-235 | the creation cost is the larger of 0.1 and the sum of gene costs |
| Genomes.CreationCostOfNonEmpty | jslife.js:225-235 | the base cost is used only for the empty genome; otherwise the cost is the plain sum |
| Genomes.CostsIgnoreOrder | jslife.js:229-261 | creation and upkeep costs depend only on the genome's genes, not on their order |
| Genomes.UpkeepCost | jslife.js:237-261 | the upkeep is the scaled squared gene count, plus at most 0.002 a gene and at least -0.008 an autotrophy gene, so only a genome with autotrophy can earn energy per tick |
| Genomes.ForKids | jslife.js:331-336 | the birth threshold is at least six times the base creation cost |
| Geometry.Fit | jslife.js:30-38 | the fitted point is inside the world, and a point already inside is unchanged |
| Geometry.FitIdempotent | jslife.js:30-38 | fitting twice is fitting once |
| Geometry.FitIsNearest | jslife.js:30-38 | on each axis, fitting moves a point no farther than to any other point of the world |
| Geometry.Move | jslife.js:54-72 | `move` as written: a zero distance leaves the point in place, a speed above the distance lands on the target, and otherwise the result is inside the world |
| Geometry.MoveCanLeaveWorld | jslife.js:53-66 | for example, a point at (5, 300) moving at speed 0.15625 towards (4.999, 300), 0.001 away, lands there, outside the world |
| Geometry.MoveInside | jslife.js:53-72 | corrected `move`: a moving point always ends inside the world, and it agrees with `move` for targets inside the world |
| Geometry.MoveTowardsStaysOnSegment | jslife.js:68-71 | a step of at most the distance towards a target inside the world needs no fitting |
| Geometry.WanderTarget | jslife.js:56-57 | the random destination lies in [0, width) x [0, height) |
| Creatures.CostPositive | jslife.js:363-364 | a well-formed creature's creation cost is positive, so the hatching division is defined |
| Creatures.Die | jslife.js:446-451 | a dead creature is not alive and has no offense or defense; nothing else changes |
| Creatures.DieWellFormed | jslife.js:446-451 | dying keeps the creature invariant |
| Creatures.Create | jslife.js:339-432 | a child is well formed with the mutated genome; energy plus cost equals the parent's birth threshold; it is a fresh egg that cannot collide; it is alive exactly when its genome is non-empty; it is placed inside the world, where asked when that is inside the world |
| Creatures.SensingTraits | jslife.js:413-419 | litter size is one plus the fertility genes, and sight is the larger of the hunt and flee ranges |
| Creatures.Key | jslife.js:480-483 | a creature has a key exactly when it is alive |
| Creatures.KeyIdentifiesSpecies | jslife.js:480-483 | two living creatures have the same key exactly when they have the same genome |
| Behaviour.Assess | jslife.js:547-574 | a neighbour is never both prey and threat; prey must be another species within hunting range, and a threat another species within flight range |
| Behaviour.ScanEnergy | jslife.js:599-610 | after the scan, the creature's energy is its own plus the digested share of every bite it took |
| Behaviour.ScanOthers | jslife.js:599-610 | each neighbour's energy after the scan is its own minus the bite taken from it |
| Behaviour.ScanEating | jslife.js:599-610 | the creature is eating exactly when it bites some neighbour |
| Behaviour.ScanContacts | jslife.js:599-614 | the crowding count is the number of living, hatched neighbours in contact |
| Behaviour.ScanTarget | jslife.js:576-582 | the target is the strictly nearest candidate, earlier ones winning ties; there is none exactly when no neighbour is a candidate; the flee flag is that target's flight verdict |
| Behaviour.ScanEvade | jslife.js:584-597 | without a target, the evasion vector is the sum of every neighbour's push |
| Behaviour.Step | jslife.js:487-668 | a step, moving with `move` as written, reports one energy per neighbour and keeps the genome, fingerprint and cost; a creature that is removed from the thing list bears no children and touches no neighbour |
| Behaviour.StepPhases | jslife.js:487-515 | a creature is removed from the thing list exactly when it has suffocated or its corpse is used up; only an active creature touches neighbours or gives birth; it can collide exactly when it is active or a lasting corpse |
| Behaviour.AsphyxiatedStep | jslife.js:489-496 | a suffocated creature is removed from the thing list, one suffocation level lower and out of collisions, and nothing else changes |
| Behaviour.HatchingStep | jslife.js:493-502 | an egg counts down to `max(0, egg - 1 / cost)` and recovers one suffocation level; nothing else changes |
| Behaviour.CarrionStep | jslife.js:504-510 | a corpse loses 0.05 energy and is removed from the thing list exactly when energy plus cost is negative |
| Behaviour.StarvingStep | jslife.js:512-515 | a creature whose upkeep exhausts its energy dies but is not removed from the thing list |
| Behaviour.SettleLeavesOnlyByLanding | jslife.js:651-652 | with `move` as written, a creature inside the world leaves it only by landing exactly on a destination outside the world that is nearer than its speed, and never while eating |
| Behaviour.StepCanLeaveWorld | jslife.js:618-652 | a flight-gene creature at (5, 300) with a relative 16 to its right steps to (4.99609375, 300), outside the world |
| Behaviour.SettleInside | jslife.js:651-667 | the corrected settling keeps a creature inside the world; it differs from the program's only in the position, and only when the program's leaves the world |
| Behaviour.ActiveIsInteract | jslife.js:512-517 | an active creature interacts after paying its upkeep, still alive with non-negative energy |
| Behaviour.ActiveBites | jslife.js:599-610 | each neighbour loses exactly the bite taken from it, and a creature that bites does not move |
| Behaviour.ActiveCrowding | jslife.js:654-655 | suffocation rises by two exactly when the creature is not eating and more than one living hatched neighbour is in contact |
| Behaviour.ActiveBirth | jslife.js:657-664 | a creature whose energy exceeds the threshold pays exactly the threshold and bears exactly `kids` children of its own genome; otherwise it keeps its energy and bears none |
| Behaviour.InteractKeepsWellFormed | jslife.js:517-667 | the interaction phase keeps the creature invariant (canonical genome, derived traits, genes while alive, egg countdown in range), and every child is well formed |
| Behaviour.StepKeepsWellFormed | jslife.js:487-668 | a step keeps the creature invariant, wherever `move` puts the creature, and every child is well formed |
| Behaviour.NewbornStep | jslife.js:498-502 | a freshly laid egg is not removed from the thing list, touches no one, and does not give birth in its first step |
| Behaviour.StepChildrenFresh | jslife.js:356-361 | every child is an egg at full countdown that never suffocated and cannot collide yet |
| Space.LowerBound | jslife.js:734-735 | the reference for the search: the first entry not below the bound, every entry before it below |
| Space.SearchStart | jslife.js:732-740 | the search ends on the start or on an entry below `min_x`; on ascending x it is never past the first entry not below `min_x`, and at most three before it |
| Space.SearchBrackets | jslife.js:736-740 | on ascending x, a bracket the search keeps encloses the lower bound |
| Space.EachOther | jslife.js:719-759 | every reported thing is another collidable thing inside the box, reported in collidable order with its distance; on ascending x, every such thing is reported |
| Space.Walk | jslife.js:742-758 | the walk reports only collidable things in the box; on ascending x, it reports every one from its start on |
| Universe.Empty | jslife.js:673-687 | a new universe is valid and empty, with the cursor at the start and the first extinction 1000 ticks away |
| Universe.Remove | jslife.js:693-696 | removal drops only the entry at `pos`, keeping the order of the rest; it moves the cursor back exactly when `pos` is at or before it; the unstepped things stay ahead of the cursor |
| Universe.RemoveKeepsValid | jslife.js:693-696 | removal keeps the universe invariant |
| Universe.AddKeepsValid | jslife.js:714-716 | adding a well-formed creature keeps the invariant, under an identifier not in use |
| Universe.AddAll | jslife.js:661-663 | adding children appends fresh identifiers, one per child in order, and leaves every other thing alone |
| Universe.AddAllKeepsValid | jslife.js:661-663 | adding well-formed children keeps the universe invariant |
| Universe.Exchange | jslife.js:606-608 | after a step, the stepped thing has its new state, each neighbour has the energy the step left it, and nothing else changes |
| Universe.ApplySchedule | jslife.js:700-711 | after a universe step, the stepped thing is behind the cursor unless removed; the unstepped things and then the newborns are ahead of it in order |
| Universe.ApplyUntouched | jslife.js:700-716 | a universe step adds identifiers only for the children and touches no thing other than the stepped one and its neighbours |
| Universe.ApplyHeap | jslife.js:700-711 | a universe step stores the stepped thing's new state and each neighbour's new energy |
| Universe.ApplyKeepsValid | jslife.js:700-716 | applying a step with a well-formed outcome keeps the universe invariant |
| Universe.StepWellFormed | jslife.js:487-668 | a well-formed creature's step gives a well-formed state and newborn, well-formed children, wherever `move` puts it; a newborn's first step neither removes it nor bears children |
| Universe.StepCurrent | jslife.js:700-711 | a universe step scans with `each_other`, steps the thing under the cursor on what it found, applies the outcome, and keeps the invariant |
| Universe.Cull | jslife.js:766-775 | the countdown drops by one; when it runs out, each listed creature dies when its coin is below one half, and the next extinction is 500 to 1000 ticks away; nothing else changes |
| Universe.CullSurvivors | jslife.js:769-772 | after an extinction, a creature is alive exactly when it was alive and its coin was at least one half |
| Universe.CullKeepsValid | jslife.js:766-775 | an extinction keeps the universe invariant |
| Universe.Collidable | jslife.js:777-784 | the rebuilt list holds exactly the listed things that can collide, each once, in ascending x |
| Universe.CollidableKeepsTies | jslife.js:777-784 | the rebuilt list keeps the things that share an x in the order of the thing list, as a stable sort does |
| Universe.PreludeKeepsValid | jslife.js:762-784 | the prologue keeps the invariant, and only listed things become collidable |
| Universe.Cursor | jslife.js:787 | the thing under the cursor has not been stepped; once the starting things are all stepped, it is an unstepped newborn |
| Universe.StepProgress | jslife.js:700-711 | a universe step adds the thing under the cursor to the stepped things, and to the removed ones when it asked to be removed; once only newborns remain, the cursor gets closer to the end |
| Universe.Advance | jslife.js:787 | one pass of the loop steps the thing under the cursor on things in view, all of them whenever the collidable list is in ascending x, with the births of its rank, and applies the outcome; it keeps the invariant and the loop's progress, and leaves the collidable list and the countdown alone |
| Universe.Sweep | jslife.js:786-787 | the loop steps every thing listed at its start and then every newborn, each exactly once and in that order; between any two consecutive universes of its trace lies a universe step of that thing on things in view, all of them whenever the collidable list is in ascending x (as it is right after the rebuild), with the births of its rank; the removed things are those whose step asked to be; the things left listed are the stepped ones not removed |
| Universe.Tick | jslife.js:762-787 | a tick keeps the invariant, steps each thing and each newborn exactly once, each through a universe step recorded in a trace that starts after the prologue, and leaves listed exactly the stepped things not removed |

## Left out

- Rendering, the canvas, the colours, the statistics table and the timer (`render`, `genome_color`, `genome_name`, `life`, and the drawing part of `loop`). They are display and I/O.
- `around`, the placement of children on a circle: a child's position is a parameter of its `Birth`, and `Create` fits it into the world.
- The square root and `Math.pow(0.6, _)`: they are the `norm` and `pow06` fields of `Maths`. The model carries the distance the scan computes, but states nothing about its value. The one exception is `Behaviour.StepCanLeaveWorld`, which assumes that the norm of a vector along an axis is its length.
- Floating point: numbers are exact reals. Rounding, fingerprints above 2^53, and `NaN` (which `fit` is written to catch) are not modelled.
- `Math.random`: every draw is a parameter (`MutationDraws`, `Birth`, `Dice`, `WanderTarget`'s two draws). `move`'s random target is never used by `step`, which always supplies a target.
- The `working` flag: the thing being stepped is excluded from its own scan by its identifier.
- Sort stability: both sorts are modelled as a stable insertion sort, as ECMAScript 2019 requires of `Array.prototype.sort`. Engines older than that may order equal x differently, and that order decides the order in which a creature meets its neighbours.
- Removed things keep their state under their identifier, and stay in the collidable list until the next rebuild, as the program's references do.
- Space.EachOther: reports every thing in view only while the collidable list is in ascending x. Creatures move during a tick, so that holds only at the start of it.
- Universe.Tick: the universes between the steps, and what each step saw and decided, are ghost outputs (`Universe.Passes`): the contract ties every pass to `Behaviour.Step`, but a caller that runs the tick gets only the final universe and the stepped and removed things.
- Universe.Sweep: the same holds for the loop on its own. A pass is promised every thing in view only while the collidable list is in ascending x; later passes may miss things in view once moves have unsorted it, as under Space.EachOther.

## Findings

The step follows the program, landing unfitted. The corrected settling,
which fits the landing point, is defined beside it with its property proved.

| source | as written | input that shows it | evidently intended | confidence | as-written member | corrected member |
|---|---|---|---|---|---|---|
| jslife.js:53-66 | when the speed exceeds the distance, `move` puts the creature on the target without calling `fit` | a flight-gene creature (speed 0.625, flight range 65) at (5, 300) with a living relative 16 to its right: the relative pushes it left by 0.0625 and the wall right by 0.05625, the evasion vector (-0.00625, 0) is shorter than 0.01 and is not normalised, so the destination is (4.99609375, 300) at distance 0.0039, and the creature lands there, outside the world | the comment's promise that movement never leaves the world, so the landing point is fitted too | not executed | Geometry.Move, Geometry.MoveCanLeaveWorld, Behaviour.StepCanLeaveWorld | Geometry.MoveInside, Behaviour.SettleInside |

# Genetic operators of a two-robot coevolutionary path planner

This project models the genetic operators of a motion planner in which each of
two planar two-joint robot arms evolves a population of paths through its joint
space. A path is a sequence of waypoints. Each waypoint is a pair of joint
angles. An `Individual` carries a path, cached evaluation fields (fitness,
distance, collision count and diversity), an age and the id of its robot.

The model covers:

- the initial population (`createInitialPop`, `createPath`);
- Ferguson (cubic Hermite) spline resampling (`ferguson_spline`);
- normalisation of every path to `N_PTS` waypoints (`adjust_num_pts`);
- evaluation (`evaluate`, `calcPathLength`, `calcCollision`, `calcDiversity`);
- the ordering of a population (`operator<`, `sort_pop`);
- tournament, roulette-wheel and elitist selection;
- mutation (`mutNormal`, `mutation`);
- single-point crossover (`oneptcx`, `crossover`).

Modules:

| file | module | what |
|---|---|---|
| genotype.dfy | Genotype | the constants (as `const`, with the source's values), `Point`, `Path`, `Individual`, the metric type |
| sequences.dfy | Sequences | the library algorithms used: `std::sort` as a sort by key, `std::reverse` |
| spline.dfy | Splines | `ferguson_spline` |
| fitness.dfy | Fitness | `calcPathLength`, `calcCollision`, and the score `evaluate` gives one individual |
| diversity.dfy | Diversity | what `calcDiversity` computes |
| selection.dfy | Selection | `operator<`, tournament, roulette and elitist selection |
| mutation.dfy | Mutation | `mutNormal` and the children `mutation` collects |
| crossover.dfy | Crossover | `oneptcx` and the children `crossover` collects |
| adjust.dfy | Adjust | `adjust_num_pts` for one path |
| initial.dfy | Initial | `createPath`, `createInitialPop` |
| population.dfy | Populations | the operators that update a `vector<Individual>&` in place: a class `Population` whose field `inds` they reassign |

Functions and methods follow the source's split:

- Operations that build new values are functions, with lemmas about them.
- Where the source computes such a value with a loop, a method carries that loop. The method is proved equal to the function.
- Operations that change the population they are given are methods of `Population`.

Random draws are inputs. Every `get_rand_range_*` call is represented by an element of a draw sequence. A precondition states the range that element is drawn from.

The Euclidean distance (`calcDistance`, `calcNorm`) is a parameter `dist` of type `Metric`. Where a proof needs it, `IsDistance(dist)` requires that distances are non-negative, symmetric and zero between equal points.

Forward kinematics and the geometric intersection tests are likewise parameters, bundled in `Collaborators`.

Where the source indexes by the constant `N_POP` rather than by `pop.size()`, the model does the same: tournament and roulette selection read the first `N_POP` individuals. Roulette's total weight is taken over the whole population, but its sweep stops after `N_POP` individuals. When the population is longer than `N_POP`, a draw above the weight of the first `N_POP` individuals is therefore dropped, and roulette returns fewer than `N_POP - N_ELITES` individuals. `Selection.Picks` captures this: the sweep stops at the first draw no bucket takes.

`mutNormal` visits waypoints 0 to `N_PTS - 2`. It can therefore move the first waypoint, which is the start configuration. It never moves the last waypoint, the goal. The model does the same.

## Model

| member | source | states |
|---|---|---|
| Genotype.Max | cpp/MotionPlanning/GeneticOperators.cpp:361 | `std::max` of two ages: at least both, and equal to one of them |
| Sequences.SortByKey | cpp/MotionPlanning/GeneticOperators.cpp:183-185 | the sort `sort_pop` and roulette use returns a permutation (same multiset) of its input, ascending by the key |
| Sequences.Insert | cpp/MotionPlanning/GeneticOperators.cpp:183-185 | inserting into a sorted sequence keeps it sorted and adds exactly that element to its multiset |
| Sequences.Reverse | cpp/MotionPlanning/GeneticOperators.cpp:229 | `std::reverse`: element i of the result is element n-1-i of the input |
| Splines.PowerRow | cpp/MotionPlanning/GeneticOperators.cpp:434-440 | the s-matrix row at s = 0 is [0, 0, 0, 1] |
| Splines.RowTimesBasis | cpp/MotionPlanning/GeneticOperators.cpp:443-447 | the row [0, 0, 0, 1] times the basis matrix is its fourth row [1, 0, 0, 0] |
| Splines.SampleParam | cpp/MotionPlanning/GeneticOperators.cpp:435 | the parameter of sample j of a segment is j / num |
| Splines.Tangent | cpp/MotionPlanning/GeneticOperators.cpp:450-461 | the velocity at control point i: the backward difference at the last point, the forward difference at the first, half the central difference elsewhere |
| Splines.HermitePoint | cpp/MotionPlanning/GeneticOperators.cpp:471-476 | sample at s of segment i is the s row times the basis matrix applied to [P_i; T_i; P_i+1; T_i+1] |
| Splines.Blend | cpp/MotionPlanning/GeneticOperators.cpp:471-476 | at s = 0 a segment sample is the segment's first control point |
| Splines.SegmentSamples | cpp/MotionPlanning/GeneticOperators.cpp:469-483 | each segment contributes `num` samples, the first of which is its first control point |
| Splines.Segments | cpp/MotionPlanning/GeneticOperators.cpp:469-487 | m segments contribute m * num samples |
| Splines.Curve | cpp/MotionPlanning/GeneticOperators.cpp:428-497 | the spline of n >= 2 control points has (n - 1) * num + 1 points and ends at the last control point |
| Splines.SegmentsAt | cpp/MotionPlanning/GeneticOperators.cpp:469-487 | sample j of segment i sits at index i * num + j and is the Hermite blend at s = j / num |
| Splines.CurveAtKnot | cpp/MotionPlanning/GeneticOperators.cpp:469-488 | for num >= 1, every num-th point of the spline is the corresponding control point |
| Splines.CurveStartsAtFirst | cpp/MotionPlanning/GeneticOperators.cpp:469-488 | for num >= 1 the spline starts at the first control point |
| Splines.FergusonSpline | cpp/MotionPlanning/GeneticOperators.cpp:428-497 | the source's loops over the s matrix, the velocities and the segments compute `Curve` |
| Fitness.PathLengthNonNegative | cpp/MotionPlanning/GeneticOperators.cpp:115-124 | under a true distance a path length is never negative |
| Fitness.PathLength | cpp/MotionPlanning/GeneticOperators.cpp:115-124 | the length of a path is the sum of the distances between consecutive waypoints; 0 for fewer than two |
| Fitness.PathLengthSplit | cpp/MotionPlanning/GeneticOperators.cpp:115-124 | the length of a path cut at waypoint k is the sum of the lengths of the two halves sharing waypoint k |
| Fitness.CalcPathLength | cpp/MotionPlanning/GeneticOperators.cpp:115-124 | the loop sums the distances between consecutive waypoints (`PathLength`) |
| Fitness.CollisionCount | cpp/MotionPlanning/GeneticOperators.cpp:137-169 | at most one collision per sampled instant: the count lies in [0, n] |
| Fitness.Collisions | cpp/MotionPlanning/GeneticOperators.cpp:126-172 | the result of `calcCollision` is between 0 and the number of spline samples, (n - 1) * 10 + 1 |
| Fitness.CheckInstant | cpp/MotionPlanning/GeneticOperators.cpp:143-168 | the link-pair search, left through `goto NEXT` at the first hit, reports a collision exactly when some link pair passes the rough check and one of the three tests |
| Fitness.CalcCollision | cpp/MotionPlanning/GeneticOperators.cpp:126-172 | the loop computes `Collisions`, so the counter is within [0, number of samples] |
| Fitness.Evaluated | cpp/MotionPlanning/GeneticOperators.cpp:104-111 | `evaluate` on one individual: age + 1, path, diversity and robot kept, and an individual with non-zero fitness otherwise unchanged |
| Fitness.EvaluatedScore | cpp/MotionPlanning/GeneticOperators.cpp:105-109 | a rescored individual has fitness = distance + 100 * collisions, a bounded non-negative collision count, non-negative distance, and fitness at least each term |
| Diversity.PairGapNonNegative | cpp/MotionPlanning/GeneticOperators.cpp:387-401 | the summed waypoint distances of a pair of paths are non-negative |
| Diversity.PairGap | cpp/MotionPlanning/GeneticOperators.cpp:387-392 | the gap between two paths is the sum over the first k waypoints of the distance between corresponding waypoints |
| Diversity.Contribution | cpp/MotionPlanning/GeneticOperators.cpp:385-403 | what the pair loop adds to individual m for partner j: their gap when j differs from m, 0 otherwise |
| Diversity.Owed | cpp/MotionPlanning/GeneticOperators.cpp:385-403 | the sum individual m has collected from the partners before `upto` |
| Diversity.DiversityOf | cpp/MotionPlanning/GeneticOperators.cpp:377-408 | the diversity of m: its gaps to every other individual summed and divided by num - 1 |
| Diversity.OwedNonNegative | cpp/MotionPlanning/GeneticOperators.cpp:385-403 | the summed contributions to one individual are non-negative |
| Diversity.DiversityNonNegative | cpp/MotionPlanning/GeneticOperators.cpp:377-408 | under a true distance every diversity is non-negative |
| Diversity.PairGapOfClones | cpp/MotionPlanning/GeneticOperators.cpp:387-401 | paths agreeing on their first k waypoints have gap 0 |
| Diversity.OwedOfClones | cpp/MotionPlanning/GeneticOperators.cpp:385-403 | in a population of identical paths nothing is summed for anyone |
| Diversity.ClonesHaveNoDiversity | cpp/MotionPlanning/GeneticOperators.cpp:377-408 | a population whose paths agree on their first N_PTS waypoints has diversity 0 everywhere |
| Diversity.TwoIndividualsShareTheirGap | cpp/MotionPlanning/GeneticOperators.cpp:377-408 | with two individuals both diversities equal the gap between their paths |
| Selection.SortedMeansNoInversion | cpp/MotionPlanning/GeneticOperators.cpp:179-185 | sorted by fitness means no individual is `operator<` one in front of it |
| Selection.Less | cpp/MotionPlanning/GeneticOperators.cpp:179-181 | `operator<`: one individual is less than another when its fitness is smaller |
| Selection.TournamentWinner | cpp/MotionPlanning/GeneticOperators.cpp:201-205 | the tournament result is at most N_POP and every draw, and is N_POP or one of the draws |
| Selection.TournamentPicksFittestDrawn | cpp/MotionPlanning/GeneticOperators.cpp:200-207 | with at least one draw in [0, N_POP - 1], the winner is a valid index whose individual is at least as fit as every drawn one in a sorted population |
| Selection.TournamentSelection | cpp/MotionPlanning/GeneticOperators.cpp:193-210 | N_POP - N_ELITES offspring, offspring i being `pop[m]` for m the minimum of its draws, 0 <= m < N_POP |
| Selection.ElitistSelection | cpp/MotionPlanning/GeneticOperators.cpp:247-251 | the elites are exactly the first N_ELITES individuals; in a sorted population no later individual is fitter |
| Selection.Bucket | cpp/MotionPlanning/GeneticOperators.cpp:232-242 | the individual a draw lands on is the first whose cumulative weight exceeds the draw |
| Selection.Weight | cpp/MotionPlanning/GeneticOperators.cpp:220 | the roulette weight of an individual is 1 / fitness |
| Selection.Cumulative | cpp/MotionPlanning/GeneticOperators.cpp:219-220 | the weight of the first i individuals; over the whole population it is `sum_fitness` |
| Selection.Through | cpp/MotionPlanning/GeneticOperators.cpp:233 | `thresh` once individual j has been added: the weight of the first j + 1 individuals |
| Selection.Picks | cpp/MotionPlanning/GeneticOperators.cpp:231-243 | at most one pick per draw, each an index below N_POP |
| Selection.PicksAreBuckets | cpp/MotionPlanning/GeneticOperators.cpp:231-243 | pick k is the bucket of the k-th smallest draw |
| Selection.BucketMonotone | cpp/MotionPlanning/GeneticOperators.cpp:232-242 | a smaller draw is assigned, and to no later individual, when a larger one is |
| Selection.PicksNonDecreasing | cpp/MotionPlanning/GeneticOperators.cpp:228-243 | roulette copies individuals in non-decreasing population-index order |
| Selection.BucketAt | cpp/MotionPlanning/GeneticOperators.cpp:232-242 | the draw goes to the first individual whose cumulative weight exceeds it |
| Selection.BucketNone | cpp/MotionPlanning/GeneticOperators.cpp:232-243 | a draw no cumulative weight exceeds is assigned to nobody |
| Selection.PicksPrefix | cpp/MotionPlanning/GeneticOperators.cpp:231-243 | the sweep hands out exactly the draws before the first unassignable one |
| Selection.RouletteSweep | cpp/MotionPlanning/GeneticOperators.cpp:231-243 | the sweep over the reversed sorted draws yields `pop[picks[k]]` for every pick, in order |
| Selection.HandOut | cpp/MotionPlanning/GeneticOperators.cpp:236-238 | handing the next draw, which is below `thresh` and not below the earlier weights, to individual i keeps every offspring assigned to its draw's bucket |
| Selection.ServeDraws | cpp/MotionPlanning/GeneticOperators.cpp:234-242 | the inner loop at individual i hands every remaining draw below `thresh` to `pop[i]` in ascending order, keeping each offspring assigned to its draw's bucket and the next draw not below the weights through i |
| Selection.RouletteSelection | cpp/MotionPlanning/GeneticOperators.cpp:212-245 | at most N_POP - N_ELITES offspring, offspring k being the individual the k-th smallest draw lands on |
| Mutation.MutatedPath | cpp/MotionPlanning/GeneticOperators.cpp:290-295 | same length; waypoints from N_PTS - 1 on are untouched; a waypoint whose coin is not below 0.3 is untouched |
| Mutation.Moved | cpp/MotionPlanning/GeneticOperators.cpp:291-294 | a waypoint is moved by its two offsets when its coin is below 0.3 and kept otherwise |
| Mutation.MutationIsLocal | cpp/MotionPlanning/GeneticOperators.cpp:290-295 | the last waypoint stays and every coordinate moves by at most 0.1 |
| Mutation.Mutant | cpp/MotionPlanning/GeneticOperators.cpp:288-300 | the child has the mutated path, the parent's age and robot, and cleared fitness, distance, collision and diversity |
| Mutation.MutNormal | cpp/MotionPlanning/GeneticOperators.cpp:288-300 | the loop computes `Mutant` |
| Mutation.CountBelow | cpp/MotionPlanning/GeneticOperators.cpp:273-274 | no more coins fall below P_MUT than there are coins |
| Mutation.Mutants | cpp/MotionPlanning/GeneticOperators.cpp:270-285 | one child per coin below P_MUT, so at most one per individual |
| Mutation.MutantsComeFromPopulation | cpp/MotionPlanning/GeneticOperators.cpp:272-276 | every child is the mutant of an individual whose coin fell below P_MUT |
| Mutation.MutantsExtremes | cpp/MotionPlanning/GeneticOperators.cpp:272-276 | all coins below P_MUT gives exactly one child per individual in order, none gives no children |
| Crossover.RowScan | cpp/MotionPlanning/GeneticOperators.cpp:339-347 | the inner search only ever moves to a waypoint of the individual it scans |
| Crossover.PopScan | cpp/MotionPlanning/GeneticOperators.cpp:335-348 | a found partner is an eligible (different distance) individual among those scanned, with a cut below N_PTS |
| Crossover.RowScanSummary | cpp/MotionPlanning/GeneticOperators.cpp:339-347 | the inner loop keeps the running first strict minimum below PI/10 |
| Crossover.PopScanSummary | cpp/MotionPlanning/GeneticOperators.cpp:335-348 | the whole search keeps the running first strict minimum below PI/10 |
| Crossover.CrossChildren | cpp/MotionPlanning/GeneticOperators.cpp:351-365 | the children's paths are prefix/suffix splices with lengths cut1 + \|p2\| - cut2 and cut2 + \|p1\| - cut1, waypoints are conserved, age is the max, robots come from the lead parents, fields are cleared |
| Crossover.OnePointCrossover | cpp/MotionPlanning/GeneticOperators.cpp:325-372 | `oneptcx` returns 0 or 2 children |
| Crossover.ChildrenIffPartnerClose | cpp/MotionPlanning/GeneticOperators.cpp:325-372 | the search finds the first strict nearest waypoint; there are children exactly when an eligible waypoint is closer than PI/10; the partner's distance differs from ind1's |
| Crossover.ChildrenHaveTwoPoints | cpp/MotionPlanning/GeneticOperators.cpp:351-365 | children of N_PTS-point parents have between 2 and 2 * N_PTS - 2 waypoints |
| Crossover.OnePtCx | cpp/MotionPlanning/GeneticOperators.cpp:325-372 | the nested search loop and the swap compute `OnePointCrossover` |
| Crossover.OffspringInPairs | cpp/MotionPlanning/GeneticOperators.cpp:309-319 | with an operator that yields 0 or 2 children, `crossover` collects an even number of children, at most twice the population |
| Crossover.Offspring | cpp/MotionPlanning/GeneticOperators.cpp:312-317 | `add_pop`: the children of every parent, in parent order |
| Adjust.ResampleExceeds | cpp/MotionPlanning/GeneticOperators.cpp:415-417 | a path of 2 to N_PTS - 1 points resampled with k = (N_PTS - 1) / (n - 1) + 1 has more than N_PTS points |
| Adjust.ResampleFactor | cpp/MotionPlanning/GeneticOperators.cpp:416 | the spline factor k = (N_PTS - 1) / (n - 1) + 1 for a path of n points, with integer division |
| Adjust.Resampled | cpp/MotionPlanning/GeneticOperators.cpp:414-418 | a short path grows past N_PTS points, a long one is left alone, endpoints kept |
| Adjust.EraseAt | cpp/MotionPlanning/GeneticOperators.cpp:421-422 | erasing an interior waypoint removes exactly that waypoint and keeps both endpoints |
| Adjust.EraseAll | cpp/MotionPlanning/GeneticOperators.cpp:420-424 | the erase loop keeps both endpoints and at least two points, and only removes waypoints |
| Adjust.AdjustedPath | cpp/MotionPlanning/GeneticOperators.cpp:414-424 | the path has exactly N_PTS points with the original endpoints; an N_PTS path is untouched; a long path only loses waypoints |
| Adjust.EraseDown | cpp/MotionPlanning/GeneticOperators.cpp:419-424 | the erase loop computes `EraseAll` |
| Adjust.AdjustPath | cpp/MotionPlanning/GeneticOperators.cpp:414-424 | the loop body for one individual computes `AdjustedPath` |
| Initial.Turn | cpp/MotionPlanning/GeneticOperators.cpp:65-66 | candidate c of the double loop has turns (i, j) in [-1, 1] with c = 3(i + 1) + (j + 1) |
| Initial.GoalImages | cpp/MotionPlanning/GeneticOperators.cpp:64-76 | the collected goal images all lie in the open domain (-2PI, 2PI)^2, at most one per candidate |
| Initial.Image | cpp/MotionPlanning/GeneticOperators.cpp:67-68 | the goal shifted by i full turns in the first joint and j in the second |
| Initial.CandidateStep | cpp/MotionPlanning/GeneticOperators.cpp:65-75 | visiting candidate (i, j) appends its image exactly when it is in the domain |
| Initial.GoalImagesExactly | cpp/MotionPlanning/GeneticOperators.cpp:64-76 | the collected images are exactly the in-domain shifts of the goal by -1, 0 or 1 turns per joint |
| Initial.GoalInDomainIsCandidate | cpp/MotionPlanning/GeneticOperators.cpp:64-76 | a goal inside the domain is among its own images, so there is a candidate |
| Initial.NearestScan | cpp/MotionPlanning/GeneticOperators.cpp:78-87 | the chosen goal is a candidate at distance min_dist < 100 from the mid point, no candidate is closer; none is chosen only when every candidate is at least 100 away |
| Initial.NearestGoal | cpp/MotionPlanning/GeneticOperators.cpp:78-87 | the first candidate strictly nearest the mid point among those closer than 100, or none |
| Initial.NearestGoalIsNearestImage | cpp/MotionPlanning/GeneticOperators.cpp:64-87 | the chosen goal is an in-domain goal image, no farther from the mid point than any other |
| Initial.InitialPath | cpp/MotionPlanning/GeneticOperators.cpp:89-91 | the initial path has N_PTS points, starts at the start, passes the mid point at knot N_SPLINE and ends at the chosen goal |
| Initial.CandidateRow | cpp/MotionPlanning/GeneticOperators.cpp:66-75 | the inner candidate loop appends the images of one first-joint turn |
| Initial.CandidateGoals | cpp/MotionPlanning/GeneticOperators.cpp:64-76 | the double loop collects `GoalImages` |
| Initial.CreatePath | cpp/MotionPlanning/GeneticOperators.cpp:60-92 | the candidate loops, the nearest-goal loop and the spline compute `InitialPath` |
| Initial.CreateInitialPop | cpp/MotionPlanning/GeneticOperators.cpp:40-58 | N_POP fresh individuals of the robot, individual i on the path of mid point i |
| Populations.AdjustedAll | cpp/MotionPlanning/GeneticOperators.cpp:410-426 | `adjust_num_pts`: same size, every path has N_PTS points with its endpoints, only paths change, N_PTS paths are untouched |
| Populations.PairStep | cpp/MotionPlanning/GeneticOperators.cpp:385-403 | visiting pair (i, j) adds the gap between their paths to the sums of both |
| Populations.Population.AddPairGap | cpp/MotionPlanning/GeneticOperators.cpp:387-401 | the k loop adds the pair's gap to the diversity of i and of j and changes nothing else |
| Populations.Population.TallyRow | cpp/MotionPlanning/GeneticOperators.cpp:386-402 | one pass of the j loop moves the running sums from the state before i to the state before i + 1 |
| Populations.Population.AverageDiversity | cpp/MotionPlanning/GeneticOperators.cpp:406 | dividing every sum by num - 1 gives `DiversityOf` |
| Populations.Population.CalcDiversity | cpp/MotionPlanning/GeneticOperators.cpp:377-408 | every diversity becomes the mean gap to the others; nothing else changes |
| Populations.Population.Evaluate | cpp/MotionPlanning/GeneticOperators.cpp:99-113 | same size; every individual gets its diversity and then `Evaluated` against `pop2[0]` |
| Populations.Population.SortPop | cpp/MotionPlanning/GeneticOperators.cpp:179-185 | `sort_pop` leaves a permutation of the population, sorted by fitness |
| Populations.Population.Mutation | cpp/MotionPlanning/GeneticOperators.cpp:268-286 | the population is kept as a prefix and the mutants are appended behind it |
| Populations.Population.AdjustNumPts | cpp/MotionPlanning/GeneticOperators.cpp:410-426 | the loop leaves `AdjustedAll` of the old population |
| Populations.Population.Crossover | cpp/MotionPlanning/GeneticOperators.cpp:306-322 | the offspring are appended and every path adjusted; if the old paths had N_PTS points, the old population is an unchanged prefix |

## Left out

- `overageSelection` (lines 253-262) is not modelled: it does not compile, has an undefined `id` and no return statement, so it has no behaviour to model.
- The Eigen matrix types: the products of `ferguson_spline` are written out per sample as real arithmetic.
- Floating point: waypoints, distances and weights are exact reals. No claim is made about rounding, and the model has no NaN or infinity.
- `Populations.Population.CalcDiversity` and `Populations.Population.Evaluate` require a population size other than 1. With one individual the source divides by zero and gets NaN, which reals do not have.
- `sqrt` and the Euclidean norm: distance is an abstract `Metric`. Properties that need a metric assume only non-negativity, symmetry and zero on equal points.
- The random number generator: every draw is an input, with the range its call draws from. `utility.h` is not part of this model, so `get_rand_range_dbl` is taken as a closed interval and `get_rand_range_int` as inclusive at both ends.
- `Populations.Population.Mutation` and `Populations.Population.Crossover`: the operators passed as `std::function` are Dafny functions. Their own random draws are fixed inside the function value, so the model does not follow how successive calls consume the RNG.
- Forward kinematics (`robot[id].forward_kinematics`) and `isCollisionRoughCheck`, `isCollisionLineLine` and `isCollisionLineCircle` are foreign code. They are supplied as uninterpreted functions in `Collaborators`. Kinematics only has to return N_JOINT + 1 joint positions for a valid robot.
- `Fitness.CalcCollision` requires the first path to be no longer than the second. The source reads the second spline at every index of the first, so this is the condition for staying in bounds.
- `Adjust.AdjustedPath`, `Adjust.Resampled` and `Populations.AdjustReady` require paths of at least two waypoints. On a 1-point path the source divides by zero at line 416, and on an empty one it calls `ferguson_spline` with a negative factor. `Crossover.ChildrenHaveTwoPoints` shows that crossover of N_PTS-point parents never produces such paths.
- `Initial.CreatePath` requires that a nearest goal exists. Otherwise the source puts an empty `nearest_goal` into the control points and reads past its end. With an abstract metric the model cannot show that some image lies within 100 of the mid point.
- The `int` arithmetic of the source (`collision * 100`, ages) is unbounded, with no 32-bit overflow.
- `Sequences.SortByKey`: `std::sort` is not stable. The model fixes one order among individuals of equal fitness; only sortedness and permutation are claimed.
- Logging, file output and the commented-out code paths are left out.
- The mutable globals `gen`, `N_GEN`, `AGE_GAP`, `MAX_AGE`, the `robot` array and the layered populations `pops1`/`pops2` are left out. They are not read by the modelled operators, apart from `robot`, which is replaced by `Collaborators`.

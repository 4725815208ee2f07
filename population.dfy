/**
 * A population as the operators that take `vector<Individual> &` see it: an
 * object whose sequence of individuals they update in place.
 */
module Populations {
  import opened Genotype
  import opened Sequences
  import opened Selection
  import opened Fitness
  import opened Diversity
  import opened Adjust
  import Mut = Mutation
  import Cx = Crossover

  /** Every individual has at least two waypoints and its own erase draws for
      `adjust_num_pts`. */
  predicate AdjustReady(pop: seq<Individual>, draws: seq<seq<int>>) {
    |draws| == |pop| &&
    forall k :: 0 <= k < |pop| ==> |pop[k].path| >= 2 && ValidEraseDraws(|Resampled(pop[k].path)|, draws[k])
  }

  /** The population after `adjust_num_pts`: same size, every path has N_PTS
      waypoints and keeps its endpoints, nothing but the path changes, and an
      individual that already had N_PTS waypoints is left as it was. */
  function AdjustedAll(pop: seq<Individual>, draws: seq<seq<int>>): (r: seq<Individual>)
    requires AdjustReady(pop, draws)
    ensures |r| == |pop|
    ensures forall k :: 0 <= k < |r| ==>
      |r[k].path| == N_PTS && r[k].path[0] == pop[k].path[0] &&
      r[k].path[N_PTS - 1] == pop[k].path[|pop[k].path| - 1] &&
      r[k].(path := pop[k].path) == pop[k] &&
      (|pop[k].path| == N_PTS ==> r[k] == pop[k])
  {
    seq(|pop|, k requires 0 <= k < |pop| => pop[k].(path := AdjustedPath(pop[k].path, draws[k])))
  }

  /** How far the pair loop of `calcDiversity` has summed the contributions to
      individual m when it is about to visit the pair (i, j) of n individuals. */
  function Visited(m: nat, i: nat, j: nat, n: nat): nat {
    if m < i then n else if m == i then j else if m < j then i + 1 else i
  }

  /** Visiting the pair (i, j) settles the contribution of j to i and of i
      to j: both grow by the gap between their paths. */
  lemma PairStep(pop: seq<Individual>, i: nat, j: nat, dist: Metric)
    requires i < j < |pop| && LongPaths(pop)
    ensures Owed(pop, i, j + 1, dist) == Owed(pop, i, j, dist) + PairGap(pop[i].path, pop[j].path, N_PTS, dist)
    ensures Owed(pop, j, i + 1, dist) == Owed(pop, j, i, dist) + PairGap(pop[i].path, pop[j].path, N_PTS, dist)
  {
  }

  /** The state of `calcDiversity` before the pass for individual i: the
      individuals before i have all their contributions, the others those
      of the individuals before i. */
  ghost predicate Tallied(inds: seq<Individual>, orig: seq<Individual>, i: nat, dist: Metric)
    requires LongPaths(orig) && i <= |orig|
  {
    |inds| == |orig| &&
    forall m {:trigger inds[m]} :: 0 <= m < |orig| ==>
      inds[m] == orig[m].(diversity := Owed(orig, m, if m < i then |orig| else i, dist))
  }

  class Population {
    var inds: seq<Individual>

    constructor(pop: seq<Individual>)
      ensures inds == pop
    {
      inds := pop;
    }

    /** The innermost loop of `calcDiversity`: the gap between the paths of
        individuals i and j is added to the diversity of both. */
    method AddPairGap(i: nat, j: nat, dist: Metric)
      requires i < j < |inds| && |inds[i].path| >= N_PTS && |inds[j].path| >= N_PTS
      modifies this
      ensures var gap := PairGap(old(inds)[i].path, old(inds)[j].path, N_PTS, dist);
        inds == old(inds)[i := old(inds)[i].(diversity := old(inds)[i].diversity + gap)]
                         [j := old(inds)[j].(diversity := old(inds)[j].diversity + gap)]
    {
      ghost var orig := inds;
      var k := 0;
      while k < N_PTS
        invariant 0 <= k <= N_PTS
        invariant var gap := PairGap(orig[i].path, orig[j].path, k, dist);
          inds == orig[i := orig[i].(diversity := orig[i].diversity + gap)]
                      [j := orig[j].(diversity := orig[j].diversity + gap)]
      {
        var pt1 := inds[i].path[k];
        var pt2 := inds[j].path[k];
        var d := dist(pt1, pt2);
        inds := inds[i := inds[i].(diversity := inds[i].diversity + d)];
        inds := inds[j := inds[j].(diversity := inds[j].diversity + d)];
        k := k + 1;
      }
    }

    /** One pass of the middle loop of `calcDiversity`: individual i is
        compared with every later individual. */
    method TallyRow(i: nat, ghost orig: seq<Individual>, dist: Metric)
      requires i + 1 < |orig| && LongPaths(orig) && Tallied(inds, orig, i, dist)
      modifies this
      ensures Tallied(inds, orig, i + 1, dist)
    {
      var num := |inds|;
      assert Owed(orig, i, i + 1, dist) == Owed(orig, i, i, dist) + 0.0;
      var j := i + 1;
      while j < num
        invariant i + 1 <= j <= num && |inds| == num
        invariant forall m {:trigger inds[m]} :: 0 <= m < num ==>
          inds[m] == orig[m].(diversity := Owed(orig, m, Visited(m, i, j, num), dist))
      {
        AddPairGap(i, j, dist);
        PairStep(orig, i, j, dist);
        j := j + 1;
      }
    }

    /** `calcDiversity`: every individual's diversity becomes its mean gap to
        the others, and nothing else changes. */
    method CalcDiversity(dist: Metric)
      requires |inds| != 1 && LongPaths(inds)
      modifies this
      ensures |inds| == |old(inds)|
      ensures forall m :: 0 <= m < |inds| ==>
        inds[m] == old(inds)[m].(diversity := DiversityOf(old(inds), m, dist))
    {
      ghost var orig := inds;
      var num := |inds|;

      var i := 0;
      while i < num
        invariant 0 <= i <= num && |inds| == num
        invariant forall m :: 0 <= m < i ==> inds[m] == orig[m].(diversity := 0.0)
        invariant forall m :: i <= m < num ==> inds[m] == orig[m]
      {
        inds := inds[i := inds[i].(diversity := 0.0)];
        i := i + 1;
      }

      i := 0;
      while i < num - 1
        invariant 0 <= i <= if num == 0 then 0 else num - 1
        invariant Tallied(inds, orig, i, dist)
      {
        TallyRow(i, orig, dist);
        i := i + 1;
      }
      if num > 0 {
        assert Owed(orig, num - 1, num, dist) == Owed(orig, num - 1, num - 1, dist) + 0.0;
      }

      AverageDiversity(orig, dist);
    }

    /** The last loop of `calcDiversity`: every summed diversity is divided by
        the number of other individuals. */
    method AverageDiversity(ghost orig: seq<Individual>, dist: Metric)
      requires |orig| != 1 && LongPaths(orig) && Tallied(inds, orig, |orig|, dist)
      modifies this
      ensures |inds| == |orig|
      ensures forall m :: 0 <= m < |inds| ==> inds[m] == orig[m].(diversity := DiversityOf(orig, m, dist))
    {
      var num := |inds|;
      var i := 0;
      while i < num
        invariant 0 <= i <= num && |inds| == num
        invariant forall m {:trigger inds[m]} :: 0 <= m < i ==> inds[m] == orig[m].(diversity := DiversityOf(orig, m, dist))
        invariant forall m {:trigger inds[m]} :: i <= m < num ==> inds[m] == orig[m].(diversity := Owed(orig, m, num, dist))
      {
        inds := inds[i := inds[i].(diversity := inds[i].diversity / (num - 1) as real)];
        i := i + 1;
      }
    }

    /** `evaluate`: diversity first, then every individual not yet scored is
        scored against the other robot's best, and everyone ages by one. */
    method Evaluate(pop2: seq<Individual>, g: Collaborators, dist: Metric)
      requires |pop2| > 0 && |inds| != 1 && LongPaths(inds)
      requires KinematicsContract(g) && ValidRobot(pop2[0].robotID)
      requires forall i :: 0 <= i < |inds| && inds[i].fitness == 0.0 ==>
        ValidRobot(inds[i].robotID) && |inds[i].path| <= |pop2[0].path|
      modifies this
      ensures |inds| == |old(inds)|
      ensures forall i :: 0 <= i < |inds| ==>
        inds[i] == Evaluated(old(inds)[i].(diversity := DiversityOf(old(inds), i, dist)), pop2[0], g, dist)
    {
      var bestInd := pop2[0];
      var num := |inds|;
      CalcDiversity(dist);
      ghost var ranked := inds;
      var i := 0;
      while i < num
        invariant 0 <= i <= num && |inds| == num
        invariant forall m {:trigger inds[m]} :: 0 <= m < num ==>
          inds[m] == if m < i then Evaluated(ranked[m], bestInd, g, dist) else ranked[m]
      {
        if inds[i].fitness == 0.0 {
          var d1 := CalcPathLength(inds[i].path, dist);
          var d2 := CalcPathLength(bestInd.path, dist);
          inds := inds[i := inds[i].(distance := d1 + d2)];
          var collision := CalcCollision(g, inds[i], bestInd);
          inds := inds[i := inds[i].(collision := collision)];
          inds := inds[i := inds[i].(fitness := inds[i].distance + (inds[i].collision * COLLISION_PENALTY) as real)];
        }
        inds := inds[i := inds[i].(age := inds[i].age + 1)];
        i := i + 1;
      }
    }

    /** `sort_pop`: ascending by fitness, a permutation of the population. */
    method SortPop()
      modifies this
      ensures SortedByFitness(inds) && multiset(inds) == multiset(old(inds))
    {
      inds := SortByKey(inds, FitnessOf);
    }

    /** `mutation`: the children of the individuals whose coin falls below P_MUT
        are appended, in order, behind the unchanged population. */
    method Mutation(op: Mut.MutOperator, coins: seq<real>)
      requires |coins| == |inds| && Mut.Applicable(inds, op)
      modifies this
      ensures inds == old(inds) + Mut.Mutants(old(inds), coins, op)
    {
      var addPop: seq<Individual> := [];
      var num := |inds|;
      var i := 0;
      while i < num
        invariant 0 <= i <= num && Mut.Applicable(inds[..i], op)
        invariant addPop == Mut.Mutants(inds[..i], coins[..i], op)
      {
        assert inds[..i + 1][..i] == inds[..i] && coins[..i + 1][..i] == coins[..i];
        if coins[i] < P_MUT {
          var child := op(inds[i]);
          addPop := addPop + [child];
        }
        i := i + 1;
      }
      assert inds[..num] == inds && coins[..num] == coins;
      inds := inds + addPop;
    }

    /** `adjust_num_pts`. */
    method AdjustNumPts(draws: seq<seq<int>>)
      requires AdjustReady(inds, draws)
      modifies this
      ensures inds == AdjustedAll(old(inds), draws)
    {
      ghost var orig := inds;
      var num := |inds|;
      var i := 0;
      while i < num
        invariant 0 <= i <= num && |inds| == num
        invariant forall k :: 0 <= k < num ==>
          inds[k] == if k < i then orig[k].(path := AdjustedPath(orig[k].path, draws[k])) else orig[k]
      {
        var path := AdjustPath(inds[i].path, draws[i]);
        inds := inds[i := inds[i].(path := path)];
        i := i + 1;
      }
    }

    /** `crossover`: the children of every individual (mated within the whole
        population) are appended behind it, then every path is brought to N_PTS
        waypoints. */
    method Crossover(op: Cx.CxOperator, adjustDraws: seq<seq<int>>)
      requires Cx.Applicable(inds, inds, op)
      requires AdjustReady(inds + Cx.Offspring(inds, inds, op), adjustDraws)
      modifies this
      ensures inds == AdjustedAll(old(inds) + Cx.Offspring(old(inds), old(inds), op), adjustDraws)
      ensures |inds| == |old(inds)| + |Cx.Offspring(old(inds), old(inds), op)|
      ensures (forall k :: 0 <= k < |old(inds)| ==> |old(inds)[k].path| == N_PTS) ==>
        inds[..|old(inds)|] == old(inds)
      ensures (forall k :: 0 <= k < |old(inds)| ==> |op(old(inds)[k], old(inds))| in {0, 2}) ==>
        (|inds| - |old(inds)|) % 2 == 0 && |inds| <= 3 * |old(inds)|
    {
      var num := |inds|;
      var addPop: seq<Individual> := [];
      var i := 0;
      while i < num
        invariant 0 <= i <= num && Cx.Applicable(inds[..i], inds, op)
        invariant addPop == Cx.Offspring(inds[..i], inds, op)
      {
        assert inds[..i + 1][..i] == inds[..i];
        var children := op(inds[i], inds);
        if |children| != 0 {
          addPop := addPop + children;
        }
        i := i + 1;
      }
      assert inds[..num] == inds;
      if forall k :: 0 <= k < num ==> |op(inds[k], inds)| in {0, 2} {
        Cx.OffspringInPairs(inds, inds, op);
      }
      inds := inds + addPop;
      AdjustNumPts(adjustDraws);
    }
  }
}

/**
 * Selection over a population sorted ascending by fitness (lower is better):
 * tournament, roulette-wheel and elitist selection, and the order `sort_pop`
 * establishes with `operator<`.
 */
module Selection {
  import opened Genotype
  import opened Sequences

  function FitnessOf(ind: Individual): real {
    ind.fitness
  }

  /** `operator<` on individuals. */
  predicate Less(left: Individual, right: Individual) {
    left.fitness < right.fitness
  }

  /** No individual is `operator<` any individual in front of it. */
  predicate SortedByFitness(pop: seq<Individual>) {
    SortedBy(pop, FitnessOf)
  }

  lemma SortedMeansNoInversion(pop: seq<Individual>)
    ensures SortedByFitness(pop) <==> forall i, j :: 0 <= i < j < |pop| ==> !Less(pop[j], pop[i])
  {
  }

  // ---------------------------------------------------------------------------
  // Tournament selection
  // ---------------------------------------------------------------------------

  /** The smallest of the draws, starting from N_POP as the source does. */
  function TournamentWinner(draws: seq<int>): (m: int)
    ensures m <= N_POP
    ensures forall k :: 0 <= k < |draws| ==> m <= draws[k]
    ensures m == N_POP || m in draws
  {
    if draws == [] then N_POP
    else
      var m := TournamentWinner(draws[..|draws| - 1]);
      assert forall k :: 0 <= k < |draws| - 1 ==> draws[..|draws| - 1][k] == draws[k];
      if draws[|draws| - 1] < m then draws[|draws| - 1] else m
  }

  predicate ValidTournamentDraws(draws: seq<seq<int>>) {
    |draws| == N_POP - N_ELITES &&
    forall i :: 0 <= i < |draws| ==>
      |draws[i]| == N_TOURNAMENT && forall j :: 0 <= j < N_TOURNAMENT ==> 0 <= draws[i][j] <= N_POP - 1
  }

  /** In a fitness-sorted population the winner is at least as fit as every
      individual drawn for the tournament. */
  lemma TournamentPicksFittestDrawn(pop: seq<Individual>, draws: seq<int>)
    requires |pop| >= N_POP && SortedByFitness(pop)
    requires |draws| >= 1 && forall j :: 0 <= j < |draws| ==> 0 <= draws[j] <= N_POP - 1
    ensures 0 <= TournamentWinner(draws) < N_POP
    ensures forall j :: 0 <= j < |draws| ==> pop[TournamentWinner(draws)].fitness <= pop[draws[j]].fitness
  {
    var m := TournamentWinner(draws);
    assert m in draws;
  }

  /** `tournamentSelection`: N_POP - N_ELITES slots, each filled with the
      individual at the smallest of N_TOURNAMENT drawn indices. */
  method TournamentSelection(pop: seq<Individual>, draws: seq<seq<int>>) returns (offspring: seq<Individual>)
    requires |pop| >= N_POP
    requires ValidTournamentDraws(draws)
    ensures |offspring| == N_POP - N_ELITES
    ensures forall i :: 0 <= i < |offspring| ==>
      0 <= TournamentWinner(draws[i]) < N_POP && offspring[i] == pop[TournamentWinner(draws[i])]
  {
    var nOffspring := N_POP - N_ELITES;
    offspring := [];
    var i := 0;
    while i < nOffspring
      invariant 0 <= i <= nOffspring
      invariant |offspring| == i
      invariant forall k :: 0 <= k < i ==>
        0 <= TournamentWinner(draws[k]) < N_POP && offspring[k] == pop[TournamentWinner(draws[k])]
    {
      var minIndex := N_POP;
      var j := 0;
      while j < N_TOURNAMENT
        invariant 0 <= j <= N_TOURNAMENT
        invariant minIndex == TournamentWinner(draws[i][..j])
      {
        var randIndex := draws[i][j];
        assert draws[i][..j + 1][..j] == draws[i][..j];
        if randIndex < minIndex {
          minIndex := randIndex;
        }
        j := j + 1;
      }
      assert draws[i][..N_TOURNAMENT] == draws[i];
      assert minIndex in draws[i];
      offspring := offspring + [pop[minIndex]];
      i := i + 1;
    }
  }

  // ---------------------------------------------------------------------------
  // Elitist selection
  // ---------------------------------------------------------------------------

  /** `elitistSelection`: the first N_ELITES individuals, unchanged. */
  method ElitistSelection(pop: seq<Individual>) returns (elites: seq<Individual>)
    requires |pop| >= N_ELITES
    ensures elites == pop[..N_ELITES]
    ensures SortedByFitness(pop) ==>
      forall e, k :: 0 <= e < |elites| && N_ELITES <= k < |pop| ==> elites[e].fitness <= pop[k].fitness
  {
    elites := [];
    var i := 0;
    while i < N_ELITES
      invariant 0 <= i <= N_ELITES
      invariant elites == pop[..i]
    {
      elites := elites + [pop[i]];
      i := i + 1;
    }
  }

  // ---------------------------------------------------------------------------
  // Roulette-wheel selection
  // ---------------------------------------------------------------------------

  predicate NonZeroFitness(pop: seq<Individual>) {
    forall k :: 0 <= k < |pop| ==> pop[k].fitness != 0.0
  }

  /** The roulette weight of an individual: the reciprocal of its fitness. */
  function Weight(ind: Individual): real
    requires ind.fitness != 0.0
  {
    1.0 / ind.fitness
  }

  /** Total weight of the first i individuals (`thresh` after i steps). */
  function Cumulative(pop: seq<Individual>, i: nat): real
    requires i <= |pop| && NonZeroFitness(pop)
  {
    if i == 0 then 0.0 else Cumulative(pop, i - 1) + Weight(pop[i - 1])
  }

  /** Total weight through index j, i.e. of the first j + 1 individuals. */
  function Through(pop: seq<Individual>, j: nat): real
    requires j < |pop| && NonZeroFitness(pop)
  {
    Cumulative(pop, j + 1)
  }

  /** The first index b >= i (below N_POP) whose cumulative weight through b
      exceeds the draw r, if any. */
  function Bucket(pop: seq<Individual>, r: real, i: nat): (b: Option<nat>)
    requires |pop| >= N_POP && NonZeroFitness(pop) && i <= N_POP
    ensures b.Some? ==> i <= b.value < N_POP && r < Through(pop, b.value)
    ensures b.Some? ==> forall j :: i <= j < b.value ==> Through(pop, j) <= r
    decreases N_POP - i
  {
    if i == N_POP then None
    else if r < Through(pop, i) then Some(i)
    else Bucket(pop, r, i + 1)
  }

  /** The population indices the ascending draws are assigned to; the sweep
      stops at the first draw that no individual's cumulative weight exceeds. */
  function Picks(pop: seq<Individual>, asc: seq<real>): (r: seq<nat>)
    requires |pop| >= N_POP && NonZeroFitness(pop)
    ensures |r| <= |asc| && forall k :: 0 <= k < |r| ==> r[k] < N_POP
  {
    if asc == [] then []
    else match Bucket(pop, asc[0], 0)
      case None => []
      case Some(b) => [b] + Picks(pop, asc[1..])
  }

  /** Pick k is the bucket of draw k. */
  lemma {:induction false} PicksAreBuckets(pop: seq<Individual>, asc: seq<real>)
    requires |pop| >= N_POP && NonZeroFitness(pop)
    ensures forall k :: 0 <= k < |Picks(pop, asc)| ==>
      Bucket(pop, asc[k], 0) == Some(Picks(pop, asc)[k]) && Picks(pop, asc)[k] < N_POP
  {
    if asc != [] && Bucket(pop, asc[0], 0).Some? {
      PicksAreBuckets(pop, asc[1..]);
      var r := Picks(pop, asc);
      var rest := Picks(pop, asc[1..]);
      assert r == [Bucket(pop, asc[0], 0).value] + rest;
      forall k | 1 <= k < |r|
        ensures Bucket(pop, asc[k], 0) == Some(r[k]) && r[k] < N_POP
      {
        assert r[k] == rest[k - 1] && asc[k] == asc[1..][k - 1];
      }
    }
  }

  /** A larger draw never lands in an earlier bucket. */
  lemma {:induction false} BucketMonotone(pop: seq<Individual>, r: real, r': real, i: nat)
    requires |pop| >= N_POP && NonZeroFitness(pop) && i <= N_POP
    requires r <= r' && Bucket(pop, r', i).Some?
    ensures Bucket(pop, r, i).Some? && Bucket(pop, r, i).value <= Bucket(pop, r', i).value
    decreases N_POP - i
  {
    if r' >= Through(pop, i) && r >= Through(pop, i) {
      BucketMonotone(pop, r, r', i + 1);
    }
  }

  /** The key that orders the draws by their own value. */
  function Id(r: real): real {
    r
  }

  /** For ascending draws, roulette copies individuals in non-decreasing index order. */
  lemma PicksNonDecreasing(pop: seq<Individual>, asc: seq<real>)
    requires |pop| >= N_POP && NonZeroFitness(pop) && SortedBy(asc, Id)
    ensures forall k, l :: 0 <= k < l < |Picks(pop, asc)| ==> Picks(pop, asc)[k] <= Picks(pop, asc)[l]
  {
    var p := Picks(pop, asc);
    PicksAreBuckets(pop, asc);
    forall k, l | 0 <= k < l < |p| ensures p[k] <= p[l] {
      BucketMonotone(pop, asc[k], asc[l], 0);
    }
  }

  lemma {:induction false} BucketAt(pop: seq<Individual>, r: real, i: nat, b: nat)
    requires |pop| >= N_POP && NonZeroFitness(pop) && i <= b < N_POP
    requires forall j :: i <= j < b ==> Through(pop, j) <= r
    requires r < Through(pop, b)
    ensures Bucket(pop, r, i) == Some(b)
    decreases b - i
  {
    if i < b {
      BucketAt(pop, r, i + 1, b);
    }
  }

  lemma {:induction false} BucketNone(pop: seq<Individual>, r: real, i: nat)
    requires |pop| >= N_POP && NonZeroFitness(pop) && i <= N_POP
    requires forall j :: i <= j < N_POP ==> Through(pop, j) <= r
    ensures Bucket(pop, r, i) == None
    decreases N_POP - i
  {
    if i < N_POP {
      BucketNone(pop, r, i + 1);
    }
  }

  lemma {:induction false} PicksPrefix(pop: seq<Individual>, asc: seq<real>, t: nat)
    requires |pop| >= N_POP && NonZeroFitness(pop) && t <= |asc|
    requires forall k :: 0 <= k < t ==> Bucket(pop, asc[k], 0).Some?
    requires t < |asc| ==> Bucket(pop, asc[t], 0) == None
    ensures |Picks(pop, asc)| == t
  {
    if t > 0 {
      PicksPrefix(pop, asc[1..], t - 1);
    }
  }

  /** Every individual before index i has cumulative weight at most r. */
  predicate BelowThrough(pop: seq<Individual>, i: nat, r: real)
    requires i <= |pop| && NonZeroFitness(pop)
  {
    i == 0 || (BelowThrough(pop, i - 1, r) && Through(pop, i - 1) <= r)
  }

  lemma {:induction false} BelowThroughAll(pop: seq<Individual>, i: nat, r: real)
    requires i <= |pop| && NonZeroFitness(pop) && BelowThrough(pop, i, r)
    ensures forall j :: 0 <= j < i ==> Through(pop, j) <= r
  {
    if i > 0 {
      BelowThroughAll(pop, i - 1, r);
    }
  }

  lemma {:induction false} BelowThroughRaise(pop: seq<Individual>, i: nat, r: real, r': real)
    requires i <= |pop| && NonZeroFitness(pop) && BelowThrough(pop, i, r) && r <= r'
    ensures BelowThrough(pop, i, r')
  {
    if i > 0 {
      BelowThroughRaise(pop, i - 1, r, r');
    }
  }

  /** Offspring k is the individual that draw k lands on, for every k. */
  predicate Assigned(pop: seq<Individual>, asc: seq<real>, offspring: seq<Individual>)
    requires |pop| >= N_POP && NonZeroFitness(pop)
    decreases |offspring|
  {
    |offspring| <= |asc| &&
    (offspring == [] ||
     (var n := |offspring| - 1;
      Assigned(pop, asc, offspring[..n]) &&
      Bucket(pop, asc[n], 0).Some? && offspring[n] == pop[Bucket(pop, asc[n], 0).value]))
  }

  lemma {:induction false} AssignedAll(pop: seq<Individual>, asc: seq<real>, offspring: seq<Individual>)
    requires |pop| >= N_POP && NonZeroFitness(pop) && Assigned(pop, asc, offspring)
    ensures forall k :: 0 <= k < |offspring| ==>
      Bucket(pop, asc[k], 0).Some? && offspring[k] == pop[Bucket(pop, asc[k], 0).value]
    decreases |offspring|
  {
    if offspring != [] {
      var n := |offspring| - 1;
      AssignedAll(pop, asc, offspring[..n]);
    }
  }

  /** Handing draw t, which individual i's cumulative weight exceeds, to
      individual i keeps every offspring assigned, and the next draw is still
      not below the weights before i. */
  lemma HandOut(pop: seq<Individual>, asc: seq<real>, offspring: seq<Individual>, i: nat)
    requires |pop| >= N_POP && NonZeroFitness(pop) && i < N_POP && SortedBy(asc, Id)
    requires |offspring| < |asc| && Assigned(pop, asc, offspring)
    requires BelowThrough(pop, i, asc[|offspring|]) && asc[|offspring|] < Through(pop, i)
    ensures Assigned(pop, asc, offspring + [pop[i]])
    ensures |offspring| + 1 < |asc| ==> BelowThrough(pop, i, asc[|offspring| + 1])
  {
    var t := |offspring|;
    BelowThroughAll(pop, i, asc[t]);
    BucketAt(pop, asc[t], 0, i);
    assert (offspring + [pop[i]])[..t] == offspring;
    if t + 1 < |asc| {
      BelowThroughRaise(pop, i, asc[t], asc[t + 1]);
    }
  }

  /** The inner loop of the sweep at individual i: while the smallest
      remaining draw is below `thresh`, copy individual i for it and drop it. */
  method ServeDraws(pop: seq<Individual>, i: nat, thresh: real, rands: seq<real>, offspring: seq<Individual>,
                    ghost asc: seq<real>)
    returns (rands': seq<real>, offspring': seq<Individual>)
    requires |pop| >= N_POP && NonZeroFitness(pop) && i < N_POP && thresh == Through(pop, i)
    requires SortedBy(asc, Id) && |offspring| <= |asc| && |rands| == |asc| - |offspring|
    requires forall k :: 0 <= k < |rands| ==> rands[k] == asc[|asc| - 1 - k]
    requires Assigned(pop, asc, offspring)
    requires |offspring| < |asc| ==> BelowThrough(pop, i, asc[|offspring|])
    ensures |offspring| <= |offspring'| <= |asc| && |rands'| == |asc| - |offspring'|
    ensures forall k :: 0 <= k < |rands'| ==> rands'[k] == asc[|asc| - 1 - k]
    ensures Assigned(pop, asc, offspring')
    ensures |offspring'| < |asc| ==> BelowThrough(pop, i + 1, asc[|offspring'|])
  {
    rands', offspring' := rands, offspring;
    while |rands'| != 0
      invariant |offspring| <= |offspring'| <= |asc| && |rands'| == |asc| - |offspring'|
      invariant forall k :: 0 <= k < |rands'| ==> rands'[k] == asc[|asc| - 1 - k]
      invariant Assigned(pop, asc, offspring')
      invariant |offspring'| < |asc| ==> BelowThrough(pop, i, asc[|offspring'|])
      decreases |rands'|
    {
      var rand := rands'[|rands'| - 1];
      assert rand == asc[|offspring'|];
      if rand < thresh {
        HandOut(pop, asc, offspring', i);
        offspring' := offspring' + [pop[i]];
        rands' := rands'[..|rands'| - 1];
      } else {
        break;
      }
    }
  }

  /** Once every individual has been passed, the offspring are exactly the picks
      of the draws: each handed-out draw went to its bucket, and the first draw
      left over exceeds the total weight, so no later draw has a bucket. */
  lemma SweepDone(pop: seq<Individual>, asc: seq<real>, offspring: seq<Individual>)
    requires |pop| >= N_POP && NonZeroFitness(pop) && Assigned(pop, asc, offspring)
    requires |offspring| < |asc| ==> BelowThrough(pop, N_POP, asc[|offspring|])
    ensures var picks := Picks(pop, asc);
      |offspring| == |picks| && forall k :: 0 <= k < |picks| ==> offspring[k] == pop[picks[k]]
  {
    var t := |offspring|;
    if t < |asc| {
      BelowThroughAll(pop, N_POP, asc[t]);
      BucketNone(pop, asc[t], 0);
    }
    AssignedAll(pop, asc, offspring);
    PicksPrefix(pop, asc, t);
    PicksAreBuckets(pop, asc);
  }

  /** The sweep of `rouletteSelection`: walk the first N_POP individuals once,
      accumulating `thresh`, and hand the smallest remaining draw (the back of
      the descending `randList`) to every individual whose cumulative weight
      exceeds it. */
  method RouletteSweep(pop: seq<Individual>, randList: seq<real>, ghost asc: seq<real>) returns (offspring: seq<Individual>)
    requires |pop| >= N_POP && NonZeroFitness(pop)
    requires SortedBy(asc, Id) && randList == Reverse(asc)
    ensures var picks := Picks(pop, asc);
      |offspring| == |picks| && forall k :: 0 <= k < |picks| ==> offspring[k] == pop[picks[k]]
  {
    var rands := randList;
    offspring := [];
    var thresh := 0.0;
    var i := 0;
    while i < N_POP
      invariant 0 <= i <= N_POP
      invariant thresh == Cumulative(pop, i)
      invariant |offspring| <= |asc| && |rands| == |asc| - |offspring|
      invariant forall k :: 0 <= k < |rands| ==> rands[k] == asc[|asc| - 1 - k]
      invariant Assigned(pop, asc, offspring)
      invariant |offspring| < |asc| ==> BelowThrough(pop, i, asc[|offspring|])
    {
      thresh := thresh + Weight(pop[i]);
      rands, offspring := ServeDraws(pop, i, thresh, rands, offspring, asc);
      i := i + 1;
    }
    SweepDone(pop, asc, offspring);
  }

  /** `rouletteSelection`: weights 1/fitness, N_POP - N_ELITES draws over the
      total weight, sorted ascending and reversed, then swept once. */
  method RouletteSelection(pop: seq<Individual>, rands: seq<real>) returns (offspring: seq<Individual>)
    requires |pop| >= N_POP && NonZeroFitness(pop)
    requires |rands| == N_POP - N_ELITES
    requires forall k :: 0 <= k < |rands| ==> 0.0 <= rands[k] <= Cumulative(pop, |pop|)
    ensures |offspring| <= N_POP - N_ELITES
    ensures var picks := Picks(pop, SortByKey(rands, Id));
      |offspring| == |picks| && forall k :: 0 <= k < |picks| ==> offspring[k] == pop[picks[k]]
  {
    var sumFitness := Cumulative(pop, |pop|);
    var randList := rands;
    var asc := SortByKey(randList, Id);
    randList := Reverse(asc);
    offspring := RouletteSweep(pop, randList, asc);
  }
}

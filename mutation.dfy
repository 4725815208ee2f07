/**
 * Mutation: `mutNormal`, which nudges each of the first N_PTS - 1 waypoints with
 * probability P_POINT_MUT by at most MUT_STEP per coordinate, and the offspring
 * `mutation` appends, one child per individual whose coin falls below P_MUT.
 * The random numbers are inputs: one `MutDraw` per visited waypoint and one
 * coin per individual.
 */
module Mutation {
  import opened Genotype

  /** The draws `mutNormal` makes at waypoint i: the coin `u` and, when the coin
      falls below P_POINT_MUT, the two offsets. */
  datatype MutDraw = MutDraw(u: real, dx: real, dy: real)

  /** The ranges `get_rand_range_dbl` draws from. */
  predicate ValidMutDraws(draws: seq<MutDraw>) {
    |draws| == N_PTS - 1 &&
    forall i :: 0 <= i < |draws| ==>
      0.0 <= draws[i].u <= 1.0 &&
      -MUT_STEP <= draws[i].dx <= MUT_STEP && -MUT_STEP <= draws[i].dy <= MUT_STEP
  }

  function Moved(p: Point, d: MutDraw): Point {
    if d.u < P_POINT_MUT then Point(p.x + d.dx, p.y + d.dy) else p
  }

  /** The path `mutNormal` produces. */
  function MutatedPath(path: Path, draws: seq<MutDraw>): (r: Path)
    requires |path| >= N_PTS - 1 && |draws| == N_PTS - 1
    ensures |r| == |path|
    ensures r[N_PTS - 1..] == path[N_PTS - 1..]
    ensures forall i :: 0 <= i < N_PTS - 1 && draws[i].u >= P_POINT_MUT ==> r[i] == path[i]
  {
    seq(|path|, i requires 0 <= i < |path| => if i < N_PTS - 1 then Moved(path[i], draws[i]) else path[i])
  }

  /** No coordinate moves by more than MUT_STEP, and the last waypoint (the goal)
      stays where it is. */
  lemma MutationIsLocal(path: Path, draws: seq<MutDraw>)
    requires |path| >= N_PTS && ValidMutDraws(draws)
    ensures var r := MutatedPath(path, draws);
      r[|r| - 1] == path[|path| - 1] &&
      forall i :: 0 <= i < |r| ==>
        -MUT_STEP <= r[i].x - path[i].x <= MUT_STEP && -MUT_STEP <= r[i].y - path[i].y <= MUT_STEP
  {
    var r := MutatedPath(path, draws);
    assert r[|r| - 1] == r[N_PTS - 1..][|r| - N_PTS];
  }

  /** The child `mutNormal` returns: the mutated path with every evaluation
      field cleared, the parent's age and robot. */
  function Mutant(ind: Individual, draws: seq<MutDraw>): (child: Individual)
    requires |ind.path| >= N_PTS - 1 && |draws| == N_PTS - 1
    ensures child.path == MutatedPath(ind.path, draws) && child.age == ind.age && child.robotID == ind.robotID
    ensures child.fitness == 0.0 && child.distance == 0.0 && child.collision == 0 && child.diversity == 0.0
  {
    Fresh(MutatedPath(ind.path, draws), ind.age, ind.robotID)
  }

  /** `mutNormal`, with its loop over the first N_PTS - 1 waypoints. */
  method MutNormal(ind: Individual, draws: seq<MutDraw>) returns (child: Individual)
    requires |ind.path| >= N_PTS - 1 && |draws| == N_PTS - 1
    ensures child == Mutant(ind, draws)
  {
    var path := ind.path;
    var i := 0;
    while i < N_PTS - 1
      invariant 0 <= i <= N_PTS - 1
      invariant |path| == |ind.path|
      invariant forall k :: 0 <= k < i ==> path[k] == Moved(ind.path[k], draws[k])
      invariant path[i..] == ind.path[i..]
    {
      assert path[i] == path[i..][0];
      if draws[i].u < P_POINT_MUT {
        path := path[i := Point(path[i].x + draws[i].dx, path[i].y + draws[i].dy)];
      }
      assert path[i + 1..] == ind.path[i + 1..] by {
        forall k | i + 1 <= k < |path| ensures path[k] == ind.path[k] {
          assert ind.path[k] == ind.path[i..][k - i];
        }
      }
      i := i + 1;
    }
    assert path == MutatedPath(ind.path, draws) by {
      forall k | N_PTS - 1 <= k < |path| ensures path[k] == ind.path[k] {
        assert path[k] == path[N_PTS - 1..][k - (N_PTS - 1)];
      }
    }
    child := Individual(path, 0.0, 0.0, 0, 0.0, ind.age, ind.robotID);
  }

  // ---------------------------------------------------------------------------
  // The offspring of `mutation`
  // ---------------------------------------------------------------------------

  /** How many coins fall below p. */
  function CountBelow(coins: seq<real>, p: real): (c: nat)
    ensures c <= |coins|
  {
    if coins == [] then 0
    else CountBelow(coins[..|coins| - 1], p) + (if coins[|coins| - 1] < p then 1 else 0)
  }

  /** A mutation operator maps a parent to its child; like `mutNormal` it may
      demand something of the parent. */
  type MutOperator = Individual --> Individual

  ghost predicate Applicable(pop: seq<Individual>, op: MutOperator) {
    forall i :: 0 <= i < |pop| ==> op.requires(pop[i])
  }

  /** The children `mutation` collects, in population order: one mutant of each
      individual whose coin falls below P_MUT. */
  function Mutants(pop: seq<Individual>, coins: seq<real>, op: MutOperator): (kids: seq<Individual>)
    requires |coins| == |pop| && Applicable(pop, op)
    ensures |kids| == CountBelow(coins, P_MUT) && |kids| <= |pop|
  {
    if pop == [] then []
    else
      var n := |pop| - 1;
      assert forall i :: 0 <= i < n ==> pop[..n][i] == pop[i];
      Mutants(pop[..n], coins[..n], op) + (if coins[n] < P_MUT then [op(pop[n])] else [])
  }

  /** x is the mutant of an individual whose coin fell below P_MUT. */
  predicate MutantOf(pop: seq<Individual>, coins: seq<real>, op: MutOperator, x: Individual)
    requires |coins| == |pop| && Applicable(pop, op)
  {
    exists i :: 0 <= i < |pop| && coins[i] < P_MUT && x == op(pop[i])
  }

  /** Every child is the mutant of some individual of the population. */
  lemma {:induction false} MutantsComeFromPopulation(pop: seq<Individual>, coins: seq<real>, op: MutOperator)
    requires |coins| == |pop| && Applicable(pop, op)
    ensures forall k :: 0 <= k < |Mutants(pop, coins, op)| ==> MutantOf(pop, coins, op, Mutants(pop, coins, op)[k])
  {
    if pop != [] {
      var n := |pop| - 1;
      assert Applicable(pop[..n], op);
      MutantsComeFromPopulation(pop[..n], coins[..n], op);
      var front := Mutants(pop[..n], coins[..n], op);
      var kids := Mutants(pop, coins, op);
      forall k | 0 <= k < |kids| ensures MutantOf(pop, coins, op, kids[k]) {
        if k < |front| {
          assert MutantOf(pop[..n], coins[..n], op, front[k]);
          var i :| 0 <= i < n && coins[..n][i] < P_MUT && front[k] == op(pop[..n][i]);
          assert kids[k] == front[k];
          assert coins[i] < P_MUT && kids[k] == op(pop[i]);
        } else {
          assert coins[n] < P_MUT && kids[k] == op(pop[n]);
        }
      }
    }
  }

  /** When every coin falls below P_MUT each individual has exactly one child,
      in order; when none does there are no children. */
  lemma {:induction false} MutantsExtremes(pop: seq<Individual>, coins: seq<real>, op: MutOperator)
    requires |coins| == |pop| && Applicable(pop, op)
    ensures (forall i :: 0 <= i < |coins| ==> coins[i] < P_MUT) ==>
      Mutants(pop, coins, op) == seq(|pop|, i requires 0 <= i < |pop| => op(pop[i]))
    ensures (forall i :: 0 <= i < |coins| ==> coins[i] >= P_MUT) ==> Mutants(pop, coins, op) == []
  {
    if pop != [] {
      var n := |pop| - 1;
      assert Applicable(pop[..n], op);
      MutantsExtremes(pop[..n], coins[..n], op);
    }
  }
}

/**
 * The cost terms of an individual: the length of its raw waypoint path
 * (`calcPathLength`) and the number of sampled instants at which its arm
 * collides with the other robot's arm (`calcCollision`). Forward kinematics
 * and the geometric intersection tests are collaborators passed in as
 * functions.
 */
module Fitness {
  import opened Genotype
  import opened Splines

  // ---------------------------------------------------------------------------
  // Path length
  // ---------------------------------------------------------------------------

  /** Sum of the distances between consecutive waypoints. */
  function PathLength(path: Path, dist: Metric): real
  {
    if |path| < 2 then 0.0
    else PathLength(path[..|path| - 1], dist) + dist(path[|path| - 2], path[|path| - 1])
  }

  lemma {:induction false} PathLengthNonNegative(path: Path, dist: Metric)
    requires IsDistance(dist)
    ensures PathLength(path, dist) >= 0.0
  {
    if |path| >= 2 {
      PathLengthNonNegative(path[..|path| - 1], dist);
    }
  }

  /** Cutting a path at waypoint k splits its length into the lengths of the two
      halves, which share waypoint k. */
  lemma {:induction false} PathLengthSplit(path: Path, dist: Metric, k: nat)
    requires k < |path|
    ensures PathLength(path, dist) == PathLength(path[..k + 1], dist) + PathLength(path[k..], dist)
    decreases |path|
  {
    var n := |path|;
    if k == n - 1 {
      assert path[..k + 1] == path;
      assert |path[k..]| == 1;
    } else {
      var front := path[..n - 1];
      PathLengthSplit(front, dist, k);
      assert front[..k + 1] == path[..k + 1];
      assert front[k..] == path[k..][..|path[k..]| - 1];
      assert path[k..][|path[k..]| - 2] == path[n - 2];
    }
  }

  /** `calcPathLength`. */
  method CalcPathLength(path: Path, dist: Metric) returns (distance: real)
    ensures distance == PathLength(path, dist)
  {
    distance := 0.0;
    var num := |path|;
    var i := 0;
    while i < num - 1
      invariant 0 <= i <= if num == 0 then 0 else num - 1
      invariant distance == PathLength(path[..if num == 0 then 0 else i + 1], dist)
    {
      assert path[..i + 2][..i + 1] == path[..i + 1];
      distance := distance + dist(path[i], path[i + 1]);
      i := i + 1;
    }
    if num > 0 {
      assert path[..i + 1] == path;
    }
  }

  // ---------------------------------------------------------------------------
  // Collision counting
  // ---------------------------------------------------------------------------

  /** Samples per segment used to densify both paths before collision checking. */
  const COLLISION_SAMPLES: nat := 10
  /** Clearance radius of the line-circle tests. */
  const CLEARANCE: real := 0.1

  datatype Line = Line(p: Point, q: Point)

  /** The robots' forward kinematics and the geometry predicates. */
  datatype Collaborators = Collaborators(
    forwardKinematics: (int, Point) -> seq<Point>,
    roughCheck: (Line, Line) -> bool,
    lineLine: (Line, Line) -> bool,
    lineCircle: (Line, Point, real) -> bool)

  /** Forward kinematics yields the N_JOINT + 1 endpoints of the link chain. */
  ghost predicate KinematicsContract(g: Collaborators) {
    forall id, config :: ValidRobot(id) ==> |g.forwardKinematics(id, config)| == N_JOINT + 1
  }

  /** The test applied to one pair of links: the rough check must pass, then any
      of the line-line and the two line-circle tests counts as a collision. */
  predicate LinksCollide(g: Collaborators, line1: Line, line2: Line) {
    g.roughCheck(line1, line2) &&
    (g.lineLine(line1, line2) || g.lineCircle(line1, line2.q, CLEARANCE) || g.lineCircle(line2, line1.q, CLEARANCE))
  }

  function Link(config: seq<Point>, j: nat): Line
    requires j + 1 < |config|
  {
    Line(config[j], config[j + 1])
  }

  /** Some pair of links of the two arms collides at this instant. */
  predicate InstantCollides(g: Collaborators, config1: seq<Point>, config2: seq<Point>)
    requires |config1| == N_JOINT + 1 && |config2| == N_JOINT + 1
  {
    exists j, k :: 0 <= j < N_JOINT && 0 <= k < N_JOINT && LinksCollide(g, Link(config1, j), Link(config2, k))
  }

  /** Number of colliding instants among the first n samples of the two curves. */
  function CollisionCount(g: Collaborators, id1: int, id2: int, s1: Path, s2: Path, n: nat): (c: int)
    requires KinematicsContract(g) && ValidRobot(id1) && ValidRobot(id2)
    requires n <= |s1| && n <= |s2|
    ensures 0 <= c <= n
  {
    if n == 0 then 0
    else
      CollisionCount(g, id1, id2, s1, s2, n - 1) +
      (if InstantCollides(g, g.forwardKinematics(id1, s1[n - 1]), g.forwardKinematics(id2, s2[n - 1])) then 1 else 0)
  }

  /** What `calcCollision(ind1, ind2)` returns. */
  function Collisions(g: Collaborators, ind1: Individual, ind2: Individual): (c: int)
    requires KinematicsContract(g) && ValidRobot(ind1.robotID) && ValidRobot(ind2.robotID)
    requires 2 <= |ind1.path| <= |ind2.path|
    ensures 0 <= c <= (|ind1.path| - 1) * COLLISION_SAMPLES + 1
  {
    var s1 := Curve(ind1.path, COLLISION_SAMPLES);
    var s2 := Curve(ind2.path, COLLISION_SAMPLES);
    assert |s1| <= |s2| by {
      assert (|ind1.path| - 1) * COLLISION_SAMPLES <= (|ind2.path| - 1) * COLLISION_SAMPLES;
    }
    CollisionCount(g, ind1.robotID, ind2.robotID, s1, s2, |s1|)
  }

  /** Searches the link pairs of one instant and stops at the first collision
      (the `goto NEXT` of the source). */
  method CheckInstant(g: Collaborators, config1: seq<Point>, config2: seq<Point>) returns (hit: bool)
    requires |config1| == N_JOINT + 1 && |config2| == N_JOINT + 1
    ensures hit == InstantCollides(g, config1, config2)
  {
    hit := false;
    var j := 0;
    while j < N_JOINT
      invariant 0 <= j <= N_JOINT
      invariant forall j', k' :: 0 <= j' < j && 0 <= k' < N_JOINT ==> !LinksCollide(g, Link(config1, j'), Link(config2, k'))
    {
      var k := 0;
      while k < N_JOINT
        invariant 0 <= k <= N_JOINT
        invariant forall k' :: 0 <= k' < k ==> !LinksCollide(g, Link(config1, j), Link(config2, k'))
      {
        var line1 := Line(config1[j], config1[j + 1]);
        var line2 := Line(config2[k], config2[k + 1]);
        if g.roughCheck(line1, line2) {
          if g.lineLine(line1, line2) {
            hit := true;
            assert LinksCollide(g, Link(config1, j), Link(config2, k));
            return;
          }
          if g.lineCircle(line1, line2.q, CLEARANCE) {
            hit := true;
            assert LinksCollide(g, Link(config1, j), Link(config2, k));
            return;
          }
          if g.lineCircle(line2, line1.q, CLEARANCE) {
            hit := true;
            assert LinksCollide(g, Link(config1, j), Link(config2, k));
            return;
          }
        }
        k := k + 1;
      }
      j := j + 1;
    }
  }

  /** `calcCollision`: densify both paths, then count the instants at which some
      link pair collides, each instant at most once. */
  method CalcCollision(g: Collaborators, ind1: Individual, ind2: Individual) returns (counter: int)
    requires KinematicsContract(g) && ValidRobot(ind1.robotID) && ValidRobot(ind2.robotID)
    requires 2 <= |ind1.path| <= |ind2.path|
    ensures counter == Collisions(g, ind1, ind2)
    ensures 0 <= counter <= (|ind1.path| - 1) * COLLISION_SAMPLES + 1
  {
    var spline1 := FergusonSpline(ind1.path, COLLISION_SAMPLES);
    var spline2 := FergusonSpline(ind2.path, COLLISION_SAMPLES);
    assert (|ind1.path| - 1) * COLLISION_SAMPLES <= (|ind2.path| - 1) * COLLISION_SAMPLES;
    var num := |spline1|;
    counter := 0;
    var i := 0;
    while i < num
      invariant 0 <= i <= num
      invariant counter == CollisionCount(g, ind1.robotID, ind2.robotID, spline1, spline2, i)
    {
      var config1 := g.forwardKinematics(ind1.robotID, spline1[i]);
      var config2 := g.forwardKinematics(ind2.robotID, spline2[i]);
      var hit := CheckInstant(g, config1, config2);
      if hit {
        counter := counter + 1;
      }
      i := i + 1;
    }
  }

  // ---------------------------------------------------------------------------
  // Evaluation of one individual
  // ---------------------------------------------------------------------------

  /** What `evaluate` needs to score an individual against the other robot's
      best: known robots and a best path at least as long as the individual's. */
  ghost predicate EvalReady(ind: Individual, best: Individual, g: Collaborators) {
    KinematicsContract(g) && ValidRobot(ind.robotID) && ValidRobot(best.robotID) &&
    2 <= |ind.path| <= |best.path|
  }

  /** One individual after `evaluate`: one generation older, and, when its
      fitness was still 0, scored as its own path length plus that of the other
      robot's best, plus COLLISION_PENALTY per colliding instant. */
  function Evaluated(ind: Individual, best: Individual, g: Collaborators, dist: Metric): (r: Individual)
    requires ind.fitness == 0.0 ==> EvalReady(ind, best, g)
    ensures r.path == ind.path && r.diversity == ind.diversity && r.robotID == ind.robotID
    ensures r.age == ind.age + 1
    ensures ind.fitness != 0.0 ==> r == ind.(age := ind.age + 1)
  {
    if ind.fitness == 0.0 then
      var distance := PathLength(ind.path, dist) + PathLength(best.path, dist);
      var collision := Collisions(g, ind, best);
      ind.(distance := distance, collision := collision,
           fitness := distance + (collision * COLLISION_PENALTY) as real, age := ind.age + 1)
    else ind.(age := ind.age + 1)
  }

  /** A rescored individual's fitness is its distance plus the collision
      penalty; under a true distance both terms are non-negative, so the
      fitness is at least the penalty and at least the distance. */
  lemma EvaluatedScore(ind: Individual, best: Individual, g: Collaborators, dist: Metric)
    requires ind.fitness == 0.0 && EvalReady(ind, best, g) && IsDistance(dist)
    ensures var r := Evaluated(ind, best, g, dist);
      r.fitness == r.distance + (COLLISION_PENALTY * r.collision) as real &&
      0 <= r.collision <= (|ind.path| - 1) * COLLISION_SAMPLES + 1 &&
      r.distance >= 0.0 && r.fitness >= r.distance && r.fitness >= (COLLISION_PENALTY * r.collision) as real
  {
    PathLengthNonNegative(ind.path, dist);
    PathLengthNonNegative(best.path, dist);
  }
}

/**
 * The genotype of the coevolutionary path planner: 2-D waypoints (joint angles
 * of a two-joint arm), paths, and the `Individual` record with its cached
 * evaluation fields. The configuration constants carry the planner's default
 * values.
 */
module Genotype {

  /** The circle constant; only its positivity matters to the proofs. */
  const PI: real := 3.14159265358979323846

  const N_POP: nat := 30
  const N_SPLINE: nat := 3
  const N_PTS: nat := N_SPLINE * 2 + 1
  const N_JOINT: nat := 2
  const N_ELITES: nat := 1
  const N_TOURNAMENT: nat := 3
  /** Probability that `mutation` produces a child from an individual. */
  const P_MUT: real := 0.3
  /** Probability that `mutNormal` moves one waypoint. */
  const P_POINT_MUT: real := 0.3
  /** Largest offset `mutNormal` adds to one coordinate. */
  const MUT_STEP: real := 0.1
  /** Number of robots (`Robot robot[2]`). */
  const N_ROBOTS: nat := 2
  /** Fitness penalty per colliding instant. */
  const COLLISION_PENALTY: int := 100

  datatype Option<T> = None | Some(value: T)

  /** A joint configuration `{q0, q1}`. */
  datatype Point = Point(x: real, y: real)

  type Path = seq<Point>

  /** Field order as in the struct initialisers of `Individual`. */
  datatype Individual = Individual(
    path: Path,
    fitness: real,
    distance: real,
    collision: int,
    diversity: real,
    age: int,
    robotID: int)

  /** A freshly made individual: every evaluation field cleared. */
  function Fresh(path: Path, age: int, robotID: int): Individual {
    Individual(path, 0.0, 0.0, 0, 0.0, age, robotID)
  }

  /** A distance between joint configurations, constrained by `IsDistance`
      where its properties are needed. */
  type Metric = (Point, Point) -> real

  ghost predicate IsDistance(dist: Metric) {
    forall p, q :: dist(p, q) >= 0.0 && dist(p, q) == dist(q, p) && (p == q ==> dist(p, q) == 0.0)
  }

  predicate ValidRobot(id: int) {
    0 <= id < N_ROBOTS
  }

  function Max(a: int, b: int): (m: int)
    ensures m >= a && m >= b && (m == a || m == b)
  {
    if a >= b then a else b
  }
}

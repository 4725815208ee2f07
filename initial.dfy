/**
 * The initial population: `createPath` draws a random mid configuration, picks
 * the image of the goal (the goal shifted by multiples of 2*PI per joint) that
 * lies in the open joint domain (-2*PI, 2*PI)^2 and is nearest to the mid
 * point, and resamples start - mid - goal with a Ferguson spline;
 * `createInitialPop` makes N_POP such individuals for one robot.
 */
module Initial {
  import opened Genotype
  import opened Splines

  /** The open joint domain the goal images must lie in. */
  predicate InDomain(p: Point) {
    -2.0 * PI < p.x < 2.0 * PI && -2.0 * PI < p.y < 2.0 * PI
  }

  /** The closed range the mid point is drawn from. */
  predicate InDrawRange(p: Point) {
    -2.0 * PI <= p.x <= 2.0 * PI && -2.0 * PI <= p.y <= 2.0 * PI
  }

  /** The goal shifted by 2*PI*i on the first joint and 2*PI*j on the second. */
  function Image(goal: Point, i: int, j: int): Point {
    Point(goal.x + 2.0 * PI * i as real, goal.y + 2.0 * PI * j as real)
  }

  /** The turns (i, j) of candidate c of nine, in the order the source's
      double loop visits them (i outer, j inner, both from -1 to 1). */
  function Turn(c: nat): (t: (int, int))
    requires c < 9
    ensures -1 <= t.0 <= 1 && -1 <= t.1 <= 1 && c == 3 * (t.0 + 1) + (t.1 + 1)
  {
    if c < 3 then (-1, c - 1) else if c < 6 then (0, c - 4) else (1, c - 7)
  }

  /** The in-domain images among the first c of the nine candidates. */
  function GoalImages(goal: Point, c: nat): (gs: seq<Point>)
    requires c <= 9
    ensures |gs| <= c
    ensures forall k :: 0 <= k < |gs| ==> InDomain(gs[k])
  {
    if c == 0 then []
    else
      var prev := GoalImages(goal, c - 1);
      var g := Image(goal, Turn(c - 1).0, Turn(c - 1).1);
      if InDomain(g) then prev + [g] else prev
  }

  /** Candidate (i, j) is the next one the double loop visits. */
  lemma CandidateStep(goal: Point, i: int, j: int, c: nat)
    requires -1 <= i <= 1 && -1 <= j <= 1 && c == 3 * (i + 1) + (j + 1)
    ensures c < 9
    ensures GoalImages(goal, c + 1) ==
      if InDomain(Image(goal, i, j)) then GoalImages(goal, c) + [Image(goal, i, j)] else GoalImages(goal, c)
  {
    assert Turn(c) == (i, j);
  }

  /** The images are exactly the in-domain shifts of the goal by -1, 0 or 1
      turns per joint. */
  lemma {:induction false} GoalImagesExactly(goal: Point, c: nat)
    requires c <= 9
    ensures forall g :: g in GoalImages(goal, c) ==>
      exists i, j :: -1 <= i <= 1 && -1 <= j <= 1 && g == Image(goal, i, j)
    ensures forall i, j :: -1 <= i <= 1 && -1 <= j <= 1 && 3 * (i + 1) + (j + 1) < c && InDomain(Image(goal, i, j)) ==>
      Image(goal, i, j) in GoalImages(goal, c)
  {
    if c > 0 {
      GoalImagesExactly(goal, c - 1);
      var i0, j0 := Turn(c - 1).0, Turn(c - 1).1;
      forall g | g in GoalImages(goal, c)
        ensures exists i, j :: -1 <= i <= 1 && -1 <= j <= 1 && g == Image(goal, i, j)
      {
        if g !in GoalImages(goal, c - 1) {
          assert g == Image(goal, i0, j0);
        }
      }
      forall i, j | -1 <= i <= 1 && -1 <= j <= 1 && 3 * (i + 1) + (j + 1) < c && InDomain(Image(goal, i, j))
        ensures Image(goal, i, j) in GoalImages(goal, c)
      {
        if 3 * (i + 1) + (j + 1) == c - 1 {
          assert Turn(3 * (i + 1) + (j + 1)) == (i, j);
        } else {
          assert Image(goal, i, j) in GoalImages(goal, c - 1);
        }
      }
    }
  }

  /** A goal inside the domain is its own image, so there is always a candidate. */
  lemma GoalInDomainIsCandidate(goal: Point)
    requires InDomain(goal)
    ensures goal in GoalImages(goal, 9)
  {
    GoalImagesExactly(goal, 9);
    assert Image(goal, 0, 0) == goal;
  }

  /** State of the nearest-goal loop: `min_dist` and `nearest_goal` (None while
      the vector is still empty). */
  datatype Choice = Choice(minDist: real, nearest: Option<Point>)

  /** The nearest-goal loop over the first n candidates, starting from
      `min_dist = 100.0`: the choice is the first strictly nearest candidate
      closer than 100, or none when every candidate is at least that far. */
  function NearestScan(mid: Point, goals: seq<Point>, n: nat, dist: Metric): (r: Choice)
    requires n <= |goals|
    ensures r.minDist <= 100.0
    ensures forall k :: 0 <= k < n ==> dist(mid, goals[k]) >= r.minDist
    ensures r.nearest.None? ==> r.minDist == 100.0
    ensures r.nearest.Some? ==> r.nearest.value in goals[..n] && dist(mid, r.nearest.value) == r.minDist < 100.0
  {
    if n == 0 then Choice(100.0, None)
    else
      var a := NearestScan(mid, goals, n - 1, dist);
      assert goals[..n - 1] <= goals[..n];
      var d := dist(mid, goals[n - 1]);
      if d < a.minDist then Choice(d, Some(goals[n - 1])) else a
  }

  /** The goal image `createPath` aims for. */
  function NearestGoal(goal: Point, mid: Point, dist: Metric): Option<Point> {
    var goals := GoalImages(goal, 9);
    NearestScan(mid, goals, |goals|, dist).nearest
  }

  /** The nearest goal is an in-domain image of the goal, at least as close to
      the mid point as every other image. */
  lemma NearestGoalIsNearestImage(goal: Point, mid: Point, dist: Metric)
    requires NearestGoal(goal, mid, dist).Some?
    ensures var g := NearestGoal(goal, mid, dist).value;
      InDomain(g) && (exists i, j :: -1 <= i <= 1 && -1 <= j <= 1 && g == Image(goal, i, j)) &&
      forall g' :: g' in GoalImages(goal, 9) ==> dist(mid, g) <= dist(mid, g')
  {
    var goals := GoalImages(goal, 9);
    var g := NearestGoal(goal, mid, dist).value;
    assert goals[..|goals|] == goals;
    GoalImagesExactly(goal, 9);
    var k :| 0 <= k < |goals| && goals[k] == g;
    assert InDomain(goals[k]);
  }

  /** The path `createPath` returns for the drawn mid point: N_PTS waypoints
      from the start through the mid point (at knot N_SPLINE) to the nearest
      goal image. */
  function InitialPath(start: Point, goal: Point, mid: Point, dist: Metric): (path: Path)
    requires NearestGoal(goal, mid, dist).Some?
    ensures |path| == N_PTS
    ensures path[0] == start && path[N_SPLINE] == mid && path[N_PTS - 1] == NearestGoal(goal, mid, dist).value
  {
    var pts := [start, mid, NearestGoal(goal, mid, dist).value];
    CurveStartsAtFirst(pts, N_SPLINE);
    CurveAtKnot(pts, N_SPLINE, 1);
    Curve(pts, N_SPLINE)
  }

  /** The inner candidate loop of `createPath` for the first-joint turn i:
      appends the in-domain images with second-joint turns -1, 0 and 1. */
  method CandidateRow(goal: Point, i: int, goals: seq<Point>) returns (r: seq<Point>)
    requires -1 <= i <= 1 && goals == GoalImages(goal, 3 * (i + 1))
    ensures r == GoalImages(goal, 3 * (i + 1) + 3)
  {
    r := goals;
    ghost var c: nat := 3 * (i + 1);
    var j := -1;
    while j <= 1
      invariant -1 <= j <= 2 && c == 3 * (i + 1) + (j + 1) && c <= 9
      invariant r == GoalImages(goal, c)
    {
      var addPt := Point(goal.x + 2.0 * PI * i as real, goal.y + 2.0 * PI * j as real);
      CandidateStep(goal, i, j, c);
      assert addPt == Image(goal, i, j);
      ghost var next := GoalImages(goal, c + 1);
      if -2.0 * PI < addPt.x && addPt.x < 2.0 * PI && -2.0 * PI < addPt.y && addPt.y < 2.0 * PI {
        assert InDomain(addPt);
        r := r + [addPt];
      } else {
        assert !InDomain(addPt);
      }
      assert r == next;
      c := c + 1;
      j := j + 1;
    }
  }

  /** The candidate loops of `createPath`. */
  method CandidateGoals(goal: Point) returns (goals: seq<Point>)
    ensures goals == GoalImages(goal, 9)
  {
    goals := [];
    var i := -1;
    while i <= 1
      invariant -1 <= i <= 2 && goals == GoalImages(goal, 3 * (i + 1))
    {
      goals := CandidateRow(goal, i, goals);
      i := i + 1;
    }
  }

  /** `createPath`, with the source's candidate and nearest-goal loops. */
  method CreatePath(start: Point, goal: Point, mid: Point, dist: Metric) returns (splinePath: Path)
    requires InDrawRange(mid) && NearestGoal(goal, mid, dist).Some?
    ensures splinePath == InitialPath(start, goal, mid, dist)
  {
    var goals := CandidateGoals(goal);
    var nearestGoal: Option<Point> := None;
    var minDist := 100.0;
    var k := 0;
    while k < |goals|
      invariant 0 <= k <= |goals|
      invariant Choice(minDist, nearestGoal) == NearestScan(mid, goals, k, dist)
    {
      var d := dist(mid, goals[k]);
      if d < minDist {
        minDist := d;
        nearestGoal := Some(goals[k]);
      }
      k := k + 1;
    }

    var path := [start, mid, nearestGoal.value];
    splinePath := FergusonSpline(path, N_SPLINE);
  }

  /** `createInitialPop`: N_POP fresh individuals of one robot, individual i
      built from the i-th drawn mid point. */
  method CreateInitialPop(start: Point, goal: Point, robotID: int, mids: seq<Point>, dist: Metric)
    returns (pop: seq<Individual>)
    requires |mids| == N_POP
    requires forall k :: 0 <= k < N_POP ==> InDrawRange(mids[k]) && NearestGoal(goal, mids[k], dist).Some?
    ensures |pop| == N_POP
    ensures forall k :: 0 <= k < N_POP ==> pop[k] == Fresh(InitialPath(start, goal, mids[k], dist), 0, robotID)
  {
    pop := [];
    var i := 0;
    while i < N_POP
      invariant 0 <= i <= N_POP && |pop| == i
      invariant forall k :: 0 <= k < i ==> pop[k] == Fresh(InitialPath(start, goal, mids[k], dist), 0, robotID)
    {
      var path := CreatePath(start, goal, mids[i], dist);
      var ind := Individual(path, 0.0, 0.0, 0, 0.0, 0, robotID);
      pop := pop + [ind];
      i := i + 1;
    }
  }
}

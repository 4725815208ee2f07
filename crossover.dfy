/**
 * Single-point crossover (`oneptcx`) and the offspring `crossover` collects.
 *
 * `oneptcx` takes the waypoint of `ind1` at a random cut, looks through the
 * population for the nearest waypoint of another individual (one whose
 * `distance` differs from that of `ind1`) strictly closer than PI/10, and swaps
 * the tails of the two paths there. The search keeps the first minimum in
 * population-then-waypoint order.
 */
module Crossover {
  import opened Genotype

  /** Only waypoints strictly closer than this are crossover partners. */
  const CX_RADIUS: real := PI / 10.0

  /** The individuals the search looks at; the others are skipped. */
  predicate Eligible(ind1: Individual, pop: seq<Individual>, i: int) {
    0 <= i < |pop| && pop[i].distance != ind1.distance
  }

  /** The search reads the first N_PTS waypoints of every eligible individual. */
  predicate PathsLongEnough(ind1: Individual, pop: seq<Individual>) {
    forall i :: 0 <= i < |pop| && Eligible(ind1, pop, i) ==> |pop[i].path| >= N_PTS
  }

  /** Distance from the cut waypoint to waypoint j of individual i. */
  function Gap(pt1: Point, pop: seq<Individual>, i: nat, j: nat, dist: Metric): real
    requires i < |pop| && j < |pop[i].path|
  {
    dist(pt1, pop[i].path[j])
  }

  /** Cell (i, j) is visited before cell (rows, cols) in the search order. */
  predicate Before(i: int, j: int, rows: int, cols: int) {
    i < rows || (i == rows && j < cols)
  }

  /** The search state: `min_dist`, `ind2` (None while no partner is found),
      `cut_pt2`, and the position of `ind2` in the population. */
  datatype Nearest = Nearest(minDist: real, partner: Option<Individual>, index: nat, cut: nat)

  const START: Nearest := Nearest(CX_RADIUS, None, 0, 0)

  /** A found partner is an eligible individual of the population and the cut a
      waypoint the search reads. */
  predicate WellFormed(ind1: Individual, pop: seq<Individual>, a: Nearest) {
    a.partner.Some? ==>
      Eligible(ind1, pop, a.index) && a.partner.value == pop[a.index] && a.cut < N_PTS
  }

  /** The inner loop over the first `cols` waypoints of individual i. */
  function RowScan(pt1: Point, pop: seq<Individual>, i: nat, cols: nat, a: Nearest, dist: Metric): (b: Nearest)
    requires i < |pop| && cols <= N_PTS <= |pop[i].path|
    ensures b.partner.Some? && b != a ==> b.index == i && b.cut < cols && b.partner.value == pop[i]
  {
    if cols == 0 then a
    else
      var b := RowScan(pt1, pop, i, cols - 1, a, dist);
      var d := dist(pt1, pop[i].path[cols - 1]);
      if d < b.minDist then Nearest(d, Some(pop[i]), i, cols - 1) else b
  }

  /** The outer loop over the first `rows` individuals. */
  function PopScan(ind1: Individual, pt1: Point, pop: seq<Individual>, rows: nat, dist: Metric): (a: Nearest)
    requires rows <= |pop| && PathsLongEnough(ind1, pop)
    ensures WellFormed(ind1, pop, a) && (a.partner.Some? ==> a.index < rows)
  {
    if rows == 0 then START
    else
      var a := PopScan(ind1, pt1, pop, rows - 1, dist);
      if pop[rows - 1].distance == ind1.distance then a
      else RowScan(pt1, pop, rows - 1, N_PTS, a, dist)
  }

  /** What the search state means after it has visited every cell before
      (rows, cols): the minimum so far is at most CX_RADIUS and no larger than any
      visited gap; with no partner it is still CX_RADIUS; with a partner it is
      the partner's gap, strictly below CX_RADIUS, and every cell visited
      before the partner's is strictly farther. */
  predicate Summary(ind1: Individual, pt1: Point, pop: seq<Individual>, rows: int, cols: int, a: Nearest, dist: Metric)
    requires PathsLongEnough(ind1, pop)
  {
    a.minDist <= CX_RADIUS &&
    (forall i, j :: 0 <= i < |pop| && 0 <= j < N_PTS && Eligible(ind1, pop, i) && Before(i, j, rows, cols) ==>
       Gap(pt1, pop, i, j, dist) >= a.minDist) &&
    (a.partner.None? ==> a.minDist == CX_RADIUS) &&
    (a.partner.Some? ==>
       WellFormed(ind1, pop, a) && Before(a.index, a.cut, rows, cols) &&
       Gap(pt1, pop, a.index, a.cut, dist) == a.minDist < CX_RADIUS &&
       forall i, j :: 0 <= i < |pop| && 0 <= j < N_PTS && Eligible(ind1, pop, i) && Before(i, j, a.index, a.cut) ==>
         Gap(pt1, pop, i, j, dist) > a.minDist)
  }

  /** The result of the whole search is the first strictly-nearest waypoint
      within CX_RADIUS, or none when no eligible waypoint is that close. */
  predicate IsFirstNearest(ind1: Individual, pt1: Point, pop: seq<Individual>, a: Nearest, dist: Metric)
    requires PathsLongEnough(ind1, pop)
  {
    Summary(ind1, pt1, pop, |pop|, 0, a, dist)
  }

  lemma {:induction false} RowScanSummary(ind1: Individual, pt1: Point, pop: seq<Individual>, i: nat, cols: nat, a: Nearest, dist: Metric)
    requires PathsLongEnough(ind1, pop) && Eligible(ind1, pop, i) && cols <= N_PTS
    requires Summary(ind1, pt1, pop, i, 0, a, dist)
    ensures Summary(ind1, pt1, pop, i, cols, RowScan(pt1, pop, i, cols, a, dist), dist)
  {
    if cols > 0 {
      RowScanSummary(ind1, pt1, pop, i, cols - 1, a, dist);
      var b := RowScan(pt1, pop, i, cols - 1, a, dist);
      var d := dist(pt1, pop[i].path[cols - 1]);
      assert d == Gap(pt1, pop, i, cols - 1, dist);
      if d < b.minDist {
        var c := Nearest(d, Some(pop[i]), i, cols - 1);
        assert c == RowScan(pt1, pop, i, cols, a, dist);
        forall i', j | Eligible(ind1, pop, i') && 0 <= j < N_PTS && Before(i', j, i, cols)
          ensures Gap(pt1, pop, i', j, dist) >= c.minDist
        {
          if Before(i', j, i, cols - 1) {
            assert Gap(pt1, pop, i', j, dist) >= b.minDist;
          }
        }
      }
    }
  }

  lemma {:induction false} PopScanSummary(ind1: Individual, pt1: Point, pop: seq<Individual>, rows: nat, dist: Metric)
    requires PathsLongEnough(ind1, pop) && rows <= |pop|
    ensures Summary(ind1, pt1, pop, rows, 0, PopScan(ind1, pt1, pop, rows, dist), dist)
  {
    if rows > 0 {
      PopScanSummary(ind1, pt1, pop, rows - 1, dist);
      var a := PopScan(ind1, pt1, pop, rows - 1, dist);
      if pop[rows - 1].distance != ind1.distance {
        RowScanSummary(ind1, pt1, pop, rows - 1, N_PTS, a, dist);
        var b := RowScan(pt1, pop, rows - 1, N_PTS, a, dist);
        assert b == PopScan(ind1, pt1, pop, rows, dist);
        forall i, j | Eligible(ind1, pop, i) && 0 <= j < N_PTS && Before(i, j, rows, 0)
          ensures Gap(pt1, pop, i, j, dist) >= b.minDist
        {
          assert Before(i, j, rows - 1, N_PTS);
        }
      }
    }
  }

  /** Swapping tails at cut1 of `ind1` and cut2 of `ind2`: the first child
      starts like `ind1` and ends like `ind2`, the second the other way round,
      no waypoint is lost or invented, both children take the older parent's
      age and start with no evaluation. */
  function CrossChildren(ind1: Individual, ind2: Individual, cut1: nat, cut2: nat): (kids: seq<Individual>)
    requires cut1 <= |ind1.path| && cut2 <= |ind2.path|
    ensures |kids| == 2
    ensures |kids[0].path| == cut1 + |ind2.path| - cut2 && |kids[1].path| == cut2 + |ind1.path| - cut1
    ensures kids[0].path[..cut1] == ind1.path[..cut1] && kids[0].path[cut1..] == ind2.path[cut2..]
    ensures kids[1].path[..cut2] == ind2.path[..cut2] && kids[1].path[cut2..] == ind1.path[cut1..]
    ensures multiset(kids[0].path) + multiset(kids[1].path) == multiset(ind1.path) + multiset(ind2.path)
    ensures kids[0].age == kids[1].age == Max(ind1.age, ind2.age)
    ensures kids[0].robotID == ind1.robotID && kids[1].robotID == ind2.robotID
    ensures forall k :: 0 <= k < 2 ==>
      kids[k].fitness == 0.0 && kids[k].distance == 0.0 && kids[k].collision == 0 && kids[k].diversity == 0.0
  {
    var path1 := ind1.path;
    var path2 := ind2.path;
    assert path1 == path1[..cut1] + path1[cut1..];
    assert path2 == path2[..cut2] + path2[cut2..];
    var age := Max(ind1.age, ind2.age);
    [Fresh(path1[..cut1] + path2[cut2..], age, ind1.robotID),
     Fresh(path2[..cut2] + path1[cut1..], age, ind2.robotID)]
  }

  /** What `oneptcx(ind1, pop)` returns for the cut `cut1`. */
  function OnePointCrossover(ind1: Individual, pop: seq<Individual>, cut1: nat, dist: Metric): (kids: seq<Individual>)
    requires 1 <= cut1 <= N_PTS - 2 && cut1 < |ind1.path| && PathsLongEnough(ind1, pop)
    ensures |kids| == 0 || |kids| == 2
  {
    var a := PopScan(ind1, ind1.path[cut1], pop, |pop|, dist);
    match a.partner
    case None => []
    case Some(ind2) => CrossChildren(ind1, ind2, cut1, a.cut)
  }

  /** The search finds the first nearest waypoint within CX_RADIUS; there are
      children exactly when some eligible waypoint lies that close, and then the
      partner is the owner of that waypoint, whose distance differs from that
      of `ind1`. */
  lemma ChildrenIffPartnerClose(ind1: Individual, pop: seq<Individual>, cut1: nat, dist: Metric)
    requires 1 <= cut1 <= N_PTS - 2 && cut1 < |ind1.path| && PathsLongEnough(ind1, pop)
    ensures IsFirstNearest(ind1, ind1.path[cut1], pop, PopScan(ind1, ind1.path[cut1], pop, |pop|, dist), dist)
    ensures var pt1 := ind1.path[cut1];
      OnePointCrossover(ind1, pop, cut1, dist) != [] <==>
        exists i, j :: Eligible(ind1, pop, i) && 0 <= j < N_PTS && Gap(pt1, pop, i, j, dist) < CX_RADIUS
    ensures var a := PopScan(ind1, ind1.path[cut1], pop, |pop|, dist);
      OnePointCrossover(ind1, pop, cut1, dist) != [] ==>
        a.partner.Some? && pop[a.index].distance != ind1.distance &&
        OnePointCrossover(ind1, pop, cut1, dist) == CrossChildren(ind1, pop[a.index], cut1, a.cut)
  {
    var pt1 := ind1.path[cut1];
    var a := PopScan(ind1, pt1, pop, |pop|, dist);
    PopScanSummary(ind1, pt1, pop, |pop|, dist);
    if a.partner.Some? {
      assert Gap(pt1, pop, a.index, a.cut, dist) < CX_RADIUS;
    }
  }

  /** In a population whose paths all have N_PTS waypoints both children keep
      at least their two endpoints, so `adjust_num_pts` can resample them. */
  lemma ChildrenHaveTwoPoints(ind1: Individual, pop: seq<Individual>, cut1: nat, dist: Metric)
    requires 1 <= cut1 <= N_PTS - 2 && |ind1.path| == N_PTS
    requires forall i :: 0 <= i < |pop| ==> |pop[i].path| == N_PTS
    ensures PathsLongEnough(ind1, pop)
    ensures forall k :: 0 <= k < |OnePointCrossover(ind1, pop, cut1, dist)| ==>
      2 <= |OnePointCrossover(ind1, pop, cut1, dist)[k].path| <= 2 * N_PTS - 2
  {
  }

  /** `oneptcx`, with the source's nested search loop. */
  method OnePtCx(ind1: Individual, pop: seq<Individual>, cut1: nat, dist: Metric) returns (children: seq<Individual>)
    requires 1 <= cut1 <= N_PTS - 2 && cut1 < |ind1.path| && PathsLongEnough(ind1, pop)
    ensures children == OnePointCrossover(ind1, pop, cut1, dist)
  {
    var pt1 := ind1.path[cut1];
    var minDist := CX_RADIUS;
    var ind2: Option<Individual> := None;
    var cut2 := 0;
    ghost var index := 0;
    var num := |pop|;
    var i := 0;
    while i < num
      invariant 0 <= i <= num
      invariant Nearest(minDist, ind2, index, cut2) == PopScan(ind1, pt1, pop, i, dist)
    {
      if pop[i].distance == ind1.distance {
        i := i + 1;
        continue;
      }
      ghost var a := Nearest(minDist, ind2, index, cut2);
      var j := 0;
      while j < N_PTS
        invariant 0 <= j <= N_PTS
        invariant Nearest(minDist, ind2, index, cut2) == RowScan(pt1, pop, i, j, a, dist)
      {
        var pt2 := pop[i].path[j];
        var d := dist(pt1, pt2);
        if d < minDist {
          minDist := d;
          ind2 := Some(pop[i]);
          index := i;
          cut2 := j;
        }
        j := j + 1;
      }
      i := i + 1;
    }
    children := [];
    if ind2.Some? {
      var path1 := ind1.path;
      var path2 := ind2.value.path;
      var childPath1 := path1[..cut1] + path2[cut2..];
      var childPath2 := path2[..cut2] + path1[cut1..];
      var age := Max(ind1.age, ind2.value.age);
      var child1 := Individual(childPath1, 0.0, 0.0, 0, 0.0, age, ind1.robotID);
      var child2 := Individual(childPath2, 0.0, 0.0, 0, 0.0, age, ind2.value.robotID);
      children := [child1, child2];
    }
  }

  // ---------------------------------------------------------------------------
  // The offspring of `crossover`
  // ---------------------------------------------------------------------------

  /** A crossover operator maps one parent and the whole population to its
      children. */
  type CxOperator = (Individual, seq<Individual>) --> seq<Individual>

  ghost predicate Applicable(parents: seq<Individual>, pop: seq<Individual>, op: CxOperator) {
    forall i :: 0 <= i < |parents| ==> op.requires(parents[i], pop)
  }

  /** The children `crossover` collects from the first parents, in order. */
  function Offspring(parents: seq<Individual>, pop: seq<Individual>, op: CxOperator): (kids: seq<Individual>)
    requires Applicable(parents, pop, op)
    ensures parents == [] ==> kids == []
  {
    if parents == [] then []
    else
      var n := |parents| - 1;
      assert Applicable(parents[..n], pop, op);
      Offspring(parents[..n], pop, op) + op(parents[n], pop)
  }

  /** With an operator that, like `oneptcx`, yields no child or a pair, the
      offspring come in pairs and number at most twice the parents. */
  lemma {:induction false} OffspringInPairs(parents: seq<Individual>, pop: seq<Individual>, op: CxOperator)
    requires Applicable(parents, pop, op)
    requires forall i :: 0 <= i < |parents| ==> |op(parents[i], pop)| == 0 || |op(parents[i], pop)| == 2
    ensures |Offspring(parents, pop, op)| % 2 == 0
    ensures |Offspring(parents, pop, op)| <= 2 * |parents|
  {
    if parents != [] {
      var n := |parents| - 1;
      assert forall i :: 0 <= i < n ==> parents[..n][i] == parents[i];
      OffspringInPairs(parents[..n], pop, op);
    }
  }
}

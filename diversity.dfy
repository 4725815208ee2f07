/**
 * What `calcDiversity` computes: for every individual, the sum over all other
 * individuals of the waypoint-by-waypoint distances between the two paths
 * (first N_PTS waypoints), divided by the number of other individuals.
 */
module Diversity {
  import opened Genotype

  /** Every path has the N_PTS waypoints the comparison reads. */
  predicate LongPaths(pop: seq<Individual>) {
    forall i :: 0 <= i < |pop| ==> |pop[i].path| >= N_PTS
  }

  /** Sum of the distances between the first k waypoints of path a and of
      path b, each measured from a's waypoint to b's. */
  function PairGap(a: Path, b: Path, k: nat, dist: Metric): real
    requires k <= |a| && k <= |b|
  {
    if k == 0 then 0.0 else PairGap(a, b, k - 1, dist) + dist(a[k - 1], b[k - 1])
  }

  /** What the pair (m, j) adds to the diversity of m: the source visits each
      pair once with the lower index first and adds the same gap to both. */
  function Contribution(pop: seq<Individual>, m: nat, j: nat, dist: Metric): real
    requires m < |pop| && j < |pop| && LongPaths(pop)
  {
    if j == m then 0.0
    else if j < m then PairGap(pop[j].path, pop[m].path, N_PTS, dist)
    else PairGap(pop[m].path, pop[j].path, N_PTS, dist)
  }

  /** The contributions to m from the individuals before `upto`. */
  function Owed(pop: seq<Individual>, m: nat, upto: nat, dist: Metric): real
    requires m < |pop| && upto <= |pop| && LongPaths(pop)
  {
    if upto == 0 then 0.0 else Owed(pop, m, upto - 1, dist) + Contribution(pop, m, upto - 1, dist)
  }

  /** The diversity of individual m after `calcDiversity`. */
  function DiversityOf(pop: seq<Individual>, m: nat, dist: Metric): real
    requires |pop| >= 2 && m < |pop| && LongPaths(pop)
  {
    Owed(pop, m, |pop|, dist) / (|pop| - 1) as real
  }

  lemma {:induction false} PairGapNonNegative(a: Path, b: Path, k: nat, dist: Metric)
    requires k <= |a| && k <= |b| && IsDistance(dist)
    ensures PairGap(a, b, k, dist) >= 0.0
  {
    if k > 0 {
      PairGapNonNegative(a, b, k - 1, dist);
    }
  }

  lemma {:induction false} OwedNonNegative(pop: seq<Individual>, m: nat, upto: nat, dist: Metric)
    requires m < |pop| && upto <= |pop| && LongPaths(pop) && IsDistance(dist)
    ensures Owed(pop, m, upto, dist) >= 0.0
  {
    if upto > 0 {
      OwedNonNegative(pop, m, upto - 1, dist);
      var j := upto - 1;
      if j < m {
        PairGapNonNegative(pop[j].path, pop[m].path, N_PTS, dist);
      } else if j > m {
        PairGapNonNegative(pop[m].path, pop[j].path, N_PTS, dist);
      }
    }
  }

  /** Under a true distance no individual has negative diversity. */
  lemma DiversityNonNegative(pop: seq<Individual>, m: nat, dist: Metric)
    requires |pop| >= 2 && m < |pop| && LongPaths(pop) && IsDistance(dist)
    ensures DiversityOf(pop, m, dist) >= 0.0
  {
    OwedNonNegative(pop, m, |pop|, dist);
  }

  lemma {:induction false} PairGapOfClones(a: Path, b: Path, k: nat, dist: Metric)
    requires k <= |a| && k <= |b| && IsDistance(dist)
    requires a[..k] == b[..k]
    ensures PairGap(a, b, k, dist) == 0.0
  {
    if k > 0 {
      assert a[..k - 1] == a[..k][..k - 1];
      assert b[..k - 1] == b[..k][..k - 1];
      assert a[k - 1] == a[..k][k - 1];
      PairGapOfClones(a, b, k - 1, dist);
    }
  }

  lemma {:induction false} OwedOfClones(pop: seq<Individual>, m: nat, upto: nat, dist: Metric)
    requires m < |pop| && upto <= |pop| && LongPaths(pop) && IsDistance(dist)
    requires forall i :: 0 <= i < |pop| ==> pop[i].path[..N_PTS] == pop[0].path[..N_PTS]
    ensures Owed(pop, m, upto, dist) == 0.0
  {
    if upto > 0 {
      OwedOfClones(pop, m, upto - 1, dist);
      var j := upto - 1;
      PairGapOfClones(pop[j].path, pop[m].path, N_PTS, dist);
      PairGapOfClones(pop[m].path, pop[j].path, N_PTS, dist);
    }
  }

  /** A population whose paths agree on their first N_PTS waypoints has no
      diversity at all. */
  lemma ClonesHaveNoDiversity(pop: seq<Individual>, m: nat, dist: Metric)
    requires |pop| >= 2 && m < |pop| && LongPaths(pop) && IsDistance(dist)
    requires forall i :: 0 <= i < |pop| ==> pop[i].path[..N_PTS] == pop[0].path[..N_PTS]
    ensures DiversityOf(pop, m, dist) == 0.0
  {
    OwedOfClones(pop, m, |pop|, dist);
  }

  /** With two individuals each one's diversity is the gap between their paths. */
  lemma TwoIndividualsShareTheirGap(pop: seq<Individual>, dist: Metric)
    requires |pop| == 2 && LongPaths(pop)
    ensures DiversityOf(pop, 0, dist) == DiversityOf(pop, 1, dist) == PairGap(pop[0].path, pop[1].path, N_PTS, dist)
  {
    assert Owed(pop, 0, 1, dist) == 0.0 by {
      assert Owed(pop, 0, 0, dist) == 0.0 && Contribution(pop, 0, 0, dist) == 0.0;
    }
    assert Owed(pop, 1, 1, dist) == PairGap(pop[0].path, pop[1].path, N_PTS, dist) by {
      assert Owed(pop, 1, 0, dist) == 0.0;
    }
    assert Contribution(pop, 1, 1, dist) == 0.0;
  }
}

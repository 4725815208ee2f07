/**
 * `adjust_num_pts` for one path: a path shorter than N_PTS is first resampled
 * with a Ferguson spline dense enough to exceed N_PTS points, then random
 * interior waypoints are erased until exactly N_PTS remain. The erase indices
 * are inputs, each in the range `get_rand_range_int(1, size - 2)` draws from.
 */
module Adjust {
  import opened Genotype
  import opened Splines

  /** The samples per segment used to resample a path of n < N_PTS points. */
  function ResampleFactor(n: nat): nat
    requires n >= 2
  {
    (N_PTS - 1) / (n - 1) + 1
  }

  lemma ResampleExceeds(n: nat)
    requires 2 <= n < N_PTS
    ensures (n - 1) * ResampleFactor(n) + 1 > N_PTS
  {
    assert n == 2 || n == 3 || n == 4 || n == 5 || n == 6;
  }

  /** The path after the resampling step: longer than N_PTS when it was
      shorter, unchanged otherwise, with the same endpoints. */
  function Resampled(path: Path): (r: Path)
    requires |path| >= 2
    ensures |path| < N_PTS ==> |r| > N_PTS
    ensures |path| >= N_PTS ==> r == path
    ensures |r| >= 2 && r[0] == path[0] && r[|r| - 1] == path[|path| - 1]
  {
    if |path| < N_PTS then
      var k := ResampleFactor(|path|);
      ResampleExceeds(|path|);
      CurveStartsAtFirst(path, k);
      Curve(path, k)
    else path
  }

  /** `path.erase(path.begin() + r)` for an interior index r. */
  function EraseAt(path: Path, r: nat): (q: Path)
    requires 1 <= r <= |path| - 2
    ensures |q| == |path| - 1 && q[0] == path[0] && q[|q| - 1] == path[|path| - 1]
    ensures multiset(q) + multiset{path[r]} == multiset(path)
  {
    assert path == path[..r] + [path[r]] + path[r + 1..];
    path[..r] + path[r + 1..]
  }

  /** Every erase index is interior to the path it is applied to. */
  predicate EraseDrawsFit(len: int, draws: seq<int>) {
    forall t :: 0 <= t < |draws| ==> 1 <= draws[t] <= len - t - 2
  }

  /** The draws of the erase loop for a path of n points after resampling. */
  predicate ValidEraseDraws(n: int, draws: seq<int>) {
    |draws| == (if n > N_PTS then n - N_PTS else 0) && EraseDrawsFit(n, draws)
  }

  /** The path after erasing at each draw in turn. Erasing only removes
      interior waypoints: the endpoints stay and nothing new appears. */
  function EraseAll(path: Path, draws: seq<int>): (q: Path)
    requires |path| >= 2 && EraseDrawsFit(|path|, draws)
    ensures |q| == |path| - |draws| && |q| >= 2
    ensures q[0] == path[0] && q[|q| - 1] == path[|path| - 1]
    ensures multiset(q) <= multiset(path)
    decreases |draws|
  {
    if draws == [] then path
    else
      var n := |draws| - 1;
      assert EraseDrawsFit(|path|, draws[..n]) by {
        forall t | 0 <= t < n ensures 1 <= draws[..n][t] <= |path| - t - 2 {
          assert draws[..n][t] == draws[t];
        }
      }
      EraseAt(EraseAll(path, draws[..n]), draws[n])
  }

  /** The path `adjust_num_pts` leaves in an individual. */
  function AdjustedPath(path: Path, draws: seq<int>): (r: Path)
    requires |path| >= 2 && ValidEraseDraws(|Resampled(path)|, draws)
    ensures |r| == N_PTS
    ensures r[0] == path[0] && r[|r| - 1] == path[|path| - 1]
    ensures |path| == N_PTS ==> r == path
    ensures |path| >= N_PTS ==> multiset(r) <= multiset(path)
  {
    EraseAll(Resampled(path), draws)
  }

  /** The erase loop of `adjust_num_pts`. */
  method EraseDown(path: Path, draws: seq<int>) returns (r: Path)
    requires |path| >= 2 && ValidEraseDraws(|path|, draws)
    ensures r == EraseAll(path, draws)
  {
    r := path;
    var num := |r|;
    var t := 0;
    while num > N_PTS
      invariant 0 <= t <= |draws| && num == |r|
      invariant r == EraseAll(path, draws[..t])
      decreases num
    {
      assert draws[..t + 1][..t] == draws[..t];
      var randIndex := draws[t];
      r := r[..randIndex] + r[randIndex + 1..];
      num := |r|;
      t := t + 1;
    }
    assert draws[..t] == draws;
  }

  /** The body of the loop of `adjust_num_pts` for one individual's path. */
  method AdjustPath(path: Path, draws: seq<int>) returns (r: Path)
    requires |path| >= 2 && ValidEraseDraws(|Resampled(path)|, draws)
    ensures r == AdjustedPath(path, draws)
  {
    r := path;
    var num := |r|;
    if num < N_PTS {
      var k := ((N_PTS - 1) / (num - 1)) + 1;
      r := FergusonSpline(r, k);
    }
    r := EraseDown(r, draws);
  }
}

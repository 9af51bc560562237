/** ByteTracker._match: the IoU cost matrix between tracks and detections, the
    optimal-assignment solver (an oracle here), and the thresholding of its
    pairs into matches and unmatched index lists. */
module Association {
  import opened Geometry
  import opened Lists

  /** One detector output row [x1, y1, x2, y2, conf]. */
  datatype Detection = Detection(box: Box, conf: real)

  /** A (track row, detection column) pair of the assignment. */
  type Pair = (int, int)

  /** The result of _match: kept pairs, then the unmatched track and detection indices. */
  datatype Matching = Matching(matches: seq<Pair>, unmatchedTracks: seq<int>, unmatchedDets: seq<int>)

  /** The solver: linear_sum_assignment applied to a cost matrix. */
  type Solver = seq<seq<real>> -> seq<Pair>

  /** cost[i][j] = 1 - IoU(track box i, detection box j). */
  function CostMatrix(boxes: seq<Box>, dets: seq<Detection>): (c: seq<seq<real>>)
    ensures |c| == |boxes|
    ensures forall i :: 0 <= i < |c| ==> |c[i]| == |dets|
  {
    seq(|boxes|, i requires 0 <= i < |boxes| =>
      seq(|dets|, j requires 0 <= j < |dets| => 1.0 - Iou(boxes[i], dets[j].box)))
  }

  /** A non-empty rectangular matrix, as handed to the solver. */
  predicate IsMatrix(c: seq<seq<real>>) {
    |c| > 0 && |c[0]| > 0 && forall i :: 0 <= i < |c| ==> |c[i]| == |c[0]|
  }

  /** What linear_sum_assignment returns for an n x m matrix: min(n, m) pairs, in range,
      rows strictly ascending and columns pairwise distinct. */
  predicate IsAssignment(ps: seq<Pair>, n: nat, m: nat) {
    |ps| == (if n <= m then n else m) && PairsInRange(ps, n, m) && Injective(ps)
  }

  /** The solver keeps the assignment contract on every non-empty matrix. */
  ghost predicate SolverSound(solver: Solver) {
    forall c :: IsMatrix(c) ==> IsAssignment(solver(c), |c|, |c[0]|)
  }

  /** What _match needs of the solver on this call. */
  predicate Admissible(boxes: seq<Box>, dets: seq<Detection>, solver: Solver) {
    |boxes| == 0 || |dets| == 0 || IsAssignment(solver(CostMatrix(boxes, dets)), |boxes|, |dets|)
  }

  lemma SolverSoundAdmissible(boxes: seq<Box>, dets: seq<Detection>, solver: Solver)
    requires SolverSound(solver)
    ensures Admissible(boxes, dets, solver)
  {
    if |boxes| > 0 && |dets| > 0 {
      var c := CostMatrix(boxes, dets);
      assert IsMatrix(c);
    }
  }

  predicate PairsInRange(ps: seq<Pair>, n: nat, m: nat) {
    forall k :: 0 <= k < |ps| ==> 0 <= ps[k].0 < n && 0 <= ps[k].1 < m
  }

  function Rows(ps: seq<Pair>): set<int> {
    set k | 0 <= k < |ps| :: ps[k].0
  }

  function Cols(ps: seq<Pair>): set<int> {
    set k | 0 <= k < |ps| :: ps[k].1
  }

  /** A pair is kept when its cost is below 1 - match_thresh. */
  predicate Accepted(cost: seq<seq<real>>, p: Pair, matchThresh: real)
    requires 0 <= p.0 < |cost| && 0 <= p.1 < |cost[p.0]|
  {
    cost[p.0][p.1] < 1.0 - matchThresh
  }

  /** The solver's pairs that pass the threshold, in the solver's order. */
  function Kept(ps: seq<Pair>, cost: seq<seq<real>>, matchThresh: real): (r: seq<Pair>)
    requires forall k :: 0 <= k < |ps| ==> 0 <= ps[k].0 < |cost| && 0 <= ps[k].1 < |cost[ps[k].0]|
    ensures forall p :: p in r <==> p in ps && Accepted(cost, p, matchThresh)
    ensures |r| <= |ps|
  {
    if ps == [] then []
    else
      var front := Kept(ps[..|ps| - 1], cost, matchThresh);
      var last := ps[|ps| - 1];
      assert forall p :: p in ps <==> p in ps[..|ps| - 1] || p == last;
      front + (if Accepted(cost, last, matchThresh) then [last] else [])
  }

  /** The value _match returns. */
  function MatchSpec(boxes: seq<Box>, dets: seq<Detection>, matchThresh: real, solver: Solver): (r: Matching)
    requires Admissible(boxes, dets, solver)
    ensures PairsInRange(r.matches, |boxes|, |dets|)
    ensures StrictlyIncreasing(r.unmatchedTracks) && StrictlyIncreasing(r.unmatchedDets)
    ensures forall i :: 0 <= i < |r.unmatchedTracks| ==> 0 <= r.unmatchedTracks[i] < |boxes|
    ensures forall j :: 0 <= j < |r.unmatchedDets| ==> 0 <= r.unmatchedDets[j] < |dets|
  {
    if |boxes| == 0 || |dets| == 0 then
      RangeIsExcludingNothing(|boxes|);
      RangeIsExcludingNothing(|dets|);
      Matching([], Range(|boxes|), Range(|dets|))
    else
      var cost := CostMatrix(boxes, dets);
      var kept := Kept(solver(cost), cost, matchThresh);
      assert forall k :: 0 <= k < |kept| ==> kept[k] in solver(cost);
      Matching(kept, Excluding(|boxes|, Rows(kept)), Excluding(|dets|, Cols(kept)))
  }

  // ---------------------------------------------------------------------------
  // Properties of _match

  /** Rows strictly ascending and columns pairwise distinct. */
  predicate Injective(ps: seq<Pair>) {
    forall k, l :: 0 <= k < l < |ps| ==> ps[k].0 < ps[l].0 && ps[k].1 != ps[l].1
  }

  lemma RowsColsSnoc(ps: seq<Pair>, p: Pair)
    ensures Rows(ps + [p]) == Rows(ps) + {p.0}
    ensures Cols(ps + [p]) == Cols(ps) + {p.1}
  {
    var q := ps + [p];
    assert q[|ps|] == p;
    forall k | 0 <= k < |ps|
      ensures q[k] == ps[k]
    {
    }
  }

  /** Thresholding one more solver pair: it is appended when accepted, and its row and column
      are not yet used by the pairs kept so far. */
  lemma KeptStep(ps: seq<Pair>, cost: seq<seq<real>>, matchThresh: real, n: nat, m: nat, k: nat)
    requires PairsInRange(ps, n, m) && |cost| == n && forall i :: 0 <= i < n ==> |cost[i]| == m
    requires Injective(ps) && k < |ps|
    ensures Kept(ps[..k + 1], cost, matchThresh)
      == Kept(ps[..k], cost, matchThresh) + (if Accepted(cost, ps[k], matchThresh) then [ps[k]] else [])
    ensures ps[k].0 !in Rows(Kept(ps[..k], cost, matchThresh))
    ensures ps[k].1 !in Cols(Kept(ps[..k], cost, matchThresh))
  {
    assert ps[..k + 1][..k] == ps[..k];
    var kept := Kept(ps[..k], cost, matchThresh);
    forall a | 0 <= a < |kept|
      ensures kept[a].0 != ps[k].0 && kept[a].1 != ps[k].1
    {
      assert kept[a] in ps[..k];
      var b :| 0 <= b < k && ps[b] == kept[a];
    }
  }

  /** A subsequence of an assignment keeps its rows ascending and its columns distinct. */
  lemma {:induction false} KeptInjective(ps: seq<Pair>, cost: seq<seq<real>>, matchThresh: real, n: nat, m: nat)
    requires PairsInRange(ps, n, m) && |cost| == n && forall i :: 0 <= i < n ==> |cost[i]| == m
    requires Injective(ps)
    ensures Injective(Kept(ps, cost, matchThresh))
  {
    if ps != [] {
      var init, last := ps[..|ps| - 1], ps[|ps| - 1];
      KeptInjective(init, cost, matchThresh, n, m);
      var front := Kept(init, cost, matchThresh);
      var r := Kept(ps, cost, matchThresh);
      assert r == front + (if Accepted(cost, last, matchThresh) then [last] else []);
      forall k | 0 <= k < |front|
        ensures front[k].0 < last.0 && front[k].1 != last.1
      {
        assert front[k] in init;
        var a :| 0 <= a < |init| && init[a] == front[k];
        assert ps[a] == front[k];
      }
      forall k, l | 0 <= k < l < |r|
        ensures r[k].0 < r[l].0 && r[k].1 != r[l].1
      {
        if l < |front| {
          assert r[k] == front[k] && r[l] == front[l];
        } else {
          assert r[k] == front[k] && r[l] == last;
        }
      }
    }
  }

  /** _match with no tracks or no detections: nothing matched, every index unmatched, in order. */
  lemma MatchDegenerate(boxes: seq<Box>, dets: seq<Detection>, matchThresh: real, solver: Solver)
    requires |boxes| == 0 || |dets| == 0
    ensures MatchSpec(boxes, dets, matchThresh, solver) == Matching([], Range(|boxes|), Range(|dets|))
  {
  }

  /** Each track and each detection is used by at most one kept pair; rows come out ascending. */
  lemma MatchInjective(boxes: seq<Box>, dets: seq<Detection>, matchThresh: real, solver: Solver)
    requires Admissible(boxes, dets, solver)
    ensures Injective(MatchSpec(boxes, dets, matchThresh, solver).matches)
  {
    if |boxes| > 0 && |dets| > 0 {
      var cost := CostMatrix(boxes, dets);
      KeptInjective(solver(cost), cost, matchThresh, |boxes|, |dets|);
    }
  }

  /** Every kept pair has IoU strictly above match_thresh. */
  lemma MatchAboveThreshold(boxes: seq<Box>, dets: seq<Detection>, matchThresh: real, solver: Solver)
    requires Admissible(boxes, dets, solver)
    ensures var r := MatchSpec(boxes, dets, matchThresh, solver);
      forall k :: 0 <= k < |r.matches| ==> Iou(boxes[r.matches[k].0], dets[r.matches[k].1].box) > matchThresh
  {
    var r := MatchSpec(boxes, dets, matchThresh, solver);
    if |boxes| > 0 && |dets| > 0 {
      var cost := CostMatrix(boxes, dets);
      forall k | 0 <= k < |r.matches|
        ensures Iou(boxes[r.matches[k].0], dets[r.matches[k].1].box) > matchThresh
      {
        assert r.matches[k] in r.matches;
        assert Accepted(cost, r.matches[k], matchThresh);
      }
    }
  }

  /** Matched and unmatched indices partition 0..N-1 and 0..M-1. */
  lemma MatchPartition(boxes: seq<Box>, dets: seq<Detection>, matchThresh: real, solver: Solver)
    requires Admissible(boxes, dets, solver)
    ensures var r := MatchSpec(boxes, dets, matchThresh, solver);
      && (forall i :: i in r.unmatchedTracks <==> 0 <= i < |boxes| && i !in Rows(r.matches))
      && (forall j :: j in r.unmatchedDets <==> 0 <= j < |dets| && j !in Cols(r.matches))
  {
    RangeIsExcludingNothing(|boxes|);
    RangeIsExcludingNothing(|dets|);
  }

  /** The shape every result of _match has: pairs and unmatched indices in range, one pair per
      track and per detection, and the unmatched lists holding exactly the indices no pair uses. */
  ghost predicate WellShaped(r: Matching, n: nat, m: nat) {
    && PairsInRange(r.matches, n, m)
    && Injective(r.matches)
    && (forall i :: 0 <= i < |r.unmatchedTracks| ==> 0 <= r.unmatchedTracks[i] < n)
    && (forall j :: 0 <= j < |r.unmatchedDets| ==> 0 <= r.unmatchedDets[j] < m)
    && (forall i :: i in r.unmatchedTracks <==> 0 <= i < n && i !in Rows(r.matches))
    && (forall j :: j in r.unmatchedDets <==> 0 <= j < m && j !in Cols(r.matches))
  }

  /** Every result of _match is well shaped. */
  lemma MatchShape(boxes: seq<Box>, dets: seq<Detection>, matchThresh: real, solver: Solver)
    requires Admissible(boxes, dets, solver)
    ensures WellShaped(MatchSpec(boxes, dets, matchThresh, solver), |boxes|, |dets|)
  {
    MatchInjective(boxes, dets, matchThresh, solver);
    MatchPartition(boxes, dets, matchThresh, solver);
  }

  // ---------------------------------------------------------------------------
  // The method

  /** The nested loops of _match that fill the cost matrix. */
  method BuildCost(boxes: seq<Box>, dets: seq<Detection>) returns (cost: seq<seq<real>>)
    ensures cost == CostMatrix(boxes, dets)
  {
    cost := [];
    var i := 0;
    while i < |boxes|
      invariant 0 <= i <= |boxes| && |cost| == i
      invariant forall a :: 0 <= a < i ==> cost[a] == CostMatrix(boxes, dets)[a]
    {
      var row: seq<real> := [];
      var j := 0;
      while j < |dets|
        invariant 0 <= j <= |dets| && |row| == j
        invariant forall b :: 0 <= b < j ==> row[b] == 1.0 - Iou(boxes[i], dets[b].box)
      {
        row := row + [1.0 - Iou(boxes[i], dets[j].box)];
        j := j + 1;
      }
      assert row == CostMatrix(boxes, dets)[i];
      cost := cost + [row];
      i := i + 1;
    }
  }

  /** _match as the source runs it: the cost matrix is filled, the solver is called once, and
      each accepted pair is appended and removed from the unmatched lists. */
  method Match(boxes: seq<Box>, dets: seq<Detection>, matchThresh: real, solver: Solver) returns (m: Matching)
    requires Admissible(boxes, dets, solver)
    ensures m == MatchSpec(boxes, dets, matchThresh, solver)
  {
    if |boxes| == 0 || |dets| == 0 {
      return Matching([], Range(|boxes|), Range(|dets|));
    }
    var cost := BuildCost(boxes, dets);
    var pairs := solver(cost);
    var matches: seq<Pair> := [];
    var unmatchedTracks := Range(|boxes|);
    var unmatchedDets := Range(|dets|);
    RangeIsExcludingNothing(|boxes|);
    RangeIsExcludingNothing(|dets|);
    assert Rows(matches) == {} && Cols(matches) == {};
    var k := 0;
    while k < |pairs|
      invariant 0 <= k <= |pairs|
      invariant matches == Kept(pairs[..k], cost, matchThresh)
      invariant unmatchedTracks == Excluding(|boxes|, Rows(matches))
      invariant unmatchedDets == Excluding(|dets|, Cols(matches))
    {
      var p := pairs[k];
      KeptStep(pairs, cost, matchThresh, |boxes|, |dets|, k);
      if cost[p.0][p.1] < 1.0 - matchThresh {
        ExcludingRemove(|boxes|, Rows(matches), p.0);
        ExcludingRemove(|dets|, Cols(matches), p.1);
        RowsColsSnoc(matches, p);
        matches := matches + [p];
        unmatchedTracks := RemoveFirst(unmatchedTracks, p.0);
        unmatchedDets := RemoveFirst(unmatchedDets, p.1);
      }
      k := k + 1;
    }
    assert pairs[..k] == pairs;
    m := Matching(matches, unmatchedTracks, unmatchedDets);
  }
}

/** The per-frame behaviour of ByteTracker.update stated on values: the split of the
    detections by confidence, the two association stages, the lost-frame bookkeeping,
    births with consecutive ids, eviction and the emitted rows. The Kalman prediction is
    a function argument and the assignment solver an oracle. */
module Lifecycle {
  import opened Geometry
  import opened Lists
  import opened Association

  /** The fields of a Track (the Kalman filter state is not modelled). */
  datatype TrackRecord = TrackRecord(id: int, box: Box, conf: real, age: nat, lostFrames: nat)

  /** track_thresh, track_buffer, match_thresh and low_thresh of the tracker configuration. */
  datatype TrackerConfig = TrackerConfig(trackThresh: real, trackBuffer: int, matchThresh: real, lowThresh: real)

  // ---------------------------------------------------------------------------
  // Confidence bands

  /** high_dets: the detections with conf >= track_thresh, in order. */
  function HighDets(dets: seq<Detection>, trackThresh: real): (r: seq<Detection>)
    ensures forall d :: d in r <==> d in dets && d.conf >= trackThresh
  {
    if dets == [] then []
    else
      var init, last := dets[..|dets| - 1], dets[|dets| - 1];
      assert forall d :: d in dets <==> d in init || d == last;
      HighDets(init, trackThresh) + (if last.conf >= trackThresh then [last] else [])
  }

  /** low_dets: the detections with low_thresh <= conf < track_thresh, in order. */
  function LowDets(dets: seq<Detection>, lowThresh: real, trackThresh: real): (r: seq<Detection>)
    ensures forall d :: d in r <==> d in dets && lowThresh <= d.conf < trackThresh
  {
    if dets == [] then []
    else
      var init, last := dets[..|dets| - 1], dets[|dets| - 1];
      assert forall d :: d in dets <==> d in init || d == last;
      LowDets(init, lowThresh, trackThresh) + (if lowThresh <= last.conf < trackThresh then [last] else [])
  }

  /** The two bands are disjoint sub-lists of the detections: together they hold each detection
      at most as often as the input does, and with low_thresh <= track_thresh a detection below
      low_thresh is in neither. */
  lemma {:induction false} DetectionBands(dets: seq<Detection>, lowThresh: real, trackThresh: real)
    ensures multiset(HighDets(dets, trackThresh)) + multiset(LowDets(dets, lowThresh, trackThresh)) <= multiset(dets)
    ensures forall d :: d in HighDets(dets, trackThresh) ==> d !in LowDets(dets, lowThresh, trackThresh)
    ensures lowThresh <= trackThresh ==>
      forall d :: d in dets && d.conf < lowThresh ==>
        d !in HighDets(dets, trackThresh) && d !in LowDets(dets, lowThresh, trackThresh)
  {
    if dets != [] {
      var init, last := dets[..|dets| - 1], dets[|dets| - 1];
      DetectionBands(init, lowThresh, trackThresh);
      assert dets == init + [last];
      assert multiset(dets) == multiset(init) + multiset{last};
    }
  }

  // ---------------------------------------------------------------------------
  // Track updates

  /** Track.update with a detection's box and confidence. */
  function Updated(t: TrackRecord, d: Detection): TrackRecord {
    t.(box := d.box, conf := d.conf, age := t.age + 1, lostFrames := 0)
  }

  /** Track.mark_lost. */
  function Lost(t: TrackRecord): TrackRecord {
    t.(lostFrames := t.lostFrames + 1)
  }

  /** The prediction step over all tracks. */
  function Predicted(ts: seq<TrackRecord>, predict: Box -> Box): (r: seq<TrackRecord>)
    ensures |r| == |ts|
    ensures forall i :: 0 <= i < |ts| ==> r[i] == ts[i].(box := predict(ts[i].box))
  {
    seq(|ts|, i requires 0 <= i < |ts| => ts[i].(box := predict(ts[i].box)))
  }

  function Boxes(ts: seq<TrackRecord>): (r: seq<Box>)
    ensures |r| == |ts| && forall i :: 0 <= i < |ts| ==> r[i] == ts[i].box
  {
    seq(|ts|, i requires 0 <= i < |ts| => ts[i].box)
  }

  /** [tracks[i] for i in idx]. */
  function Select(ts: seq<TrackRecord>, idx: seq<int>): (r: seq<TrackRecord>)
    requires forall k :: 0 <= k < |idx| ==> 0 <= idx[k] < |ts|
    ensures |r| == |idx| && forall k :: 0 <= k < |idx| ==> r[k] == ts[idx[k]]
  {
    seq(|idx|, k requires 0 <= k < |idx| => ts[idx[k]])
  }

  /** A (track index, detection) update of one association stage. */
  type Assignment = (int, Detection)

  predicate TargetsIn(ups: seq<Assignment>, n: int) {
    forall k :: 0 <= k < |ups| ==> 0 <= ups[k].0 < n
  }

  predicate DistinctTargets(ups: seq<Assignment>) {
    forall k, l :: 0 <= k < l < |ups| ==> ups[k].0 != ups[l].0
  }

  function Targets(ups: seq<Assignment>): set<int> {
    set k | 0 <= k < |ups| :: ups[k].0
  }

  /** The loop `self.tracks[track_idx].update(det)` over the updates, in order. */
  function ApplyUpdates(ts: seq<TrackRecord>, ups: seq<Assignment>): (r: seq<TrackRecord>)
    requires TargetsIn(ups, |ts|)
    ensures |r| == |ts|
  {
    if ups == [] then ts
    else
      var s := ApplyUpdates(ts, ups[..|ups| - 1]);
      var u := ups[|ups| - 1];
      s[u.0 := Updated(s[u.0], u.1)]
  }

  /** The loop `self.tracks[track_idx].mark_lost()` over the indices, in order. */
  function MarkLostAll(ts: seq<TrackRecord>, idx: seq<int>): (r: seq<TrackRecord>)
    requires forall k :: 0 <= k < |idx| ==> 0 <= idx[k] < |ts|
    ensures |r| == |ts|
  {
    if idx == [] then ts
    else
      var s := MarkLostAll(ts, idx[..|idx| - 1]);
      var i := idx[|idx| - 1];
      s[i := Lost(s[i])]
  }

  /** With pairwise distinct targets, every target gets exactly its own update and every
      other track is left as it was. */
  lemma {:induction false} ApplyUpdatesAt(ts: seq<TrackRecord>, ups: seq<Assignment>)
    requires TargetsIn(ups, |ts|) && DistinctTargets(ups)
    ensures forall k :: 0 <= k < |ups| ==> ApplyUpdates(ts, ups)[ups[k].0] == Updated(ts[ups[k].0], ups[k].1)
    ensures forall i :: 0 <= i < |ts| && i !in Targets(ups) ==> ApplyUpdates(ts, ups)[i] == ts[i]
  {
    if ups != [] {
      var init, u := ups[..|ups| - 1], ups[|ups| - 1];
      ApplyUpdatesAt(ts, init);
      forall k | 0 <= k < |init|
        ensures init[k].0 != u.0
      {
        assert init[k] == ups[k];
      }
      forall i | 0 <= i < |ts| && i !in Targets(ups)
        ensures i !in Targets(init) && i != u.0
      {
        forall k | 0 <= k < |init|
          ensures init[k].0 != i
        {
          assert init[k] == ups[k];
        }
        assert ups[|ups| - 1].0 == u.0;
      }
      forall k | 0 <= k < |ups|
        ensures ApplyUpdates(ts, ups)[ups[k].0] == Updated(ts[ups[k].0], ups[k].1)
      {
        if k < |init| {
          assert ups[k] == init[k];
        } else {
          assert ups[k] == u;
          assert u.0 !in Targets(init);
        }
      }
    }
  }

  /** With pairwise distinct indices, every listed track is marked lost once and every other
      track is left as it was. */
  lemma {:induction false} MarkLostAt(ts: seq<TrackRecord>, idx: seq<int>)
    requires forall k :: 0 <= k < |idx| ==> 0 <= idx[k] < |ts|
    requires forall k, l :: 0 <= k < l < |idx| ==> idx[k] != idx[l]
    ensures forall k :: 0 <= k < |idx| ==> MarkLostAll(ts, idx)[idx[k]] == Lost(ts[idx[k]])
    ensures forall i :: 0 <= i < |ts| && i !in idx ==> MarkLostAll(ts, idx)[i] == ts[i]
  {
    if idx != [] {
      var init, x := idx[..|idx| - 1], idx[|idx| - 1];
      MarkLostAt(ts, init);
      var s := MarkLostAll(ts, init);
      var r := MarkLostAll(ts, idx);
      assert r == s[x := Lost(s[x])];
      forall k | 0 <= k < |init|
        ensures init[k] != x
      {
        assert init[k] == idx[k];
      }
      assert x !in init;
      assert s[x] == ts[x];
      forall k | 0 <= k < |idx|
        ensures r[idx[k]] == Lost(ts[idx[k]])
      {
        if k < |init| {
          assert idx[k] == init[k] && init[k] != x;
        }
      }
      forall i | 0 <= i < |ts| && i !in idx
        ensures r[i] == ts[i]
      {
        assert i !in init && i != x;
      }
    }
  }

  // ---------------------------------------------------------------------------
  // The association stages

  /** Stage-1 updates: matched track index with its high-confidence detection. */
  function StageOne(ms: seq<Pair>, high: seq<Detection>): (r: seq<Assignment>)
    requires forall k :: 0 <= k < |ms| ==> 0 <= ms[k].1 < |high|
    ensures |r| == |ms| && forall k :: 0 <= k < |ms| ==> r[k] == (ms[k].0, high[ms[k].1])
  {
    seq(|ms|, k requires 0 <= k < |ms| => (ms[k].0, high[ms[k].1]))
  }

  /** Stage-2 updates as intended: local row r of the second matching denotes the track
      unmatched[r] of the list the remaining tracks were built from. */
  function StageTwo(u: seq<int>, ms: seq<Pair>, low: seq<Detection>): (r: seq<Assignment>)
    requires PairsInRange(ms, |u|, |low|)
    ensures |r| == |ms| && forall k :: 0 <= k < |ms| ==> r[k] == (u[ms[k].0], low[ms[k].1])
  {
    seq(|ms|, k requires 0 <= k < |ms| => (u[ms[k].0], low[ms[k].1]))
  }

  /** The tracks matched in stage 2, as intended. */
  function Attributed(u: seq<int>, ms: seq<Pair>): set<int>
    requires forall k :: 0 <= k < |ms| ==> 0 <= ms[k].0 < |u|
  {
    set k | 0 <= k < |ms| :: u[ms[k].0]
  }

  /** The tracks still unmatched after stage 2, as intended. */
  function StageTwoRest(u: seq<int>, ms: seq<Pair>): seq<int>
    requires forall k :: 0 <= k < |ms| ==> 0 <= ms[k].0 < |u|
  {
    Without(u, Attributed(u, ms))
  }

  /** One more stage-2 pair attributes one more track, not attributed before (rows ascend). */
  lemma AttributedSnoc(u: seq<int>, ms: seq<Pair>, k: nat)
    requires StrictlyIncreasing(u) && Injective(ms) && k < |ms|
    requires forall j :: 0 <= j < |ms| ==> 0 <= ms[j].0 < |u|
    ensures Attributed(u, ms[..k + 1]) == Attributed(u, ms[..k]) + {u[ms[k].0]}
    ensures u[ms[k].0] !in Attributed(u, ms[..k])
  {
    var a, b := ms[..k], ms[..k + 1];
    assert b[k] == ms[k];
    forall x | x in Attributed(u, b)
      ensures x in Attributed(u, a) + {u[ms[k].0]}
    {
      var j :| 0 <= j < k + 1 && u[b[j].0] == x;
      if j < k {
        assert a[j] == b[j];
      }
    }
    forall x | x in Attributed(u, a)
      ensures x in Attributed(u, b)
    {
      var j :| 0 <= j < k && u[a[j].0] == x;
      assert b[j] == a[j];
    }
    forall j | 0 <= j < k
      ensures u[a[j].0] != u[ms[k].0]
    {
      assert a[j].0 < ms[k].0;
    }
  }

  /** One iteration of the intended stage-2 loop: the k-th update on top of the first k,
      and the track it names leaving the unmatched list. */
  lemma StageTwoStep(ts: seq<TrackRecord>, u: seq<int>, ms: seq<Pair>, low: seq<Detection>, k: nat)
    requires StrictlyIncreasing(u) && (forall j :: 0 <= j < |u| ==> 0 <= u[j] < |ts|)
    requires PairsInRange(ms, |u|, |low|) && Injective(ms) && k < |ms|
    ensures var ups := StageTwo(u, ms, low);
      var t := u[ms[k].0];
      var before := ApplyUpdates(ts, ups[..k]);
      && TargetsIn(ups, |ts|)
      && ApplyUpdates(ts, ups[..k + 1]) == before[t := Updated(before[t], low[ms[k].1])]
      && t in Without(u, Attributed(u, ms[..k]))
      && RemoveFirst(Without(u, Attributed(u, ms[..k])), t) == Without(u, Attributed(u, ms[..k + 1]))
  {
    var ups := StageTwo(u, ms, low);
    assert ups[..k + 1][..k] == ups[..k];
    AttributedSnoc(u, ms, k);
    assert u[ms[k].0] in u;
    WithoutRemove(u, Attributed(u, ms[..k]), u[ms[k].0]);
  }

  /** The intermediate values of one update. */
  datatype Stages = Stages(
    predicted: seq<TrackRecord>,
    high: seq<Detection>,
    low: seq<Detection>,
    first: Matching,
    second: seq<Assignment>,
    rest: seq<int>,
    updated: seq<TrackRecord>,
    born: seq<TrackRecord>)

  /** The intended stage-2 updates name distinct tracks of u, in range, each with a
      low-confidence detection whose IoU with the track's box clears the threshold. */
  lemma StageTwoUpdates(s1: seq<TrackRecord>, u: seq<int>, low: seq<Detection>, matchThresh: real, solver: Solver)
    requires SolverSound(solver)
    requires StrictlyIncreasing(u) && forall k :: 0 <= k < |u| ==> 0 <= u[k] < |s1|
    ensures Admissible(Boxes(Select(s1, u)), low, solver)
    ensures var ms := MatchSpec(Boxes(Select(s1, u)), low, matchThresh, solver).matches;
      var ups := StageTwo(u, ms, low);
      && Injective(ms)
      && TargetsIn(ups, |s1|) && DistinctTargets(ups)
      && (forall k :: 0 <= k < |ups| ==> ups[k].0 in u && ups[k].1 in low)
      && (forall k :: 0 <= k < |ups| ==> Iou(s1[ups[k].0].box, ups[k].1.box) > matchThresh)
      && Targets(ups) == Attributed(u, ms)
  {
    var remaining := Boxes(Select(s1, u));
    SolverSoundAdmissible(remaining, low, solver);
    MatchInjective(remaining, low, matchThresh, solver);
    MatchAboveThreshold(remaining, low, matchThresh, solver);
    StageTwoShape(s1, u, low, MatchSpec(remaining, low, matchThresh, solver).matches, matchThresh);
  }

  /** The updates built from an injective second matching of the remaining boxes. */
  lemma StageTwoShape(s1: seq<TrackRecord>, u: seq<int>, low: seq<Detection>, ms: seq<Pair>, matchThresh: real)
    requires StrictlyIncreasing(u) && forall k :: 0 <= k < |u| ==> 0 <= u[k] < |s1|
    requires PairsInRange(ms, |u|, |low|) && Injective(ms)
    requires forall k :: 0 <= k < |ms| ==> Iou(Boxes(Select(s1, u))[ms[k].0], low[ms[k].1].box) > matchThresh
    ensures var ups := StageTwo(u, ms, low);
      && TargetsIn(ups, |s1|) && DistinctTargets(ups)
      && (forall k :: 0 <= k < |ups| ==> ups[k].0 in u && ups[k].1 in low)
      && (forall k :: 0 <= k < |ups| ==> Iou(s1[ups[k].0].box, ups[k].1.box) > matchThresh)
      && Targets(ups) == Attributed(u, ms)
  {
    var remaining := Boxes(Select(s1, u));
    var ups := StageTwo(u, ms, low);
    forall k | 0 <= k < |ups|
      ensures ups[k].0 in u && ups[k].1 in low
      ensures Iou(s1[ups[k].0].box, ups[k].1.box) > matchThresh
    {
      assert remaining[ms[k].0] == s1[u[ms[k].0]].box;
    }
    forall k, l | 0 <= k < l < |ups|
      ensures ups[k].0 != ups[l].0
    {
      assert ms[k].0 < ms[l].0;
    }
    forall i | i in Attributed(u, ms)
      ensures i in Targets(ups)
    {
      var k :| 0 <= k < |ms| && u[ms[k].0] == i;
      assert ups[k].0 == i;
    }
  }

  /** The tracks left after the intended stage 2: those of u not attributed, ascending. */
  lemma StageTwoLeft(s1: seq<TrackRecord>, u: seq<int>, ms: seq<Pair>)
    requires StrictlyIncreasing(u) && forall k :: 0 <= k < |u| ==> 0 <= u[k] < |s1|
    requires forall k :: 0 <= k < |ms| ==> 0 <= ms[k].0 < |u|
    ensures var rest := StageTwoRest(u, ms);
      && StrictlyIncreasing(rest)
      && forall k :: 0 <= k < |rest| ==> 0 <= rest[k] < |s1|
  {
    var rest := StageTwoRest(u, ms);
    WithoutIncreasing(u, Attributed(u, ms));
    assert forall k :: 0 <= k < |rest| ==> rest[k] in u;
  }

  /** What stage 2 delivers on the tracks u left by stage 1: distinct targets drawn from u, each
      with a low-confidence detection whose IoU with the track's box clears the threshold, and
      the rest of u, ascending. */
  ghost predicate SecondShape(two: (seq<Assignment>, seq<int>), s1: seq<TrackRecord>, u: seq<int>,
                              low: seq<Detection>, matchThresh: real) {
    && TargetsIn(two.0, |s1|) && DistinctTargets(two.0)
    && (forall k :: 0 <= k < |two.0| ==> two.0[k].0 in u && two.0[k].1 in low)
    && (forall i :: i in two.1 <==> i in u && i !in Targets(two.0))
    && StrictlyIncreasing(two.1)
    && (forall k :: 0 <= k < |two.1| ==> 0 <= two.1[k] < |s1|)
    && (forall k :: 0 <= k < |two.0| ==> Iou(s1[two.0[k].0].box, two.0[k].1.box) > matchThresh)
  }

  /** Stage 2 as intended: run only when tracks and low-confidence detections remain. */
  function SecondStage(s1: seq<TrackRecord>, u: seq<int>, low: seq<Detection>, matchThresh: real, solver: Solver)
    : (r: (seq<Assignment>, seq<int>))
    requires SolverSound(solver)
    requires StrictlyIncreasing(u) && forall k :: 0 <= k < |u| ==> 0 <= u[k] < |s1|
    ensures TargetsIn(r.0, |s1|) && forall k :: 0 <= k < |r.1| ==> 0 <= r.1[k] < |s1|
  {
    if |u| > 0 && |low| > 0 then
      StageTwoUpdates(s1, u, low, matchThresh, solver);
      var m2 := MatchSpec(Boxes(Select(s1, u)), low, matchThresh, solver);
      StageTwoLeft(s1, u, m2.matches);
      (StageTwo(u, m2.matches, low), StageTwoRest(u, m2.matches))
    else
      ([], u)
  }

  /** Stage 2 as intended has the shape above. */
  lemma SecondStageShape(s1: seq<TrackRecord>, u: seq<int>, low: seq<Detection>, matchThresh: real, solver: Solver)
    requires SolverSound(solver)
    requires StrictlyIncreasing(u) && forall k :: 0 <= k < |u| ==> 0 <= u[k] < |s1|
    ensures SecondShape(SecondStage(s1, u, low, matchThresh, solver), s1, u, low, matchThresh)
  {
    if |u| > 0 && |low| > 0 {
      StageTwoUpdates(s1, u, low, matchThresh, solver);
      var m2 := MatchSpec(Boxes(Select(s1, u)), low, matchThresh, solver);
      StageTwoLeft(s1, u, m2.matches);
    } else {
      assert forall k :: 0 <= k < |u| ==> u[k] in u;
      assert Targets([]) == {};
    }
  }

  /** The two cases of stage 2: nothing to match, or the intended attribution of a second
      matching of the remaining boxes against the low-confidence detections. */
  lemma SecondStageParts(s1: seq<TrackRecord>, u: seq<int>, low: seq<Detection>, matchThresh: real, solver: Solver)
    requires SolverSound(solver)
    requires StrictlyIncreasing(u) && forall k :: 0 <= k < |u| ==> 0 <= u[k] < |s1|
    ensures var two := SecondStage(s1, u, low, matchThresh, solver);
      if |u| > 0 && |low| > 0 then
        var remaining := Boxes(Select(s1, u));
        && Admissible(remaining, low, solver)
        && var m2 := MatchSpec(remaining, low, matchThresh, solver);
           && Injective(m2.matches)
           && two == (StageTwo(u, m2.matches, low), StageTwoRest(u, m2.matches))
      else two == ([], u)
  {
    if |u| > 0 && |low| > 0 {
      var remaining := Boxes(Select(s1, u));
      SolverSoundAdmissible(remaining, low, solver);
      MatchInjective(remaining, low, matchThresh, solver);
    }
  }

  /** Prediction, the stage updates and mark_lost keep each track's id and never lower its age. */
  lemma StagesKeepIds(ts: seq<TrackRecord>, predict: Box -> Box, ups1: seq<Assignment>, ups2: seq<Assignment>, rest: seq<int>)
    requires TargetsIn(ups1, |ts|) && TargetsIn(ups2, |ts|)
    requires forall k :: 0 <= k < |rest| ==> 0 <= rest[k] < |ts|
    ensures var p := Predicted(ts, predict);
      var r := MarkLostAll(ApplyUpdates(ApplyUpdates(p, ups1), ups2), rest);
      |r| == |ts| && forall i :: 0 <= i < |ts| ==> r[i].id == ts[i].id && r[i].age >= ts[i].age
  {
    var p := Predicted(ts, predict);
    var s1 := ApplyUpdates(p, ups1);
    ApplyUpdatesKeepsIds(p, ups1);
    ApplyUpdatesKeepsIds(s1, ups2);
    MarkLostKeepsIds(ApplyUpdates(s1, ups2), rest);
  }

  /** New tracks for the stage-1-unmatched high detections: ids next_id, next_id + 1, ...,
      age 1 and no lost frames. */
  function Births(nextId: int, high: seq<Detection>, idx: seq<int>): (r: seq<TrackRecord>)
    requires forall k :: 0 <= k < |idx| ==> 0 <= idx[k] < |high|
    ensures |r| == |idx|
    ensures forall k :: 0 <= k < |idx| ==>
      r[k] == TrackRecord(nextId + k, high[idx[k]].box, high[idx[k]].conf, 1, 0)
  {
    seq(|idx|, k requires 0 <= k < |idx| => TrackRecord(nextId + k, high[idx[k]].box, high[idx[k]].conf, 1, 0))
  }

  function RunStages(cfg: TrackerConfig, ts: seq<TrackRecord>, nextId: int, dets: seq<Detection>,
                     predict: Box -> Box, solver: Solver): (st: Stages)
    requires SolverSound(solver)
    ensures |st.predicted| == |ts| && |st.updated| == |ts|
  {
    var p := Predicted(ts, predict);
    var high := HighDets(dets, cfg.trackThresh);
    var low := LowDets(dets, cfg.lowThresh, cfg.trackThresh);
    SolverSoundAdmissible(Boxes(p), high, solver);
    var m1 := MatchSpec(Boxes(p), high, cfg.matchThresh, solver);
    var ups1 := StageOne(m1.matches, high);
    var s1 := ApplyUpdates(p, ups1);
    var two := SecondStage(s1, m1.unmatchedTracks, low, cfg.matchThresh, solver);
    var s2 := ApplyUpdates(s1, two.0);
    Stages(p, high, low, m1, two.0, two.1, MarkLostAll(s2, two.1), Births(nextId, high, m1.unmatchedDets))
  }

  /** The intermediate values of update, stage by stage. */
  lemma RunStagesParts(cfg: TrackerConfig, ts: seq<TrackRecord>, nextId: int, dets: seq<Detection>,
                       predict: Box -> Box, solver: Solver)
    requires SolverSound(solver)
    ensures var st := RunStages(cfg, ts, nextId, dets, predict, solver);
      && st.predicted == Predicted(ts, predict)
      && st.high == HighDets(dets, cfg.trackThresh)
      && st.low == LowDets(dets, cfg.lowThresh, cfg.trackThresh)
      && Admissible(Boxes(st.predicted), st.high, solver)
      && st.first == MatchSpec(Boxes(st.predicted), st.high, cfg.matchThresh, solver)
      && var s1 := ApplyUpdates(st.predicted, StageOne(st.first.matches, st.high));
         && (st.second, st.rest) == SecondStage(s1, st.first.unmatchedTracks, st.low, cfg.matchThresh, solver)
         && st.updated == MarkLostAll(ApplyUpdates(s1, st.second), st.rest)
         && st.born == Births(nextId, st.high, st.first.unmatchedDets)
  {
    SolverSoundAdmissible(Boxes(Predicted(ts, predict)), HighDets(dets, cfg.trackThresh), solver);
  }

  /** Every old track keeps its id and does not get younger; the new tracks take consecutive
      ids from next_id, with age 1 and no lost frames. */
  lemma RunStagesKeepsIds(cfg: TrackerConfig, ts: seq<TrackRecord>, nextId: int, dets: seq<Detection>,
                          predict: Box -> Box, solver: Solver)
    requires SolverSound(solver)
    ensures var st := RunStages(cfg, ts, nextId, dets, predict, solver);
      && (forall i :: 0 <= i < |ts| ==> st.updated[i].id == ts[i].id && st.updated[i].age >= ts[i].age)
      && (forall k :: 0 <= k < |st.born| ==>
            st.born[k].id == nextId + k && st.born[k].age == 1 && st.born[k].lostFrames == 0)
  {
    var st := RunStages(cfg, ts, nextId, dets, predict, solver);
    RunStagesParts(cfg, ts, nextId, dets, predict, solver);
    StagesKeepIds(ts, predict, StageOne(st.first.matches, st.high), st.second, st.rest);
  }

  /** How the stages of one update fit together, stated without the matchings' definition:
      a well-shaped first matching, stage 1 applied to the predicted tracks, stage 2 on the
      tracks it left, then mark_lost on the rest. */
  ghost predicate StagesShape(st: Stages, n: nat, matchThresh: real) {
    match st
    case Stages(predicted, high, low, first, second, rest, updated, _) =>
      && |predicted| == n
      && WellShaped(first, n, |high|)
      && var s1 := ApplyUpdates(predicted, StageOne(first.matches, high));
         && SecondShape((second, rest), s1, first.unmatchedTracks, low, matchThresh)
         && updated == MarkLostAll(ApplyUpdates(s1, second), rest)
  }

  lemma RunStagesShape(cfg: TrackerConfig, ts: seq<TrackRecord>, nextId: int, dets: seq<Detection>,
                       predict: Box -> Box, solver: Solver)
    requires SolverSound(solver)
    ensures StagesShape(RunStages(cfg, ts, nextId, dets, predict, solver), |ts|, cfg.matchThresh)
  {
    var st := RunStages(cfg, ts, nextId, dets, predict, solver);
    RunStagesParts(cfg, ts, nextId, dets, predict, solver);
    PartsShape(st, |ts|, cfg.matchThresh, solver);
  }

  /** Stages built from _match and the intended stage 2 have the shape above. */
  lemma PartsShape(st: Stages, n: nat, matchThresh: real, solver: Solver)
    requires SolverSound(solver) && |st.predicted| == n
    requires Admissible(Boxes(st.predicted), st.high, solver)
    requires st.first == MatchSpec(Boxes(st.predicted), st.high, matchThresh, solver)
    requires var s1 := ApplyUpdates(st.predicted, StageOne(st.first.matches, st.high));
      && (st.second, st.rest) == SecondStage(s1, st.first.unmatchedTracks, st.low, matchThresh, solver)
      && st.updated == MarkLostAll(ApplyUpdates(s1, st.second), st.rest)
    ensures StagesShape(st, n, matchThresh)
  {
    MatchShape(Boxes(st.predicted), st.high, matchThresh, solver);
    SecondStageShape(ApplyUpdates(st.predicted, StageOne(st.first.matches, st.high)), st.first.unmatchedTracks,
                     st.low, matchThresh, solver);
  }

  /** Keeps the tracks with lost_frames < track_buffer, in order. */
  function Evict(ts: seq<TrackRecord>, trackBuffer: int): (r: seq<TrackRecord>)
    ensures forall t :: t in r <==> t in ts && t.lostFrames < trackBuffer
  {
    if ts == [] then []
    else
      var init, last := ts[..|ts| - 1], ts[|ts| - 1];
      assert forall t :: t in ts <==> t in init || t == last;
      Evict(init, trackBuffer) + (if last.lostFrames < trackBuffer then [last] else [])
  }

  function Row(t: TrackRecord): TrackedObject {
    TrackedObject(t.box, t.id, t.conf)
  }

  /** The results: one row per track with lost_frames == 0, in list order. */
  function Emit(ts: seq<TrackRecord>): (r: seq<TrackedObject>)
    ensures forall o :: o in r <==> exists t :: t in ts && t.lostFrames == 0 && o == Row(t)
  {
    if ts == [] then []
    else
      var init, last := ts[..|ts| - 1], ts[|ts| - 1];
      assert forall t :: t in ts <==> t in init || t == last;
      Emit(init) + (if last.lostFrames == 0 then [Row(last)] else [])
  }

  /** The tracker after one update and the rows update returns. */
  datatype FrameResult = FrameResult(tracks: seq<TrackRecord>, nextId: int, output: seq<TrackedObject>)

  function Frame(cfg: TrackerConfig, ts: seq<TrackRecord>, nextId: int, dets: seq<Detection>,
                 predict: Box -> Box, solver: Solver): FrameResult
    requires SolverSound(solver)
  {
    var st := RunStages(cfg, ts, nextId, dets, predict, solver);
    var kept := Evict(st.updated + st.born, cfg.trackBuffer);
    FrameResult(kept, nextId + |st.born|, Emit(kept))
  }

  // ---------------------------------------------------------------------------
  // Well-formed tracker state

  predicate IdsAscending(ts: seq<TrackRecord>) {
    forall i, j :: 0 <= i < j < |ts| ==> ts[i].id < ts[j].id
  }

  predicate RowsAscending(rows: seq<TrackedObject>) {
    forall i, j :: 0 <= i < j < |rows| ==> rows[i].id < rows[j].id
  }

  /** Ids strictly ascending along the list, all issued (1 <= id < next_id), ages at least 1. */
  predicate WellFormed(ts: seq<TrackRecord>, nextId: int) {
    && IdsAscending(ts)
    && (forall i :: 0 <= i < |ts| ==> 1 <= ts[i].id < nextId && ts[i].age >= 1)
  }

  /** Stage updates keep every track's id and never lower its age. */
  lemma {:induction false} ApplyUpdatesKeepsIds(ts: seq<TrackRecord>, ups: seq<Assignment>)
    requires TargetsIn(ups, |ts|)
    ensures forall i :: 0 <= i < |ts| ==>
      ApplyUpdates(ts, ups)[i].id == ts[i].id && ApplyUpdates(ts, ups)[i].age >= ts[i].age
  {
    if ups != [] {
      ApplyUpdatesKeepsIds(ts, ups[..|ups| - 1]);
    }
  }

  /** Marking tracks lost keeps every track's id and age. */
  lemma {:induction false} MarkLostKeepsIds(ts: seq<TrackRecord>, idx: seq<int>)
    requires forall k :: 0 <= k < |idx| ==> 0 <= idx[k] < |ts|
    ensures forall i :: 0 <= i < |ts| ==>
      MarkLostAll(ts, idx)[i].id == ts[i].id && MarkLostAll(ts, idx)[i].age == ts[i].age
  {
    if idx != [] {
      MarkLostKeepsIds(ts, idx[..|idx| - 1]);
    }
  }

  /** Eviction keeps the ids ascending. */
  lemma {:induction false} EvictOrdered(ts: seq<TrackRecord>, trackBuffer: int)
    requires IdsAscending(ts)
    ensures IdsAscending(Evict(ts, trackBuffer))
  {
    if ts != [] {
      var init, last := ts[..|ts| - 1], ts[|ts| - 1];
      EvictOrdered(init, trackBuffer);
      var front := Evict(init, trackBuffer);
      forall t | t in front
        ensures t.id < last.id
      {
        var k :| 0 <= k < |init| && init[k] == t;
        assert ts[k] == t;
      }
      var r := Evict(ts, trackBuffer);
      assert r == front + (if last.lostFrames < trackBuffer then [last] else []);
      forall i, j | 0 <= i < j < |r|
        ensures r[i].id < r[j].id
      {
        if j < |front| {
          assert r[i] == front[i] && r[j] == front[j];
        } else {
          assert r[i] == front[i] && front[i] in front && r[j] == last;
        }
      }
    }
  }

  /** The emitted rows keep the ids ascending. */
  lemma {:induction false} EmitOrdered(ts: seq<TrackRecord>)
    requires IdsAscending(ts)
    ensures RowsAscending(Emit(ts))
  {
    if ts != [] {
      var init, last := ts[..|ts| - 1], ts[|ts| - 1];
      EmitOrdered(init);
      var front := Emit(init);
      forall o | o in front
        ensures o.id < last.id
      {
        var t :| t in init && t.lostFrames == 0 && o == Row(t);
        var k :| 0 <= k < |init| && init[k] == t;
        assert ts[k] == t;
      }
      var r := Emit(ts);
      assert r == front + (if last.lostFrames == 0 then [Row(last)] else []);
      forall i, j | 0 <= i < j < |r|
        ensures r[i].id < r[j].id
      {
        if j < |front| {
          assert r[i] == front[i] && r[j] == front[j];
        } else {
          assert r[i] == front[i] && front[i] in front && r[j] == Row(last);
        }
      }
    }
  }

  /** The old tracks (ids and ages kept) followed by the newborn ones (ids next_id, next_id + 1,
      ...): ids ascending, all below the new next_id. */
  lemma AppendBornWellFormed(ts: seq<TrackRecord>, nextId: int, updated: seq<TrackRecord>, born: seq<TrackRecord>)
    requires WellFormed(ts, nextId) && nextId >= 1 && |updated| == |ts|
    requires forall i :: 0 <= i < |ts| ==> updated[i].id == ts[i].id && updated[i].age >= ts[i].age
    requires forall k :: 0 <= k < |born| ==> born[k].id == nextId + k && born[k].age == 1
    ensures WellFormed(updated + born, nextId + |born|)
  {
    var all := updated + born;
    forall i, j | 0 <= i < j < |all|
      ensures all[i].id < all[j].id
    {
      if j < |ts| {
        assert all[i] == updated[i] && all[j] == updated[j];
      } else if i < |ts| {
        assert all[i] == updated[i] && all[j] == born[j - |ts|];
      } else {
        assert all[i] == born[i - |ts|] && all[j] == born[j - |ts|];
      }
    }
    forall i | 0 <= i < |all|
      ensures 1 <= all[i].id < nextId + |born| && all[i].age >= 1
    {
      if i < |ts| {
        assert all[i] == updated[i];
      } else {
        assert all[i] == born[i - |ts|];
      }
    }
  }

  /** Eviction of a well-formed list leaves it well formed. */
  lemma EvictWellFormed(ts: seq<TrackRecord>, nextId: int, trackBuffer: int)
    requires WellFormed(ts, nextId)
    ensures WellFormed(Evict(ts, trackBuffer), nextId)
  {
    EvictOrdered(ts, trackBuffer);
    var kept := Evict(ts, trackBuffer);
    forall i | 0 <= i < |kept|
      ensures 1 <= kept[i].id < nextId && kept[i].age >= 1
    {
      assert kept[i] in kept;
      var k :| 0 <= k < |ts| && ts[k] == kept[i];
    }
  }

  /** One update keeps the tracker well formed, hands out ids from next_id upwards, leaves
      every held track with lost_frames < track_buffer and emits rows in ascending id order. */
  lemma FrameWellFormed(cfg: TrackerConfig, ts: seq<TrackRecord>, nextId: int, dets: seq<Detection>,
                        predict: Box -> Box, solver: Solver)
    requires SolverSound(solver) && WellFormed(ts, nextId) && nextId >= 1
    ensures var r := Frame(cfg, ts, nextId, dets, predict, solver);
      && WellFormed(r.tracks, r.nextId)
      && r.nextId >= nextId
      && (forall t :: t in r.tracks ==> t.lostFrames < cfg.trackBuffer)
      && RowsAscending(r.output)
  {
    var st := RunStages(cfg, ts, nextId, dets, predict, solver);
    RunStagesKeepsIds(cfg, ts, nextId, dets, predict, solver);
    AppendBornWellFormed(ts, nextId, st.updated, st.born);
    EvictWellFormed(st.updated + st.born, nextId + |st.born|, cfg.trackBuffer);
    EmitOrdered(Evict(st.updated + st.born, cfg.trackBuffer));
  }

  // ---------------------------------------------------------------------------
  // What happens to each old track

  /** The three phases of update on the old tracks, for any stage-1 updates, stage-2 updates
      within the stage-1-unmatched tracks and list of tracks left unmatched: every old track
      is updated by its stage-1 detection, updated by its stage-2 detection, or marked lost,
      and exactly one of the three happens to it. */
  lemma StageFates(p: seq<TrackRecord>, ups1: seq<Assignment>, u: seq<int>, ups2: seq<Assignment>, rest: seq<int>)
    requires TargetsIn(ups1, |p|) && DistinctTargets(ups1)
    requires forall i :: i in u <==> 0 <= i < |p| && i !in Targets(ups1)
    requires DistinctTargets(ups2) && forall k :: 0 <= k < |ups2| ==> ups2[k].0 in u
    requires forall i :: i in rest <==> i in u && i !in Targets(ups2)
    requires StrictlyIncreasing(rest)
    ensures TargetsIn(ups2, |p|) && forall k :: 0 <= k < |rest| ==> 0 <= rest[k] < |p|
    ensures var s3 := MarkLostAll(ApplyUpdates(ApplyUpdates(p, ups1), ups2), rest);
      && (forall k :: 0 <= k < |ups1| ==> s3[ups1[k].0] == Updated(p[ups1[k].0], ups1[k].1))
      && (forall k :: 0 <= k < |ups2| ==> s3[ups2[k].0] == Updated(p[ups2[k].0], ups2[k].1))
      && (forall k :: 0 <= k < |rest| ==> s3[rest[k]] == Lost(p[rest[k]]))
    ensures forall i :: 0 <= i < |p| ==> i in Targets(ups1) || i in Targets(ups2) || i in rest
    ensures forall i :: !(i in Targets(ups1) && i in Targets(ups2))
    ensures forall i :: i in rest ==> i !in Targets(ups1) && i !in Targets(ups2)
  {
    assert forall k :: 0 <= k < |ups2| ==> ups2[k].0 in u;
    assert forall k :: 0 <= k < |rest| ==> rest[k] in rest;
    var s1 := ApplyUpdates(p, ups1);
    ApplyUpdatesAt(p, ups1);
    var s2 := ApplyUpdates(s1, ups2);
    ApplyUpdatesAt(s1, ups2);
    var s3 := MarkLostAll(s2, rest);
    MarkLostAt(s2, rest);
    forall k | 0 <= k < |ups1|
      ensures s3[ups1[k].0] == Updated(p[ups1[k].0], ups1[k].1)
    {
      var t := ups1[k].0;
      assert t in Targets(ups1);
      assert t !in u;
      assert t !in rest;
      assert t !in Targets(ups2);
    }
    forall k | 0 <= k < |ups2|
      ensures s3[ups2[k].0] == Updated(p[ups2[k].0], ups2[k].1)
    {
      var t := ups2[k].0;
      assert t in u && t !in Targets(ups1);
      assert t in Targets(ups2);
      assert t !in rest;
    }
    forall k | 0 <= k < |rest|
      ensures s3[rest[k]] == Lost(p[rest[k]])
    {
      var t := rest[k];
      assert t in rest;
      assert t in u && t !in Targets(ups1) && t !in Targets(ups2);
    }
    forall i | i in Targets(ups2)
      ensures i !in Targets(ups1)
    {
      var k :| 0 <= k < |ups2| && ups2[k].0 == i;
    }
  }

  /** Stage 1 updates the tracks of the first matching's rows. */
  lemma StageOneTargets(ms: seq<Pair>, high: seq<Detection>)
    requires forall k :: 0 <= k < |ms| ==> 0 <= ms[k].1 < |high|
    ensures Targets(StageOne(ms, high)) == Rows(ms)
    ensures Injective(ms) ==> DistinctTargets(StageOne(ms, high))
  {
    var ups := StageOne(ms, high);
    forall i | i in Rows(ms)
      ensures i in Targets(ups)
    {
      var k :| 0 <= k < |ms| && ms[k].0 == i;
      assert ups[k].0 == i;
    }
  }

  /** Survivor fate: after the two stages and before eviction, every old track has exactly one
      of three fates. A stage-1 match replaces box and conf by the high detection's, resets
      lost_frames and adds one to age; so does a stage-2 match with a low detection; every
      track matched in neither is marked lost (on top of the prediction). */
  lemma SurvivorFate(cfg: TrackerConfig, ts: seq<TrackRecord>, nextId: int, dets: seq<Detection>,
                     predict: Box -> Box, solver: Solver)
    requires SolverSound(solver)
    ensures var st := RunStages(cfg, ts, nextId, dets, predict, solver);
      var ups1 := StageOne(st.first.matches, st.high);
      && TargetsIn(st.second, |ts|) && (forall k :: 0 <= k < |st.rest| ==> 0 <= st.rest[k] < |ts|)
      && (forall k :: 0 <= k < |ups1| ==>
            st.updated[ups1[k].0] == Updated(st.predicted[ups1[k].0], ups1[k].1) && ups1[k].1 in st.high)
      && (forall k :: 0 <= k < |st.second| ==>
            st.updated[st.second[k].0] == Updated(st.predicted[st.second[k].0], st.second[k].1)
            && st.second[k].1 in st.low)
      && (forall k :: 0 <= k < |st.rest| ==> st.updated[st.rest[k]] == Lost(st.predicted[st.rest[k]]))
      && (forall i :: 0 <= i < |ts| ==> i in Targets(ups1) || i in Targets(st.second) || i in st.rest)
      && (forall i :: !(i in Targets(ups1) && i in Targets(st.second)))
      && (forall i :: i in st.rest ==> i !in Targets(ups1) && i !in Targets(st.second))
  {
    var st := RunStages(cfg, ts, nextId, dets, predict, solver);
    RunStagesShape(cfg, ts, nextId, dets, predict, solver);
    StagesFates(st, |ts|, cfg.matchThresh);
  }

  /** Survivor fate over any stages that fit together. */
  lemma StagesFates(st: Stages, n: nat, matchThresh: real)
    requires StagesShape(st, n, matchThresh)
    ensures var ups1 := StageOne(st.first.matches, st.high);
      && TargetsIn(st.second, n) && (forall k :: 0 <= k < |st.rest| ==> 0 <= st.rest[k] < n)
      && (forall k :: 0 <= k < |ups1| ==>
            st.updated[ups1[k].0] == Updated(st.predicted[ups1[k].0], ups1[k].1) && ups1[k].1 in st.high)
      && (forall k :: 0 <= k < |st.second| ==>
            st.updated[st.second[k].0] == Updated(st.predicted[st.second[k].0], st.second[k].1)
            && st.second[k].1 in st.low)
      && (forall k :: 0 <= k < |st.rest| ==> st.updated[st.rest[k]] == Lost(st.predicted[st.rest[k]]))
      && (forall i :: 0 <= i < n ==> i in Targets(ups1) || i in Targets(st.second) || i in st.rest)
      && (forall i :: !(i in Targets(ups1) && i in Targets(st.second)))
      && (forall i :: i in st.rest ==> i !in Targets(ups1) && i !in Targets(st.second))
  {
    var ups1 := StageOne(st.first.matches, st.high);
    StageOneTargets(st.first.matches, st.high);
    StageFates(st.predicted, ups1, st.first.unmatchedTracks, st.second, st.rest);
  }

  /** Every track that stage 1 refreshes with a high-confidence detection had a predicted box
      with IoU strictly above match_thresh against that detection. */
  lemma FirstMatchesAboveThreshold(cfg: TrackerConfig, ts: seq<TrackRecord>, nextId: int, dets: seq<Detection>,
                                   predict: Box -> Box, solver: Solver)
    requires SolverSound(solver)
    ensures var st := RunStages(cfg, ts, nextId, dets, predict, solver);
      var ups1 := StageOne(st.first.matches, st.high);
      && TargetsIn(ups1, |ts|)
      && forall k :: 0 <= k < |ups1| ==> Iou(st.predicted[ups1[k].0].box, ups1[k].1.box) > cfg.matchThresh
  {
    var st := RunStages(cfg, ts, nextId, dets, predict, solver);
    RunStagesParts(cfg, ts, nextId, dets, predict, solver);
    FirstAboveThreshold(st.predicted, st.high, cfg.matchThresh, solver);
  }

  /** Every track that stage 2 refreshes with a low-confidence detection had a predicted box
      with IoU strictly above match_thresh against that detection: stage 2 only sees tracks
      stage 1 left alone. */
  lemma SecondMatchesAboveThreshold(cfg: TrackerConfig, ts: seq<TrackRecord>, nextId: int, dets: seq<Detection>,
                                    predict: Box -> Box, solver: Solver)
    requires SolverSound(solver)
    ensures var st := RunStages(cfg, ts, nextId, dets, predict, solver);
      && TargetsIn(st.second, |ts|)
      && forall k :: 0 <= k < |st.second| ==>
           Iou(st.predicted[st.second[k].0].box, st.second[k].1.box) > cfg.matchThresh
  {
    var st := RunStages(cfg, ts, nextId, dets, predict, solver);
    RunStagesShape(cfg, ts, nextId, dets, predict, solver);
    StagesSecondAbove(st, |ts|, cfg.matchThresh);
  }

  /** Stage 2's threshold, restated on the predicted boxes, over any stages that fit together. */
  lemma StagesSecondAbove(st: Stages, n: nat, matchThresh: real)
    requires StagesShape(st, n, matchThresh)
    ensures && TargetsIn(st.second, n)
      && forall k :: 0 <= k < |st.second| ==> Iou(st.predicted[st.second[k].0].box, st.second[k].1.box) > matchThresh
  {
    UnmatchedUntouched(st.predicted, st.high, st.first);
  }

  /** Every stage-1 update pairs a track with a detection whose IoU clears the threshold. */
  lemma FirstAboveThreshold(p: seq<TrackRecord>, high: seq<Detection>, matchThresh: real, solver: Solver)
    requires Admissible(Boxes(p), high, solver)
    ensures var ups1 := StageOne(MatchSpec(Boxes(p), high, matchThresh, solver).matches, high);
      && TargetsIn(ups1, |p|)
      && forall k :: 0 <= k < |ups1| ==> Iou(p[ups1[k].0].box, ups1[k].1.box) > matchThresh
  {
    MatchAboveThreshold(Boxes(p), high, matchThresh, solver);
  }

  /** Stage 1 leaves the tracks it did not match exactly as predicted. */
  lemma UnmatchedUntouched(p: seq<TrackRecord>, high: seq<Detection>, m1: Matching)
    requires WellShaped(m1, |p|, |high|)
    ensures var ups1 := StageOne(m1.matches, high);
      && TargetsIn(ups1, |p|)
      && forall t :: t in m1.unmatchedTracks ==> 0 <= t < |p| && ApplyUpdates(p, ups1)[t] == p[t]
  {
    var ups1 := StageOne(m1.matches, high);
    StageOneTargets(m1.matches, high);
    ApplyUpdatesAt(p, ups1);
  }

  /** New tracks come only from high detections that stage 1 left unmatched, one per such
      detection, with ids next_id, next_id + 1, ..., age 1 and no lost frames. */
  lemma BirthsFromStageOne(cfg: TrackerConfig, ts: seq<TrackRecord>, nextId: int, dets: seq<Detection>,
                           predict: Box -> Box, solver: Solver)
    requires SolverSound(solver)
    ensures var st := RunStages(cfg, ts, nextId, dets, predict, solver);
      && |st.born| == |st.first.unmatchedDets|
      && forall k :: 0 <= k < |st.born| ==>
           var j := st.first.unmatchedDets[k];
           && 0 <= j < |st.high| && j !in Cols(st.first.matches)
           && st.born[k] == TrackRecord(nextId + k, st.high[j].box, st.high[j].conf, 1, 0)
           && st.high[j] in dets && st.high[j].conf >= cfg.trackThresh
  {
    var st := RunStages(cfg, ts, nextId, dets, predict, solver);
    RunStagesParts(cfg, ts, nextId, dets, predict, solver);
    RunStagesShape(cfg, ts, nextId, dets, predict, solver);
    BornFromUnmatched(st, |ts|, nextId, dets, cfg.trackThresh);
  }

  /** The births of any stages whose first matching is well shaped. */
  lemma BornFromUnmatched(st: Stages, n: nat, nextId: int, dets: seq<Detection>, trackThresh: real)
    requires WellShaped(st.first, n, |st.high|) && st.high == HighDets(dets, trackThresh)
    requires st.born == Births(nextId, st.high, st.first.unmatchedDets)
    ensures && |st.born| == |st.first.unmatchedDets|
      && forall k :: 0 <= k < |st.born| ==>
           var j := st.first.unmatchedDets[k];
           && 0 <= j < |st.high| && j !in Cols(st.first.matches)
           && st.born[k] == TrackRecord(nextId + k, st.high[j].box, st.high[j].conf, 1, 0)
           && st.high[j] in dets && st.high[j].conf >= trackThresh
  {
    forall k | 0 <= k < |st.born|
      ensures st.first.unmatchedDets[k] !in Cols(st.first.matches)
      ensures st.high[st.first.unmatchedDets[k]] in st.high
    {
      assert st.first.unmatchedDets[k] in st.first.unmatchedDets;
    }
  }

  /** The held tracks are the old and newborn tracks with lost_frames < track_buffer, and the
      output holds exactly the rows of those with lost_frames == 0. */
  lemma FrameOutput(cfg: TrackerConfig, ts: seq<TrackRecord>, nextId: int, dets: seq<Detection>,
                    predict: Box -> Box, solver: Solver)
    requires SolverSound(solver)
    ensures var st := RunStages(cfg, ts, nextId, dets, predict, solver);
      var r := Frame(cfg, ts, nextId, dets, predict, solver);
      && (forall t :: t in r.tracks <==> t in st.updated + st.born && t.lostFrames < cfg.trackBuffer)
      && (forall o :: o in r.output ==> exists t :: t in st.updated + st.born && t.lostFrames == 0 && o == Row(t))
      && (cfg.trackBuffer > 0 ==>
            forall t :: t in st.updated + st.born && t.lostFrames == 0 ==> Row(t) in r.output)
  {
  }

  /** Coasting limit: an old track unmatched in both stages has one more lost frame and is held
      exactly when that count stays below track_buffer. */
  lemma CoastingLimit(cfg: TrackerConfig, ts: seq<TrackRecord>, nextId: int, dets: seq<Detection>,
                      predict: Box -> Box, solver: Solver)
    requires SolverSound(solver)
    ensures var st := RunStages(cfg, ts, nextId, dets, predict, solver);
      var r := Frame(cfg, ts, nextId, dets, predict, solver);
      forall k :: 0 <= k < |st.rest| ==>
        && 0 <= st.rest[k] < |ts|
        && st.updated[st.rest[k]].lostFrames == ts[st.rest[k]].lostFrames + 1
        && (st.updated[st.rest[k]] in r.tracks <==> ts[st.rest[k]].lostFrames + 1 < cfg.trackBuffer)
  {
    var st := RunStages(cfg, ts, nextId, dets, predict, solver);
    SurvivorFate(cfg, ts, nextId, dets, predict, solver);
    forall k | 0 <= k < |st.rest|
      ensures st.updated[st.rest[k]] in st.updated + st.born
    {
      assert (st.updated + st.born)[st.rest[k]] == st.updated[st.rest[k]];
    }
  }

  // ---------------------------------------------------------------------------
  // The stage-2 attribution as the source writes it

  /** The stage-2 loop as written: local row r of the second matching is looked up in the
      unmatched list as it is at that moment, and the track found is removed from that list at
      once, so later lookups see a shorter, shifted list. None stands for the IndexError raised
      when the lookup runs past its end. */
  function AsWrittenStageTwo(cur: seq<int>, ms: seq<Pair>, low: seq<Detection>): (r: Option<(seq<Assignment>, seq<int>)>)
    requires forall k :: 0 <= k < |ms| ==> 0 <= ms[k].0 && 0 <= ms[k].1 < |low|
    ensures r.Some? ==> |r.value.0| == |ms|
    decreases |ms|
  {
    if ms == [] then Some(([], cur))
    else if ms[0].0 >= |cur| then None
    else
      var idx := cur[ms[0].0];
      match AsWrittenStageTwo(RemoveFirst(cur, idx), ms[1..], low)
      case None => None
      case Some(res) => Some(([(idx, low[ms[0].1])] + res.0, res.1))
  }

  lemma WithoutNothing(u: seq<int>)
    requires StrictlyIncreasing(u)
    ensures Without(u, {}) == u
  {
    WithoutIncreasing(u, {});
    SortedUnique(Without(u, {}), u);
  }

  /** With no stage-2 match the written loop changes nothing, as intended. */
  lemma AsWrittenNoMatch(u: seq<int>, low: seq<Detection>)
    requires StrictlyIncreasing(u)
    ensures AsWrittenStageTwo(u, [], low) == Some((StageTwo(u, [], low), StageTwoRest(u, [])))
  {
    WithoutNothing(u);
    assert Attributed(u, []) == {};
  }

  /** With one stage-2 match the written loop updates the intended track. */
  lemma AsWrittenOneMatch(u: seq<int>, ms: seq<Pair>, low: seq<Detection>)
    requires StrictlyIncreasing(u) && PairsInRange(ms, |u|, |low|) && |ms| == 1
    ensures AsWrittenStageTwo(u, ms, low) == Some((StageTwo(u, ms, low), StageTwoRest(u, ms)))
  {
    var r0 := ms[0].0;
    RemoveFirstIsWithout(u, r0);
    var cur := RemoveFirst(u, u[r0]);
    assert ms[1..] == [];
    assert AsWrittenStageTwo(cur, [], low) == Some(([], cur));
    assert Attributed(u, ms) == {u[r0]};
    assert StageTwoRest(u, ms) == cur;
    var up: Assignment := (u[r0], low[ms[0].1]);
    assert StageTwo(u, ms, low) == [up];
    assert [up] + [] == [up];
    assert AsWrittenStageTwo(u, ms, low) == Some(([up] + [], cur));
  }

  /** With two or more stage-2 matches the written loop gives the second detection to the
      track after the intended one, or fails with IndexError. */
  lemma AsWrittenTwoMatches(u: seq<int>, ms: seq<Pair>, low: seq<Detection>)
    requires StrictlyIncreasing(u) && PairsInRange(ms, |u|, |low|) && Injective(ms) && |ms| >= 2
    ensures AsWrittenStageTwo(u, ms, low).Some? ==>
      ms[1].0 + 1 < |u| && AsWrittenStageTwo(u, ms, low).value.0[1].0 == u[ms[1].0 + 1] != StageTwo(u, ms, low)[1].0
  {
    var r0, r1 := ms[0].0, ms[1].0;
    assert r0 < r1;
    RemoveFirstAt(u, r0);
    var cur := RemoveFirst(u, u[r0]);
    var tail := ms[1..];
    assert tail[0] == ms[1];
    var w := AsWrittenStageTwo(u, ms, low);
    var inner := AsWrittenStageTwo(cur, tail, low);
    if r1 < |cur| {
      assert cur[r1] == u[r1 + 1];
      assert u[r1] < u[r1 + 1];
      assert inner.Some? ==> inner.value.0[0].0 == u[r1 + 1];
      assert w.Some? ==> inner.Some? && w.value.0[1] == inner.value.0[0];
    } else {
      assert inner == None;
    }
  }

  /** The written loop attributes the stage-2 matches as intended exactly when there is at most
      one of them. */
  lemma AsWrittenAgreesIff(u: seq<int>, ms: seq<Pair>, low: seq<Detection>)
    requires StrictlyIncreasing(u) && PairsInRange(ms, |u|, |low|) && Injective(ms)
    ensures AsWrittenStageTwo(u, ms, low) == Some((StageTwo(u, ms, low), StageTwoRest(u, ms))) <==> |ms| <= 1
  {
    if |ms| == 0 {
      assert ms == [];
      AsWrittenNoMatch(u, low);
    } else if |ms| == 1 {
      AsWrittenOneMatch(u, ms, low);
    } else {
      AsWrittenTwoMatches(u, ms, low);
    }
  }

  /** The detections of the two examples below. */
  function ExampleLow(): seq<Detection> {
    [Detection(Box(0.0, 0.0, 10.0, 10.0), 0.3), Detection(Box(20.0, 0.0, 30.0, 10.0), 0.3)]
  }

  /** The two list.remove calls of the written loop on [0, 1, 2]. */
  lemma ExampleRemovals()
    ensures RemoveFirst([0, 1, 2], 0) == [1, 2]
    ensures RemoveFirst([1, 2], 2) == [1]
  {
    assert [0, 1, 2][1..] == [1, 2];
    assert [1, 2][1..] == [2];
  }

  /** One iteration of the written loop: the head pair updates cur[row], then the loop goes on
      over the shortened list. */
  lemma AsWrittenCons(cur: seq<int>, m: Pair, tail: seq<Pair>, low: seq<Detection>,
                      ups: seq<Assignment>, rest: seq<int>)
    requires 0 <= m.0 < |cur| && 0 <= m.1 < |low|
    requires forall k :: 0 <= k < |tail| ==> 0 <= tail[k].0 && 0 <= tail[k].1 < |low|
    requires AsWrittenStageTwo(RemoveFirst(cur, cur[m.0]), tail, low) == Some((ups, rest))
    ensures AsWrittenStageTwo(cur, [m] + tail, low) == Some(([(cur[m.0], low[m.1])] + ups, rest))
  {
    var ms := [m] + tail;
    assert ms[0] == m && ms[1..] == tail;
  }

  /** The written loop on [0, 1, 2] with rows 0 and 1, for any two detections. */
  lemma WrittenOnThree(u: seq<int>, ms: seq<Pair>, low: seq<Detection>)
    requires u == [0, 1, 2] && ms == [(0, 0), (1, 1)] && |low| == 2
    ensures AsWrittenStageTwo(u, ms, low) == Some(([(0, low[0]), (2, low[1])], [1]))
  {
    ExampleRemovals();
    var c1: seq<int> := [1, 2];
    var c2: seq<int> := [1];
    var p1: Pair := (1, 1);
    var nil: seq<Pair> := [];
    assert AsWrittenStageTwo(c2, nil, low) == Some(([], c2));
    assert c1[p1.0] == 2 && RemoveFirst(c1, c1[p1.0]) == c2;
    AsWrittenCons(c1, p1, nil, low, [], c2);
    var a2: Assignment := (2, low[1]);
    assert [a2] + [] == [a2] && [p1] + nil == [p1];
    assert u[0] == 0 && RemoveFirst(u, u[0]) == c1;
    AsWrittenCons(u, (0, 0), [p1], low, [a2], c2);
    assert [(0, 0)] + [p1] == ms;
    var a0: Assignment := (u[0], low[0]);
    assert [a0] + [a2] == [(0, low[0]), (2, low[1])];
  }

  lemma ExampleWritten()
    ensures AsWrittenStageTwo([0, 1, 2], [(0, 0), (1, 1)], ExampleLow())
         == Some(([(0, ExampleLow()[0]), (2, ExampleLow()[1])], [1]))
  {
    WrittenOnThree([0, 1, 2], [(0, 0), (1, 1)], ExampleLow());
  }

  /** The intended attribution on [0, 1, 2] with rows 0 and 1, for any two detections. */
  lemma IntendedOnThree(low: seq<Detection>)
    requires |low| == 2
    ensures StageTwo([0, 1, 2], [(0, 0), (1, 1)], low) == [(0, low[0]), (1, low[1])]
    ensures StageTwoRest([0, 1, 2], [(0, 0), (1, 1)]) == [2]
  {
    var u := [0, 1, 2];
    var ms: seq<Pair> := [(0, 0), (1, 1)];
    assert Attributed(u, ms) == {0, 1} by {
      assert u[ms[0].0] == 0 && u[ms[1].0] == 1;
      forall x | x in Attributed(u, ms)
        ensures x in {0, 1}
      {
        var k :| 0 <= k < |ms| && u[ms[k].0] == x;
        assert k == 0 || k == 1;
      }
    }
    assert Without(u, {0, 1}) == [2] by {
      assert u[..2] == [0, 1] && [0, 1][..1] == [0] && [0][..0] == [];
    }
  }

  lemma ExampleIntended()
    ensures StageTwo([0, 1, 2], [(0, 0), (1, 1)], ExampleLow()) == [(0, ExampleLow()[0]), (1, ExampleLow()[1])]
    ensures StageTwoRest([0, 1, 2], [(0, 0), (1, 1)]) == [2]
  {
    IntendedOnThree(ExampleLow());
  }

  /** Two low-confidence matches with three remaining tracks: the second detection goes to
      track 2, although its row denotes track 1, and track 1 is then marked lost where track 2
      should be. */
  lemma StageTwoMisattribution()
    ensures var low := ExampleLow();
      var ms := [(0, 0), (1, 1)];
      && AsWrittenStageTwo([0, 1, 2], ms, low) == Some(([(0, low[0]), (2, low[1])], [1]))
      && StageTwo([0, 1, 2], ms, low) == [(0, low[0]), (1, low[1])]
      && StageTwoRest([0, 1, 2], ms) == [2]
  {
    ExampleWritten();
    ExampleIntended();
  }

  /** Two low-confidence matches with two remaining tracks: the second lookup runs off the
      shortened list, so update raises IndexError. */
  lemma StageTwoIndexError()
    ensures AsWrittenStageTwo([3, 5], [(0, 0), (1, 1)], ExampleLow()) == None
  {
    var low := ExampleLow();
    var ms: seq<Pair> := [(0, 0), (1, 1)];
    assert RemoveFirst([3, 5], 3) == [5];
    assert ms[1..] == [(1, 1)];
    assert AsWrittenStageTwo([5], [(1, 1)], low) == None;
  }
}

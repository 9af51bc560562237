/** Track and ByteTracker as objects: the tracks are updated in place, the tracker's list is
    rebuilt, and update is proved to produce the per-frame result of the Lifecycle module
    (with the stage-2 attribution as intended). */
module Tracker {
  import opened Geometry
  import opened Lists
  import opened Association
  import opened Lifecycle

  class Track {
    const id: int
    var box: Box
    var conf: real
    var age: nat
    var lostFrames: nat

    function Record(): TrackRecord
      reads this
    {
      TrackRecord(id, box, conf, age, lostFrames)
    }

    /** A new track: age 1 and no lost frames. */
    constructor(trackId: int, b: Box, c: real)
      ensures Record() == TrackRecord(trackId, b, c, 1, 0)
    {
      id := trackId;
      box := b;
      conf := c;
      age := 1;
      lostFrames := 0;
    }

    /** predict: the box becomes the prediction. */
    method Predict(predict: Box -> Box)
      modifies this
      ensures Record() == old(Record()).(box := predict(old(box)))
    {
      box := predict(box);
    }

    /** update: the detection's box and confidence, one more frame of age, no lost frames. */
    method Update(d: Detection)
      modifies this
      ensures Record() == Updated(old(Record()), d)
    {
      box := d.box;
      conf := d.conf;
      age := age + 1;
      lostFrames := 0;
    }

    /** mark_lost: one more lost frame, nothing else. */
    method MarkLost()
      modifies this
      ensures Record() == Lost(old(Record()))
    {
      lostFrames := lostFrames + 1;
    }
  }

  /** The records of a list of tracks. */
  ghost function RecordsOf(ts: seq<Track>): (r: seq<TrackRecord>)
    reads ts
    ensures |r| == |ts| && forall i :: 0 <= i < |ts| ==> r[i] == ts[i].Record()
  {
    if ts == [] then [] else RecordsOf(ts[..|ts| - 1]) + [ts[|ts| - 1].Record()]
  }

  lemma RecordsOfSnoc(ts: seq<Track>, t: Track)
    ensures RecordsOf(ts + [t]) == RecordsOf(ts) + [t.Record()]
  {
    assert (ts + [t])[..|ts|] == ts;
  }

  lemma RecordsOfAppend(ts: seq<Track>, us: seq<Track>)
    ensures RecordsOf(ts + us) == RecordsOf(ts) + RecordsOf(us)
  {
  }

  lemma BirthsSnoc(nextId: int, high: seq<Detection>, idx: seq<int>, k: nat)
    requires (forall j :: 0 <= j < |idx| ==> 0 <= idx[j] < |high|) && k < |idx|
    ensures Births(nextId, high, idx[..k + 1])
      == Births(nextId, high, idx[..k]) + [TrackRecord(nextId + k, high[idx[k]].box, high[idx[k]].conf, 1, 0)]
  {
  }

  /** Pairwise distinct track objects. */
  ghost predicate Distinct(ts: seq<Track>) {
    forall i, j :: 0 <= i < j < |ts| ==> ts[i] != ts[j]
  }

  /** Different ids mean different objects. */
  lemma AscendingDistinct(ts: seq<Track>)
    requires IdsAscending(RecordsOf(ts))
    ensures Distinct(ts)
  {
    forall i, j | 0 <= i < j < |ts|
      ensures ts[i] != ts[j]
    {
      assert RecordsOf(ts)[i].id < RecordsOf(ts)[j].id;
    }
  }

  /** The tracker state after prediction and both association stages of a frame from r0:
      the updated tracks, the high-confidence detections and those left for births. */
  ghost predicate Associated(cfg: TrackerConfig, r0: seq<TrackRecord>, nextId: int, dets: seq<Detection>,
                             predict: Box -> Box, solver: Solver,
                             s3: seq<TrackRecord>, high: seq<Detection>, newDets: seq<int>)
  {
    && SolverSound(solver)
    && var st := RunStages(cfg, r0, nextId, dets, predict, solver);
       s3 == st.updated && high == st.high && newDets == st.first.unmatchedDets
  }

  /** Prediction, stage 1, stage 2 and mark_lost in sequence give the stage values of one update. */
  lemma AssociateComposes(cfg: TrackerConfig, r0: seq<TrackRecord>, nextId: int, dets: seq<Detection>,
                          predict: Box -> Box, solver: Solver, high: seq<Detection>, m1: Matching,
                          s1: seq<TrackRecord>, low: seq<Detection>, unmatched: seq<int>,
                          s2: seq<TrackRecord>, s3: seq<TrackRecord>)
    requires SolverSound(solver)
    requires high == HighDets(dets, cfg.trackThresh) && low == LowDets(dets, cfg.lowThresh, cfg.trackThresh)
    requires Admissible(Boxes(Predicted(r0, predict)), high, solver)
    requires m1 == MatchSpec(Boxes(Predicted(r0, predict)), high, cfg.matchThresh, solver)
    requires s1 == ApplyUpdates(Predicted(r0, predict), StageOne(m1.matches, high))
    requires var two := SecondStage(s1, m1.unmatchedTracks, low, cfg.matchThresh, solver);
      s2 == ApplyUpdates(s1, two.0) && unmatched == two.1 && s3 == MarkLostAll(s2, two.1)
    ensures Associated(cfg, r0, nextId, dets, predict, solver, s3, high, m1.unmatchedDets)
  {
    RunStagesParts(cfg, r0, nextId, dets, predict, solver);
  }

  /** Births, eviction and the results loop after the association stages give one frame. */
  lemma FrameComposes(cfg: TrackerConfig, r0: seq<TrackRecord>, nextId: int, dets: seq<Detection>,
                      predict: Box -> Box, solver: Solver, high: seq<Detection>, newDets: seq<int>,
                      s3: seq<TrackRecord>, s5: seq<TrackRecord>, out: seq<TrackedObject>)
    requires Associated(cfg, r0, nextId, dets, predict, solver, s3, high, newDets)
    requires forall k :: 0 <= k < |newDets| ==> 0 <= newDets[k] < |high|
    requires s5 == Evict(s3 + Births(nextId, high, newDets), cfg.trackBuffer) && out == Emit(s5)
    requires WellFormed(r0, nextId) && nextId >= 1
    ensures var r := Frame(cfg, r0, nextId, dets, predict, solver);
      && s5 == r.tracks && nextId + |newDets| == r.nextId && out == r.output
      && WellFormed(s5, nextId + |newDets|)
  {
    RunStagesParts(cfg, r0, nextId, dets, predict, solver);
    FrameWellFormed(cfg, r0, nextId, dets, predict, solver);
  }

  class ByteTracker {
    const config: TrackerConfig
    var tracks: seq<Track>
    var nextId: int

    ghost function Records(): seq<TrackRecord>
      reads this, tracks
    {
      RecordsOf(tracks)
    }

    ghost predicate Valid()
      reads this, tracks
    {
      WellFormed(Records(), nextId) && nextId >= 1
    }

    /** A tracker with no tracks whose first id is 1. */
    constructor(cfg: TrackerConfig)
      ensures config == cfg && tracks == [] && nextId == 1 && Valid()
    {
      config := cfg;
      tracks := [];
      nextId := 1;
    }

    /** update(detections): one frame of the ByteTrack lifecycle. */
    method Update(dets: seq<Detection>, predict: Box -> Box, solver: Solver) returns (out: seq<TrackedObject>)
      requires Valid() && SolverSound(solver)
      modifies this, tracks
      ensures Valid()
      ensures var r := Frame(config, old(Records()), old(nextId), dets, predict, solver);
        Records() == r.tracks && nextId == r.nextId && out == r.output
    {
      var high, newDets := Associate(dets, predict, solver);
      ghost var s3 := Records();
      out := Conclude(high, newDets);
      FrameComposes(config, old(Records()), old(nextId), dets, predict, solver, high, newDets, s3, Records(), out);
    }

    /** Births, eviction and the results: the new tracks are appended, the tracks lost for
        track_buffer frames or more dropped, and the rows of the tracks seen this frame
        returned. */
    method Conclude(high: seq<Detection>, newDets: seq<int>) returns (out: seq<TrackedObject>)
      requires forall k :: 0 <= k < |newDets| ==> 0 <= newDets[k] < |high|
      modifies this
      ensures Records() == Evict(old(Records()) + Births(old(nextId), high, newDets), config.trackBuffer)
      ensures nextId == old(nextId) + |newDets| && out == Emit(Records())
    {
      AddBirths(high, newDets);
      EvictLost();
      out := Results();
    }

    /** Prediction and the two association stages, up to marking the unmatched tracks lost;
        returns the high-confidence detections and those of them left for births. */
    method Associate(dets: seq<Detection>, predict: Box -> Box, solver: Solver)
      returns (high: seq<Detection>, newDets: seq<int>)
      requires IdsAscending(Records()) && SolverSound(solver)
      modifies tracks
      ensures Associated(config, old(Records()), old(nextId), dets, predict, solver, Records(), high, newDets)
      ensures forall k :: 0 <= k < |newDets| ==> 0 <= newDets[k] < |high|
    {
      ghost var r0 := Records();
      AscendingDistinct(tracks);
      var m1;
      high, m1 := FirstAssociation(dets, predict, solver);
      ghost var s1 := Records();
      var low := LowDets(dets, config.lowThresh, config.trackThresh);
      var unmatched := SecondAssociation(m1.unmatchedTracks, low, solver);
      ghost var s2 := Records();
      MarkLostAll(unmatched);
      AssociateComposes(config, r0, nextId, dets, predict, solver, high, m1, s1, low, unmatched, s2, Records());
      newDets := m1.unmatchedDets;
    }

    /** Prediction and stage 1: every track predicted, then the tracks matched to
        high-confidence detections updated. */
    method FirstAssociation(dets: seq<Detection>, predict: Box -> Box, solver: Solver)
      returns (high: seq<Detection>, m1: Matching)
      requires Distinct(tracks) && SolverSound(solver)
      modifies tracks
      ensures high == HighDets(dets, config.trackThresh)
      ensures var p := Predicted(old(Records()), predict);
        && Admissible(Boxes(p), high, solver)
        && m1 == MatchSpec(Boxes(p), high, config.matchThresh, solver)
        && Records() == ApplyUpdates(p, StageOne(m1.matches, high))
      ensures forall k :: 0 <= k < |m1.unmatchedDets| ==> 0 <= m1.unmatchedDets[k] < |high|
    {
      PredictAll(predict);
      high := HighDets(dets, config.trackThresh);
      var boxes := BoxesOf(tracks);
      SolverSoundAdmissible(boxes, high, solver);
      m1 := Match(boxes, high, config.matchThresh, solver);
      ApplyStageOne(m1.matches, high);
    }

    /** Stage 2: the remaining tracks against the low-confidence detections; returns the
        tracks still unmatched. */
    method SecondAssociation(u: seq<int>, low: seq<Detection>, solver: Solver) returns (unmatched: seq<int>)
      requires Distinct(tracks) && SolverSound(solver)
      requires StrictlyIncreasing(u) && forall k :: 0 <= k < |u| ==> 0 <= u[k] < |tracks|
      modifies tracks
      ensures var two := SecondStage(old(Records()), u, low, config.matchThresh, solver);
        Records() == ApplyUpdates(old(Records()), two.0) && unmatched == two.1
    {
      ghost var r0 := Records();
      ghost var two := SecondStage(r0, u, low, config.matchThresh, solver);
      SecondStageParts(r0, u, low, config.matchThresh, solver);
      unmatched := u;
      if |u| > 0 && |low| > 0 {
        var remaining := BoxesAt(u);
        var m2 := Match(remaining, low, config.matchThresh, solver);
        unmatched := ApplyStageTwo(u, m2.matches, low);
        assert two == (StageTwo(u, m2.matches, low), StageTwoRest(u, m2.matches));
      } else {
        assert two == ([], u);
        assert ApplyUpdates(r0, []) == r0;
      }
    }

    /** The prediction loop. */
    method PredictAll(predict: Box -> Box)
      requires Distinct(tracks)
      modifies tracks
      ensures Records() == Predicted(old(Records()), predict)
    {
      var i := 0;
      while i < |tracks|
        invariant 0 <= i <= |tracks|
        invariant forall k :: 0 <= k < i ==> tracks[k].Record() == old(tracks[k].Record()).(box := predict(old(tracks[k].box)))
        invariant forall k :: i <= k < |tracks| ==> tracks[k].Record() == old(tracks[k].Record())
      {
        tracks[i].Predict(predict);
        i := i + 1;
      }
    }

    /** The track boxes handed to _match. */
    static method BoxesOf(ts: seq<Track>) returns (bs: seq<Box>)
      ensures bs == Boxes(RecordsOf(ts))
    {
      bs := [];
      var i := 0;
      while i < |ts|
        invariant 0 <= i <= |ts| && |bs| == i
        invariant forall k :: 0 <= k < i ==> bs[k] == ts[k].box
      {
        bs := bs + [ts[i].box];
        i := i + 1;
      }
    }

    /** The boxes of remaining_tracks = [self.tracks[i] for i in unmatched_tracks]. */
    method BoxesAt(idx: seq<int>) returns (bs: seq<Box>)
      requires forall k :: 0 <= k < |idx| ==> 0 <= idx[k] < |tracks|
      ensures bs == Boxes(Select(Records(), idx))
    {
      bs := [];
      var i := 0;
      while i < |idx|
        invariant 0 <= i <= |idx| && |bs| == i
        invariant forall k :: 0 <= k < i ==> bs[k] == tracks[idx[k]].box
      {
        bs := bs + [tracks[idx[i]].box];
        i := i + 1;
      }
    }

    /** One track updated in place; every other track keeps its state. */
    method UpdateAt(t: int, d: Detection)
      requires Distinct(tracks) && 0 <= t < |tracks|
      modifies tracks[t]
      ensures Records() == old(Records())[t := Updated(old(Records())[t], d)]
    {
      tracks[t].Update(d);
    }

    /** The stage-1 update loop over the kept pairs. */
    method ApplyStageOne(ms: seq<Pair>, high: seq<Detection>)
      requires Distinct(tracks) && PairsInRange(ms, |tracks|, |high|)
      modifies tracks
      ensures Records() == ApplyUpdates(old(Records()), StageOne(ms, high))
    {
      ghost var ups := StageOne(ms, high);
      var k := 0;
      while k < |ms|
        invariant 0 <= k <= |ms|
        invariant Records() == ApplyUpdates(old(Records()), ups[..k])
      {
        assert ups[..k + 1][..k] == ups[..k];
        UpdateAt(ms[k].0, high[ms[k].1]);
        k := k + 1;
      }
      assert ups[..k] == ups;
    }

    /** The stage-2 update loop with the intended attribution: local row r denotes
        unmatched[r] of the list the remaining tracks were built from; each updated track is
        then removed from the shrinking unmatched list. */
    method ApplyStageTwo(u: seq<int>, ms: seq<Pair>, low: seq<Detection>) returns (unmatched: seq<int>)
      requires Distinct(tracks) && StrictlyIncreasing(u) && (forall k :: 0 <= k < |u| ==> 0 <= u[k] < |tracks|)
      requires PairsInRange(ms, |u|, |low|) && Injective(ms)
      modifies tracks
      ensures TargetsIn(StageTwo(u, ms, low), |old(Records())|)
      ensures Records() == ApplyUpdates(old(Records()), StageTwo(u, ms, low))
      ensures unmatched == StageTwoRest(u, ms)
    {
      ghost var r0 := Records();
      ghost var ups := StageTwo(u, ms, low);
      unmatched := u;
      WithoutNothing(u);
      assert Attributed(u, ms[..0]) == {};
      var k := 0;
      while k < |ms|
        invariant 0 <= k <= |ms| && |Records()| == |r0|
        invariant Records() == ApplyUpdates(r0, ups[..k])
        invariant unmatched == Without(u, Attributed(u, ms[..k]))
      {
        StageTwoStep(r0, u, ms, low, k);
        UpdateAt(u[ms[k].0], low[ms[k].1]);
        unmatched := RemoveFirst(unmatched, u[ms[k].0]);
        k := k + 1;
      }
      assert ups[..k] == ups && ms[..k] == ms;
    }

    /** The loop marking the still unmatched tracks lost. */
    method MarkLostAll(idx: seq<int>)
      requires Distinct(tracks) && forall k :: 0 <= k < |idx| ==> 0 <= idx[k] < |tracks|
      modifies tracks
      ensures Records() == Lifecycle.MarkLostAll(old(Records()), idx)
    {
      var k := 0;
      while k < |idx|
        invariant 0 <= k <= |idx|
        invariant Records() == Lifecycle.MarkLostAll(old(Records()), idx[..k])
      {
        assert idx[..k + 1][..k] == idx[..k];
        tracks[idx[k]].MarkLost();
        k := k + 1;
      }
      assert idx[..k] == idx;
    }

    /** The birth loop: one new track per stage-1-unmatched high detection. */
    method AddBirths(high: seq<Detection>, idx: seq<int>)
      requires forall k :: 0 <= k < |idx| ==> 0 <= idx[k] < |high|
      modifies this
      ensures Records() == old(Records()) + Births(old(nextId), high, idx)
      ensures nextId == old(nextId) + |idx|
    {
      var born := NewTracks(nextId, high, idx);
      RecordsOfAppend(tracks, born);
      tracks := tracks + born;
      nextId := nextId + |idx|;
    }

    /** One new track per index, with consecutive ids from firstId. */
    static method NewTracks(firstId: int, high: seq<Detection>, idx: seq<int>) returns (born: seq<Track>)
      requires forall k :: 0 <= k < |idx| ==> 0 <= idx[k] < |high|
      ensures forall t :: t in born ==> fresh(t)
      ensures RecordsOf(born) == Births(firstId, high, idx)
    {
      born := [];
      var k := 0;
      while k < |idx|
        invariant 0 <= k <= |idx|
        invariant forall t :: t in born ==> fresh(t)
        invariant RecordsOf(born) == Births(firstId, high, idx[..k])
      {
        var det := high[idx[k]];
        var t := new Track(firstId + k, det.box, det.conf);
        RecordsOfSnoc(born, t);
        BirthsSnoc(firstId, high, idx, k);
        born := born + [t];
        k := k + 1;
      }
      assert idx[..k] == idx;
    }

    /** self.tracks = [t for t in self.tracks if t.lost_frames < self.track_buffer] */
    method EvictLost()
      modifies this
      ensures Records() == Evict(old(Records()), config.trackBuffer)
      ensures nextId == old(nextId)
    {
      tracks := KeepFresh(tracks, config.trackBuffer);
    }

    /** The tracks with fewer than trackBuffer lost frames, in order. */
    static method KeepFresh(ts: seq<Track>, trackBuffer: int) returns (kept: seq<Track>)
      ensures RecordsOf(kept) == Evict(RecordsOf(ts), trackBuffer)
    {
      ghost var r := RecordsOf(ts);
      kept := [];
      var i := 0;
      while i < |ts|
        invariant 0 <= i <= |ts|
        invariant RecordsOf(kept) == Evict(r[..i], trackBuffer)
      {
        assert r[..i + 1][..i] == r[..i];
        if ts[i].lostFrames < trackBuffer {
          RecordsOfSnoc(kept, ts[i]);
          kept := kept + [ts[i]];
        }
        i := i + 1;
      }
      assert r[..i] == r;
    }

    /** The results loop: a row for every track with no lost frames. */
    method Results() returns (out: seq<TrackedObject>)
      ensures out == Emit(Records())
    {
      ghost var r := Records();
      out := [];
      var i := 0;
      while i < |tracks|
        invariant 0 <= i <= |tracks|
        invariant out == Emit(r[..i])
      {
        assert r[..i + 1][..i] == r[..i];
        if tracks[i].lostFrames == 0 {
          out := out + [TrackedObject(tracks[i].box, tracks[i].id, tracks[i].conf)];
        }
        i := i + 1;
      }
      assert r[..i] == r;
    }
  }
}

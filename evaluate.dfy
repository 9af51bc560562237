/** The offline evaluation counters: greedy per-frame matching of predicted boxes against
    ground-truth boxes (detection TP/FP/FN and the derived ratios) and of ground-truth objects
    against tracker output (identity switches and fragmentations). A frame file is a map from
    frame number to the objects of that frame, each with an id and a box. */
module Evaluate {
  import opened Geometry
  import opened Lists

  /** One parsed row: the object's id and its box [x, y, x + w, y + h]. */
  datatype Labeled = Labeled(id: int, box: Box)

  type FrameMap = map<int, seq<Labeled>>

  /** data.get(frame_id, []) */
  function Get(data: FrameMap, frame: int): seq<Labeled> {
    if frame in data then data[frame] else []
  }

  /** The index set {0, ..., n - 1}. */
  function Indices(n: nat): (r: set<int>)
    ensures forall x :: x in r <==> 0 <= x < n
    ensures |r| == n
  {
    if n == 0 then {} else Indices(n - 1) + {n - 1}
  }

  // ---------------------------------------------------------------------------
  // eval_detection

  /** max([calculate_iou(d, g) for g in gts] + [0]) */
  function BestIou(d: Box, gts: seq<Labeled>): (r: real)
    ensures r >= 0.0
    ensures forall j :: 0 <= j < |gts| ==> Iou(d, gts[j].box) <= r
    ensures r == 0.0 || exists j :: 0 <= j < |gts| && Iou(d, gts[j].box) == r
  {
    if gts == [] then 0.0
    else
      var init := gts[..|gts| - 1];
      var b := BestIou(d, init);
      assert forall j :: 0 <= j < |init| ==> init[j] == gts[j];
      Max(b, Iou(d, gts[|gts| - 1].box))
  }

  /** The inner loop from index j on: the first ground-truth index not yet matched whose IoU
      equals best is added to matched, and the loop stops. */
  function Claim(d: Box, gts: seq<Labeled>, matched: set<int>, best: real, j: nat): (r: set<int>)
    requires j <= |gts|
    ensures matched <= r && |r| <= |matched| + 1
    ensures forall i :: i in r && i !in matched ==> j <= i < |gts|
    decreases |gts| - j
  {
    if j == |gts| then matched
    else if j !in matched && Iou(d, gts[j].box) == best then matched + {j}
    else Claim(d, gts, matched, best, j + 1)
  }

  /** The true and false positives of one frame and the ground-truth indices matched. */
  datatype FrameCount = FrameCount(tp: nat, fp: nat, matched: set<int>)

  /** One predicted box: a true positive when its best IoU reaches the threshold (and then a
      ground-truth index with that IoU is claimed, if one is still free), a false positive
      otherwise. */
  function DetectStep(gts: seq<Labeled>, iouThresh: real, c: FrameCount, d: Box): FrameCount {
    var best := BestIou(d, gts);
    if best >= iouThresh then FrameCount(c.tp + 1, c.fp, Claim(d, gts, c.matched, best, 0))
    else FrameCount(c.tp, c.fp + 1, c.matched)
  }

  /** The loop over the predicted boxes of one frame. */
  function FrameDetection(gts: seq<Labeled>, dets: seq<Labeled>, iouThresh: real): (r: FrameCount)
    ensures r.tp + r.fp == |dets|
    ensures |r.matched| <= r.tp
    ensures forall i :: i in r.matched ==> 0 <= i < |gts|
  {
    if dets == [] then FrameCount(0, 0, {})
    else DetectStep(gts, iouThresh, FrameDetection(gts, dets[..|dets| - 1], iouThresh), dets[|dets| - 1].box)
  }

  /** Each frame matches at most as many ground-truth indices as it has boxes, so the false
      negatives it adds are never negative. */
  lemma MatchedWithinFrame(gts: seq<Labeled>, dets: seq<Labeled>, iouThresh: real)
    ensures |FrameDetection(gts, dets, iouThresh).matched| <= |gts|
  {
    var m := FrameDetection(gts, dets, iouThresh).matched;
    SubsetCard(m, Indices(|gts|));
  }

  datatype Tally = Tally(tp: nat, fp: nat, fn: nat)

  /** The counts accumulated over the given ground-truth frames. */
  function DetectionCounts(gt: FrameMap, det: FrameMap, frames: seq<int>, iouThresh: real): Tally
  {
    if frames == [] then Tally(0, 0, 0)
    else
      var t := DetectionCounts(gt, det, frames[..|frames| - 1], iouThresh);
      var f := frames[|frames| - 1];
      var c := FrameDetection(Get(gt, f), Get(det, f), iouThresh);
      MatchedWithinFrame(Get(gt, f), Get(det, f), iouThresh);
      Tally(t.tp + c.tp, t.fp + c.fp, t.fn + (|Get(gt, f)| - |c.matched|))
  }

  /** The number of predicted boxes in the given frames. */
  function DetectionsIn(det: FrameMap, frames: seq<int>): nat {
    if frames == [] then 0 else DetectionsIn(det, frames[..|frames| - 1]) + |Get(det, frames[|frames| - 1])|
  }

  /** Every predicted box of a ground-truth frame is either a true or a false positive. */
  lemma {:induction false} DetectionTpFp(gt: FrameMap, det: FrameMap, frames: seq<int>, iouThresh: real)
    ensures var t := DetectionCounts(gt, det, frames, iouThresh); t.tp + t.fp == DetectionsIn(det, frames)
  {
    if frames != [] {
      DetectionTpFp(gt, det, frames[..|frames| - 1], iouThresh);
    }
  }

  /** Predicted frames that are not visited do not affect the counts. */
  lemma {:induction false} DetectionIgnoresOtherFrames(gt: FrameMap, det: FrameMap, det': FrameMap,
                                                      frames: seq<int>, iouThresh: real)
    requires forall k :: 0 <= k < |frames| ==> Get(det, frames[k]) == Get(det', frames[k])
    ensures DetectionCounts(gt, det, frames, iouThresh) == DetectionCounts(gt, det', frames, iouThresh)
  {
    if frames != [] {
      DetectionIgnoresOtherFrames(gt, det, det', frames[..|frames| - 1], iouThresh);
    }
  }

  /** With a positive threshold, a frame without ground-truth boxes makes every predicted box
      a false positive (the best IoU defaults to 0). */
  lemma {:induction false} NoGroundTruthAllFalse(dets: seq<Labeled>, iouThresh: real)
    requires iouThresh > 0.0
    ensures FrameDetection([], dets, iouThresh) == FrameCount(0, |dets|, {})
  {
    if dets != [] {
      NoGroundTruthAllFalse(dets[..|dets| - 1], iouThresh);
    }
  }

  datatype DetMetrics = DetMetrics(precision: real, recall: real, f1: real, tp: nat, fp: nat, fn: nat)

  /** The harmonic mean of two ratios is a ratio, and it is 0 exactly when one of them is. */
  lemma F1Bound(p: real, r: real)
    requires 0.0 <= p <= 1.0 && 0.0 <= r <= 1.0 && p + r > 0.0
    ensures 0.0 <= 2.0 * p * r / (p + r) <= 1.0
    ensures 2.0 * p * r / (p + r) == 0.0 <==> p == 0.0 || r == 0.0
  {
    F1Numerator(p, r);
    DivUnit(2.0 * p * r, p + r);
    var f := 2.0 * p * r / (p + r);
    assert f * (p + r) == 2.0 * p * r;
    if f == 0.0 {
      assert 2.0 * p * r == 0.0;
      assert p * r == 0.0;
    } else {
      assert p != 0.0 && r != 0.0;
    }
  }

  /** 2pr lies between 0 and p + r for ratios p and r. */
  lemma F1Numerator(p: real, r: real)
    requires 0.0 <= p <= 1.0 && 0.0 <= r <= 1.0
    ensures 0.0 <= 2.0 * p * r <= p + r
  {
    MulLeOne(r, p);
    MulLeOne(p, r);
    assert 0.0 <= p * r <= p;
    assert p * r <= r;
    Double(p, r);
    AddLe(p * r, p * r, p, r);
  }

  lemma MulLeOne(a: real, b: real)
    requires 0.0 <= a <= 1.0 && 0.0 <= b
    ensures 0.0 <= a * b <= b && b * a <= b
  {
  }

  lemma Double(p: real, r: real)
    ensures 2.0 * p * r == p * r + p * r
  {
  }

  lemma AddLe(a: real, b: real, c: real, d: real)
    requires a <= c && b <= d
    ensures a + b <= c + d
  {
  }

  /** part / (part + rest), or 0 when the denominator is 0. */
  function Ratio(part: nat, rest: nat): (r: real)
    ensures part + rest == 0 ==> r == 0.0
    ensures 0.0 <= r <= 1.0
    ensures r == 0.0 <==> part == 0
    ensures rest == 0 && part > 0 ==> r == 1.0
  {
    if part + rest > 0 then
      DivUnit(part as real, (part + rest) as real);
      part as real / (part + rest) as real
    else 0.0
  }

  /** The harmonic mean 2pr / (p + r), or 0 when p + r is 0. */
  function F1(p: real, r: real): (f: real)
    requires 0.0 <= p <= 1.0 && 0.0 <= r <= 1.0
    ensures 0.0 <= f <= 1.0
    ensures f == 0.0 <==> p == 0.0 || r == 0.0
  {
    if p + r > 0.0 then
      F1Bound(p, r);
      2.0 * p * r / (p + r)
    else 0.0
  }

  /** precision, recall and F1, each 0 when its denominator is 0. */
  function Metrics(t: Tally): (m: DetMetrics)
    ensures m.tp == t.tp && m.fp == t.fp && m.fn == t.fn
    ensures t.tp + t.fp == 0 ==> m.precision == 0.0
    ensures t.tp + t.fn == 0 ==> m.recall == 0.0
    ensures t.tp > 0 && t.fp == 0 ==> m.precision == 1.0
    ensures t.tp > 0 && t.fn == 0 ==> m.recall == 1.0
    ensures m.f1 == 0.0 <==> t.tp == 0
    ensures 0.0 <= m.precision <= 1.0 && 0.0 <= m.recall <= 1.0 && 0.0 <= m.f1 <= 1.0
  {
    var precision := Ratio(t.tp, t.fp);
    var recall := Ratio(t.tp, t.fn);
    DetMetrics(precision, recall, F1(precision, recall), t.tp, t.fp, t.fn)
  }

  /** The best IoU of a predicted box: the maximum over the ground-truth boxes and 0. */
  method MaxIou(d: Box, gts: seq<Labeled>) returns (best: real)
    ensures best == BestIou(d, gts)
  {
    best := 0.0;
    for j := 0 to |gts|
      invariant best == BestIou(d, gts[..j])
    {
      assert gts[..j + 1][..j] == gts[..j];
      best := Max(best, Iou(d, gts[j].box));
    }
    assert gts[..|gts|] == gts;
  }

  /** for j, gt_box in enumerate(gt_boxes): ... matched_gt.add(j); break */
  method ClaimFirst(d: Box, gts: seq<Labeled>, matched: set<int>, best: real) returns (r: set<int>)
    ensures r == Claim(d, gts, matched, best, 0)
  {
    var j := 0;
    while j < |gts|
      invariant 0 <= j <= |gts|
      invariant Claim(d, gts, matched, best, j) == Claim(d, gts, matched, best, 0)
    {
      if j !in matched && Iou(d, gts[j].box) == best {
        return matched + {j};
      }
      j := j + 1;
    }
    return matched;
  }

  /** The loop over the predicted boxes of one frame. */
  method DetectFrame(gts: seq<Labeled>, dets: seq<Labeled>, iouThresh: real) returns (tp: nat, fp: nat, matched: set<int>)
    ensures FrameCount(tp, fp, matched) == FrameDetection(gts, dets, iouThresh)
  {
    tp, fp, matched := 0, 0, {};
    for k := 0 to |dets|
      invariant FrameCount(tp, fp, matched) == FrameDetection(gts, dets[..k], iouThresh)
    {
      assert dets[..k + 1][..k] == dets[..k];
      var best := MaxIou(dets[k].box, gts);
      if best >= iouThresh {
        tp := tp + 1;
        matched := ClaimFirst(dets[k].box, gts, matched, best);
      } else {
        fp := fp + 1;
      }
    }
    assert dets[..|dets|] == dets;
  }

  /** The loop over the ground-truth frames, accumulating the counts. */
  method DetectionTotals(gt: FrameMap, det: FrameMap, frames: seq<int>, iouThresh: real) returns (t: Tally)
    ensures t == DetectionCounts(gt, det, frames, iouThresh)
  {
    var tp: nat, fp: nat, fn: nat := 0, 0, 0;
    for i := 0 to |frames|
      invariant Tally(tp, fp, fn) == DetectionCounts(gt, det, frames[..i], iouThresh)
    {
      assert frames[..i + 1][..i] == frames[..i];
      var f := frames[i];
      var gts := if f in gt then gt[f] else [];
      var dets := if f in det then det[f] else [];
      var ftp, ffp, matched := DetectFrame(gts, dets, iouThresh);
      MatchedWithinFrame(gts, dets, iouThresh);
      tp := tp + ftp;
      fp := fp + ffp;
      fn := fn + (|gts| - |matched|);
    }
    assert frames[..|frames|] == frames;
    t := Tally(tp, fp, fn);
  }

  /** eval_detection: the counts over the ground-truth frames, then the ratios. */
  method EvalDetection(gt: FrameMap, det: FrameMap, iouThresh: real) returns (m: DetMetrics)
    ensures m == Metrics(DetectionCounts(gt, det, Ascending(gt.Keys), iouThresh))
  {
    var frames := SortedKeys(gt.Keys);
    var t := DetectionTotals(gt, det, frames, iouThresh);
    m := Metrics(t);
  }

  // ---------------------------------------------------------------------------
  // eval_tracking

  /** best_iou and best_pred = (j, pred id) after the loop over the predictions. */
  datatype Best = Best(iou: real, pred: Option<(int, int)>)

  /** The loop over the unmatched predictions of a frame for one ground-truth box: a
      prediction replaces the current best only when its IoU is strictly greater. */
  function Scan(g: Box, preds: seq<Labeled>, matched: set<int>): (r: Best)
    ensures r.iou >= 0.0
    ensures r.pred.Some? ==>
      0 <= r.pred.value.0 < |preds| && r.pred.value.0 !in matched && r.pred.value.1 == preds[r.pred.value.0].id
  {
    if preds == [] then Best(0.0, None)
    else
      var b := Scan(g, preds[..|preds| - 1], matched);
      var j := |preds| - 1;
      if j !in matched && Iou(g, preds[j].box) > b.iou then Best(Iou(g, preds[j].box), Some((j, preds[j].id)))
      else b
  }

  /** The chosen prediction is the first unmatched one with the strictly greatest IoU, and
      there is none exactly when no unmatched prediction has a positive IoU. */
  lemma {:induction false} ScanFirstBest(g: Box, preds: seq<Labeled>, matched: set<int>)
    ensures var r := Scan(g, preds, matched);
      && (r.pred.None? <==> forall k :: 0 <= k < |preds| && k !in matched ==> Iou(g, preds[k].box) <= 0.0)
      && (r.pred.None? ==> r.iou == 0.0)
      && (r.pred.Some? ==>
            var j := r.pred.value.0;
            && Iou(g, preds[j].box) == r.iou > 0.0
            && (forall k :: 0 <= k < j && k !in matched ==> Iou(g, preds[k].box) < r.iou)
            && (forall k :: j < k < |preds| && k !in matched ==> Iou(g, preds[k].box) <= r.iou))
  {
    if preds != [] {
      var init := preds[..|preds| - 1];
      ScanFirstBest(g, init, matched);
      assert forall k :: 0 <= k < |init| ==> init[k] == preds[k];
    }
  }

  /** The tracking state: the two counters, gt_to_pred (every list holds the prediction ids
      a ground-truth id was matched to, in order) and last_seen. */
  datatype TrackEval = TrackEval(idSwitches: nat, fragmentations: nat,
                                 gtToPred: map<int, seq<int>>, lastSeen: map<int, int>)

  /** gt_to_pred gains a key only by an append, so no list in it is empty. */
  predicate HistoriesNonEmpty(st: TrackEval) {
    forall g :: g in st.gtToPred ==> st.gtToPred[g] != []
  }

  function Last(s: seq<int>): int
    requires s != []
  {
    s[|s| - 1]
  }

  /** A ground-truth object matched to a prediction in a frame: an identity switch when the
      id was matched before to another prediction id, a fragmentation when it was last matched
      more than one frame ago; then the histories are updated. */
  function Record(st: TrackEval, frame: int, gtId: int, predId: int): (r: TrackEval)
    requires HistoriesNonEmpty(st)
    ensures HistoriesNonEmpty(r)
    ensures r.gtToPred.Keys == st.gtToPred.Keys + {gtId} && r.lastSeen.Keys == st.lastSeen.Keys + {gtId}
    ensures Last(r.gtToPred[gtId]) == predId && r.lastSeen[gtId] == frame
  {
    var switched := gtId in st.gtToPred && Last(st.gtToPred[gtId]) != predId;
    var fragmented := gtId in st.lastSeen && frame - st.lastSeen[gtId] > 1;
    var history := (if gtId in st.gtToPred then st.gtToPred[gtId] else []) + [predId];
    TrackEval(st.idSwitches + (if switched then 1 else 0),
              st.fragmentations + (if fragmented then 1 else 0),
              st.gtToPred[gtId := history], st.lastSeen[gtId := frame])
  }

  /** An identity switch is counted exactly when the id was matched before and its last
      matched prediction id differs; a fragmentation exactly when the gap since its last
      matched frame exceeds 1. Each counter rises by at most 1. */
  lemma CountingRules(st: TrackEval, frame: int, gtId: int, predId: int)
    requires HistoriesNonEmpty(st)
    ensures var r := Record(st, frame, gtId, predId);
      && (r.idSwitches == st.idSwitches + 1 <==> gtId in st.gtToPred && Last(st.gtToPred[gtId]) != predId)
      && (r.idSwitches == st.idSwitches || r.idSwitches == st.idSwitches + 1)
      && (r.fragmentations == st.fragmentations + 1 <==> gtId in st.lastSeen && frame - st.lastSeen[gtId] > 1)
      && (r.fragmentations == st.fragmentations || r.fragmentations == st.fragmentations + 1)
  {
  }

  /** The state of one frame: the tracking state, the matched prediction indices and, for the
      proofs, the prediction indices chosen in order. */
  datatype FrameState = FrameState(st: TrackEval, matched: set<int>, picks: seq<int>)

  /** One ground-truth object of a frame. */
  function MatchGt(fs: FrameState, frame: int, g: Labeled, preds: seq<Labeled>, iouThresh: real): (r: FrameState)
    requires HistoriesNonEmpty(fs.st)
    ensures HistoriesNonEmpty(r.st)
  {
    var b := Scan(g.box, preds, fs.matched);
    if b.iou >= iouThresh && b.pred.Some? then
      FrameState(Record(fs.st, frame, g.id, b.pred.value.1), fs.matched + {b.pred.value.0}, fs.picks + [b.pred.value.0])
    else fs
  }

  /** The loop over the ground-truth objects of one frame, starting with no prediction matched. */
  function FrameTracking(st: TrackEval, frame: int, gts: seq<Labeled>, preds: seq<Labeled>, iouThresh: real): (r: FrameState)
    requires HistoriesNonEmpty(st)
    ensures HistoriesNonEmpty(r.st)
  {
    if gts == [] then FrameState(st, {}, [])
    else MatchGt(FrameTracking(st, frame, gts[..|gts| - 1], preds, iouThresh), frame, gts[|gts| - 1], preds, iouThresh)
  }

  /** Within a frame every prediction index is matched to at most one ground-truth object:
      the chosen indices are distinct, in range, and exactly the matched set. */
  lemma {:induction false} FramePicksDistinct(st: TrackEval, frame: int, gts: seq<Labeled>, preds: seq<Labeled>, iouThresh: real)
    requires HistoriesNonEmpty(st)
    ensures var fs := FrameTracking(st, frame, gts, preds, iouThresh);
      && (forall a, b :: 0 <= a < b < |fs.picks| ==> fs.picks[a] != fs.picks[b])
      && (forall p :: p in fs.picks <==> p in fs.matched)
      && (forall a :: 0 <= a < |fs.picks| ==> 0 <= fs.picks[a] < |preds|)
      && |fs.picks| <= |gts|
  {
    if gts != [] {
      FramePicksDistinct(st, frame, gts[..|gts| - 1], preds, iouThresh);
    }
  }

  /** One frame raises each counter by at most the number of its ground-truth objects. */
  lemma {:induction false} FrameCountersBounded(st: TrackEval, frame: int, gts: seq<Labeled>, preds: seq<Labeled>, iouThresh: real)
    requires HistoriesNonEmpty(st)
    ensures var r := FrameTracking(st, frame, gts, preds, iouThresh).st;
      && st.idSwitches <= r.idSwitches <= st.idSwitches + |gts|
      && st.fragmentations <= r.fragmentations <= st.fragmentations + |gts|
  {
    if gts != [] {
      var fs := FrameTracking(st, frame, gts[..|gts| - 1], preds, iouThresh);
      FrameCountersBounded(st, frame, gts[..|gts| - 1], preds, iouThresh);
      var b := Scan(gts[|gts| - 1].box, preds, fs.matched);
      if b.iou >= iouThresh && b.pred.Some? {
        CountingRules(fs.st, frame, gts[|gts| - 1].id, b.pred.value.1);
      }
    }
  }

  /** Only ids seen in this frame get a new last_seen, and it is this frame. */
  lemma {:induction false} FrameLastSeen(st: TrackEval, frame: int, gts: seq<Labeled>, preds: seq<Labeled>, iouThresh: real)
    requires HistoriesNonEmpty(st)
    ensures var r := FrameTracking(st, frame, gts, preds, iouThresh).st;
      forall g :: g in r.lastSeen ==> (g in st.lastSeen && r.lastSeen[g] == st.lastSeen[g]) || r.lastSeen[g] == frame
  {
    if gts != [] {
      FrameLastSeen(st, frame, gts[..|gts| - 1], preds, iouThresh);
    }
  }

  const Start: TrackEval := TrackEval(0, 0, map[], map[])

  /** The loop over the ground-truth frames, in the given order. */
  function TrackingCounts(gt: FrameMap, pred: FrameMap, frames: seq<int>, iouThresh: real): (r: TrackEval)
    ensures HistoriesNonEmpty(r)
  {
    if frames == [] then Start
    else
      var f := frames[|frames| - 1];
      FrameTracking(TrackingCounts(gt, pred, frames[..|frames| - 1], iouThresh), f, Get(gt, f), Get(pred, f), iouThresh).st
  }

  /** The number of ground-truth objects in the given frames. */
  function ObjectsIn(gt: FrameMap, frames: seq<int>): nat
  {
    if frames == [] then 0 else ObjectsIn(gt, frames[..|frames| - 1]) + |Get(gt, frames[|frames| - 1])|
  }

  /** Both counters start at 0 and rise by at most one per ground-truth object. */
  lemma {:induction false} TrackingCountersBounded(gt: FrameMap, pred: FrameMap, frames: seq<int>, iouThresh: real)
    ensures var r := TrackingCounts(gt, pred, frames, iouThresh);
      r.idSwitches <= ObjectsIn(gt, frames) && r.fragmentations <= ObjectsIn(gt, frames)
  {
    if frames != [] {
      var init := frames[..|frames| - 1];
      var f := frames[|frames| - 1];
      TrackingCountersBounded(gt, pred, init, iouThresh);
      FrameCountersBounded(TrackingCounts(gt, pred, init, iouThresh), f, Get(gt, f), Get(pred, f), iouThresh);
    }
  }

  /** Every last_seen entry is one of the given frames. */
  predicate SeenIn(st: TrackEval, frames: seq<int>) {
    forall g :: g in st.lastSeen ==> st.lastSeen[g] in frames
  }

  /** Every last_seen entry is a frame already visited. */
  lemma {:induction false} LastSeenVisited(gt: FrameMap, pred: FrameMap, frames: seq<int>, iouThresh: real)
    ensures SeenIn(TrackingCounts(gt, pred, frames, iouThresh), frames)
  {
    if frames != [] {
      var init := frames[..|frames| - 1];
      var f := frames[|frames| - 1];
      LastSeenVisited(gt, pred, init, iouThresh);
      var st := TrackingCounts(gt, pred, init, iouThresh);
      FrameLastSeen(st, f, Get(gt, f), Get(pred, f), iouThresh);
      var r := TrackingCounts(gt, pred, frames, iouThresh);
      forall g | g in r.lastSeen
        ensures r.lastSeen[g] in frames
      {
        if r.lastSeen[g] != f {
          assert g in st.lastSeen && r.lastSeen[g] == st.lastSeen[g];
          assert r.lastSeen[g] in init;
          var k :| 0 <= k < |init| && init[k] == r.lastSeen[g];
          assert frames[k] == init[k];
        } else {
          assert frames[|frames| - 1] == f;
        }
      }
    }
  }

  /** When every visited frame precedes the next one, every last_seen entry lies strictly
      before it: the gap frame - last_seen is at least 1, and exceeds 1 only if frame numbers
      in between had no ground truth (or the object went unmatched there). */
  lemma LastSeenBefore(gt: FrameMap, pred: FrameMap, frames: seq<int>, iouThresh: real, next: int)
    requires forall k :: 0 <= k < |frames| ==> frames[k] < next
    ensures var r := TrackingCounts(gt, pred, frames, iouThresh);
      forall g :: g in r.lastSeen ==> next - r.lastSeen[g] >= 1
  {
    LastSeenVisited(gt, pred, frames, iouThresh);
    var r := TrackingCounts(gt, pred, frames, iouThresh);
    forall g | g in r.lastSeen
      ensures next - r.lastSeen[g] >= 1
    {
      var k :| 0 <= k < |frames| && frames[k] == r.lastSeen[g];
    }
  }

  /** The tracking metrics returned. */
  datatype TrackMetrics = TrackMetrics(idSwitches: nat, fragmentations: nat)

  /** The loop over the predictions for one ground-truth box. */
  method BestPrediction(g: Box, preds: seq<Labeled>, matched: set<int>) returns (bestIou: real, bestPred: Option<(int, int)>)
    ensures Best(bestIou, bestPred) == Scan(g, preds, matched)
  {
    bestIou, bestPred := 0.0, None;
    for j := 0 to |preds|
      invariant Best(bestIou, bestPred) == Scan(g, preds[..j], matched)
    {
      assert preds[..j + 1][..j] == preds[..j];
      if j !in matched {
        var iou := Iou(g, preds[j].box);
        if iou > bestIou {
          bestIou := iou;
          bestPred := Some((j, preds[j].id));
        }
      }
    }
    assert preds[..|preds|] == preds;
  }

  /** The loop over the ground-truth objects of one frame. */
  method TrackFrame(st: TrackEval, frame: int, gts: seq<Labeled>, preds: seq<Labeled>, iouThresh: real)
    returns (r: TrackEval)
    requires HistoriesNonEmpty(st)
    ensures r == FrameTracking(st, frame, gts, preds, iouThresh).st
  {
    var idSwitches, fragmentations, gtToPred, lastSeen := st.idSwitches, st.fragmentations, st.gtToPred, st.lastSeen;
    var matched: set<int> := {};
    ghost var picks: seq<int> := [];
    for i := 0 to |gts|
      invariant FrameState(TrackEval(idSwitches, fragmentations, gtToPred, lastSeen), matched, picks)
        == FrameTracking(st, frame, gts[..i], preds, iouThresh)
    {
      assert gts[..i + 1][..i] == gts[..i];
      var bestIou, bestPred := BestPrediction(gts[i].box, preds, matched);
      if bestIou >= iouThresh && bestPred.Some? {
        var gtId := gts[i].id;
        var predId := bestPred.value.1;
        matched := matched + {bestPred.value.0};
        picks := picks + [bestPred.value.0];
        if gtId in gtToPred && gtToPred[gtId][|gtToPred[gtId]| - 1] != predId {
          idSwitches := idSwitches + 1;
        }
        if gtId in lastSeen && frame - lastSeen[gtId] > 1 {
          fragmentations := fragmentations + 1;
        }
        gtToPred := gtToPred[gtId := (if gtId in gtToPred then gtToPred[gtId] else []) + [predId]];
        lastSeen := lastSeen[gtId := frame];
      }
    }
    assert gts[..|gts|] == gts;
    r := TrackEval(idSwitches, fragmentations, gtToPred, lastSeen);
  }

  /** The loop over the given ground-truth frames. */
  method TrackingTotals(gt: FrameMap, pred: FrameMap, frames: seq<int>, iouThresh: real) returns (st: TrackEval)
    ensures st == TrackingCounts(gt, pred, frames, iouThresh)
  {
    st := TrackEval(0, 0, map[], map[]);
    for i := 0 to |frames|
      invariant st == TrackingCounts(gt, pred, frames[..i], iouThresh)
    {
      assert frames[..i + 1][..i] == frames[..i];
      var f := frames[i];
      var gts := if f in gt then gt[f] else [];
      var preds := if f in pred then pred[f] else [];
      st := TrackFrame(st, f, gts, preds, iouThresh);
    }
    assert frames[..|frames|] == frames;
  }

  /** eval_tracking: the ground-truth frames in ascending order. */
  method EvalTracking(gt: FrameMap, pred: FrameMap, iouThresh: real) returns (m: TrackMetrics)
    ensures var r := TrackingCounts(gt, pred, Ascending(gt.Keys), iouThresh);
      m == TrackMetrics(r.idSwitches, r.fragmentations)
  {
    var frames := SortedKeys(gt.Keys);
    var st := TrackingTotals(gt, pred, frames, iouThresh);
    m := TrackMetrics(st.idSwitches, st.fragmentations);
  }
}

# MOT17 tracking and counting — a Dafny model

This project models the core of a multi-object tracking and line-counting engine. The engine has four parts:

- **ByteTracker.** A ByteTrack-style tracker. Every frame it predicts each track's box, splits the detections into a high-confidence and a low-confidence band, and associates tracks with detections in two stages. Both stages use `_match`: an IoU cost matrix given to an assignment solver, keeping pairs whose cost is below `1 - match_thresh`. Unmatched tracks are marked lost. Unmatched high-confidence detections start new tracks with fresh ids. Tracks lost for `track_buffer` frames are evicted, and the tracks matched this frame are reported.
- **LineCounter.** Follows each reported track's bottom-centre point. It counts a crossing of the virtual line when the segment between the previous and the current point meets the line. The crossing's direction is classified as up, down, left or right. A repeated crossing in the same direction as the last one counted for that track is not counted again (debounce). Tracks that leave the frame are forgotten.
- **Geometry.** The helpers behind both: IoU, box area, centre and bottom centre, and the segment-intersection test.
- **Evaluation.** The offline counters: detection true positives, false positives and false negatives with precision, recall and F1; and tracking identity switches and fragmentations.

Modules:

| module | file | models |
|---|---|---|
| `Geometry` | geometry.dfy | src/utils/geometry.py. The identical copies of `iou`, `line_intersection` and `get_bbox_bottom_center` in src/core/tracker.py and src/core/counter.py are defined once, here. |
| `Lists` | lists.dfy | Index-list helpers: `list(range(n))`, `list.remove`, ascending lists of unmatched indices, and `sorted()` over a set of keys. |
| `Association` | association.dfy | `ByteTracker._match`: the cost matrix, the solver's contract and the threshold filter. |
| `Lifecycle` | lifecycle.dfy | One call of `ByteTracker.update` as pure functions over track records, the properties of a frame, and the stage-2 attribution defect. |
| `Tracker` | tracker.dfy | The classes `Track` and `ByteTracker`. Their methods update fields in place and are proved against `Lifecycle`. |
| `Counter` | counter.dfy | `LineCounter` as a class over `map` fields, proved against a pure per-frame function. |
| `Evaluate` | evaluate.dfy | `eval_detection` and `eval_tracking` as loops proved against recursive functions. |

Boundaries of the model:

- **Kalman filter.** The prediction is a function parameter `predict: Box -> Box` of `ByteTracker.Update`.
- **Assignment solver.** `linear_sum_assignment` is a function parameter `solver`. The model assumes only what `linear_sum_assignment` guarantees (`SolverSound`): for an n×m matrix it returns min(n, m) pairs, in range, with strictly ascending rows and pairwise distinct columns.
- **Arithmetic.**
  - Coordinates and confidences are modelled as `real`, so there is no rounding.
  - `1e-10` is the exact real `0.0000000001`.

## Model

| member | source | states |
|---|---|---|
| Geometry.Max | src/utils/geometry.py:13-14 | The result is an upper bound of both arguments and equals one of them. |
| Geometry.Min | src/utils/geometry.py:15-16 | The result is a lower bound of both arguments and equals one of them. |
| Geometry.Abs | src/utils/geometry.py:61 | The result is non-negative and equals a or -a. |
| Geometry.Area | src/utils/geometry.py:26-28 | A box with x1 < x2 and y1 < y2 has positive area. |
| Geometry.Iou | src/utils/geometry.py:4-23 | IoU is 0 whenever the union is not positive; no division happens then. |
| Geometry.IouSymmetric | src/utils/geometry.py:4-23 | IoU does not depend on the order of its arguments. |
| Geometry.IntersectionSymmetric | src/utils/geometry.py:13-18 | The intersection area does not depend on argument order. |
| Geometry.IntersectionBounded | src/utils/geometry.py:13-20 | For proper boxes, the intersection lies between 0 and the area of either box. |
| Geometry.IouRange | src/utils/geometry.py:4-23 | IoU lies in [0, 1] for every pair of boxes, the range the docstring promises; for proper boxes the union is also positive. |
| Geometry.IouSelf | src/utils/geometry.py:4-23 | A proper box has IoU 1 with itself. |
| Geometry.IouDisjoint | src/utils/geometry.py:13-23 | Boxes whose extents do not overlap on some axis have IoU 0. |
| Geometry.IouPositiveIffOverlap | src/utils/geometry.py:4-23 | For proper boxes, IoU > 0 exactly when their interiors overlap on both axes. |
| Geometry.Center | src/utils/geometry.py:31-35 | The centre is equidistant from opposite edges and lies strictly inside a proper box. |
| Geometry.BottomCenter | src/utils/geometry.py:38-42 | The foot point has the centre's x and the bottom edge's y. |
| Geometry.BottomCenterIgnoresTop | src/core/counter.py:22-26 | Moving the top edge does not move the foot point. |
| Geometry.LineIntersection | src/utils/geometry.py:45-67 | When the determinant's magnitude is below 1e-10 the answer is false. |
| Geometry.CramerIdentity | src/utils/geometry.py:60-65 | The two numerators solve the 2×2 system of the two parametrised segments (Cramer's rule). |
| Geometry.CommonPointScaled | src/utils/geometry.py:60-65 | Any common point's parameters t and u, scaled by the determinant, give the two numerators. |
| Geometry.LineIntersectionSound | src/utils/geometry.py:45-67 | A true answer means the closed segments share a point. |
| Geometry.LineIntersectionComplete | src/utils/geometry.py:45-67 | If the determinant is not near zero and the segments share a point, the answer is true. |
| Geometry.LineIntersectionIff | src/utils/geometry.py:45-67 | Away from the parallel cut-off, the test holds exactly when the segments meet. |
| Geometry.LineIntersectionExample | src/utils/geometry.py:45-67 | A horizontal move across a vertical line is detected as a crossing. |
| Geometry.NoMovementNoCrossing | src/core/counter.py:5-19 | A point that does not move never crosses, because its determinant is 0. |
| Lists.Range | src/core/tracker.py:201-202 | list(range(n)) is 0, 1, …, n-1 in order. |
| Lists.Excluding | src/core/tracker.py:201-208 | The indices below n that were not removed, ascending, with exactly that membership. |
| Lists.IndexOf | src/core/tracker.py:207-208 | The position of the first occurrence of x; x does not occur before it. |
| Lists.RemoveFirst | src/core/tracker.py:207-208 | list.remove makes the list one element shorter. |
| Lists.RemoveFirstDeletesOne | src/core/tracker.py:207-208 | list.remove(x) takes away exactly one copy of x and keeps every other element, counted with multiplicity. |
| Lists.Without | src/core/tracker.py:159 | An element is kept exactly when it is in xs and not in s, and the result is no longer than xs. The order, for ascending lists, is stated by Lists.WithoutIncreasing. |
| Lists.SortedUnique | src/core/tracker.py:201-208 | Two ascending lists with the same members are equal. |
| Lists.WithoutIncreasing | src/core/tracker.py:159 | Filtering an ascending list keeps it ascending. |
| Lists.DeleteAtIncreasing | src/core/tracker.py:207 | Deleting one position keeps a list ascending. |
| Lists.DeleteAtMembers | src/core/tracker.py:207 | Deleting position i of an ascending list removes that value and keeps every other value. |
| Lists.RemoveFirstAt | src/core/tracker.py:207-208 | In an ascending list, list.remove of the value at i deletes position i, and the result stays ascending. |
| Lists.ExcludingRemove | src/core/tracker.py:207-208 | Removing a not-yet-matched index from the unmatched list gives the unmatched list for the larger matched set. |
| Lists.RemoveFirstIsWithout | src/core/tracker.py:159 | In an ascending list, list.remove of one value equals filtering that value out. |
| Lists.WithoutRemove | src/core/tracker.py:155-159 | Removing one more value from a filtered ascending list equals filtering with the larger set. |
| Lists.RangeIsExcludingNothing | src/core/tracker.py:201-202 | list(range(n)) is the unmatched list before anything is matched. |
| Lists.SubsetCard | scripts/evaluate.py:58 | A subset is no larger than its superset, so len(gt_boxes) - len(matched_gt) is never negative. |
| Lists.HasMin | scripts/evaluate.py:73 | A non-empty set of frame numbers has a least element. |
| Lists.Ascending | scripts/evaluate.py:73 | sorted(keys) is strictly ascending and holds exactly the keys. |
| Lists.SortedKeys | scripts/evaluate.py:73 | The loop that takes the least remaining key builds sorted(keys). |
| Association.CostMatrix | src/core/tracker.py:192-195 | The cost matrix has one row per track and one column per detection. |
| Association.SolverSoundAdmissible | src/core/tracker.py:198 | A sound solver meets the assignment contract on every call _match makes. |
| Association.Kept | src/core/tracker.py:204-206 | A pair is kept exactly when it was proposed and its cost is below 1 - match_thresh, and no extra pairs appear. Ascending rows are kept, as Association.KeptInjective states. |
| Association.MatchSpec | src/core/tracker.py:186-210 | The matches are in range, and both unmatched lists are ascending and in range. |
| Association.RowsColsSnoc | src/core/tracker.py:204-208 | Appending a pair adds its row and its column to the matched sets. |
| Association.KeptStep | src/core/tracker.py:204-208 | One loop step appends the pair if it passes the threshold; its row and column were not matched before. |
| Association.KeptInjective | src/core/tracker.py:204-208 | Filtering the solver's pairs keeps rows ascending and columns distinct. |
| Association.MatchDegenerate | src/core/tracker.py:188-189 | With no tracks or no detections there are no matches, and both unmatched lists are full ranges. |
| Association.MatchInjective | src/core/tracker.py:186-210 | No track and no detection is matched twice. |
| Association.MatchAboveThreshold | src/core/tracker.py:195-206 | Every accepted match has IoU strictly above match_thresh. |
| Association.MatchPartition | src/core/tracker.py:200-210 | A track index is unmatched exactly when it is not matched, and likewise for detection indices. |
| Association.MatchShape | src/core/tracker.py:186-210 | Every result of _match is well shaped: ranges, injectivity and both partitions. |
| Association.BuildCost | src/core/tracker.py:192-195 | The nested loop fills exactly the cost matrix 1 - IoU. |
| Association.Match | src/core/tracker.py:186-210 | The imperative _match returns exactly MatchSpec, on the degenerate path and on the solver path. |
| Lifecycle.HighDets | src/core/tracker.py:135 | A detection is in the high band exactly when its confidence is at least track_thresh. |
| Lifecycle.LowDets | src/core/tracker.py:136 | A detection is in the low band exactly when low_thresh <= confidence < track_thresh. |
| Lifecycle.DetectionBands | src/core/tracker.py:135-136 | The bands are disjoint, together take no detection twice, and drop everything below low_thresh. |
| Lifecycle.Predicted | src/core/tracker.py:131-132 | Prediction changes only each track's box, to the predicted box. |
| Lifecycle.Boxes | src/core/tracker.py:195 | The boxes of the tracks, in order. |
| Lifecycle.Select | src/core/tracker.py:150 | remaining_tracks: the tracks at the given indices, in order. |
| Lifecycle.ApplyUpdates | src/core/tracker.py:144-146 | Applying updates keeps the number of tracks. |
| Lifecycle.MarkLostAll | src/core/tracker.py:162-163 | Marking tracks lost keeps the number of tracks. |
| Lifecycle.ApplyUpdatesAt | src/core/tracker.py:144-146 | With distinct targets, each target track is the update of its detection and every other track is unchanged. |
| Lifecycle.MarkLostAt | src/core/tracker.py:162-163 | With distinct indices, each listed track's lost_frames rises by one and every other track is unchanged. |
| Lifecycle.StageOne | src/core/tracker.py:144-146 | Each stage-1 match updates track i with high_dets[j]. |
| Lifecycle.StageTwo | src/core/tracker.py:155-158 | The intended stage-2 update: match (i, j) of the remaining tracks updates track unmatched_tracks[i] with low_dets[j]. |
| Lifecycle.AttributedSnoc | src/core/tracker.py:155-159 | Each stage-2 match attributes a new track, not one attributed before. |
| Lifecycle.StageTwoStep | src/core/tracker.py:155-159 | One intended loop step updates one track and removes exactly that index from the unmatched list. |
| Lifecycle.StageTwoUpdates | src/core/tracker.py:149-159 | Stage 2 targets distinct tracks from the unmatched list, uses low detections, and every pair has IoU above match_thresh. |
| Lifecycle.StageTwoShape | src/core/tracker.py:155-159 | For any injective in-range matching above the threshold, the stage-2 updates have distinct targets among the unmatched tracks. |
| Lifecycle.StageTwoLeft | src/core/tracker.py:159-163 | The tracks still unmatched after stage 2 form an ascending list of valid indices. |
| Lifecycle.SecondStage | src/core/tracker.py:149-159 | Stage 2's updates and leftover tracks name valid tracks. |
| Lifecycle.SecondStageShape | src/core/tracker.py:149-159 | Stage 2 updates distinct unmatched tracks above the threshold, and leaves exactly the rest, ascending. |
| Lifecycle.SecondStageParts | src/core/tracker.py:149-159 | Stage 2 runs _match on the remaining tracks and low detections only when both are non-empty; otherwise it leaves the unmatched list as it is. |
| Lifecycle.StagesKeepIds | src/core/tracker.py:131-163 | Prediction, both stages and mark_lost never change a track's id and never decrease its age. |
| Lifecycle.Births | src/core/tracker.py:166-170 | The k-th new track gets id next_id + k, the detection's box and confidence, age 1 and 0 lost frames. |
| Lifecycle.RunStages | src/core/tracker.py:130-170 | The intermediate stages keep one record per existing track. |
| Lifecycle.RunStagesParts | src/core/tracker.py:130-170 | The stages of update in the code's order: predict, bands, stage 1, stage 2, mark_lost, births. |
| Lifecycle.RunStagesKeepsIds | src/core/tracker.py:130-170 | Existing tracks keep their ids and do not get younger; newborns have consecutive ids from next_id. |
| Lifecycle.RunStagesShape | src/core/tracker.py:130-170 | The stage-1 matching is well shaped, and stage 2 works on exactly the tracks stage 1 left. |
| Lifecycle.PartsShape | src/core/tracker.py:139-163 | Stages built from _match and the intended stage 2 have that shape. |
| Lifecycle.Evict | src/core/tracker.py:173 | A track survives exactly when lost_frames < track_buffer. Ascending ids are kept, as Lifecycle.EvictOrdered states. |
| Lifecycle.Emit | src/core/tracker.py:176-184 | A row is reported exactly for each kept track with lost_frames == 0. |
| Lifecycle.ApplyUpdatesKeepsIds | src/core/tracker.py:93-98 | Updates keep ids and increase ages. |
| Lifecycle.MarkLostKeepsIds | src/core/tracker.py:100-101 | mark_lost keeps ids and ages. |
| Lifecycle.EvictOrdered | src/core/tracker.py:173 | Eviction keeps the ids ascending. |
| Lifecycle.EmitOrdered | src/core/tracker.py:176-184 | The reported rows have strictly ascending ids. |
| Lifecycle.AppendBornWellFormed | src/core/tracker.py:166-170 | Appending newborns with ids from next_id keeps ids ascending and below the new next_id. |
| Lifecycle.EvictWellFormed | src/core/tracker.py:173 | Eviction keeps the state well formed. |
| Lifecycle.FrameWellFormed | src/core/tracker.py:121-184 | A frame keeps ids unique, ascending and issued; next_id never decreases; no kept track has reached the buffer; the output is ordered by id. |
| Lifecycle.StageFates | src/core/tracker.py:144-163 | Every track is updated in stage 1, updated in stage 2, or marked lost — exactly one of the three. |
| Lifecycle.StageOneTargets | src/core/tracker.py:144-146 | Stage 1 updates exactly the matched rows, each once. |
| Lifecycle.SurvivorFate | src/core/tracker.py:131-163 | Each existing track ends the association as its prediction updated with a high detection, updated with a low detection, or lost — exactly one. |
| Lifecycle.StagesFates | src/core/tracker.py:131-163 | The same three-way fate, for any stages of that shape. |
| Lifecycle.FirstMatchesAboveThreshold | src/core/tracker.py:139-146 | Every stage-1 update pairs a predicted box and a detection with IoU above match_thresh. |
| Lifecycle.SecondMatchesAboveThreshold | src/core/tracker.py:149-158 | Every stage-2 update pairs a predicted box and a detection with IoU above match_thresh. |
| Lifecycle.StagesSecondAbove | src/core/tracker.py:149-158 | The same, for any stages of that shape. |
| Lifecycle.FirstAboveThreshold | src/core/tracker.py:139-146 | Stage-1 updates are above the threshold against the predicted boxes. |
| Lifecycle.UnmatchedUntouched | src/core/tracker.py:144-150 | Stage 1 leaves the tracks it did not match unchanged, so stage 2 sees their predicted boxes. |
| Lifecycle.BirthsFromStageOne | src/core/tracker.py:166-170 | Each newborn comes from a high-confidence input detection that stage 1 left unmatched, with the next consecutive id. |
| Lifecycle.BornFromUnmatched | src/core/tracker.py:166-170 | The same, for any stages of that shape. |
| Lifecycle.FrameOutput | src/core/tracker.py:173-184 | Kept tracks are exactly those below the buffer. Every output row comes from a track matched or born this frame, and with a positive buffer each such track is reported. |
| Lifecycle.CoastingLimit | src/core/tracker.py:162-173 | An unmatched track's lost_frames rises by one, and it survives exactly when the new count is below track_buffer. |
| Lifecycle.AsWrittenStageTwo | src/core/tracker.py:155-159 | The loop as written: its k-th match names unmatched_tracks[i] in the already shrunk list; None when that index is out of range (IndexError). |
| Lifecycle.AsWrittenNoMatch | src/core/tracker.py:155-159 | With no stage-2 matches, the written loop agrees with the intended one. |
| Lifecycle.AsWrittenOneMatch | src/core/tracker.py:155-159 | With one stage-2 match, the written loop agrees with the intended one. |
| Lifecycle.AsWrittenTwoMatches | src/core/tracker.py:155-159 | With two or more matches, the written loop gives the second detection to a track other than the intended one, or fails. |
| Lifecycle.AsWrittenAgreesIff | src/core/tracker.py:155-159 | The written loop agrees with the intended attribution exactly when there is at most one stage-2 match. |
| Lifecycle.ExampleRemovals | src/core/tracker.py:159 | The two list.remove calls on [0, 1, 2] leave [1, 2] and then [1]. |
| Lifecycle.AsWrittenCons | src/core/tracker.py:155-159 | One written loop step: the head match uses the current list, and the tail runs on the list after remove. |
| Lifecycle.WrittenOnThree | src/core/tracker.py:155-159 | On unmatched [0, 1, 2] with matches (0,0), (1,1), the written loop updates tracks 0 and 2 and leaves 1 unmatched. |
| Lifecycle.ExampleWritten | src/core/tracker.py:155-159 | The same, on concrete detections. |
| Lifecycle.IntendedOnThree | src/core/tracker.py:150-159 | The intended attribution on that input updates tracks 0 and 1 and leaves 2. |
| Lifecycle.ExampleIntended | src/core/tracker.py:150-159 | The same, on concrete detections. |
| Lifecycle.StageTwoMisattribution | src/core/tracker.py:155-159 | The counterexample: the written loop and the intended attribution disagree on [0, 1, 2]. |
| Lifecycle.StageTwoIndexError | src/core/tracker.py:155-159 | On unmatched [3, 5] with matches (0,0), (1,1), the written loop indexes past the end of the shrunk list. |
| Tracker.Track.constructor | src/core/tracker.py:81-87 | A new track has the given id, box and confidence, age 1 and 0 lost frames. |
| Tracker.Track.Predict | src/core/tracker.py:89-91 | Only the box changes, to the predicted box. |
| Tracker.Track.Update | src/core/tracker.py:93-98 | The box and confidence become the detection's, age rises by one and lost_frames is reset to 0. |
| Tracker.Track.MarkLost | src/core/tracker.py:100-101 | Only lost_frames changes, rising by one. |
| Tracker.RecordsOf | src/core/tracker.py:118 | The record of each track object, in list order. |
| Tracker.RecordsOfSnoc | src/core/tracker.py:170 | Appending a track appends its record. |
| Tracker.RecordsOfAppend | src/core/tracker.py:166-170 | The records of a concatenation are the concatenated records. |
| Tracker.BirthsSnoc | src/core/tracker.py:166-170 | One birth-loop step appends the next newborn. |
| Tracker.AscendingDistinct | src/core/tracker.py:118-119 | Tracks with distinct ids are distinct objects, so updating one leaves the others alone. |
| Tracker.AssociateComposes | src/core/tracker.py:130-163 | Prediction, stage 1, stage 2 and mark_lost in sequence reach the association state of the frame function. |
| Tracker.FrameComposes | src/core/tracker.py:121-184 | That state plus births, eviction and results is one frame, and the new state is well formed. |
| Tracker.ByteTracker.constructor | src/core/tracker.py:107-119 | A new tracker has no tracks and next_id 1. |
| Tracker.ByteTracker.Update | src/core/tracker.py:121-184 | The tracks, next_id and the returned rows are exactly one frame of the pure model, and the well-formedness invariant is kept. |
| Tracker.ByteTracker.Conclude | src/core/tracker.py:165-184 | Births are appended with consecutive ids, lost tracks evicted, and the results emitted. |
| Tracker.ByteTracker.Associate | src/core/tracker.py:130-163 | Prediction, both stages and mark_lost leave the tracks in the association state of the frame. |
| Tracker.ByteTracker.FirstAssociation | src/core/tracker.py:130-146 | Predict all tracks, take the high band, and apply the stage-1 matches of _match. |
| Tracker.ByteTracker.SecondAssociation | src/core/tracker.py:148-159 | Stage 2 with the corrected attribution: apply it and return the tracks still unmatched. |
| Tracker.ByteTracker.PredictAll | src/core/tracker.py:131-132 | Every track's box becomes its prediction. |
| Tracker.ByteTracker.BoxesAt | src/core/tracker.py:150 | The boxes of the remaining tracks, in order. |
| Tracker.ByteTracker.UpdateAt | src/core/tracker.py:146 | Updating one track changes only that track's record. |
| Tracker.ByteTracker.ApplyStageOne | src/core/tracker.py:144-146 | The stage-1 loop applies exactly the stage-1 updates. |
| Tracker.ByteTracker.ApplyStageTwo | src/core/tracker.py:155-159 | The stage-2 loop applies the intended updates and returns the unmatched list with them removed. |
| Tracker.ByteTracker.MarkLostAll | src/core/tracker.py:162-163 | The mark_lost loop marks exactly the listed tracks. |
| Tracker.ByteTracker.AddBirths | src/core/tracker.py:166-170 | The birth loop appends the newborns and advances next_id by their number. |
| Tracker.ByteTracker.EvictLost | src/core/tracker.py:173 | The filter keeps exactly the tracks below track_buffer, in order. |
| Tracker.ByteTracker.Results | src/core/tracker.py:176-184 | The result rows of the tracks with lost_frames == 0. |
| Counter.CrossingDirection | src/core/counter.py:105-127 | Horizontal exactly when the x movement dominates strictly. Right or left follows the sign of dx, down follows dy > 0, and up covers dy <= 0. |
| Counter.CrossingDirectionTies | src/core/counter.py:116-127 | A tie between the axes is classified vertically; no movement counts as up. |
| Counter.CrossingDirectionReverse | src/core/counter.py:105-127 | Reversing a real movement gives the opposite label. |
| Counter.Observe | src/core/counter.py:68-96 | The row's id is remembered afterwards, and a direction is remembered only for ids already seen or this one. |
| Counter.FirstSighting | src/core/counter.py:75-96 | A track seen for the first time counts nothing and records no direction. |
| Counter.ObserveCounts | src/core/counter.py:75-93 | Counters never decrease and rise by at most one. They rise exactly on a fresh crossing whose direction is the entry or exit label. |
| Counter.SameLabelsOnlyEntry | src/core/counter.py:88-91 | If entry and exit are the same label, only the entry counter moves. |
| Counter.ObserveRemembers | src/core/counter.py:84-96 | A fresh crossing records its direction, and otherwise the directions do not change. The position becomes the current foot point. |
| Counter.Debounce | src/core/counter.py:83-93 | A second crossing in the same direction as the last one counted adds nothing. |
| Counter.ObserveConsistent | src/core/counter.py:68-96 | A direction is remembered only for ids with a remembered position; one row keeps this. |
| Counter.ObserveAllCounts | src/core/counter.py:68-96 | Over a frame, counters never decrease and rise by at most the number of rows. |
| Counter.ObservePositions | src/core/counter.py:96 | One row sets its id's position to its foot point. |
| Counter.ObserveAllPositions | src/core/counter.py:68-96 | After the loop, the ids are the old ones plus the frame's, and each holds the foot point of its last row. |
| Counter.LastRowStep | src/core/counter.py:68-96 | One more row keeps the last-occurrence positions. |
| Counter.ObserveAllConsistent | src/core/counter.py:68-96 | The loop keeps directions within remembered positions. |
| Counter.Purge | src/core/counter.py:98-103 | Only ids of this frame stay remembered; the counters do not change. |
| Counter.UpdatePositions | src/core/counter.py:60-103 | After update, exactly the frame's ids are remembered, at their last foot point, and the consistency invariant holds. |
| Counter.UpdateCounts | src/core/counter.py:60-103 | update never decreases a counter and adds at most one crossing per row. |
| Counter.CountExample | src/core/counter.py:60-103 | A track whose foot moves down across a horizontal line counts one entry (entry is down) and remembers down. |
| Counter.GetCounts | src/core/counter.py:129-136 | entry and exit are the two counters, total_crossings is their sum, and unique_tracks is the number of tracks with a remembered crossing direction. |
| Counter.UniqueTracksBounded | src/core/counter.py:135 | While directions are kept only for remembered tracks, unique_tracks is at most the number of tracks followed. |
| Counter.LineCounter.constructor | src/core/counter.py:32-58 | A new counter holds the line and labels, empty maps and zero counters. |
| Counter.LineCounter.Update | src/core/counter.py:60-103 | The state after update is the per-frame function of the old state, and consistency is kept. |
| Counter.LineCounter.ObserveRow | src/core/counter.py:69-96 | The loop body for one row. |
| Counter.LineCounter.PurgeLost | src/core/counter.py:98-103 | The deletion loop removes exactly the ids not seen this frame, from both maps. |
| Counter.LineCounter.Counts | src/core/counter.py:129-136 | get_counts of the current state; unique_tracks is bounded by the tracks remembered. |
| Evaluate.Indices | scripts/evaluate.py:51 | The ground-truth indices 0 … n-1; there are n of them. |
| Evaluate.BestIou | scripts/evaluate.py:47 | max(ious + [0]): non-negative, at least every IoU, and either 0 or attained by some ground-truth box. |
| Evaluate.Claim | scripts/evaluate.py:51-54 | At most one new ground-truth index is claimed, and only from the scanned part. |
| Evaluate.FrameDetection | scripts/evaluate.py:46-57 | Each predicted box is a TP or an FP, and no more ground truths are claimed than there are TPs. |
| Evaluate.MatchedWithinFrame | scripts/evaluate.py:44-58 | Claimed ground truths are no more than the frame has, so its FN count is non-negative. |
| Evaluate.DetectionTpFp | scripts/evaluate.py:40-57 | TP + FP is the number of predicted boxes in the ground-truth frames. |
| Evaluate.DetectionIgnoresOtherFrames | scripts/evaluate.py:40-42 | Predictions in frames without ground truth do not change the counts. |
| Evaluate.NoGroundTruthAllFalse | scripts/evaluate.py:46-57 | With no ground truth in a frame and a positive threshold, every prediction is a false positive. |
| Evaluate.F1Bound | scripts/evaluate.py:62 | F1 of two ratios in [0, 1] lies in [0, 1] and is 0 exactly when one of them is 0. |
| Evaluate.Ratio | scripts/evaluate.py:60-61 | The guarded ratio is 0 on an empty denominator, lies in [0, 1], is 0 exactly when the part is 0, and is 1 when the rest is 0. |
| Evaluate.F1 | scripts/evaluate.py:62 | The guarded F1 lies in [0, 1] and is 0 exactly when precision or recall is 0. |
| Evaluate.Metrics | scripts/evaluate.py:60-64 | Counts are passed through; precision and recall are 0 on empty denominators and 1 with no errors; F1 is 0 exactly when TP is 0; all lie in [0, 1]. |
| Evaluate.MaxIou | scripts/evaluate.py:47 | The loop computes best_iou. |
| Evaluate.ClaimFirst | scripts/evaluate.py:51-54 | The loop with break claims the first unclaimed index whose IoU equals best_iou. |
| Evaluate.DetectFrame | scripts/evaluate.py:44-57 | One frame's loop gives that frame's TP, FP and claimed set. |
| Evaluate.DetectionTotals | scripts/evaluate.py:40-58 | The loop over frames gives the recursive totals. |
| Evaluate.EvalDetection | scripts/evaluate.py:36-64 | eval_detection is the metrics of the totals over the ground-truth frames. |
| Evaluate.Scan | scripts/evaluate.py:80-88 | The chosen prediction is in range, not yet matched, carries that prediction's id, and the IoU is non-negative. |
| Evaluate.ScanFirstBest | scripts/evaluate.py:80-90 | None exactly when no unmatched prediction has positive IoU. Otherwise the choice is the first unmatched prediction with the greatest IoU. |
| Evaluate.Record | scripts/evaluate.py:91-102 | Recording a match appends the prediction id to the history and sets last_seen to this frame. |
| Evaluate.CountingRules | scripts/evaluate.py:95-99 | An identity switch exactly when the previous prediction id differs. A fragmentation exactly when the gap is more than one frame. Each counter rises by at most one. |
| Evaluate.MatchGt | scripts/evaluate.py:79-102 | Handling one ground-truth object keeps every history non-empty. |
| Evaluate.FrameTracking | scripts/evaluate.py:74-102 | A frame keeps every history non-empty. |
| Evaluate.FramePicksDistinct | scripts/evaluate.py:77-93 | A frame matches each prediction at most once, to at most one ground-truth object each. |
| Evaluate.FrameCountersBounded | scripts/evaluate.py:79-99 | Within a frame, each counter rises by at most the number of ground-truth objects. |
| Evaluate.FrameLastSeen | scripts/evaluate.py:102 | After a frame, last_seen is either unchanged or the current frame. |
| Evaluate.TrackingCounts | scripts/evaluate.py:73-102 | Over the frames, every history stays non-empty. |
| Evaluate.TrackingCountersBounded | scripts/evaluate.py:73-104 | Both counters are at most the number of ground-truth objects. |
| Evaluate.LastSeenVisited | scripts/evaluate.py:73-102 | Every last_seen value is one of the frames visited. |
| Evaluate.LastSeenBefore | scripts/evaluate.py:73-98 | Visiting frames in ascending order, last_seen lies before any later frame, so the gap test sees a positive gap. |
| Evaluate.BestPrediction | scripts/evaluate.py:80-88 | The inner loop computes best_iou and best_pred. |
| Evaluate.TrackFrame | scripts/evaluate.py:74-102 | One frame's loop gives the recursive frame state. |
| Evaluate.TrackingTotals | scripts/evaluate.py:73-102 | The loop over frames gives the recursive totals. |
| Evaluate.EvalTracking | scripts/evaluate.py:67-104 | eval_tracking returns the two counters over the frames in sorted order. |

## Left out

- The Kalman filter (src/core/tracker.py:22-77) is not modelled. Its `predict` is a function parameter, and its `update` affects only the hidden motion state, which the model does not hold.
- Optimality of `linear_sum_assignment` is not modelled. The solver is a parameter with only the guarantees of `linear_sum_assignment` that the model uses (count, range, ascending rows, distinct columns).
- Loading YAML configuration (`ByteTracker.__init__`, `LineCounter.__init__`) is not modelled. The constructors take the configuration values, and the missing-sequence `ValueError` is not modelled.
- `parse_file`, `main` of scripts/evaluate.py, and all file I/O are not modelled. The evaluators take the parsed frame maps.
- `euclidean_distance`, `get_line_coords`, `get_line_color` and `get_line_thickness` are not modelled. They are not used by the tracking or counting logic.
- Floating point is modelled as exact reals. `float32` rounding in the filter and near-ties in IoU comparisons are not captured.
- Direction labels are the four-valued `Direction` datatype. A configured label outside up/down/left/right, which the code would never count, is not representable.
- Evaluate.EvalDetection visits the ground-truth frames in ascending order, while the code uses dictionary insertion order. The totals are sums over frames, so the order does not change them, but the model does not prove that.
- Lifecycle.FrameOutput: the statement that every track matched or born this frame is reported assumes track_buffer > 0. With track_buffer <= 0 every track is evicted before the results are built.
- Coasting: the code evicts a track once lost_frames >= track_buffer, so a track that has gone unmatched for track_buffer frames is removed in that frame and cannot be matched again. The model follows the code (Lifecycle.CoastingLimit): a track stays matchable for at most track_buffer - 1 frames without a match.
- Tracker.ByteTracker.Update performs stage 2 with the corrected attribution (see Findings). The as-written loop is modelled as a function only.
- Aliasing of track objects between the tracker and callers is not modelled. `Update` requires the tracks to be distinct objects, which holds because their ids are distinct.

## Findings

| source | as written | input that shows it | evidently intended | confidence | as-written member | corrected member |
|---|---|---|---|---|---|---|
| src/core/tracker.py:155-159 | Stage 2 maps the i-th remaining track to `unmatched_tracks[i]` while the same loop shrinks `unmatched_tracks` with `.remove`, so once a track has been removed, a later match can name a different track than its row denotes; for the second match it names the track one place further on, or none. | unmatched_tracks = [0, 1, 2], matches_low = [(0, 0), (1, 1)]: the second low detection updates track 2 instead of track 1, and track 1 is marked lost. With unmatched_tracks = [3, 5] and the same matches, the second lookup raises IndexError. | Match (i, j) updates the track `remaining_tracks[i]` came from, i.e. the original `unmatched_tracks[i]`, and exactly the matched tracks leave the list. | not executed | Lifecycle.StageTwoMisattribution, Lifecycle.StageTwoIndexError, Lifecycle.AsWrittenAgreesIff | Lifecycle.SecondStage, Lifecycle.SecondStageShape, Tracker.ByteTracker.ApplyStageTwo |

/** LineCounter: counts entries and exits of tracked objects across a virtual line.
    For every track id it remembers the last foot point and the direction of the last
    counted crossing; a crossing counts only when its direction differs from that
    remembered direction, and ids absent from a frame are forgotten. */
module Counter {
  import opened Geometry
  import opened Lists

  /** The four crossing directions; image y grows downwards. */
  datatype Direction = Up | Down | Left | Right

  function Opposite(d: Direction): Direction {
    match d
    case Up => Down
    case Down => Up
    case Left => Right
    case Right => Left
  }

  /** The counting line and the direction labels that mean entry and exit. */
  datatype LineConfig = LineConfig(lineStart: Point, lineEnd: Point, entry: Direction, exit: Direction)

  /** The counter's fields: track_positions, crossed_tracks, entry_count, exit_count. */
  datatype CounterState = CounterState(
    positions: map<int, Point>,
    crossed: map<int, Direction>,
    entryCount: nat,
    exitCount: nat)

  function Total(st: CounterState): nat {
    st.entryCount + st.exitCount
  }

  /** _get_crossing_direction: the dominant axis of the movement decides, ties go to the
      vertical axis, and a movement that is not downwards counts as up. */
  function CrossingDirection(prev: Point, cur: Point): (d: Direction)
    ensures (d == Left || d == Right) <==> Abs(cur.x - prev.x) > Abs(cur.y - prev.y)
    ensures d == Right ==> cur.x > prev.x
    ensures d == Left ==> cur.x < prev.x
    ensures d == Down ==> cur.y > prev.y
    ensures d == Up ==> cur.y <= prev.y
  {
    var dx := Abs(cur.x - prev.x);
    var dy := Abs(cur.y - prev.y);
    if dx > dy then
      if cur.x > prev.x then Right else Left
    else
      if cur.y > prev.y then Down else Up
  }

  /** The direction of the debounced crossing that the track with this row makes, if any:
      the id was seen before, the foot-point movement crosses the line, and the direction
      differs from the one remembered for the id. */
  predicate FreshCrossing(cfg: LineConfig, st: CounterState, t: TrackedObject) {
    && t.id in st.positions
    && var prev := st.positions[t.id];
    var cur := BottomCenter(t.box);
    && LineIntersection(prev, cur, cfg.lineStart, cfg.lineEnd)
    && (t.id !in st.crossed || st.crossed[t.id] != CrossingDirection(prev, cur))
  }

  /** The body of the loop of update for one row of the frame. */
  function Observe(cfg: LineConfig, st: CounterState, t: TrackedObject): (r: CounterState)
    ensures r.positions.Keys == st.positions.Keys + {t.id}
    ensures r.crossed.Keys <= st.crossed.Keys + {t.id}
  {
    var cur := BottomCenter(t.box);
    var counted :=
      if FreshCrossing(cfg, st, t) then
        var d := CrossingDirection(st.positions[t.id], cur);
        var e := if d == cfg.entry then st.entryCount + 1 else st.entryCount;
        var x := if d != cfg.entry && d == cfg.exit then st.exitCount + 1 else st.exitCount;
        CounterState(st.positions, st.crossed[t.id := d], e, x)
      else st;
    counted.(positions := counted.positions[t.id := cur])
  }

  /** The loop of update over the rows of one frame, in order. */
  function ObserveAll(cfg: LineConfig, st: CounterState, ts: seq<TrackedObject>): CounterState {
    if ts == [] then st
    else Observe(cfg, ObserveAll(cfg, st, ts[..|ts| - 1]), ts[|ts| - 1])
  }

  /** current_track_ids. */
  function Ids(ts: seq<TrackedObject>): set<int> {
    set k | 0 <= k < |ts| :: ts[k].id
  }

  /** The purge after the loop: ids remembered but absent from this frame are deleted from
      both maps. */
  function Purge(st: CounterState, current: set<int>): (r: CounterState)
    ensures r.positions.Keys == st.positions.Keys * current
    ensures r.entryCount == st.entryCount && r.exitCount == st.exitCount
  {
    var lost := st.positions.Keys - current;
    CounterState(st.positions - lost, st.crossed - lost, st.entryCount, st.exitCount)
  }

  /** update(tracks). */
  function UpdateSpec(cfg: LineConfig, st: CounterState, ts: seq<TrackedObject>): CounterState {
    Purge(ObserveAll(cfg, st, ts), Ids(ts))
  }

  /** The remembered direction of a crossing is kept only for remembered positions. */
  predicate Consistent(st: CounterState) {
    st.crossed.Keys <= st.positions.Keys
  }

  /** get_counts. */
  datatype Counts = Counts(entry: nat, exit: nat, totalCrossings: nat, uniqueTracks: nat)

  function GetCounts(st: CounterState): (c: Counts)
    ensures c.totalCrossings == c.entry + c.exit
    ensures c.entry == st.entryCount && c.exit == st.exitCount
    ensures c.uniqueTracks == |st.crossed|
  {
    Counts(st.entryCount, st.exitCount, st.entryCount + st.exitCount, |st.crossed|)
  }

  /** While directions are kept only for remembered positions, unique_tracks never exceeds
      the number of tracks followed. */
  lemma UniqueTracksBounded(st: CounterState)
    requires Consistent(st)
    ensures GetCounts(st).uniqueTracks <= |st.positions|
  {
    SubsetCard(st.crossed.Keys, st.positions.Keys);
  }

  // ---------------------------------------------------------------------------
  // Crossing direction

  /** Ties between the axes fall to the vertical case, and no movement at all reads as up. */
  lemma CrossingDirectionTies(prev: Point, cur: Point)
    requires Abs(cur.x - prev.x) == Abs(cur.y - prev.y)
    ensures CrossingDirection(prev, cur) == (if cur.y > prev.y then Down else Up)
    ensures cur == prev ==> CrossingDirection(prev, cur) == Up
  {
  }

  /** Reversing a real movement reverses its direction. */
  lemma CrossingDirectionReverse(prev: Point, cur: Point)
    requires prev != cur
    ensures CrossingDirection(cur, prev) == Opposite(CrossingDirection(prev, cur))
  {
    assert Abs(prev.x - cur.x) == Abs(cur.x - prev.x);
    assert Abs(prev.y - cur.y) == Abs(cur.y - prev.y);
  }

  // ---------------------------------------------------------------------------
  // One row

  /** The first sighting of an id changes no count and no remembered direction. */
  lemma FirstSighting(cfg: LineConfig, st: CounterState, t: TrackedObject)
    requires t.id !in st.positions
    ensures var r := Observe(cfg, st, t);
      r.entryCount == st.entryCount && r.exitCount == st.exitCount && r.crossed == st.crossed
  {
  }

  /** A row raises entry_count or exit_count exactly when it makes a fresh crossing whose
      direction is the entry or the exit label; counts never fall and rise by at most one. */
  lemma ObserveCounts(cfg: LineConfig, st: CounterState, t: TrackedObject)
    ensures var r := Observe(cfg, st, t);
      && r.entryCount >= st.entryCount && r.exitCount >= st.exitCount
      && Total(r) <= Total(st) + 1
      && (Total(r) > Total(st) <==>
            FreshCrossing(cfg, st, t)
            && CrossingDirection(st.positions[t.id], BottomCenter(t.box)) in {cfg.entry, cfg.exit})
  {
  }

  /** When the entry and exit labels coincide, only entry_count ever rises. */
  lemma SameLabelsOnlyEntry(cfg: LineConfig, st: CounterState, t: TrackedObject)
    requires cfg.entry == cfg.exit
    ensures Observe(cfg, st, t).exitCount == st.exitCount
  {
  }

  /** A fresh crossing is remembered with its direction even when that direction is neither
      the entry nor the exit label; otherwise the remembered direction stays. */
  lemma ObserveRemembers(cfg: LineConfig, st: CounterState, t: TrackedObject)
    ensures var r := Observe(cfg, st, t);
      && (FreshCrossing(cfg, st, t) ==>
            r.crossed == st.crossed[t.id := CrossingDirection(st.positions[t.id], BottomCenter(t.box))])
      && (!FreshCrossing(cfg, st, t) ==> r.crossed == st.crossed)
      && r.positions[t.id] == BottomCenter(t.box)
  {
  }

  /** Debounce: after a crossing, a second crossing by the same id in the same direction
      changes no count. */
  lemma Debounce(cfg: LineConfig, st: CounterState, t1: TrackedObject, t2: TrackedObject)
    requires t1.id == t2.id && t1.id in st.positions
    requires LineIntersection(st.positions[t1.id], BottomCenter(t1.box), cfg.lineStart, cfg.lineEnd)
    requires CrossingDirection(st.positions[t1.id], BottomCenter(t1.box))
          == CrossingDirection(BottomCenter(t1.box), BottomCenter(t2.box))
    ensures var s1 := Observe(cfg, st, t1);
      var s2 := Observe(cfg, s1, t2);
      s2.entryCount == s1.entryCount && s2.exitCount == s1.exitCount
  {
    var s1 := Observe(cfg, st, t1);
    var d := CrossingDirection(st.positions[t1.id], BottomCenter(t1.box));
    assert s1.positions[t1.id] == BottomCenter(t1.box);
    assert t1.id in s1.crossed && s1.crossed[t1.id] == d;
    assert !FreshCrossing(cfg, s1, t2);
  }

  /** Remembered directions stay within remembered positions. */
  lemma ObserveConsistent(cfg: LineConfig, st: CounterState, t: TrackedObject)
    requires Consistent(st)
    ensures Consistent(Observe(cfg, st, t))
  {
  }

  // ---------------------------------------------------------------------------
  // One frame

  lemma IdsSnoc(ts: seq<TrackedObject>)
    requires ts != []
    ensures Ids(ts) == Ids(ts[..|ts| - 1]) + {ts[|ts| - 1].id}
  {
    var init := ts[..|ts| - 1];
    forall x | x in Ids(ts)
      ensures x in Ids(init) + {ts[|ts| - 1].id}
    {
      var k :| 0 <= k < |ts| && ts[k].id == x;
      if k < |init| {
        assert init[k].id == x;
      }
    }
    forall x | x in Ids(init)
      ensures x in Ids(ts)
    {
      var k :| 0 <= k < |init| && init[k].id == x;
      assert ts[k].id == x;
    }
  }

  /** The row of ts that decides the foot point of its id: no later row has the same id. */
  predicate LastOccurrence(ts: seq<TrackedObject>, k: int) {
    0 <= k < |ts| && forall l :: k < l < |ts| ==> ts[l].id != ts[k].id
  }

  lemma {:induction false} ObserveAllCounts(cfg: LineConfig, st: CounterState, ts: seq<TrackedObject>)
    ensures var r := ObserveAll(cfg, st, ts);
      r.entryCount >= st.entryCount && r.exitCount >= st.exitCount && Total(r) <= Total(st) + |ts|
  {
    if ts != [] {
      ObserveAllCounts(cfg, st, ts[..|ts| - 1]);
      ObserveCounts(cfg, ObserveAll(cfg, st, ts[..|ts| - 1]), ts[|ts| - 1]);
    }
  }

  /** One row moves only its own id's remembered position. */
  lemma ObservePositions(cfg: LineConfig, st: CounterState, t: TrackedObject)
    ensures Observe(cfg, st, t).positions == st.positions[t.id := BottomCenter(t.box)]
  {
  }

  lemma {:induction false} ObserveAllPositions(cfg: LineConfig, st: CounterState, ts: seq<TrackedObject>)
    ensures var r := ObserveAll(cfg, st, ts);
      && r.positions.Keys == st.positions.Keys + Ids(ts)
      && forall k :: LastOccurrence(ts, k) ==> r.positions[ts[k].id] == BottomCenter(ts[k].box)
  {
    if ts != [] {
      var init, last := ts[..|ts| - 1], ts[|ts| - 1];
      ObserveAllPositions(cfg, st, init);
      IdsSnoc(ts);
      assert init + [last] == ts;
      LastRowStep(cfg, ObserveAll(cfg, st, init), init, last);
    }
  }

  /** One more row keeps the last-occurrence positions of the earlier rows it does not repeat. */
  lemma LastRowStep(cfg: LineConfig, s: CounterState, init: seq<TrackedObject>, last: TrackedObject)
    requires Ids(init) <= s.positions.Keys
    requires forall k :: LastOccurrence(init, k) ==> s.positions[init[k].id] == BottomCenter(init[k].box)
    ensures var ts, r := init + [last], Observe(cfg, s, last);
      forall k :: LastOccurrence(ts, k) ==> ts[k].id in r.positions && r.positions[ts[k].id] == BottomCenter(ts[k].box)
  {
    var ts := init + [last];
    ObservePositions(cfg, s, last);
    forall k | LastOccurrence(ts, k)
      ensures ts[k].id in Observe(cfg, s, last).positions
      ensures Observe(cfg, s, last).positions[ts[k].id] == BottomCenter(ts[k].box)
    {
      if k < |init| {
        assert ts[k] == init[k] && ts[|init|] == last;
        assert LastOccurrence(init, k) by {
          forall l | k < l < |init|
            ensures init[l].id != init[k].id
          {
            assert ts[l] == init[l];
          }
        }
        assert init[k].id in Ids(init);
      }
    }
  }

  lemma {:induction false} ObserveAllConsistent(cfg: LineConfig, st: CounterState, ts: seq<TrackedObject>)
    requires Consistent(st)
    ensures Consistent(ObserveAll(cfg, st, ts))
  {
    if ts != [] {
      ObserveAllConsistent(cfg, st, ts[..|ts| - 1]);
      ObserveConsistent(cfg, ObserveAll(cfg, st, ts[..|ts| - 1]), ts[|ts| - 1]);
    }
  }

  /** After update the remembered positions are exactly the ids of this frame, each at the
      foot point of its last row; remembered directions stay within them. */
  lemma UpdatePositions(cfg: LineConfig, st: CounterState, ts: seq<TrackedObject>)
    requires Consistent(st)
    ensures var r := UpdateSpec(cfg, st, ts);
      && r.positions.Keys == Ids(ts)
      && (forall k :: LastOccurrence(ts, k) ==> r.positions[ts[k].id] == BottomCenter(ts[k].box))
      && Consistent(r)
  {
    ObserveAllPositions(cfg, st, ts);
    ObserveAllConsistent(cfg, st, ts);
    var s := ObserveAll(cfg, st, ts);
    forall k | LastOccurrence(ts, k)
      ensures ts[k].id in Ids(ts)
    {
    }
  }

  /** entry_count and exit_count never decrease, and one update raises their sum by at most
      the number of rows. */
  lemma UpdateCounts(cfg: LineConfig, st: CounterState, ts: seq<TrackedObject>)
    ensures var r := UpdateSpec(cfg, st, ts);
      r.entryCount >= st.entryCount && r.exitCount >= st.exitCount && Total(r) <= Total(st) + |ts|
  {
    ObserveAllCounts(cfg, st, ts);
  }

  /** A person walking down across a horizontal line counts one entry when entry is down. */
  lemma CountExample()
    ensures var cfg := LineConfig(Point(0.0, 100.0), Point(200.0, 100.0), Down, Up);
      var s1 := UpdateSpec(cfg, CounterState(map[], map[], 0, 0), [TrackedObject(Box(40.0, 10.0, 60.0, 90.0), 7, 0.9)]);
      var s2 := UpdateSpec(cfg, s1, [TrackedObject(Box(40.0, 30.0, 60.0, 110.0), 7, 0.9)]);
      s1.entryCount == 0 && s2.entryCount == 1 && s2.exitCount == 0 && s2.crossed == map[7 := Down]
  {
    var cfg := LineConfig(Point(0.0, 100.0), Point(200.0, 100.0), Down, Up);
    var t1 := TrackedObject(Box(40.0, 10.0, 60.0, 90.0), 7, 0.9);
    var t2 := TrackedObject(Box(40.0, 30.0, 60.0, 110.0), 7, 0.9);
    var p, q := Point(50.0, 90.0), Point(50.0, 110.0);
    assert BottomCenter(t1.box) == p && BottomCenter(t2.box) == q;
    assert Denom(p, q, cfg.lineStart, cfg.lineEnd) == -4000.0;
    assert TNumer(p, q, cfg.lineStart, cfg.lineEnd) == -2000.0;
    assert UNumer(p, q, cfg.lineStart, cfg.lineEnd) == -1000.0;
    assert LineIntersection(p, q, cfg.lineStart, cfg.lineEnd);
    assert CrossingDirection(p, q) == Down;
    var s0 := CounterState(map[], map[], 0, 0);
    assert [t1][..0] == [];
    assert ObserveAll(cfg, s0, []) == s0;
    var o1 := ObserveAll(cfg, s0, [t1]);
    assert o1 == Observe(cfg, s0, t1);
    assert o1.positions == map[7 := p];
    assert o1 == CounterState(map[7 := p], map[], 0, 0);
    assert Ids([t1]) == {7};
    var s1 := UpdateSpec(cfg, s0, [t1]);
    assert s1.positions == map[7 := p];
    assert s1.crossed == map[];
    assert [t2][..0] == [];
    assert ObserveAll(cfg, s1, []) == s1;
    var o2 := ObserveAll(cfg, s1, [t2]);
    assert o2 == Observe(cfg, s1, t2);
    assert FreshCrossing(cfg, s1, t2);
    assert o2.entryCount == 1 && o2.exitCount == 0 && o2.crossed == map[7 := Down];
    assert Ids([t2]) == {7};
  }

  // ---------------------------------------------------------------------------
  // The counter object

  /** Deleting one more lost key, whether or not the map still holds it. */
  lemma MapRemoveStep<V>(m: map<int, V>, all: set<int>, left: set<int>, k: int)
    requires k in left && left <= all
    ensures (m - (all - left)) - {k} == m - (all - (left - {k}))
    ensures k !in m - (all - left) ==> m - (all - left) == m - (all - (left - {k}))
  {
    assert all - (left - {k}) == (all - left) + {k};
  }

  class LineCounter {
    const config: LineConfig
    var trackPositions: map<int, Point>
    var crossedTracks: map<int, Direction>
    var entryCount: nat
    var exitCount: nat

    function State(): CounterState
      reads this
    {
      CounterState(trackPositions, crossedTracks, entryCount, exitCount)
    }

    ghost predicate Valid()
      reads this
    {
      Consistent(State())
    }

    /** The constructor with the line and direction labels of the sequence's configuration. */
    constructor(lineStart: Point, lineEnd: Point, entry: Direction, exit: Direction)
      ensures config == LineConfig(lineStart, lineEnd, entry, exit)
      ensures State() == CounterState(map[], map[], 0, 0)
      ensures Valid()
    {
      config := LineConfig(lineStart, lineEnd, entry, exit);
      trackPositions := map[];
      crossedTracks := map[];
      entryCount := 0;
      exitCount := 0;
    }

    /** update(tracks): the loop over the rows, then the purge of lost ids. */
    method Update(tracks: seq<TrackedObject>)
      requires Valid()
      modifies this
      ensures Valid()
      ensures State() == UpdateSpec(config, old(State()), tracks)
    {
      var currentIds: set<int> := {};
      var i := 0;
      while i < |tracks|
        invariant 0 <= i <= |tracks|
        invariant State() == ObserveAll(config, old(State()), tracks[..i])
        invariant currentIds == Ids(tracks[..i])
      {
        assert tracks[..i + 1][..i] == tracks[..i];
        IdsSnoc(tracks[..i + 1]);
        ObserveRow(tracks[i]);
        currentIds := currentIds + {tracks[i].id};
        i := i + 1;
      }
      assert tracks[..i] == tracks;
      PurgeLost(currentIds);
      UpdatePositions(config, old(State()), tracks);
    }

    /** One pass of the loop of update: a counted crossing, then the new foot point. */
    method ObserveRow(t: TrackedObject)
      modifies this
      ensures State() == Observe(config, old(State()), t)
    {
      var id := t.id;
      var cur := BottomCenter(t.box);
      if id in trackPositions {
        var prev := trackPositions[id];
        if LineIntersection(prev, cur, config.lineStart, config.lineEnd) {
          var d := CrossingDirection(prev, cur);
          if id !in crossedTracks || crossedTracks[id] != d {
            if d == config.entry {
              entryCount := entryCount + 1;
            } else if d == config.exit {
              exitCount := exitCount + 1;
            }
            crossedTracks := crossedTracks[id := d];
          }
        }
      }
      trackPositions := trackPositions[id := cur];
    }

    /** The purge of update: every remembered id outside current is deleted from both maps. */
    method PurgeLost(current: set<int>)
      modifies this
      ensures State() == Purge(old(State()), current)
    {
      var lost := trackPositions.Keys - current;
      ghost var allLost, p0, c0 := lost, trackPositions, crossedTracks;
      while lost != {}
        invariant lost <= allLost
        invariant trackPositions == p0 - (allLost - lost)
        invariant crossedTracks == c0 - (allLost - lost)
        invariant entryCount == old(entryCount) && exitCount == old(exitCount)
        decreases |lost|
      {
        HasMember(lost);
        var tid :| tid in lost;
        MapRemoveStep(p0, allLost, lost, tid);
        MapRemoveStep(c0, allLost, lost, tid);
        trackPositions := trackPositions - {tid};
        if tid in crossedTracks {
          crossedTracks := crossedTracks - {tid};
        }
        lost := lost - {tid};
      }
      assert allLost - lost == allLost;
    }

    /** get_counts. */
    method Counts() returns (c: Counts)
      requires Valid()
      ensures c == GetCounts(State())
      ensures c.uniqueTracks <= |trackPositions|
    {
      c := GetCounts(State());
      UniqueTracksBounded(State());
    }
  }
}

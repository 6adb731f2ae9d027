/** The per-frame composition of the trackers in a detection worker, and what holds of it over whole
    runs. The frame source, the inference backend and the database are inputs and counters here. */
module Pipeline {
  import opened Wrappers
  import Geometry
  import opened Tracking
  import TrackHistory
  import DetectionKeys
  import Zones
  import LineCrossing
  import Loitering
  import ActiveObjects
  import ObjectTracking

  /** The clock is read anew by each component. */
  datatype Clock = Clock(loiter: real, line: real, active: real, rows: real, loiterRows: real, lineRows: real)

  /** One frame: what the backend inferred, the class order of the tracker, and the clock readings. */
  datatype Input = Input(detections: seq<Detection>, order: seq<string>, clock: Clock)

  type Counts = map<(int, DetectionKeys.Direction), int>

  function Stored(counts: Counts, zone: int, d: DetectionKeys.Direction): int {
    if (zone, d) in counts then counts[(zone, d)] else 0
  }

  /** `increment_zone_crossing_count`, once per reported crossing. */
  function Persist(counts: Counts, crossings: seq<LineCrossing.Crossing>): Counts {
    if crossings == [] then counts
    else
      var before := Persist(counts, crossings[..|crossings| - 1]);
      var c := crossings[|crossings| - 1];
      before[(c.zone, c.direction) := Stored(before, c.zone, c.direction) + 1]
  }

  datatype Worker = Worker(
    tracker: State,
    timers: Loitering.Timers,
    memory: LineCrossing.Memory,
    seen: map<string, ActiveObjects.Sight>,
    counts: Counts)

  /** A worker before its first frame: fresh trackers, and the counts it finds in the database. */
  function Idle(found: Counts): Worker { Worker(TrackHistory.START, Loitering.NONE_RUNNING, LineCrossing.EMPTY, map[], found) }

  function Turn(p: Params, zones: seq<Zones.Zone>, w: Worker, i: Input): Worker {
    var frame := Frame(p, w.tracker, i.detections, i.order);
    var tracked := Confirm(frame.sightings, p.minHits);
    var lines := LineCrossing.ApplyAll(w.memory, LineCrossing.UpdateAtoms(zones, tracked, i.clock.line));
    Worker(frame.st,
           Loitering.Tick(w.timers, Loitering.Sighted(tracked, zones), i.clock.loiter),
           lines.memory,
           ActiveObjects.MarkAll(w.seen, Zones.Filter(tracked, zones), i.clock.active),
           Persist(w.counts, LineCrossing.ReportAll(lines.events)))
  }

  function RunWorker(p: Params, zones: seq<Zones.Zone>, found: Counts, inputs: seq<Input>): Worker {
    if inputs == [] then Idle(found)
    else Turn(p, zones, RunWorker(p, zones, found, inputs[..|inputs| - 1]), inputs[|inputs| - 1])
  }

  class DetectionWorker {
    const objects: ObjectTracking.ObjectTracker
    const loiter: Loitering.LoiterTracker
    const lines: LineCrossing.LineCrossingTracker
    const active: ActiveObjects.ActiveObjectTracker
    const zones: seq<Zones.Zone>
    /** The table of persisted crossing counts, which outlives the worker. */
    var counts: Counts

    ghost predicate Valid() reads this, objects, active { objects.Valid() && active.Valid() }

    ghost function Current(): Worker
      requires Valid()
      reads this, objects, loiter, lines, active
    {
      Worker(objects.Current(), loiter.Current(), lines.Current(), active.Current(), counts)
    }

    /** A worker starts with fresh trackers, the default settings and the zones of its camera, and leaves the
        stored counts alone. */
    constructor (zones: seq<Zones.Zone>, sampleFps: real, found: Counts)
      requires sampleFps > 0.0
      ensures Valid() && Current() == Idle(found) && objects.p == Params(0.3, 2, 3) && this.zones == zones
      ensures fresh(objects) && fresh(loiter) && fresh(lines) && fresh(active)
      ensures active.timeout == Geometry.Max(3.0, 3.0 / sampleFps)
    {
      active := new ActiveObjects.ActiveObjectTracker(Geometry.Max(3.0, 3.0 / sampleFps));
      objects := new ObjectTracking.ObjectTracker(DEFAULTS);
      loiter := new Loitering.LoiterTracker();
      lines := new LineCrossing.LineCrossingTracker();
      this.zones := zones;
      counts := found;
    }

    /** One turn of the frame loop, from the inferred detections to the rows handed on. */
    method ProcessFrame(i: Input)
      returns (rows: seq<ActiveObjects.Row>, loitering: set<string>, crossing: set<string>)
      requires Valid() && Enumerates(i.order, Classes(objects.Current(), i.detections))
      modifies this, objects, loiter, lines, active
      ensures Valid() && Current() == Turn(objects.p, zones, old(Current()), i)
      ensures rows == ActiveObjects.Rows(Current().seen, active.timeout, i.clock.rows, ActiveObjects.REPORTED)
      ensures forall s :: s in loitering <==>
        exists k :: Loitering.Due(Current().timers, zones, i.clock.loiterRows, k) && DetectionKeys.LoiteringKey(k.kind) == Some(s)
      ensures forall s :: s in crossing <==>
        s in Current().memory.active && Current().memory.active[s] > i.clock.lineRows
    {
      hide Frame, Confirm, Loitering.Tick, Loitering.Sighted, LineCrossing.ApplyAll, LineCrossing.ReportAll, ActiveObjects.MarkAll,
        Zones.Filter, Persist, TrackHistory.History, Loitering.Due, ActiveObjects.Rows, Enumerates, Classes;
      ghost var before := Current();
      var tracked := objects.Update(i.detections, i.order);
      loiter.Update(tracked, zones, i.clock.loiter);
      var crossings := lines.Update(tracked, zones, i.clock.line);
      counts := PersistAll(counts, crossings);
      active.Update(Zones.Filter(tracked, zones), i.clock.active);
      rows := active.DetectionRows(i.clock.rows);
      loitering := loiter.ActiveLoiteringKeys(zones, i.clock.loiterRows);
      crossing := lines.ActiveTriggerKeys(i.clock.lineRows);
    }

    static method PersistAll(counts: Counts, crossings: seq<LineCrossing.Crossing>) returns (r: Counts)
      ensures r == Persist(counts, crossings)
    {
      r := counts;
      for j := 0 to |crossings|
        invariant r == Persist(counts, crossings[..j])
      {
        assert crossings[..j + 1][..j] == crossings[..j];
        var c := crossings[j];
        r := r[(c.zone, c.direction) := (if (c.zone, c.direction) in r then r[(c.zone, c.direction)] else 0) + 1];
      }
      assert crossings[..|crossings|] == crossings;
    }
  }
}

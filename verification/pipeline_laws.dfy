/** End-to-end laws of a detection worker: what a flickering class cannot do, that ids keep the
    per-track memories apart, and that the persisted counts add up. */
module PipelineLaws {
  import opened Wrappers
  import Boxes
  import opened Tracking
  import TrackFrames
  import opened TrackHistory
  import opened TrackLaws
  import opened DetectionKeys
  import opened Zones
  import opened LineCrossing
  import Loitering
  import opened ActiveObjects
  import opened CrossingLaws
  import opened Pipeline

  /** The calls of the object tracker made by a run. */
  function Steps(inputs: seq<Input>): (r: seq<Step>)
    ensures |r| == |inputs|
  {
    if inputs == [] then []
    else
      var i := inputs[|inputs| - 1];
      Steps(inputs[..|inputs| - 1]) + [Step(i.detections, i.order)]
  }

  lemma {:induction false} StepsPrefix(inputs: seq<Input>)
    requires inputs != []
    ensures var n := |inputs| - 1;
      Steps(inputs)[..n] == Steps(inputs[..n]) && Steps(inputs)[n] == Step(inputs[n].detections, inputs[n].order)
  {
  }

  /** The detections surfaced in the last frame of a run. */
  function Surfaced(p: Params, inputs: seq<Input>): seq<Tracked>
    requires inputs != []
  {
    var n := |inputs| - 1;
    Confirm(Frame(p, Run(p, Steps(inputs[..n])).st, inputs[n].detections, inputs[n].order).sightings, p.minHits)
  }

  /** The worker's tracker is the object tracker run on its inputs. */
  lemma {:induction false} TrackerRun(p: Params, zones: seq<Zone>, found: Counts, inputs: seq<Input>)
    ensures RunWorker(p, zones, found, inputs).tracker == Run(p, Steps(inputs)).st
  {
    hide Frame;
    if inputs != [] {
      var n := |inputs| - 1;
      TrackerRun(p, zones, found, inputs[..n]);
      StepsPrefix(inputs);
    }
  }

  /** The atoms the line tracker goes through in a run. */
  function LineAtoms(p: Params, zones: seq<Zone>, inputs: seq<Input>): seq<Atom> {
    if inputs == [] then []
    else
      var n := |inputs| - 1;
      LineAtoms(p, zones, inputs[..n]) + UpdateAtoms(zones, Surfaced(p, inputs), inputs[n].clock.line)
  }

  lemma {:induction false} TurnUnfolded(p: Params, zones: seq<Zone>, found: Counts, inputs: seq<Input>)
    requires inputs != []
    ensures var n := |inputs| - 1;
      var w := RunWorker(p, zones, found, inputs[..n]);
      var tracked := Surfaced(p, inputs);
      var lines := ApplyAll(w.memory, UpdateAtoms(zones, tracked, inputs[n].clock.line));
      RunWorker(p, zones, found, inputs) == Worker(Run(p, Steps(inputs)).st,
        Loitering.Tick(w.timers, Loitering.Sighted(tracked, zones), inputs[n].clock.loiter),
        lines.memory, MarkAll(w.seen, Filter(tracked, zones), inputs[n].clock.active),
        Persist(w.counts, ReportAll(lines.events)))
  {
    hide Frame, Confirm, ApplyAll, MarkAll, Filter, Persist, ReportAll, Loitering.Tick, Loitering.Sighted, UpdateAtoms;
    var n := |inputs| - 1;
    TrackerRun(p, zones, found, inputs[..n]);
    TrackerRun(p, zones, found, inputs);
  }

  // ----- a class that is never surfaced -----

  /** Nothing in the worker speaks of class c. */
  ghost predicate Silent(w: Worker, c: string) {
    && c !in w.seen
    && (forall k :: k in w.timers.start ==> k.kind != c)
    && (forall d :: CrossingKey(c, d).Some? ==> CrossingKey(c, d).value !in w.memory.active)
  }

  lemma {:induction false} EventKinds(m: Memory, zones: seq<Zone>, detections: seq<Tracked>, now: real, c: string)
    requires forall d :: d in detections ==> d.key != c
    requires forall d :: CrossingKey(c, d).Some? ==> CrossingKey(c, d).value !in m.active
    ensures var end := ApplyAll(m, UpdateAtoms(zones, detections, now));
      forall d :: CrossingKey(c, d).Some? ==> CrossingKey(c, d).value !in end.memory.active
  {
    SweepKinds(m, Sweep(zones, detections, now), c, zones, detections, now);
    ApplySnoc(m, Sweep(zones, detections, now), Expire(now));
  }

  lemma {:induction false} AtomKinds(zones: seq<Zone>, detections: seq<Tracked>, now: real, a: Atom)
    requires a in Sweep(zones, detections, now)
    ensures a.Observe? && a.detection in detections && a.zone in zones
  {
    var n := |zones| - 1;
    if a in ZoneAtoms(zones[n], detections, now) {
    } else {
      AtomKinds(zones[..n], detections, now, a);
    }
  }

  lemma {:induction false} SweepKinds(m: Memory, atoms: seq<Atom>, c: string, zones: seq<Zone>, detections: seq<Tracked>, now: real)
    requires forall a :: a in atoms ==> a in Sweep(zones, detections, now)
    requires forall d :: d in detections ==> d.key != c
    requires forall d :: CrossingKey(c, d).Some? ==> CrossingKey(c, d).value !in m.active
    ensures forall d :: CrossingKey(c, d).Some? ==> CrossingKey(c, d).value !in ApplyAll(m, atoms).memory.active
  {
    if atoms != [] {
      var n := |atoms| - 1;
      SweepKinds(m, atoms[..n], c, zones, detections, now);
      var a := atoms[n];
      AtomKinds(zones, detections, now, a);
      FiredElsewhere(ApplyAll(m, atoms[..n]).memory, a, c);
    }
  }

  lemma FiredElsewhere(m: Memory, a: Atom, c: string)
    requires a.Observe? && a.detection.key != c
    requires forall d :: CrossingKey(c, d).Some? ==> CrossingKey(c, d).value !in m.active
    ensures forall d :: CrossingKey(c, d).Some? ==> CrossingKey(c, d).value !in Apply(m, a).memory.active
  {
    forall d, e | CrossingKey(c, d).Some? ensures CrossingKey(a.detection.key, e) != CrossingKey(c, d) {
      if CrossingKey(a.detection.key, e) == CrossingKey(c, d) {
        CrossingKeyInjective(c, d, a.detection.key, e);
      }
    }
  }

  lemma {:induction false} SilentTurn(p: Params, zones: seq<Zone>, found: Counts, inputs: seq<Input>, c: string)
    requires inputs != [] && Silent(RunWorker(p, zones, found, inputs[..|inputs| - 1]), c)
    requires forall r :: r in Surfaced(p, inputs) ==> r.key != c
    ensures Silent(RunWorker(p, zones, found, inputs), c)
  {
    hide RunWorker, Surfaced, ApplyAll, UpdateAtoms, Persist;
    var n := |inputs| - 1;
    var w := RunWorker(p, zones, found, inputs[..n]);
    var tracked := Surfaced(p, inputs);
    TurnUnfolded(p, zones, found, inputs);
    EventKinds(w.memory, zones, tracked, inputs[n].clock.line, c);
    forall d | d in Filter(tracked, zones) ensures d.key != c {
      FilterMember(tracked, zones, d);
    }
    MarkAllKeys(w.seen, Filter(tracked, zones), inputs[n].clock.active, c);
    assert forall k :: k in Loitering.Sighted(tracked, zones) ==> k.kind != c;
  }

  /** Main result: a flickering class never yields a confirmed detection, an active row, a dwell timer
      or a line crossing, in the whole run of a worker. */
  lemma {:induction false} FlickerEndToEnd(p: Params, zones: seq<Zone>, found: Counts, inputs: seq<Input>, c: string)
    requires p.minHits >= 2 && Orders(p, Steps(inputs)) && Flickers(p, Steps(inputs), c)
    ensures Silent(RunWorker(p, zones, found, inputs), c)
    ensures inputs != [] ==> forall r :: r in Surfaced(p, inputs) ==> r.key != c
  {
    hide Frame, Flickers, Orders, Surfaced;
    if inputs != [] {
      var n := |inputs| - 1;
      StepsPrefix(inputs);
      OrdersPrefix(p, Steps(inputs), n);
      FlickersPrefix(p, Steps(inputs), c, n);
      FlickerEndToEnd(p, zones, found, inputs[..n], c);
      FlickerSuppressed(p, Steps(inputs), c, n);
      SurfacedIsConfirmed(p, inputs);
      SilentTurn(p, zones, found, inputs, c);
    }
  }

  lemma {:induction false} SurfacedIsConfirmed(p: Params, inputs: seq<Input>)
    requires inputs != []
    ensures Surfaced(p, inputs) == Confirmed(p, Steps(inputs), |inputs| - 1)
  {
    hide Frame, Confirm;
    StepsPrefix(inputs);
    RunLogAt(p, Steps(inputs), |inputs| - 1);
  }

  lemma FlickersPrefix(p: Params, steps: seq<Step>, c: string, k: nat)
    requires Flickers(p, steps, c) && k <= |steps|
    ensures Flickers(p, steps[..k], c)
  {
    forall f: nat, g: nat, d, e |
      (f < k && g < k && WithinReach(p, f, g)
       && d in steps[..k][f].detections && e in steps[..k][g].detections && d.key == c && e.key == c)
      ensures Boxes.IoU(d.box, e.box) < p.threshold
    {
      assert d in steps[f].detections && e in steps[g].detections;
    }
  }

  /** Every reported crossing comes from an observed detection of its class. */
  lemma {:induction false} EventOrigin(m: Memory, atoms: seq<Atom>, c: string)
    requires forall a :: a in atoms && a.Observe? ==> a.detection.key != c
    ensures forall e :: e in ApplyAll(m, atoms).events ==> e.kind != c
  {
    if atoms != [] { EventOrigin(m, atoms[..|atoms| - 1], c); }
  }

  lemma {:induction false} AtomsAvoid(p: Params, zones: seq<Zone>, inputs: seq<Input>, c: string)
    requires p.minHits >= 2 && Orders(p, Steps(inputs)) && Flickers(p, Steps(inputs), c)
    ensures forall a :: a in LineAtoms(p, zones, inputs) && a.Observe? ==> a.detection.key != c
  {
    hide Frame, Flickers, Orders, Surfaced;
    if inputs != [] {
      var n := |inputs| - 1;
      StepsPrefix(inputs);
      OrdersPrefix(p, Steps(inputs), n);
      FlickersPrefix(p, Steps(inputs), c, n);
      AtomsAvoid(p, zones, inputs[..n], c);
      FlickerEndToEnd(p, zones, map[], inputs, c);
      var tracked := Surfaced(p, inputs);
      forall a | a in Sweep(zones, tracked, inputs[n].clock.line) ensures a.Observe? && a.detection.key != c {
        AtomKinds(zones, tracked, inputs[n].clock.line, a);
      }
    }
  }

  /** Main result: nor is any crossing of it reported in the whole run. */
  lemma {:induction false} FlickerNeverCrosses(p: Params, zones: seq<Zone>, inputs: seq<Input>, c: string)
    requires p.minHits >= 2 && Orders(p, Steps(inputs)) && Flickers(p, Steps(inputs), c)
    ensures forall e :: e in ApplyAll(EMPTY, LineAtoms(p, zones, inputs)).events ==> e.kind != c
  {
    AtomsAvoid(p, zones, inputs, c);
    EventOrigin(EMPTY, LineAtoms(p, zones, inputs), c);
  }

  /** What that means to the outside: in every run, at any time, no row of a flickering class is active, be it
      of the class itself, of loitering or of a line crossed. */
  lemma {:induction false} FlickerInvisible(p: Params, zones: seq<Zone>, found: Counts, inputs: seq<Input>, c: string, timeout: real, now: real)
    requires p.minHits >= 2 && Orders(p, Steps(inputs)) && Flickers(p, Steps(inputs), c)
    ensures var w := RunWorker(p, zones, found, inputs);
      && (forall r :: r in Rows(w.seen, timeout, now, REPORTED) && r.key == c ==> !r.active)
      && (LoiteringKey(c).Some? ==> !exists k :: Loitering.Due(w.timers, zones, now, k) && LoiteringKey(k.kind) == LoiteringKey(c))
      && (forall d, s :: CrossingKey(c, d) == Some(s) ==> !(s in w.memory.active && w.memory.active[s] > now))
  {
    hide Frame, Flickers, Orders, RunWorker, Rows;
    var w := RunWorker(p, zones, found, inputs);
    FlickerEndToEnd(p, zones, found, inputs, c);
    forall r | r in Rows(w.seen, timeout, now, REPORTED) && r.key == c ensures !r.active {
      RowsMember(w.seen, timeout, now, REPORTED, r);
    }
    if LoiteringKey(c).Some? {
      forall k | Loitering.Due(w.timers, zones, now, k) ensures LoiteringKey(k.kind) != LoiteringKey(c) {
        if LoiteringKey(k.kind) == LoiteringKey(c) {
          LoiteringKeyInjective(c, k.kind);
        }
      }
    }
  }

  // ----- ids keep tracks apart -----

  ghost predicate DistinctTracks(s: seq<Tracked>) {
    forall i, j :: 0 <= i < j < |s| ==> s[i].trackId != s[j].trackId
  }

  lemma {:induction false} ConfirmDistinct(s: seq<Track>, minHits: int)
    requires TrackFrames.DistinctIds(s)
    ensures DistinctTracks(Confirm(s, minHits))
  {
    if s != [] {
      var n := |s| - 1;
      ConfirmDistinct(s[..n], minHits);
      forall r | r in Confirm(s[..n], minHits) ensures r.trackId != s[n].id {
        ConfirmMember(s[..n], minHits, r);
        var t :| t in s[..n] && ToTracked(t) == r;
        var i :| 0 <= i < n && s[i] == t;
      }
    }
  }

  /** No frame surfaces an id twice, so a line or loiter zone meets each track once per frame. */
  lemma {:induction false} SurfacedDistinct(p: Params, inputs: seq<Input>)
    requires inputs != [] && Orders(p, Steps(inputs))
    ensures DistinctTracks(Surfaced(p, inputs))
  {
    hide Frame;
    var n := |inputs| - 1;
    RunConservation(p, Steps(inputs), n);
    SurfacedIsConfirmed(p, inputs);
    ConfirmDistinct(Run(p, Steps(inputs)).log[n], p.minHits);
  }

  // ----- the persisted counts -----

  /** How many crossings of a zone in one direction. */
  function Tally(events: seq<Event>, id: int, d: Direction): nat {
    if events == [] then 0
    else
      var e := events[|events| - 1];
      Tally(events[..|events| - 1], id, d) + if e.key.zone == id && e.direction == d then 1 else 0
  }

  lemma {:induction false} TallyConcat(a: seq<Event>, b: seq<Event>, id: int, d: Direction)
    ensures Tally(a + b, id, d) == Tally(a, id, d) + Tally(b, id, d)
  {
    if b == [] {
      assert a + b == a;
    } else {
      var n := |b| - 1;
      assert (a + b)[..|a| + n] == a + b[..n];
      TallyConcat(a, b[..n], id, d);
    }
  }

  lemma {:induction false} NetTally(events: seq<Event>, id: int)
    ensures Net(events, id) == Tally(events, id, In) - Tally(events, id, Out)
  {
    if events != [] { NetTally(events[..|events| - 1], id); }
  }

  /** Persisting adds one to the count of the zone and the direction, and to no other. */
  lemma {:induction false} PersistTally(counts: Counts, events: seq<Event>, id: int, d: Direction)
    ensures Stored(Persist(counts, ReportAll(events)), id, d) == Stored(counts, id, d) + Tally(events, id, d)
  {
    if events != [] {
      var n := |events| - 1;
      PersistTally(counts, events[..n], id, d);
      var before := ReportAll(events[..n]);
      assert (before + [Report(events[n])])[..|before|] == before;
    }
  }

  /** The worker's line memory is that of its atoms, and each persisted count grows, from whatever it was found
      at, by the number of their crossings in that zone and direction. */
  lemma {:induction false} LineRun(p: Params, zones: seq<Zone>, found: Counts, inputs: seq<Input>, id: int, d: Direction)
    ensures RunWorker(p, zones, found, inputs).memory == ApplyAll(EMPTY, LineAtoms(p, zones, inputs)).memory
    ensures Stored(RunWorker(p, zones, found, inputs).counts, id, d)
         == Stored(found, id, d) + Tally(ApplyAll(EMPTY, LineAtoms(p, zones, inputs)).events, id, d)
  {
    hide Surfaced, UpdateAtoms, Filter, MarkAll, Loitering.Tick, Loitering.Sighted, Persist, ReportAll;
    if inputs != [] {
      var n := |inputs| - 1;
      var w := RunWorker(p, zones, found, inputs[..n]);
      var more := UpdateAtoms(zones, Surfaced(p, inputs), inputs[n].clock.line);
      LineRun(p, zones, found, inputs[..n], id, d);
      TurnUnfolded(p, zones, found, inputs);
      ApplyConcat(EMPTY, LineAtoms(p, zones, inputs[..n]), more);
      TallyConcat(ApplyAll(EMPTY, LineAtoms(p, zones, inputs[..n])).events, ApplyAll(w.memory, more).events, id, d);
      PersistTally(w.counts, ApplyAll(w.memory, more).events, id, d);
    }
  }

  lemma {:induction false} LineAtomsZones(p: Params, zones: seq<Zone>, inputs: seq<Input>, a: Atom)
    requires a in LineAtoms(p, zones, inputs) && a.Observe?
    ensures a.zone in zones
  {
    var n := |inputs| - 1;
    if a !in LineAtoms(p, zones, inputs[..n]) {
      AtomKinds(zones, Surfaced(p, inputs), inputs[n].clock.line, a);
    } else {
      LineAtomsZones(p, zones, inputs[..n], a);
    }
  }

  /** #in - #out as stored. */
  function StoredNet(counts: Counts, id: int): int { Stored(counts, id, In) - Stored(counts, id, Out) }

  /** Main result: over every run of a worker whose moves across line z are faithful, the change of the stored
      in-count minus out-count, plus the tracks first seen inside and minus those forgotten inside, is
      the number of tracks now on the "in" side. */
  lemma {:induction false} WorkerOccupancy(p: Params, zones: seq<Zone>, found: Counts, inputs: seq<Input>, z: Zone)
    requires z in zones && IsLine(z) && forall y :: y in zones && y.id == z.id ==> y == z
    requires AllFaithful(EMPTY, LineAtoms(p, zones, inputs), z)
    ensures var w := RunWorker(p, zones, found, inputs);
      var atoms := LineAtoms(p, zones, inputs);
      StoredNet(w.counts, z.id) - StoredNet(found, z.id)
      + Entered(EMPTY, atoms, z) - Forgotten(EMPTY, atoms, z) == |Inside(w.memory, z)|
  {
    hide ApplyAll, RunWorker, LineAtoms, AllFaithful, Entered, Forgotten;
    var atoms := LineAtoms(p, zones, inputs);
    forall i | 0 <= i < |atoms| && atoms[i].Observe? && atoms[i].zone.id == z.id ensures atoms[i].zone == z {
      LineAtomsZones(p, zones, inputs, atoms[i]);
    }
    LineRun(p, zones, found, inputs, z.id, In);
    LineRun(p, zones, found, inputs, z.id, Out);
    NetTally(ApplyAll(EMPTY, atoms).events, z.id);
    Occupancy(EMPTY, atoms, z);
    assert Inside(EMPTY, z) == {};
  }
}

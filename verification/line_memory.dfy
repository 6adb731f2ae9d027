/** How long the line tracker remembers a track, and which of its moves are therefore reported, in terms of the
    calls of `update` alone. */
module LineMemory {
  import opened Geometry
  import Tracking
  import opened DetectionKeys
  import opened Zones
  import opened LineCrossing
  import opened CrossingLaws
  import opened GraceHistory

  datatype Call = Call(zones: seq<Zone>, detections: seq<Tracking.Tracked>, now: real)

  /** The pairs of zone and track that a call observes. */
  function Observed(c: Call): set<Key> {
    set z, d | z in c.zones && d in c.detections && Concerned(z, d, Key(z.id, d.trackId)) :: Key(z.id, d.trackId)
  }

  function UpdatesOf(calls: seq<Call>): (us: seq<Update<Key>>)
    ensures |us| == |calls|
    ensures forall i :: 0 <= i < |calls| ==> us[i] == Update(calls[i].now, Observed(calls[i]))
  {
    seq(|calls|, i requires 0 <= i < |calls| => Update(calls[i].now, Observed(calls[i])))
  }

  /** The tracker's memory after these calls. */
  function After(calls: seq<Call>): Memory {
    if calls == [] then EMPTY
    else
      var c := calls[|calls| - 1];
      ApplyAll(After(calls[..|calls| - 1]), UpdateAtoms(c.zones, c.detections, c.now)).memory
  }

  // ----- one call -----

  /** A call observes every detection for every zone, and nothing else. */
  lemma {:induction false} SweepExactly(zones: seq<Zone>, detections: seq<Tracking.Tracked>, now: real, a: Atom)
    ensures a in Sweep(zones, detections, now) <==> exists z, d :: z in zones && d in detections && a == Observe(z, d, now)
  {
    if zones != [] {
      var n := |zones| - 1;
      SweepExactly(zones[..n], detections, now, a);
      ZoneAtomsExactly(zones[n], detections, now, a);
      assert forall z :: z in zones <==> z in zones[..n] || z == zones[n];
    }
  }

  lemma {:induction false} ZoneAtomsExactly(z: Zone, detections: seq<Tracking.Tracked>, now: real, a: Atom)
    ensures a in ZoneAtoms(z, detections, now) <==> exists d :: d in detections && a == Observe(z, d, now)
  {
    if d :| d in detections && a == Observe(z, d, now) {
      var i :| 0 <= i < |detections| && detections[i] == d;
      assert ZoneAtoms(z, detections, now)[i] == a;
    }
  }

  /** The atoms are observations at one time. */
  ghost predicate AtTime(atoms: seq<Atom>, now: real) {
    forall a :: a in atoms ==> a.Observe? && a.now == now
  }

  ghost predicate Touches(atoms: seq<Atom>, k: Key) {
    exists a :: a in atoms && a.Observe? && Concerned(a.zone, a.detection, k)
  }

  ghost predicate FromAtom(atoms: seq<Atom>, k: Key, p: Point) {
    exists a :: a in atoms && a.Observe? && Concerned(a.zone, a.detection, k) && p == Centroid(a.detection.box)
  }

  /** What observations at one time do to one key. */
  lemma {:induction false} SweepMemory(m: Memory, atoms: seq<Atom>, now: real, k: Key)
    requires AtTime(atoms, now) && (k in m.centroid <==> k in m.seen)
    ensures var r := ApplyAll(m, atoms).memory;
      && (k in r.centroid <==> k in r.seen)
      && (Touches(atoms, k) ==> k in r.seen && r.seen[k] == now && FromAtom(atoms, k, r.centroid[k]))
      && (!Touches(atoms, k) ==> (k in r.seen <==> k in m.seen) && (k in m.seen ==> r.seen[k] == m.seen[k] && r.centroid[k] == m.centroid[k]))
  {
    hide SegmentsIntersect;
    if atoms != [] {
      var n := |atoms| - 1;
      var a := atoms[n];
      assert a in atoms && forall b :: b in atoms <==> b in atoms[..n] || b == a;
      SweepMemory(m, atoms[..n], now, k);
      AtomMemory(ApplyAll(m, atoms[..n]).memory, a, k);
    }
  }

  lemma AtomMemory(m: Memory, a: Atom, k: Key)
    requires a.Observe? && (k in m.centroid <==> k in m.seen)
    ensures var r := Apply(m, a).memory;
      && (k in r.centroid <==> k in r.seen)
      && (if Concerned(a.zone, a.detection, k) then k in r.seen && r.seen[k] == a.now && r.centroid[k] == Centroid(a.detection.box)
          else (k in r.seen <==> k in m.seen) && (k in m.seen ==> r.seen[k] == m.seen[k] && r.centroid[k] == m.centroid[k]))
  {
    hide SegmentsIntersect, Fired;
  }

  /** A call touches exactly the keys it observes, each with one of its detections. */
  lemma {:induction false} CallTouches(c: Call, k: Key)
    ensures Touches(Sweep(c.zones, c.detections, c.now), k) <==> k in Observed(c)
    ensures AtTime(Sweep(c.zones, c.detections, c.now), c.now)
  {
    var atoms := Sweep(c.zones, c.detections, c.now);
    forall a ensures a in atoms <==> exists z, d :: z in c.zones && d in c.detections && a == Observe(z, d, c.now) {
      SweepExactly(c.zones, c.detections, c.now, a);
    }
    if k in Observed(c) {
      var z, d :| z in c.zones && d in c.detections && Concerned(z, d, Key(z.id, d.trackId)) && k == Key(z.id, d.trackId);
      assert Observe(z, d, c.now) in atoms;
    }
  }

  /** In a call some detection of k's track, seen for k's zone, has this centroid. */
  ghost predicate CentroidIn(c: Call, k: Key, p: Point) {
    exists z, d :: z in c.zones && d in c.detections && Concerned(z, d, k) && p == Centroid(d.box)
  }

  ghost predicate Paired(m: Memory) { m.centroid.Keys == m.seen.Keys }

  lemma {:induction false} CallMemory(m: Memory, c: Call)
    requires Paired(m)
    ensures var r := ApplyAll(m, UpdateAtoms(c.zones, c.detections, c.now)).memory;
      && Paired(r) && r.seen == SeenTick(m.seen, Update(c.now, Observed(c)))
      && forall k :: k in r.centroid ==>
        if k in Observed(c) then CentroidIn(c, k, r.centroid[k]) else k in m.centroid && r.centroid[k] == m.centroid[k]
  {
    hide ApplyAll, Sweep;
    var atoms := Sweep(c.zones, c.detections, c.now);
    var mid := ApplyAll(m, atoms).memory;
    ApplySnoc(m, atoms, Expire(c.now));
    forall k ensures (k in mid.centroid <==> k in mid.seen) && (k in mid.seen <==> k in m.seen || k in Observed(c))
        && (k in mid.seen ==> mid.seen[k] == if k in Observed(c) then c.now else m.seen[k])
        && (k in mid.centroid ==> if k in Observed(c) then CentroidIn(c, k, mid.centroid[k]) else k in m.centroid && mid.centroid[k] == m.centroid[k])
    {
      CallTouches(c, k);
      SweepMemory(m, atoms, c.now, k);
      if k in Observed(c) { TouchedCentroid(c, k, mid.centroid[k]); }
    }
    assert mid.seen == Refreshed(m.seen, Observed(c), c.now);
    assert Stale(mid, c.now) == Lapsed(mid.seen, c.now);
  }

  lemma {:induction false} TouchedCentroid(c: Call, k: Key, p: Point)
    requires FromAtom(Sweep(c.zones, c.detections, c.now), k, p)
    ensures CentroidIn(c, k, p)
  {
    var a :| a in Sweep(c.zones, c.detections, c.now) && a.Observe? && Concerned(a.zone, a.detection, k) && p == Centroid(a.detection.box);
    SweepExactly(c.zones, c.detections, c.now, a);
  }

  // ----- runs of calls -----

  lemma {:induction false} AfterSeen(calls: seq<Call>)
    ensures Paired(After(calls)) && After(calls).seen == SeenRun(UpdatesOf(calls))
  {
    hide ApplyAll, UpdateAtoms, Observed, SeenTick;
    if calls != [] {
      var n := |calls| - 1;
      AfterSeen(calls[..n]);
      assert UpdatesOf(calls)[..n] == UpdatesOf(calls[..n]);
      CallMemory(After(calls[..n]), calls[n]);
    }
  }

  lemma {:induction false} AfterCentroid(calls: seq<Call>, k: Key)
    requires k in After(calls).centroid
    ensures var last := LastSighting(UpdatesOf(calls), k, |calls| - 1);
      0 <= last < |calls| && CentroidIn(calls[last], k, After(calls).centroid[k])
  {
    hide ApplyAll, UpdateAtoms, Observed, SeenTick, CentroidIn;
    var n := |calls| - 1;
    AfterSeen(calls[..n]);
    CallMemory(After(calls[..n]), calls[n]);
    if k !in Observed(calls[n]) {
      AfterCentroid(calls[..n], k);
      assert UpdatesOf(calls)[..n] == UpdatesOf(calls[..n]);
      LastSightingPrefix(UpdatesOf(calls), n, k, n - 1);
    }
  }

  /** Main result: after any calls a zone and track are remembered exactly if, at every call since some
      observation of them, the latest one was at most 3 seconds old; what is remembered is the centroid and the
      time of the latest observation. */
  lemma {:induction false} RememberedExactly(calls: seq<Call>, k: Key)
    ensures var us, m := UpdatesOf(calls), After(calls);
      && (k in m.centroid <==> k in m.seen)
      && (k in m.seen <==> exists a :: Alive(us, k, a))
      && (k in m.seen ==>
            var last := LastSighting(us, k, |us| - 1);
            0 <= last < |calls| && m.seen[k] == calls[last].now && CentroidIn(calls[last], k, m.centroid[k]))
  {
    hide SeenRun, LastSighting, CentroidIn, After;
    AfterSeen(calls);
    var a := SeenExact(UpdatesOf(calls), k);
    if k in After(calls).seen { AfterCentroid(calls, k); }
  }

  /** Every call from a on is at most 3 seconds later than one, from a on, that observes k. */
  ghost predicate KeptUp(calls: seq<Call>, k: Key, a: int) {
    && 0 <= a < |calls| && k in Observed(calls[a])
    && forall j :: a <= j < |calls| ==> exists i :: a <= i <= j && k in Observed(calls[i]) && calls[j].now - calls[i].now <= 3.0
  }

  /** So a track observed at most 3 seconds apart is never forgotten. */
  lemma {:induction false} NeverForgotten(calls: seq<Call>, k: Key, a: int)
    requires Nondecreasing(UpdatesOf(calls)) && KeptUp(calls, k, a)
    ensures k in After(calls).seen && k in After(calls).centroid
  {
    hide After, LastSighting, Observed;
    var us := UpdatesOf(calls);
    forall j | a <= j < |us| ensures Covered(us, k, j) {
      var i :| a <= i <= j && k in Observed(calls[i]) && calls[j].now - calls[i].now <= 3.0;
      assert k in us[i].sighted && us[i].now <= us[LastSighting(us, k, j)].now;
    }
    assert Alive(us, k, a);
    RememberedExactly(calls, k);
  }

  // ----- which moves are reported -----

  ghost predicate DistinctZones(zones: seq<Zone>) {
    forall i, j :: 0 <= i < j < |zones| ==> zones[i].id != zones[j].id
  }

  ghost predicate DistinctTracks(s: seq<Tracking.Tracked>) {
    forall i, j :: 0 <= i < j < |s| ==> s[i].trackId != s[j].trackId
  }

  /** The directions reported for k among some events. */
  function DirectionsOf(events: seq<Event>, k: Key): seq<Direction> {
    if events == [] then []
    else
      var e := events[|events| - 1];
      DirectionsOf(events[..|events| - 1], k) + if e.key == k then [e.direction] else []
  }

  lemma {:induction false} DirectionsConcat(a: seq<Event>, b: seq<Event>, k: Key)
    ensures DirectionsOf(a + b, k) == DirectionsOf(a, k) + DirectionsOf(b, k)
  {
    if b == [] {
      assert a + b == a;
    } else {
      var n := |b| - 1;
      assert (a + b)[..|a| + n] == a + b[..n];
      DirectionsConcat(a, b[..n], k);
    }
  }

  /** What one observation reports for k. */
  lemma {:induction false} AtomDirections(m: Memory, a: Atom, k: Key)
    requires a.Observe?
    ensures DirectionsOf(Apply(m, a).events, k) ==
      if Concerned(a.zone, a.detection, k) && k in m.centroid
         && SharePoint(m.centroid[k], Centroid(a.detection.box), a.zone.points[0], a.zone.points[1])
      then [if CrossingSide(Centroid(a.detection.box), a.zone.points[0], a.zone.points[1]) > 0.0 then In else Out] else []
  {
    hide SegmentsIntersect, CrossingSide, SharePoint;
    if Concerned(a.zone, a.detection, k) && k in m.centroid {
      SegmentsIntersectExact(m.centroid[k], Centroid(a.detection.box), a.zone.points[0], a.zone.points[1]);
    }
    var events := Apply(m, a).events;
    if events != [] { assert events == [events[0]] && [events[0]][..0] == []; }
  }

  /** Observations that do not concern k report nothing for it. */
  lemma {:induction false} OtherAtoms(m: Memory, atoms: seq<Atom>, k: Key)
    requires (forall a :: a in atoms ==> a.Observe?) && !Touches(atoms, k)
    ensures DirectionsOf(ApplyAll(m, atoms).events, k) == []
  {
    hide Apply, SharePoint, CrossingSide;
    if atoms != [] {
      var n := |atoms| - 1;
      assert atoms[n] in atoms && forall b :: b in atoms[..n] ==> b in atoms;
      var before := ApplyAll(m, atoms[..n]);
      OtherAtoms(m, atoms[..n], k);
      AtomDirections(before.memory, atoms[n], k);
      DirectionsConcat(before.events, Apply(before.memory, atoms[n]).events, k);
    }
  }

  /** Observations of which exactly one concerns k. */
  lemma {:induction false} OneAtom(m: Memory, before: seq<Atom>, a: Atom, after: seq<Atom>, k: Key, now: real)
    requires Paired(m) && AtTime(before, now) && AtTime(after, now) && a.Observe?
    requires !Touches(before, k) && !Touches(after, k)
    ensures DirectionsOf(ApplyAll(m, before + [a] + after).events, k) == DirectionsOf(Apply(m, a).events, k)
  {
    hide ApplyAll, Apply, SharePoint, CrossingSide;
    ApplyConcat(m, before + [a], after);
    ApplySnoc(m, before, a);
    var first := ApplyAll(m, before);
    var second := Apply(first.memory, a);
    var third := ApplyAll(ApplyAll(m, before + [a]).memory, after);
    OtherAtoms(m, before, k);
    OtherAtoms(ApplyAll(m, before + [a]).memory, after, k);
    SweepMemory(m, before, now, k);
    AtomDirections(first.memory, a, k);
    AtomDirections(m, a, k);
    DirectionsConcat(first.events, second.events, k);
    DirectionsConcat(first.events + second.events, third.events, k);
  }

  lemma {:induction false} UntouchedZone(z: Zone, detections: seq<Tracking.Tracked>, now: real, k: Key)
    requires forall d :: d in detections ==> !Concerned(z, d, k)
    ensures !Touches(ZoneAtoms(z, detections, now), k) && AtTime(ZoneAtoms(z, detections, now), now)
  {
  }

  lemma {:induction false} UntouchedZones(zones: seq<Zone>, detections: seq<Tracking.Tracked>, now: real, k: Key)
    requires forall z :: z in zones ==> z.id != k.zone
    ensures !Touches(Sweep(zones, detections, now), k) && AtTime(Sweep(zones, detections, now), now)
  {
    forall a | a in Sweep(zones, detections, now) ensures a.Observe? && a.now == now && a.zone in zones {
      SweepExactly(zones, detections, now, a);
    }
  }

  lemma {:induction false} IsolateDetection(z: Zone, detections: seq<Tracking.Tracked>, now: real, d: Tracking.Tracked, k: Key)
    returns (before: seq<Atom>, after: seq<Atom>)
    requires DistinctTracks(detections) && d in detections && k == Key(z.id, d.trackId)
    ensures ZoneAtoms(z, detections, now) == before + [Observe(z, d, now)] + after
    ensures !Touches(before, k) && AtTime(before, now) && !Touches(after, k) && AtTime(after, now)
  {
    var i :| 0 <= i < |detections| && detections[i] == d;
    before, after := ZoneAtoms(z, detections[..i], now), ZoneAtoms(z, detections[i + 1..], now);
    UntouchedZone(z, detections[..i], now, k);
    UntouchedZone(z, detections[i + 1..], now, k);
  }

  /** Where zones and tracks are distinct, one observation of a call concerns k. */
  lemma {:induction false} Isolate(zones: seq<Zone>, detections: seq<Tracking.Tracked>, now: real, z: Zone, d: Tracking.Tracked, k: Key)
    returns (before: seq<Atom>, after: seq<Atom>)
    requires DistinctZones(zones) && DistinctTracks(detections) && z in zones && d in detections && k == Key(z.id, d.trackId)
    ensures Sweep(zones, detections, now) == before + [Observe(z, d, now)] + after
    ensures !Touches(before, k) && AtTime(before, now) && !Touches(after, k) && AtTime(after, now)
  {
    hide Touches, AtTime;
    var n := |zones| - 1;
    var rest, last := zones[..n], ZoneAtoms(zones[n], detections, now);
    if zones[n] == z {
      forall y | y in rest ensures y.id != k.zone {
        var i :| 0 <= i < |rest| && rest[i] == y;
        assert zones[i] == y;
      }
      UntouchedZones(rest, detections, now, k);
      before, after := IsolateDetection(z, detections, now, d, k);
      Joined(Sweep(rest, detections, now), before, now, k);
      before := Sweep(rest, detections, now) + before;
    } else {
      before, after := Isolate(rest, detections, now, z, d, k);
      var i :| 0 <= i < n && zones[i] == z;
      assert zones[n].id != k.zone;
      UntouchedZone(zones[n], detections, now, k);
      Joined(after, last, now, k);
      after := after + last;
    }
  }

  lemma Joined(a: seq<Atom>, b: seq<Atom>, now: real, k: Key)
    requires !Touches(a, k) && !Touches(b, k) && AtTime(a, now) && AtTime(b, now)
    ensures !Touches(a + b, k) && AtTime(a + b, now)
  {
  }

  /** The move from p to the centroid of d as z reports it. */
  ghost predicate Reported(s: seq<Direction>, p: Point, z: Zone, d: Tracking.Tracked)
    requires IsLine(z)
  {
    s == if SharePoint(p, Centroid(d.box), z.points[0], z.points[1])
         then [if CrossingSide(Centroid(d.box), z.points[0], z.points[1]) > 0.0 then In else Out] else []
  }

  /** Main result: a call that observes a track for a line reports its move from where it was observed last
      exactly if the track is still remembered and the move meets the drawn segment, in the direction of the
      side it ends on; it reports nothing else for it. */
  lemma {:induction false} MoveReported(calls: seq<Call>, c: Call, z: Zone, d: Tracking.Tracked)
    requires DistinctZones(c.zones) && DistinctTracks(c.detections) && z in c.zones && d in c.detections
    requires IsLine(z) && Concerns(z, d.key)
    ensures var k, us := Key(z.id, d.trackId), UpdatesOf(calls);
      var s := DirectionsOf(ApplyAll(After(calls), UpdateAtoms(c.zones, c.detections, c.now)).events, k);
      if exists a :: Alive(us, k, a) then
        var last := LastSighting(us, k, |us| - 1);
        0 <= last < |calls| && exists p :: CentroidIn(calls[last], k, p) && Reported(s, p, z, d)
      else s == []
  {
    hide ApplyAll, Sweep, After, LastSighting, CentroidIn, SharePoint, CrossingSide, UpdatesOf, Concerns;
    var k, m := Key(z.id, d.trackId), After(calls);
    var a := Observe(z, d, c.now);
    RememberedExactly(calls, k);
    AfterSeen(calls);
    var before, after := Isolate(c.zones, c.detections, c.now, z, d, k);
    OneAtom(m, before, a, after, k, c.now);
    AtomDirections(m, a, k);
    ApplySnoc(m, Sweep(c.zones, c.detections, c.now), Expire(c.now));
    var events := ApplyAll(m, Sweep(c.zones, c.detections, c.now)).events;
    assert Apply(ApplyAll(m, Sweep(c.zones, c.detections, c.now)).memory, Expire(c.now)).events == [];
    assert events + [] == events;
    if k in m.seen { assert Reported(DirectionsOf(events, k), m.centroid[k], z, d); }
  }

  /** The event is the crossing of a line zone by a detection of this call that the zone concerns. */
  ghost predicate MadeBy(e: Event, zones: seq<Zone>, detections: seq<Tracking.Tracked>, now: real) {
    exists z, d :: (
      && z in zones && IsLine(z) && d in detections && (z.classes == [] || d.key in z.classes)
      && e.key == Key(z.id, d.trackId) && e.kind == d.key && e.at == now)
  }

  lemma {:induction false} EventOf(m: Memory, atoms: seq<Atom>, e: Event) returns (a: Atom)
    requires e in ApplyAll(m, atoms).events
    ensures a in atoms && a.Observe? && IsLine(a.zone) && Concerns(a.zone, a.detection.key)
    ensures e.key == KeyOf(a.zone, a.detection) && e.kind == a.detection.key && e.at == a.now
  {
    hide SegmentsIntersect, CrossingSide;
    var n := |atoms| - 1;
    var before := ApplyAll(m, atoms[..n]);
    if e in before.events {
      a := EventOf(m, atoms[..n], e);
    } else {
      a := atoms[n];
    }
  }

  /** Main result: the crossings a call returns are its events in order, each with the zone, the class and the direction
      of one, and each event is made by a line zone and a detection of the call. */
  lemma {:induction false} ReportsExactly(m: Memory, zones: seq<Zone>, detections: seq<Tracking.Tracked>, now: real)
    ensures var events := ApplyAll(m, UpdateAtoms(zones, detections, now)).events;
      && |ReportAll(events)| == |events|
      && forall i :: 0 <= i < |events| ==>
        && ReportAll(events)[i] == Crossing(events[i].key.zone, events[i].kind, events[i].direction)
        && MadeBy(events[i], zones, detections, now)
  {
    hide ApplyAll, Sweep, Concerns;
    var atoms := UpdateAtoms(zones, detections, now);
    var events := ApplyAll(m, atoms).events;
    ReportsAt(events);
    forall i | 0 <= i < |events| ensures MadeBy(events[i], zones, detections, now) {
      var a := EventOf(m, atoms, events[i]);
      SweepExactly(zones, detections, now, a);
      ConcernsClass(a.zone, a.detection.key);
    }
  }

  lemma ConcernsClass(z: Zone, key: string)
    ensures Concerns(z, key) <==> z.classes == [] || key in z.classes
  {
  }

  lemma {:induction false} ReportsAt(s: seq<Event>)
    ensures |ReportAll(s)| == |s|
    ensures forall i :: 0 <= i < |s| ==> ReportAll(s)[i] == Crossing(s[i].key.zone, s[i].kind, s[i].direction)
  {
    if s != [] { ReportsAt(s[..|s| - 1]); }
  }
}

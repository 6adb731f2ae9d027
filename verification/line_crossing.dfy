/** `LineCrossingTracker`: which tracks cross a drawn line, and in which direction. */
module LineCrossing {
  import Geometry
  import opened Tracking
  import opened DetectionKeys
  import opened Zones

  const CENTROID_GRACE_SECONDS := 3.0
  const TRIGGER_ACTIVE_SECONDS := 3.0

  /** A zone and a track. */
  datatype Key = Key(zone: int, track: int)

  datatype Memory = Memory(centroid: map<Key, Geometry.Point>, seen: map<Key, real>, active: map<string, real>)

  const EMPTY := Memory(map[], map[], map[])

  /** A crossing with the track that made it and its time; the code reports it without these two. */
  datatype Event = Event(key: Key, kind: string, direction: Direction, at: real)

  datatype Crossing = Crossing(zone: int, kind: string, direction: Direction)

  function Report(e: Event): Crossing { Crossing(e.key.zone, e.kind, e.direction) }

  function ReportAll(s: seq<Event>): seq<Crossing> {
    if s == [] then [] else ReportAll(s[..|s| - 1]) + [Report(s[|s| - 1])]
  }

  predicate IsLine(z: Zone) { z.mode == Line && |z.points| == 2 }

  function Towards(p: Geometry.Point, z: Zone): Direction
    requires IsLine(z)
  {
    if Geometry.CrossingSide(p, z.points[0], z.points[1]) > 0.0 then In else Out
  }

  // ----- atomic effects of an update -----

  /** One detection looked at for one zone, or the expiry at the end of an update. */
  datatype Atom = Observe(zone: Zone, detection: Tracked, now: real) | Expire(now: real)

  datatype Effect = Effect(memory: Memory, events: seq<Event>)

  function KeyOf(z: Zone, d: Tracked): Key { Key(z.id, d.trackId) }

  /** The crossing found when the centroid moves from `before` to that of d. */
  predicate Crosses(before: Geometry.Point, z: Zone, d: Tracked)
    requires IsLine(z)
  {
    Geometry.SegmentsIntersect(before, Centroid(d.box), z.points[0], z.points[1])
  }

  function Fired(active: map<string, real>, d: Tracked, direction: Direction, now: real): map<string, real> {
    var trigger := CrossingKey(d.key, direction);
    if trigger.Some? then active[trigger.value := now + TRIGGER_ACTIVE_SECONDS] else active
  }

  function ObserveOne(m: Memory, z: Zone, d: Tracked, now: real): Effect {
    if !IsLine(z) || !Concerns(z, d.key) then Effect(m, [])
    else
      var k := KeyOf(z, d);
      var moved := Memory(m.centroid[k := Centroid(d.box)], m.seen[k := now], m.active);
      if k !in m.centroid || !Crosses(m.centroid[k], z, d) then Effect(moved, [])
      else
        var direction := Towards(Centroid(d.box), z);
        Effect(moved.(active := Fired(m.active, d, direction, now)), [Event(k, d.key, direction, now)])
  }

  function Stale(m: Memory, now: real): set<Key> {
    set k | k in m.seen && now - m.seen[k] > CENTROID_GRACE_SECONDS
  }

  function ExpireAt(m: Memory, now: real): Memory {
    Memory(m.centroid - Stale(m, now), m.seen - Stale(m, now), m.active)
  }

  function Apply(m: Memory, a: Atom): Effect {
    match a
    case Observe(z, d, now) => ObserveOne(m, z, d, now)
    case Expire(now) => Effect(ExpireAt(m, now), [])
  }

  function ApplyAll(m: Memory, atoms: seq<Atom>): Effect {
    if atoms == [] then Effect(m, [])
    else
      var before := ApplyAll(m, atoms[..|atoms| - 1]);
      var last := Apply(before.memory, atoms[|atoms| - 1]);
      Effect(last.memory, before.events + last.events)
  }

  function ZoneAtoms(z: Zone, detections: seq<Tracked>, now: real): seq<Atom> {
    seq(|detections|, i requires 0 <= i < |detections| => Observe(z, detections[i], now))
  }

  function Sweep(zones: seq<Zone>, detections: seq<Tracked>, now: real): seq<Atom> {
    if zones == [] then [] else Sweep(zones[..|zones| - 1], detections, now) + ZoneAtoms(zones[|zones| - 1], detections, now)
  }

  /** Everything one call of `update` does, in order. */
  function UpdateAtoms(zones: seq<Zone>, detections: seq<Tracked>, now: real): seq<Atom> {
    Sweep(zones, detections, now) + [Expire(now)]
  }

  lemma {:induction false} ApplySnoc(m: Memory, atoms: seq<Atom>, a: Atom)
    ensures var before := ApplyAll(m, atoms);
      var last := Apply(before.memory, a);
      ApplyAll(m, atoms + [a]) == Effect(last.memory, before.events + last.events)
  {
    assert (atoms + [a])[..|atoms|] == atoms;
  }

  lemma {:induction false} ApplyConcat(m: Memory, a: seq<Atom>, b: seq<Atom>)
    ensures var first := ApplyAll(m, a);
      var second := ApplyAll(first.memory, b);
      ApplyAll(m, a + b) == Effect(second.memory, first.events + second.events)
  {
    if b == [] {
      assert a + b == a;
    } else {
      var n := |b| - 1;
      assert a + b == (a + b[..n]) + [b[n]];
      ApplyConcat(m, a, b[..n]);
      ApplySnoc(m, a + b[..n], b[n]);
    }
  }

  lemma {:induction false} ReportConcat(a: seq<Event>, b: seq<Event>)
    ensures ReportAll(a + b) == ReportAll(a) + ReportAll(b)
  {
    if b == [] {
      assert a + b == a;
    } else {
      var n := |b| - 1;
      assert (a + b)[..|a| + n] == a + b[..n];
      ReportConcat(a, b[..n]);
    }
  }

  lemma ReportOne(e: Event)
    ensures ReportAll([e]) == [Report(e)] && ReportAll([]) == []
  {
    assert [e][..0] == [];
  }

  /** Zones that are not usable lines are skipped. */
  lemma {:induction false} OtherZone(m: Memory, z: Zone, detections: seq<Tracked>, now: real)
    requires !IsLine(z)
    ensures ApplyAll(m, ZoneAtoms(z, detections, now)) == Effect(m, [])
  {
    if detections != [] {
      var n := |detections| - 1;
      assert ZoneAtoms(z, detections, now)[..n] == ZoneAtoms(z, detections[..n], now);
      OtherZone(m, z, detections[..n], now);
    }
  }

  class LineCrossingTracker {
    var lastCentroid: map<Key, Geometry.Point>
    var lastSeen: map<Key, real>
    var activeUntil: map<string, real>

    ghost function Current(): Memory reads this { Memory(lastCentroid, lastSeen, activeUntil) }

    constructor ()
      ensures Current() == EMPTY
    {
      lastCentroid, lastSeen, activeUntil := map[], map[], map[];
    }

    method Update(detections: seq<Tracked>, zones: seq<Zone>, now: real) returns (crossings: seq<Crossing>)
      modifies this
      ensures Current() == ApplyAll(old(Current()), UpdateAtoms(zones, detections, now)).memory
      ensures crossings == ReportAll(ApplyAll(old(Current()), UpdateAtoms(zones, detections, now)).events)
    {
      hide ApplyAll, ReportAll;
      crossings := [];
      ghost var start := Current();
      ghost var done: seq<Atom> := [];
      Nothing(start);
      for i := 0 to |zones|
        invariant done == Sweep(zones[..i], detections, now)
        invariant Current() == ApplyAll(start, done).memory
        invariant crossings == ReportAll(ApplyAll(start, done).events)
      {
        var zone := zones[i];
        assert zones[..i + 1][..i] == zones[..i];
        ghost var all := ZoneAtoms(zone, detections, now);
        if zone.mode != Line || |zone.points| != 2 {
          OtherZone(Current(), zone, detections, now);
          ApplyConcat(start, done, all);
          assert ApplyAll(start, done + all).events == ApplyAll(start, done).events;
          done := done + all;
          continue;
        }
        ghost var base := done;
        for j := 0 to |detections|
          invariant done == base + all[..j]
          invariant Current() == ApplyAll(start, done).memory
          invariant crossings == ReportAll(ApplyAll(start, done).events)
        {
          var detection := detections[j];
          ghost var was := Current();
          ApplySnoc(start, done, all[j]);
          assert base + all[..j + 1] == done + [all[j]];
          ReportConcat(ApplyAll(start, done).events, Apply(was, all[j]).events);
          done := done + [all[j]];
          if zone.classes != [] && detection.key !in zone.classes {
            Nothing(was);
            continue;
          }
          var centroid := Centroid(detection.box);
          var key := Key(zone.id, detection.trackId);
          var known := key in lastCentroid;
          var previous := if known then lastCentroid[key] else centroid;
          lastCentroid := lastCentroid[key := centroid];
          lastSeen := lastSeen[key := now];
          if !known || !Geometry.SegmentsIntersect(previous, centroid, zone.points[0], zone.points[1]) {
            Nothing(was);
            continue;
          }
          var direction := if Geometry.CrossingSide(centroid, zone.points[0], zone.points[1]) > 0.0 then In else Out;
          crossings := crossings + [Crossing(zone.id, detection.key, direction)];
          ReportOne(Event(key, detection.key, direction, now));
          var trigger := CrossingKey(detection.key, direction);
          if trigger.Some? {
            activeUntil := activeUntil[trigger.value := now + TRIGGER_ACTIVE_SECONDS];
          }
        }
        assert all[..|detections|] == all;
      }
      assert zones[..|zones|] == zones;
      ApplySnoc(start, done, Expire(now));
      assert ApplyAll(start, done).events + [] == ApplyAll(start, done).events;
      var expired := set k | k in lastSeen && now - lastSeen[k] > CENTROID_GRACE_SECONDS;
      lastCentroid := lastCentroid - expired;
      lastSeen := lastSeen - expired;
    }

    static lemma {:induction false} Nothing(m: Memory)
      ensures ApplyAll(m, []) == Effect(m, []) && ReportAll([]) == []
    {
    }

    method ActiveTriggerKeys(now: real) returns (keys: set<string>)
      ensures forall k :: k in keys <==> k in activeUntil && activeUntil[k] > now
    {
      keys := set k | k in activeUntil && activeUntil[k] > now;
    }
  }
}

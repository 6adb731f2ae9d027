/** `LoiterTracker`: dwell timers per zone, class and track, with a grace period. */
module Loitering {
  import opened Wrappers
  import Tracking
  import DetectionKeys
  import opened Zones

  const LOITER_GRACE_SECONDS := 3.0
  const DEFAULT_DWELL_SECONDS := 10.0

  datatype Timer = Timer(zone: int, kind: string, track: int)

  datatype Timers = Timers(start: map<Timer, real>, seen: map<Timer, real>)

  const NONE_RUNNING := Timers(map[], map[])

  /** The timers a single detection keeps going in a single zone. */
  predicate Dwells(z: Zone, d: Tracking.Tracked) {
    z.mode == Loiter && Concerns(z, d.key) && PointInPolygon(Centroid(d.box), z.points)
  }

  function TimerOf(z: Zone, d: Tracking.Tracked): Timer { Timer(z.id, d.key, d.trackId) }

  /** All timers sighted by one update. */
  function Sighted(detections: seq<Tracking.Tracked>, zones: seq<Zone>): set<Timer> {
    set z, d | z in zones && d in detections && Dwells(z, d) :: TimerOf(z, d)
  }

  /** Timers that have not been sighted within the grace period. */
  function Expired(seen: map<Timer, real>, now: real): set<Timer> {
    set k | k in seen && now - seen[k] > LOITER_GRACE_SECONDS
  }

  /** One update that sights the timers s. */
  function Tick(t: Timers, s: set<Timer>, now: real): Timers {
    var start := map k | k in t.start.Keys + s :: if k in t.start then t.start[k] else now;
    var seen := map k | k in t.seen.Keys + s :: if k in s then now else t.seen[k];
    Timers(start - Expired(seen, now), seen - Expired(seen, now))
  }

  /** The dwell time a zone id asks for: that of the last loiter zone with the id. */
  function MinDwell(zones: seq<Zone>, id: int): Option<real> {
    if zones == [] then None
    else
      var z := zones[|zones| - 1];
      if z.mode == Loiter && z.id == id then
        Some(if z.minDwell.Some? && z.minDwell.value != 0.0 then z.minDwell.value else DEFAULT_DWELL_SECONDS)
      else MinDwell(zones[..|zones| - 1], id)
  }

  /** Timer k has run for at least its zone's dwell time. */
  predicate Due(t: Timers, zones: seq<Zone>, now: real, k: Timer) {
    k in t.start && MinDwell(zones, k.zone).Some? && now - t.start[k] >= MinDwell(zones, k.zone).value
  }

  class LoiterTracker {
    var start: map<Timer, real>
    var lastSeen: map<Timer, real>

    ghost function Current(): Timers reads this { Timers(start, lastSeen) }

    constructor ()
      ensures Current() == NONE_RUNNING
    {
      start, lastSeen := map[], map[];
    }

    method Update(detections: seq<Tracking.Tracked>, zones: seq<Zone>, now: real)
      modifies this
      ensures Current() == Tick(old(Current()), Sighted(detections, zones), now)
    {
      hide Sighted, Tick, PointInPolygon, Marked;
      ghost var before := Current();
      ghost var s: set<Timer> := {};
      MarkedNone(before, now);
      SightedNone(detections);
      assert zones[..0] == [] && detections[..0] == [];
      for i := 0 to |zones|
        invariant s == Sighted(detections, zones[..i])
        invariant Marked(before, s, now, Current())
      {
        var zone := zones[i];
        SightedSnoc(detections, zones[..i], zone);
        assert zones[..i + 1] == zones[..i] + [zone];
        assert detections[..|detections|] == detections;
        if zone.mode != Loiter {
          continue;
        }
        ghost var base := s;
        SightedNone(detections);
        SightedEmpty(zone);
        for j := 0 to |detections|
          invariant s == base + Sighted(detections[..j], [zone])
          invariant Marked(before, s, now, Current())
        {
          var detection := detections[j];
          SightedNext(detections[..j], detection, zone);
          assert detections[..j + 1] == detections[..j] + [detection];
          if zone.classes != [] && detection.key !in zone.classes {
            continue;
          }
          if !PointInPolygon(Centroid(detection.box), zone.points) {
            continue;
          }
          var key := Timer(zone.id, detection.key, detection.trackId);
          MarkedOne(before, s, now, Current(), key);
          if key !in start {
            start := start[key := now];
          }
          lastSeen := lastSeen[key := now];
          s := s + {key};
        }
      }
      assert zones[..|zones|] == zones;
      MarkedAll(before, s, now, Current());
      var expired := set k | k in lastSeen && now - lastSeen[k] > LOITER_GRACE_SECONDS;
      start := start - expired;
      lastSeen := lastSeen - expired;
    }

    /** The timers with those of s started or refreshed. */
    static ghost predicate Marked(before: Timers, s: set<Timer>, now: real, t: Timers) {
      && t.start == (map k | k in before.start.Keys + s :: if k in before.start then before.start[k] else now)
      && t.seen == (map k | k in before.seen.Keys + s :: if k in s then now else before.seen[k])
    }

    static lemma MarkedNone(before: Timers, now: real)
      ensures Marked(before, {}, now, before)
    {
    }

    static lemma MarkedOne(before: Timers, s: set<Timer>, now: real, t: Timers, k: Timer)
      requires Marked(before, s, now, t)
      ensures Marked(before, s + {k}, now, Timers(if k in t.start then t.start else t.start[k := now], t.seen[k := now]))
    {
    }

    static lemma MarkedAll(before: Timers, s: set<Timer>, now: real, t: Timers)
      requires Marked(before, s, now, t)
      ensures Tick(before, s, now) == Timers(t.start - Expired(t.seen, now), t.seen - Expired(t.seen, now))
    {
    }

    static lemma SightedNone(detections: seq<Tracking.Tracked>)
      ensures Sighted(detections, []) == {}
    {
    }

    static lemma SightedEmpty(z: Zone)
      ensures Sighted([], [z]) == {}
    {
    }

    static lemma SightedSnoc(detections: seq<Tracking.Tracked>, zones: seq<Zone>, z: Zone)
      ensures Sighted(detections, zones + [z]) == Sighted(detections, zones) + Sighted(detections, [z])
      ensures z.mode != Loiter ==> Sighted(detections, [z]) == {}
    {
      assert forall y :: y in zones + [z] <==> y in zones || y in [z];
    }

    static lemma SightedNext(detections: seq<Tracking.Tracked>, d: Tracking.Tracked, z: Zone)
      ensures Sighted(detections + [d], [z]) == Sighted(detections, [z]) + if Dwells(z, d) then {TimerOf(z, d)} else {}
    {
      assert forall e :: e in detections + [d] <==> e in detections || e == d;
    }

    method ActiveLoiteringKeys(zones: seq<Zone>, now: real) returns (active: set<string>)
      ensures forall s :: s in active <==> exists k :: Due(Current(), zones, now, k) && DetectionKeys.LoiteringKey(k.kind) == Some(s)
    {
      active := {};
      var pending := start.Keys;
      while pending != {}
        invariant pending <= start.Keys
        invariant forall s :: s in active <==>
          exists k :: k !in pending && Due(Current(), zones, now, k) && DetectionKeys.LoiteringKey(k.kind) == Some(s)
        decreases |pending|
      {
        var k :| k in pending;
        ghost var was := pending;
        pending := pending - {k};
        var minDwell := MinDwell(zones, k.zone);
        if minDwell.None? || now - start[k] < minDwell.value {
          continue;
        }
        var key := DetectionKeys.LoiteringKey(k.kind);
        if key.Some? {
          active := active + {key.value};
        }
      }
    }
  }
}

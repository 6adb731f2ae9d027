/** When a dwell timer is running, since when, and what a reported loitering key proves. */
module LoiterLaws {
  import opened Wrappers
  import Geometry
  import Boxes
  import Tracking
  import opened Zones
  import Polygons
  import opened Loitering
  import opened GraceHistory

  function RunTimers(us: seq<Update<Timer>>): Timers {
    if us == [] then NONE_RUNNING
    else
      var n := |us| - 1;
      Tick(RunTimers(us[..n]), us[n].sighted, us[n].now)
  }

  ghost predicate TimerIs(us: seq<Update<Timer>>, t: Timers, k: Timer, a: int) {
    && t.start.Keys == t.seen.Keys
    && (k in t.start <==> a >= 0)
    && (a >= 0 ==> a < |us| && t.start[k] == us[a].now && LastSighting(us, k, |us| - 1) >= a
                   && t.seen[k] == us[LastSighting(us, k, |us| - 1)].now)
  }

  /** Main result: after any run, timer k is running exactly when some sighting of it has been alive
      ever since; it then started at the first such sighting and was last seen at the last one. */
  lemma {:induction false} TimerExact(us: seq<Update<Timer>>, k: Timer) returns (a: int)
    ensures Since(us, k, a) && TimerIs(us, RunTimers(us), k, a)
  {
    if us == [] {
      a := -1;
    } else {
      var n := |us| - 1;
      var before := TimerExact(us[..n], k);
      assert us == us[..n] + [us[n]];
      a := SinceStep(us[..n], us[n], k, before);
      SightedCovered(us, k);
      LastSightingSnoc(us[..n], us[n], k, n - 1);
      TickTimer(us, k, before, a);
    }
  }

  lemma {:induction false} TickTimer(us: seq<Update<Timer>>, k: Timer, before: int, a: int)
    requires us != []
    requires TimerIs(us[..|us| - 1], RunTimers(us[..|us| - 1]), k, before)
    requires LastSighting(us[..|us| - 1], k, |us| - 2) == LastSighting(us, k, |us| - 2)
    requires before >= 0 || a < 0 || k in us[|us| - 1].sighted
    requires a == if !Covered(us, k, |us| - 1) then -1 else if before >= 0 then before
                  else if k in us[|us| - 1].sighted then |us| - 1 else -1
    ensures TimerIs(us, RunTimers(us), k, a)
  {
    SightedCovered(us, k);
  }

  // ----- consequences -----

  /** Behind a running timer, consecutive sightings are at most the grace period plus the spacing of
      the updates apart. */
  lemma SightingGap(us: seq<Update<Timer>>, k: Timer, a: int, i: int, j: int, d: real)
    requires Alive(us, k, a) && a <= i < j < |us|
    requires k in us[i].sighted && k in us[j].sighted && forall h :: i < h < j ==> k !in us[h].sighted
    requires us[j].now - us[j - 1].now <= d
    ensures us[j].now - us[i].now <= LOITER_GRACE_SECONDS + d
  {
    assert Covered(us, k, j - 1);
    assert LastSighting(us, k, j - 1) == i;
  }

  /** A timer is due exactly when one sighting that has been alive ever since is old enough. */
  lemma {:induction false} DueExactly(us: seq<Update<Timer>>, zones: seq<Zone>, now: real, k: Timer)
    requires Nondecreasing(us)
    ensures Due(RunTimers(us), zones, now, k) <==>
      MinDwell(zones, k.zone).Some? && exists a :: Alive(us, k, a) && now - us[a].now >= MinDwell(zones, k.zone).value
  {
    var first := TimerExact(us, k);
    if a :| Alive(us, k, a) && MinDwell(zones, k.zone).Some? && now - us[a].now >= MinDwell(zones, k.zone).value {
      assert us[first].now <= us[a].now;
    }
  }

  /** Timer k was sighted by update a, has been within grace ever since, and was sighted last by `last`. */
  ghost predicate Presence(us: seq<Update<Timer>>, k: Timer, a: int, last: int) {
    Alive(us, k, a) && a <= last < |us| && k in us[last].sighted
  }

  /** What a reported key proves: one single track in one zone, alive since at least the dwell time and
      last sighted within the grace period of the last update. */
  lemma {:induction false} ReportSound(us: seq<Update<Timer>>, zones: seq<Zone>, now: real, k: Timer)
    requires Due(RunTimers(us), zones, now, k)
    ensures exists a, last :: (
      && Presence(us, k, a, last)
      && us[a].now <= now - MinDwell(zones, k.zone).value
      && us[last].now >= us[|us| - 1].now - LOITER_GRACE_SECONDS
      && us[last].now - us[a].now >= MinDwell(zones, k.zone).value - LOITER_GRACE_SECONDS - (now - us[|us| - 1].now))
  {
    var a := TimerExact(us, k);
    var last := LastSighting(us, k, |us| - 1);
    assert Presence(us, k, a, last);
  }

  // ----- "present for at least N seconds" -----

  /** Timer k, still within grace, was sighted over at least the dwell time. */
  ghost predicate FullPresence(us: seq<Update<Timer>>, k: Timer, dwell: real) {
    exists a, last :: Presence(us, k, a, last) && us[last].now - us[a].now >= dwell
  }

  /** Main result: a report is true to the full dwell time exactly when the timer was already due at its last
      sighting, that is when a report made right after that update would have named it. */
  lemma {:induction false} FullExactly(us: seq<Update<Timer>>, zones: seq<Zone>, now: real, k: Timer)
    requires Nondecreasing(us) && Due(RunTimers(us), zones, now, k)
    ensures var m := LastSighting(us, k, |us| - 1);
      && 0 <= m < |us|
      && (FullPresence(us, k, MinDwell(zones, k.zone).value) <==> Due(RunTimers(us[..m + 1]), zones, us[m].now, k))
  {
    hide RunTimers, MinDwell, LastSighting, Covered;
    var first := TimerExact(us, k);
    var m, dwell := LastSighting(us, k, |us| - 1), MinDwell(zones, k.zone).value;
    var seen := us[..m + 1];
    DueExactly(seen, zones, us[m].now, k);
    if FullPresence(us, k, dwell) {
      var a := FullStart(us, k, dwell);
      assert seen[a].now == us[a].now;
    }
    if a :| Alive(seen, k, a) && us[m].now - seen[a].now >= dwell {
      StartFull(us, k, first, a);
    }
  }

  /** A presence lies between an early enough sighting and the last one. */
  lemma {:induction false} FullStart(us: seq<Update<Timer>>, k: Timer, dwell: real) returns (a: int)
    requires Nondecreasing(us) && FullPresence(us, k, dwell)
    ensures var m := LastSighting(us, k, |us| - 1);
      0 <= a <= m < |us| && Alive(us[..m + 1], k, a) && us[m].now - us[a].now >= dwell
  {
    hide LastSighting;
    var m := LastSighting(us, k, |us| - 1);
    var start, last :| Presence(us, k, start, last) && us[last].now - us[start].now >= dwell;
    a := start;
    assert last <= m && us[last].now <= us[m].now;
    AlivePrefix(us, m + 1, k, a);
  }

  /** A sighting that was alive at the last one of a running timer is alive. */
  lemma {:induction false} StartFull(us: seq<Update<Timer>>, k: Timer, first: int, a: int)
    requires Alive(us, k, first) && 0 <= LastSighting(us, k, |us| - 1) < |us|
    requires first <= LastSighting(us, k, |us| - 1) && Alive(us[..LastSighting(us, k, |us| - 1) + 1], k, a)
    ensures Presence(us, k, a, LastSighting(us, k, |us| - 1))
  {
    hide LastSighting;
    AlivePrefix(us, LastSighting(us, k, |us| - 1) + 1, k, a);
  }

  /** One call of `update` with what the tracker hands it. */
  datatype Call = Call(now: real, detections: seq<Tracking.Tracked>)

  function UpdatesOf(calls: seq<Call>, zones: seq<Zone>): (us: seq<Update<Timer>>)
    ensures |us| == |calls|
    ensures forall i :: 0 <= i < |calls| ==> us[i] == Update(calls[i].now, Sighted(calls[i].detections, zones))
  {
    seq(|calls|, i requires 0 <= i < |calls| => Update(calls[i].now, Sighted(calls[i].detections, zones)))
  }

  /** Some detection keeps timer k going in one of the zones. */
  ghost predicate Sightable(zones: seq<Zone>, k: Timer) {
    exists z, d :: z in zones && Dwells(z, d) && TimerOf(z, d) == k
  }

  /** A report right after the last of these calls names k. */
  ghost predicate Reports(calls: seq<Call>, zones: seq<Zone>, k: Timer) {
    && calls != [] && Nondecreasing(UpdatesOf(calls, zones))
    && Due(RunTimers(UpdatesOf(calls, zones)), zones, calls[|calls| - 1].now, k)
  }

  /** Every report of k, made right after a call, is true to the full dwell time. */
  ghost predicate Honest(zones: seq<Zone>, k: Timer) {
    forall calls :: Reports(calls, zones, k) ==> FullPresence(UpdatesOf(calls, zones), k, MinDwell(zones, k.zone).value)
  }

  /** Sighted until shortly before the dwell time is up, then gone. */
  function LeavesEarly(d: Tracking.Tracked, dwell: real): seq<Call> {
    var e := if dwell < 2.0 * LOITER_GRACE_SECONDS then dwell / 2.0 else LOITER_GRACE_SECONDS;
    [Call(0.0, [d]), Call(dwell - e, [d]), Call(dwell, [])]
  }

  lemma {:induction false} EarlySightings(us: seq<Update<Timer>>, k: Timer)
    requires |us| == 3 && k in us[0].sighted && k in us[1].sighted && k !in us[2].sighted
    ensures LastSighting(us, k, 0) == 0 && LastSighting(us, k, 1) == 1 && LastSighting(us, k, 2) == 1
  {
  }

  lemma {:induction false} LeavingIsShort(zones: seq<Zone>, z: Zone, d: Tracking.Tracked, dwell: real)
    requires z in zones && Dwells(z, d) && MinDwell(zones, z.id) == Some(dwell) && dwell > 0.0
    ensures var calls, k := LeavesEarly(d, dwell), TimerOf(z, d);
      Reports(calls, zones, k) && !FullPresence(UpdatesOf(calls, zones), k, dwell)
  {
    hide RunTimers, MinDwell, LastSighting, Dwells;
    var k, calls := TimerOf(z, d), LeavesEarly(d, dwell);
    var us := UpdatesOf(calls, zones);
    assert d in [d];
    assert us[2].sighted == {};
    EarlySightings(us, k);
    assert forall j :: 0 <= j < 3 ==> Covered(us, k, j);
    assert Alive(us, k, 0);
    DueExactly(us, zones, dwell, k);
    forall a, last | Presence(us, k, a, last) ensures us[last].now - us[a].now < dwell {
      assert last != 2;
    }
  }

  /** Main result: the documented rule, present for at least N seconds, holds of every report of a timer exactly
      when the timer can never be sighted or its zone asks for no time at all. So it fails for every loiter
      zone a track can be in and every positive N. */
  lemma {:induction false} HonestExactly(zones: seq<Zone>, k: Timer)
    ensures Honest(zones, k) <==>
      !Sightable(zones, k) || MinDwell(zones, k.zone).None? || MinDwell(zones, k.zone).value <= 0.0
  {
    hide RunTimers, MinDwell, LastSighting, Dwells;
    if Sightable(zones, k) && MinDwell(zones, k.zone).Some? && MinDwell(zones, k.zone).value > 0.0 {
      var z, d :| z in zones && Dwells(z, d) && TimerOf(z, d) == k;
      LeavingIsShort(zones, z, d, MinDwell(zones, k.zone).value);
    } else {
      forall calls | Reports(calls, zones, k)
        ensures FullPresence(UpdatesOf(calls, zones), k, MinDwell(zones, k.zone).value)
      {
        AnyPresence(calls, zones, k);
      }
    }
  }

  /** A reported timer can be sighted, and has some presence. */
  lemma {:induction false} AnyPresence(calls: seq<Call>, zones: seq<Zone>, k: Timer)
    requires Reports(calls, zones, k)
    ensures Sightable(zones, k) && MinDwell(zones, k.zone).Some?
    ensures FullPresence(UpdatesOf(calls, zones), k, 0.0)
    ensures MinDwell(zones, k.zone).value <= 0.0 ==> FullPresence(UpdatesOf(calls, zones), k, MinDwell(zones, k.zone).value)
  {
    hide RunTimers, MinDwell, LastSighting, Dwells;
    var us := UpdatesOf(calls, zones);
    var a := TimerExact(us, k);
    assert k in Sighted(calls[a].detections, zones);
    assert Presence(us, k, a, a) && us[a].now - us[a].now >= 0.0;
  }

  /** Zone i is the last loiter zone with this id. */
  predicate LastLoiter(zones: seq<Zone>, id: int, i: int) {
    && 0 <= i < |zones| && zones[i].mode == Loiter && zones[i].id == id
    && forall h :: i < h < |zones| ==> zones[h].mode != Loiter || zones[h].id != id
  }

  /** The dwell time of an id is the one the last loiter zone with it sets, 10 seconds where it sets none or zero; an
      id without a loiter zone has none. */
  lemma {:induction false} DwellExactly(zones: seq<Zone>, id: int)
    ensures MinDwell(zones, id).Some? <==> exists i :: LastLoiter(zones, id, i)
    ensures forall i :: LastLoiter(zones, id, i) ==>
      MinDwell(zones, id).value == if zones[i].minDwell in {None, Some(0.0)} then 10.0 else zones[i].minDwell.value
  {
    if zones != [] {
      var n := |zones| - 1;
      if zones[n].mode == Loiter && zones[n].id == id {
        assert LastLoiter(zones, id, n);
      } else {
        DwellExactly(zones[..n], id);
        forall i ensures LastLoiter(zones, id, i) <==> LastLoiter(zones[..n], id, i) {
          if LastLoiter(zones[..n], id, i) { assert forall h :: i < h < n ==> zones[h] == zones[..n][h]; }
        }
      }
    }
  }

  /** A room of 10 by 10 that asks for 10 seconds, and a person standing in its middle. */
  const ROOM := Zone(1, Loiter, [Geometry.Point(0.0, 0.0), Geometry.Point(10.0, 0.0), Geometry.Point(10.0, 10.0), Geometry.Point(0.0, 10.0)], [], Some(10.0))
  const PERSON := Tracking.Tracked("person", "ai_person", 1.0, Boxes.Box(4.0, 4.0, 6.0, 6.0), 1)

  /** For example: the person stands there from second 0 to second 7, is gone by second 10, and is reported then. */
  lemma {:induction false} PresentForLess()
    ensures LeavesEarly(PERSON, 10.0) == [Call(0.0, [PERSON]), Call(7.0, [PERSON]), Call(10.0, [])]
    ensures Dwells(ROOM, PERSON) && TimerOf(ROOM, PERSON) == Timer(1, "ai_person", 1)
    ensures Reports(LeavesEarly(PERSON, 10.0), [ROOM], Timer(1, "ai_person", 1))
    ensures !FullPresence(UpdatesOf(LeavesEarly(PERSON, 10.0), [ROOM]), Timer(1, "ai_person", 1), 10.0)
  {
    assert Dwells(ROOM, PERSON) by { Polygons.RectangleExact(Centroid(PERSON.box), 0.0, 0.0, 10.0, 10.0); }
    assert MinDwell([ROOM], 1) == Some(10.0);
    LeavingIsShort([ROOM], ROOM, PERSON, 10.0);
  }
}

/** The dwell timers of a worker, and what a loitering key it reports proves about confirmed detections. */
module WorkerTimers {
  import opened Tracking
  import opened Zones
  import opened Loitering
  import opened LoiterLaws
  import opened GraceHistory
  import opened Pipeline
  import opened PipelineLaws

  /** The updates of the loiter tracker in a run. */
  function LoiterUpdates(p: Params, zones: seq<Zone>, inputs: seq<Input>): (us: seq<Update<Timer>>)
    ensures |us| == |inputs|
  {
    if inputs == [] then []
    else
      var n := |inputs| - 1;
      LoiterUpdates(p, zones, inputs[..n]) + [Update(inputs[n].clock.loiter, Sighted(Surfaced(p, inputs), zones))]
  }

  lemma {:induction false} LoiterUpdateAt(p: Params, zones: seq<Zone>, inputs: seq<Input>, f: nat)
    requires f < |inputs|
    ensures LoiterUpdates(p, zones, inputs)[f] == Update(inputs[f].clock.loiter, Sighted(Surfaced(p, inputs[..f + 1]), zones))
  {
    hide Surfaced, Sighted;
    var n := |inputs| - 1;
    if f < n {
      LoiterUpdateAt(p, zones, inputs[..n], f);
      assert inputs[..n][..f + 1] == inputs[..f + 1];
    } else {
      assert inputs[..f + 1] == inputs;
    }
  }

  /** The worker's timers are those of its updates, so every law of timers is a law of the worker. */
  lemma {:induction false} TimersRun(p: Params, zones: seq<Zone>, found: Counts, inputs: seq<Input>)
    ensures RunWorker(p, zones, found, inputs).timers == RunTimers(LoiterUpdates(p, zones, inputs))
  {
    hide Surfaced, Tick, Sighted;
    if inputs != [] {
      var n := |inputs| - 1;
      TimersRun(p, zones, found, inputs[..n]);
      TurnUnfolded(p, zones, found, inputs);
    }
  }

  /** In frame f a confirmed detection of the timer's track and class stands inside its zone. */
  ghost predicate StandsIn(p: Params, zones: seq<Zone>, inputs: seq<Input>, f: int, k: Timer) {
    0 <= f < |inputs| && exists z, d :: (
      && z in zones && d in Surfaced(p, inputs[..f + 1])
      && z.mode == Loiter && z.id == k.zone && Concerns(z, d.key)
      && d.key == k.kind && d.trackId == k.track && PointInPolygon(Centroid(d.box), z.points))
  }

  lemma {:induction false} SightedStands(p: Params, zones: seq<Zone>, inputs: seq<Input>, f: nat, k: Timer)
    requires f < |inputs|
    ensures k in LoiterUpdates(p, zones, inputs)[f].sighted <==> StandsIn(p, zones, inputs, f, k)
  {
    hide Surfaced, PointInPolygon;
    LoiterUpdateAt(p, zones, inputs, f);
  }

  /** Main result: when a worker reports a loitering key, one single track was surfaced inside one loiter zone in
      frame a and again in frame last; a was the dwell time ago or longer, last was within grace of the last
      frame, and from a on no frame was further than grace from one that surfaced it there. */
  lemma {:induction false} WorkerReport(p: Params, zones: seq<Zone>, found: Counts, inputs: seq<Input>, now: real, k: Timer)
    requires Due(RunWorker(p, zones, found, inputs).timers, zones, now, k)
    ensures exists a, last :: (
      && 0 <= a <= last < |inputs| && StandsIn(p, zones, inputs, a, k) && StandsIn(p, zones, inputs, last, k)
      && inputs[a].clock.loiter <= now - MinDwell(zones, k.zone).value
      && inputs[last].clock.loiter >= inputs[|inputs| - 1].clock.loiter - LOITER_GRACE_SECONDS
      && Unbroken(p, zones, inputs, a, k))
  {
    hide RunWorker, Surfaced, RunTimers, MinDwell, LastSighting, StandsIn;
    var us := LoiterUpdates(p, zones, inputs);
    TimersRun(p, zones, found, inputs);
    ReportSound(us, zones, now, k);
    var a, last :| (
      && Presence(us, k, a, last)
      && us[a].now <= now - MinDwell(zones, k.zone).value
      && us[last].now >= us[|us| - 1].now - LOITER_GRACE_SECONDS
      && us[last].now - us[a].now >= MinDwell(zones, k.zone).value - LOITER_GRACE_SECONDS - (now - us[|us| - 1].now));
    LoiterUpdateAt(p, zones, inputs, a);
    LoiterUpdateAt(p, zones, inputs, last);
    LoiterUpdateAt(p, zones, inputs, |inputs| - 1);
    SightedStands(p, zones, inputs, a, k);
    SightedStands(p, zones, inputs, last, k);
    AliveUnbroken(p, zones, inputs, a, k);
  }

  /** Every frame from a on finds the track surfaced in the zone within grace, then or before. */
  ghost predicate Unbroken(p: Params, zones: seq<Zone>, inputs: seq<Input>, a: int, k: Timer) {
    forall j :: 0 <= a <= j < |inputs| ==> Within(p, zones, inputs, a, j, k)
  }

  ghost predicate Within(p: Params, zones: seq<Zone>, inputs: seq<Input>, a: int, j: int, k: Timer)
    requires 0 <= a <= j < |inputs|
  {
    exists i :: a <= i <= j && StandsIn(p, zones, inputs, i, k) && inputs[j].clock.loiter - inputs[i].clock.loiter <= LOITER_GRACE_SECONDS
  }

  lemma {:induction false} AliveUnbroken(p: Params, zones: seq<Zone>, inputs: seq<Input>, a: int, k: Timer)
    requires Alive(LoiterUpdates(p, zones, inputs), k, a)
    ensures Unbroken(p, zones, inputs, a, k)
  {
    hide Surfaced, StandsIn;
    var us := LoiterUpdates(p, zones, inputs);
    forall j | 0 <= a <= j < |inputs| ensures Within(p, zones, inputs, a, j, k) {
      assert Covered(us, k, j);
      var i := LastSighting(us, k, j);
      SightedStands(p, zones, inputs, i, k);
      LoiterUpdateAt(p, zones, inputs, i);
      LoiterUpdateAt(p, zones, inputs, j);
      assert a <= i;
    }
  }
}

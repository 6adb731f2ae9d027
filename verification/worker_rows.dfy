/** The class rows and the line memory of a worker over whole runs, in terms of its frames. */
module WorkerRows {
  import opened Wrappers
  import opened Tracking
  import opened Zones
  import opened ActiveObjects
  import ActiveLaws
  import LineCrossing
  import LineMemory
  import opened Pipeline
  import opened PipelineLaws

  /** The updates of the class tracker: what the include and exclude zones leave of each frame. */
  function ActiveUpdates(p: Params, zones: seq<Zone>, inputs: seq<Input>): (us: seq<ActiveLaws.Update>)
    ensures |us| == |inputs|
  {
    if inputs == [] then []
    else
      var n := |inputs| - 1;
      ActiveUpdates(p, zones, inputs[..n]) + [ActiveLaws.Update(inputs[n].clock.active, Filter(Surfaced(p, inputs), zones))]
  }

  lemma {:induction false} ActiveUpdateAt(p: Params, zones: seq<Zone>, inputs: seq<Input>, f: nat)
    requires f < |inputs|
    ensures ActiveUpdates(p, zones, inputs)[f]
         == ActiveLaws.Update(inputs[f].clock.active, Filter(Surfaced(p, inputs[..f + 1]), zones))
  {
    hide Surfaced, Filter;
    var n := |inputs| - 1;
    if f < n {
      ActiveUpdateAt(p, zones, inputs[..n], f);
      assert inputs[..n][..f + 1] == inputs[..f + 1];
    } else {
      assert inputs[..f + 1] == inputs;
    }
  }

  lemma {:induction false} SeenRun(p: Params, zones: seq<Zone>, found: Counts, inputs: seq<Input>)
    ensures RunWorker(p, zones, found, inputs).seen == ActiveLaws.SeenAfter(ActiveUpdates(p, zones, inputs))
  {
    hide Surfaced, Filter, MarkAll;
    if inputs != [] {
      var n := |inputs| - 1;
      SeenRun(p, zones, found, inputs[..n]);
      TurnUnfolded(p, zones, found, inputs);
    }
  }

  /** d was surfaced in frame f and passes the include and exclude zones. */
  ghost predicate Passes(p: Params, zones: seq<Zone>, inputs: seq<Input>, f: int, d: Tracked) {
    0 <= f < |inputs| && d in Surfaced(p, inputs[..f + 1])
    && !Excluded(d, zones) && (Restricted(d, zones) ==> Included(d, zones))
  }

  /** Frame f is the last one in which a detection of the class passes. */
  ghost predicate LastFrame(p: Params, zones: seq<Zone>, inputs: seq<Input>, key: string, f: int) {
    && (exists d :: Passes(p, zones, inputs, f, d) && d.key == key)
    && forall g, d :: f < g && Passes(p, zones, inputs, g, d) ==> d.key != key
  }

  lemma {:induction false} LatestIsLastFrame(p: Params, zones: seq<Zone>, inputs: seq<Input>, key: string, f: int)
    ensures ActiveLaws.Latest(ActiveUpdates(p, zones, inputs), key, f) <==> LastFrame(p, zones, inputs, key, f)
  {
    hide Surfaced, Excluded, Restricted, Included, ActiveUpdates;
    var us := ActiveUpdates(p, zones, inputs);
    forall g, d ensures Passes(p, zones, inputs, g, d) <==> 0 <= g < |inputs| && d in us[g].detections {
      if 0 <= g < |inputs| {
        ActiveUpdateAt(p, zones, inputs, g);
        FilterMember(Surfaced(p, inputs[..g + 1]), zones, d);
      }
    }
  }

  /** Main result: over every run of a worker the row of a known class is active exactly if the last frame in which
      a confirmed detection of it passed the zones is no older than the timeout, and it then carries one of that
      frame's detections of the class. */
  lemma {:induction false} WorkerRows(p: Params, zones: seq<Zone>, found: Counts, inputs: seq<Input>, timeout: real, now: real, i: nat)
    requires i < 3
    ensures var rows := Rows(RunWorker(p, zones, found, inputs).seen, timeout, now, REPORTED);
      && |rows| == 3 && rows[i].key == ["ai_person", "ai_vehicle", "ai_animal"][i]
      && (rows[i].active <==> exists f :: LastFrame(p, zones, inputs, rows[i].key, f) && now - inputs[f].clock.active <= timeout)
      && (rows[i].active ==> (
        && rows[i].detection.Some? && rows[i].detection.value.key == rows[i].key
        && exists f :: LastFrame(p, zones, inputs, rows[i].key, f) && Passes(p, zones, inputs, f, rows[i].detection.value)))
      && (!rows[i].active ==> rows[i].detection.None?)
  {
    hide RunWorker, Rows, Surfaced, LastFrame, ActiveLaws.Latest, ActiveUpdates, Passes;
    var us := ActiveUpdates(p, zones, inputs);
    SeenRun(p, zones, found, inputs);
    ActiveLaws.RowsExact(us, timeout, now, i);
    var row := Rows(RunWorker(p, zones, found, inputs).seen, timeout, now, REPORTED)[i];
    forall f ensures ActiveLaws.Latest(us, row.key, f) <==> LastFrame(p, zones, inputs, row.key, f) {
      LatestIsLastFrame(p, zones, inputs, row.key, f);
    }
    forall f | LastFrame(p, zones, inputs, row.key, f)
      ensures 0 <= f < |inputs| && us[f].now == inputs[f].clock.active
      ensures row.active && ActiveLaws.LastIn(us[f].detections, row.detection.value) ==> Passes(p, zones, inputs, f, row.detection.value)
    {
      FrameOf(p, zones, inputs, row.key, f);
      ActiveUpdateAt(p, zones, inputs, f);
      if row.active && ActiveLaws.LastIn(us[f].detections, row.detection.value) { PassedOf(p, zones, inputs, f, row.detection.value); }
    }
  }

  lemma FrameOf(p: Params, zones: seq<Zone>, inputs: seq<Input>, key: string, f: int)
    requires LastFrame(p, zones, inputs, key, f)
    ensures 0 <= f < |inputs|
  {
  }

  lemma {:induction false} PassedOf(p: Params, zones: seq<Zone>, inputs: seq<Input>, f: nat, d: Tracked)
    requires f < |inputs| && ActiveLaws.LastIn(ActiveUpdates(p, zones, inputs)[f].detections, d)
    ensures Passes(p, zones, inputs, f, d)
  {
    hide Surfaced, Excluded, Restricted, Included;
    ActiveUpdateAt(p, zones, inputs, f);
    FilterMember(Surfaced(p, inputs[..f + 1]), zones, d);
  }

  // ----- the line memory -----

  /** The calls of the line tracker in a run. */
  function LineCalls(p: Params, zones: seq<Zone>, inputs: seq<Input>): (calls: seq<LineMemory.Call>)
    ensures |calls| == |inputs|
  {
    if inputs == [] then []
    else
      var n := |inputs| - 1;
      LineCalls(p, zones, inputs[..n]) + [LineMemory.Call(zones, Surfaced(p, inputs), inputs[n].clock.line)]
  }

  /** The worker's line memory is that of its calls, so every law of calls is a law of the worker. */
  lemma {:induction false} LinesRun(p: Params, zones: seq<Zone>, found: Counts, inputs: seq<Input>)
    ensures RunWorker(p, zones, found, inputs).memory == LineMemory.After(LineCalls(p, zones, inputs))
  {
    hide Surfaced, LineCrossing.ApplyAll, LineCrossing.UpdateAtoms;
    if inputs != [] {
      var n := |inputs| - 1;
      LinesRun(p, zones, found, inputs[..n]);
      TurnUnfolded(p, zones, found, inputs);
    }
  }
}

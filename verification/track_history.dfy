/** Whole runs of `ObjectTracker`. The log of a run lists, frame by frame, the tracks sighted in that
    frame, each as the sighting left it. */
module TrackHistory {
  import Boxes
  import opened Tracking
  import TrackClasses
  import opened TrackFrames
  import TrackConservation

  type Log = seq<seq<Track>>

  /** One call of `update`: its detections and the order in which its classes are visited. */
  datatype Step = Step(detections: seq<Detection>, order: seq<string>)

  datatype Outcome = Outcome(st: State, log: Log)

  const START := State([], 1)

  function Run(p: Params, steps: seq<Step>): Outcome {
    if steps == [] then Outcome(START, [])
    else
      var n := |steps| - 1;
      var before := Run(p, steps[..n]);
      var r := Frame(p, before.st, steps[n].detections, steps[n].order);
      Outcome(r.st, before.log + [r.sightings])
  }

  /** The order of every step is an enumeration of the set of classes the code computes there. */
  ghost predicate Orders(p: Params, steps: seq<Step>) {
    forall n :: 0 <= n < |steps| ==> Enumerates(steps[n].order, Classes(Run(p, steps[..n]).st, steps[n].detections))
  }

  // ----- what the log says -----

  /** Number of frames that sighted the id. */
  function Count(log: Log, id: int): nat {
    if log == [] then 0
    else Count(log[..|log| - 1], id) + (if id in Ids(log[|log| - 1]) then 1 else 0)
  }

  /** Sightings at most this many frames apart keep a track alive. */
  predicate WithinReach(p: Params, g: nat, f: nat) {
    g < f && (f == g + 1 || f - g <= p.maxMissed + 1)
  }

  /** r (frame g) and s (frame f) are consecutive sightings of one track. */
  ghost predicate Link(p: Params, log: Log, g: nat, r: Track, f: nat, s: Track) {
    && g < |log| && f < |log| && WithinReach(p, g, f)
    && r in log[g] && s.id == r.id && s.key == r.key && s.hits == r.hits + 1
    && Boxes.IoU(r.box, s.box) >= p.threshold
    && forall h :: g < h < f ==> s.id !in Ids(log[h])
  }

  ghost predicate Snapshot(p: Params, log: Log, f: int, s: Track) {
    && 0 <= f < |log|
    && s.misses == 0
    && s.hits == Count(log[..f + 1], s.id)
    && (s.hits == 1 || exists g: nat, r: Track :: Link(p, log, g, r, f, s))
  }

  /** `misses` is the number of frames since the last sighting, and it is within bounds. */
  ghost predicate Live(p: Params, log: Log, t: Track) {
    && 0 <= t.misses < |log|
    && (t.misses == 0 || t.misses <= p.maxMissed)
    && t.(misses := 0) in log[|log| - 1 - t.misses]
    && forall h :: |log| - 1 - t.misses < h < |log| ==> t.id !in Ids(log[h])
  }

  ghost predicate OneClassPerId(log: Log) {
    forall f, g, s, r :: 0 <= f < |log| && 0 <= g < |log| && s in log[f] && r in log[g] && s.id == r.id ==> s.key == r.key
  }

  ghost predicate IdsBelow(nextId: int, log: Log) {
    forall f, s :: 0 <= f < |log| && s in log[f] ==> 1 <= s.id < nextId
  }

  ghost predicate Snapshots(p: Params, log: Log) {
    forall f, s {:trigger Snapshot(p, log, f, s)} :: 0 <= f < |log| && s in log[f] ==> Snapshot(p, log, f, s)
  }

  ghost predicate AllLive(p: Params, tracks: seq<Track>, log: Log) {
    forall t :: t in tracks ==> Live(p, log, t)
  }

  ghost predicate History(p: Params, st: State, log: Log) {
    && TrackClasses.Numbered(st)
    && OneClassPerId(log)
    && (forall f :: 0 <= f < |log| ==> DistinctIds(log[f]))
    && IdsBelow(st.nextId, log)
    && Snapshots(p, log)
    && AllLive(p, st.tracks, log)
  }

  // ----- counting -----

  lemma {:induction false} CountSnoc(log: Log, x: seq<Track>, id: int)
    ensures Count(log + [x], id) == Count(log, id) + if id in Ids(x) then 1 else 0
  {
    assert (log + [x])[..|log|] == log;
  }

  lemma {:induction false} CountTail(log: Log, f: nat, id: int)
    requires f < |log|
    requires forall h :: f < h < |log| ==> id !in Ids(log[h])
    ensures Count(log, id) == Count(log[..f + 1], id)
  {
    if f + 1 == |log| {
      assert log[..f + 1] == log;
    } else {
      var n := |log| - 1;
      CountTail(log[..n], f, id);
      assert log[..n][..f + 1] == log[..f + 1];
      assert id !in Ids(log[n]);
    }
  }

  lemma {:induction false} CountFresh(log: Log, id: int)
    requires forall f, s :: 0 <= f < |log| && s in log[f] ==> s.id < id
    ensures Count(log, id) == 0
  {
    if log != [] {
      var n := |log| - 1;
      CountFresh(log[..n], id);
    }
  }

  lemma {:induction false} LiveHits(p: Params, log: Log, t: Track)
    requires Live(p, log, t)
    requires Snapshot(p, log, |log| - 1 - t.misses, t.(misses := 0))
    ensures t.hits == Count(log, t.id)
  {
    CountTail(log, |log| - 1 - t.misses, t.id);
  }

  // ----- one more frame -----

  ghost predicate Continues(p: Params, t: Track, s: Track) {
    s.id == t.id && s.key == t.key && s.hits == t.hits + 1 && s.misses == 0 && Boxes.IoU(t.box, s.box) >= p.threshold
  }

  ghost predicate Begins(st: State, s: Track) {
    s.hits == 1 && s.misses == 0 && st.nextId <= s.id
  }

  ghost predicate Missed(p: Params, t: Track, u: Track, x: seq<Track>) {
    u == t.(misses := t.misses + 1) && u.misses <= p.maxMissed && u.id !in Ids(x)
  }

  /** The frame leading from st to next sights the tracks x. */
  ghost predicate Follows(p: Params, st: State, x: seq<Track>, next: State) {
    && TrackClasses.Numbered(st) && TrackClasses.Numbered(next) && st.nextId <= next.nextId
    && DistinctIds(x)
    && (forall s :: s in x ==> 1 <= s.id < next.nextId && (Begins(st, s) || exists t :: t in st.tracks && Continues(p, t, s)))
    && (forall u :: u in next.tracks ==> u in x || exists t :: t in st.tracks && Missed(p, t, u, x))
  }

  lemma {:induction false} FrameFollows(p: Params, st: State, detections: seq<Detection>, order: seq<string>)
    requires TrackClasses.Numbered(st) && Enumerates(order, Classes(st, detections))
    ensures var r := Frame(p, st, detections, order); Follows(p, st, r.sightings, r.st)
  {
    var r := Frame(p, st, detections, order);
    TrackClasses.FrameByClass(p, st, detections, order, "");
    SightingIds(p, st, detections, order);
    forall s | s in r.sightings ensures Begins(st, s) || exists t :: t in st.tracks && Continues(p, t, s) {
      SightingOrigin(p, st, detections, order, s);
      if t, d :| t in st.tracks && d in detections && SightedBy(p, t, d, s) {
        assert Continues(p, t, s);
      }
    }
    forall u | u in r.st.tracks ensures u in r.sightings || exists t :: t in st.tracks && Missed(p, t, u, r.sightings) {
      NextOrigin(p, st, detections, order, u);
      if u !in r.sightings {
        var t :| t in st.tracks && u == t.(misses := t.misses + 1) && u.misses <= p.maxMissed && u.id !in Ids(r.sightings);
        assert Missed(p, t, u, r.sightings);
      }
    }
  }

  lemma SnapshotKept(p: Params, log: Log, x: seq<Track>, f: nat, s: Track)
    requires f < |log| && Snapshot(p, log, f, s)
    ensures Snapshot(p, log + [x], f, s)
  {
    assert (log + [x])[..f + 1] == log[..f + 1];
    if s.hits != 1 {
      var g: nat, r :| Link(p, log, g, r, f, s);
      assert Link(p, log + [x], g, r, f, s);
    }
  }

  lemma SnapshotContinued(p: Params, log: Log, x: seq<Track>, t: Track, s: Track)
    requires Live(p, log, t) && Snapshot(p, log, |log| - 1 - t.misses, t.(misses := 0))
    requires s in x && Continues(p, t, s)
    ensures Snapshot(p, log + [x], |log|, s)
  {
    var all := log + [x];
    assert all[..|log| + 1] == all;
    CountSnoc(log, x, s.id);
    LiveHits(p, log, t);
    assert s.id in Ids(x);
    assert Link(p, all, |log| - 1 - t.misses, t.(misses := 0), |log|, s);
  }

  lemma SnapshotBegun(p: Params, log: Log, x: seq<Track>, s: Track)
    requires s in x && s.hits == 1 && s.misses == 0
    requires forall f, r :: 0 <= f < |log| && r in log[f] ==> r.id < s.id
    ensures Snapshot(p, log + [x], |log|, s)
  {
    assert (log + [x])[..|log| + 1] == log + [x];
    CountSnoc(log, x, s.id);
    assert s.id in Ids(x);
    CountFresh(log, s.id);
  }

  lemma SnapshotNew(p: Params, st: State, log: Log, x: seq<Track>, next: State, s: Track)
    requires History(p, st, log) && Follows(p, st, x, next) && s in x
    ensures Snapshot(p, log + [x], |log|, s)
  {
    if Begins(st, s) {
      SnapshotBegun(p, log, x, s);
    } else {
      var t :| t in st.tracks && Continues(p, t, s);
      assert Live(p, log, t);
      assert Snapshot(p, log, |log| - 1 - t.misses, t.(misses := 0));
      SnapshotContinued(p, log, x, t, s);
    }
  }

  lemma LiveNew(p: Params, log: Log, x: seq<Track>, u: Track)
    requires (u in x && u.misses == 0) || exists t :: Live(p, log, t) && Missed(p, t, u, x)
    ensures Live(p, log + [x], u)
  {
    if u in x && u.misses == 0 {
      assert u.(misses := 0) == u;
    } else {
      var t :| Live(p, log, t) && Missed(p, t, u, x);
      assert u.(misses := 0) == t.(misses := 0);
    }
  }

  lemma ClassKept(p: Params, st: State, log: Log, x: seq<Track>, next: State, s: Track, g: nat, r: Track)
    requires History(p, st, log) && Follows(p, st, x, next)
    requires s in x && g < |log| && r in log[g] && r.id == s.id
    ensures r.key == s.key
  {
    hide Snapshot, Snapshots, TrackClasses.Numbered, DistinctIds, Boxes.IoU;
    assert r.id < st.nextId;
    assert !Begins(st, s);
    var t :| t in st.tracks && Continues(p, t, s);
    assert Live(p, log, t);
    hide AllLive, IdsBelow;
    assert t.(misses := 0) in log[|log| - 1 - t.misses];
  }

  lemma OneClassKept(p: Params, st: State, log: Log, x: seq<Track>, next: State)
    requires History(p, st, log) && Follows(p, st, x, next)
    ensures OneClassPerId(log + [x])
  {
    var all := log + [x];
    forall f, g, s: Track, r: Track | 0 <= f < |all| && 0 <= g < |all| && s in all[f] && r in all[g] && s.id == r.id
      ensures s.key == r.key
    {
      if f == |log| && g == |log| {
        assert s in x && r in x;
        var i :| 0 <= i < |x| && x[i] == s;
        var j :| 0 <= j < |x| && x[j] == r;
      } else if f == |log| {
        ClassKept(p, st, log, x, next, s, g, r);
      } else if g == |log| {
        ClassKept(p, st, log, x, next, r, f, s);
      } else {
        assert OneClassPerId(log) && s in log[f] && r in log[g];
      }
    }
  }

  lemma SnapshotsStep(p: Params, st: State, log: Log, x: seq<Track>, next: State)
    requires History(p, st, log) && Follows(p, st, x, next)
    ensures Snapshots(p, log + [x])
  {
    var all := log + [x];
    forall f, s: Track | 0 <= f < |all| && s in all[f] ensures Snapshot(p, all, f, s) {
      if f < |log| {
        assert s in log[f];
        assert Snapshot(p, log, f, s);
        SnapshotKept(p, log, x, f, s);
      } else {
        SnapshotNew(p, st, log, x, next, s);
      }
    }
  }

  lemma AllLiveStep(p: Params, st: State, log: Log, x: seq<Track>, next: State)
    requires AllLive(p, st.tracks, log) && Follows(p, st, x, next)
    ensures AllLive(p, next.tracks, log + [x])
  {
    forall t | t in next.tracks ensures Live(p, log + [x], t) {
      if t !in x {
        var u :| u in st.tracks && Missed(p, u, t, x);
        assert Live(p, log, u);
      }
      LiveNew(p, log, x, t);
    }
  }

  lemma HistoryStep(p: Params, st: State, log: Log, x: seq<Track>, next: State)
    requires History(p, st, log) && Follows(p, st, x, next)
    ensures History(p, next, log + [x])
  {
    OneClassKept(p, st, log, x, next);
    SnapshotsStep(p, st, log, x, next);
    AllLiveStep(p, st, log, x, next);
  }

  // ----- every run -----

  lemma OrdersPrefix(p: Params, steps: seq<Step>, k: nat)
    requires Orders(p, steps) && k <= |steps|
    ensures Orders(p, steps[..k])
  {
    forall n | 0 <= n < k
      ensures Enumerates(steps[..k][n].order, Classes(Run(p, steps[..k][..n]).st, steps[..k][n].detections))
    {
      assert steps[..k][..n] == steps[..n];
    }
  }

  /** Main result: the history holds after every run. */
  lemma {:induction false} RunHistory(p: Params, steps: seq<Step>)
    requires Orders(p, steps)
    ensures History(p, Run(p, steps).st, Run(p, steps).log)
    ensures |Run(p, steps).log| == |steps|
  {
    if steps != [] {
      var n := |steps| - 1;
      OrdersPrefix(p, steps, n);
      RunHistory(p, steps[..n]);
      var before := Run(p, steps[..n]);
      var r := Frame(p, before.st, steps[n].detections, steps[n].order);
      FrameFollows(p, before.st, steps[n].detections, steps[n].order);
      HistoryStep(p, before.st, before.log, r.sightings, r.st);
    }
  }

  lemma {:induction false} RunLogPrefix(p: Params, steps: seq<Step>, f: nat)
    requires f <= |steps|
    ensures |Run(p, steps).log| == |steps|
    ensures Run(p, steps).log[..f] == Run(p, steps[..f]).log
  {
    RunLogLength(p, steps);
    var n := |steps| - 1;
    if f == |steps| {
      assert steps[..f] == steps;
    } else {
      RunLogPrefix(p, steps[..n], f);
      assert steps[..n][..f] == steps[..f];
      assert Run(p, steps).log[..f] == Run(p, steps[..n]).log[..f];
    }
  }

  lemma {:induction false} RunLogAt(p: Params, steps: seq<Step>, f: nat)
    requires f < |steps|
    ensures |Run(p, steps).log| == |steps|
    ensures Run(p, steps).log[f] == Frame(p, Run(p, steps[..f]).st, steps[f].detections, steps[f].order).sightings
  {
    RunLogPrefix(p, steps, f + 1);
    RunLogLength(p, steps[..f]);
    assert steps[..f + 1][..f] == steps[..f];
    assert Run(p, steps).log[f] == Run(p, steps).log[..f + 1][f];
  }

  lemma {:induction false} RunLogLength(p: Params, steps: seq<Step>)
    ensures |Run(p, steps).log| == |steps|
  {
    if steps != [] { RunLogLength(p, steps[..|steps| - 1]); }
  }

  lemma {:induction false} RunStep(p: Params, steps: seq<Step>, f: nat)
    requires f < |steps|
    ensures var before := Run(p, steps[..f]);
      var r := Frame(p, before.st, steps[f].detections, steps[f].order);
      Run(p, steps[..f + 1]) == Outcome(r.st, before.log + [r.sightings])
  {
    assert steps[..f + 1][..f] == steps[..f];
  }

  lemma {:induction false} LiveHitsPositive(p: Params, st: State, log: Log, t: Track)
    requires History(p, st, log) && t in st.tracks
    ensures Live(p, log, t) && t.hits == Count(log, t.id) && t.hits >= 1
  {
    hide OneClassPerId, TrackClasses.Numbered, DistinctIds, IdsBelow, Link;
    assert Live(p, log, t);
    var f := |log| - 1 - t.misses;
    assert Snapshot(p, log, f, t.(misses := 0));
    LiveHits(p, log, t);
    assert t.id in Ids(log[f]) by { assert t.(misses := 0).id == t.id; }
    CountSnoc(log[..f], log[f], t.id);
    assert log[..f] + [log[f]] == log[..f + 1];
  }

  /** Every detection of every frame sights exactly one track, and no track twice. */
  lemma {:induction false} RunConservation(p: Params, steps: seq<Step>, f: nat)
    requires Orders(p, steps) && f < |steps|
    ensures |Run(p, steps).log| == |steps|
    ensures multiset(TrackConservation.EraseAll(Run(p, steps).log[f])) == multiset(steps[f].detections)
    ensures |Run(p, steps).log[f]| == |steps[f].detections|
    ensures DistinctIds(Run(p, steps).log[f])
  {
    RunHistory(p, steps);
    OrdersPrefix(p, steps, f);
    RunHistory(p, steps[..f]);
    RunLogAt(p, steps, f);
    TrackConservation.FrameConservation(p, Run(p, steps[..f]).st, steps[f].detections, steps[f].order);
    TrackConservation.FrameCount(p, Run(p, steps[..f]).st, steps[f].detections, steps[f].order);
  }

  /** Ids are never reused: an id is born in one frame only. */
  lemma {:induction false} BornOnce(p: Params, steps: seq<Step>, f: nat, g: nat, s: Track, r: Track)
    requires Orders(p, steps)
    requires f < |Run(p, steps).log| && g < |Run(p, steps).log|
    requires s in Run(p, steps).log[f] && r in Run(p, steps).log[g] && s.id == r.id
    ensures s.hits == 1 && r.hits == 1 ==> f == g
    ensures f < g ==> s.hits < r.hits
  {
    RunHistory(p, steps);
    var log := Run(p, steps).log;
    assert Snapshot(p, log, f, s) && Snapshot(p, log, g, r);
    if f < g {
      CountMonotone(log, f, g, r.id);
    } else if g < f {
      CountMonotone(log, g, f, s.id);
    }
  }

  lemma {:induction false} CountMonotone(log: Log, f: nat, g: nat, id: int)
    requires f < g < |log| && id in Ids(log[g])
    ensures Count(log[..f + 1], id) < Count(log[..g + 1], id)
  {
    assert log[..g + 1][..g] == log[..g];
    CountUpTo(log, f + 1, g, id);
  }

  lemma {:induction false} CountUpTo(log: Log, f: nat, g: nat, id: int)
    requires f <= g <= |log|
    ensures Count(log[..f], id) <= Count(log[..g], id)
    decreases g - f
  {
    if f < g {
      assert log[..g][..g - 1] == log[..g - 1];
      CountUpTo(log, f, g - 1, id);
    }
  }
}

/** How long a track lives: exactly as long as its last sighting is within reach. */
module TrackLifetime {
  import opened Tracking
  import opened TrackClasses
  import TrackFrames
  import opened TrackHistory
  import TrackLaws

  lemma {:induction false} MatchedIsSighted(p: Params, mine: seq<Track>, c: string, detections: seq<Detection>, id: int, t: Track)
    requires Ascending(mine) && t in mine && t.id in MatchOf(Chosen(mine, detections, p.threshold), detections)
    ensures t.id in Ids(ClassSightings(p, mine, c, detections, id))
  {
    var pairs := Chosen(mine, detections, p.threshold);
    MatchOfDomain(pairs, detections);
    TrackFrames.LookupUnique(mine, t);
    TrackFrames.MatchedTrack(mine, pairs, detections, t);
    var s := Sight(t, MatchOf(pairs, detections)[t.id]);
    assert s in ClassSightings(p, mine, c, detections, id) && s.id == t.id;
  }

  /** A track that its class leaves unsighted stays, missed once more, unless that is too often. */
  lemma {:induction false} ClassMissedStays(p: Params, mine: seq<Track>, c: string, detections: seq<Detection>, id: int, t: Track)
    requires Ascending(mine) && t in mine && t.misses + 1 <= p.maxMissed
    requires t.id !in Ids(ClassSightings(p, mine, c, detections, id))
    ensures t.(misses := t.misses + 1) in ClassNext(p, mine, c, detections, id)
  {
    var m := MatchOf(Chosen(mine, detections, p.threshold), detections);
    if t.id in m { MatchedIsSighted(p, mine, c, detections, id, t); }
    TrackFrames.LookupUnique(mine, t);
    AdvanceMember(mine, m, Ids(mine) - m.Keys, p.maxMissed, t.(misses := t.misses + 1));
  }

  lemma {:induction false} MissedStays(p: Params, st: State, detections: seq<Detection>, order: seq<string>, t: Track)
    requires Numbered(st) && Enumerates(order, Classes(st, detections))
    requires t in st.tracks && t.misses + 1 <= p.maxMissed && t.id !in Ids(Frame(p, st, detections, order).sightings)
    ensures t.(misses := t.misses + 1) in Frame(p, st, detections, order).st.tracks
  {
    hide Frame, ClassSightings, ClassNext, StartId;
    var c, r := t.key, Frame(p, st, detections, order);
    var mine, cd, id := OfClass(st.tracks, c), ByClass(detections, c), StartId(p, st, detections, order, c);
    FrameByClass(p, st, detections, order, c);
    TrackFrames.ClassSetting(st, detections, c, id);
    OfClassMember(st.tracks, c, t);
    assert c in Classes(st, detections);
    forall s | s in OfClass(r.sightings, c) ensures s.id != t.id {
      OfClassMember(r.sightings, c, s);
      assert s.id in Ids(r.sightings);
    }
    ClassMissedStays(p, mine, c, cd, id, t);
    OfClassMember(r.st.tracks, c, t.(misses := t.misses + 1));
  }

  ghost predicate Unseen(log: Log, f: nat, id: int) {
    forall h :: f < h < |log| ==> id !in Ids(log[h])
  }

  ghost predicate WithinLimit(p: Params, misses: int) { misses == 0 || misses <= p.maxMissed }

  /** The last frame of a run. */
  lemma {:induction false} LastFrame(p: Params, steps: seq<Step>)
    requires Orders(p, steps) && steps != []
    ensures var n := |steps| - 1;
      var before := Run(p, steps[..n]);
      var r := Frame(p, before.st, steps[n].detections, steps[n].order);
      && Orders(p, steps[..n]) && Numbered(before.st) && Enumerates(steps[n].order, Classes(before.st, steps[n].detections))
      && |before.log| == n && Run(p, steps) == Outcome(r.st, before.log + [r.sightings])
  {
    hide Frame, Classes, Enumerates, Numbered;
    var n := |steps| - 1;
    OrdersPrefix(p, steps, n);
    RunHistory(p, steps[..n]);
    HistoryNumbered(p, steps[..n]);
  }

  lemma {:induction false} HistoryNumbered(p: Params, steps: seq<Step>)
    requires History(p, Run(p, steps).st, Run(p, steps).log)
    ensures Numbered(Run(p, steps).st)
  {
    hide Run, Numbered;
  }

  lemma {:induction false} SightedStays(p: Params, steps: seq<Step>, f: nat, s: Track)
    requires Orders(p, steps) && f < |steps| && |Run(p, steps).log| == |steps|
    requires s in Run(p, steps).log[f] && s.misses == 0
    requires Unseen(Run(p, steps).log, f, s.id) && WithinLimit(p, |steps| - 1 - f)
    ensures s.(misses := |steps| - 1 - f) in Run(p, steps).st.tracks
    decreases |steps|
  {
    hide Run, Frame, Orders, Numbered, Enumerates, Classes, Unseen;
    LastFrame(p, steps);
    var n := |steps| - 1;
    var before, x := Run(p, steps[..n]), steps[n];
    var seen := Frame(p, before.st, x.detections, x.order).sightings;
    if f == n {
      TrackLaws.SightingSurvives(p, before.st, x.detections, x.order, s);
      assert s.(misses := 0) == s;
    } else {
      UnseenBefore(before.log, seen, f, s.id);
      SightedStays(p, steps[..n], f, s);
      MissedStays(p, before.st, x.detections, x.order, s.(misses := n - 1 - f));
    }
  }

  lemma UnseenBefore(log: Log, x: seq<Track>, f: nat, id: int)
    requires f < |log| && Unseen(log + [x], f, id)
    ensures Unseen(log, f, id) && id !in Ids(x) && (log + [x])[f] == log[f]
  {
    assert (log + [x])[|log|] == x && forall h :: 0 <= h < |log| ==> (log + [x])[h] == log[h];
  }

  /** Main result: after any run, a track sighted last in frame f is alive exactly if that is at most max_missed
      frames ago (or in the last frame); it is then as it was sighted, with as many misses as frames since. */
  lemma {:induction false} LiveExactly(p: Params, steps: seq<Step>, f: nat, s: Track)
    requires Orders(p, steps) && f < |steps| && |Run(p, steps).log| == |steps|
    requires s in Run(p, steps).log[f] && Unseen(Run(p, steps).log, f, s.id)
    ensures s.id in Ids(Run(p, steps).st.tracks) <==> WithinLimit(p, |steps| - 1 - f)
    ensures forall t :: t in Run(p, steps).st.tracks && t.id == s.id ==> t == s.(misses := |steps| - 1 - f)
  {
    hide Run;
    RunHistory(p, steps);
    var log, tracks := Run(p, steps).log, Run(p, steps).st.tracks;
    assert Snapshot(p, log, f, s);
    forall t | t in tracks && t.id == s.id ensures t == s.(misses := |steps| - 1 - f) && WithinLimit(p, t.misses) {
      LastSeen(p, log, t, f, s);
    }
    if WithinLimit(p, |steps| - 1 - f) {
      SightedStays(p, steps, f, s);
      assert s.(misses := |steps| - 1 - f).id == s.id;
    }
  }

  lemma {:induction false} LastSeen(p: Params, log: Log, t: Track, f: nat, s: Track)
    requires Live(p, log, t) && f < |log| && s in log[f] && s.misses == 0 && t.id == s.id
    requires Unseen(log, f, s.id) && TrackFrames.DistinctIds(log[f])
    ensures t == s.(misses := |log| - 1 - f) && WithinLimit(p, t.misses)
  {
    var g := |log| - 1 - t.misses;
    var r := t.(misses := 0);
    assert s.id in Ids(log[f]) && r.id in Ids(log[g]);
    assert g == f;
    var i :| 0 <= i < |log[f]| && log[f][i] == s;
    var j :| 0 <= j < |log[f]| && log[f][j] == r;
  }
}

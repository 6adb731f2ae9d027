/** What the history of a run implies: when a detection is surfaced, when a class never is, and how
    many tracks can be alive. */
module TrackLaws {
  import Boxes
  import Matching
  import opened Tracking
  import opened TrackClasses
  import TrackFrames
  import opened TrackConservation
  import opened TrackHistory

  /** What `update` returns in frame f. */
  function Confirmed(p: Params, steps: seq<Step>, f: nat): seq<Tracked> {
    var log := Run(p, steps).log;
    if f < |log| then Confirm(log[f], p.minHits) else []
  }

  /** A detection is surfaced exactly when its track has been sighted in at least `minHits` frames,
      this one included. */
  lemma {:induction false} ConfirmedExactly(p: Params, steps: seq<Step>, f: nat, r: Tracked)
    requires Orders(p, steps) && f < |steps|
    ensures |Run(p, steps).log| == |steps|
    ensures r in Confirmed(p, steps, f) <==>
      exists s :: s in Run(p, steps).log[f] && r == Tracked(s.tag, s.key, s.confidence, s.box, s.id)
        && Count(Run(p, steps).log[..f + 1], s.id) >= p.minHits
  {
    RunHistory(p, steps);
    var log := Run(p, steps).log;
    ConfirmMember(log[f], p.minHits, r);
    forall s: Track | s in log[f] ensures s.hits == Count(log[..f + 1], s.id) {
      assert Snapshot(p, log, f, s);
    }
  }

  // ----- flicker suppression -----

  /** No detection of class c overlaps an earlier one of c that a track could still remember. */
  ghost predicate Flickers(p: Params, steps: seq<Step>, c: string) {
    forall f: nat, g: nat, d, e ::
      (f < |steps| && g < |steps| && WithinReach(p, f, g)
       && d in steps[f].detections && e in steps[g].detections && d.key == c && e.key == c)
      ==> Boxes.IoU(d.box, e.box) < p.threshold
  }

  lemma {:induction false} SightingDetection(p: Params, steps: seq<Step>, f: nat, s: Track)
    requires Orders(p, steps) && f < |steps|
    requires |Run(p, steps).log| == |steps| && s in Run(p, steps).log[f]
    ensures Erase(s) in steps[f].detections
  {
    RunConservation(p, steps, f);
    var log := Run(p, steps).log;
    EraseMember(log[f], s);
    assert Erase(s) in multiset(EraseAll(log[f]));
  }

  lemma {:induction false} EraseMember(s: seq<Track>, t: Track)
    requires t in s
    ensures Erase(t) in EraseAll(s)
  {
    var n := |s| - 1;
    if t in s[..n] { EraseMember(s[..n], t); }
  }

  /** A flickering class is never surfaced in the whole run. */
  lemma FlickerSuppressed(p: Params, steps: seq<Step>, c: string, f: nat)
    requires Orders(p, steps) && p.minHits >= 2 && Flickers(p, steps, c)
    ensures forall r :: r in Confirmed(p, steps, f) ==> r.key != c
  {
    RunHistory(p, steps);
    var log := Run(p, steps).log;
    if f < |log| {
      forall r | r in Confirmed(p, steps, f) ensures r.key != c {
        ConfirmMember(log[f], p.minHits, r);
        var s: Track :| s in log[f] && s.hits >= p.minHits && ToTracked(s) == r;
        assert Snapshot(p, log, f, s);
        var g: nat, q :| Link(p, log, g, q, f, s);
        SightingDetection(p, steps, f, s);
        SightingDetection(p, steps, g, q);
        assert WithinReach(p, g, f);
        assert Erase(q) in steps[g].detections && Erase(s) in steps[f].detections;
        assert Boxes.IoU(Erase(q).box, Erase(s).box) >= p.threshold;
      }
    }
  }

  /** Conversely, two overlapping detections in adjacent frames do surface their class when two hits
      are enough. */
  lemma PersistenceConfirmed(p: Params, steps: seq<Step>, f: nat, d: Detection, e: Detection)
    requires Orders(p, steps) && p.minHits <= 2 && f + 1 < |steps|
    requires d in steps[f].detections && e in steps[f + 1].detections
    requires d.key == e.key && Boxes.IoU(d.box, e.box) >= p.threshold
    ensures exists r :: r in Confirmed(p, steps, f + 1) && r.key == d.key
  {
    OrdersPrefix(p, steps, f + 1);
    RunHistory(p, steps[..f + 1]);
    var before := Run(p, steps[..f + 1]);
    var t := SightedTrack(p, steps, f, d);
    forall u | u in before.st.tracks ensures u.hits >= 1 {
      LiveHitsPositive(p, before.st, before.log, u);
    }
    var s := RematchedSighting(p, before.st, steps[f + 1].detections, steps[f + 1].order, t, e);
    RunLogAt(p, steps, f + 1);
    ConfirmMember(Run(p, steps).log[f + 1], p.minHits, ToTracked(s));
  }

  /** The live track left behind by a detection of the last frame. */
  lemma SightedTrack(p: Params, steps: seq<Step>, f: nat, d: Detection) returns (t: Track)
    requires Orders(p, steps) && f < |steps| && d in steps[f].detections
    ensures t in Run(p, steps[..f + 1]).st.tracks && t.key == d.key && t.box == d.box
  {
    OrdersPrefix(p, steps, f);
    RunHistory(p, steps[..f]);
    var st := Run(p, steps[..f]).st;
    FrameConservation(p, st, steps[f].detections, steps[f].order);
    var x := Frame(p, st, steps[f].detections, steps[f].order).sightings;
    assert d in multiset(EraseAll(x));
    t := ErasedOrigin(x, d);
    SightingSurvives(p, st, steps[f].detections, steps[f].order, t);
    RunStep(p, steps, f);
  }

  lemma {:induction false} ErasedOrigin(s: seq<Track>, d: Detection) returns (t: Track)
    requires d in EraseAll(s)
    ensures t in s && Erase(t) == d
  {
    var n := |s| - 1;
    if d in EraseAll(s[..n]) { t := ErasedOrigin(s[..n], d); } else { t := s[n]; }
  }

  /** A track sighted in a frame is alive after it. */
  lemma {:induction false} SightingSurvives(p: Params, st: State, detections: seq<Detection>, order: seq<string>, s: Track)
    requires Numbered(st) && Enumerates(order, Classes(st, detections))
    requires s in Frame(p, st, detections, order).sightings
    ensures s in Frame(p, st, detections, order).st.tracks
  {
    var r := Frame(p, st, detections, order);
    var c := s.key;
    var id := StartId(p, st, detections, order, c);
    var mine := OfClass(st.tracks, c);
    var cd := ByClass(detections, c);
    TrackFrames.SightingOrigin(p, st, detections, order, s);
    FrameByClass(p, st, detections, order, c);
    OfClassMember(r.sightings, c, s);
    TrackFrames.ClassSetting(st, detections, c, id);
    ClassSightingSurvives(p, mine, c, cd, id, s);
    OfClassMember(r.st.tracks, c, s);
  }

  lemma ClassSightingSurvives(p: Params, mine: seq<Track>, c: string, detections: seq<Detection>, id: int, s: Track)
    requires Ascending(mine) && s in ClassSightings(p, mine, c, detections, id)
    ensures s in ClassNext(p, mine, c, detections, id)
  {
    var pairs := Chosen(mine, detections, p.threshold);
    var m := MatchOf(pairs, detections);
    if s in Matched(mine, pairs, detections) {
      var e := MatchedOrigin(mine, pairs, detections, s);
      var t := Lookup(mine, e.tid);
      TrackFrames.MatchOfAt(pairs, detections, e);
      assert Next(t, m, Ids(mine) - m.Keys, p.maxMissed) == Kept(s);
      AdvanceMember(mine, m, Ids(mine) - m.Keys, p.maxMissed, s);
    }
  }

  /** An overlapping detection gives some track of the class a further hit. */
  lemma RematchedSighting(p: Params, st: State, detections: seq<Detection>, order: seq<string>, t: Track, e: Detection)
    returns (s: Track)
    requires Numbered(st) && Enumerates(order, Classes(st, detections))
    requires t in st.tracks && e in detections && t.key == e.key && Boxes.IoU(t.box, e.box) >= p.threshold
    requires forall u :: u in st.tracks ==> u.hits >= 1
    ensures s in Frame(p, st, detections, order).sightings && s.key == t.key && s.hits >= 2
  {
    var r := Frame(p, st, detections, order);
    var c := t.key;
    var id := StartId(p, st, detections, order, c);
    var mine := OfClass(st.tracks, c);
    var cd := ByClass(detections, c);
    Visited(st, detections, order, e);
    FrameByClass(p, st, detections, order, c);
    TrackFrames.ClassSetting(st, detections, c, id);
    OfClassMember(st.tracks, c, t);
    TrackFrames.ByClassMember(detections, c, e);
    var k :| 0 <= k < |cd| && cd[k] == e;
    var cand := Matching.Cand(Boxes.IoU(t.box, e.box), t.id, k);
    var cands := Candidates(mine, cd);
    CandidatesMember(mine, cd, cand);
    Matching.SortDescending(cands);
    Matching.SortMembers(cands, cand);
    var g := Matching.GreedyStable(Matching.SortDesc(cands), p.threshold, cand);
    var pairs := Chosen(mine, cd, p.threshold);
    var i :| 0 <= i < |pairs| && pairs[i] == g;
    MatchedAt(mine, pairs, cd, i);
    s := Matched(mine, pairs, cd)[i];
    assert s in ClassSightings(p, mine, c, cd, id);
    OfClassMember(r.sightings, c, s);
  }

  // ----- bounded memory -----

  function Window(p: Params): nat { if p.maxMissed > 0 then p.maxMissed + 1 else 1 }

  /** Number of detections in the last w frames. */
  function Recent(steps: seq<Step>, w: nat): nat {
    if steps == [] || w == 0 then 0
    else |steps[|steps| - 1].detections| + Recent(steps[..|steps| - 1], w - 1)
  }

  function RecentIds(log: Log, w: nat): set<int> {
    if log == [] || w == 0 then {}
    else Ids(log[|log| - 1]) + RecentIds(log[..|log| - 1], w - 1)
  }

  lemma {:induction false} IdsSize(s: seq<Track>)
    ensures |Ids(s)| <= |s|
    ensures Ascending(s) ==> |Ids(s)| == |s|
  {
    if s != [] {
      var n := |s| - 1;
      assert s == s[..n] + [s[n]];
      IdsSnoc(s[..n], s[n]);
      AscendingSnoc(s[..n], s[n]);
      IdsSize(s[..n]);
    }
  }

  lemma UnionSize(a: set<int>, b: set<int>)
    ensures |a + b| <= |a| + |b|
  {
    assert a + b == a + (b - a);
    assert |a + (b - a)| == |a| + |b - a|;
    assert b - a <= b;
    SubsetSize(b - a, b);
  }

  lemma {:induction false} SubsetSize(a: set<int>, b: set<int>)
    requires a <= b
    ensures |a| <= |b|
  {
    assert b == a + (b - a);
  }

  /** The same count over the log. */
  function RecentSightings(log: Log, w: nat): nat {
    if log == [] || w == 0 then 0
    else |log[|log| - 1]| + RecentSightings(log[..|log| - 1], w - 1)
  }

  lemma {:induction false} RecentIdsSize(log: Log, w: nat)
    ensures |RecentIds(log, w)| <= RecentSightings(log, w)
  {
    if log != [] && w != 0 {
      var n := |log| - 1;
      RecentIdsSize(log[..n], w - 1);
      IdsSize(log[n]);
      UnionSize(Ids(log[n]), RecentIds(log[..n], w - 1));
    }
  }

  lemma {:induction false} RecentSame(log: Log, steps: seq<Step>, w: nat)
    requires |log| == |steps| && forall f :: 0 <= f < |log| ==> |log[f]| == |steps[f].detections|
    ensures RecentSightings(log, w) == Recent(steps, w)
  {
    if log != [] && w != 0 {
      RecentSame(log[..|log| - 1], steps[..|log| - 1], w - 1);
    }
  }

  lemma {:induction false} RecentMember(log: Log, w: nat, f: nat, id: int)
    requires f < |log| && |log| - f <= w && id in Ids(log[f])
    ensures id in RecentIds(log, w)
  {
    if f < |log| - 1 {
      RecentMember(log[..|log| - 1], w - 1, f, id);
    }
  }

  /** The number of live tracks is at most the number of detections in the last maxMissed + 1 frames. */
  lemma {:induction false} BoundedMemory(p: Params, steps: seq<Step>)
    requires Orders(p, steps)
    ensures |Run(p, steps).st.tracks| <= Recent(steps, Window(p))
  {
    RunHistory(p, steps);
    var r := Run(p, steps);
    forall f | 0 <= f < |steps| ensures |r.log[f]| == |steps[f].detections| {
      RunConservation(p, steps, f);
    }
    RecentSame(r.log, steps, Window(p));
    RecentIdsSize(r.log, Window(p));
    RecentCover(p, r.st.tracks, r.log);
    SubsetSize(Ids(r.st.tracks), RecentIds(r.log, Window(p)));
    IdsSize(r.st.tracks);
  }

  lemma {:induction false} RecentCover(p: Params, tracks: seq<Track>, log: Log)
    requires AllLive(p, tracks, log)
    ensures Ids(tracks) <= RecentIds(log, Window(p))
  {
    forall i | i in Ids(tracks) ensures i in RecentIds(log, Window(p)) {
      var t :| t in tracks && t.id == i;
      assert Live(p, log, t);
      assert t.(misses := 0).id in Ids(log[|log| - 1 - t.misses]);
      RecentMember(log, Window(p), |log| - 1 - t.misses, i);
    }
  }
}

/** The class documentation says a track is surfaced once matched `min_hits` times in a row. The code
    counts hits without resetting them on a miss, so this is true for some settings only. */
module TrackCounting {
  import Boxes
  import Matching
  import opened Tracking
  import opened TrackHistory

  /** Every surfaced track was sighted in each of the last `minHits` frames. */
  ghost predicate InARow(p: Params, log: Log) {
    forall f, s, k ::
      0 <= f < |log| && s in log[f] && s.hits >= p.minHits && 0 <= k < p.minHits ==> SightedBefore(log, f, k, s.id)
  }

  ghost predicate SightedBefore(log: Log, f: int, k: int, id: int) {
    0 <= f - k < |log| && id in Ids(log[f - k])
  }

  // ----- settings for which the documentation is right -----

  lemma {:induction false} Consecutive(p: Params, log: Log, f: nat, s: Track, k: nat)
    requires Snapshots(p, log) && f < |log| && s in log[f]
    requires p.maxMissed <= 0 && k < s.hits
    ensures SightedBefore(log, f, k, s.id)
    decreases k
  {
    if k == 0 {
      assert s.id in Ids(log[f]);
    } else {
      assert Snapshot(p, log, f, s);
      var g: nat, r :| Link(p, log, g, r, f, s);
      Consecutive(p, log, g, r, k - 1);
    }
  }

  lemma NeverLinked(p: Params, log: Log, f: nat, s: Track)
    requires Snapshots(p, log) && f < |log| && s in log[f] && p.threshold > 1.0
    ensures s.hits == 1
  {
    assert Snapshot(p, log, f, s);
    if s.hits != 1 {
      var g: nat, r :| Link(p, log, g, r, f, s);
      Boxes.IoURange(r.box, s.box);
      assert false;
    }
  }

  lemma InARowWhen(p: Params, log: Log)
    requires Snapshots(p, log)
    requires p.minHits <= 1 || p.maxMissed <= 0 || p.threshold > 1.0
    ensures InARow(p, log)
  {
    forall f, s: Track, k | 0 <= f < |log| && s in log[f] && s.hits >= p.minHits && 0 <= k < p.minHits
      ensures SightedBefore(log, f, k, s.id)
    {
      if p.threshold > 1.0 { NeverLinked(p, log, f, s); }
      if k == 0 {
        assert s.id in Ids(log[f]);
      } else if p.maxMissed <= 0 {
        Consecutive(p, log, f, s, k);
      }
    }
  }

  // ----- a run with a gap -----

  const UNIT := Boxes.Box(0.0, 0.0, 1.0, 1.0)

  const SEEN := Detection("", "", 1.0, UNIT)

  function TrackAt(hits: int, misses: int): Track { Track(1, "", "", 1.0, UNIT, hits, misses) }

  lemma UnitOverlap()
    ensures Boxes.IoU(UNIT, UNIT) == 1.0
  {
    assert Boxes.Area(UNIT) == 1.0;
    Boxes.IoUOneExact(UNIT, UNIT);
  }

  /** One sighting, one miss, then sightings only. */
  function GapRun(n: nat): seq<Step> {
    if n == 0 then []
    else GapRun(n - 1) + [Step(GapDetections(n), [""])]
  }

  lemma {:induction false} ClassOfOne(t: Track, c: string)
    requires t.key == c
    ensures OfClass([t], c) == [t]
  {
    assert [t][..0] == [];
  }

  lemma ClassOfSeen()
    ensures ByClass([SEEN], "") == [SEEN] && ByClass([], "") == []
  {
    assert [SEEN][..0] == [];
  }

  lemma {:induction false} OneFrame(p: Params, st: State, detections: seq<Detection>)
    ensures Frame(p, st, detections, [""]) == ClassPass(p, Pass(st, []), "", ByClass(detections, ""))
  {
    var order := [""];
    assert order[..0] == [];
  }

  lemma {:induction false} NoPairs(tracks: seq<Track>, detections: seq<Detection>, threshold: real)
    requires Candidates(tracks, detections) == []
    ensures Chosen(tracks, detections, threshold) == []
  {
  }

  lemma OnePair(t: Track, d: Detection, threshold: real)
    requires Boxes.IoU(t.box, d.box) >= threshold
    ensures Chosen([t], [d], threshold) == [Matching.Cand(Boxes.IoU(t.box, d.box), t.id, 0)]
  {
    var c := Matching.Cand(Boxes.IoU(t.box, d.box), t.id, 0);
    assert [t][..0] == [] && [c][..0] == [] && [c][1..] == [];
    assert Row(t, [d]) == [c];
    assert Candidates([t], [d]) == [c];
    assert Matching.SortDesc([c]) == [c];
    assert Matching.Greedy([c][..0], threshold) == [];
    assert !Matching.Skips(c, [], threshold);
  }

  lemma {:induction false} AdvanceOne(t: Track, matched: map<int, Detection>, missed: set<int>, maxMissed: int, u: Track)
    requires Next(t, matched, missed, maxMissed) == Kept(u)
    ensures Advance([t], matched, missed, maxMissed) == [u]
  {
    assert [t][..0] == [];
  }

  lemma {:induction false} BirthsOne(d: Detection, taken: set<nat>, id: int)
    ensures Births([d], "", taken, id) == if 0 in taken then [] else [NewTrack(d, "", id)]
  {
    assert [d][..0] == [];
  }

  lemma {:induction false} FirstSighting(p: Params)
    ensures Frame(p, START, [SEEN], [""]) == Pass(State([TrackAt(1, 0)], 2), [TrackAt(1, 0)])
  {
    OneFrame(p, START, [SEEN]);
    ClassOfSeen();
    NoPairs([], [SEEN], p.threshold);
    assert Matching.Indices([]) == {};
    BirthsOne(SEEN, {}, 1);
    assert ClassBirths(p, [], "", [SEEN], 1) == [TrackAt(1, 0)];
    assert Matched([], [], [SEEN]) == [];
    assert ClassTracks(p, [], [], [SEEN]) == [];
  }

  lemma {:induction false} OneMiss(p: Params, hits: int)
    requires p.maxMissed >= 1
    ensures Frame(p, State([TrackAt(hits, 0)], 2), [], [""]) == Pass(State([TrackAt(hits, 1)], 2), [])
  {
    var t := TrackAt(hits, 0);
    OneFrame(p, State([t], 2), []);
    ClassOfSeen();
    ClassOfOne(t, "");
    assert [t][..0] == [] && Row(t, []) == [];
    NoPairs([t], [], p.threshold);
    assert t.id in Ids([t]);
    AdvanceOne(t, map[], Ids([t]), p.maxMissed, TrackAt(hits, 1));
    assert ClassMatch(p, [t], []) == map[];
    assert Ids([t]) - ClassMatch(p, [t], []).Keys == Ids([t]);
    assert Matched([t], [], []) == [];
    assert ClassBirths(p, [t], "", [], 2) == [];
  }

  lemma {:induction false} Resighting(p: Params, hits: int, misses: int)
    requires p.threshold <= 1.0
    ensures Frame(p, State([TrackAt(hits, misses)], 2), [SEEN], [""])
         == Pass(State([TrackAt(hits + 1, 0)], 2), [TrackAt(hits + 1, 0)])
  {
    var t := TrackAt(hits, misses);
    var c := Matching.Cand(1.0, 1, 0);
    OneFrame(p, State([t], 2), [SEEN]);
    ClassOfSeen();
    ClassOfOne(t, "");
    UnitOverlap();
    OnePair(t, SEEN, p.threshold);
    assert [c][..0] == [];
    assert MatchOf([c], [SEEN]) == map[1 := SEEN];
    AdvanceOne(t, map[1 := SEEN], Ids([t]) - {1}, p.maxMissed, TrackAt(hits + 1, 0));
    assert c in [c] && Matching.Indices([c]) == {0};
    BirthsOne(SEEN, {0}, 2);
    assert t.id in Ids([t]) && Lookup([t], 1) == t;
    assert Matched([t], [c], [SEEN]) == [TrackAt(hits + 1, 0)];
    assert ClassBirths(p, [t], "", [SEEN], 2) == [];
    assert ClassMatch(p, [t], [SEEN]).Keys == {1};
    assert ClassTracks(p, [t], [t], [SEEN]) == [TrackAt(hits + 1, 0)];
    assert ClassSightings(p, [t], "", [SEEN], 2) == [TrackAt(hits + 1, 0)];
  }

  function GapHits(n: nat): int { if n == 1 then 1 else n - 1 }

  function GapMisses(n: nat): int { if n == 2 then 1 else 0 }

  function GapDetections(n: nat): seq<Detection> { if n == 2 then [] else [SEEN] }

  function GapSightings(n: nat): seq<Track> { if n == 2 then [] else [TrackAt(GapHits(n), 0)] }

  lemma {:induction false} GapFrame(p: Params, n: nat)
    requires p.maxMissed >= 1 && p.threshold <= 1.0 && n >= 1
    ensures Frame(p, if n == 1 then START else State([TrackAt(GapHits(n - 1), GapMisses(n - 1))], 2), GapDetections(n), [""])
         == Pass(State([TrackAt(GapHits(n), GapMisses(n))], 2), GapSightings(n))
  {
    if n == 1 {
      FirstSighting(p);
    } else if n == 2 {
      OneMiss(p, 1);
    } else {
      Resighting(p, GapHits(n - 1), GapMisses(n - 1));
    }
  }

  /** The state after n frames of the run: the second frame is missed, every other one is a hit. */
  lemma {:induction false} GapState(p: Params, n: nat)
    requires p.maxMissed >= 1 && p.threshold <= 1.0 && n >= 1
    ensures |GapRun(n)| == n && |Run(p, GapRun(n)).log| == n
    ensures Run(p, GapRun(n)).st == State([TrackAt(GapHits(n), GapMisses(n))], 2)
    ensures Run(p, GapRun(n)).log[n - 1] == GapSightings(n)
  {
    hide Frame;
    var steps := GapRun(n);
    if n > 1 { GapState(p, n - 1); }
    assert steps == GapRun(n - 1) + [Step(GapDetections(n), [""])];
    assert |steps| == n && steps[..n - 1] == GapRun(n - 1) && steps[..n] == steps;
    RunStep(p, steps, n - 1);
    RunLogLength(p, GapRun(n - 1));
    GapFrame(p, n);
  }

  lemma {:induction false} GapOrders(p: Params, n: nat)
    requires p.maxMissed >= 1 && p.threshold <= 1.0
    ensures Orders(p, GapRun(n))
  {
    if n >= 1 {
      GapOrders(p, n - 1);
      if n > 1 { GapState(p, n - 1); }
      GapOrder(p, GapRun(n - 1), n);
    }
  }

  lemma {:induction false} GapOrder(p: Params, steps: seq<Step>, n: nat)
    requires Orders(p, steps) && n >= 1
    requires if n == 1 then steps == [] else Run(p, steps).st == State([TrackAt(GapHits(n - 1), GapMisses(n - 1))], 2)
    ensures Orders(p, steps + [Step(GapDetections(n), [""])])
  {
    GapClasses(Run(p, steps).st, Step(GapDetections(n), [""]));
    OrdersSnoc(p, steps, Step(GapDetections(n), [""]));
  }

  lemma GapClasses(st: State, s: Step)
    requires s.order == [""]
    requires (st.tracks == [] && s.detections == [SEEN])
          || (|st.tracks| == 1 && st.tracks[0].key == "" && (s.detections == [] || s.detections == [SEEN]))
    ensures Enumerates(s.order, Classes(st, s.detections))
  {
    if st.tracks == [] { assert SEEN in s.detections; } else { assert st.tracks[0] in st.tracks; }
    forall c | c in Classes(st, s.detections) ensures c == "" {
      if d :| d in s.detections && d.key == c { assert d == SEEN; }
    }
    assert "" in Classes(st, s.detections);
  }

  lemma {:induction false} OrdersSnoc(p: Params, steps: seq<Step>, s: Step)
    requires Orders(p, steps) && Enumerates(s.order, Classes(Run(p, steps).st, s.detections))
    ensures Orders(p, steps + [s])
  {
    var all := steps + [s];
    forall n | 0 <= n < |all| ensures Enumerates(all[n].order, Classes(Run(p, all[..n]).st, all[n].detections)) {
      if n < |steps| {
        assert all[..n] == steps[..n];
      } else {
        assert all[..n] == steps;
      }
    }
  }

  /** The gap run surfaces its track although frame 1 did not sight it. */
  lemma {:induction false} GapSurfaces(p: Params)
    requires p.minHits >= 2 && p.maxMissed >= 1 && p.threshold <= 1.0
    ensures Orders(p, GapRun(p.minHits + 1)) && !InARow(p, Run(p, GapRun(p.minHits + 1)).log)
  {
    hide Run, GapRun, Orders, InARow;
    var n := p.minHits + 1;
    GapOrders(p, n);
    GapState(p, n);
    GapMissed(p, n);
    NotInARow(p, Run(p, GapRun(n)).log, n - 1, TrackAt(p.minHits, 0), p.minHits - 1);
  }

  lemma {:induction false} GapMissed(p: Params, n: nat)
    requires p.maxMissed >= 1 && p.threshold <= 1.0 && n >= 2
    ensures |Run(p, GapRun(n)).log| == n && Run(p, GapRun(n)).log[1] == []
  {
    hide Run, GapRun;
    GapState(p, n);
    GapState(p, 2);
    GapPrefix(n);
    RunLogPrefix(p, GapRun(n), 2);
    assert Run(p, GapRun(n)).log[1] == Run(p, GapRun(n)).log[..2][1];
  }

  lemma NotInARow(p: Params, log: Log, f: nat, s: Track, k: nat)
    requires f < |log| && s in log[f] && s.hits >= p.minHits && k < p.minHits && k <= f && log[f - k] == []
    ensures !InARow(p, log)
  {
    assert !SightedBefore(log, f, k, s.id);
  }

  lemma {:induction false} GapPrefix(n: nat)
    requires n >= 2
    ensures |GapRun(n)| == n && |GapRun(2)| == 2 && GapRun(n)[..2] == GapRun(2)
  {
    assert GapRun(0) == [] && |GapRun(1)| == 1 && |GapRun(2)| == 2;
    if n > 2 {
      GapPrefix(n - 1);
      assert GapRun(n)[..2] == GapRun(n - 1)[..2];
    }
  }

  /** The documented rule holds of every run exactly for these settings; the defaults
      (0.3, 2, 3) are not among them. */
  lemma {:induction false} InARowExactly(p: Params)
    ensures (forall steps :: Orders(p, steps) ==> InARow(p, Run(p, steps).log))
       <==> p.minHits <= 1 || p.maxMissed <= 0 || p.threshold > 1.0
  {
    if p.minHits <= 1 || p.maxMissed <= 0 || p.threshold > 1.0 {
      forall steps | Orders(p, steps) ensures InARow(p, Run(p, steps).log) {
        RunHistory(p, steps);
        InARowWhen(p, Run(p, steps).log);
      }
    } else {
      GapSurfaces(p);
    }
  }
}

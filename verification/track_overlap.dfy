/** Which detection may continue which track, in the coordinates of their boxes. */
module TrackOverlap {
  import opened Boxes
  import opened Matching
  import opened Tracking
  import opened TrackClasses
  import opened TrackFrames
  import TrackCounting

  /** Main result: a live track sighted by a frame was given a detection of its class whose box shares enough
      with its own, and it takes over that box. */
  lemma {:induction false} ContinuedOnly(p: Params, st: State, detections: seq<Detection>, order: seq<string>, s: Track)
    requires Numbered(st) && Distinct(order)
    requires s in Frame(p, st, detections, order).sightings && s.id in Ids(st.tracks)
    ensures exists t, d :: (
      && t in st.tracks && d in detections && t.id == s.id && t.key == d.key == s.key
      && (p.threshold <= 0.0 || ShareEnough(t.box, d.box, p.threshold))
      && s.box == d.box && s.confidence == d.confidence && s.tag == d.tag && s.hits == t.hits + 1 && s.misses == 0)
  {
    hide Frame, ShareEnough, IoU;
    SightingOrigin(p, st, detections, order, s);
    var t, d :| t in st.tracks && d in detections && SightedBy(p, t, d, s);
    ThresholdExact(t.box, d.box, p.threshold);
  }

  /** Main result: where a class has one track and one detection, the detection continues the track exactly if
      the boxes share enough, and begins a new track otherwise. */
  lemma {:induction false} LonePair(p: Params, st: State, detections: seq<Detection>, order: seq<string>, t: Track, d: Detection)
    requires Numbered(st) && Enumerates(order, Classes(st, detections))
    requires OfClass(st.tracks, d.key) == [t] && ByClass(detections, d.key) == [d]
    ensures var seen := OfClass(Frame(p, st, detections, order).sightings, d.key);
      && |seen| == 1 && seen[0].box == d.box && seen[0].misses == 0
      && (if p.threshold <= 0.0 || ShareEnough(t.box, d.box, p.threshold) then seen[0].id == t.id && seen[0].hits == t.hits + 1
          else seen[0].id >= st.nextId && seen[0].hits == 1)
  {
    hide Frame, ShareEnough, IoU, ClassSightings, StartId;
    var c := d.key;
    var id := StartId(p, st, detections, order, c);
    FrameByClass(p, st, detections, order, c);
    ByClassMember(detections, c, d);
    assert d in [d];
    assert c in Classes(st, detections);
    ThresholdExact(t.box, d.box, p.threshold);
    LoneSighting(p, t, c, d, id);
  }

  lemma {:induction false} LoneSighting(p: Params, t: Track, c: string, d: Detection, id: int)
    ensures ClassSightings(p, [t], c, [d], id) == if IoU(t.box, d.box) >= p.threshold then [Sight(t, d)] else [NewTrack(d, c, id)]
  {
    hide IoU;
    if IoU(t.box, d.box) >= p.threshold {
      TrackCounting.OnePair(t, d, p.threshold);
      LonePairing(t, d, IoU(t.box, d.box));
    } else {
      NoPair(t, d, p.threshold);
    }
    LoneBirth(d, c, Indices(Chosen([t], [d], p.threshold)), id);
  }

  lemma {:induction false} LonePairing(t: Track, d: Detection, score: real)
    ensures Fits([Cand(score, t.id, 0)], [t], [d]) && Indices([Cand(score, t.id, 0)]) == {0}
    ensures Matched([t], [Cand(score, t.id, 0)], [d]) == [Sight(t, d)]
  {
    var pairs := [Cand(score, t.id, 0)];
    assert t in [t] && t.id in Ids([t]);
    assert pairs[..0] == [];
    assert Lookup([t], t.id) == t;
  }

  lemma {:induction false} NoPair(t: Track, d: Detection, threshold: real)
    requires IoU(t.box, d.box) < threshold
    ensures Chosen([t], [d], threshold) == []
  {
    var cands, r := Candidates([t], [d]), Chosen([t], [d], threshold);
    GreedySound(SortDesc(cands), threshold);
    forall c ensures c !in r {
      SortMembers(cands, c);
      CandidatesMember([t], [d], c);
    }
    HasMember(r);
  }

  lemma HasMember(s: seq<Cand>)
    ensures s != [] ==> exists c :: c in s
  {
    if s != [] { assert s[0] in s; }
  }

  lemma {:induction false} LoneBirth(d: Detection, c: string, taken: set<nat>, id: int)
    ensures Births([d], c, taken, id) == if 0 in taken then [] else [NewTrack(d, c, id)]
  {
    assert [d][..0] == [];
  }
}

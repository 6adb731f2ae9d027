/** `ObjectTracker`: persistent track ids from per-frame detections. The insertion-ordered dict of
    live tracks is the sequence of its values; the iteration order of the set of classes, which the
    language leaves open, is a parameter. */
module Tracking {
  import Boxes
  import opened Matching

  datatype Detection = Detection(tag: string, key: string, confidence: real, box: Boxes.Box)

  datatype Tracked = Tracked(tag: string, key: string, confidence: real, box: Boxes.Box, trackId: int)

  datatype Track = Track(id: int, key: string, tag: string, confidence: real, box: Boxes.Box, hits: int, misses: int)

  datatype Params = Params(threshold: real, minHits: int, maxMissed: int)

  const DEFAULTS := Params(0.3, 2, 3)

  datatype State = State(tracks: seq<Track>, nextId: int)

  /** A state together with the tracks sighted so far in this frame, each as it was left by the
      sighting, in the order the code handles them. */
  datatype Pass = Pass(st: State, sightings: seq<Track>)

  // ----- selections -----

  function Ids(s: seq<Track>): set<int> { set t | t in s :: t.id }

  ghost predicate Ascending(s: seq<Track>) {
    forall i, j :: 0 <= i < j < |s| ==> s[i].id < s[j].id
  }

  function OfClass(s: seq<Track>, c: string): seq<Track> {
    if s == [] then []
    else
      var n := |s| - 1;
      if s[n].key == c then OfClass(s[..n], c) + [s[n]] else OfClass(s[..n], c)
  }

  function ByClass(s: seq<Detection>, c: string): seq<Detection> {
    if s == [] then []
    else
      var n := |s| - 1;
      if s[n].key == c then ByClass(s[..n], c) + [s[n]] else ByClass(s[..n], c)
  }

  function Keys(s: seq<Track>): set<string> { set t | t in s :: t.key }

  /** `set(by_class) | {track.detection_key for track in ...}` */
  function Classes(st: State, detections: seq<Detection>): set<string> {
    (set d | d in detections :: d.key) + Keys(st.tracks)
  }

  ghost predicate Enumerates<T(!new)>(order: seq<T>, s: set<T>) {
    && (forall x :: x in order <==> x in s)
    && (forall i, j :: 0 <= i < j < |order| ==> order[i] != order[j])
  }

  // ----- one class -----

  function Row(t: Track, detections: seq<Detection>): seq<Cand> {
    seq(|detections|, i requires 0 <= i < |detections| => Cand(Boxes.IoU(t.box, detections[i].box), t.id, i))
  }

  function Candidates(tracks: seq<Track>, detections: seq<Detection>): seq<Cand> {
    if tracks == [] then []
    else Candidates(tracks[..|tracks| - 1], detections) + Row(tracks[|tracks| - 1], detections)
  }

  ghost predicate Fits(pairs: seq<Cand>, tracks: seq<Track>, detections: seq<Detection>) {
    forall c :: c in pairs ==> c.tid in Ids(tracks) && c.index < |detections|
  }

  lemma {:induction false} CandidatesMember(tracks: seq<Track>, detections: seq<Detection>, c: Cand)
    ensures c in Candidates(tracks, detections) <==>
      c.index < |detections| && exists t :: t in tracks && t.id == c.tid && c.score == Boxes.IoU(t.box, detections[c.index].box)
  {
    if tracks != [] {
      var n := |tracks| - 1;
      var t := tracks[n];
      CandidatesMember(tracks[..n], detections, c);
      assert forall u :: u in tracks <==> u in tracks[..n] || u == t;
      if c.index < |detections| && t.id == c.tid && c.score == Boxes.IoU(t.box, detections[c.index].box) {
        assert Row(t, detections)[c.index] == c;
      }
    }
  }

  function Chosen(tracks: seq<Track>, detections: seq<Detection>, threshold: real): (r: seq<Cand>)
    ensures Fits(r, tracks, detections) && OneToOne(r)
  {
    var sorted := SortDesc(Candidates(tracks, detections));
    assert Fits(Greedy(sorted, threshold), tracks, detections) && OneToOne(Greedy(sorted, threshold)) by {
      GreedySound(sorted, threshold);
      forall c | c in Greedy(sorted, threshold) ensures c.tid in Ids(tracks) && c.index < |detections| {
        SortMembers(Candidates(tracks, detections), c);
        CandidatesMember(tracks, detections, c);
      }
    }
    Greedy(sorted, threshold)
  }

  function MatchOf(pairs: seq<Cand>, detections: seq<Detection>): (r: map<int, Detection>)
    requires forall c :: c in pairs ==> c.index < |detections|
  {
    if pairs == [] then map[]
    else
      var n := |pairs| - 1;
      assert pairs[n] in pairs;
      assert forall c :: c in pairs[..n] ==> c in pairs;
      MatchOf(pairs[..n], detections)[pairs[n].tid := detections[pairs[n].index]]
  }

  function Sight(t: Track, d: Detection): Track {
    t.(box := d.box, confidence := d.confidence, tag := d.tag, hits := t.hits + 1, misses := 0)
  }

  /** What becomes of one live track: sighted, missed (and dropped after too many misses), or not
      concerned. */
  datatype Fate = Dropped | Kept(track: Track)

  function Next(t: Track, matched: map<int, Detection>, missed: set<int>, maxMissed: int): Fate {
    if t.id in matched then Kept(Sight(t, matched[t.id]))
    else if t.id !in missed then Kept(t)
    else if t.misses + 1 > maxMissed then Dropped
    else Kept(t.(misses := t.misses + 1))
  }

  function Advance(tracks: seq<Track>, matched: map<int, Detection>, missed: set<int>, maxMissed: int): seq<Track> {
    if tracks == [] then []
    else
      var n := |tracks| - 1;
      var before := Advance(tracks[..n], matched, missed, maxMissed);
      match Next(tracks[n], matched, missed, maxMissed)
      case Dropped => before
      case Kept(t) => before + [t]
  }

  function NewTrack(d: Detection, c: string, id: int): Track {
    Track(id, c, d.tag, d.confidence, d.box, 1, 0)
  }

  /** New tracks for the detections whose position is not taken, numbered from `id`. */
  function Births(detections: seq<Detection>, c: string, taken: set<nat>, id: int): seq<Track> {
    if detections == [] then []
    else
      var n := |detections| - 1;
      var before := Births(detections[..n], c, taken, id);
      if n in taken then before else before + [NewTrack(detections[n], c, id + |before|)]
  }

  function Lookup(tracks: seq<Track>, id: int): (t: Track)
    requires id in Ids(tracks)
    ensures t in tracks && t.id == id
  {
    var n := |tracks| - 1;
    if tracks[n].id == id then tracks[n]
    else
      assert forall t :: t in tracks <==> t in tracks[..n] || t == tracks[n];
      Lookup(tracks[..n], id)
  }

  function Matched(tracks: seq<Track>, pairs: seq<Cand>, detections: seq<Detection>): seq<Track>
    requires Fits(pairs, tracks, detections)
  {
    if pairs == [] then []
    else
      var n := |pairs| - 1;
      assert pairs[n] in pairs;
      assert forall c :: c in pairs[..n] ==> c in pairs;
      Matched(tracks, pairs[..n], detections) + [Sight(Lookup(tracks, pairs[n].tid), detections[pairs[n].index])]
  }

  function ClassMatch(p: Params, mine: seq<Track>, detections: seq<Detection>): map<int, Detection> {
    MatchOf(Chosen(mine, detections, p.threshold), detections)
  }

  function ClassTracks(p: Params, all: seq<Track>, mine: seq<Track>, detections: seq<Detection>): seq<Track> {
    var m := ClassMatch(p, mine, detections);
    Advance(all, m, Ids(mine) - m.Keys, p.maxMissed)
  }

  function ClassBirths(p: Params, mine: seq<Track>, c: string, detections: seq<Detection>, id: int): seq<Track> {
    Births(detections, c, Indices(Chosen(mine, detections, p.threshold)), id)
  }

  function ClassSightings(p: Params, mine: seq<Track>, c: string, detections: seq<Detection>, id: int): seq<Track> {
    Matched(mine, Chosen(mine, detections, p.threshold), detections) + ClassBirths(p, mine, c, detections, id)
  }

  /** The pass over class `c`, given that class's detections. */
  function ClassPass(p: Params, at: Pass, c: string, detections: seq<Detection>): Pass {
    var mine := OfClass(at.st.tracks, c);
    var births := ClassBirths(p, mine, c, detections, at.st.nextId);
    Pass(State(ClassTracks(p, at.st.tracks, mine, detections) + births, at.st.nextId + |births|),
         at.sightings + ClassSightings(p, mine, c, detections, at.st.nextId))
  }

  /** One call of `update` that visits the classes in the given order. */
  function Frame(p: Params, st: State, detections: seq<Detection>, order: seq<string>): Pass {
    if order == [] then Pass(st, [])
    else
      var n := |order| - 1;
      ClassPass(p, Frame(p, st, detections, order[..n]), order[n], ByClass(detections, order[n]))
  }

  function ToTracked(t: Track): Tracked { Tracked(t.tag, t.key, t.confidence, t.box, t.id) }

  /** The sightings surfaced to the caller: those of tracks with at least `minHits` hits. */
  function Confirm(sightings: seq<Track>, minHits: int): seq<Tracked> {
    if sightings == [] then []
    else
      var n := |sightings| - 1;
      var before := Confirm(sightings[..n], minHits);
      if sightings[n].hits >= minHits then before + [ToTracked(sightings[n])] else before
  }

  // ----- facts about these selections -----

  lemma {:induction false} OfClassConcat(a: seq<Track>, b: seq<Track>, c: string)
    ensures OfClass(a + b, c) == OfClass(a, c) + OfClass(b, c)
  {
    if b == [] {
      assert a + b == a;
    } else {
      var n := |b| - 1;
      assert (a + b)[..|a| + n] == a + b[..n];
      OfClassConcat(a, b[..n], c);
    }
  }

  lemma {:induction false} OfClassMember(s: seq<Track>, c: string, t: Track)
    ensures t in OfClass(s, c) <==> t in s && t.key == c
  {
    if s != [] {
      var n := |s| - 1;
      OfClassMember(s[..n], c, t);
      assert t in s <==> t in s[..n] || t == s[n];
    }
  }

  lemma {:induction false} OfClassAscending(s: seq<Track>, c: string)
    requires Ascending(s)
    ensures Ascending(OfClass(s, c))
  {
    if s != [] {
      var n := |s| - 1;
      OfClassAscending(s[..n], c);
      forall t | t in OfClass(s[..n], c) ensures t.id < s[n].id {
        OfClassMember(s[..n], c, t);
      }
    }
  }

  lemma {:induction false} ConfirmConcat(a: seq<Track>, b: seq<Track>, minHits: int)
    ensures Confirm(a + b, minHits) == Confirm(a, minHits) + Confirm(b, minHits)
  {
    if b == [] {
      assert a + b == a;
    } else {
      var n := |b| - 1;
      assert (a + b)[..|a| + n] == a + b[..n];
      ConfirmConcat(a, b[..n], minHits);
    }
  }

  lemma {:induction false} ConfirmMember(s: seq<Track>, minHits: int, r: Tracked)
    ensures r in Confirm(s, minHits) <==> exists t :: t in s && t.hits >= minHits && ToTracked(t) == r
  {
    if s != [] {
      var n := |s| - 1;
      ConfirmMember(s[..n], minHits, r);
      assert forall t :: t in s <==> t in s[..n] || t == s[n];
    }
  }

  lemma {:induction false} OfClassSnoc(s: seq<Track>, t: Track, c: string)
    ensures OfClass(s + [t], c) == if t.key == c then OfClass(s, c) + [t] else OfClass(s, c)
  {
    assert (s + [t])[..|s|] == s;
  }

  lemma {:induction false} AdvanceSnoc(s: seq<Track>, t: Track, matched: map<int, Detection>, missed: set<int>, maxMissed: int)
    ensures var next := Next(t, matched, missed, maxMissed);
      Advance(s + [t], matched, missed, maxMissed)
      == if next.Kept? then Advance(s, matched, missed, maxMissed) + [next.track] else Advance(s, matched, missed, maxMissed)
  {
    assert (s + [t])[..|s|] == s;
  }

  /** A class pass changes nothing for the other classes. */
  lemma {:induction false} AdvanceOther(s: seq<Track>, c: string, matched: map<int, Detection>, missed: set<int>, maxMissed: int)
    requires forall t :: t in s && t.key == c ==> t.id !in matched && t.id !in missed
    ensures OfClass(Advance(s, matched, missed, maxMissed), c) == OfClass(s, c)
  {
    if s != [] {
      var n := |s| - 1;
      assert s[n] in s;
      AdvanceOther(s[..n], c, matched, missed, maxMissed);
      var next := Next(s[n], matched, missed, maxMissed);
      if next.Kept? {
        OfClassSnoc(Advance(s[..n], matched, missed, maxMissed), next.track, c);
      }
    }
  }

  /** Restricting to a class and advancing commute. */
  lemma {:induction false} AdvanceMine(s: seq<Track>, c: string, matched: map<int, Detection>, missed: set<int>, maxMissed: int)
    ensures OfClass(Advance(s, matched, missed, maxMissed), c) == Advance(OfClass(s, c), matched, missed, maxMissed)
  {
    if s != [] {
      var n := |s| - 1;
      AdvanceMine(s[..n], c, matched, missed, maxMissed);
      AdvanceSnoc(OfClass(s[..n], c), s[n], matched, missed, maxMissed);
      var next := Next(s[n], matched, missed, maxMissed);
      if next.Kept? {
        OfClassSnoc(Advance(s[..n], matched, missed, maxMissed), next.track, c);
      }
    }
  }

  lemma {:induction false} AdvanceMember(s: seq<Track>, matched: map<int, Detection>, missed: set<int>, maxMissed: int, u: Track)
    ensures u in Advance(s, matched, missed, maxMissed) <==>
      exists t :: t in s && Next(t, matched, missed, maxMissed) == Kept(u)
  {
    if s != [] {
      var n := |s| - 1;
      AdvanceMember(s[..n], matched, missed, maxMissed, u);
      assert forall t :: t in s <==> t in s[..n] || t == s[n];
    }
  }

  lemma IdsSnoc(s: seq<Track>, t: Track)
    ensures Ids(s + [t]) == Ids(s) + {t.id}
  {
    assert forall u :: u in s + [t] <==> u in s || u == t;
  }

  lemma AscendingSnoc(s: seq<Track>, t: Track)
    ensures Ascending(s + [t]) <==> Ascending(s) && forall i :: i in Ids(s) ==> i < t.id
  {
    var r := s + [t];
    if Ascending(r) {
      forall i | i in Ids(s) ensures i < t.id {
        var k :| 0 <= k < |s| && s[k].id == i;
        assert r[k].id < r[|s|].id;
      }
      assert forall i, j :: 0 <= i < j < |s| ==> s[i] == r[i] && s[j] == r[j];
    }
    if Ascending(s) && forall i :: i in Ids(s) ==> i < t.id {
      forall i, j | 0 <= i < j < |r| ensures r[i].id < r[j].id {
        assert r[i] == s[i] && s[i] in s && s[i].id in Ids(s);
        assert r[j] == if j < |s| then s[j] else t;
      }
    }
  }

  lemma {:induction false} AdvanceIds(s: seq<Track>, matched: map<int, Detection>, missed: set<int>, maxMissed: int)
    ensures Ids(Advance(s, matched, missed, maxMissed)) <= Ids(s)
  {
    if s != [] {
      var n := |s| - 1;
      assert s == s[..n] + [s[n]];
      IdsSnoc(s[..n], s[n]);
      AdvanceIds(s[..n], matched, missed, maxMissed);
      var next := Next(s[n], matched, missed, maxMissed);
      if next.Kept? {
        IdsSnoc(Advance(s[..n], matched, missed, maxMissed), next.track);
      }
    }
  }

  lemma {:induction false} AdvanceAscending(s: seq<Track>, matched: map<int, Detection>, missed: set<int>, maxMissed: int)
    requires Ascending(s)
    ensures Ascending(Advance(s, matched, missed, maxMissed))
  {
    if s != [] {
      var n := |s| - 1;
      assert s == s[..n] + [s[n]];
      AscendingSnoc(s[..n], s[n]);
      AdvanceAscending(s[..n], matched, missed, maxMissed);
      AdvanceIds(s[..n], matched, missed, maxMissed);
      var next := Next(s[n], matched, missed, maxMissed);
      if next.Kept? {
        AscendingSnoc(Advance(s[..n], matched, missed, maxMissed), next.track);
      }
    }
  }

  lemma {:induction false} BirthsFacts(detections: seq<Detection>, c: string, taken: set<nat>, id: int)
    ensures forall i :: 0 <= i < |Births(detections, c, taken, id)| ==> Births(detections, c, taken, id)[i].id == id + i
    ensures forall t :: t in Births(detections, c, taken, id) ==> t.key == c && t.hits == 1 && t.misses == 0
  {
    if detections != [] {
      var n := |detections| - 1;
      BirthsFacts(detections[..n], c, taken, id);
    }
  }

  lemma {:induction false} MatchOfDomain(pairs: seq<Cand>, detections: seq<Detection>)
    requires forall c :: c in pairs ==> c.index < |detections|
    ensures MatchOf(pairs, detections).Keys == Tids(pairs)
  {
    if pairs != [] {
      var n := |pairs| - 1;
      assert pairs == pairs[..n] + [pairs[n]];
      assert forall c :: c in pairs[..n] ==> c in pairs;
      MatchOfDomain(pairs[..n], detections);
      Snoc(pairs[..n], pairs[n]);
    }
  }
}
